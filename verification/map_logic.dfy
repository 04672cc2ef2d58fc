/**
 * The procedural biome generator of game-map/map-logic.js.
 *
 * A session holds the active server id and a memo table of hashed lattice
 * values.  Every biome query is a pure function of (server id, x, y): the
 * lattice value at an integer point is the first 32 bits of the SHA-256 digest
 * of the key `serverId:x:y:salt`, divided by 0xFFFFFFFF; value noise blends
 * four lattice corners with an eased interpolation; three noise octaves make
 * the elevation, a latitude-shifted channel the temperature, a coarser one
 * the humidity, and a fixed decision tree turns them into a biome label.
 *
 * SHA-256 (with the UTF-8 encoding before it) and the cosine easing are not
 * modelled; they are supplied as the two fields of `Primitives`, constrained
 * only by the facts the code relies on.  Floating-point numbers are `real`s.
 */
module MapLogic {
  import opened Wrappers
  import opened JsStrings

  newtype byte = x: int | 0 <= x < 256

  /** The default lattice spacing (`GRID_SIZE`). */
  const GridSize: real := 6.0
  /** The coarser lattice spacing of the humidity channel (`HUMIDITY_GRID_SIZE`). */
  const HumidityGridSize: real := 15.0
  /** `0xFFFFFFFF`, the divisor that maps a 32-bit digest prefix into [0, 1]. */
  const HashDivisor: real := 4294967295.0
  const NotInitializedMessage: string := "Not initialized."

  /**
   * The two foreign computations: `sha256` stands for `crypto.subtle.digest`
   * applied to the UTF-8 encoding of a key, `ease` for
   * `t => (1 - Math.cos(t * Math.PI)) * 0.5`.
   */
  datatype Primitives = Primitives(sha256: imap<string, seq<byte>>, ease: imap<real, real>) {
    ghost predicate Valid() {
      && (forall m :: m in sha256 && |sha256[m]| == 32)
      && (forall t :: t in ease && 0.0 <= ease[t] <= 1.0)
      && ease[0.0] == 0.0
      && ease[1.0] == 1.0
    }
  }

  datatype Biome =
    | Basecamp
    | Volcano | SnowMountain | Mountain
    | Hill
    | Jungle | Forest | Plains
    | River | Desert | Tundra | Swamp

  /** The label string the module returns for each biome. */
  function Name(b: Biome): string {
    match b
    case Basecamp => "BASECAMP"
    case Volcano => "VOLCANO"
    case SnowMountain => "SNOW_MOUNTAIN"
    case Mountain => "MOUNTAIN"
    case Hill => "HILL"
    case Jungle => "JUNGLE"
    case Forest => "FOREST"
    case Plains => "PLAINS"
    case River => "RIVER"
    case Desert => "DESERT"
    case Tundra => "TUNDRA"
    case Swamp => "SWAMP"
  }

  /** A biome, or the error `getBiome` throws. */
  datatype BiomeResult = Ok(biome: Biome) | Err(message: string)

  // ---------------------------------------------------------------------
  // The digest prefix: `parseInt(hex.substring(0, 8), 16)`
  // ---------------------------------------------------------------------

  function HexDigit(d: int): char
    requires 0 <= d < 16
  {
    "0123456789abcdef"[d]
  }

  predicate IsHexDigit(c: char) {
    ('0' <= c <= '9') || ('a' <= c <= 'f') || ('A' <= c <= 'F')
  }

  function HexValue(c: char): int
    requires IsHexDigit(c)
  {
    if '0' <= c <= '9' then c as int - '0' as int
    else if 'a' <= c <= 'f' then c as int - 'a' as int + 10
    else c as int - 'A' as int + 10
  }

  lemma {:induction false} HexDigitValue(d: int)
    requires 0 <= d < 16
    ensures IsHexDigit(HexDigit(d)) && HexValue(HexDigit(d)) == d
  {
  }

  /** `bytes.map(b => b.toString(16).padStart(2, '0')).join('')`. */
  function Hex(bytes: seq<byte>): (r: string)
    ensures |r| == 2 * |bytes|
    ensures forall i :: 0 <= i < |r| ==> IsHexDigit(r[i])
  {
    if bytes == [] then ""
    else
      var b := bytes[|bytes| - 1] as int;
      HexDigitValue(b / 16);
      HexDigitValue(b % 16);
      Hex(bytes[..|bytes| - 1]) + [HexDigit(b / 16), HexDigit(b % 16)]
  }

  /** `parseInt(s, 16)` on a non-empty string of hexadecimal digits. */
  function ParseHex(s: string): int
    requires forall i :: 0 <= i < |s| ==> IsHexDigit(s[i])
  {
    if s == [] then 0 else ParseHex(s[..|s| - 1]) * 16 + HexValue(s[|s| - 1])
  }

  /** The unsigned big-endian number a byte string denotes. */
  function BigEndian(bytes: seq<byte>): nat {
    if bytes == [] then 0 else BigEndian(bytes[..|bytes| - 1]) * 256 + bytes[|bytes| - 1] as nat
  }

  lemma {:induction false} HexPrefix(bytes: seq<byte>, k: nat)
    requires k <= |bytes|
    ensures Hex(bytes)[..2 * k] == Hex(bytes[..k])
    decreases |bytes|
  {
    if k < |bytes| {
      var init := bytes[..|bytes| - 1];
      HexPrefix(init, k);
      assert init[..k] == bytes[..k];
      assert Hex(bytes)[..2 * k] == Hex(init)[..2 * k];
    } else {
      assert bytes[..k] == bytes;
    }
  }

  lemma {:induction false} ParseHexOfHex(bytes: seq<byte>)
    ensures ParseHex(Hex(bytes)) == BigEndian(bytes)
    decreases |bytes|
  {
    if bytes != [] {
      var init := bytes[..|bytes| - 1];
      var b := bytes[|bytes| - 1] as int;
      var h := Hex(bytes);
      ParseHexOfHex(init);
      HexDigitValue(b / 16);
      HexDigitValue(b % 16);
      assert h == Hex(init) + [HexDigit(b / 16), HexDigit(b % 16)];
      assert h[..|h| - 1] == Hex(init) + [HexDigit(b / 16)];
      assert (Hex(init) + [HexDigit(b / 16)])[..|Hex(init)|] == Hex(init);
      calc {
        ParseHex(h);
        ParseHex(Hex(init) + [HexDigit(b / 16)]) * 16 + b % 16;
        (BigEndian(init) * 16 + b / 16) * 16 + b % 16;
        BigEndian(init) * 256 + b;
      }
    }
  }

  /** The big-endian value of four bytes, written out. */
  lemma {:induction false} BigEndianFour(d: seq<byte>)
    requires |d| == 4
    ensures BigEndian(d) == d[0] as int * 0x100_0000 + d[1] as int * 0x1_0000 + d[2] as int * 0x100 + d[3] as int
  {
    var d1, d2, d3 := d[..1], d[..2], d[..3];
    assert d1[..0] == [];
    assert d2[..1] == d1 && d3[..2] == d2 && d[..3] == d3;
    calc {
      BigEndian(d);
      BigEndian(d3) * 256 + d[3] as int;
      (BigEndian(d2) * 256 + d[2] as int) * 256 + d[3] as int;
      ((BigEndian(d1) * 256 + d[1] as int) * 256 + d[2] as int) * 256 + d[3] as int;
      ((d[0] as int * 256 + d[1] as int) * 256 + d[2] as int) * 256 + d[3] as int;
    }
  }

  /**
   * The 32-bit number read from the first eight hex digits of a digest: it is
   * the big-endian value of the first four bytes.
   */
  function DigestPrefixValue(digest: seq<byte>): (n: int)
    requires |digest| >= 4
    ensures n == BigEndian(digest[..4]) == Prefix32(digest)
  {
    var h := Hex(digest);
    HexPrefix(digest, 4);
    ParseHexOfHex(digest[..4]);
    BigEndianFour(digest[..4]);
    ParseHex(h[..8])
  }

  // ---------------------------------------------------------------------
  // Hashed lattice values
  // ---------------------------------------------------------------------

  /** How a template literal renders `serverId`: `null` before `initialize`. */
  function SeedText(serverId: Option<string>): string {
    if serverId.Some? then serverId.value else "null"
  }

  /**
   * A memo key, held as its four parts; the table and the hash see its text
   * `${serverId}:${x}:${y}:${salt}`.
   */
  datatype MemoKey = Key(seed: string, x: int, y: int, salt: string)

  function KeyText(k: MemoKey): string {
    k.seed + ":" + IntToString(k.x) + ":" + IntToString(k.y) + ":" + k.salt
  }

  /** The first four digest bytes read as a big-endian unsigned number. */
  function Prefix32(digest: seq<byte>): (n: int)
    requires |digest| >= 4
    ensures 0 <= n <= 0xFFFF_FFFF
  {
    digest[0] as int * 0x100_0000 + digest[1] as int * 0x1_0000 + digest[2] as int * 0x100 + digest[3] as int
  }

  /** Every lattice value lies in [0, 1]. */
  ghost predicate InUnitRange(l: imap<MemoKey, real>) {
    forall key :: key in l && 0.0 <= l[key] <= 1.0
  }

  /**
   * The hashed value of a key: the 32-bit prefix of its digest divided by
   * 0xFFFFFFFF, a number in [0, 1].
   */
  function LatticeValue(p: Primitives, key: MemoKey): (v: real)
    requires p.Valid()
    ensures 0.0 <= v <= 1.0
  {
    var d := p.sha256[KeyText(key)];
    BigEndianFour(d[..4]);
    BigEndian(d[..4]) as real / HashDivisor
  }

  /** A lattice that gives every key its hashed value. */
  ghost predicate IsHashLattice(p: Primitives, l: imap<MemoKey, real>)
    requires p.Valid()
  {
    forall key {:trigger LatticeValue(p, key)} :: key in l && l[key] == LatticeValue(p, key)
  }

  /** The lattice of hashed values. */
  ghost function Hashed(p: Primitives): (l: imap<MemoKey, real>)
    requires p.Valid()
    ensures IsHashLattice(p, l) && InUnitRange(l)
  {
    imap key: MemoKey | true :: LatticeValue(p, key)
  }

  // ---------------------------------------------------------------------
  // Value noise
  // ---------------------------------------------------------------------

  /** `interpolate(a, b, t)`: the eased blend `a * (1 - f) + b * f`, f = ease(t). */
  function Interpolate(p: Primitives, a: real, b: real, t: real): real
    requires p.Valid()
  {
    Blend(a, b, p.ease[t])
  }

  /** The blend `a * (1 - f) + b * f` with weight `f`. */
  function Blend(a: real, b: real, f: real): real {
    a * (1.0 - f) + b * f
  }

  /** A blend with weight in [0, 1] lies between its two ends and meets them at 0 and 1. */
  lemma BlendBetween(a: real, b: real, f: real)
    requires 0.0 <= f <= 1.0
    ensures Min(a, b) <= Blend(a, b, f) <= Max(a, b)
    ensures f == 0.0 ==> Blend(a, b, f) == a
    ensures f == 1.0 ==> Blend(a, b, f) == b
  {
    var s := (b - a) * f;
    assert Blend(a, b, f) == a + s by {
      assert a * (1.0 - f) == a - a * f;
      assert s == b * f - a * f;
    }
    if a <= b {
      ScaleBetween(b - a, f);
    } else {
      ScaleBetween(a - b, f);
      assert s == -((a - b) * f);
    }
  }

  lemma ScaleBetween(d: real, f: real)
    requires d >= 0.0 && 0.0 <= f <= 1.0
    ensures 0.0 <= d * f <= d
  {
    assert d - d * f == d * (1.0 - f);
  }

  /**
   * `interpolate` never leaves the range of its two ends, returns `a` at
   * t = 0 and `b` at t = 1.
   */
  lemma InterpolateBetween(p: Primitives, a: real, b: real, t: real)
    requires p.Valid()
    ensures Min(a, b) <= Interpolate(p, a, b, t) <= Max(a, b)
    ensures t == 0.0 ==> Interpolate(p, a, b, t) == a
    ensures t == 1.0 ==> Interpolate(p, a, b, t) == b
  {
    BlendBetween(a, b, p.ease[t]);
  }

  /**
   * The lattice cell of a coordinate: `ix = Math.floor(v / g)` and the
   * fractional offset `fx = v / g - ix`.
   */
  function LatticeCell(v: real, g: real): (cell: (int, real))
    requires g > 0.0
    ensures 0.0 <= cell.1 < 1.0
    ensures cell.0 as real + cell.1 == v / g
  {
    var ix := (v / g).Floor;
    (ix, v / g - ix as real)
  }

  /** `customGridSize !== null ? customGridSize : GRID_SIZE`. */
  function GridFor(custom: Option<real>): real {
    if custom.Some? then custom.value else GridSize
  }

  /** The arguments of one `getNoiseValue` call, with the server id it reads. */
  datatype NoiseQuery = Query(seed: string, x: real, y: real, salt: string, grid: real)

  function Min(a: real, b: real): real { if a <= b then a else b }
  function Max(a: real, b: real): real { if a <= b then b else a }

  /**
   * `getNoiseValue(x, y, salt, g)`: the corners (ix, iy), (ix+1, iy),
   * (ix, iy+1), (ix+1, iy+1) blended first along x with `fx`, then along y
   * with `fy`.
   */
  function NoiseValue(p: Primitives, l: imap<MemoKey, real>, q: NoiseQuery): (r: real)
    requires p.Valid() && InUnitRange(l) && q.grid > 0.0
    ensures 0.0 <= r <= 1.0
  {
    var (ix, fx) := LatticeCell(q.x, q.grid);
    var (iy, fy) := LatticeCell(q.y, q.grid);
    var v1, v2 := l[Key(q.seed, ix, iy, q.salt)], l[Key(q.seed, ix + 1, iy, q.salt)];
    var v3, v4 := l[Key(q.seed, ix, iy + 1, q.salt)], l[Key(q.seed, ix + 1, iy + 1, q.salt)];
    InterpolateBetween(p, v1, v2, fx);
    InterpolateBetween(p, v3, v4, fx);
    InterpolateBetween(p, Interpolate(p, v1, v2, fx), Interpolate(p, v3, v4, fx), fy);
    Interpolate(p, Interpolate(p, v1, v2, fx), Interpolate(p, v3, v4, fx), fy)
  }

  lemma {:induction false} NoiseFromCorners(p: Primitives, l: imap<MemoKey, real>, q: NoiseQuery,
                                            v1: real, v2: real, v3: real, v4: real)
    requires p.Valid() && InUnitRange(l) && q.grid > 0.0
    requires var (ix, iy) := (LatticeCell(q.x, q.grid).0, LatticeCell(q.y, q.grid).0);
      && v1 == l[Key(q.seed, ix, iy, q.salt)]
      && v2 == l[Key(q.seed, ix + 1, iy, q.salt)]
      && v3 == l[Key(q.seed, ix, iy + 1, q.salt)]
      && v4 == l[Key(q.seed, ix + 1, iy + 1, q.salt)]
    ensures var (fx, fy) := (LatticeCell(q.x, q.grid).1, LatticeCell(q.y, q.grid).1);
      NoiseValue(p, l, q) == Interpolate(p, Interpolate(p, v1, v2, fx), Interpolate(p, v3, v4, fx), fy)
  {
  }

  /** The noise never leaves the range spanned by its four corner values. */
  lemma {:induction false} NoiseBetweenCorners(p: Primitives, l: imap<MemoKey, real>, q: NoiseQuery)
    requires p.Valid() && InUnitRange(l) && q.grid > 0.0
    ensures
      var ix := LatticeCell(q.x, q.grid).0;
      var iy := LatticeCell(q.y, q.grid).0;
      var v1 := l[Key(q.seed, ix, iy, q.salt)];
      var v2 := l[Key(q.seed, ix + 1, iy, q.salt)];
      var v3 := l[Key(q.seed, ix, iy + 1, q.salt)];
      var v4 := l[Key(q.seed, ix + 1, iy + 1, q.salt)];
      var r := NoiseValue(p, l, q);
      Min(Min(v1, v2), Min(v3, v4)) <= r <= Max(Max(v1, v2), Max(v3, v4))
  {
    var (ix, fx) := LatticeCell(q.x, q.grid);
    var (iy, fy) := LatticeCell(q.y, q.grid);
    var v1, v2 := l[Key(q.seed, ix, iy, q.salt)], l[Key(q.seed, ix + 1, iy, q.salt)];
    var v3, v4 := l[Key(q.seed, ix, iy + 1, q.salt)], l[Key(q.seed, ix + 1, iy + 1, q.salt)];
    NoiseFromCorners(p, l, q, v1, v2, v3, v4);
    InterpolateBetween(p, v1, v2, fx);
    InterpolateBetween(p, v3, v4, fx);
    InterpolateBetween(p, Interpolate(p, v1, v2, fx), Interpolate(p, v3, v4, fx), fy);
  }

  /** At a lattice point the noise is the hashed value of that point. */
  lemma {:induction false} NoiseAtLatticePoint(p: Primitives, l: imap<MemoKey, real>, seed: string, i: int, j: int, salt: string, g: real)
    requires p.Valid() && InUnitRange(l) && g > 0.0
    ensures NoiseValue(p, l, Query(seed, i as real * g, j as real * g, salt, g)) == l[Key(seed, i, j, salt)]
  {
    var q := Query(seed, i as real * g, j as real * g, salt, g);
    assert i as real * g / g == i as real;
    assert j as real * g / g == j as real;
    assert LatticeCell(q.x, g) == (i, 0.0);
    assert LatticeCell(q.y, g) == (j, 0.0);
    var v1, v2 := l[Key(seed, i, j, salt)], l[Key(seed, i + 1, j, salt)];
    var v3, v4 := l[Key(seed, i, j + 1, salt)], l[Key(seed, i + 1, j + 1, salt)];
    NoiseFromCorners(p, l, q, v1, v2, v3, v4);
    InterpolateBetween(p, v1, v2, 0.0);
    InterpolateBetween(p, v3, v4, 0.0);
    InterpolateBetween(p, Interpolate(p, v1, v2, 0.0), Interpolate(p, v3, v4, 0.0), 0.0);
  }

  /** A noise field: a value in [0, 1] for every query on a positive grid. */
  ghost predicate IsNoiseField(n: imap<NoiseQuery, real>) {
    forall q: NoiseQuery :: q.grid > 0.0 ==> q in n && 0.0 <= n[q] <= 1.0
  }

  /** A field that answers every query with the value noise of lattice `l`. */
  ghost predicate IsNoiseOf(p: Primitives, l: imap<MemoKey, real>, n: imap<NoiseQuery, real>)
    requires p.Valid() && InUnitRange(l)
  {
    forall q: NoiseQuery {:trigger NoiseValue(p, l, q)} :: q.grid > 0.0 ==> q in n && n[q] == NoiseValue(p, l, q)
  }

  /** The value noise of a lattice, as a field. */
  ghost function Noise(p: Primitives, l: imap<MemoKey, real>): (n: imap<NoiseQuery, real>)
    requires p.Valid() && InUnitRange(l)
    ensures IsNoiseField(n) && IsNoiseOf(p, l, n)
  {
    imap q: NoiseQuery | q.grid > 0.0 :: NoiseValue(p, l, q)
  }

  // ---------------------------------------------------------------------
  // Climate fields and the decision tree
  // ---------------------------------------------------------------------

  /** The three elevation octaves, of increasing frequency. */
  function ElevationQueries(seed: string, x: int, y: int): (NoiseQuery, NoiseQuery, NoiseQuery) {
    var (xr, yr) := (x as real, y as real);
    (Query(seed, xr, yr, "elevation1", GridSize),
     Query(seed, xr * 2.0, yr * 2.0, "elevation2", GridSize),
     Query(seed, xr * 4.0, yr * 4.0, "elevation3", GridSize))
  }

  function TemperatureQuery(seed: string, x: int, y: int): NoiseQuery {
    Query(seed, x as real, y as real, "temp", GridSize)
  }

  /** Humidity varies on the coarser lattice. */
  function HumidityQuery(seed: string, x: int, y: int): NoiseQuery {
    Query(seed, x as real, y as real, "humidity", HumidityGridSize)
  }

  /** The river field stretched along x. */
  function RiverVQuery(seed: string, x: int, y: int): NoiseQuery {
    Query(seed, x as real * 0.5, y as real * 4.0, "river_v", GridSize)
  }

  /** The river field stretched along y. */
  function RiverHQuery(seed: string, x: int, y: int): NoiseQuery {
    Query(seed, x as real * 4.0, y as real * 0.5, "river_h", GridSize)
  }

  /** The three octaves weighted 0.7, 0.2 and 0.1. */
  function Elevation(n: imap<NoiseQuery, real>, seed: string, x: int, y: int): (e: real)
    requires IsNoiseField(n)
    ensures 0.0 <= e <= 1.0
  {
    var (q1, q2, q3) := ElevationQueries(seed, x, y);
    n[q1] * 0.7 + n[q2] * 0.2 + n[q3] * 0.1
  }

  /** Noise minus the latitude term `(y / 1000) * 0.4`: larger y is colder. */
  function Temperature(n: imap<NoiseQuery, real>, seed: string, x: int, y: int): (t: real)
    requires IsNoiseField(n)
    ensures -(y as real / 1000.0) * 0.4 <= t <= 1.0 - (y as real / 1000.0) * 0.4
  {
    n[TemperatureQuery(seed, x, y)] - (y as real / 1000.0) * 0.4
  }

  /** A river field value in the open band (0.48, 0.52). */
  predicate InRiverBand(v: real) {
    0.48 < v < 0.52
  }

  /**
   * The ordered decision tree.  Its postconditions give, for every label,
   * exactly the region of (elevation, temperature, humidity, river fields)
   * that the first-match-wins order assigns to it.
   */
  function Classify(e: real, t: real, h: real, rv: real, rh: real): (b: Biome)
    ensures b != Basecamp
    ensures b == Volcano <==> e > 0.8 && t > 0.85
    ensures b == SnowMountain <==> e > 0.8 && t < 0.3
    ensures b == Mountain <==> e > 0.8 && 0.3 <= t <= 0.85
    ensures b == Hill <==> 0.7 < e <= 0.8
    ensures b == Jungle <==> 0.3 < e <= 0.7 && h > 0.7 && t > 0.8
    ensures b == Forest <==> 0.3 < e <= 0.7 && h > 0.4 && !(h > 0.7 && t > 0.8)
    ensures b == River <==> e <= 0.3 && (InRiverBand(rv) || InRiverBand(rh))
    ensures b == Desert <==>
      e <= 0.3 && !InRiverBand(rv) && !InRiverBand(rh) && t > 0.7 && h < 0.3
    ensures b == Tundra <==>
      e <= 0.3 && !InRiverBand(rv) && !InRiverBand(rh) && t < 0.3
    ensures b == Swamp <==>
      e <= 0.3 && !InRiverBand(rv) && !InRiverBand(rh) && t >= 0.3 && h > 0.65
    ensures b == Plains <==>
      || (0.3 < e <= 0.7 && h <= 0.4)
      || (e <= 0.3 && !InRiverBand(rv) && !InRiverBand(rh) && t >= 0.3 && h <= 0.65
          && !(t > 0.7 && h < 0.3))
  {
    if e > 0.8 then
      if t > 0.85 then Volcano
      else if t < 0.3 then SnowMountain
      else Mountain
    else if e > 0.7 then Hill
    else if e > 0.3 then
      if h > 0.7 && t > 0.8 then Jungle
      else if h > 0.4 then Forest
      else Plains
    else if InRiverBand(rv) || InRiverBand(rh) then River
    else if t > 0.7 && h < 0.3 then Desert
    else if t < 0.3 then Tundra
    else if h > 0.65 then Swamp
    else Plains
  }

  /** Above the lowlands the two river fields play no part in the label. */
  lemma RiverFieldsOnlyInLowlands(e: real, t: real, h: real, rv: real, rh: real, rv': real, rh': real)
    requires e > 0.3
    ensures Classify(e, t, h, rv, rh) == Classify(e, t, h, rv', rh')
  {
  }

  /** No branch of the tree is dead: every non-origin label has inputs in range. */
  lemma {:induction false} EveryLabelReachable(b: Biome)
    requires b != Basecamp
    ensures exists e, t, h, rv, rh ::
      && 0.0 <= e <= 1.0 && 0.0 <= h <= 1.0 && 0.0 <= rv <= 1.0 && 0.0 <= rh <= 1.0
      && 0.0 <= t <= 1.0
      && Classify(e, t, h, rv, rh) == b
  {
    var e, t, h, rv, rh := 0.0, 0.5, 0.5, 0.0, 0.0;
    match b {
      case Volcano => e, t := 0.9, 0.9;
      case SnowMountain => e, t := 0.9, 0.1;
      case Mountain => e := 0.9;
      case Hill => e := 0.75;
      case Jungle => e, t, h := 0.5, 0.9, 0.9;
      case Forest => e := 0.5;
      case Plains => e, h := 0.5, 0.1;
      case River => rv := 0.5;
      case Desert => t, h := 0.9, 0.1;
      case Tundra => t := 0.1;
      case Swamp => h := 0.9;
    }
    assert Classify(e, t, h, rv, rh) == b;
  }

  /** A server id is "truthy" in JavaScript when it is a non-empty string. */
  predicate Initialized(serverId: Option<string>) {
    serverId.Some? && serverId.value != ""
  }

  /**
   * `getBiome(x, y)` as a function of the session's server id, over the noise
   * field `n`: the origin is BASECAMP before anything else is looked at, a
   * missing server id is an error at every other point, and otherwise the
   * decision tree decides.
   */
  function BiomeAt(n: imap<NoiseQuery, real>, serverId: Option<string>, x: int, y: int): (r: BiomeResult)
    requires IsNoiseField(n)
    ensures x == 0 && y == 0 ==> r == Ok(Basecamp)
    ensures !(x == 0 && y == 0) ==> (r.Err? <==> !Initialized(serverId))
    ensures r.Err? ==> r.message == NotInitializedMessage
    ensures r.Ok? ==> (r.biome == Basecamp <==> x == 0 && y == 0)
  {
    if x == 0 && y == 0 then Ok(Basecamp)
    else if !Initialized(serverId) then Err(NotInitializedMessage)
    else
      var (e, t, h, rv, rh) := ClimateAt(n, serverId.value, x, y);
      Ok(Classify(e, t, h, rv, rh))
  }

  /** A lattice that agrees with the hash at every key is the hashed lattice. */
  lemma {:induction false} HashLatticeUnique(p: Primitives, l: imap<MemoKey, real>)
    requires p.Valid() && IsHashLattice(p, l)
    ensures l == Hashed(p)
  {
    var h := Hashed(p);
    forall key: MemoKey
      ensures key in l && key in h && l[key] == h[key]
    {
      var v := LatticeValue(p, key);
    }
    assert l.Keys == h.Keys;
  }

  /** Whatever a session holds, it is a hash lattice and a noise field of it. */
  ghost predicate SessionFields(p: Primitives, l: imap<MemoKey, real>, n: imap<NoiseQuery, real>) {
    p.Valid() && IsHashLattice(p, l) && InUnitRange(l) && IsNoiseField(n) && IsNoiseOf(p, l, n)
  }

  /** Two noise fields of hash lattices for the same primitives agree at every query. */
  lemma {:induction false} NoiseDeterminedByHash(p: Primitives, l: imap<MemoKey, real>, n: imap<NoiseQuery, real>,
                                                 l': imap<MemoKey, real>, n': imap<NoiseQuery, real>, q: NoiseQuery)
    requires SessionFields(p, l, n) && SessionFields(p, l', n') && q.grid > 0.0
    ensures n[q] == n'[q]
  {
    HashLatticeUnique(p, l);
    HashLatticeUnique(p, l');
    var v := NoiseValue(p, l, q);
    var v' := NoiseValue(p, l', q);
  }

  /** The five climate inputs of the decision tree, read from a noise field. */
  function ClimateAt(n: imap<NoiseQuery, real>, seed: string, x: int, y: int): (c: (real, real, real, real, real))
    requires IsNoiseField(n)
    ensures 0.0 <= c.0 <= 1.0 && 0.0 <= c.2 <= 1.0 && 0.0 <= c.3 <= 1.0 && 0.0 <= c.4 <= 1.0
  {
    (Elevation(n, seed, x, y), Temperature(n, seed, x, y), n[HumidityQuery(seed, x, y)],
     n[RiverVQuery(seed, x, y)], n[RiverHQuery(seed, x, y)])
  }

  /** Two sessions over the same primitives read the same climate everywhere. */
  lemma {:induction false} ClimateDeterminedByHash(p: Primitives, l: imap<MemoKey, real>, n: imap<NoiseQuery, real>,
                                                   l': imap<MemoKey, real>, n': imap<NoiseQuery, real>,
                                                   seed: string, x: int, y: int)
    requires SessionFields(p, l, n) && SessionFields(p, l', n')
    ensures ClimateAt(n, seed, x, y) == ClimateAt(n', seed, x, y)
  {
    var (q1, q2, q3) := ElevationQueries(seed, x, y);
    NoiseDeterminedByHash(p, l, n, l', n', q1);
    NoiseDeterminedByHash(p, l, n, l', n', q2);
    NoiseDeterminedByHash(p, l, n, l', n', q3);
    NoiseDeterminedByHash(p, l, n, l', n', TemperatureQuery(seed, x, y));
    NoiseDeterminedByHash(p, l, n, l', n', HumidityQuery(seed, x, y));
    NoiseDeterminedByHash(p, l, n, l', n', RiverVQuery(seed, x, y));
    NoiseDeterminedByHash(p, l, n, l', n', RiverHQuery(seed, x, y));
  }

  /**
   * The answer never depends on what the memo table held or on the order of
   * earlier queries: two sessions over the same primitives give every point
   * the same biome.
   */
  lemma {:induction false} BiomeDeterminedByHash(p: Primitives, l: imap<MemoKey, real>, n: imap<NoiseQuery, real>,
                                                 l': imap<MemoKey, real>, n': imap<NoiseQuery, real>,
                                                 serverId: Option<string>, x: int, y: int)
    requires SessionFields(p, l, n) && SessionFields(p, l', n')
    ensures BiomeAt(n, serverId, x, y) == BiomeAt(n', serverId, x, y)
  {
    if !(x == 0 && y == 0) && Initialized(serverId) {
      ClimateDeterminedByHash(p, l, n, l', n', serverId.value, x, y);
    }
  }

  // ---------------------------------------------------------------------
  // The session: module state `serverId` and `hashedValueCache`
  // ---------------------------------------------------------------------

  class MapSession {
    const prim: Primitives
    /** The hashed value of every key, as `Valid` pins it down. */
    ghost const lattice: imap<MemoKey, real>
    /** The value noise of every query over `lattice`, as `Valid` pins it down. */
    ghost const noise: imap<NoiseQuery, real>
    var serverId: Option<string>
    var cache: map<MemoKey, real>

    /** Every memoized value is the hashed value of its own key. */
    ghost predicate Valid()
      reads this
    {
      && SessionFields(prim, lattice, noise)
      && forall key :: key in cache ==> cache[key] == lattice[key]
    }

    /** Module load: `serverId = null`, `hashedValueCache = {}`. */
    constructor (prim: Primitives)
      requires prim.Valid()
      ensures Valid() && this.prim == prim
      ensures lattice == Hashed(prim) && noise == Noise(prim, lattice)
      ensures serverId == None && cache == map[]
    {
      this.prim := prim;
      lattice := Hashed(prim);
      noise := Noise(prim, Hashed(prim));
      serverId := None;
      cache := map[];
    }

    /** `initialize(sid)`: set the server id, then delete every memoized entry. */
    method Initialize(sid: string)
      requires Valid()
      modifies this
      ensures Valid()
      ensures serverId == Some(sid) && cache == map[]
    {
      serverId := Some(sid);
      while cache != map[]
        invariant Valid()
        invariant serverId == Some(sid)
        decreases |cache.Keys|
      {
        var key :| key in cache;
        assert (cache - {key}).Keys == cache.Keys - {key};
        cache := cache - {key};
      }
    }

    /**
     * `getHashedFloat(x, y, salt)`: the memoized value when it is present and
     * truthy, otherwise the hashed value, which is then stored.  Either way the
     * result is the hashed value of the key, and that key is the only entry
     * that may change.
     */
    method GetHashedFloat(x: int, y: int, salt: string) returns (v: real)
      requires Valid()
      modifies this`cache
      ensures Valid()
      ensures v == lattice[Key(SeedText(serverId), x, y, salt)]
      ensures cache.Keys == old(cache.Keys) + {Key(SeedText(serverId), x, y, salt)}
    {
      var key := Key(SeedText(serverId), x, y, salt);
      if key in cache && cache[key] != 0.0 {
        v := cache[key];
        return;
      }
      var digest := prim.sha256[KeyText(key)];
      v := DigestPrefixValue(digest) as real / HashDivisor;
      assert v == LatticeValue(prim, key);
      cache := cache[key := v];
    }

    /** The four `getHashedFloat` calls of `getNoiseValue`, for the cell (ix, iy). */
    method GetCorners(ix: int, iy: int, salt: string) returns (v1: real, v2: real, v3: real, v4: real)
      requires Valid()
      modifies this`cache
      ensures Valid()
      ensures var seed := SeedText(serverId);
        && v1 == lattice[Key(seed, ix, iy, salt)]
        && v2 == lattice[Key(seed, ix + 1, iy, salt)]
        && v3 == lattice[Key(seed, ix, iy + 1, salt)]
        && v4 == lattice[Key(seed, ix + 1, iy + 1, salt)]
      ensures var seed := SeedText(serverId);
        cache.Keys == old(cache.Keys) + {Key(seed, ix, iy, salt), Key(seed, ix + 1, iy, salt),
                                         Key(seed, ix, iy + 1, salt), Key(seed, ix + 1, iy + 1, salt)}
    {
      ghost var seed, keys0 := SeedText(serverId), cache.Keys;
      ghost var k1, k2 := Key(seed, ix, iy, salt), Key(seed, ix + 1, iy, salt);
      ghost var k3, k4 := Key(seed, ix, iy + 1, salt), Key(seed, ix + 1, iy + 1, salt);
      v1 := GetHashedFloat(ix, iy, salt);
      v2 := GetHashedFloat(ix + 1, iy, salt);
      v3 := GetHashedFloat(ix, iy + 1, salt);
      v4 := GetHashedFloat(ix + 1, iy + 1, salt);
      assert cache.Keys == keys0 + {k1} + {k2} + {k3} + {k4};
      assert keys0 + {k1} + {k2} + {k3} + {k4} == keys0 + {k1, k2, k3, k4};
    }

    /**
     * `getNoiseValue(x, y, salt, customGridSize)`: the value noise of the
     * query, its four corners looked up through the memo table.
     */
    method GetNoiseValue(x: real, y: real, salt: string, custom: Option<real>) returns (v: real)
      requires Valid()
      requires custom.Some? ==> custom.value > 0.0
      modifies this`cache
      ensures Valid()
      ensures serverId == old(serverId)
      ensures v == noise[Query(SeedText(serverId), x, y, salt, GridFor(custom))]
      ensures old(cache.Keys) <= cache.Keys
    {
      var g := GridFor(custom);
      ghost var q := Query(SeedText(serverId), x, y, salt, g);
      var (ix, fx) := LatticeCell(x, g);
      var (iy, fy) := LatticeCell(y, g);
      var v1, v2, v3, v4 := GetCorners(ix, iy, salt);
      var i1 := Interpolate(prim, v1, v2, fx);
      var i2 := Interpolate(prim, v3, v4, fx);
      v := Interpolate(prim, i1, i2, fy);
      NoiseFromCorners(prim, lattice, q, v1, v2, v3, v4);
      assert v == NoiseValue(prim, lattice, q);
    }

    /** The three elevation octaves of `getBiome(x, y)`. */
    method GetElevation(x: int, y: int) returns (elevation: real)
      requires Valid()
      modifies this`cache
      ensures Valid()
      ensures elevation == Elevation(noise, SeedText(serverId), x, y)
      ensures old(cache.Keys) <= cache.Keys
    {
      var xr, yr := x as real, y as real;
      var e1 := GetNoiseValue(xr, yr, "elevation1", None);
      var e2 := GetNoiseValue(xr * 2.0, yr * 2.0, "elevation2", None);
      var e3 := GetNoiseValue(xr * 4.0, yr * 4.0, "elevation3", None);
      elevation := e1 * 0.7 + e2 * 0.2 + e3 * 0.1;
    }

    /** The elevation, temperature and humidity lookups of `getBiome(x, y)`. */
    method GetClimate(x: int, y: int) returns (elevation: real, temp: real, humidity: real)
      requires Valid()
      modifies this`cache
      ensures Valid()
      ensures var seed := SeedText(serverId);
        && elevation == Elevation(noise, seed, x, y)
        && temp == Temperature(noise, seed, x, y)
        && humidity == noise[HumidityQuery(seed, x, y)]
      ensures old(cache.Keys) <= cache.Keys
    {
      var xr, yr := x as real, y as real;
      elevation := GetElevation(x, y);
      var t0 := GetNoiseValue(xr, yr, "temp", None);
      temp := t0 - (yr / 1000.0) * 0.4;
      humidity := GetNoiseValue(xr, yr, "humidity", Some(HumidityGridSize));
    }

    /** The two river-field lookups of `getBiome(x, y)`, made only in the lowlands. */
    method GetRivers(x: int, y: int) returns (riverV: real, riverH: real)
      requires Valid()
      modifies this`cache
      ensures Valid()
      ensures riverV == noise[RiverVQuery(SeedText(serverId), x, y)]
      ensures riverH == noise[RiverHQuery(SeedText(serverId), x, y)]
      ensures old(cache.Keys) <= cache.Keys
    {
      var xr, yr := x as real, y as real;
      riverV := GetNoiseValue(xr * 0.5, yr * 4.0, "river_v", None);
      riverH := GetNoiseValue(xr * 4.0, yr * 0.5, "river_h", None);
    }

    /**
     * `getBiome(x, y)`: whatever the memo table holds, the answer is
     * `BiomeAt` of the current server id over the session's noise field, and
     * the table stays correct.
     */
    method GetBiome(x: int, y: int) returns (r: BiomeResult)
      requires Valid()
      modifies this`cache
      ensures Valid()
      ensures r == BiomeAt(noise, serverId, x, y)
      ensures old(cache.Keys) <= cache.Keys
    {
      if x == 0 && y == 0 {
        return Ok(Basecamp);
      }
      if !Initialized(serverId) {
        return Err(NotInitializedMessage);
      }
      var elevation, temp, humidity := GetClimate(x, y);
      if elevation > 0.8 {
        if temp > 0.85 { return Ok(Volcano); }
        if temp < 0.3 { return Ok(SnowMountain); }
        return Ok(Mountain);
      } else if elevation > 0.7 {
        return Ok(Hill);
      } else if elevation > 0.3 {
        if humidity > 0.7 && temp > 0.8 { return Ok(Jungle); }
        if humidity > 0.4 { return Ok(Forest); }
        return Ok(Plains);
      } else {
        var riverV, riverH := GetRivers(x, y);
        if InRiverBand(riverV) || InRiverBand(riverH) {
          return Ok(River);
        }
        if temp > 0.7 && humidity < 0.3 { return Ok(Desert); }
        if temp < 0.3 { return Ok(Tundra); }
        if humidity > 0.65 { return Ok(Swamp); }
        return Ok(Plains);
      }
    }
  }
}
