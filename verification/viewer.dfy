/**
 * The map viewer page (game-map/viewer-script.js): zoom clamping, the weekly
 * part of the seed, the hotspot highlight map, and `generateMap`, which
 * validates its inputs, initializes the generator and walks the square grid
 * of cells row by row.
 */
module Viewer {
  import opened Wrappers
  import opened JsStrings
  import opened MapLogic

  // ---------------------------------------------------------------------
  // Zoom: `currentZoom` and `applyZoom`
  // ---------------------------------------------------------------------

  const MinZoom: int := 10
  const MaxZoom: int := 500
  const ZoomStep: int := 10
  const InitialZoom: int := 100

  /** The two bounds checks of `applyZoom`: the nearest value in 10..500. */
  function Clamp(z: int): (r: int)
    ensures MinZoom <= r <= MaxZoom
    ensures MinZoom <= z <= MaxZoom ==> r == z
    ensures z < MinZoom ==> r == MinZoom
    ensures z > MaxZoom ==> r == MaxZoom
  {
    var raised := if z < MinZoom then MinZoom else z;
    if raised > MaxZoom then MaxZoom else raised
  }

  /** The CSS `scale(...)` factor for a zoom percentage. */
  function Scale(z: int): (s: real)
    requires MinZoom <= z <= MaxZoom
    ensures 0.1 <= s <= 5.0
  {
    z as real / 100.0
  }

  class ZoomControl {
    var currentZoom: int

    constructor ()
      ensures currentZoom == InitialZoom
    {
      currentZoom := InitialZoom;
    }

    /** `applyZoom`: clamp the level and return the scale written to the wrapper. */
    method ApplyZoom() returns (scale: real)
      modifies this
      ensures currentZoom == Clamp(old(currentZoom))
      ensures scale == Scale(currentZoom)
    {
      if currentZoom < MinZoom {
        currentZoom := MinZoom;
      }
      if currentZoom > MaxZoom {
        currentZoom := MaxZoom;
      }
      scale := currentZoom as real / 100.0;
    }

    /** The zoom-in button: ten more, then clamp. */
    method ZoomIn() returns (scale: real)
      modifies this
      ensures currentZoom == Clamp(old(currentZoom) + ZoomStep)
      ensures MinZoom <= old(currentZoom) <= MaxZoom - ZoomStep ==> currentZoom == old(currentZoom) + ZoomStep
      ensures scale == Scale(currentZoom)
    {
      currentZoom := currentZoom + ZoomStep;
      scale := ApplyZoom();
    }

    /** The zoom-out button: ten less, then clamp. */
    method ZoomOut() returns (scale: real)
      modifies this
      ensures currentZoom == Clamp(old(currentZoom) - ZoomStep)
      ensures MinZoom + ZoomStep <= old(currentZoom) <= MaxZoom ==> currentZoom == old(currentZoom) - ZoomStep
      ensures scale == Scale(currentZoom)
    {
      currentZoom := currentZoom - ZoomStep;
      scale := ApplyZoom();
    }

    /**
     * The zoom field (Enter or change): `parsed` is `parseInt` of the field,
     * `None` for NaN, which leaves the level alone.
     */
    method EnterZoom(parsed: Option<int>) returns (scale: Option<real>)
      modifies this
      ensures parsed.None? ==> currentZoom == old(currentZoom) && scale == None
      ensures parsed.Some? ==> currentZoom == Clamp(parsed.value) && scale == Some(Scale(currentZoom))
    {
      scale := None;
      if parsed.Some? {
        currentZoom := parsed.value;
        var s := ApplyZoom();
        scale := Some(s);
      }
    }
  }

  // ---------------------------------------------------------------------
  // The weekly key: `getWeeklyKey` from the fields of the shifted date
  // ---------------------------------------------------------------------

  /**
   * `(dayOfWeek + 6) % 7` with `getUTCDay` numbering (0 is Sunday): the
   * number of days back to the most recent Monday, which is today on a Monday.
   */
  function DaysToSubtract(dayOfWeek: int): (d: int)
    requires 0 <= dayOfWeek <= 6
    ensures 0 <= d <= 6
    ensures MondayAt(dayOfWeek, d)
    ensures forall e :: 0 <= e < d ==> !MondayAt(dayOfWeek, e)
    ensures d == 0 <==> dayOfWeek == 1
  {
    (dayOfWeek + 6) % 7
  }

  /** Going back `back` days from weekday `dayOfWeek` lands on a Monday (weekday 1). */
  predicate MondayAt(dayOfWeek: int, back: int) {
    (dayOfWeek - back) % 7 == 1
  }

  /** `String(n).padStart(2, '0')`. */
  function Pad2(n: nat): string {
    PadStart(NatToString(n), 2, '0')
  }

  /** A number below 100 pads to two digits that read back as the number. */
  lemma {:induction false} Pad2Digits(n: nat)
    requires n < 100
    ensures var s := Pad2(n);
      |s| == 2 && (forall i :: 0 <= i < 2 ==> IsDigit(s[i])) && ParseDigits(s) == n
  {
    var t := NatToString(n);
    ParseNatToString(n);
    if n >= 10 {
      assert NatToString(n / 10) == [DigitChar(n / 10)];
    }
    if |t| < 2 {
      ParseLeadingZeros(t, 2 - |t|);
    }
  }

  /**
   * The key `YYYY-MM-DD` of the Monday with the given UTC year, 0-based month
   * and day of the month.
   */
  function WeeklyKey(year: int, month0: int, day: int): string
    requires 0 <= month0 <= 11 && 1 <= day <= 31
  {
    IntToString(year) + "-" + Pad2(month0 + 1) + "-" + Pad2(day)
  }

  /**
   * The key reads back field by field: the year as `String(year)`, then a
   * dash, the 1-based month in two digits, a dash and the day in two digits.
   */
  lemma {:induction false} WeeklyKeyFields(year: int, month0: int, day: int)
    requires 0 <= month0 <= 11 && 1 <= day <= 31
    ensures var ys := IntToString(year);
      var k := WeeklyKey(year, month0, day);
      var mm := k[|ys| + 1..|ys| + 3];
      var dd := k[|ys| + 4..];
      && |k| == |ys| + 6
      && k[..|ys|] == ys && k[|ys|] == '-' && k[|ys| + 3] == '-'
      && (forall i :: 0 <= i < |mm| ==> IsDigit(mm[i])) && ParseDigits(mm) == month0 + 1
      && (forall i :: 0 <= i < |dd| ==> IsDigit(dd[i])) && ParseDigits(dd) == day
  {
    var ys := IntToString(year);
    var mm, dd := Pad2(month0 + 1), Pad2(day);
    Pad2Digits(month0 + 1);
    Pad2Digits(day);
    var k := ys + "-" + mm + "-" + dd;
    assert WeeklyKey(year, month0, day) == k;
    assert k[..|ys|] == ys;
    assert k[|ys| + 1..|ys| + 3] == mm;
    assert k[|ys| + 4..] == dd;
  }

  /** The generator seed: `${serverId}:${weeklyKey}`. */
  function FinalSeed(serverId: string, weeklyKey: string): string {
    serverId + ":" + weeklyKey
  }

  // ---------------------------------------------------------------------
  // Hotspots: the highlight map of `drawHotspotOverlay`
  // ---------------------------------------------------------------------

  /** A map cell `(x, y)`. */
  type Cell = (int, int)

  datatype Ring = Center | Ring1 | Ring2

  function ClassName(r: Ring): string {
    match r
    case Center => "hotspot-center"
    case Ring1 => "hotspot-ring1"
    case Ring2 => "hotspot-ring2"
  }

  function Abs(n: int): nat {
    if n < 0 then -n else n
  }

  /** `Math.max(Math.abs(dx), Math.abs(dy))`. */
  function Chebyshev(dx: int, dy: int): nat {
    if Abs(dx) < Abs(dy) then Abs(dy) else Abs(dx)
  }

  function Distance(h: Cell, c: Cell): nat {
    Chebyshev(c.0 - h.0, c.1 - h.1)
  }

  /** The class one hotspot gives a cell at Chebyshev distance `d`. */
  function RingAt(d: nat): Option<Ring> {
    if d == 0 then Some(Center)
    else if d == 1 then Some(Ring1)
    else if d == 2 then Some(Ring2)
    else None
  }

  /**
   * The class of cell `c` once every hotspot has been drawn, later hotspots
   * overwriting earlier ones.  A cell is marked exactly when some hotspot lies
   * within distance 2 of it.
   */
  function HotspotClass(hotspots: seq<Cell>, c: Cell): (r: Option<Ring>)
    ensures r == None <==> forall j :: 0 <= j < |hotspots| ==> Distance(hotspots[j], c) > 2
    decreases |hotspots|
  {
    if hotspots == [] then None
    else
      var last := hotspots[|hotspots| - 1];
      if Distance(last, c) <= 2 then RingAt(Distance(last, c))
      else HotspotClass(hotspots[..|hotspots| - 1], c)
  }

  /**
   * Last writer wins: the class of a cell comes from the last hotspot within
   * distance 2 of it, by that hotspot's distance alone.
   */
  lemma {:induction false} LastHotspotWins(hotspots: seq<Cell>, c: Cell, i: int)
    requires 0 <= i < |hotspots| && Distance(hotspots[i], c) <= 2
    requires forall j :: i < j < |hotspots| ==> Distance(hotspots[j], c) > 2
    ensures HotspotClass(hotspots, c) == RingAt(Distance(hotspots[i], c))
    decreases |hotspots|
  {
    if i < |hotspots| - 1 {
      var front := hotspots[..|hotspots| - 1];
      LastHotspotWins(front, c, i);
    }
  }

  /** The class a highlight map gives a cell: `highlightMap.get(key)` when present. */
  function Lookup(m: map<Cell, Ring>, c: Cell): Option<Ring> {
    if c in m then Some(m[c]) else None
  }

  /** A loop nest over offsets has reached cell `c` once it is past `c`'s offset from `h`, row by row. */
  predicate Reached(h: Cell, c: Cell, dy: int, dx: int) {
    c.1 - h.1 < dy || (c.1 - h.1 == dy && c.0 - h.0 < dx)
  }

  /**
   * The three loop nests for one hotspot: ring 2, then ring 1, then the
   * centre.  Cells within distance 2 get the class of their distance, every
   * other cell keeps what it had.
   */
  method MarkHotspot(m: map<Cell, Ring>, h: Cell) returns (m': map<Cell, Ring>)
    ensures forall c :: Lookup(m', c) == if Distance(h, c) <= 2 then RingAt(Distance(h, c)) else Lookup(m, c)
  {
    var (cx, cy) := h;
    m' := m;
    var dy := -2;
    while dy <= 2
      invariant -2 <= dy <= 3
      invariant forall c :: Lookup(m', c) == (if Distance(h, c) == 2 && Reached(h, c, dy, -2) then Some(Ring2) else Lookup(m, c))
    {
      var dx := -2;
      while dx <= 2
        invariant -2 <= dx <= 3
        invariant forall c :: Lookup(m', c) == (if Distance(h, c) == 2 && Reached(h, c, dy, dx) then Some(Ring2) else Lookup(m, c))
      {
        if Chebyshev(dx, dy) == 2 {
          m' := m'[(cx + dx, cy + dy) := Ring2];
        }
        dx := dx + 1;
      }
      dy := dy + 1;
    }
    ghost var ring2 := m';
    dy := -1;
    while dy <= 1
      invariant -1 <= dy <= 2
      invariant forall c :: Lookup(m', c) == (if Distance(h, c) == 1 && Reached(h, c, dy, -1) then Some(Ring1) else Lookup(ring2, c))
    {
      var dx := -1;
      while dx <= 1
        invariant -1 <= dx <= 2
        invariant forall c :: Lookup(m', c) == (if Distance(h, c) == 1 && Reached(h, c, dy, dx) then Some(Ring1) else Lookup(ring2, c))
      {
        if !(dx == 0 && dy == 0) {
          m' := m'[(cx + dx, cy + dy) := Ring1];
        }
        dx := dx + 1;
      }
      dy := dy + 1;
    }
    m' := m'[(cx, cy) := Center];
  }

  /** The loop over all hotspots, in order. */
  method BuildHighlightMap(hotspots: seq<Cell>) returns (m: map<Cell, Ring>)
    ensures forall c :: Lookup(m, c) == HotspotClass(hotspots, c)
  {
    m := map[];
    var i := 0;
    while i < |hotspots|
      invariant 0 <= i <= |hotspots|
      invariant forall c :: Lookup(m, c) == HotspotClass(hotspots[..i], c)
    {
      m := MarkHotspot(m, hotspots[i]);
      assert hotspots[..i + 1][..i] == hotspots[..i];
      i := i + 1;
    }
    assert hotspots[..i] == hotspots;
  }

  /**
   * The map keys are the strings `${x},${y}`; distinct cells give distinct
   * strings, so a map keyed by the cell itself holds the same entries.
   */
  function CellKey(c: Cell): string {
    IntToString(c.0) + "," + IntToString(c.1)
  }

  lemma {:induction false} CellKeyInjective(c: Cell, d: Cell)
    requires CellKey(c) == CellKey(d)
    ensures c == d
  {
    var (a, b) := (IntToString(c.0), IntToString(d.0));
    NoComma(c.0);
    NoComma(d.0);
    var k := CellKey(c);
    assert k == a + "," + IntToString(c.1);
    assert k == b + "," + IntToString(d.1);
    assert forall i :: 0 <= i < |a| ==> k[i] != ',';
    assert forall i :: 0 <= i < |b| ==> k[i] != ',';
    assert k[|a|] == ',' && k[|b|] == ',';
    assert a == k[..|a|] == b;
    assert IntToString(c.1) == k[|a| + 1..] == IntToString(d.1);
    IntToStringRoundTrip(c.0);
    IntToStringRoundTrip(d.0);
    IntToStringRoundTrip(c.1);
    IntToStringRoundTrip(d.1);
  }

  lemma {:induction false} NoComma(n: int)
    ensures forall i :: 0 <= i < |IntToString(n)| ==> IntToString(n)[i] != ','
  {
    IntToStringRoundTrip(n);
  }

  // ---------------------------------------------------------------------
  // The grid: `for (y = range; y >= -range; y--) for (x = -range; x <= range; x++)`
  // ---------------------------------------------------------------------

  /** A loop position: column `x` of a row of the square, or the start of the row below the last. */
  predicate Position(r: int, y: int, x: int) {
    (-r <= y <= r && -r <= x <= r + 1) || (y == -r - 1 && x == -r)
  }

  /**
   * The cells both loops of `generateMap` have visited when they reach
   * column `x` of row `y`: every row above `y` from left to right, then the
   * cells of row `y` left of `x`.  Position `(-r, -r - 1)` is past the end.
   */
  function Walk(r: int, y: int, x: int): seq<Cell>
    requires r >= 0 && Position(r, y, x)
    decreases r - y, x + r
  {
    if x > -r then Walk(r, y, x - 1) + [(x - 1, y)]
    else if y < r then Walk(r, y + 1, r + 1)
    else []
  }

  /** Every cell of the square, in the order the loops visit them. */
  function GridCells(r: int): seq<Cell>
    requires r >= 0
  {
    Walk(r, -r - 1, -r)
  }

  predicate InSquare(r: int, c: Cell) {
    -r <= c.0 <= r && -r <= c.1 <= r
  }

  /** Row-major order: higher rows first, then left to right. */
  predicate Precedes(a: Cell, b: Cell) {
    a.1 > b.1 || (a.1 == b.1 && a.0 < b.0)
  }

  lemma {:induction false} WalkLength(r: int, y: int, x: int)
    requires r >= 0 && Position(r, y, x)
    ensures |Walk(r, y, x)| == (r - y) * (2 * r + 1) + (x + r)
    decreases r - y, x + r
  {
    if x > -r {
      WalkLength(r, y, x - 1);
    } else if y < r {
      WalkLength(r, y + 1, r + 1);
      assert (r - y) * (2 * r + 1) == (r - (y + 1)) * (2 * r + 1) + (2 * r + 1);
    }
  }

  /** The walk so far holds cells of the square that come before `(x, y)`, in order. */
  lemma {:induction false} WalkOrdered(r: int, y: int, x: int)
    requires r >= 0 && Position(r, y, x)
    ensures forall k :: 0 <= k < |Walk(r, y, x)| ==> InSquare(r, Walk(r, y, x)[k]) && Precedes(Walk(r, y, x)[k], (x, y))
    ensures forall k, k' :: 0 <= k < k' < |Walk(r, y, x)| ==> Precedes(Walk(r, y, x)[k], Walk(r, y, x)[k'])
    decreases r - y, x + r
  {
    if x > -r {
      WalkOrdered(r, y, x - 1);
    } else if y < r {
      WalkOrdered(r, y + 1, r + 1);
      assert Walk(r, y, x) == Walk(r, y + 1, r + 1);
    }
  }

  /** Every cell of the square that comes before `(x, y)` has been visited. */
  lemma {:induction false} WalkCovers(r: int, y: int, x: int, c: Cell)
    requires r >= 0 && Position(r, y, x)
    requires InSquare(r, c) && Precedes(c, (x, y))
    ensures c in Walk(r, y, x)
    decreases r - y, x + r
  {
    if x > -r {
      if c != (x - 1, y) {
        WalkCovers(r, y, x - 1, c);
      }
    } else if y < r {
      WalkCovers(r, y + 1, r + 1, c);
    }
  }

  /** Before the end of the walk some cell is still to come. */
  lemma {:induction false} WalkUnfinished(r: int, y: int, x: int)
    requires r >= 0 && -r <= y <= r && -r <= x <= r
    ensures |Walk(r, y, x)| < |GridCells(r)|
    decreases y + r, r - x
  {
    assert Walk(r, y, x + 1) == Walk(r, y, x) + [(x, y)];
    if x < r {
      WalkUnfinished(r, y, x + 1);
    } else if y > -r {
      assert Walk(r, y - 1, -r) == Walk(r, y, r + 1);
      WalkUnfinished(r, y - 1, -r);
    } else {
      assert Walk(r, -r - 1, -r) == Walk(r, y, r + 1);
    }
  }

  /** Both loops make `(2r+1)^2` steps. */
  lemma {:induction false} GridSize(r: int)
    requires r >= 0
    ensures |GridCells(r)| == (2 * r + 1) * (2 * r + 1)
  {
    WalkLength(r, -r - 1, -r);
    assert r - (-r - 1) == 2 * r + 1;
  }

  /**
   * Both loops visit cells of the square in row-major order from the top row
   * down, so no cell twice.
   */
  lemma {:induction false} GridOrder(r: int)
    requires r >= 0
    ensures forall k :: 0 <= k < |GridCells(r)| ==> InSquare(r, GridCells(r)[k])
    ensures forall k, k' :: 0 <= k < k' < |GridCells(r)| ==> Precedes(GridCells(r)[k], GridCells(r)[k'])
    ensures forall k, k' :: 0 <= k < k' < |GridCells(r)| ==> GridCells(r)[k] != GridCells(r)[k']
  {
    WalkOrdered(r, -r - 1, -r);
  }

  /** Both loops visit every cell of the square. */
  lemma {:induction false} GridCovers(r: int, c: Cell)
    requires r >= 0 && InSquare(r, c)
    ensures c in GridCells(r)
  {
    WalkCovers(r, -r - 1, -r, c);
  }

  /** The query loop: `getBiome(x, y)` for every cell, in grid order. */
  method QueryBiomes(session: MapSession, r: int) returns (biomes: seq<BiomeResult>)
    requires r >= 0 && session.Valid()
    modifies session`cache
    ensures session.Valid()
    ensures |biomes| == |GridCells(r)|
    ensures forall k :: 0 <= k < |biomes| ==>
      biomes[k] == BiomeAt(session.noise, session.serverId, GridCells(r)[k].0, GridCells(r)[k].1)
  {
    biomes := [];
    ghost var visited: seq<Cell> := [];
    var y := r;
    while y >= -r
      invariant -r - 1 <= y <= r
      invariant session.Valid()
      invariant visited == Walk(r, y, -r) && |biomes| == |visited|
      invariant forall k :: 0 <= k < |biomes| ==>
        biomes[k] == BiomeAt(session.noise, session.serverId, visited[k].0, visited[k].1)
    {
      var x := -r;
      while x <= r
        invariant -r <= x <= r + 1
        invariant session.Valid()
        invariant visited == Walk(r, y, x) && |biomes| == |visited|
        invariant forall k :: 0 <= k < |biomes| ==>
          biomes[k] == BiomeAt(session.noise, session.serverId, visited[k].0, visited[k].1)
      {
        var b := session.GetBiome(x, y);
        biomes := biomes + [b];
        visited := visited + [(x, y)];
        x := x + 1;
      }
      y := y - 1;
    }
  }

  const DefaultColor: string := "#333333"

  /** `COLOR_MAP[biomeName] || DEFAULT_COLOR`. */
  function ColorOf(name: string): string {
    if name == "BASECAMP" then "rgb(255, 0, 255)"
    else if name == "SNOW_MOUNTAIN" then "rgb(255, 255, 255)"
    else if name == "MOUNTAIN" then "rgb(139, 69, 19)"
    else if name == "HILL" then "rgb(205, 133, 63)"
    else if name == "PLAINS" then "rgb(154, 245, 64)"
    else if name == "DESERT" then "rgb(245, 222, 179)"
    else if name == "RIVER" then "rgb(65, 105, 225)"
    else if name == "FOREST" then "rgb(46, 197, 46)"
    else if name == "SWAMP" then "rgb(116, 160, 40)"
    else if name == "JUNGLE" then "rgb(0, 100, 0)"
    else if name == "VOLCANO" then "rgb(255, 0, 0)"
    else if name == "TUNDRA" then "rgb(176, 196, 222)"
    else DefaultColor
  }

  /** The `COLOR_MAP` entry of each biome's label. */
  function BiomeColor(b: Biome): string {
    match b
    case Basecamp => "rgb(255, 0, 255)"
    case SnowMountain => "rgb(255, 255, 255)"
    case Mountain => "rgb(139, 69, 19)"
    case Hill => "rgb(205, 133, 63)"
    case Plains => "rgb(154, 245, 64)"
    case Desert => "rgb(245, 222, 179)"
    case River => "rgb(65, 105, 225)"
    case Forest => "rgb(46, 197, 46)"
    case Swamp => "rgb(116, 160, 40)"
    case Jungle => "rgb(0, 100, 0)"
    case Volcano => "rgb(255, 0, 0)"
    case Tundra => "rgb(176, 196, 222)"
  }

  /** Every label the generator returns has its own entry, so the default colour is never used. */
  lemma {:induction false} EveryBiomeHasColor(b: Biome)
    ensures ColorOf(Name(b)) == BiomeColor(b) != DefaultColor
  {
    match b
    case Basecamp =>
    case SnowMountain =>
    case Mountain =>
    case Hill =>
    case Plains =>
    case Desert =>
    case River =>
    case Forest =>
    case Swamp =>
    case Jungle =>
    case Volcano =>
    case Tundra =>
  }

  /**
   * One rendered cell: the grid cell it is drawn for and the biome it shows.
   * Its colour and its tooltip are `Color` and `Title` of it.
   */
  datatype MapCell = MapCell(x: int, y: int, biome: Biome)

  /** `cell.style.color`. */
  function Color(cell: MapCell): string {
    ColorOf(Name(cell.biome))
  }

  /** `cell.title`: `(x, y): NAME`. */
  function Title(cell: MapCell): string {
    "(" + IntToString(cell.x) + ", " + IntToString(cell.y) + "): " + Name(cell.biome)
  }

  /** The render loop: walks `biomeIndex` through the results in grid order. */
  method RenderCells(r: int, biomes: seq<Biome>) returns (cells: seq<MapCell>)
    requires r >= 0 && |biomes| == |GridCells(r)|
    ensures |cells| == |biomes|
    ensures forall k :: 0 <= k < |cells| ==> cells[k] == MapCell(GridCells(r)[k].0, GridCells(r)[k].1, biomes[k])
  {
    cells := [];
    ghost var visited: seq<Cell> := [];
    var biomeIndex := 0;
    var y := r;
    while y >= -r
      invariant -r - 1 <= y <= r
      invariant visited == Walk(r, y, -r) && |cells| == |visited| == biomeIndex <= |biomes|
      invariant forall k :: 0 <= k < |cells| ==> cells[k] == MapCell(visited[k].0, visited[k].1, biomes[k])
    {
      var x := -r;
      while x <= r
        invariant -r <= x <= r + 1
        invariant visited == Walk(r, y, x) && |cells| == |visited| == biomeIndex <= |biomes|
        invariant forall k :: 0 <= k < |cells| ==> cells[k] == MapCell(visited[k].0, visited[k].1, biomes[k])
      {
        WalkUnfinished(r, y, x);
        var cell := MapCell(x, y, biomes[biomeIndex]);
        biomeIndex := biomeIndex + 1;
        cells := cells + [cell];
        visited := visited + [(x, y)];
        x := x + 1;
      }
      y := y - 1;
    }
  }

  /** The overlay loop: the class of every cell of the grid, in grid order. */
  method DrawOverlay(r: int, m: map<Cell, Ring>) returns (overlay: seq<Option<Ring>>)
    requires r >= 0
    ensures |overlay| == |GridCells(r)|
    ensures forall k :: 0 <= k < |overlay| ==> overlay[k] == Lookup(m, GridCells(r)[k])
  {
    overlay := [];
    ghost var visited: seq<Cell> := [];
    var y := r;
    while y >= -r
      invariant -r - 1 <= y <= r
      invariant visited == Walk(r, y, -r) && |overlay| == |visited|
      invariant forall k :: 0 <= k < |overlay| ==> overlay[k] == Lookup(m, visited[k])
    {
      var x := -r;
      while x <= r
        invariant -r <= x <= r + 1
        invariant visited == Walk(r, y, x) && |overlay| == |visited|
        invariant forall k :: 0 <= k < |overlay| ==> overlay[k] == Lookup(m, visited[k])
      {
        var cls := if (x, y) in m then Some(m[(x, y)]) else None;
        overlay := overlay + [cls];
        visited := visited + [(x, y)];
        x := x + 1;
      }
      y := y - 1;
    }
  }

  // ---------------------------------------------------------------------
  // `generateMap`
  // ---------------------------------------------------------------------

  /** Nothing happens (an alert), or the map and the optional overlay are drawn. */
  datatype MapOutcome =
    | Rejected
    | Drawn(seed: string, cells: seq<MapCell>, overlay: Option<seq<Option<Ring>>>)

  /**
   * `generateMap`: `serverId` is the text of the server field, `range` the
   * `parseInt` of the range field (`None` for NaN), `weeklyKey` the result of
   * `getWeeklyKey`, and `hotspots` the parsed `hotspots` URL parameter (`None`
   * when it is absent or empty).  Invalid input is rejected before the
   * generator is touched; otherwise the generator is initialized with the
   * combined seed and cell `k` of the drawing is the biome of grid cell `k`.
   */
  method GenerateMap(session: MapSession, serverId: string, range: Option<int>, weeklyKey: string,
                     hotspots: Option<seq<Cell>>) returns (out: MapOutcome)
    requires session.Valid()
    modifies session
    ensures session.Valid()
    ensures out.Rejected? <==> serverId == [] || range.None? || range.value < 1
    ensures out.Rejected? ==> unchanged(session)
    ensures out.Drawn? ==>
      && out.seed == FinalSeed(serverId, weeklyKey)
      && session.serverId == Some(out.seed)
      && var g := GridCells(range.value);
      && |out.cells| == |g|
      && (forall k :: 0 <= k < |g| ==>
            var b := BiomeAt(session.noise, session.serverId, g[k].0, g[k].1);
            b.Ok? && out.cells[k] == MapCell(g[k].0, g[k].1, b.biome))
      && (out.overlay.Some? <==> hotspots.Some?)
      && (out.overlay.Some? ==>
            |out.overlay.value| == |g|
            && forall k :: 0 <= k < |g| ==> out.overlay.value[k] == HotspotClass(hotspots.value, g[k]))
  {
    if serverId == [] || range.None? || range.value < 1 {
      return Rejected;
    }
    var r := range.value;
    var seed := serverId + ":" + weeklyKey;
    session.Initialize(seed);
    var results := QueryBiomes(session, r);
    var g := GridCells(r);
    assert forall k :: 0 <= k < |results| ==> results[k].Ok?;
    var biomes := seq(|results|, k requires 0 <= k < |results| => results[k].biome);
    var cells := RenderCells(r, biomes);
    var overlay := None;
    if hotspots.Some? {
      var m := BuildHighlightMap(hotspots.value);
      var o := DrawOverlay(r, m);
      overlay := Some(o);
    }
    out := Drawn(seed, cells, overlay);
  }
}
