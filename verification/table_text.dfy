/**
 * `extractTableText(p1, p2, p3, text)` of the spec-table import popup
 * (mrt/js/textcombine_popup.js): every line of the pasted text that holds
 * the three delimiters gives a `[key, value]` pair, the key between `p1` and
 * the next `p2`, the value after the first `p3`.
 */
module TableText {
  import opened Wrappers
  import opened JsStrings

  // ---------------------------------------------------------------------
  // The line list: `text.replace(/\r\n/g, "\n").split("\n").map(trim).filter(Boolean)`
  // ---------------------------------------------------------------------

  /** `s` without any carriage return. */
  function DropCarriageReturns(s: string): string
    decreases |s|
  {
    if s == [] then []
    else (if s[0] == '\r' then [] else [s[0]]) + DropCarriageReturns(s[1..])
  }

  /** No carriage return in `s` is directly followed by a line feed. */
  predicate NoCrlf(s: string) {
    forall i :: 0 <= i < |s| - 1 ==> !(s[i] == '\r' && s[i + 1] == '\n')
  }

  /**
   * `s.replace(/\r\n/g, "\n")`, scanning left to right: every CRLF pair
   * becomes one line feed and every other character is kept.
   */
  function NormalizeNewlines(s: string): (r: string)
    ensures |r| <= |s|
    decreases |s|
  {
    if s == [] then []
    else if |s| >= 2 && s[0] == '\r' && s[1] == '\n' then ['\n'] + NormalizeNewlines(s[2..])
    else [s[0]] + NormalizeNewlines(s[1..])
  }

  /**
   * Only carriage returns are removed, so apart from them the text is
   * unchanged; a text without a CRLF pair, lone carriage returns included,
   * is left as it is.
   */
  lemma {:induction false} NormalizeKeepsText(s: string)
    ensures DropCarriageReturns(NormalizeNewlines(s)) == DropCarriageReturns(s)
    ensures NoCrlf(s) ==> NormalizeNewlines(s) == s
    decreases |s|
  {
    if s == [] {
    } else if |s| >= 2 && s[0] == '\r' && s[1] == '\n' {
      var rest := NormalizeNewlines(s[2..]);
      NormalizeKeepsText(s[2..]);
      assert DropCarriageReturns(s) == DropCarriageReturns(s[1..]);
      assert s[1..][1..] == s[2..];
      assert (['\n'] + rest)[1..] == rest;
    } else {
      var rest := NormalizeNewlines(s[1..]);
      NormalizeKeepsText(s[1..]);
      assert ([s[0]] + rest)[1..] == rest;
      if NoCrlf(s) {
        forall i | 0 <= i < |s[1..]| - 1
          ensures !(s[1..][i] == '\r' && s[1..][i + 1] == '\n')
        {
          assert s[1..][i] == s[i + 1] && s[1..][i + 1] == s[i + 2];
        }
      }
    }
  }

  /** Concatenation regrouped. */
  lemma Regroup(p: string, x: string, q: string, y: string)
    ensures p + (x + q + y) == (p + x) + q + y
  {
  }

  /** A leading CRLF pair becomes one line feed. */
  lemma {:induction false} NormalizePairHead(t: string)
    ensures NormalizeNewlines("\r\n" + t) == "\n" + NormalizeNewlines(t)
  {
    assert ("\r\n" + t)[2..] == t;
  }

  /** A leading character that does not open a CRLF pair is kept. */
  lemma {:induction false} NormalizeCharHead(c: char, t: string)
    requires !(c == '\r' && |t| >= 1 && t[0] == '\n')
    ensures NormalizeNewlines([c] + t) == [c] + NormalizeNewlines(t)
  {
    assert ([c] + t)[1..] == t;
  }

  /**
   * Each CRLF pair becomes one line feed and splits the text: what comes
   * before it and what comes after it are normalized on their own.  A
   * carriage return at the end of `a` stays, since the pair after it is
   * the inserted one.
   */
  lemma {:induction false} NormalizeAtCrlf(a: string, b: string)
    ensures NormalizeNewlines(a + "\r\n" + b) == NormalizeNewlines(a) + "\n" + NormalizeNewlines(b)
    decreases |a|
  {
    if a == [] {
      assert a + "\r\n" + b == "\r\n" + b;
      NormalizePairHead(b);
    } else {
      var pairHead := |a| >= 2 && a[0] == '\r' && a[1] == '\n';
      var h := if pairHead then "\r\n" else [a[0]];
      var out := if pairHead then "\n" else [a[0]];
      var t := a[|h|..];
      assert a == h + t;
      assert a + "\r\n" + b == h + (t + "\r\n" + b);
      if pairHead {
        NormalizePairHead(t + "\r\n" + b);
        NormalizePairHead(t);
      } else {
        NormalizeCharHead(a[0], t + "\r\n" + b);
        NormalizeCharHead(a[0], t);
      }
      NormalizeAtCrlf(t, b);
      Regroup(out, NormalizeNewlines(t), "\n", NormalizeNewlines(b));
    }
  }

  /** `.map(l => l.trim())`. */
  function TrimEach(parts: seq<string>): seq<string> {
    seq(|parts|, i requires 0 <= i < |parts| => Trim(parts[i]))
  }

  /** `.filter(Boolean)`: the non-empty strings, in order. */
  function NonEmpty(parts: seq<string>): seq<string>
    decreases |parts|
  {
    if parts == [] then []
    else
      var front := NonEmpty(parts[..|parts| - 1]);
      if parts[|parts| - 1] == "" then front else front + [parts[|parts| - 1]]
  }

  /** The filter keeps exactly the non-empty strings, and never adds any. */
  lemma {:induction false} NonEmptyMember(parts: seq<string>)
    ensures |NonEmpty(parts)| <= |parts|
    ensures forall l :: l in NonEmpty(parts) <==> l in parts && l != ""
    decreases |parts|
  {
    if parts != [] {
      var front := parts[..|parts| - 1];
      NonEmptyMember(front);
      assert parts == front + [parts[|parts| - 1]];
    }
  }

  /** The trimmed, non-empty lines of the text, in order. */
  function Lines(text: string): seq<string> {
    NonEmpty(TrimEach(Split(NormalizeNewlines(text), '\n')))
  }

  /** A trimmed piece without newlines that is not empty has no newline and non-blank ends. */
  lemma {:induction false} TrimmedPieceShape(piece: string)
    requires '\n' !in piece
    ensures '\n' !in Trim(piece)
    ensures Trim(piece) != "" ==> !IsWhitespace(Trim(piece)[0]) && !IsWhitespace(Trim(piece)[|Trim(piece)| - 1])
  {
    TrimKeepsOut(piece, '\n');
    TrimShape(piece);
  }

  /** Every line is non-empty, holds no newline, and starts and ends with a non-blank character. */
  lemma {:induction false} LinesShape(text: string)
    ensures forall l :: l in Lines(text) ==> l != "" && '\n' !in l
    ensures forall l :: l in Lines(text) ==> !IsWhitespace(l[0]) && !IsWhitespace(l[|l| - 1])
  {
    var pieces := Split(NormalizeNewlines(text), '\n');
    var trimmed := TrimEach(pieces);
    NonEmptyMember(trimmed);
    forall l | l in Lines(text)
      ensures l != "" && '\n' !in l
      ensures !IsWhitespace(l[0]) && !IsWhitespace(l[|l| - 1])
    {
      assert l in trimmed;
      var i :| 0 <= i < |trimmed| && trimmed[i] == l;
      TrimmedPieceShape(pieces[i]);
    }
  }

  // ---------------------------------------------------------------------
  // One line
  // ---------------------------------------------------------------------

  /**
   * The three `indexOf` results are usable as substring bounds: an index
   * that is not -1 leaves room for its delimiter, and `end1`, searched from
   * just after `p1`, is not before it.
   */
  predicate Fits(line: string, p1: string, p3: string, start1: int, end1: int, start2: int) {
    && (start1 != -1 ==> 0 <= start1 && start1 + |p1| <= |line|)
    && (start1 != -1 && end1 != -1 ==> start1 + |p1| <= end1 <= |line|)
    && (start2 != -1 ==> 0 <= start2 && start2 + |p3| <= |line|)
  }

  /**
   * The guard on the three positions and, when it passes, the trimmed key
   * between `p1` and `p2` and the trimmed value after `p3`.
   */
  function PairAt(line: string, p1: string, p3: string, start1: int, end1: int, start2: int): Option<(string, string)>
    requires Fits(line, p1, p3, start1, end1, start2)
  {
    if start1 != -1 && end1 != -1 && start2 != -1 && end1 >= start1 && start2 >= end1 then
      Some((Trim(line[start1 + |p1|..end1]), Trim(line[start2 + |p3|..])))
    else
      None
  }

  lemma {:induction false} PairAtSome(line: string, p1: string, p3: string, start1: int, end1: int, start2: int)
    requires 0 <= start1 && start1 + |p1| <= end1 <= start2 && start2 + |p3| <= |line|
    ensures Fits(line, p1, p3, start1, end1, start2)
    ensures PairAt(line, p1, p3, start1, end1, start2) == Some((Trim(line[start1 + |p1|..end1]), Trim(line[start2 + |p3|..])))
  {
  }

  lemma {:induction false} PairAtNone(line: string, p1: string, p3: string, start1: int, end1: int, start2: int)
    requires Fits(line, p1, p3, start1, end1, start2)
    requires !(start1 != -1 && end1 != -1 && start2 != -1 && end1 >= start1 && start2 >= end1)
    ensures PairAt(line, p1, p3, start1, end1, start2) == None
  {
  }

  /** The positions `indexOf` finds always fit. */
  lemma {:induction false} PositionsFit(line: string, p1: string, p2: string, p3: string)
    ensures Fits(line, p1, p3, IndexOf(line, p1, 0), IndexOf(line, p2, IndexOf(line, p1, 0) + |p1|), IndexOf(line, p3, 0))
  {
    var start1 := IndexOf(line, p1, 0);
    if start1 != -1 {
      assert ClampIndex(line, start1 + |p1|) == start1 + |p1|;
    }
  }

  /**
   * One line of the loop: `start1 = line.indexOf(p1)`,
   * `end1 = line.indexOf(p2, start1 + p1.length)`, `start2 = line.indexOf(p3)`,
   * then the guard and the two substrings.
   */
  function LinePair(line: string, p1: string, p2: string, p3: string): Option<(string, string)> {
    PositionsFit(line, p1, p2, p3);
    PairAt(line, p1, p3, IndexOf(line, p1, 0), IndexOf(line, p2, IndexOf(line, p1, 0) + |p1|), IndexOf(line, p3, 0))
  }

  lemma {:induction false} LinePairAtPositions(line: string, p1: string, p2: string, p3: string, start1: int, end1: int, start2: int)
    requires start1 == IndexOf(line, p1, 0)
    requires end1 == IndexOf(line, p2, start1 + |p1|)
    requires start2 == IndexOf(line, p3, 0)
    ensures Fits(line, p1, p3, start1, end1, start2)
    ensures LinePair(line, p1, p2, p3) == PairAt(line, p1, p3, start1, end1, start2)
  {
    PositionsFit(line, p1, p2, p3);
  }

  /**
   * A line yields a pair exactly when `p1` occurs, `p2` occurs after the
   * first `p1`, and the first `p3` does not start before that `p2`; the key
   * is the trimmed text between the first `p1` and that `p2`, the value the
   * trimmed text after the first `p3`.
   */
  lemma {:induction false} LinePairFound(line: string, p1: string, p2: string, p3: string, a: int, b: int, c: int)
    requires FirstAt(line, p1, 0, a) && FirstAt(line, p2, a + |p1|, b) && FirstAt(line, p3, 0, c)
    ensures LinePair(line, p1, p2, p3).Some? <==> c >= b
    ensures c >= b ==> LinePair(line, p1, p2, p3) == Some((Trim(line[a + |p1|..b]), Trim(line[c + |p3|..])))
  {
    IndexOfFirst(line, p1, 0, a);
    IndexOfFirst(line, p2, a + |p1|, b);
    IndexOfFirst(line, p3, 0, c);
    LinePairAtPositions(line, p1, p2, p3, a, b, c);
    if c >= b {
      PairAtSome(line, p1, p3, a, b, c);
    } else {
      PairAtNone(line, p1, p3, a, b, c);
    }
  }

  /** Without `p1`, without a `p2` after the first `p1`, or without `p3`, the line is skipped. */
  lemma {:induction false} LinePairMissing(line: string, p1: string, p2: string, p3: string)
    requires
      || Absent(line, p1, 0)
      || (exists a :: FirstAt(line, p1, 0, a) && Absent(line, p2, a + |p1|))
      || Absent(line, p3, 0)
    ensures LinePair(line, p1, p2, p3) == None
  {
    if Absent(line, p1, 0) {
      IndexOfAbsent(line, p1, 0);
    } else if Absent(line, p3, 0) {
      IndexOfAbsent(line, p3, 0);
    } else {
      var a :| FirstAt(line, p1, 0, a) && Absent(line, p2, a + |p1|);
      IndexOfFirst(line, p1, 0, a);
      IndexOfAbsent(line, p2, a + |p1|);
    }
    var start1 := IndexOf(line, p1, 0);
    var end1 := IndexOf(line, p2, start1 + |p1|);
    var start2 := IndexOf(line, p3, 0);
    LinePairAtPositions(line, p1, p2, p3, start1, end1, start2);
    PairAtNone(line, p1, p3, start1, end1, start2);
  }

  // ---------------------------------------------------------------------
  // All lines
  // ---------------------------------------------------------------------

  /** `f` applied to every element, keeping the values of the `Some` results, in order. */
  function FilterMap<S, T>(f: S -> Option<T>, xs: seq<S>): seq<T>
    decreases |xs|
  {
    if xs == [] then []
    else
      var front := FilterMap(f, xs[..|xs| - 1]);
      match f(xs[|xs| - 1])
      case Some(y) => front + [y]
      case None => front
  }

  lemma {:induction false} FilterMapBound<S, T>(f: S -> Option<T>, xs: seq<S>)
    ensures |FilterMap(f, xs)| <= |xs|
    decreases |xs|
  {
    if xs != [] {
      FilterMapBound(f, xs[..|xs| - 1]);
    }
  }

  lemma {:induction false} FilterMapAppend<S, T>(f: S -> Option<T>, xs: seq<S>, ys: seq<S>)
    ensures FilterMap(f, xs + ys) == FilterMap(f, xs) + FilterMap(f, ys)
    decreases |ys|
  {
    if ys == [] {
      assert xs + ys == xs;
    } else {
      var ys' := ys[..|ys| - 1];
      FilterMapAppend(f, xs, ys');
      assert (xs + ys)[..|xs + ys| - 1] == xs + ys';
      assert (xs + ys)[|xs + ys| - 1] == ys[|ys| - 1];
    }
  }

  lemma {:induction false} FilterMapMember<S, T>(f: S -> Option<T>, xs: seq<S>, y: T)
    ensures y in FilterMap(f, xs) <==> exists i :: 0 <= i < |xs| && f(xs[i]) == Some(y)
    decreases |xs|
  {
    if xs != [] {
      var front := xs[..|xs| - 1];
      FilterMapMember(f, front, y);
      if exists i :: 0 <= i < |xs| && f(xs[i]) == Some(y) {
        var i :| 0 <= i < |xs| && f(xs[i]) == Some(y);
        if i < |xs| - 1 {
          assert front[i] == xs[i];
        }
      }
      if exists i :: 0 <= i < |front| && f(front[i]) == Some(y) {
        var i :| 0 <= i < |front| && f(front[i]) == Some(y);
        assert xs[i] == front[i];
      }
    }
  }

  /** The pairs of the given lines, in line order. */
  function Pairs(lines: seq<string>, p1: string, p2: string, p3: string): seq<(string, string)> {
    FilterMap(line => LinePair(line, p1, p2, p3), lines)
  }

  /** At most one pair per line. */
  lemma {:induction false} PairsBound(lines: seq<string>, p1: string, p2: string, p3: string)
    ensures |Pairs(lines, p1, p2, p3)| <= |lines|
  {
    FilterMapBound(line => LinePair(line, p1, p2, p3), lines);
  }

  /** Line order is kept: the pairs of two blocks of lines are those of the first, then the second. */
  lemma {:induction false} PairsAppend(xs: seq<string>, ys: seq<string>, p1: string, p2: string, p3: string)
    ensures Pairs(xs + ys, p1, p2, p3) == Pairs(xs, p1, p2, p3) + Pairs(ys, p1, p2, p3)
  {
    FilterMapAppend(line => LinePair(line, p1, p2, p3), xs, ys);
  }

  /** A pair is in the result exactly when some line yields it. */
  lemma {:induction false} PairsMember(lines: seq<string>, p1: string, p2: string, p3: string, kv: (string, string))
    ensures kv in Pairs(lines, p1, p2, p3) <==> exists i :: 0 <= i < |lines| && LinePair(lines[i], p1, p2, p3) == Some(kv)
  {
    FilterMapMember(line => LinePair(line, p1, p2, p3), lines, kv);
  }

  /** The `for (const line of lines)` loop: the pair of every line that has one, pushed in order. */
  method CollectPairs(p1: string, p2: string, p3: string, lines: seq<string>) returns (result: seq<(string, string)>)
    ensures result == Pairs(lines, p1, p2, p3)
  {
    result := [];
    for n := 0 to |lines|
      invariant result == Pairs(lines[..n], p1, p2, p3)
    {
      assert lines[..n + 1][..n] == lines[..n];
      match LinePair(lines[n], p1, p2, p3) {
        case Some(kv) => result := result + [kv];
        case None =>
      }
    }
    assert lines[..|lines|] == lines;
  }

  /** `extractTableText(p1, p2, p3, text)`: the pairs of the cleaned-up lines of the text. */
  method ExtractTableText(p1: string, p2: string, p3: string, text: string) returns (result: seq<(string, string)>)
    ensures result == Pairs(Lines(text), p1, p2, p3)
  {
    var lines := Lines(text);
    result := CollectPairs(p1, p2, p3, lines);
  }
}
