/**
 * The product-description editor (mrt/js/textcombine.js): three text fields
 * and a two-column spec table on the left, the generated HTML on the right.
 * The pure parts are `escapeHTML`, the newline stripping of the one-line
 * fields and the HTML the preview is built from; the editor itself is a
 * class whose fields are the values of the form controls.
 */
module TextCombine {
  import opened JsStrings

  // ---------------------------------------------------------------------
  // Rendering a sequence piece by piece
  // ---------------------------------------------------------------------

  /** The pieces `f` renders for the elements of `xs`, run together in order. */
  function ConcatMap<T>(f: T -> string, xs: seq<T>): string
    decreases |xs|
  {
    if xs == [] then "" else ConcatMap(f, xs[..|xs| - 1]) + f(xs[|xs| - 1])
  }

  lemma {:induction false} ConcatMapAppend<T>(f: T -> string, a: seq<T>, b: seq<T>)
    ensures ConcatMap(f, a + b) == ConcatMap(f, a) + ConcatMap(f, b)
    decreases |b|
  {
    if b == [] {
      assert a + b == a;
    } else {
      var init, last := b[..|b| - 1], b[|b| - 1];
      ConcatMapAppend(f, a, init);
      assert (a + b)[..|a + b| - 1] == a + init;
      assert (a + b)[|a + b| - 1] == last;
    }
  }

  lemma {:induction false} ConcatMapCons<T>(f: T -> string, xs: seq<T>)
    requires xs != []
    ensures ConcatMap(f, xs) == f(xs[0]) + ConcatMap(f, xs[1..])
  {
    ConcatMapAppend(f, [xs[0]], xs[1..]);
    assert [xs[0]] + xs[1..] == xs;
    assert [xs[0]][..0] == [];
  }

  /** When no piece is empty, the result is empty exactly when there are no elements. */
  lemma {:induction false} ConcatMapEmpty<T>(f: T -> string, xs: seq<T>)
    requires forall x :: f(x) != ""
    ensures ConcatMap(f, xs) == "" <==> xs == []
  {
    if xs != [] {
      assert |f(xs[|xs| - 1])| > 0;
    }
  }

  /** The elements of `xs` that satisfy `p`, in order. */
  function Filter<T>(p: T -> bool, xs: seq<T>): seq<T>
    decreases |xs|
  {
    if xs == [] then [] else Filter(p, xs[..|xs| - 1]) + (if p(xs[|xs| - 1]) then [xs[|xs| - 1]] else [])
  }

  lemma {:induction false} FilterMember<T>(p: T -> bool, xs: seq<T>)
    ensures forall x :: x in Filter(p, xs) <==> x in xs && p(x)
    decreases |xs|
  {
    if xs != [] {
      FilterMember(p, xs[..|xs| - 1]);
      assert xs == xs[..|xs| - 1] + [xs[|xs| - 1]];
    }
  }

  /** Rendering only the elements that satisfy `p` is rendering the filtered sequence. */
  lemma {:induction false} ConcatMapFilter<T>(f: T -> string, g: T -> string, p: T -> bool, xs: seq<T>)
    requires forall x :: g(x) == if p(x) then f(x) else ""
    ensures ConcatMap(g, xs) == ConcatMap(f, Filter(p, xs))
    decreases |xs|
  {
    if xs != [] {
      var front, last := xs[..|xs| - 1], xs[|xs| - 1];
      ConcatMapFilter(f, g, p, front);
      if p(last) {
        ConcatMapAppend(f, Filter(p, front), [last]);
        assert [last][..0] == [];
      } else {
        assert Filter(p, front) + [] == Filter(p, front);
      }
    }
  }

  // ---------------------------------------------------------------------
  // escapeHTML
  // ---------------------------------------------------------------------

  /** The five characters `escapeHTML` replaces. */
  predicate IsSpecial(c: char) {
    c == '&' || c == '<' || c == '>' || c == '"' || c == '\''
  }

  /** The characters that would open or close markup or an attribute value. */
  predicate IsMarkup(c: char) {
    c == '<' || c == '>' || c == '"' || c == '\''
  }

  /** The replacement of one character. */
  function EscapeChar(c: char): string
  {
    match c
    case '&' => "&amp;"
    case '<' => "&lt;"
    case '>' => "&gt;"
    case '"' => "&quot;"
    case '\'' => "&#39;"
    case _ => [c]
  }

  /** `escapeHTML(str)`: every special character replaced by its entity. */
  function EscapeHtml(s: string): string {
    ConcatMap(EscapeChar, s)
  }

  /** Markup characters never survive escaping: no `<`, `>`, `"` or `'` is left. */
  lemma {:induction false} EscapeHtmlSafe(s: string)
    ensures forall i :: 0 <= i < |EscapeHtml(s)| ==> !IsMarkup(EscapeHtml(s)[i])
    decreases |s|
  {
    if s != [] {
      var front := s[..|s| - 1];
      EscapeHtmlSafe(front);
      var head := EscapeHtml(front);
      var tail := EscapeChar(s[|s| - 1]);
      assert EscapeHtml(s) == head + tail;
      assert forall i :: 0 <= i < |tail| ==> !IsMarkup(tail[i]);
      assert forall i :: |head| <= i < |head + tail| ==> (head + tail)[i] == tail[i - |head|];
    }
  }

  /** Text without special characters comes back unchanged. */
  lemma {:induction false} EscapeHtmlPlain(s: string)
    requires forall i :: 0 <= i < |s| ==> !IsSpecial(s[i])
    ensures EscapeHtml(s) == s
    decreases |s|
  {
    if s != [] {
      EscapeHtmlPlain(s[..|s| - 1]);
      assert s[..|s| - 1] + [s[|s| - 1]] == s;
    }
  }

  /** Escaping works character by character, so it distributes over concatenation. */
  lemma {:induction false} EscapeHtmlAppend(a: string, b: string)
    ensures EscapeHtml(a + b) == EscapeHtml(a) + EscapeHtml(b)
  {
    ConcatMapAppend(EscapeChar, a, b);
  }

  /** Decoding of the five entities `escapeHTML` produces, left to right. */
  function Unescape(s: string): string
    decreases |s|
  {
    if s == [] then []
    else if StartsWith(s, "&amp;") then "&" + Unescape(s[5..])
    else if StartsWith(s, "&lt;") then "<" + Unescape(s[4..])
    else if StartsWith(s, "&gt;") then ">" + Unescape(s[4..])
    else if StartsWith(s, "&quot;") then "\"" + Unescape(s[6..])
    else if StartsWith(s, "&#39;") then "'" + Unescape(s[5..])
    else [s[0]] + Unescape(s[1..])
  }

  /** The text after a prefix. */
  lemma {:induction false} AfterPrefix(p: string, t: string)
    ensures StartsWith(p + t, p) && (p + t)[|p|..] == t
  {
    assert (p + t)[..|p|] == p;
  }

  lemma {:induction false} UnescapeAmp(t: string)
    ensures Unescape("&amp;" + t) == "&" + Unescape(t)
  {
    AfterPrefix("&amp;", t);
  }

  lemma {:induction false} UnescapeLt(t: string)
    ensures Unescape("&lt;" + t) == "<" + Unescape(t)
  {
    AfterPrefix("&lt;", t);
    assert ("&lt;" + t)[1] == 'l';
  }

  lemma {:induction false} UnescapeGt(t: string)
    ensures Unescape("&gt;" + t) == ">" + Unescape(t)
  {
    AfterPrefix("&gt;", t);
    assert ("&gt;" + t)[1] == 'g';
  }

  lemma {:induction false} UnescapeQuot(t: string)
    ensures Unescape("&quot;" + t) == "\"" + Unescape(t)
  {
    AfterPrefix("&quot;", t);
    assert ("&quot;" + t)[1] == 'q';
  }

  lemma {:induction false} UnescapeApos(t: string)
    ensures Unescape("&#39;" + t) == "'" + Unescape(t)
  {
    AfterPrefix("&#39;", t);
    assert ("&#39;" + t)[1] == '#';
  }

  lemma {:induction false} UnescapePlain(c: char, t: string)
    requires c != '&'
    ensures Unescape([c] + t) == [c] + Unescape(t)
  {
    AfterPrefix([c], t);
  }

  /** Decoding one escaped character in front of any text gives back that character. */
  lemma {:induction false} UnescapeEscapeChar(c: char, t: string)
    ensures Unescape(EscapeChar(c) + t) == [c] + Unescape(t)
  {
    match c
    case '&' => UnescapeAmp(t);
    case '<' => UnescapeLt(t);
    case '>' => UnescapeGt(t);
    case '"' => UnescapeQuot(t);
    case '\'' => UnescapeApos(t);
    case _ => UnescapePlain(c, t);
  }

  /** Decoding the entities gives back the input: `escapeHTML` loses nothing. */
  lemma {:induction false} UnescapeEscape(s: string)
    ensures Unescape(EscapeHtml(s)) == s
    decreases |s|
  {
    if s != [] {
      UnescapeEscape(s[1..]);
      ConcatMapCons(EscapeChar, s);
      UnescapeEscapeChar(s[0], EscapeHtml(s[1..]));
      assert [s[0]] + s[1..] == s;
    }
  }

  // ---------------------------------------------------------------------
  // The one-line fields: `value.replace(/\n/g, '')`
  // ---------------------------------------------------------------------

  /** The text with every newline removed. */
  function StripNewlines(s: string): string
    decreases |s|
  {
    if s == [] then []
    else (if s[0] == '\n' then [] else [s[0]]) + StripNewlines(s[1..])
  }

  /** No newline is left, and text without one is kept as it is. */
  lemma {:induction false} StripNewlinesShape(s: string)
    ensures '\n' !in StripNewlines(s)
    ensures '\n' !in s ==> StripNewlines(s) == s
    decreases |s|
  {
    if s != [] {
      StripNewlinesShape(s[1..]);
      assert s == [s[0]] + s[1..];
    }
  }

  function Concat(parts: seq<string>): string
    decreases |parts|
  {
    if parts == [] then [] else parts[0] + Concat(parts[1..])
  }

  /** Stripping keeps the text between the newlines, in order: the pieces of the split, run together. */
  lemma {:induction false} StripNewlinesConcat(s: string)
    ensures StripNewlines(s) == Concat(Split(s, '\n'))
    decreases |s|
  {
    if s != [] {
      var rest := Split(s[1..], '\n');
      StripNewlinesConcat(s[1..]);
      if s[0] == '\n' {
        assert Split(s, '\n') == [""] + rest;
        assert ([""] + rest)[1..] == rest;
      } else {
        var r := Split(s, '\n');
        assert r == [[s[0]] + rest[0]] + rest[1..];
        assert r[1..] == rest[1..];
        assert Concat(rest) == rest[0] + Concat(rest[1..]);
      }
    }
  }

  // ---------------------------------------------------------------------
  // The features field
  // ---------------------------------------------------------------------

  /** The bullet every features line is expected to start with. */
  const Bullet: string := "・"

  /** Line `i` of the features text is a non-blank line, after the first, without the bullet. */
  predicate BadFeatureLine(lines: seq<string>, i: int) {
    1 <= i < |lines| && Trim(lines[i]) != "" && !StartsWith(lines[i], Bullet)
  }

  /** The error flag `handleFeaturesValidation` computes for a non-blank text. */
  ghost predicate FeaturesInvalid(text: string) {
    exists i :: BadFeatureLine(Split(text, '\n'), i)
  }

  /**
   * `handleFeaturesValidation`: a blank text becomes the bullet and clears
   * the error mark; otherwise the text stays and the mark is set exactly when
   * a line after the first is non-blank and lacks the bullet.
   */
  method CheckFeatures(value: string) returns (text: string, hasError: bool)
    ensures Trim(value) == "" ==> text == Bullet && !hasError
    ensures Trim(value) != "" ==> text == value && (hasError <==> FeaturesInvalid(value))
  {
    text := value;
    hasError := false;
    if Trim(value) == "" {
      text := Bullet;
      return;
    }
    var lines := Split(value, '\n');
    var i := 0;
    while i < |lines|
      invariant 0 <= i <= |lines|
      invariant !hasError ==> forall j :: 0 <= j < i ==> !BadFeatureLine(lines, j)
      invariant hasError ==> BadFeatureLine(lines, i)
      decreases |lines| - i, if hasError then 0 else 1
    {
      if i == 0 || Trim(lines[i]) == "" {
        i := i + 1;
        continue;
      }
      if !StartsWith(lines[i], Bullet) {
        hasError := true;
        break;
      }
      i := i + 1;
    }
    if hasError {
      assert BadFeatureLine(Split(value, '\n'), i);
    }
  }

  // ---------------------------------------------------------------------
  // The preview HTML
  // ---------------------------------------------------------------------

  /** One row of the spec table. */
  datatype SpecRow = SpecRow(key: string, value: string)

  const BlankRow := SpecRow("", "")

  /** A row shows in the table when its trimmed key or value is non-empty. */
  predicate Shown(row: SpecRow) {
    Trim(row.key) != "" || Trim(row.value) != ""
  }

  predicate AnyShown(rows: seq<SpecRow>) {
    exists i :: 0 <= i < |rows| && Shown(rows[i])
  }

  /** `escapeHTML(text).replace(/\n/g, '<br>\n')`, after escaping. */
  function BreakLines(s: string): string
    decreases |s|
  {
    if s == [] then []
    else (if s[0] == '\n' then "<br>\n" else [s[0]]) + BreakLines(s[1..])
  }

  function CatchcopyHtml(catchcopy: string): string {
    var v := Trim(catchcopy);
    if v == "" then "" else "<h3>" + EscapeHtml(v) + "</h3>\n"
  }

  function IntroHtml(intro: string): string {
    var v := Trim(intro);
    if v == "" then "" else "<p>" + EscapeHtml(v) + "</p>\n"
  }

  function FeaturesHtml(features: string): string {
    var v := Trim(features);
    if v == "" then "" else "<h3>●特長</h3>\n<p>" + BreakLines(EscapeHtml(v)) + "</p>\n"
  }

  function RowHtml(row: SpecRow): string {
    "<tr><td>" + EscapeHtml(Trim(row.key)) + "</td><td>" + EscapeHtml(Trim(row.value)) + "</td></tr>\n"
  }

  /** The markup of one row of the table body: nothing for a row that is not shown. */
  function ShownRowHtml(row: SpecRow): string {
    if Shown(row) then RowHtml(row) else ""
  }

  /** The rows of the table body, blank rows skipped. */
  function RowsHtml(rows: seq<SpecRow>): string {
    ConcatMap(ShownRowHtml, rows)
  }

  /** A column of the table: its width and background colour. */
  function ColgroupHtml(width: string, color: string): string {
    "<colgroup " + "style=\"width:" + width + "; " + "background-color:" + color + ";\">" + "</colgroup>\n"
  }

  /** The table around the row markup: a grey key column of 30% and a white value column of 70%. */
  function TableHtml(content: string): string {
    "<table>\n" + ColgroupHtml("30%", "#eeeeee") + ColgroupHtml("70%", "#ffffff") + "<tbody>\n"
    + content + "\n</tbody>\n" + "</table>"
  }

  /** The three text sections of the preview, in order. */
  function SectionsHtml(catchcopy: string, intro: string, features: string): string {
    CatchcopyHtml(catchcopy) + IntroHtml(intro) + FeaturesHtml(features)
  }

  /** The preview: the text sections, then the table when a row is shown. */
  function PreviewHtml(catchcopy: string, intro: string, features: string, rows: seq<SpecRow>): string {
    Assemble(SectionsHtml(catchcopy, intro, features), AnyShown(rows), RowsHtml(rows))
  }

  /** The sections, followed by the table around `content` when there is one. */
  function Assemble(sections: string, hasTable: bool, content: string): string {
    sections + (if hasTable then TableHtml(content) else "")
  }

  /**
   * A row appears in the table exactly when it is shown: the table body is
   * the shown rows, in order, and it is empty exactly when no row is shown.
   */
  lemma {:induction false} RowsHtmlShown(rows: seq<SpecRow>)
    ensures RowsHtml(rows) == ConcatMap(RowHtml, Filter(Shown, rows))
    ensures forall r :: r in Filter(Shown, rows) <==> r in rows && Shown(r)
    ensures RowsHtml(rows) == "" <==> !AnyShown(rows)
  {
    ConcatMapFilter(RowHtml, ShownRowHtml, Shown, rows);
    FilterMember(Shown, rows);
    assert forall row :: |RowHtml(row)| > 0;
    ConcatMapEmpty(RowHtml, Filter(Shown, rows));
    if AnyShown(rows) {
      var i :| 0 <= i < |rows| && Shown(rows[i]);
      assert rows[i] in Filter(Shown, rows);
    }
  }

  /** The preview is empty exactly when every field is blank and no spec row is shown. */
  lemma {:induction false} PreviewEmpty(catchcopy: string, intro: string, features: string, rows: seq<SpecRow>)
    ensures PreviewHtml(catchcopy, intro, features, rows) == "" <==>
      Trim(catchcopy) == "" && Trim(intro) == "" && Trim(features) == "" && !AnyShown(rows)
  {
    assert |CatchcopyHtml(catchcopy)| > 0 <== Trim(catchcopy) != "";
    assert |IntroHtml(intro)| > 0 <== Trim(intro) != "";
    assert |FeaturesHtml(features)| > 0 <== Trim(features) != "";
  }

  /** The row loop of `updatePreview`: the markup of the shown rows, and whether there was one. */
  method CollectRows(specs: seq<SpecRow>) returns (tableContent: string, hasSpecContent: bool)
    ensures tableContent == RowsHtml(specs)
    ensures hasSpecContent <==> AnyShown(specs)
  {
    tableContent := "";
    hasSpecContent := false;
    for n := 0 to |specs|
      invariant tableContent == RowsHtml(specs[..n])
      invariant hasSpecContent <==> AnyShown(specs[..n])
    {
      var row := specs[n];
      assert specs[..n + 1] == specs[..n] + [row];
      if Trim(row.key) != "" || Trim(row.value) != "" {
        tableContent := tableContent + RowHtml(row);
        hasSpecContent := true;
      }
      assert specs[..n + 1][..n] == specs[..n];
    }
    assert specs[..|specs|] == specs;
  }

  // ---------------------------------------------------------------------
  // The editor
  // ---------------------------------------------------------------------

  /** The fields a clear button can target. */
  datatype Field = CatchcopyField | IntroField | FeaturesField | SpecTableField

  /** The form: the three text fields, the error mark of the features field, the table rows and the preview. */
  class Editor {
    var catchcopy: string
    var intro: string
    var features: string
    var featuresError: bool
    var specs: seq<SpecRow>
    var preview: string

    /** The spec table is never left without a row. */
    predicate Valid()
      reads this
    {
      |specs| >= 1
    }

    /**
     * The page after loading: the stored field values and the rows the table
     * holds, where a table left empty gets one blank row; then the features
     * check and the first preview.
     */
    constructor(catchcopy0: string, intro0: string, features0: string, rows: seq<SpecRow>)
      ensures Valid()
      ensures preview == PreviewHtml(catchcopy, intro, features, specs)
      ensures catchcopy == catchcopy0 && intro == intro0
      ensures specs == if rows == [] then [BlankRow] else rows
      ensures Trim(features0) == "" ==> features == Bullet && !featuresError
      ensures Trim(features0) != "" ==> features == features0 && (featuresError <==> FeaturesInvalid(features0))
    {
      var text, hasError := CheckFeatures(features0);
      catchcopy := catchcopy0;
      intro := intro0;
      specs := if rows == [] then [BlankRow] else rows;
      features := text;
      featuresError := hasError;
      preview := "";
      new;
      UpdatePreview();
    }

    /** `handleFeaturesValidation` on this editor's features field, by `CheckFeatures`. */
    method ValidateFeatures()
      modifies this`features, this`featuresError
      ensures Trim(old(features)) == "" ==> features == Bullet && !featuresError
      ensures Trim(old(features)) != "" ==> features == old(features) && (featuresError <==> FeaturesInvalid(features))
    {
      features, featuresError := CheckFeatures(features);
    }

    /** `updatePreview`: the text sections, then the table rows collected by `CollectRows`. */
    method UpdatePreview()
      modifies this`preview
      ensures preview == PreviewHtml(catchcopy, intro, features, specs)
    {
      var tableContent, hasSpecContent := CollectRows(specs);
      preview := Assemble(SectionsHtml(catchcopy, intro, features), hasSpecContent, tableContent);
    }

    /** The input handler of the catchcopy field: newlines are dropped as they are typed. */
    method InputCatchcopy(text: string)
      modifies this`catchcopy, this`preview
      ensures catchcopy == StripNewlines(text)
      ensures preview == PreviewHtml(catchcopy, intro, features, specs)
    {
      catchcopy := StripNewlines(text);
      UpdatePreview();
    }

    /** The input handler of the intro field, which drops newlines the same way. */
    method InputIntro(text: string)
      modifies this`intro, this`preview
      ensures intro == StripNewlines(text)
      ensures preview == PreviewHtml(catchcopy, intro, features, specs)
    {
      intro := StripNewlines(text);
      UpdatePreview();
    }

    /** The input handler of the features field: the check, then the preview. */
    method InputFeatures(text: string)
      modifies this`features, this`featuresError, this`preview
      ensures Trim(text) == "" ==> features == Bullet && !featuresError
      ensures Trim(text) != "" ==> features == text && (featuresError <==> FeaturesInvalid(text))
      ensures preview == PreviewHtml(catchcopy, intro, features, specs)
    {
      features := text;
      ValidateFeatures();
      UpdatePreview();
    }

    /** The input handler of the spec table: row `i` now holds `row`. */
    method EditSpecRow(i: nat, row: SpecRow)
      requires Valid() && i < |specs|
      modifies this`specs, this`preview
      ensures Valid()
      ensures specs == old(specs)[i := row]
      ensures preview == PreviewHtml(catchcopy, intro, features, specs)
    {
      specs := specs[i := row];
      UpdatePreview();
    }

    /** `addSpecRow`: one blank row at the end. */
    method AddSpecRow()
      modifies this`specs
      ensures Valid()
      ensures specs == old(specs) + [BlankRow]
    {
      specs := specs + [BlankRow];
    }

    /** The remove button of row `i`: the row goes, and an emptied table gets one blank row. */
    method RemoveSpecRow(i: nat)
      requires Valid() && i < |specs|
      modifies this`specs, this`preview
      ensures Valid()
      ensures specs == if |old(specs)| == 1 then [BlankRow] else old(specs[..i] + specs[i + 1..])
      ensures preview == PreviewHtml(catchcopy, intro, features, specs)
    {
      specs := specs[..i] + specs[i + 1..];
      if |specs| == 0 {
        AddSpecRow();
      }
      UpdatePreview();
    }

    /** `resetSpecTable`: all rows removed, then one blank row. */
    method ResetSpecTable()
      modifies this`specs
      ensures Valid()
      ensures specs == [BlankRow]
    {
      specs := [];
      AddSpecRow();
    }

    /** `clearAllInputs`: empty fields, one blank row, the features bullet, no error mark. */
    method ClearAllInputs()
      modifies this
      ensures Valid()
      ensures catchcopy == "" && intro == "" && features == Bullet && !featuresError
      ensures specs == [BlankRow]
      ensures preview == PreviewHtml(catchcopy, intro, features, specs)
    {
      catchcopy := "";
      intro := "";
      features := "";
      ResetSpecTable();
      ValidateFeatures();
      UpdatePreview();
    }

    /** The clear-all button: everything is cleared only when the user confirms. */
    method ClearAllButton(confirmed: bool)
      requires Valid()
      modifies this
      ensures Valid()
      ensures confirmed ==> catchcopy == "" && intro == "" && features == Bullet && !featuresError && specs == [BlankRow]
      ensures confirmed ==> preview == PreviewHtml(catchcopy, intro, features, specs)
      ensures !confirmed ==> unchanged(this)
    {
      if confirmed {
        ClearAllInputs();
      }
    }

    /**
     * The clear button of one field: the spec table goes back to one blank
     * row, a text field is emptied, and an emptied features field gets the
     * bullet back; then the preview follows.
     */
    method ClearField(target: Field)
      requires Valid()
      modifies this
      ensures Valid()
      ensures catchcopy == (if target == CatchcopyField then "" else old(catchcopy))
      ensures intro == (if target == IntroField then "" else old(intro))
      ensures features == (if target == FeaturesField then Bullet else old(features))
      ensures featuresError == (if target == FeaturesField then false else old(featuresError))
      ensures specs == (if target == SpecTableField then [BlankRow] else old(specs))
      ensures preview == PreviewHtml(catchcopy, intro, features, specs)
    {
      ClearValue(target);
      UpdatePreview();
    }

    /** The part of a clear button that empties its target. */
    method ClearValue(target: Field)
      requires Valid()
      modifies this`catchcopy, this`intro, this`features, this`featuresError, this`specs
      ensures Valid()
      ensures catchcopy == (if target == CatchcopyField then "" else old(catchcopy))
      ensures intro == (if target == IntroField then "" else old(intro))
      ensures features == (if target == FeaturesField then Bullet else old(features))
      ensures featuresError == (if target == FeaturesField then false else old(featuresError))
      ensures specs == (if target == SpecTableField then [BlankRow] else old(specs))
    {
      match target {
        case SpecTableField => ResetSpecTable();
        case CatchcopyField => catchcopy := "";
        case IntroField => intro := "";
        case FeaturesField =>
          features := "";
          ValidateFeatures();
      }
    }
  }

  /** After clearing, the preview holds only the features heading and the bullet. */
  lemma {:induction false} ClearedPreview()
    ensures PreviewHtml("", "", Bullet, [BlankRow]) == "<h3>●特長</h3>\n<p>・</p>\n"
  {
    assert !IsWhitespace('・');
    assert Trim(Bullet) == Bullet;
    assert !AnyShown([BlankRow]) by {
      assert Trim("") == "";
    }
  }
}
