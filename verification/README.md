# Map generator and page tools, modelled in Dafny

This project models the logic of two small browser applications.

- **The game map.** `game-map/map-logic.js` turns a server seed and a cell
  `(x, y)` into a biome label. It hashes lattice points with SHA-256, blends
  them into value noise, and runs a fixed decision tree over elevation,
  temperature, humidity and two river fields. The hashed values are memoized
  in a module-level table. `game-map/viewer-script.js` clamps the zoom level,
  builds the weekly part of the seed, marks hotspot rings, and draws the
  square of cells row by row.
- **The text combiner.** `mrt/js/textcombine.js` is a form with a catchcopy,
  an intro, a bullet-list of features and a key/value spec table. It
  validates the features, escapes everything for HTML, and rebuilds a
  preview on every edit. `mrt/js/textcombine_popup.js` extracts key/value
  pairs from pasted text with three delimiters.
- **The block builder.** `mrt/js/cp.js` is a list of blocks, each with a
  start selector, content and an end selector. Blocks are added, deleted and
  reordered by drag and drop. Copy joins them into one string. Save and load
  keep only the two selectors.

Files:

- `wrappers.dfy`: the `Option` type.
- `js_strings.dfy` (module `JsStrings`): the JavaScript string built-ins the
  code relies on. These are `trim`, `split`, `startsWith`, `indexOf`,
  `String(n)` and `padStart`.
- `map_logic.dfy` (module `MapLogic`): the generator. The class
  `MapSession` holds `serverId` and the memo table.
- `viewer.dfy` (module `Viewer`): the viewer. The class `ZoomControl` holds
  the zoom level.
- `table_text.dfy` (module `TableText`): `extractTableText`.
- `text_combine.dfy` (module `TextCombine`): escaping, validation and the
  preview. The class `Editor` holds the form fields.
- `block_builder.dfy` (module `BlockBuilder`): the insertion point, the drop
  reorder, copy, and save/load. The class `Builder` holds the block list.

SHA-256 and the cosine easing are given as the two fields of
`MapLogic.Primitives`. They are constrained only by the facts the code
relies on: every digest has 32 bytes, and the easing gives every real a
value in [0, 1], with ease(0) = 0 and ease(1) = 1 (the cosine formula does
so for every argument). Floating-point numbers are `real`s.
Everything the browser supplies is a parameter. This covers the clock, text
parsed from fields and URLs, screen positions, `localStorage` contents, and
the answers to `confirm`.

## Model

| member | source | states |
|---|---|---|
| MapLogic.HexDigitValue | game-map/map-logic.js:6 | each nibble prints as one hexadecimal digit that reads back as the nibble |
| MapLogic.Hex | game-map/map-logic.js:5-6 | the hex text of a digest has two hexadecimal digits per byte |
| MapLogic.HexPrefix | game-map/map-logic.js:20 | the first 2k hex digits are the hex text of the first k bytes |
| MapLogic.ParseHexOfHex | game-map/map-logic.js:20 | `parseInt(hex, 16)` of the hex text is the big-endian value of the bytes |
| MapLogic.BigEndianFour | game-map/map-logic.js:20 | the value of four bytes, written out with its place values |
| MapLogic.DigestPrefixValue | game-map/map-logic.js:19-20 | the number read from the first eight hex digits is the big-endian value of the first four digest bytes |
| MapLogic.Prefix32 | game-map/map-logic.js:20 | that number lies in 0..0xFFFFFFFF |
| MapLogic.LatticeValue | game-map/map-logic.js:16-22 | the hashed value of the key `serverId:x:y:salt` lies in [0, 1], ends included |
| MapLogic.Hashed | game-map/map-logic.js:16-22 | the lattice gives every key its hashed value, always within [0, 1] |
| MapLogic.BlendBetween | game-map/map-logic.js:28 | `a*(1-f) + b*f` with f in [0, 1] lies between min(a,b) and max(a,b), and is a at f = 0 and b at f = 1 |
| MapLogic.Interpolate | game-map/map-logic.js:25-29 | definition: `a*(1-f) + b*f` with f the easing of t; its range and end points are stated by `InterpolateBetween` |
| MapLogic.SeedText | game-map/map-logic.js:17 | definition: the current seed as the template literal prints it, `null` when none is set; used by every session method's contract |
| MapLogic.KeyText | game-map/map-logic.js:17 | definition: the memo key `seed:x:y:salt`; `LatticeValue` hashes it |
| MapLogic.GridFor | game-map/map-logic.js:32 | definition: the custom grid when one is given, 6.0 otherwise; `GetNoiseValue` answers on it |
| MapLogic.InterpolateBetween | game-map/map-logic.js:25-29 | `interpolate` stays between its two ends, returns a at t = 0 and b at t = 1 |
| MapLogic.LatticeCell | game-map/map-logic.js:33-36 | `ix + fx = x/g`, with ix an integer and 0 <= fx < 1 |
| MapLogic.NoiseValue | game-map/map-logic.js:31-44 | value noise over a lattice in [0, 1] lies in [0, 1] |
| MapLogic.NoiseFromCorners | game-map/map-logic.js:37-43 | the noise blends the corners (ix,iy), (ix+1,iy), (ix,iy+1), (ix+1,iy+1): first along x with fx, then along y with fy |
| MapLogic.NoiseBetweenCorners | game-map/map-logic.js:37-43 | the noise lies between the least and the greatest of its four corner values |
| MapLogic.NoiseAtLatticePoint | game-map/map-logic.js:31-44 | at a lattice point the noise is the hashed value of that point |
| MapLogic.Noise | game-map/map-logic.js:31-44 | the noise field answers every query with the value noise of the lattice |
| MapLogic.ElevationQueries | game-map/map-logic.js:60-62 | definition: the three octave queries at (x, y), (2x, 2y) and (4x, 4y) with salts `elevation1` to `elevation3`; `Elevation` and `GetElevation` are stated over them |
| MapLogic.TemperatureQuery | game-map/map-logic.js:64 | definition: the `temp` query at (x, y) on grid 6.0; `Temperature` and `GetClimate` are stated over it |
| MapLogic.HumidityQuery | game-map/map-logic.js:65 | definition: the `humidity` query at (x, y) on grid 15.0; `ClimateAt` and `GetClimate` are stated over it |
| MapLogic.RiverVQuery | game-map/map-logic.js:78 | definition: the `river_v` query at (x/2, 4y); `ClimateAt` and `GetRivers` are stated over it |
| MapLogic.RiverHQuery | game-map/map-logic.js:79 | definition: the `river_h` query at (4x, y/2); `ClimateAt` and `GetRivers` are stated over it |
| MapLogic.Elevation | game-map/map-logic.js:59-63 | three octaves weighted 0.7, 0.2 and 0.1 give an elevation in [0, 1] |
| MapLogic.Temperature | game-map/map-logic.js:64 | the temperature is noise minus `(y/1000)*0.4`, so it lies in that shifted unit range |
| MapLogic.Classify | game-map/map-logic.js:67-87 | for each label, exactly the region of inputs the first-match-wins order gives it, with strict comparisons; never BASECAMP |
| MapLogic.RiverFieldsOnlyInLowlands | game-map/map-logic.js:67-79 | above elevation 0.3 the river fields do not affect the label |
| MapLogic.EveryLabelReachable | game-map/map-logic.js:67-87 | every label other than BASECAMP is returned for some inputs in range |
| MapLogic.BiomeAt | game-map/map-logic.js:53-87 | the origin is BASECAMP in every state. Any other cell is an error exactly when the server id is null or empty. Otherwise the tree decides |
| MapLogic.HashLatticeUnique | game-map/map-logic.js:16-22 | a lattice that agrees with the hash at every key is the hashed lattice |
| MapLogic.NoiseDeterminedByHash | game-map/map-logic.js:31-44 | two sessions over the same primitives read the same noise |
| MapLogic.ClimateAt | game-map/map-logic.js:59-79 | elevation, humidity and both river fields lie in [0, 1] |
| MapLogic.ClimateDeterminedByHash | game-map/map-logic.js:59-79 | two sessions over the same primitives read the same climate at every cell |
| MapLogic.BiomeDeterminedByHash | game-map/map-logic.js:53-87 | the label depends only on server id, x and y, not on the memo table or on earlier queries |
| MapLogic.MapSession.constructor | game-map/map-logic.js:13-14 | module load: no server id and an empty memo table |
| MapLogic.MapSession.Initialize | game-map/map-logic.js:46-51 | sets the server id and leaves the memo table empty |
| MapLogic.MapSession.GetHashedFloat | game-map/map-logic.js:16-23 | returns the hashed value of the key on a hit and on a miss alike, adds only that key, and keeps every entry equal to its key's hashed value |
| MapLogic.MapSession.GetCorners | game-map/map-logic.js:37-40 | the four corner lookups return the hashed values of the four corners |
| MapLogic.MapSession.GetNoiseValue | game-map/map-logic.js:31-44 | returns the value noise of the query, on grid 6.0 unless a custom grid is given; the memo table only gains keys and every entry stays correct |
| MapLogic.MapSession.GetElevation | game-map/map-logic.js:59-63 | returns `Elevation` of the current seed; the memo table only gains keys and every entry stays correct |
| MapLogic.MapSession.GetClimate | game-map/map-logic.js:59-65 | returns the elevation, temperature and humidity of the current seed; the memo table only gains keys and every entry stays correct |
| MapLogic.MapSession.GetRivers | game-map/map-logic.js:78-79 | returns the two river fields of the current seed; the memo table only gains keys and every entry stays correct |
| MapLogic.MapSession.GetBiome | game-map/map-logic.js:53-88 | returns `BiomeAt` of the current server id over the session's noise field, whatever the memo table held; the memo table only gains keys and every entry stays correct |
| Viewer.Clamp | game-map/viewer-script.js:70-71 | the result lies in 10..500, is the input when in range, and the nearer bound otherwise |
| Viewer.Scale | game-map/viewer-script.js:73 | the CSS scale of a clamped level lies in [0.1, 5] |
| Viewer.ZoomControl.constructor | game-map/viewer-script.js:46 | the zoom starts at 100 |
| Viewer.ZoomControl.ApplyZoom | game-map/viewer-script.js:69-74 | the level becomes its clamp, and the scale is that level over 100 |
| Viewer.ZoomControl.ZoomIn | game-map/viewer-script.js:187-190 | adds 10, then clamps |
| Viewer.ZoomControl.ZoomOut | game-map/viewer-script.js:191-194 | subtracts 10, then clamps |
| Viewer.ZoomControl.EnterZoom | game-map/viewer-script.js:195-211 | a NaN entry changes nothing; a number is clamped and applied |
| Viewer.DaysToSubtract | game-map/viewer-script.js:56-57 | `(dayOfWeek+6) % 7` lies in 0..6 and is the least number of days back to a Monday; it is 0 exactly on Monday |
| Viewer.Pad2Digits | game-map/viewer-script.js:61-62 | a number below 100 pads to two digits that read back as the number |
| Viewer.WeeklyKeyFields | game-map/viewer-script.js:60-63 | the key is `String(year)`, a dash, the 1-based month in two digits, a dash, and the day in two digits |
| Viewer.HotspotClass | game-map/viewer-script.js:89-104 | a cell is unmarked exactly when no hotspot lies within Chebyshev distance 2 of it |
| Viewer.LastHotspotWins | game-map/viewer-script.js:89-104 | a cell's class comes from the last hotspot within distance 2: center at 0, ring1 at 1, ring2 at 2 |
| Viewer.MarkHotspot | game-map/viewer-script.js:90-103 | the three loop nests of one hotspot give each cell within distance 2 the class of its distance, and leave other cells alone |
| Viewer.WeeklyKey | game-map/viewer-script.js:60-63 | definition: `YYYY-MM-DD` of the Monday; its fields are stated by `WeeklyKeyFields` |
| Viewer.FinalSeed | game-map/viewer-script.js:149 | definition: `serverId:weeklyKey`; `GenerateMap` initializes the session with it |
| Viewer.BuildHighlightMap | game-map/viewer-script.js:87-104 | the map built over all hotspots gives every cell its `HotspotClass` |
| Viewer.CellKeyInjective | game-map/viewer-script.js:93-103 | distinct cells have distinct `x,y` keys |
| Viewer.GridSize | game-map/viewer-script.js:154-158 | the loops make (2r+1)^2 steps |
| Viewer.GridOrder | game-map/viewer-script.js:154-158 | the cells are visited in row-major order from the top row down, with no repeat |
| Viewer.GridCovers | game-map/viewer-script.js:154-158 | every cell of the square is visited |
| Viewer.QueryBiomes | game-map/viewer-script.js:153-158 | entry k is `getBiome` of grid cell k |
| Viewer.EveryBiomeHasColor | game-map/viewer-script.js:29-43 | every label has its own colour, so the default colour is never used |
| Viewer.ColorOf | game-map/viewer-script.js:177 | definition: the colour table with its default; `EveryBiomeHasColor` shows the default is never reached |
| Viewer.Title | game-map/viewer-script.js:178 | definition: the tooltip `(x, y): NAME`; the coordinates and biome it shows are those `RenderCells` gives the drawn cell |
| Viewer.RenderCells | game-map/viewer-script.js:171-181 | drawn cell k carries grid cell k and biome k |
| Viewer.DrawOverlay | game-map/viewer-script.js:111-120 | overlay cell k has the class the highlight map gives grid cell k |
| Viewer.GenerateMap | game-map/viewer-script.js:137-183 | an empty server id, or a range that is NaN or below 1, is rejected before the generator is touched. Otherwise the seed is `serverId:weeklyKey` and drawn cell k is the biome of grid cell k |
| JsStrings.Trim | mrt/js/textcombine.js:205 | the trim is no longer than the string; its shape is stated by `TrimShape`, `TrimIsInfix` and `TrimKeepsOut` |
| JsStrings.TrimShape | mrt/js/textcombine.js:205 | the trim of a string is empty exactly when the string is all whitespace; otherwise it starts and ends with non-whitespace |
| JsStrings.TrimIsInfix | mrt/js/textcombine_popup.js:35 | the trim is the infix between the leading and trailing whitespace |
| JsStrings.TrimKeepsOut | mrt/js/textcombine_popup.js:35 | trimming adds no character |
| JsStrings.Split | mrt/js/textcombine.js:210 | `split` gives at least one piece, and no piece holds the separator |
| JsStrings.JoinSplit | mrt/js/textcombine.js:210 | joining the pieces with the separator gives back the string |
| JsStrings.IndexOf | mrt/js/textcombine_popup.js:39-41 | the result is -1 or an occurrence at or after the clamped start; first-ness and absence are stated by `IndexOfFirst` and `IndexOfAbsent` |
| JsStrings.IndexOfFirst | mrt/js/textcombine_popup.js:39-41 | `indexOf` returns the first occurrence at or after the start |
| JsStrings.IndexOfAbsent | mrt/js/textcombine_popup.js:39-41 | `indexOf` returns -1 when there is no occurrence at or after the start |
| JsStrings.IntToString | game-map/viewer-script.js:60 | definition: `String(n)` in decimal; stated by `IntToStringRoundTrip` |
| JsStrings.IntToStringRoundTrip | game-map/viewer-script.js:60-62 | `String(n)` is made of digits, with a minus sign for negative n, and reads back as n |
| JsStrings.PadStart | game-map/viewer-script.js:61-62 | the padded text ends with the input and starts with fill characters up to the width |
| TableText.NormalizeNewlines | mrt/js/textcombine_popup.js:35 | `replace(/\r\n/g, '\n')`: the result is no longer than the text; what it keeps and replaces is stated by `NormalizeKeepsText` and `NormalizeAtCrlf` |
| TableText.NormalizeKeepsText | mrt/js/textcombine_popup.js:35 | replacing CRLF with LF removes only carriage returns, and text without a CRLF pair is unchanged, lone carriage returns included |
| TableText.NormalizeAtCrlf | mrt/js/textcombine_popup.js:35 | each CRLF pair becomes exactly one LF, and the text on either side is normalized on its own |
| TableText.Lines | mrt/js/textcombine_popup.js:35 | definition: the non-empty trimmed lines of the normalized text; stated by `LinesShape` and `NonEmptyMember` |
| TableText.NonEmptyMember | mrt/js/textcombine_popup.js:35 | `filter(Boolean)` keeps exactly the non-empty lines |
| TableText.LinesShape | mrt/js/textcombine_popup.js:35 | every cleaned line is non-empty, holds no newline, and starts and ends with non-whitespace |
| TableText.PositionsFit | mrt/js/textcombine_popup.js:39-44 | the three `indexOf` results are valid substring bounds, and `end1 >= start1` follows from the search start |
| TableText.LinePair | mrt/js/textcombine_popup.js:39-47 | definition: the pair a line yields, if any; stated by `LinePairFound` and `LinePairMissing` |
| TableText.LinePairFound | mrt/js/textcombine_popup.js:39-47 | with p1 first at a, p2 first at b after a+\|p1\|, and p3 first at c, a line yields a pair exactly when c >= b; the pair is the trimmed text between p1 and p2, and the trimmed text after p3 |
| TableText.LinePairMissing | mrt/js/textcombine_popup.js:43-44 | a line missing p1, a later p2, or p3 is skipped |
| TableText.Pairs | mrt/js/textcombine_popup.js:36-51 | definition: the pairs of the lines in order; stated by `PairsBound`, `PairsAppend` and `PairsMember` |
| TableText.PairsBound | mrt/js/textcombine_popup.js:36-51 | there are at most as many pairs as lines |
| TableText.PairsAppend | mrt/js/textcombine_popup.js:38-49 | the pairs come out in line order |
| TableText.PairsMember | mrt/js/textcombine_popup.js:38-49 | a pair is in the result exactly when some line yields it |
| TableText.CollectPairs | mrt/js/textcombine_popup.js:36-51 | the loop pushes the pairs of the lines, in order |
| TableText.ExtractTableText | mrt/js/textcombine_popup.js:33-52 | the result is the pairs of the cleaned lines of the text |
| TextCombine.EscapeChar | mrt/js/textcombine.js:26-32 | definition: the entity of each of the five special characters, the character itself otherwise; `UnescapeEscapeChar` decodes it |
| TextCombine.EscapeHtml | mrt/js/textcombine.js:24-34 | definition: `EscapeChar` applied to every character; stated by `EscapeHtmlSafe`, `EscapeHtmlPlain`, `EscapeHtmlAppend` and `UnescapeEscape` |
| TextCombine.EscapeHtmlSafe | mrt/js/textcombine.js:24-34 | escaped text contains no `<`, `>`, `"` or `'` |
| TextCombine.EscapeHtmlPlain | mrt/js/textcombine.js:24-34 | text without any of the five special characters is left unchanged |
| TextCombine.EscapeHtmlAppend | mrt/js/textcombine.js:24-34 | escaping works character by character, so it distributes over concatenation |
| TextCombine.UnescapeEscapeChar | mrt/js/textcombine.js:26-32 | decoding the entity of each special character gives back that character |
| TextCombine.UnescapeEscape | mrt/js/textcombine.js:24-34 | decoding the five entities of escaped text gives back the text; this is why a stored key survives the `value="..."` round trip on load |
| TextCombine.StripNewlines | mrt/js/textcombine.js:121 | definition: the text with every LF removed; stated by `StripNewlinesShape` and `StripNewlinesConcat` |
| TextCombine.StripNewlinesShape | mrt/js/textcombine.js:121 | the stripped text holds no newline, and text without one is unchanged |
| TextCombine.StripNewlinesConcat | mrt/js/textcombine.js:121 | stripping is the concatenation of the newline-separated pieces |
| TextCombine.CheckFeatures | mrt/js/textcombine.js:202-226 | blank text becomes the bullet with no error. Otherwise the text is kept, and the error is set exactly when some line after the first is non-blank and lacks the bullet |
| TextCombine.RowsHtmlShown | mrt/js/textcombine.js:293-304 | the table content lists exactly the rows with a non-blank key or value, in order, and is empty exactly when there is none |
| TextCombine.PreviewHtml | mrt/js/textcombine.js:276-315 | definition: the sections, then the table when some row is shown; stated by `PreviewEmpty`, `RowsHtmlShown` and `ClearedPreview` |
| TextCombine.PreviewEmpty | mrt/js/textcombine.js:276-315 | the preview is empty exactly when every trimmed field is empty and no row is shown |
| TextCombine.CollectRows | mrt/js/textcombine.js:293-304 | the row loop builds the shown rows' HTML, and its flag is set exactly when some row is shown |
| TextCombine.ClearedPreview | mrt/js/textcombine.js:261-271 | after clearing everything, the preview is only the features heading with the bullet |
| TextCombine.Editor.constructor | mrt/js/textcombine.js:39-84 | the loaded fields; the table as the restore step leaves it, with a blank row added when that is empty; the features check; then the preview |
| TextCombine.Editor.ValidateFeatures | mrt/js/textcombine.js:202-226 | the features field and its error mark follow `CheckFeatures` |
| TextCombine.Editor.UpdatePreview | mrt/js/textcombine.js:276-315 | the preview becomes `PreviewHtml` of the fields |
| TextCombine.Editor.InputCatchcopy | mrt/js/textcombine.js:119-124 | the catchcopy loses its newlines, and the preview follows |
| TextCombine.Editor.InputIntro | mrt/js/textcombine.js:119-124 | the intro loses its newlines, and the preview follows |
| TextCombine.Editor.InputFeatures | mrt/js/textcombine.js:128-132 | features are validated, and the preview follows |
| TextCombine.Editor.EditSpecRow | mrt/js/textcombine.js:135-140 | one row changes, and the preview follows |
| TextCombine.Editor.AddSpecRow | mrt/js/textcombine.js:233-248 | one blank row is appended |
| TextCombine.Editor.RemoveSpecRow | mrt/js/textcombine.js:143-155 | the row goes; an emptied table gets one blank row, so the table is never empty |
| TextCombine.Editor.ResetSpecTable | mrt/js/textcombine.js:253-256 | exactly one blank row remains |
| TextCombine.Editor.ClearAllInputs | mrt/js/textcombine.js:261-271 | empty text fields, features set to the bullet with no error, one blank row, and a matching preview |
| TextCombine.Editor.ClearAllButton | mrt/js/textcombine.js:164-168 | clears everything when confirmed, and changes nothing otherwise |
| TextCombine.Editor.ClearField | mrt/js/textcombine.js:171-194 | only the targeted field is cleared (features back to the bullet, the table to one blank row), and the preview follows |
| BlockBuilder.Closest | mrt/js/cp.js:168-178 | the chosen offset is in range and negative |
| BlockBuilder.ClosestFinds | mrt/js/cp.js:163-179 | nothing is chosen exactly when no offset is negative. Otherwise the choice has the largest negative offset, and no earlier block ties it |
| BlockBuilder.ClosestUnique | mrt/js/cp.js:163-179 | the closest block is unique |
| BlockBuilder.ClosestIff | mrt/js/cp.js:163-179 | the reduce picks block i exactly when i is the closest block |
| BlockBuilder.DragAfter | mrt/js/cp.js:163-179 | the chosen block is one of the candidates |
| BlockBuilder.IndexOfId | mrt/js/cp.js:145 | finds the dragged element in the list, or reports that it is absent |
| BlockBuilder.OthersCut | mrt/js/cp.js:54-56 | with distinct blocks, removing one block is cutting out its position |
| BlockBuilder.Dropped | mrt/js/cp.js:148-154 | definition: the list after the dragged block is moved before the chosen block; stated by `DroppedPermutes`, `DroppedKeepsOrder` and `DroppedPlace` |
| BlockBuilder.DroppedPermutes | mrt/js/cp.js:148-154 | a drop keeps the same multiset of blocks |
| BlockBuilder.DroppedKeepsOrder | mrt/js/cp.js:148-154 | a drop keeps the other blocks in their relative order |
| BlockBuilder.DroppedPlace | mrt/js/cp.js:148-154 | the dragged block lands right before the chosen block, or last when none is chosen |
| BlockBuilder.SaveLoadRoundTrip | mrt/js/cp.js:258-279 | loading what was saved restores every block's selectors, in order |
| BlockBuilder.DistinctAfterPermutation | mrt/js/cp.js:148-154 | a rearrangement keeps the blocks distinct |
| BlockBuilder.Builder.constructor | mrt/js/cp.js:9-17 | the container starts empty, with nothing dragged |
| BlockBuilder.Builder.CreateBlock | mrt/js/cp.js:24-83 | exactly one new block, with empty content, is appended at the end |
| BlockBuilder.Builder.Delete | mrt/js/cp.js:54-56 | only the block with that identity is removed |
| BlockBuilder.Builder.Edit | mrt/js/cp.js:24-83 | only block k's fields change |
| BlockBuilder.Builder.DragStart | mrt/js/cp.js:87-97 | the block becomes the dragged element |
| BlockBuilder.Builder.DragEnd | mrt/js/cp.js:99-108 | nothing is dragged any more |
| BlockBuilder.Builder.Drop | mrt/js/cp.js:137-155 | with nothing dragged the list is unchanged; otherwise it becomes `Dropped` of the old list, and the blocks stay distinct |
| BlockBuilder.Joined | mrt/js/cp.js:228-238 | definition: start + content + end of every block, in order; `Copy` returns it and shows that skipping all-empty blocks leaves it unchanged |
| BlockBuilder.Builder.Copy | mrt/js/cp.js:217-251 | with no block nothing is written; otherwise the output is the in-order join of start + content + end, and skipping all-empty blocks does not change it |
| BlockBuilder.Builder.Save | mrt/js/cp.js:197-214 | each block becomes its two selectors, in order, without its content |
| BlockBuilder.Builder.Load | mrt/js/cp.js:258-279 | only an array replaces the blocks. The new blocks are the entries with both selectors defined, in order, with empty content |
| BlockBuilder.Builder.ResetAll | mrt/js/cp.js:190-194 | all blocks go when confirmed; otherwise nothing changes |

## Left out

- SHA-256, `TextEncoder` and `crypto.subtle`, and `Math.cos`/`Math.PI` in `interpolate`: foreign and floating-point computations. They appear as the two fields of `MapLogic.Primitives` and are constrained only by the facts listed above.
- Floating-point rounding, NaN and infinities: every number in the generator and in the drag geometry is a `real`.
- `async`/`await` and `Promise.all`: the queries run one after another in grid order.
- `new Date()` and the calendar rollover of `setUTCDate` in `getWeeklyKey`: `Viewer.WeeklyKey` takes the year, month and day of the Monday as inputs. Only the day-of-week arithmetic and the formatting are modelled.
- `MapLogic.MapSession.GetNoiseValue`: the exact set of memo keys it adds (the four corners of its query) is not stated; only that keys are never lost and every entry stays correct.
- `MapLogic.MapSession.GetElevation`: the exact set of memo keys it adds is not stated; only that keys are never lost and every entry stays correct.
- `MapLogic.MapSession.GetClimate`: the exact set of memo keys it adds is not stated; only that keys are never lost and every entry stays correct.
- `MapLogic.MapSession.GetRivers`: the exact set of memo keys it adds is not stated; only that keys are never lost and every entry stays correct.
- `MapLogic.MapSession.GetBiome`: the exact set of memo keys it adds is not stated; only that keys are never lost and every entry stays correct.
- `MapLogic.MapSession.GetNoiseValue`: a custom grid must be positive. The source passes only 15.0.
- DOM building, CSS and styling, the `dragover` indicator, `setTimeout` feedback, and the pixel cell-size computation in `generateMap`: presentation only.
- `localStorage`, `JSON.parse`/`JSON.stringify`, the clipboard API, `alert` and `confirm`: they appear as parameters (`Stored`, `confirmed`, the editor constructor's initial values) or as return values (`Copy`, `Save`).
- URL parameters (`server_id`, `hotspots`) and the parsing of numeric fields: they are given already parsed, with `None` for NaN.
- Saving the text combiner to storage, and `copyPreviewHTML`: storage and clipboard I/O. The preview is modelled as the string assigned to `innerHTML`, not as its re-serialisation.
- `TextCombine.Editor.constructor`: `rows` stands for the table after the restore step of `loadFromLocalStorage` (`mrt/js/textcombine.js:56-79`): the saved rows when storage holds a non-empty list, and the page's default rows otherwise. The source adds a blank row only when storage holds a list and the table is then empty; the model adds it whenever `rows` is empty. The two agree because the page is assumed to start with at least one default row (`mrt/js/textcombine.js:75`), so without stored rows `rows` is never empty.
- `TextCombine.Editor.constructor`: a stored entry without `key` or `value` makes `escapeHTML(undefined)` throw (`mrt/js/textcombine.js:66`); the `catch` at `mrt/js/textcombine.js:81` then leaves the table with only the rows restored before it, possibly none. A malformed `tc_specs` that `JSON.parse` rejects likewise leaves the default rows. Neither path is modelled.
- Strings are `seq<char>` of Unicode scalar values. JavaScript's `length`, `indexOf`, `substring` and `trim` count UTF-16 code units, so positions differ from the model's for text with characters outside the Basic Multilingual Plane or with lone surrogates.
- `BlockBuilder.Builder.Load`: a selector that is present but not a string is not modelled; entries carry `Option<string>`.
- `BlockBuilder.Builder.Drop`: a drop whose dragged block was deleted during the drag leaves the list unchanged. The page would re-append the detached element.
- The popup's show/hide, clipboard paste and selector persistence in `mrt/js/textcombine_popup.js`, all of `mrt/js/image.js`, and all of `mrt/js/script.js`: UI wiring outside the modelled logic.
