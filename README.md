# postcss-minify-gradients, modelled in Dafny

This project models the gradient minifier of `postcss-minify-gradients`. It
works on the text of a declaration value such as
`background:linear-gradient(to top,#ffe500,#121)`. The value is read token by
token. Each call to `linear-gradient`, `repeating-linear-gradient`,
`radial-gradient` or `repeating-radial-gradient` has its argument text
rewritten. All other text is kept byte for byte.

The argument text of one gradient is handled in four steps:

1. **Split.** The text is cut at top-level commas. A comma inside
   `calc(...)` or any other parenthesised group does not split
   (`Scanner`).
2. **Read.** The first argument may be a direction or a shape; for a radial
   gradient that is a shape, size or position, and for either kind an angle
   or length. Every other argument is read as a colour stop: a colour token
   with at most one position (`Stops`). A position is either a decimal
   literal with a unit, or opaque text such as `calc(50% - 2px)`
   (`Positions`). A literal keeps its sign, digits and fraction exactly as
   written, and its value is the exact rational number they denote. Nothing
   is ever rounded, so no number is ever reformatted.
3. **Rewrite.**
   - A linear gradient's `to top`, `to right`, `to bottom` and `to left`
     become `0deg`, `90deg`, `180deg` and `270deg`. This follows section 3.1
     of CSS Images Module Level 3. Two-side directions have no fixed angle
     and are kept (`Directions`).
   - The stops are reduced in one left-to-right fold that carries the
     previous comparable position. A position in the same unit that is not
     larger than that one becomes `0`.
   - A `0%` on the first stop and a `100%` on the last stop are dropped.
   - An opaque position, or an argument of any other shape, is never
     rewritten. It also clears the previous position (`Stops`).
4. **Render.** The parts are joined again with the same separators
   (`Gradients`).

`Fixup` gives an independent meaning to a stop list: the colour stop fixup of
section 3.4.3 of CSS Images Module Level 3. That section turns the written
positions into places on the gradient line. On it the model proves when the
reduction loses nothing. `Fixtures` states each row of the plugin's fixture
table as a lemma.

Module order: `Options`, `Scanner`, `Positions`, `Directions`, `Stops`,
`Fixup`, `Gradients`, `Values` (the walk over a whole value), `Fixtures`.

## Model

| member | source | states |
|---|---|---|
| Scanner.JoinSplit | packages/postcss-minify-gradients/src/__tests__/index.js:75-77 | joining the pieces of a depth-aware split gives back the text exactly |
| Scanner.SplitIsWell | packages/postcss-minify-gradients/src/__tests__/index.js:75-77 | no piece of a split holds a top-level separator, so a comma inside `calc(...)` never splits an argument |
| Scanner.SplitJoin | packages/postcss-minify-gradients/src/__tests__/index.js:75-77 | splitting the join of pieces that hold no top-level separator gives back those pieces |
| Positions.Parse | packages/postcss-minify-gradients/src/__tests__/index.js:67-69 | a position word renders back exactly as written, so `2.1em` is never mangled |
| Positions.CutJoins | packages/postcss-minify-gradients/src/__tests__/index.js:67-69 | sign, digits, fraction and unit of a word make up the word again |
| Positions.ParseNumeral | packages/postcss-minify-gradients/src/__tests__/index.js:47-69 | an unsigned decimal followed by `%`, a letter unit or nothing reads as that numeral and unit |
| Positions.LetterWordIsOpaque | packages/postcss-minify-gradients/src/__tests__/index.js:75-77 | a word starting with a letter, such as `calc(50% - 2px)`, is opaque |
| Directions.NormalizeSide | packages/postcss-minify-gradients/src/__tests__/index.js:7-37 | `to <side>` becomes that side's angle |
| Directions.AngleTurnsUpToSide | packages/postcss-minify-gradients/src/__tests__/index.js:7-37 | each side's angle is whole quarter turns clockwise from `to top`, below 360, and turning the upward vector by it lands on the side |
| Directions.AngleTextMeansAngle | packages/postcss-minify-gradients/src/__tests__/index.js:7-37 | the written angle reads back as a `deg` position of exactly that many degrees |
| Directions.NormalizeOnlySides | packages/postcss-minify-gradients/src/__tests__/index.js:7-45 | the first argument is either kept or is exactly `to <side>` and becomes that side's angle |
| Directions.NormalizeKeepsCorners | packages/postcss-minify-gradients/src/__tests__/index.js:39-45 | a two-side direction is kept byte for byte |
| Directions.NormalizeIdempotent | packages/postcss-minify-gradients/src/__tests__/index.js:7-37 | normalising twice is normalising once |
| Stops.RenderParseStop | packages/postcss-minify-gradients/src/__tests__/index.js:6-86 | a stop renders exactly as the argument it was read from |
| Stops.ReducesNotAfter | packages/postcss-minify-gradients/src/__tests__/index.js:47-53 | a comparable position that is not larger than the nearest earlier one in the same unit, and is not a dropped boundary, becomes `0`; the colour is kept |
| Stops.KeepsAfterOrOtherUnit | packages/postcss-minify-gradients/src/__tests__/index.js:55-57 | a position larger than the nearest earlier one, or in another unit, is kept |
| Stops.KeepsAfterOpaque | packages/postcss-minify-gradients/src/__tests__/index.js:75-77 | a position whose nearest earlier position is opaque is kept |
| Stops.KeepsFirstPosition | packages/postcss-minify-gradients/src/__tests__/index.js:71-73 | the first positioned stop keeps its position, a `0` on the last stop included |
| Stops.KeepsUncomparable | packages/postcss-minify-gradients/src/__tests__/index.js:75-77 | a stop without a comparable position is never rewritten |
| Stops.DropsLeadingZeroPercent | packages/postcss-minify-gradients/src/__tests__/index.js:59-61 | in a list of two or more stops, a `0%` on the first stop is removed and the bare colour remains |
| Stops.DropsTrailingHundredPercent | packages/postcss-minify-gradients/src/__tests__/index.js:59-61 | in a list of two or more stops, a `100%` on the last stop is removed and the bare colour remains |
| Stops.OnlyPositionsChange | packages/postcss-minify-gradients/src/__tests__/index.js:47-77 | every stop keeps its colour and place, and the only edits are a comparable position replaced by `0` or removed |
| Stops.ReduceIdempotent | packages/postcss-minify-gradients/src/__tests__/index.js:47-77 | reducing a reduced list changes nothing |
| Stops.ReparseRewrite | packages/postcss-minify-gradients/src/__tests__/index.js:47-77 | a rewritten argument reads back as the rewritten stop and starts with the same word, and it stays free of top-level commas and open parentheses |
| Fixup.ReduceIsLossless | packages/postcss-minify-gradients/src/__tests__/index.js:47-65 | with non-negative positions, the reduced list puts every stop at the same place on the gradient line, for every line length and unit size |
| Fixup.NegativeIsLossy | packages/postcss-minify-gradients/src/__tests__/index.js:47-53 | without that premise the reduction can move a stop: `-10px` after `-5px` |
| Gradients.RenderParseGradient | packages/postcss-minify-gradients/src/__tests__/index.js:6-86 | reading the argument text and rendering it again gives the text back |
| Gradients.MinifyWithPrelude | packages/postcss-minify-gradients/src/__tests__/index.js:7-45 | a leading direction or shape is normalised for a linear gradient, kept for a radial one, and the stops after it are reduced |
| Gradients.MinifyWithoutPrelude | packages/postcss-minify-gradients/src/__tests__/index.js:59-69 | without a direction or shape, every argument is reduced as a stop |
| Gradients.LinearSide | packages/postcss-minify-gradients/src/__tests__/index.js:7-37 | `to <side>,rest` becomes the angle followed by the reduced stops |
| Gradients.LinearCorner | packages/postcss-minify-gradients/src/__tests__/index.js:39-45 | a two-side direction is kept in front of the reduced stops |
| Gradients.EmptyArguments | packages/postcss-minify-gradients/src/__tests__/index.js:79-85 | an empty argument list stays empty |
| Gradients.ArgumentCount | packages/postcss-minify-gradients/src/__tests__/index.js:6-86 | minifying keeps the number of arguments |
| Gradients.MinifiedIsWell | packages/postcss-minify-gradients/src/__tests__/index.js:6-86 | every minified argument is free of top-level commas, so the output splits into the same arguments |
| Gradients.FirstStopKept | packages/postcss-minify-gradients/src/__tests__/index.js:59-69 | reducing never turns a first stop into something read as a direction or shape |
| Gradients.ReparseMinified | packages/postcss-minify-gradients/src/__tests__/index.js:6-86 | reading the minified text gives exactly the transformed gradient |
| Gradients.MinifyIdempotent | packages/postcss-minify-gradients/src/__tests__/index.js:6-86 | minifying minified arguments changes nothing, provided the only unitless position is `0` |
| Values.WalkPrefix | packages/postcss-minify-gradients/src/__tests__/index.js:8-9 | text with no call in it, such as `background:`, is passed over unchanged |
| Values.MinifyPlain | packages/postcss-minify-gradients/src/__tests__/index.js:6-86 | a value with no call in it is kept |
| Values.WalkGradient | packages/postcss-minify-gradients/src/__tests__/index.js:6-86 | a gradient call has its arguments up to the matching `)` rewritten by its kind, and the walk goes on after it |
| Values.MinifyCall | packages/postcss-minify-gradients/src/__tests__/index.js:6-86 | in `pre name(inner)post`, only the arguments of the gradient call are minified |
| Fixtures.SideFixtures | packages/postcss-minify-gradients/src/__tests__/index.js:7-37 | `name(to <side>,a,b)` becomes `name(<angle>,a,b)` for a linear gradient name and any two colour words |
| Fixtures.CornerFixtures | packages/postcss-minify-gradients/src/__tests__/index.js:39-45 | `name(to <side> <side>,a,b)` is kept |
| Fixtures.SameLengthFixture | packages/postcss-minify-gradients/src/__tests__/index.js:47-49 | `45deg,a 50%,b 50%` becomes `45deg,a 50%,b 0` |
| Fixtures.ShorterFixture | packages/postcss-minify-gradients/src/__tests__/index.js:51-53 | `45deg,a 50%,b 25%` becomes `45deg,a 50%,b 0` |
| Fixtures.OtherUnitFixture | packages/postcss-minify-gradients/src/__tests__/index.js:55-57 | `45deg,a 25px,b 20%` is kept |
| Fixtures.BoundaryFixture | packages/postcss-minify-gradients/src/__tests__/index.js:59-61 | `a 0%,b 100%` becomes `a,b` |
| Fixtures.RadialFixture | packages/postcss-minify-gradients/src/__tests__/index.js:63-65 | a radial `a,a 5px,b 5px,b 10px` becomes `a,a 5px,b 0,b 10px` |
| Fixtures.FractionFixture | packages/postcss-minify-gradients/src/__tests__/index.js:67-69 | `a,a 2em,b 2em,b 2.1em,a 2.1em` becomes `a,a 2em,b 0,b 2.1em,a 0` |
| Fixtures.LastZeroFixture | packages/postcss-minify-gradients/src/__tests__/index.js:71-73 | `90deg,a,b 0` is kept |
| Fixtures.CalcFixture | packages/postcss-minify-gradients/src/__tests__/index.js:75-77 | a corner direction with `a calc(e),b 0,b calc(f),a 0` is kept for any `e` and `f` that hold no comma and no parenthesis |
| Fixtures.EmptyFixture | packages/postcss-minify-gradients/src/__tests__/index.js:79-85 | `name()` is kept for every gradient name |
| Fixtures.TableDeclarations | packages/postcss-minify-gradients/src/__tests__/index.js:8 | `background:` and `background: ` are texts the walk passes over |
| Fixtures.LinearName | packages/postcss-minify-gradients/src/__tests__/index.js:8 | `linear-gradient` names a linear gradient |
| Fixtures.RepeatingLinearName | packages/postcss-minify-gradients/src/__tests__/index.js:24 | `repeating-linear-gradient` names a linear gradient |
| Fixtures.RadialName | packages/postcss-minify-gradients/src/__tests__/index.js:84 | `radial-gradient` names a radial gradient |
| Fixtures.RepeatingRadialName | packages/postcss-minify-gradients/src/__tests__/index.js:64 | `repeating-radial-gradient` names a radial gradient |
| Fixtures.TableColours | packages/postcss-minify-gradients/src/__tests__/index.js:8-69 | the table's colours `#ffe500`, `#121`, `#fff` and `#ccc` are colour words |
| Fixtures.TableCalcColours | packages/postcss-minify-gradients/src/__tests__/index.js:72-77 | `transparent`, `#00aeef` and `#a7a7a8` are colour words |
| Fixtures.TableDirections | packages/postcss-minify-gradients/src/__tests__/index.js:7-45 | the table's side keywords, angles and corner directions, written as the lemmas write them |
| Fixtures.TableCalc | packages/postcss-minify-gradients/src/__tests__/index.js:76 | `50% - 2px` and `50% + 2px` hold no comma and no parenthesis, and `calc(...)` writes them as the table does |

## Left out

- The test harness, which runs the plugin through `postcss(...).process(...)` and compares strings (index.js lines 88-94). It is asynchronous plumbing around the rewrite being modelled.
- The plugin-API checks on `postcssVersion` and `postcssPlugin` (index.js lines 96-99). They are metadata of a library that is not part of this model.
- The plugin's own source and postcss's parser and serialiser are not part of this model. The walk in `Values` is a plain token scan of one declaration value. It is not a CSS syntax tree, and it has no quoted strings, `url(...)` tokens, comments or escapes.
- Case-insensitive matching. Gradient names, direction keywords and radial keywords are recognised only in lower case, and units are compared exactly as written, so `PX` and `px` are different units.
- Other calls and unclosed gradients. A call to any other function outside a gradient is kept and scanned inside (Values.WalkOtherCall), and a gradient with no closing `)` leaves the rest of the value as written (Values.WalkUnclosed). The table pins down neither case.
- Stops with two positions. An argument such as `red 10% 20%` is read as unparsed. It is kept as written and clears the previous position.
- Skipping over opaque positions. An opaque position such as `calc(...)` clears the previous position, so the next comparable position is never compared with one before the opaque one. Skipping back to the last comparable position would rewrite more stops; the table's `calc` row keeps its `0`s either way.
- Whitespace around arguments. An argument with a leading, trailing or doubled space is read as unparsed and kept as written.
- Colour minification. Colours are opaque tokens that are never changed.
- Floating point. Positions are exact decimals, which decides `2em` against `2.1em` exactly.
- Radial shape, size and position tokens. A leading radial keyword or length is recognised and kept verbatim, but no rewrite of it is modelled.
- Layout. Line length, unit sizes and the value of an opaque position are parameters of `Fixup`, because they come from the layout engine.
- Whether a reduced stop becomes the new previous position is not decided by the table. The model carries the position as written. Stops.ReducesNotAfter and Stops.KeepsAfterOrOtherUnit compare a stop with the nearest earlier position as written, so they state this choice: on `a 50%,b 50%,c 30%` the model writes `c 0`, while under the other choice `c 30%` would be kept. The table's rows come out the same under either choice, and so do the fixture lemmas.
- Fixup.ReduceIsLossless: requires non-negative positions, and Fixup.NegativeIsLossy shows why the requirement is needed.
- Gradients.MinifyIdempotent: requires that `0` is the only unitless position. Another unitless number, such as `5`, could later be compared with a `0` written by the reduction.
- Stops.ReduceIdempotent: requires the same condition, for the same reason.
- Stops.DropsLeadingZeroPercent: the `0%` that is dropped is the one on the first argument, not on the first stop that carries a position. Only there is the drop lossless: in `red,blue 0%,green 50%`, dropping the `0%` of `blue` would move `blue` from 0% to 25%, and Fixup.ReduceIsLossless depends on this.
- Fixtures: each row is proved for any text before the call that the walk passes over, and for any colour words. The table's own literals are shown to meet those premises by `TableDeclarations`, the name lemmas, `TableColours`, `TableCalcColours`, `TableDirections` and `TableCalc`. No row is stated as one literal string equation.
