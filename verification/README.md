# A verified model of the chart engine and the JSON reader behind the scheduler's web pages

The web pages of the scheduler draw their charts with `hella-engine/webapp/js/highstock.src.js` and
read and write JSON with `hella-engine/webapp/js/json2.js`. This project models the algorithms of both
and proves what they promise. `dafny verify dfyconfig.toml` checks all of it.

**JSON.** Texts are sequences of 16-bit units. `JsonPrinter` is the printer with its shared `gap` and
`indent`, proved to compute a layout function. `JsonGate` holds the pre-escape and the three rewriting
passes of `JSON2.parse` as written. `JsonScanner` shows that the three passes together are one
left-to-right scan, for every text. `JsonReader` stands for `eval` on accepted text. `JsonGrammar`
says as a relation what a JSON text means, by sections 2 to 7 of RFC 8259, and `JsonGrammarTheorems` that
the reader and the grammar agree. `JsonParsing` proves that the pre-escape and the gate let every JSON text
through, `JsonRoundTrip` and `JsonTheorems` that `parse` undoes `stringify`, and `JsonLines` how printed text
is laid out.

**Charts.** Coordinates are reals, times and indices integers; `correctFloat` is the identity.

| modules | what they model |
|---|---|
| Ordinal, OrdinalTheorems, Panning | the ordinal axis: its position table, the two maps through it, panning |
| Grouping, GroupingTheorems, AverageTheorems | data grouping and its approximations |
| JsDate, TimeTicks, TimeTicksTheorems, ClockTheorems | calendar ticks in UTC, with the date arithmetic of section 15.9.1 of ECMA-262 edition 5.1 |
| Crop, SeriesModel, SeriesValues, Series | cropping, and the four arrays a series changes together |
| Spline, SplineShape | spline control points and the path of a segment |
| Flags | placing flags on a master series |
| Tooltip | the per-pixel table of nearest points |
| StackModel, Stacks | stack totals and how the series consume them |
| Navigator | the navigator's mouse handlers as a state machine |
| TickAlign | axis translation and tick alignment over several axes |
| Wrappers, Reals | the optional value; order on the reals |

Code that changes things in place is modelled by classes and methods with loops, each tied by its
`ensures` to a function; the theorems are about these functions.

## Where the code does less than one would expect

Each of these is stated as an exact condition, with the code kept as it is.

- An indent of U+2028, U+2029, U+202F or U+FEFF is white space to the gate but is escaped before it, so a
  nested value printed with it is refused (`JsonTheorems.RoundTrip`, `JsonParsing.ParseReads`).
- `lin2val` does not undo `val2lin` below the first position (`OrdinalTheorems.InverseEverywhere`).
- Panning beyond the visible table stops at its last position (`Panning.ShiftOnSlice`); a drag no wider than
  the window does not get there (`Panning.DragWithinWindowIsExact`).
- Pixel 0 always goes to the first point, also when that lies farther to the left than the second one to
  the right (`Tooltip.FirstPixel`).
- Turbo mode reads no objects: long data that begin with one leave empty x and y arrays beside a full
  `options.data`, and a pair after numbers is stored whole (`SeriesModel.SetDataParallel`).
- `Date.UTC` takes the years 0 to 99 for 1900 to 1999, and `%` rounds negative years toward zero, so year
  ticks of antiquity can start after `min` or run backwards (`TimeTicksTheorems.FirstTickAtMostMin`,
  `TimeTicksTheorems.TicksIncrease`); weeks can start after `min` as well.
- The series drawn from the threshold is found by comparing a position on the axis with an index in the
  chart, which need not name the last series of a stack (`Stacks.BarsAreIntervals`).
- The rescaling inside `adjustTickAmount` gives an axis with a single tick no extent until its translation
  is recomputed (`TickAlign.RescalingIsRight`).
- `pInt` reads the text of a number, so a pixel below a millionth counts as its first digit, and a window
  that starts just beside the left edge can end before it starts (`Navigator.RunStaysInRange`).
- A lone series whose first two or last two x values are equal has an ordinal table that cannot be
  searched (`OrdinalTheorems.SearchIsSafe`).
- `translate` does not take the pixel padding off on the way back (`TickAlign.TranslateBackAndForth`).

## Model

| member | source | states |
|---|---|---|
| `JsonPrinter.Stringifier.Str` | hella-engine/webapp/js/json2.js:223-291 | prints the part of a value that JSON can say under the current gap, returns nothing for undefined values, and restores `gap` and `indent` for its caller |
| `JsonPrinter.Stringifier.StrItems` | hella-engine/webapp/js/json2.js:252-256 | the array loop prints one part per element, null for an undefined one, with the shared `gap` unchanged at the end |
| `JsonPrinter.Stringifier.StrMembers` | hella-engine/webapp/js/json2.js:276-284 | the member loop drops undefined members and keeps the others in order, key and value joined by the colon of the current gap |
| `JsonPrinter.Stringifier.Stringify` | hella-engine/webapp/js/json2.js:294-312 | from any left-over `gap` and `indent`, the text is the layout of the value under the requested indent |
| `JsonPrinter.LayoutRest` | hella-engine/webapp/js/json2.js:223-291 | a printed value is a self-contained prefix: what follows it is carried along unchanged, at any gap |
| `JsonPrinter.ArrText` | hella-engine/webapp/js/json2.js:257-263 | the three-way join of an array (empty, compact, indented) is the layout of the array |
| `JsonPrinter.ObjText` | hella-engine/webapp/js/json2.js:286-290 | the same for an object |
| `JsonLines.PrintIsLines` | hella-engine/webapp/js/json2.js:250-290 | with an indent each line of the printed text stands at its depth, closing brackets at the depth of their opening line and commas at line ends; without one there is a single line |
| `JsonLines.IndentIs` | hella-engine/webapp/js/json2.js:298-304 | a number asks for that many spaces, a text for itself |
| `JsonLines.ColonIs` | hella-engine/webapp/js/json2.js:281 | a colon is followed by a space exactly when there is an indent |
| `JsonLines.EscapeIs` | hella-engine/webapp/js/json2.js:211-221 | which units `quote` writes as a short escape, which with four lower-case digits, and which as they are |
| `JsonScanner.DropIsScan` | hella-engine/webapp/js/json2.js:341-344 | deleting opening-bracket runs and testing the final class is a scan that allows a bracket only while a run is open |
| `JsonScanner.TokenMarked` | hella-engine/webapp/js/json2.js:342-343 | after the escape pass the token pass finds a token exactly where one starts in the original text, and the same text is left after it |
| `JsonScanner.PassesAreScan` | hella-engine/webapp/js/json2.js:341-344 | escape pass, token pass and bracket pass together equal one left-to-right scan of the original text |
| `JsonScanner.GateIsScan` | hella-engine/webapp/js/json2.js:341-344 | for every text: the three-pass gate accepts it if and only if the single scan does |
| `JsonScanner.NumberIsNumber` | hella-engine/webapp/js/json2.js:343 | what the gate takes for a number matches the pattern: sign, digits, a point with digits, an exponent |
| `JsonScanner.NumberIsLongest` | hella-engine/webapp/js/json2.js:343 | and is the longest text there that does |
| `JsonParsing.EscapeKept` | hella-engine/webapp/js/json2.js:335-342 | an escape sequence survives the pre-escape pass with its length and meaning |
| `JsonParsing.BodyKept` | hella-engine/webapp/js/json2.js:335-343 | every JSON string is one token of the gate after the pre-escape, and still says the same |
| `JsonParsing.ValueKept` | hella-engine/webapp/js/json2.js:335-345 | for every JSON value at the start of a text: the gate scans its escaped form exactly when its `cx` units are all inside strings, and then `eval` reads the same value from it |
| `JsonParsing.ParseReads` | hella-engine/webapp/js/json2.js:333-349 | for every text that reads as JSON: `parse` returns exactly its value if every `cx` unit stands inside a string, and throws otherwise; a text without `cx` units is parsed only to the value it reads as |
| `JsonGrammar.Spelling` | hella-engine/webapp/js/json2.js:341-344 | the named units, literals, digits and short escapes are the characters they stand for |
| `JsonGrammarTheorems.EscapeSound` | hella-engine/webapp/js/json2.js:342-345 | every escape is read as the unit it means: a short one by its letter, four hexadecimal digits by their places in 0123456789abcdef or 0123456789ABCDEF |
| `JsonGrammarTheorems.EscapeComplete` | hella-engine/webapp/js/json2.js:342-345 | and every way of writing a unit as an escape is read |
| `JsonGrammarTheorems.ValueSound` | hella-engine/webapp/js/json2.js:345 | whatever is read from a text is what its beginning means under the grammar |
| `JsonGrammarTheorems.ValueComplete` | hella-engine/webapp/js/json2.js:345 | and every value meant by the beginning of a text is read from it |
| `JsonGrammarTheorems.ReaderIsGrammar` | hella-engine/webapp/js/json2.js:345 | a text is read as a value if and only if the grammar of RFC 8259 gives it that meaning |
| `JsonGrammarTheorems.ParseMeans` | hella-engine/webapp/js/json2.js:333-349 | `parse` returns what a JSON text means if its `cx` units stand in strings and throws otherwise; a text without such units is parsed to what it means and to nothing else |
| `JsonRoundTrip.ReadLayout` | hella-engine/webapp/js/json2.js:223-291 | reading a printed value at any gap and white-space indent gives the value back and stops exactly at its end |
| `JsonTheorems.ErasedIsWellFormed` | hella-engine/webapp/js/json2.js:276-284 | what is printed of an object with distinct keys has distinct keys |
| `JsonTheorems.EraseSays` | hella-engine/webapp/js/json2.js:235-291 | what is printed is what the value says: the same null, booleans, integers and units, elements at the same places, defined members in order, null for what JSON cannot say |
| `JsonTheorems.SaysOneThing` | hella-engine/webapp/js/json2.js:235-291 | everything but undefined says exactly one thing |
| `JsonTheorems.LayoutNoCx` | hella-engine/webapp/js/json2.js:211-221 | no printed text holds a unit the pre-escape would alter, if the indent holds none |
| `JsonTheorems.PrintedPassesGate` | hella-engine/webapp/js/json2.js:335-344 | for any nesting and any white-space indent free of `cx` units the pre-escape changes nothing and the text passes the gate |
| `JsonTheorems.DirtyIndent` | hella-engine/webapp/js/json2.js:195 | a nested value printed with an indent that holds a `cx` unit has that unit outside its strings |
| `JsonTheorems.RoundTrip` | hella-engine/webapp/js/json2.js:294-349 | the stringified text of a value means what the value says, and parsing it gives that back for every white-space indent, except that a nested value printed with a `cx` unit in the indent is refused: an exact condition |
| `JsonTheorems.EveryJsonSurvives` | hella-engine/webapp/js/json2.js:294-349 | every JSON value with distinct keys survives stringify and parse |
| `Spline.FindControls` | hella-engine/webapp/js/highstock.src.js:13421-13448 | straightening and the two checks compute the control points |
| `Spline.GetPointSpline` | hella-engine/webapp/js/highstock.src.js:13400-13471 | the path command of point `i` is the one its neighbours determine; the right control point is stored on the point and the previous one is consumed |
| `Spline.GetSegmentPath` | hella-engine/webapp/js/highstock.src.js:12743-12775 | the whole path, with no control point left stored on any point of the segment |
| `Spline.ControlsInBand` | hella-engine/webapp/js/highstock.src.js:13421-13448 | after the collinearity correction and both clamps each control point lies between its point and the neighbour on that side, in x and in y, for every smoothing of at least 1 |
| `Spline.SmoothingMatters` | hella-engine/webapp/js/highstock.src.js:13401-13402 | a smoothing of one half would break that |
| `SplineShape.ControlX` | hella-engine/webapp/js/highstock.src.js:13401-13424 | the x of a control point is the mean of point and neighbour with weights 3 and 2 |
| `SplineShape.Straightening` | hella-engine/webapp/js/highstock.src.js:13426-13448 | before the checks both control points and the point lie on one line and rise by two fifths of the rise between the neighbours, which fixes them; a check moves one to the nearest height in its band and mirrors the other |
| `SplineShape.LineStaysStraight` | hella-engine/webapp/js/highstock.src.js:13421-13448 | points on a line have their control points on it |
| `SplineShape.PathUsesControls` | hella-engine/webapp/js/highstock.src.js:13459-13468 | a curve leaves through the right control point of its start and arrives through the left one of its end, zero coordinates replaced |
| `SplineShape.PathEnds` | hella-engine/webapp/js/highstock.src.js:13456-13468 | the first curve starts and the last one ends without a control point of its own |
| `Spline.BezierInBand` | hella-engine/webapp/js/highstock.src.js:13460-13468 | a cubic Bezier piece with control heights between its end heights stays between them |
| `Spline.PathNeverOvershoots` | hella-engine/webapp/js/highstock.src.js:13400-13471 | for strictly increasing x every piece of the path stays between the heights of its two end points at every parameter value, including the pieces that fall back to the plain point |
| `Ordinal.OrdinalAxis.RemoveDuplicates` | hella-engine/webapp/js/highstock.src.js:17414-17426 | splicing equal neighbours from a sorted list keeps every value once |
| `Ordinal.OrdinalAxis.CollectPositions` | hella-engine/webapp/js/highstock.src.js:17405-17429 | the positions are exactly the x values of the visible series; strictly increasing, or those of the first series untouched when only that one is visible |
| `Ordinal.OrdinalAxis.NeedsTable` | hella-engine/webapp/js/highstock.src.js:17436-17444 | a table is wanted exactly when the positions are not evenly spaced |
| `Ordinal.OrdinalAxis.BeforeSetTickPositions` | hella-engine/webapp/js/highstock.src.js:17389-17465 | the table, slope and offset it records, and that the recorded slope is well defined |
| `OrdinalTheorems.SearchIsSafe` | hella-engine/webapp/js/highstock.src.js:17500-17508 | for positions in order the search never divides by zero if and only if the first two positions differ and the last two do; repetitions in between are harmless |
| `OrdinalTheorems.RepeatedEnds` | hella-engine/webapp/js/highstock.src.js:17416-17425 | uneven positions that begin or end with a repetition, for which it divides by zero |
| `Ordinal.OrdinalAxis.FindIndex` | hella-engine/webapp/js/highstock.src.js:17486-17508 | the two searches of `val2lin` (exact match, then interpolation) find the fractional index of a value |
| `Ordinal.OrdinalAxis.Val2Lin` | hella-engine/webapp/js/highstock.src.js:17476-17513 | both modes of `val2lin`, and the identity without a table |
| `Ordinal.OrdinalAxis.Lin2Val` | hella-engine/webapp/js/highstock.src.js:17521-17570 | both modes of `lin2val`, and the identity without a table |
| `Ordinal.OrdinalAxis.Pan` | hella-engine/webapp/js/highstock.src.js:17856-17930 | which table each end of the window is moved on, which table gets the end of the data appended, and the extremes requested |
| `Ordinal.IndexIncreases` | hella-engine/webapp/js/highstock.src.js:17500-17508 | index mode is strictly increasing on the whole line |
| `OrdinalTheorems.ValueOfIndex` | hella-engine/webapp/js/highstock.src.js:17476-17570 | index then value is the identity on the table, clamped to its ends, also with repetitions inside |
| `OrdinalTheorems.IndexOfValue` | hella-engine/webapp/js/highstock.src.js:17476-17570 | value then index is the identity on the index range, clamped to its ends, if no position is repeated |
| `OrdinalTheorems.ValueIncreases` | hella-engine/webapp/js/highstock.src.js:17540-17567 | `lin2val` in index mode is strictly increasing on the index range |
| `OrdinalTheorems.IndexIsLinear` | hella-engine/webapp/js/highstock.src.js:17500-17508 | on each segment the index is linear in the value |
| `OrdinalTheorems.ToLinearIncreases` | hella-engine/webapp/js/highstock.src.js:17500-17511 | `val2lin` is strictly increasing for a positive slope |
| `OrdinalTheorems.ExtremesAreFixed` | hella-engine/webapp/js/highstock.src.js:17449-17460 | the recorded slope is positive and both axis extremes are fixed points |
| `OrdinalTheorems.FromLinearOfToLinear` | hella-engine/webapp/js/highstock.src.js:17476-17570 | `lin2val(val2lin(v))` is `v` for every value from the first position on, also beyond the last and with repetitions inside; below the first position it stays linear |
| `OrdinalTheorems.InverseEverywhere` | hella-engine/webapp/js/highstock.src.js:17554-17568 | the round trip holds on the whole line if and only if slope and offset are those of the first segment |
| `OrdinalTheorems.SkippingTableIsSound` | hella-engine/webapp/js/highstock.src.js:17436-17463 | the map a table would give is the identity if and only if the positions are evenly spaced, which is when the table is dropped |
| `Panning.SliceIndex` | hella-engine/webapp/js/highstock.src.js:17500-17508 | on a slice of the full table a covered value has the same index up to the start of the slice |
| `Panning.SliceValue` | hella-engine/webapp/js/highstock.src.js:17540-17567 | and an index on the slice has the same value |
| `Panning.ShiftOnSlice` | hella-engine/webapp/js/highstock.src.js:17907-17918 | shifting a covered extreme by `k` units gives the same value on the visible and the full table if and only if the target index stays on the slice |
| `Panning.EndDoesNotMatter` | hella-engine/webapp/js/highstock.src.js:17902-17905 | appending the end of the data does not change a move to the left |
| `Panning.PanIsExact` | hella-engine/webapp/js/highstock.src.js:17856-17918 | `pan` requests the same extremes on the small table as on the full one while the target stays on the slice |
| `Panning.DragWithinWindowIsExact` | hella-engine/webapp/js/highstock.src.js:17856-17918 | a drag no wider than the visible window requests the same extremes on the table that cropping leaves of one series as on its full table |
| `Panning.WindowStaysOn` | hella-engine/webapp/js/highstock.src.js:11875-11894 | why: cropping keeps a neighbour on each side, so no extreme of the window leaves the slice before it passes the other |
| `Panning.PanBeyondSlice` | hella-engine/webapp/js/highstock.src.js:17891-17918 | a cropped, uneven table and a drag wider than its window for which the request starts at the wrong value |
| `Panning.PanBeyondSliceLeft` | hella-engine/webapp/js/highstock.src.js:17891-17918 | and its mirror image at the end of the data |
| `Panning.PanStaysInData` | hella-engine/webapp/js/highstock.src.js:17920-17923 | with the extremes on the data a drag requests a window if and only if both new extremes lie strictly inside the data |
| `Panning.ShiftMovesBy` | hella-engine/webapp/js/highstock.src.js:17907-17918 | a moved extreme has exactly the wanted index, held at the ends of the table |
| `Grouping.SumDown` | hella-engine/webapp/js/highstock.src.js:14705-14723 | the sum, taken from the last value down |
| `Grouping.Extremes` | hella-engine/webapp/js/highstock.src.js:749-776 | the downward scans return the greatest and the least element |
| `Grouping.Approximate` | hella-engine/webapp/js/highstock.src.js:14704-14747 | the approximations, with null for groups of nulls only and undefined for empty groups |
| `GroupingTheorems.ApproximationMeans` | hella-engine/webapp/js/highstock.src.js:14705-14747 | high and low are the bounds that occur, open and close the first and last value, null or undefined without values |
| `GroupingTheorems.AverageMeans` | hella-engine/webapp/js/highstock.src.js:14724-14735 | the average times the count is the sum |
| `Grouping.GroupData` | hella-engine/webapp/js/highstock.src.js:14768-14864 | the double loop that shifts the position array computes the grouping of the points, null-only and empty groups included, and what it leaves of the array it was handed |
| `GroupingTheorems.GroupingIsPartition` | hella-engine/webapp/js/highstock.src.js:14786-14863 | every raw point lands in exactly one group, the last position not above its x or else the first, in order and without loss, and the output is the aggregates of these groups |
| `GroupingTheorems.RemainingAreLater` | hella-engine/webapp/js/highstock.src.js:14789-14812 | the position array is left with the positions after the group of the last point |
| `GroupingTheorems.GroupsWithoutY` | hella-engine/webapp/js/highstock.src.js:14820 | without y data every group with a point is null and the others are not emitted |
| `GroupingTheorems.ColumnWithoutY` | hella-engine/webapp/js/highstock.src.js:14820 | `groupData` without y data groups points whose y is null |
| `GroupingTheorems.EmittedIncreasing` | hella-engine/webapp/js/highstock.src.js:14789-14812 | the emitted x values are positions, strictly increasing |
| `GroupingTheorems.AggregateConcat` | hella-engine/webapp/js/highstock.src.js:14704-14747 | every approximation but the average can be combined from the two halves of a group |
| `GroupingTheorems.SumIsConserved` | hella-engine/webapp/js/highstock.src.js:14786-14863 | under `sum` the total of all numeric values is conserved |
| `GroupingTheorems.GroupSplits` | hella-engine/webapp/js/highstock.src.js:14786-14863 | grouping sorted points splits at any position into two independent groupings |
| `GroupingTheorems.TwoStepGrouping` | hella-engine/webapp/js/highstock.src.js:14704-14864 | grouping by fine positions and regrouping by a coarser sublist equals grouping once by the coarse list, for sum, open, high, low and close |
| `AverageTheorems.EvenAgrees` | hella-engine/webapp/js/highstock.src.js:14724-14735 | if all fine groups with a number hold equally many, the average of their averages is the average |
| `AverageTheorems.AgreementForces` | hella-engine/webapp/js/highstock.src.js:14724-14735 | if the averages agree for one in a fine group and zero elsewhere, the count of that group is its share of all numbers |
| `AverageTheorems.RegroupsMore` | hella-engine/webapp/js/highstock.src.js:14724-14864 | averages regroup when they do in the first coarse group and in the others |
| `AverageTheorems.AveragesRegroup` | hella-engine/webapp/js/highstock.src.js:14724-14864 | given where numbers and nulls stand, averages of averages are averages for all values if and only if inside each coarse group all fine groups with a number hold equally many |
| `AverageTheorems.AverageIsNotTwoStep` | hella-engine/webapp/js/highstock.src.js:14724-14735 | three points for which they are not |
| `JsDate.CivilRoundTrip` | hella-engine/webapp/js/highstock.src.js:613-621 | year, month and date determine the day (section 15.9.1 of ECMA-262 edition 5.1) |
| `ClockTheorems.Calendar` | hella-engine/webapp/js/highstock.src.js:613-621 | the months have the lengths of the Gregorian calendar, counted from Thursday, 1 January 1970 |
| `ClockTheorems.ClockIs` | hella-engine/webapp/js/highstock.src.js:597-611 | a time is its day, hours, minutes, seconds and milliseconds |
| `JsDate.FirstOfMonth` | hella-engine/webapp/js/highstock.src.js:652-657 | the first day of a month, the index running over year ends, has the fields it was made from |
| `TimeTicks.FloorTime` | hella-engine/webapp/js/highstock.src.js:597-611 | clearing the fields below the unit and rounding its own field down |
| `TimeTicks.FloorDate` | hella-engine/webapp/js/highstock.src.js:613-634 | the same for date, month, year and week |
| `TimeTicks.GetTimeTicks` | hella-engine/webapp/js/highstock.src.js:585-688 | the loop ends; the ticks are the first tick and its successors, all but the last below `max`, the last at or above it |
| `TimeTicks.TickMakesProgress` | hella-engine/webapp/js/highstock.src.js:648-676 | every tick is at least its number of milliseconds after the first, so the loop is bounded by the range |
| `ClockTheorems.FirstClockTick` | hella-engine/webapp/js/highstock.src.js:597-611 | for seconds, minutes and hours the first tick clears the lower fields, rounds its own down to a multiple of `count` and keeps the higher ones |
| `ClockTheorems.MillisecondTicks` | hella-engine/webapp/js/highstock.src.js:597-668 | ticks in milliseconds start at `min` and are `count` milliseconds apart |
| `ClockTheorems.ClockTicks` | hella-engine/webapp/js/highstock.src.js:664-668 | the ticks are `count` units apart, and where `count` divides the next unit they all fall on multiples of it |
| `ClockTheorems.DayTicks` | hella-engine/webapp/js/highstock.src.js:613-616 | day ticks fall at midnight, the first on the last multiple of `count` among the dates up to that of `min` |
| `ClockTheorems.WeekTicks` | hella-engine/webapp/js/highstock.src.js:630-634 | week ticks fall at midnight on the start of the week, the first in the week from Sunday of the rounded day |
| `TimeTicksTheorems.FirstTickAtMostMin` | hella-engine/webapp/js/highstock.src.js:597-634 | the first tick is at most `min` if and only if, for years, the year is rounded down rather than toward zero, and for weeks, the fixed day is not after `min` |
| `TimeTicksTheorems.SecondTickAfterMin` | hella-engine/webapp/js/highstock.src.js:585-668 | the second tick is after `min`: nothing is skipped or repeated at the start |
| `TimeTicksTheorems.MonthTicks` | hella-engine/webapp/js/highstock.src.js:618-657 | month ticks fall at midnight on the 1st, exactly `count` months apart across year ends, on months that are multiples of `count` when it divides 12 |
| `TimeTicksTheorems.YearTicks` | hella-engine/webapp/js/highstock.src.js:624-653 | year ticks fall at midnight on 1 January; a year is a multiple of `count` exactly when `Date.UTC` does not move it to the 20th century or 1900 is a multiple too |
| `TimeTicksTheorems.TicksIncrease` | hella-engine/webapp/js/highstock.src.js:648-679 | the ticks strictly increase, for years if and only if no moved tick is followed by another one |
| `TimeTicksTheorems.SundayStartsLate` | hella-engine/webapp/js/highstock.src.js:630-634 | a Sunday whose week tick is the next day |
| `TimeTicksTheorems.NegativeYearStartsLate` | hella-engine/webapp/js/highstock.src.js:624-626 | a year before the year 0 that is rounded up |
| `TimeTicksTheorems.YearsStepBack` | hella-engine/webapp/js/highstock.src.js:651-653 | every fifth year from 90 to 2000: 1995 is followed by the year 100 |
| `Crop.FindWindow` | hella-engine/webapp/js/highstock.src.js:11870-11895 | the loops find the first position not below `min` and the first above `max`, and one neighbour on each side |
| `Crop.FindClosest` | hella-engine/webapp/js/highstock.src.js:11899-11905 | the downward loop computes the closest positive gap of neighbours |
| `Crop.CropIsExact` | hella-engine/webapp/js/highstock.src.js:11875-11894 | for sorted data that overlap the range the slice holds every visible point and only the immediate neighbour on each side, where there is one |
| `Crop.CropOutside` | hella-engine/webapp/js/highstock.src.js:11870-11872 | data outside the range leave an empty slice |
| `Crop.ClosestIsLeast` | hella-engine/webapp/js/highstock.src.js:11899-11905 | the recorded range is the least positive distance over all pairs, missing only when no two points differ |
| `SeriesModel.LoadParallel` | hella-engine/webapp/js/highstock.src.js:11718-11774 | reading any data gives parallel arrays if and only if they are short enough for the normal mode, or turbo mode can read their first entry and all are of its kind; nulls that throw and entries without an x included |
| `SeriesModel.SetDataParallel` | hella-engine/webapp/js/highstock.src.js:11775-11779 | so the state after `setData` is parallel under the same condition |
| `SeriesModel.PairsMustGoOn` | hella-engine/webapp/js/highstock.src.js:11757-11762 | after pairs a null throws and a number gets no x |
| `SeriesValues.SetDataStores` | hella-engine/webapp/js/highstock.src.js:11767-11774 | entries keep the x and y they give; the others get `pointStart` plus `pointInterval` times the number of earlier entries without an x |
| `SeriesValues.CounterIs` | hella-engine/webapp/js/highstock.src.js:11457-11468 | the automatic x stands one step after the last one given out |
| `SeriesValues.TurboXIs` | hella-engine/webapp/js/highstock.src.js:11740-11748 | the x values of turbo mode are `pointStart` plus multiples of `pointInterval` |
| `SeriesValues.ModesAgree` | hella-engine/webapp/js/highstock.src.js:11740-11774 | plain numbers are stored alike in the normal and in turbo mode |
| `SeriesValues.AddPointGoesOn` | hella-engine/webapp/js/highstock.src.js:11634-11682 | a point added after `setData` goes on where the automatic x values stopped |
| `SeriesValues.AddPointStores` | hella-engine/webapp/js/highstock.src.js:11634-11682 | what `addPoint` appends to each array |
| `SeriesValues.UpdateStores` | hella-engine/webapp/js/highstock.src.js:11107-11140 | what `update` stores at its position, everything else unchanged |
| `SeriesValues.RemoveMovesUp` | hella-engine/webapp/js/highstock.src.js:11169-11188 | removing takes out one position of every array and moves the later ones up |
| `SeriesModel.TurboLosesObjects` | hella-engine/webapp/js/highstock.src.js:11730-11766 | a thousand and one objects leave no x and no y beside a full `options.data` |
| `SeriesModel.TurboStoresPairs` | hella-engine/webapp/js/highstock.src.js:11740-11748 | pairs after a number are stored whole as y values |
| `SeriesModel.AddPointParallel` | hella-engine/webapp/js/highstock.src.js:11634-11682 | adding a point, with or without shift, keeps the arrays parallel |
| `SeriesModel.UpdateParallel` | hella-engine/webapp/js/highstock.src.js:11107-11140 | updating a point keeps the arrays parallel |
| `SeriesModel.RemoveParallel` | hella-engine/webapp/js/highstock.src.js:11169-11188 | removing a point keeps the arrays parallel |
| `SeriesModel.GenerateEffect` | hella-engine/webapp/js/highstock.src.js:11924-11978 | generating points creates exactly the missing points of the slice, with the x and y of their positions, and leaves the other places of a sparse `data` alone |
| `SeriesModel.AddWithShift` | hella-engine/webapp/js/highstock.src.js:11634-11682 | adding with shift slides the arrays: the oldest position goes, the new one is last |
| `SeriesModel.RunKeepsParallel` | hella-engine/webapp/js/highstock.src.js:11107-11193 | over every run of setData, addPoint, update, remove and crop-then-generate: equal lengths, and every created point carries the x and y of its position |
| `Series.Series.SetData` | hella-engine/webapp/js/highstock.src.js:11699-11779 | the search for the first entry and the three reading modes fill the arrays as the model says |
| `Series.Series.AddPoint` | hella-engine/webapp/js/highstock.src.js:11634-11682 | the in-place pushes and shifts have the effect the model says |
| `Series.Series.UpdatePoint` | hella-engine/webapp/js/highstock.src.js:11107-11140 | the point found by identity and its position are overwritten together, and `data` holds the same objects as before |
| `Series.Series.RemovePoint` | hella-engine/webapp/js/highstock.src.js:11157-11193 | the position found by identity is spliced from all four arrays |
| `Series.Series.ProcessData` | hella-engine/webapp/js/highstock.src.js:11841-11918 | the processed arrays are the same slice of x and y at offset `cropStart`, with the closest gap |
| `Series.Series.GeneratePoints` | hella-engine/webapp/js/highstock.src.js:11924-11978 | each of `points` is the very object of the slice in `data`, created if missing |
| `Series.Series.PerformAll` | hella-engine/webapp/js/highstock.src.js:11107-11193 | any run of operations on the objects follows the run of the model and keeps the invariant |
| `Flags.PlaceFlags` | hella-engine/webapp/js/highstock.src.js:15523-15560 | the right-to-left two-pointer pass ends, and gives every flag the place an independent search over the whole master series would |
| `Flags.PlaceOnLine` | hella-engine/webapp/js/highstock.src.js:15537-15552 | between two master points a flag lies on the straight line between them, or at the step value |
| `Flags.PlaceElsewhere` | hella-engine/webapp/js/highstock.src.js:15537-15552 | a flag left of all heights or right of the last master point stays put, and beside a gap it takes the height on its left |
| `Tooltip.SetTooltipPoints` | hella-engine/webapp/js/highstock.src.js:12081-12129 | the loop assigns each point its pixels up to the middle to its successor |
| `Tooltip.EveryPixelIsFilled` | hella-engine/webapp/js/highstock.src.js:12117-12127 | for sorted points every pixel of the plot area has an entry, and which |
| `Tooltip.TableIsNearest` | hella-engine/webapp/js/highstock.src.js:12117-12127 | every pixel but the first holds a point at minimum distance |
| `Tooltip.TiesGoLeft` | hella-engine/webapp/js/highstock.src.js:12117-12127 | a pixel as far from two places goes to the left one |
| `Tooltip.FirstPixel` | hella-engine/webapp/js/highstock.src.js:12117-12127 | pixel 0 holds a nearest point if and only if the middle between the first place and the next one is not negative, that is where the lower bound 0 does not act |
| `Tooltip.TableAgreesWithSearch` | hella-engine/webapp/js/highstock.src.js:12081-12129 | for non-negative sorted points the table agrees with a nearest search at every pixel |
| `Tooltip.NegativePointWins` | hella-engine/webapp/js/highstock.src.js:12117-12127 | a negative first point that takes pixel 0 from a nearer one |
| `Stacks.StackAxis.CollectSeries` | hella-engine/webapp/js/highstock.src.js:6361-6389 | the running totals of a series go into its stack items, created on demand; each existing cell keeps its item |
| `Stacks.StackAxis.ResetCum` | hella-engine/webapp/js/highstock.src.js:7113-7120 | every stack is full again, totals unchanged |
| `Stacks.StackAxis.TranslateAll` | hella-engine/webapp/js/highstock.src.js:11984-12046 | the visible series consume the stacks in order, and each point gets the bar between the two levels |
| `Stacks.StackAxis.Redraw` | hella-engine/webapp/js/highstock.src.js:6361-6389 | from any earlier stacks: collecting, resetting and translating gives each number its bar between the sum of its stack from it on and the sum after it, and a null what its stack or an earlier redraw holds |
| `Stacks.ZeroThresholdIsSigned` | hella-engine/webapp/js/highstock.src.js:6363-6376 | with threshold 0 every stack holds values of one sign |
| `Stacks.StackOfPoint` | hella-engine/webapp/js/highstock.src.js:6367-6372 | a point belongs to the stack of its key and x on its side of the threshold of the series |
| `Stacks.LastStartsAtThreshold` | hella-engine/webapp/js/highstock.src.js:12030-12045 | a bar of the series taken for the last starts at the threshold, as a height or as a share |
| `Stacks.ShownInterval` | hella-engine/webapp/js/highstock.src.js:12028-12041 | a bar shows exactly its own interval, or its share in percent, unless the point counts as one of the last series while a later one still adds to the stack |
| `Stacks.BarsAreIntervals` | hella-engine/webapp/js/highstock.src.js:12003-12041 | the bars of a redraw at threshold 0 are the intervals that tile the stacks if and only if no point of the series taken for the last has a later non-zero point in its stack |
| `Stacks.MatchingIndicesAreRight` | hella-engine/webapp/js/highstock.src.js:12003-12011 | so they are when each visible series has its place on the axis for its index and no two points at one x |
| `Stacks.SecondAxisIsDrawnOver` | hella-engine/webapp/js/highstock.src.js:12003-12011 | on a second axis the first of two series is taken for the last and drawn from 0 |
| `StackModel.StacksTile` | hella-engine/webapp/js/highstock.src.js:12028-12032 | every value strictly inside a stack lies in the interval of exactly one point, and no interval reaches beyond |
| `StackModel.IntervalsAreAdjacent` | hella-engine/webapp/js/highstock.src.js:12028-12032 | consecutive points of a stack share an end |
| `StackModel.FirstAndLast` | hella-engine/webapp/js/highstock.src.js:12028-12032 | the first starts at the total, the last ends at zero |
| `StackModel.LastSeriesRule` | hella-engine/webapp/js/highstock.src.js:12034-12036 | putting the bottom at the threshold is right if and only if no later point adds to the stack |
| `StackModel.PercentagesSumTo100` | hella-engine/webapp/js/highstock.src.js:12043 | the percentages of a stack with non-zero total sum to 100 |
| `Navigator.Scroller.Render` | hella-engine/webapp/js/highstock.src.js:16087-16094 | `zoomedMin`, `zoomedMax` and `range` after a render: the pixels are put in order and then read as integers |
| `Navigator.RaisedDigitIs` | hella-engine/webapp/js/highstock.src.js:156-158 | what `pInt` makes of a positive number below a millionth: its first digit other than zero |
| `Navigator.RedrawInRange` | hella-engine/webapp/js/highstock.src.js:16087-16094 | a redraw with pixels on the navigator stays in range if and only if neither pixel is written with an exponent, or its first digit still fits below what is read of the other and below the width |
| `Navigator.TinyPixelLeavesRange` | hella-engine/webapp/js/highstock.src.js:16087-16094 | a redraw that leaves `zoomedMin` 7, `zoomedMax` 2 and `range` -5 |
| `Navigator.Scroller.MouseDown` | hella-engine/webapp/js/highstock.src.js:16279-16350 | which part is grabbed, or which window a click requests |
| `Navigator.Scroller.MouseMove` | hella-engine/webapp/js/highstock.src.js:16355-16394 | what a drag renders |
| `Navigator.Scroller.MouseUp` | hella-engine/webapp/js/highstock.src.js:16399-16413 | the window requested, and that nothing stays grabbed |
| `Navigator.Scroller.Handle` | hella-engine/webapp/js/highstock.src.js:16279-16413 | any sequence of events on the object follows the state machine, and ends in range when the pixels of its redraws are read as they are |
| `Navigator.HandlesMayCross` | hella-engine/webapp/js/highstock.src.js:16366-16381 | dragging a handle leaves the window between the mouse and the other handle, also after they cross |
| `Navigator.CenterKeepsWidth` | hella-engine/webapp/js/highstock.src.js:16383-16393 | a centre drag keeps the width, stays in the navigator and follows the mouse |
| `Navigator.ClickKeepsWidth` | hella-engine/webapp/js/highstock.src.js:16316-16347 | a click requests a window of exactly the present width, inside the navigator and different from the present one |
| `Navigator.PressGrabs` | hella-engine/webapp/js/highstock.src.js:16297-16313 | a press grabs the near handle, left before right, or the window around it |
| `Navigator.PressOutside` | hella-engine/webapp/js/highstock.src.js:16297 | a press above or below changes nothing |
| `Navigator.ClickCenters` | hella-engine/webapp/js/highstock.src.js:16318-16339 | a click on the navigator centres the window on it where it fits, and otherwise puts it at the edge |
| `Navigator.ClickScrolls` | hella-engine/webapp/js/highstock.src.js:16320-16339 | which way and how far each button and side of the scrollbar moves the window |
| `Navigator.NoDragNoRequest` | hella-engine/webapp/js/highstock.src.js:16399-16413 | without a drag the release requests nothing |
| `Navigator.AnsweredClickKeepsWidth` | hella-engine/webapp/js/highstock.src.js:16087-16094 | and when the chart answers it the scroller shows the same width again although half pixels are dropped |
| `Navigator.StepStaysInRange` | hella-engine/webapp/js/highstock.src.js:16279-16413 | from an in-range state only a redraw whose pixels are not read as they are leaves the range |
| `Navigator.RunStaysInRange` | hella-engine/webapp/js/highstock.src.js:16279-16413 | from an in-range state a sequence of down, move, up and redraw events keeps 0 <= zoomedMin <= zoomedMax <= navigatorWidth throughout if and only if the pixels of all redraws are read as they are |
| `Navigator.OnlyLastMoveCounts` | hella-engine/webapp/js/highstock.src.js:16355-16394 | a drag of any length shows what a single move to its last place would |
| `Navigator.CenterDragKeepsWidth` | hella-engine/webapp/js/highstock.src.js:16308-16413 | press, any moves, release: the window requested has exactly the width before the press |
| `Navigator.HandleDragKeepsOther` | hella-engine/webapp/js/highstock.src.js:16296-16413 | press on a handle, any moves, release: the window requested lies between its last place and the other handle |
| `TickAlign.TickChart.SetMaxTicks` | hella-engine/webapp/js/highstock.src.js:7008-7026 | the count of the axis raises the maximum of its direction only |
| `TickAlign.TickChart.AdjustTickAmount` | hella-engine/webapp/js/highstock.src.js:7032-7061 | ticks are pushed up to the common count, with the new maximum and the rescaled translation; ineligible axes stay as they are |
| `TickAlign.TickChart.Redraw` | hella-engine/webapp/js/highstock.src.js:9539-9551 | after counting, adjusting and translating, every eligible y axis that started and ended on a tick has the common tick count and its tick `k` at pixel k*len/(count-1); linked, datetime and category axes and those that opt out keep their ticks |
| `TickAlign.TickAxis.Translate` | hella-engine/webapp/js/highstock.src.js:6453-6493 | sign, offset and padding of both directions of `translate`, with the old scale on demand |
| `TickAlign.MostIsReached` | hella-engine/webapp/js/highstock.src.js:7019-7021 | the common count is the count of some axis |
| `TickAlign.AxisIsAligned` | hella-engine/webapp/js/highstock.src.js:6453-6493 | an axis extended to `n` evenly spaced ticks has its tick `k` on grid line `k`, in either orientation |
| `TickAlign.EndsAtEdges` | hella-engine/webapp/js/highstock.src.js:6807-6845 | the least and the greatest value stand the same padding away from the two edges, together the share of the point range |
| `TickAlign.RescalingIsRight` | hella-engine/webapp/js/highstock.src.js:7053 | the rescaling of `transA` is the translation of the extended axis if and only if the axis had more than one tick |
| `TickAlign.TranslateBackAndForth` | hella-engine/webapp/js/highstock.src.js:6453-6493 | translating back undoes translating forth if and only if there is no pixel padding; in canvas coordinates only the middle value comes back |

## Left out

- JsonReader.Parse: numbers are unbounded integers; fractions, exponents and the rounding of numbers beyond 2^53 are not read, although the gate passes them.
- JsonReader.Parse: accepted text that is not JSON, such as `[1,,2]`, counts as an error of `eval`, where a JavaScript engine would evaluate some of it; a repeated member name is an error as in strict code.
- JsonPrinter.Stringifier.Str: `toJSON`, replacer functions and key lists, and boxed primitives are not modelled; object members come in enumeration order, with `__proto__` not special.
- JsonParsing.ParseReads: text that only the pre-escape turns into JSON, such as a string with a raw U+0000, is outside the second half of the statement.
- JsonPrinter.Stringifier.Stringify: the replacer argument and the error for an ill-formed one are left out.
- Revivers (`walk`) are arbitrary callbacks.
- Spline.GetPointSpline: the `smoothing` of the code is the constant 1.5; only `ControlsInBand` is stated for other values.
- Ordinal.OrdinalAxis.Pan: the full table is handed in; `getExtendedPositions` builds it on a fake axis from unprocessed data. Data grouping of the extended table is not modelled.
- Ordinal.OrdinalAxis.BeforeSetTickPositions: a lone visible series that needs a table must be in order and have different x at its first two and at its last two points; without that the search divides by zero (`OrdinalTheorems.SearchIsSafe`), and what the axis does with the result is not modelled.
- Panning.DragWithinWindowIsExact: one series; of several cropped series the visible table need not be a contiguous slice of the full one, which also holds hidden series.
- Panning.PanIsExact: assumes the full table ends at `dataMax`, as it does without data grouping; the exact condition for one shift is `Panning.ShiftOnSlice`.
- `getNonLinearTimeTicks` and `postProcessTickInterval`: ticks of neighbouring segments may overlap, so no order is claimed.
- Grouping.GroupData: the `ohlc` approximation with its four columns and custom approximations are left out; an empty list of group positions is not modelled.
- Grouping.Approximate: the `ohlc` approximation of four columns and functions given by the user are left out.
- How `groupPositions` are chosen from the pixel width of the chart.
- TimeTicks.GetTimeTicks: `min` and `max` are whole numbers without bound; `new Date` drops a fraction and has no date beyond 8.64e15 milliseconds (section 15.9.1.1 of ECMA-262 edition 5.1). UTC only, not the local time zone; `higherRanks` label information is not modelled.
- Logarithmic ticks and `getLinearTickPositions` rest on floating-point powers; ticks on a linear axis are taken to be evenly spaced where a statement says so.
- Crop.CropIsExact: x values are plain reals; the crop threshold and the sorted flag are one parameter of `Series.Series.ProcessData`.
- SeriesModel.SetDataParallel: where entries have no x or the reading throws there is no state; `SeriesModel.LoadParallel` covers these data too.
- SeriesModel.RunKeepsParallel: nobody else changes `options.data`. The navigator's series shares that very array with its base series (lines 16436-16440 and 16539), so adding a point to the base lengthens it under the navigator.
- Series.Series.SetData: entries that are no arrays after a pair are left out, and the open-high-low-close form of turbo mode is not modelled.
- Series.Series.ProcessData: the early return for a series and axes that are not dirty and the `pointRange` option are left out.
- Series.Series.GeneratePoints: data grouping's own points, and the destruction of the elements of cropped points, are not modelled.
- Series.Series.RemovePoint: destroyed point objects simply leave the arrays; events run their default action and redraws are separate steps.
- Flags.PlaceFlags: flags without a place on the master series get the plot height or nothing in a later loop, and flags at one x are numbered there; both are left out.
- Tooltip.SetTooltipPoints: the table holds positions instead of points; the tooltip header texts are not modelled.
- Stacks.StackAxis.Redraw: thresholds are numbers, and 0 in the tiling theorems; `ignoreHiddenSeries` is on; unstacked series add no bars; stack labels, the axis extremes and pixel rounding are left out.
- Stacks.StackAxis.TranslateAll: the bars of unstacked series and the pixel positions of points are left out.
- Navigator.RunStaysInRange: the size of the navigator does not change during a run, a redraw shows a window of the navigator, whose width is less than 1e21, and digits are those of the exact number; `render` is reduced to its arithmetic.
- TickAlign.TickChart.Redraw: tick positions are given; that a y axis starts and ends on a tick is a condition of the statement, not derived from `setTickPositions`.
- TickAlign.TickAxis.Translate: linear axes only; ordinal axes compose it with the maps of `Ordinal`.
- All drawing in SVG, VML and canvas, the DOM, animation, the jQuery adapter, pie and arc geometry, gap splitting, exporting and the minified builds.
- Floating-point rounding.
