# Marketing budget calculator — a Dafny model

This project models the logic of a small marketing-budget calculator. The
user types a selling price, a cost of goods, an order-confirmation rate and
a pickup rate (both in percent). From these the calculator derives:

- the margin and the margin and cost shares;
- the maximum cost per acquisition (CPA);
- a test budget worth fifty conversions and its daily share over seven days;
- a 3 x 4 sensitivity grid of the maximum CPA over fixed pickup and
  confirmation rates.

The grid is drawn as a heatmap coloured from red (lowest CPA) to green
(highest). Every result card and heatmap cell value reaches its new value
through an ease-out count-up animation.

Modules, one per source file:

- `Wrappers` (Wrappers.dfy): `Option`, used for a text field that does not
  parse, a skipped calculation and a missed lookup.
- `Types` (Types.dfy): the `HeatmapDataPoint` and `CalculationResults`
  records of types.ts.
- `Calculator` (Calculator.dfy): components/CalculatorForm.tsx.
  - `Results` and `CalculateSpec` state the validation, the formulas and the
    clamping as functions.
  - `BuildHeatmap` is the nested loop that appends the twelve grid points,
    proved equal to the layout function `HeatmapGrid`.
  - `Calculate` is the whole `calculate` callback.
  - The class `CalculatorForm` holds the four fields, their defaults, the
    "average values" reset, edits (each re-runs the calculation) and submit.
- `Heatmap` (Heatmap.dfy): components/Heatmap.tsx, all pure functions.
  - the de-duplicated and sorted axes;
  - `getDataPoint`;
  - the CPA range;
  - the hue rule;
  - the rendered table of cells.
- `CountUp` (CountUp.dfy): hooks/useCountUp.ts, as a class whose fields are
  the hook's state and refs. `Retarget` is the effect re-running on a new
  target, `Tick` is an animation frame firing, and `Unmount` is the cleanup.
  The browser's frame queue is the field `scheduled`: the ids of frames this
  value has requested and that have neither run nor been cancelled.
- `Dashboard` (Dashboard.dfy): the one-line gate of
  components/ResultsDashboard.tsx that decides whether figures are shown.
- `App` (App.dfy): App.tsx passes the calculator's grid to the heatmap. The
  lemmas here show that the pair always draws a full 3 x 4 table.

Numbers are Dafny `real`s. A text field's content is represented by the
result of `parseFloat` on it: `Some(x)` for a number, `None` for NaN.

Two details of the code that are easy to misread:

- The daily budget is the ceiling of the raw (unclamped) test budget over
  seven, and only then clamped at zero
  (components/CalculatorForm.tsx:32,40). The results are the same as
  clamping first.
- On invalid input the code does not call `onCalculate`. The page therefore
  keeps showing the previous results; it does not show a prompt
  (App.tsx:13-22,40).

## Model

| member | source | states |
|---|---|---|
| `Calculator.Results` | components/CalculatorForm.tsx:26-41 | every one of the six result fields is non-negative |
| `Calculator.ResultsClampOnlyNegatives` | components/CalculatorForm.tsx:26-40 | each of the six fields equals its formula (margin sp − cogs, margin % and COGS % of sp, CPA margin·cr/100·pr/100, test budget 50·CPA, daily budget ⌈50·CPA/7⌉) when that is positive, and 0 otherwise |
| `Calculator.CeilBounds` | components/CalculatorForm.tsx:32 | the ceiling `-((-x).Floor)` is the least integer not below x: x ≤ ⌈x⌉ < x + 1 |
| `Calculator.DailyBudgetBounds` | components/CalculatorForm.tsx:31-40 | the daily budget is a whole number in [testBudget/7, testBudget/7 + 1), i.e. the least whole number not below testBudget/7 |
| `Calculator.PercentagesSumToHundred` | components/CalculatorForm.tsx:26-36 | for 0 ≤ cogs ≤ sp, margin % + COGS % = 100 exactly |
| `Calculator.BuildHeatmap` | components/CalculatorForm.tsx:43-58 | the nested loops append exactly the grid `HeatmapGrid(margin)`, point 4·p + c holding pickup step p and confirmation step c |
| `Calculator.GridLayout` | components/CalculatorForm.tsx:44-48 | the grid has 12 points; point i has pickup [75,80,85][i/4] and confirmation [60,65,70,75][i%4], whatever the inputs |
| `Calculator.GridCoversCrossProduct` | components/CalculatorForm.tsx:44-58 | each (pickup, confirmation) pair of the cross product sits at exactly one index, 4·p + c |
| `Calculator.GridValues` | components/CalculatorForm.tsx:49-55 | each grid value is max(0, margin·cr·pr/10000) with the unclamped margin, never negative |
| `Calculator.GridZeroWithoutMargin` | components/CalculatorForm.tsx:51-55 | when cogs ≥ sp every grid value is 0 |
| `Calculator.HeatmapGrid` | components/CalculatorForm.tsx:43-58 | the twelve points of the grid for a margin: point i pairs pickup step i/4 with confirmation step i%4 and holds max(0, margin·cr/100·pr/100); proved about in `GridLayout`, `GridCoversCrossProduct` and `GridValues` |
| `Calculator.RejectsExactly` | components/CalculatorForm.tsx:22-24 | no result exactly when some field failed to parse or the selling price is ≤ 0, whatever the other fields hold |
| `Calculator.CalculateSpec` | components/CalculatorForm.tsx:16-61 | the outcome of `calculate`: nothing when the guard rejects, else the six results, the grid for sp − cogs and the two prices; proved about in `RejectsExactly`, `ResultsClampOnlyNegatives` and `Calculate` |
| `Calculator.Calculate` | components/CalculatorForm.tsx:16-61 | the callback returns exactly `CalculateSpec`: nothing on rejection, else the results, the grid built from sp − cogs, and the two prices |
| `Calculator.DefaultsExample` | components/CalculatorForm.tsx:11-14 | the defaults (50, 15, 70, 80) are accepted and give COGS 30 %, margin 70 %, margin 35, CPA 19.6, test budget 980, daily budget 140 |
| `Calculator.RoundsUpExample` | components/CalculatorForm.tsx:30-32 | (50, 14, 60, 80) gives test budget 864 and daily budget 124, 864/7 rounded up |
| `Calculator.CalculatorForm.constructor` | components/CalculatorForm.tsx:11-14 | the fields start at (50, 15, 70, 80) |
| `Calculator.CalculatorForm.Mount` | components/CalculatorForm.tsx:11-77 | mounting creates a form holding the defaults and the effect's first calculation is the one for (50, 15, 70, 80) |
| `Calculator.CalculatorForm.SetAverageValues` | components/CalculatorForm.tsx:68-73 | the reset restores (50, 15, 70, 80), and the effect it triggers recalculates on them |
| `Calculator.CalculatorForm.Edit` | components/CalculatorForm.tsx:75-77 | a change stores the new fields and re-runs the calculation on them |
| `Calculator.CalculatorForm.Submit` | components/CalculatorForm.tsx:63-66 | submit runs the calculation on the current fields |
| `Heatmap.Distinct` | components/Heatmap.tsx:14 | `[...new Set(xs)]` has no duplicates and exactly the elements of xs |
| `Heatmap.Insert` | components/Heatmap.tsx:14-15 | inserting a new value keeps the sequence strictly ordered and adds exactly that value |
| `Heatmap.Sort` | components/Heatmap.tsx:14-15 | sorting a duplicate-free sequence gives a strictly ordered permutation of it |
| `Heatmap.ConfirmationRates` | components/Heatmap.tsx:14 | the column headers are strictly ascending and are exactly the confirmation rates present |
| `Heatmap.PickupRates` | components/Heatmap.tsx:15 | the row headers are strictly descending (highest first) and are exactly the pickup rates present |
| `Heatmap.OrderedUnique` | components/Heatmap.tsx:14-15 | two strictly ordered sequences with the same elements are equal, so the headers depend only on which rates occur |
| `Heatmap.GetDataPoint` | components/Heatmap.tsx:17-19 | the lookup misses exactly when no point has the pair, and otherwise returns the first point that has it |
| `Heatmap.MinOf` | components/Heatmap.tsx:22 | the minimum is one of the values and at most each of them; 0 for no values |
| `Heatmap.MaxOf` | components/Heatmap.tsx:23 | the maximum is one of the values and at least each of them; 0 for no values |
| `Heatmap.RangeBrackets` | components/Heatmap.tsx:21-23 | minCpa ≤ every value ≤ maxCpa, and both bounds are attained |
| `Heatmap.Hue` | components/Heatmap.tsx:25-35 | the hue of `getColorStyle`: (value − min)/(max − min)·120 on a proper range, 120 when max ≤ min; proved about in `HueBounds`, `HueMonotone` and `FlatDataIsGreen` |
| `Heatmap.CellAt` | components/Heatmap.tsx:62-73 | one table cell: empty when the lookup misses, otherwise the found point's value and the hue of that value over the table's range; proved about in `CellContents` |
| `Heatmap.Render` | components/Heatmap.tsx:10-23 | nothing is drawn exactly when the data are empty; otherwise the row headers are `PickupRates(data)`, the column headers `ConfirmationRates(data)`, the range is the minimum and maximum of the data's CPAs, and there is one row per pickup rate and one column per confirmation rate |
| `Heatmap.FlatDataIsGreen` | components/Heatmap.tsx:21-27 | when every point has the same CPA, every filled cell of the rendered table gets the fixed hue 120 |
| `Heatmap.HueBounds` | components/Heatmap.tsx:29-30 | for values in the range the hue lies in [0, 120], 0 at the minimum and 120 at the maximum |
| `Heatmap.HueMonotone` | components/Heatmap.tsx:29-30 | a larger value never gets a smaller hue |
| `Heatmap.CellContents` | components/Heatmap.tsx:62-73 | a cell is filled exactly when some point has its rates; it then shows the looked-up point's value, its hue is `Hue` of that value over the table's minCpa and maxCpa (red at the cheapest, green at the dearest), and so lies in [0, 120] |
| `CountUp.Percentage` | hooks/useCountUp.ts:16 | min(progress/duration, 1) lies in [0, 1] for progress ≥ 0, is 1 from the duration on and progress/duration before it |
| `CountUp.PercentageMonotone` | hooks/useCountUp.ts:15-16 | the fraction of the animation done never decreases as the frame time grows |
| `CountUp.PowUnit` | hooks/useCountUp.ts:19 | x^n stays in [0, 1] for x in [0, 1] |
| `CountUp.PowMonotone` | hooks/useCountUp.ts:19 | x^n is non-decreasing in x for x ≥ 0 |
| `CountUp.EasedBounds` | hooks/useCountUp.ts:19 | the quintic ease-out maps [0, 1] into [0, 1], with eased(0) = 0 and eased(1) = 1 |
| `CountUp.Eased` | hooks/useCountUp.ts:19 | the ease-out curve 1 − (1 − p)^5; proved about in `EasedBounds` and `EasedMonotone` |
| `CountUp.EasedMonotone` | hooks/useCountUp.ts:19 | the ease-out is non-decreasing on [0, 1] |
| `CountUp.InterpolateBetween` | hooks/useCountUp.ts:21 | the interpolated value lies between start and target; it is the start at 0 and the target at 1 |
| `CountUp.StepAtStart` | hooks/useCountUp.ts:14-21 | a frame at elapsed time 0 shows exactly the start value and asks for another frame |
| `CountUp.Step` | hooks/useCountUp.ts:15-28 | one frame of `animate`: before the duration, the eased interpolation from start to target and a request for another frame; from the duration on, the target and no further frame; proved about in `StepAtStart`, `StepBetween`, `StepFinishes` and `StepMonotone` |
| `CountUp.StepBetween` | hooks/useCountUp.ts:15-27 | every frame shows a value between the start value and the target |
| `CountUp.StepFinishes` | hooks/useCountUp.ts:24-28 | a frame asks for another exactly while progress < duration; from the duration on it shows the target exactly |
| `CountUp.StepMonotone` | hooks/useCountUp.ts:15-21 | later frames of one animation never move away from the target |
| `CountUp.CountUp.constructor` | hooks/useCountUp.ts:3-11 | first render: count 0, start value 0, start time unset, one frame requested |
| `CountUp.CountUp.Default` | hooks/useCountUp.ts:3 | the hook without a duration animates over 1200 ms |
| `CountUp.CountUp.Retarget` | hooks/useCountUp.ts:9-39 | on a changed target or duration (the effect's dependencies): the old frame is cancelled, the start value becomes the displayed count, the start time is cleared, and exactly one new frame is pending |
| `CountUp.CountUp.Unmount` | hooks/useCountUp.ts:33-37 | teardown cancels the pending frame and changes nothing else |
| `CountUp.CountUp.Tick` | hooks/useCountUp.ts:13-29 | an unset start time (null or 0) is set to the frame time; the count becomes the frame's eased value, or the target once the duration has elapsed; a new frame is pending exactly while progress < duration; the first frame after a retarget leaves the count unchanged; a finishing frame leaves the frame ids alone; the count stays between start and target |
| `Dashboard.ShownExactly` | components/ResultsDashboard.tsx:14 | for any produced calculation, figures are shown exactly when 0 < cogs < sp |
| `Dashboard.ZeroCostHidden` | components/ResultsDashboard.tsx:14 | price 50 and cost 0 are accepted by the engine (margin 50), yet the panel hides the results |
| `Dashboard.IsDataValid` | components/ResultsDashboard.tsx:14 | the panel's gate: margin, cost and price all positive; proved about in `ShownExactly` and `ZeroCostHidden` |
| `App.GridConfirmationRates` | components/Heatmap.tsx:14 | the calculator's grid gives the columns 60, 65, 70, 75 |
| `App.GridPickupRates` | components/Heatmap.tsx:15 | the calculator's grid gives the rows 85, 80, 75 |
| `App.GridRendersFull` | App.tsx:47 | every calculation's grid renders as a full 3 x 4 table: rows 85, 80, 75, columns 60 to 75, every cell filled with a hue in [0, 120] |

## Left out

- Text parsing: `parseFloat` accepts prefixes such as "12abc" and yields
  NaN or Infinity. The model starts from its result, `None` for NaN.
  Infinite inputs are not modelled.
- Floating point: everything is exact `real` arithmetic. IEEE-754 rounding
  is not modelled, so 35·0.7·0.8 is exactly 19.6 here. The ceiling of a
  value at an exact multiple of 7 could also differ in doubles.
- Number formatting (`defaultFormatter`, `toFixed`, `toLocaleString`) and the
  `hsla(...)` colour strings: only the hue number is modelled.
- Page layout, styling, tooltips, the `ResultCard`, `InputField` and
  `Explanation` components: presentational only.
- App.tsx state plumbing: `handleCalculate` replaces three state slots
  wholesale. It is modelled only through the lemmas on what the heatmap
  draws for a calculation.
- Timing of `requestAnimationFrame`: frames fire when `Tick` is called. React
  batches the two `setCount` calls of a finishing frame; the model shows
  only the final value.
- CountUp.CountUp.constructor: requires a positive duration. The hook's
  default is 1200; a duration of 0 would divide by zero (NaN in JavaScript).
- CountUp.CountUp.Retarget: requires a positive duration, for the same reason.
- CountUp.CountUp.Tick: requires the frame time to be no earlier than a
  recorded start time. Animation-frame timestamps never decrease.
