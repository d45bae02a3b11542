/** The budget calculation engine of the calculator form
    (components/CalculatorForm.tsx): input validation, the six formulas, the
    clamping at zero and the fixed 4 x 3 sensitivity grid. */
module Calculator {
  import opened Wrappers
  import opened Types

  /** Pickup rates of the grid, in the order of the outer loop. */
  const PickupSteps: seq<real> := [75.0, 80.0, 85.0]
  /** Confirmation rates of the grid, in the order of the inner loop. */
  const ConfirmationSteps: seq<real> := [60.0, 65.0, 70.0, 75.0]
  /** Number of conversions the test budget pays for. */
  const TestConversions: real := 50.0
  /** Number of days the test budget is spread over. */
  const TestDays: real := 7.0

  /** `x > 0 ? x : 0`, the guard every result goes through. */
  function Clamp(x: real): real {
    if x > 0.0 then x else 0.0
  }

  /** Math.ceil over the reals. */
  function Ceil(x: real): int {
    -((-x).Floor)
  }

  lemma CeilBounds(x: real)
    ensures x <= Ceil(x) as real < x + 1.0
  {
  }

  /** What the form hands to `onCalculate`: the results, the grid and the two
      parsed prices. */
  datatype Calculation = Calculation(
    results: CalculationResults,
    heatmapData: seq<HeatmapDataPoint>,
    sellingPrice: real,
    costOfGoods: real)

  /** The four inputs as numbers. Each is `parseFloat` of its text field:
      None when the text is not a number. */
  datatype FormInputs = FormInputs(
    sellingPrice: Option<real>,
    costOfGoods: Option<real>,
    confirmationRate: Option<real>,
    pickupRate: Option<real>)

  /** The initial field values, also restored by "average values". */
  const Defaults: FormInputs := FormInputs(Some(50.0), Some(15.0), Some(70.0), Some(80.0))

  /** The validation guard: every field parsed and the selling price positive. */
  predicate Accepts(inputs: FormInputs) {
    inputs.sellingPrice.Some? && inputs.costOfGoods.Some? &&
    inputs.confirmationRate.Some? && inputs.pickupRate.Some? &&
    inputs.sellingPrice.value > 0.0
  }

  /** Maximum cost per acquisition for a margin and two rates in percent. */
  function RawCpa(marginValue: real, confirmationPct: real, pickupPct: real): real {
    marginValue * (confirmationPct / 100.0) * (pickupPct / 100.0)
  }

  /** The results record for accepted inputs (rates in percent). */
  function Results(sellingPrice: real, costOfGoods: real, confirmationPct: real, pickupPct: real): (r: CalculationResults)
    requires sellingPrice > 0.0
    ensures r.marginValue >= 0.0 && r.marginPercentage >= 0.0 && r.cogsPercentage >= 0.0
    ensures r.maxCpa >= 0.0 && r.testBudget >= 0.0 && r.dailyBudget >= 0.0
  {
    var marginValue := sellingPrice - costOfGoods;
    var marginPercentage := (marginValue / sellingPrice) * 100.0;
    var cogsPercentage := (costOfGoods / sellingPrice) * 100.0;
    var maxCpa := RawCpa(marginValue, confirmationPct, pickupPct);
    var testBudget := TestConversions * maxCpa;
    var dailyBudget := Ceil(testBudget / TestDays) as real;
    CalculationResults(
      Clamp(cogsPercentage),
      Clamp(marginPercentage),
      Clamp(marginValue),
      Clamp(maxCpa),
      Clamp(testBudget),
      Clamp(dailyBudget))
  }

  /** One grid cell: the grid's own rate pair and the (unclamped) margin. */
  function HeatmapCell(marginValue: real, pickupPct: real, confirmationPct: real): HeatmapDataPoint {
    HeatmapDataPoint(confirmationPct, pickupPct, Clamp(RawCpa(marginValue, confirmationPct, pickupPct)))
  }

  /** The grid as the nested loops lay it out: the point at index i belongs
      to the (i / 4)-th pickup step and the (i % 4)-th confirmation step. */
  function HeatmapGrid(marginValue: real): seq<HeatmapDataPoint> {
    seq(|PickupSteps| * |ConfirmationSteps|,
        i requires 0 <= i < |PickupSteps| * |ConfirmationSteps| =>
          HeatmapCell(marginValue, PickupSteps[i / |ConfirmationSteps|], ConfirmationSteps[i % |ConfirmationSteps|]))
  }

  /** What `calculate` produces: nothing when the guard rejects the inputs. */
  function CalculateSpec(inputs: FormInputs): Option<Calculation> {
    if !Accepts(inputs) then None
    else
      var sp := inputs.sellingPrice.value;
      var cogs := inputs.costOfGoods.value;
      Some(Calculation(
        Results(sp, cogs, inputs.confirmationRate.value, inputs.pickupRate.value),
        HeatmapGrid(sp - cogs), sp, cogs))
  }

  /** The nested `forEach` loops that push the twelve grid points. */
  method BuildHeatmap(marginValue: real) returns (heatmapData: seq<HeatmapDataPoint>)
    ensures heatmapData == HeatmapGrid(marginValue)
  {
    heatmapData := [];
    var p := 0;
    while p < |PickupSteps|
      invariant 0 <= p <= |PickupSteps|
      invariant heatmapData == HeatmapGrid(marginValue)[..p * |ConfirmationSteps|]
    {
      var pr := PickupSteps[p];
      var c := 0;
      while c < |ConfirmationSteps|
        invariant 0 <= c <= |ConfirmationSteps|
        invariant heatmapData == HeatmapGrid(marginValue)[..p * |ConfirmationSteps| + c]
      {
        var cr := ConfirmationSteps[c];
        var cpa := RawCpa(marginValue, cr, pr);
        GridIndex(p, c);
        heatmapData := heatmapData + [HeatmapDataPoint(cr, pr, if cpa > 0.0 then cpa else 0.0)];
        c := c + 1;
      }
      p := p + 1;
    }
  }

  lemma GridIndex(p: nat, c: nat)
    requires p < |PickupSteps| && c < |ConfirmationSteps|
    ensures (p * |ConfirmationSteps| + c) / |ConfirmationSteps| == p
    ensures (p * |ConfirmationSteps| + c) % |ConfirmationSteps| == c
  {
  }

  /** `calculate`: validation, results and grid. */
  method Calculate(inputs: FormInputs) returns (r: Option<Calculation>)
    ensures r == CalculateSpec(inputs)
  {
    if !Accepts(inputs) {
      return None;
    }
    var sp := inputs.sellingPrice.value;
    var cogs := inputs.costOfGoods.value;
    var results := Results(sp, cogs, inputs.confirmationRate.value, inputs.pickupRate.value);
    var heatmapData := BuildHeatmap(sp - cogs);
    r := Some(Calculation(results, heatmapData, sp, cogs));
  }

  /** The form's four text fields, held as their parsed values. */
  class CalculatorForm {
    var inputs: FormInputs

    constructor ()
      ensures inputs == Defaults
    {
      inputs := Defaults;
    }

    /** Mounting the form: the first render holds the defaults and the
        effect then runs the calculation on them. */
    static method Mount() returns (form: CalculatorForm, r: Option<Calculation>)
      ensures fresh(form) && form.inputs == Defaults
      ensures r == CalculateSpec(Defaults)
    {
      form := new CalculatorForm();
      r := Calculate(form.inputs);
    }

    /** The "average values" button. Changing the fields re-creates the
        calculation callback, so the effect recalculates on the defaults. */
    method SetAverageValues() returns (r: Option<Calculation>)
      modifies this
      ensures inputs == Defaults
      ensures r == CalculateSpec(Defaults)
    {
      inputs := Defaults;
      r := Calculate(inputs);
    }

    /** Editing one field: the calculation reruns on every change. */
    method Edit(newInputs: FormInputs) returns (r: Option<Calculation>)
      modifies this
      ensures inputs == newInputs
      ensures r == CalculateSpec(newInputs)
    {
      inputs := newInputs;
      r := Calculate(inputs);
    }

    /** Submitting the form reruns the calculation on the current fields. */
    method Submit() returns (r: Option<Calculation>)
      ensures r == CalculateSpec(inputs)
    {
      r := Calculate(inputs);
    }
  }

  // ---------------------------------------------------------------------
  // Properties of the engine

  /** The guard: a result exists exactly when every field parsed and the
      selling price is positive, whatever the other fields hold. */
  lemma RejectsExactly(inputs: FormInputs)
    ensures CalculateSpec(inputs).None? <==>
      inputs.sellingPrice.None? || inputs.costOfGoods.None? ||
      inputs.confirmationRate.None? || inputs.pickupRate.None? ||
      inputs.sellingPrice.value <= 0.0
  {
  }

  /** Every result field is non-negative and equals its raw formula whenever
      that formula is positive. */
  lemma ResultsClampOnlyNegatives(sp: real, cogs: real, cr: real, pr: real)
    requires sp > 0.0
    ensures var r := Results(sp, cogs, cr, pr);
      var margin := sp - cogs;
      var cpa := margin * (cr / 100.0) * (pr / 100.0);
      var budget := 50.0 * cpa;
      (margin > 0.0 ==> r.marginValue == margin) && (margin <= 0.0 ==> r.marginValue == 0.0) &&
      (margin / sp * 100.0 > 0.0 ==> r.marginPercentage == margin / sp * 100.0) &&
      (margin / sp * 100.0 <= 0.0 ==> r.marginPercentage == 0.0) &&
      (cogs / sp * 100.0 > 0.0 ==> r.cogsPercentage == cogs / sp * 100.0) &&
      (cogs / sp * 100.0 <= 0.0 ==> r.cogsPercentage == 0.0) &&
      (cpa > 0.0 ==> r.maxCpa == cpa) && (cpa <= 0.0 ==> r.maxCpa == 0.0) &&
      (budget > 0.0 ==> r.testBudget == budget) && (budget <= 0.0 ==> r.testBudget == 0.0) &&
      (Ceil(budget / 7.0) > 0 ==> r.dailyBudget == Ceil(budget / 7.0) as real) &&
      (Ceil(budget / 7.0) <= 0 ==> r.dailyBudget == 0.0)
  {
    var r := Results(sp, cogs, cr, pr);
    var margin := sp - cogs;
    assert r.marginValue == Clamp(margin);
    assert r.marginPercentage == Clamp(margin / sp * 100.0);
    assert r.cogsPercentage == Clamp(cogs / sp * 100.0);
    assert r.maxCpa == Clamp(RawCpa(margin, cr, pr));
    assert r.testBudget == Clamp(50.0 * RawCpa(margin, cr, pr));
    assert r.dailyBudget == Clamp(Ceil(50.0 * RawCpa(margin, cr, pr) / 7.0) as real);
  }

  /** With a cost between zero and the price, margin and cost shares add up
      to exactly one hundred percent. */
  lemma PercentagesSumToHundred(sp: real, cogs: real, cr: real, pr: real)
    requires sp > 0.0 && 0.0 <= cogs <= sp
    ensures Results(sp, cogs, cr, pr).marginPercentage + Results(sp, cogs, cr, pr).cogsPercentage == 100.0
  {
    var r := Results(sp, cogs, cr, pr);
    SharesAddUp(sp, cogs);
    var m := (sp - cogs) / sp;
    var c := cogs / sp;
    assert m >= 0.0 && c >= 0.0;
    assert r.marginPercentage == m * 100.0;
    assert r.cogsPercentage == c * 100.0;
  }

  lemma SharesAddUp(sp: real, cogs: real)
    requires sp > 0.0
    ensures (sp - cogs) / sp + cogs / sp == 1.0
  {
  }

  /** The daily budget is the test budget spread over seven days, rounded up
      to a whole amount: the least whole number not below testBudget / 7. */
  lemma DailyBudgetBounds(sp: real, cogs: real, cr: real, pr: real)
    requires sp > 0.0
    ensures var r := Results(sp, cogs, cr, pr);
      r.dailyBudget == r.dailyBudget.Floor as real &&
      r.testBudget / 7.0 <= r.dailyBudget < r.testBudget / 7.0 + 1.0
  {
    var r := Results(sp, cogs, cr, pr);
    var budget := 50.0 * RawCpa(sp - cogs, cr, pr);
    CeilBounds(budget / 7.0);
    if budget <= 0.0 {
      assert Ceil(budget / 7.0) <= 0;
    }
  }

  /** The grid has twelve points whose rate pairs are fixed by their index,
      whatever the inputs. */
  lemma GridLayout(marginValue: real, i: nat)
    requires i < 12
    ensures |HeatmapGrid(marginValue)| == 12
    ensures HeatmapGrid(marginValue)[i].pickupRate == [75.0, 80.0, 85.0][i / 4]
    ensures HeatmapGrid(marginValue)[i].confirmationRate == [60.0, 65.0, 70.0, 75.0][i % 4]
  {
  }

  /** Every pair of the cross product appears in the grid at exactly one index. */
  lemma GridCoversCrossProduct(marginValue: real, p: nat, c: nat)
    requires p < 3 && c < 4
    ensures var g := HeatmapGrid(marginValue);
      forall i :: 0 <= i < |g| ==>
        (g[i].pickupRate == PickupSteps[p] && g[i].confirmationRate == ConfirmationSteps[c] <==> i == 4 * p + c)
  {
    var g := HeatmapGrid(marginValue);
    forall i | 0 <= i < |g|
      ensures g[i].pickupRate == PickupSteps[p] && g[i].confirmationRate == ConfirmationSteps[c] <==> i == 4 * p + c
    {
      GridIndex(p, c);
      GridIndex(i / 4, i % 4);
    }
  }

  /** Every grid value is the clamped CPA of the unclamped margin and the
      grid's rate pair; it is never negative. */
  lemma GridValues(marginValue: real, i: nat)
    requires i < 12
    ensures var d := HeatmapGrid(marginValue)[i];
      d.maxCpa >= 0.0 &&
      d.maxCpa == (if marginValue * d.confirmationRate * d.pickupRate / 10000.0 > 0.0
                   then marginValue * d.confirmationRate * d.pickupRate / 10000.0 else 0.0)
  {
  }

  /** When the cost reaches the price the whole grid is zero. */
  lemma GridZeroWithoutMargin(inputs: FormInputs)
    requires Accepts(inputs) && inputs.costOfGoods.value >= inputs.sellingPrice.value
    ensures forall d :: d in CalculateSpec(inputs).value.heatmapData ==> d.maxCpa == 0.0
  {
    var g := CalculateSpec(inputs).value.heatmapData;
    forall d | d in g ensures d.maxCpa == 0.0 {
      var i :| 0 <= i < |g| && g[i] == d;
      var m := inputs.sellingPrice.value - inputs.costOfGoods.value;
      assert m <= 0.0;
      assert RawCpa(m, d.confirmationRate, d.pickupRate) <= 0.0 by {
        assert d.confirmationRate / 100.0 > 0.0 && d.pickupRate / 100.0 > 0.0;
      }
    }
  }

  /** The worked example behind the default inputs. */
  lemma DefaultsExample()
    ensures CalculateSpec(Defaults).Some?
    ensures CalculateSpec(Defaults).value.results ==
      CalculationResults(30.0, 70.0, 35.0, 19.6, 980.0, 140.0)
  {
    var r := Results(50.0, 15.0, 70.0, 80.0);
    assert RawCpa(35.0, 70.0, 80.0) == 19.6;
    assert Ceil(980.0 / 7.0) == 140;
  }

  /** A test budget that is not a multiple of seven: 864 / 7 is about 123.4,
      and the daily budget rounds it up to 124. */
  lemma RoundsUpExample()
    ensures var r := Results(50.0, 14.0, 60.0, 80.0);
      r.testBudget == 864.0 && r.dailyBudget == 124.0
  {
    assert RawCpa(36.0, 60.0, 80.0) == 17.28;
    assert Ceil(864.0 / 7.0) == 124 by {
      assert (-(864.0 / 7.0)).Floor == -124;
    }
  }
}
