/** The gate of the results panel (components/ResultsDashboard.tsx): the
    figures are shown only when margin, cost and price are all positive;
    otherwise the panel asks for valid data. */
module Dashboard {
  import opened Wrappers
  import opened Types
  import opened Calculator

  predicate IsDataValid(results: CalculationResults, costOfGoods: real, sellingPrice: real) {
    results.marginValue > 0.0 && costOfGoods > 0.0 && sellingPrice > 0.0
  }

  /** For any calculation the engine produces, the panel shows figures
      exactly when the cost is positive and below the price. A cost of 0 is
      accepted by the engine but hidden by the panel. */
  lemma ShownExactly(inputs: FormInputs)
    requires CalculateSpec(inputs).Some?
    ensures var c := CalculateSpec(inputs).value;
      IsDataValid(c.results, c.costOfGoods, c.sellingPrice) <==>
        0.0 < inputs.costOfGoods.value < inputs.sellingPrice.value
  {
  }

  /** A concrete instance: price 50, cost 0 gives results that are not shown. */
  lemma ZeroCostHidden()
    ensures var inputs := FormInputs(Some(50.0), Some(0.0), Some(70.0), Some(80.0));
      CalculateSpec(inputs).Some? &&
      CalculateSpec(inputs).value.results.marginValue == 50.0 &&
      !IsDataValid(CalculateSpec(inputs).value.results, 0.0, 50.0)
  {
  }
}
