/** The two records shared by the calculator and its views (types.ts). */
module Types {
  /** One cell of the sensitivity grid: the two rates in percent and the
      maximum cost per acquisition they give. */
  datatype HeatmapDataPoint = HeatmapDataPoint(confirmationRate: real, pickupRate: real, maxCpa: real)

  /** The six derived metrics shown on the results panel. */
  datatype CalculationResults = CalculationResults(
    cogsPercentage: real,
    marginPercentage: real,
    marginValue: real,
    maxCpa: real,
    testBudget: real,
    dailyBudget: real)
}
