/** The page (App.tsx) hands the calculator's grid to the heatmap. Together
    they always draw the same full 3 x 4 table. */
module App {
  import opened Types
  import Calculator
  import Heatmap

  /** Column headers are fixed by the set of confirmation rates present. */
  lemma ColumnsFromValues(data: seq<HeatmapDataPoint>, want: seq<real>)
    requires Heatmap.StrictlyOrdered(want, false)
    requires forall x :: x in want <==> exists i :: 0 <= i < |data| && data[i].confirmationRate == x
    ensures Heatmap.ConfirmationRates(data) == want
  {
    Heatmap.OrderedUnique(Heatmap.ConfirmationRates(data), want, false);
  }

  /** Row headers are fixed by the set of pickup rates present. */
  lemma RowsFromValues(data: seq<HeatmapDataPoint>, want: seq<real>)
    requires Heatmap.StrictlyOrdered(want, true)
    requires forall x :: x in want <==> exists i :: 0 <= i < |data| && data[i].pickupRate == x
    ensures Heatmap.PickupRates(data) == want
  {
    Heatmap.OrderedUnique(Heatmap.PickupRates(data), want, true);
  }

  /** The grid's confirmation rates are exactly the four confirmation steps. */
  lemma GridConfirmationRates(marginValue: real)
    ensures Heatmap.ConfirmationRates(Calculator.HeatmapGrid(marginValue)) == [60.0, 65.0, 70.0, 75.0]
  {
    var g := Calculator.HeatmapGrid(marginValue);
    var want := [60.0, 65.0, 70.0, 75.0];
    forall x ensures x in want <==> exists i :: 0 <= i < |g| && g[i].confirmationRate == x {
      if x in want {
        var c :| 0 <= c < 4 && want[c] == x;
        Calculator.GridLayout(marginValue, c);
      }
      if exists i :: 0 <= i < |g| && g[i].confirmationRate == x {
        var i :| 0 <= i < |g| && g[i].confirmationRate == x;
        Calculator.GridLayout(marginValue, i);
      }
    }
    ColumnsFromValues(g, want);
  }

  /** The grid's pickup rates are the three pickup steps, highest first. */
  lemma GridPickupRates(marginValue: real)
    ensures Heatmap.PickupRates(Calculator.HeatmapGrid(marginValue)) == [85.0, 80.0, 75.0]
  {
    var g := Calculator.HeatmapGrid(marginValue);
    var want := [85.0, 80.0, 75.0];
    forall x ensures x in want <==> exists i :: 0 <= i < |g| && g[i].pickupRate == x {
      if x in want {
        var k :| 0 <= k < 3 && want[k] == x;
        Calculator.GridLayout(marginValue, 4 * (2 - k));
      }
      if exists i :: 0 <= i < |g| && g[i].pickupRate == x {
        var i :| 0 <= i < |g| && g[i].pickupRate == x;
        Calculator.GridLayout(marginValue, i);
      }
    }
    RowsFromValues(g, want);
  }

  /** Rendering any calculation's grid gives rows 85, 80, 75 and columns
      60, 65, 70, 75, and every one of the twelve cells holds a value whose
      hue lies in [0, 120]. */
  lemma GridRendersFull(inputs: Calculator.FormInputs)
    requires Calculator.CalculateSpec(inputs).Some?
    ensures var v := Heatmap.Render(Calculator.CalculateSpec(inputs).value.heatmapData);
      v.Some? &&
      v.value.pickupRates == [85.0, 80.0, 75.0] &&
      v.value.confirmationRates == [60.0, 65.0, 70.0, 75.0] &&
      |v.value.rows| == 3 &&
      forall k, c :: 0 <= k < 3 && 0 <= c < 4 ==>
        |v.value.rows[k]| == 4 && v.value.rows[k][c].Filled? && 0.0 <= v.value.rows[k][c].hue <= 120.0
  {
    var m := inputs.sellingPrice.value - inputs.costOfGoods.value;
    var g := Calculator.CalculateSpec(inputs).value.heatmapData;
    assert g == Calculator.HeatmapGrid(m);
    GridCells(m);
  }

  /** Each row/column pair of the expected table occurs in the grid. */
  lemma GridHasPair(m: real, k: nat, c: nat)
    requires k < 3 && c < 4
    ensures exists i ::
      0 <= i < |Calculator.HeatmapGrid(m)| &&
      Heatmap.Matches(Calculator.HeatmapGrid(m)[i], [85.0, 80.0, 75.0][k], [60.0, 65.0, 70.0, 75.0][c])
  {
    var g := Calculator.HeatmapGrid(m);
    var i := 4 * (2 - k) + c;
    Calculator.GridIndex(2 - k, c);
    assert g[i] == Calculator.HeatmapCell(m, Calculator.PickupSteps[2 - k], Calculator.ConfirmationSteps[c]);
    assert Calculator.PickupSteps[2 - k] == [85.0, 80.0, 75.0][k];
    assert Heatmap.Matches(g[i], [85.0, 80.0, 75.0][k], [60.0, 65.0, 70.0, 75.0][c]);
  }

  lemma GridCells(m: real)
    ensures var v := Heatmap.Render(Calculator.HeatmapGrid(m));
      v.Some? &&
      v.value.pickupRates == [85.0, 80.0, 75.0] &&
      v.value.confirmationRates == [60.0, 65.0, 70.0, 75.0] &&
      |v.value.rows| == 3 &&
      forall k, c :: 0 <= k < 3 && 0 <= c < 4 ==>
        |v.value.rows[k]| == 4 && v.value.rows[k][c].Filled? && 0.0 <= v.value.rows[k][c].hue <= 120.0
  {
    Calculator.GridLayout(m, 0);
    GridConfirmationRates(m);
    GridPickupRates(m);
    var v := Heatmap.Render(Calculator.HeatmapGrid(m)).value;
    forall k, c | 0 <= k < 3 && 0 <= c < 4
      ensures |v.rows[k]| == 4 && v.rows[k][c].Filled? && 0.0 <= v.rows[k][c].hue <= 120.0
    {
      GridHasPair(m, k, c);
      Heatmap.CellContents(Calculator.HeatmapGrid(m), k, c);
    }
  }
}
