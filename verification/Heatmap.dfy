/** The sensitivity heatmap (components/Heatmap.tsx): its two axes, the cell
    lookup, the CPA range and the red-to-green hue of each cell. */
module Heatmap {
  import opened Wrappers
  import opened Types

  /** Hue of the top of the scale (green); also the hue used when all values are equal. */
  const FullHue: real := 120.0

  // ---------------------------------------------------------------------
  // Sequence helpers

  predicate NoDuplicates(s: seq<real>) {
    forall i, j :: 0 <= i < j < |s| ==> s[i] != s[j]
  }

  /** `a` comes strictly before `b` in ascending (or descending) order. */
  predicate Precedes(a: real, b: real, descending: bool) {
    if descending then a > b else a < b
  }

  predicate StrictlyOrdered(s: seq<real>, descending: bool) {
    forall i, j :: 0 <= i < j < |s| ==> Precedes(s[i], s[j], descending)
  }

  /** `[...new Set(xs)]`: the distinct values in order of first occurrence. */
  function Distinct(xs: seq<real>): (r: seq<real>)
    ensures NoDuplicates(r)
    ensures forall x :: x in r <==> x in xs
  {
    if |xs| == 0 then []
    else
      var d := Distinct(xs[..|xs| - 1]);
      var x := xs[|xs| - 1];
      assert xs == xs[..|xs| - 1] + [x];
      if x in d then d else d + [x]
  }

  /** A head that precedes every element of a strictly ordered tail keeps it ordered. */
  lemma ConsOrdered(h: real, t: seq<real>, descending: bool)
    requires StrictlyOrdered(t, descending)
    requires forall y :: y in t ==> Precedes(h, y, descending)
    ensures StrictlyOrdered([h] + t, descending)
  {
    var r := [h] + t;
    forall i, j | 0 <= i < j < |r| ensures Precedes(r[i], r[j], descending) {
      if i == 0 {
        assert r[j] == t[j - 1];
      } else {
        assert r[i] == t[i - 1] && r[j] == t[j - 1];
      }
    }
  }

  /** One step of insertion sort into a strictly ordered sequence. */
  function Insert(x: real, s: seq<real>, descending: bool): (r: seq<real>)
    requires StrictlyOrdered(s, descending) && x !in s
    ensures forall y :: y in r <==> y == x || y in s
    ensures StrictlyOrdered(r, descending)
    ensures multiset(r) == multiset(s) + multiset{x}
  {
    if |s| == 0 || Precedes(x, s[0], descending) then
      ConsOrdered(x, s, descending);
      [x] + s
    else
      assert s == [s[0]] + s[1..];
      var rest := Insert(x, s[1..], descending);
      assert Precedes(s[0], x, descending);
      assert forall y :: y in s[1..] ==> Precedes(s[0], y, descending);
      ConsOrdered(s[0], rest, descending);
      [s[0]] + rest
  }

  /** `.sort(...)` of a sequence without duplicates, with the comparator
      `a - b` (ascending) or `b - a` (descending). */
  function Sort(s: seq<real>, descending: bool): (r: seq<real>)
    requires NoDuplicates(s)
    ensures StrictlyOrdered(r, descending)
    ensures multiset(r) == multiset(s)
  {
    if |s| == 0 then []
    else
      assert s == [s[0]] + s[1..];
      var rest := Sort(s[1..], descending);
      assert s[0] !in s[1..];
      assert s[0] !in multiset(rest);
      Insert(s[0], rest, descending)
  }

  // ---------------------------------------------------------------------
  // Axes, lookup and range

  function ConfirmationValues(data: seq<HeatmapDataPoint>): (r: seq<real>)
    ensures |r| == |data| && forall i :: 0 <= i < |data| ==> r[i] == data[i].confirmationRate
  {
    seq(|data|, i requires 0 <= i < |data| => data[i].confirmationRate)
  }

  function PickupValues(data: seq<HeatmapDataPoint>): (r: seq<real>)
    ensures |r| == |data| && forall i :: 0 <= i < |data| ==> r[i] == data[i].pickupRate
  {
    seq(|data|, i requires 0 <= i < |data| => data[i].pickupRate)
  }

  function CpaValues(data: seq<HeatmapDataPoint>): (r: seq<real>)
    ensures |r| == |data| && forall i :: 0 <= i < |data| ==> r[i] == data[i].maxCpa
  {
    seq(|data|, i requires 0 <= i < |data| => data[i].maxCpa)
  }

  /** The column headers: distinct confirmation rates, strictly ascending. */
  function ConfirmationRates(data: seq<HeatmapDataPoint>): (r: seq<real>)
    ensures StrictlyOrdered(r, false)
    ensures forall x :: x in r <==> exists i :: 0 <= i < |data| && data[i].confirmationRate == x
  {
    var vs := ConfirmationValues(data);
    var d := Distinct(vs);
    var r := Sort(d, false);
    assert forall x :: x in r <==> x in d by {
      forall x ensures x in r <==> x in d {
        assert x in r <==> x in multiset(r);
        assert x in d <==> x in multiset(d);
      }
    }
    assert forall x :: x in vs <==> exists i :: 0 <= i < |data| && data[i].confirmationRate == x by {
      forall x ensures x in vs <==> exists i :: 0 <= i < |data| && data[i].confirmationRate == x {
        if x in vs {
          var i :| 0 <= i < |vs| && vs[i] == x;
          assert data[i].confirmationRate == x;
        }
        if exists i :: 0 <= i < |data| && data[i].confirmationRate == x {
          var i :| 0 <= i < |data| && data[i].confirmationRate == x;
          assert vs[i] == x;
        }
      }
    }
    r
  }

  /** The row headers: distinct pickup rates, strictly descending. */
  function PickupRates(data: seq<HeatmapDataPoint>): (r: seq<real>)
    ensures StrictlyOrdered(r, true)
    ensures forall x :: x in r <==> exists i :: 0 <= i < |data| && data[i].pickupRate == x
  {
    var vs := PickupValues(data);
    var d := Distinct(vs);
    var r := Sort(d, true);
    assert forall x :: x in r <==> x in d by {
      forall x ensures x in r <==> x in d {
        assert x in r <==> x in multiset(r);
        assert x in d <==> x in multiset(d);
      }
    }
    assert forall x :: x in vs <==> exists i :: 0 <= i < |data| && data[i].pickupRate == x by {
      forall x ensures x in vs <==> exists i :: 0 <= i < |data| && data[i].pickupRate == x {
        if x in vs {
          var i :| 0 <= i < |vs| && vs[i] == x;
          assert data[i].pickupRate == x;
        }
        if exists i :: 0 <= i < |data| && data[i].pickupRate == x {
          var i :| 0 <= i < |data| && data[i].pickupRate == x;
          assert vs[i] == x;
        }
      }
    }
    r
  }

  predicate Matches(d: HeatmapDataPoint, pr: real, cr: real) {
    d.pickupRate == pr && d.confirmationRate == cr
  }

  /** `getDataPoint`: the first point with exactly this rate pair. */
  function GetDataPoint(data: seq<HeatmapDataPoint>, pr: real, cr: real): (r: Option<HeatmapDataPoint>)
    ensures r.None? <==> forall i :: 0 <= i < |data| ==> !Matches(data[i], pr, cr)
    ensures r.Some? ==> exists i :: 0 <= i < |data| && data[i] == r.value && Matches(data[i], pr, cr) &&
                          forall j :: 0 <= j < i ==> !Matches(data[j], pr, cr)
  {
    if |data| == 0 then None
    else if Matches(data[0], pr, cr) then Some(data[0])
    else
      var r := GetDataPoint(data[1..], pr, cr);
      assert forall i :: 1 <= i < |data| ==> data[i] == data[1..][i - 1];
      if r.Some? then
        var k :| 0 <= k < |data[1..]| && data[1..][k] == r.value && Matches(data[1..][k], pr, cr) &&
                 forall j :: 0 <= j < k ==> !Matches(data[1..][j], pr, cr);
        assert data[k + 1] == r.value;
        r
      else r
  }

  /** `Math.min(...xs)`, or 0 for no values. */
  function MinOf(xs: seq<real>): (r: real)
    ensures |xs| > 0 ==> r in xs
    ensures forall i :: 0 <= i < |xs| ==> r <= xs[i]
    ensures |xs| == 0 ==> r == 0.0
  {
    if |xs| == 0 then 0.0
    else if |xs| == 1 then xs[0]
    else
      var m := MinOf(xs[1..]);
      assert forall i :: 1 <= i < |xs| ==> xs[i] == xs[1..][i - 1];
      if xs[0] <= m then xs[0] else m
  }

  /** `Math.max(...xs)`, or 0 for no values. */
  function MaxOf(xs: seq<real>): (r: real)
    ensures |xs| > 0 ==> r in xs
    ensures forall i :: 0 <= i < |xs| ==> xs[i] <= r
    ensures |xs| == 0 ==> r == 0.0
  {
    if |xs| == 0 then 0.0
    else if |xs| == 1 then xs[0]
    else
      var m := MaxOf(xs[1..]);
      assert forall i :: 1 <= i < |xs| ==> xs[i] == xs[1..][i - 1];
      if xs[0] >= m then xs[0] else m
  }

  /** `getColorStyle`, reduced to its hue: a linear scale from the minimum
      (0, red) to the maximum (120, green), or green when all values agree. */
  function Hue(value: real, minCpa: real, maxCpa: real): real {
    if maxCpa <= minCpa then FullHue
    else (value - minCpa) / (maxCpa - minCpa) * FullHue
  }

  // ---------------------------------------------------------------------
  // The rendered table

  /** A table cell: empty when no point has the pair, otherwise the value and its hue. */
  datatype Cell = Empty | Filled(maxCpa: real, hue: real)

  datatype HeatmapView = HeatmapView(
    confirmationRates: seq<real>,
    pickupRates: seq<real>,
    minCpa: real,
    maxCpa: real,
    rows: seq<seq<Cell>>)

  function CellAt(data: seq<HeatmapDataPoint>, pr: real, cr: real, minCpa: real, maxCpa: real): Cell {
    match GetDataPoint(data, pr, cr)
    case None => Empty
    case Some(d) => Filled(d.maxCpa, Hue(d.maxCpa, minCpa, maxCpa))
  }

  /** The component: nothing for no data; otherwise one row per pickup rate
      (highest first) and one column per confirmation rate (lowest first). */
  function Render(data: seq<HeatmapDataPoint>): (v: Option<HeatmapView>)
    ensures v.None? <==> |data| == 0
    ensures v.Some? ==>
      v.value.pickupRates == PickupRates(data) &&
      v.value.confirmationRates == ConfirmationRates(data) &&
      v.value.minCpa == MinOf(CpaValues(data)) &&
      v.value.maxCpa == MaxOf(CpaValues(data))
    ensures v.Some? ==>
      |v.value.rows| == |v.value.pickupRates| &&
      forall k :: 0 <= k < |v.value.rows| ==> |v.value.rows[k]| == |v.value.confirmationRates|
  {
    if |data| == 0 then None
    else
      var crs := ConfirmationRates(data);
      var prs := PickupRates(data);
      var lo := MinOf(CpaValues(data));
      var hi := MaxOf(CpaValues(data));
      Some(HeatmapView(crs, prs, lo, hi,
        seq(|prs|, k requires 0 <= k < |prs| =>
          seq(|crs|, c requires 0 <= c < |crs| => CellAt(data, prs[k], crs[c], lo, hi)))))
  }

  // ---------------------------------------------------------------------
  // Properties

  /** The minimum and maximum of the CPA values bracket every point's value
      and are each carried by some point. */
  lemma CpaRange(data: seq<HeatmapDataPoint>, lo: real, hi: real)
    requires |data| > 0
    requires lo == MinOf(CpaValues(data)) && hi == MaxOf(CpaValues(data))
    ensures forall i :: 0 <= i < |data| ==> lo <= data[i].maxCpa <= hi
    ensures exists i :: 0 <= i < |data| && data[i].maxCpa == lo
    ensures exists i :: 0 <= i < |data| && data[i].maxCpa == hi
  {
    var xs := CpaValues(data);
    var a :| 0 <= a < |xs| && xs[a] == lo;
    var b :| 0 <= b < |xs| && xs[b] == hi;
    assert data[a].maxCpa == lo && data[b].maxCpa == hi;
  }

  /** minCpa and maxCpa bracket every value of the data and are attained. */
  lemma RangeBrackets(data: seq<HeatmapDataPoint>)
    requires |data| > 0
    ensures var v := Render(data).value;
      (forall i :: 0 <= i < |data| ==> v.minCpa <= data[i].maxCpa <= v.maxCpa) &&
      (exists i :: 0 <= i < |data| && data[i].maxCpa == v.minCpa) &&
      (exists i :: 0 <= i < |data| && data[i].maxCpa == v.maxCpa)
  {
    var v := Render(data).value;
    CpaRange(data, v.minCpa, v.maxCpa);
  }

  /** When every point has the same CPA, every filled cell of the table gets
      the fixed green hue. */
  lemma FlatDataIsGreen(data: seq<HeatmapDataPoint>, k: nat, c: nat)
    requires |data| > 0
    requires forall i, j :: 0 <= i < |data| && 0 <= j < |data| ==> data[i].maxCpa == data[j].maxCpa
    requires k < |Render(data).value.rows| && c < |Render(data).value.rows[k]|
    ensures Render(data).value.rows[k][c].Filled? ==> Render(data).value.rows[k][c].hue == FullHue
  {
    var v := Render(data).value;
    RangeBrackets(data);
    assert v.maxCpa <= v.minCpa;
  }

  /** Within the range the hue lies in [0, 120], with 0 at the minimum and 120 at the maximum. */
  lemma HueBounds(value: real, minCpa: real, maxCpa: real)
    requires minCpa <= value <= maxCpa
    ensures 0.0 <= Hue(value, minCpa, maxCpa) <= 120.0
    ensures minCpa < maxCpa ==> Hue(minCpa, minCpa, maxCpa) == 0.0 && Hue(maxCpa, minCpa, maxCpa) == 120.0
  {
    if minCpa < maxCpa {
      var w := maxCpa - minCpa;
      var f := (value - minCpa) / w;
      assert f * w == value - minCpa;
      assert 0.0 <= f;
      assert (1.0 - f) * w == maxCpa - value;
      assert f <= 1.0;
    }
  }

  /** A larger value never gets a redder hue. */
  lemma HueMonotone(v1: real, v2: real, minCpa: real, maxCpa: real)
    requires v1 <= v2
    ensures Hue(v1, minCpa, maxCpa) <= Hue(v2, minCpa, maxCpa)
  {
    if minCpa < maxCpa {
      var w := maxCpa - minCpa;
      var f1 := (v1 - minCpa) / w;
      var f2 := (v2 - minCpa) / w;
      assert f1 * w == v1 - minCpa && f2 * w == v2 - minCpa;
      assert (f2 - f1) * w == v2 - v1;
      assert f1 <= f2;
    }
  }

  /** A cell is filled exactly when some point carries its row and column
      rates. A filled cell shows the looked-up point's value, coloured by the
      hue rule over the table's CPA range, so its hue lies in [0, 120]. */
  lemma CellContents(data: seq<HeatmapDataPoint>, k: nat, c: nat)
    requires |data| > 0
    requires k < |Render(data).value.rows| && c < |Render(data).value.rows[k]|
    ensures var v := Render(data).value;
      (v.rows[k][c].Filled? <==>
        exists i :: 0 <= i < |data| && Matches(data[i], v.pickupRates[k], v.confirmationRates[c])) &&
      (v.rows[k][c].Filled? ==>
        v.rows[k][c].maxCpa == GetDataPoint(data, v.pickupRates[k], v.confirmationRates[c]).value.maxCpa &&
        v.rows[k][c].hue == Hue(v.rows[k][c].maxCpa, v.minCpa, v.maxCpa) &&
        0.0 <= v.rows[k][c].hue <= 120.0)
  {
    var v := Render(data).value;
    RangeBrackets(data);
    match GetDataPoint(data, v.pickupRates[k], v.confirmationRates[c])
    case None =>
    case Some(d) =>
      assert d in data;
      HueBounds(d.maxCpa, v.minCpa, v.maxCpa);
  }

  /** The head of a strictly ordered sequence precedes every other element,
      and the tail holds exactly the other elements. */
  lemma HeadAndTail(s: seq<real>, descending: bool)
    requires StrictlyOrdered(s, descending) && |s| > 0
    ensures forall x :: x in s ==> x == s[0] || Precedes(s[0], x, descending)
    ensures forall x :: x in s[1..] <==> x in s && x != s[0]
  {
    forall x | x in s ensures x == s[0] || Precedes(s[0], x, descending) {
      var k :| 0 <= k < |s| && s[k] == x;
      assert k == 0 || Precedes(s[0], s[k], descending);
    }
    forall x ensures x in s[1..] <==> x in s && x != s[0] {
      if x in s[1..] {
        var j :| 0 <= j < |s[1..]| && s[1..][j] == x;
        assert s[j + 1] == x && Precedes(s[0], s[j + 1], descending);
      }
      if x in s && x != s[0] {
        var k :| 0 <= k < |s| && s[k] == x;
        assert s[1..][k - 1] == x;
      }
    }
  }

  /** Two strictly ordered sequences with the same elements are equal: the
      axes are determined by the set of values alone. */
  lemma {:induction false} OrderedUnique(a: seq<real>, b: seq<real>, descending: bool)
    requires StrictlyOrdered(a, descending) && StrictlyOrdered(b, descending)
    requires forall x :: x in a <==> x in b
    ensures a == b
  {
    if |a| == 0 || |b| == 0 {
      forall x ensures x !in multiset(a) && x !in multiset(b) {
        assert x in a <==> x in multiset(a);
        assert x in b <==> x in multiset(b);
      }
      assert multiset(a) == multiset{} && multiset(b) == multiset{};
    } else {
      HeadAndTail(a, descending);
      HeadAndTail(b, descending);
      assert a[0] in a && b[0] in b;
      assert a[0] == b[0];
      OrderedUnique(a[1..], b[1..], descending);
      assert a == [a[0]] + a[1..] && b == [b[0]] + b[1..];
    }
  }
}
