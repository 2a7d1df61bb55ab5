/** Integer interpolation of daily values in two stages: between known days, and within a day. */
module Interpolation {
  import opened Options

  /** Division that truncates towards zero. */
  function Quo(a: int, b: int): int
    requires b != 0
  {
    if a >= 0 then a / b else -(-a / b)
  }

  /** The last known day up to i, or day 0. */
  function PrevKnown(values: seq<int>, i: nat): (f: nat)
    requires i < |values|
    ensures f <= i && (f > 0 ==> values[f] >= 0) && forall k :: f < k <= i ==> values[k] < 0
  {
    if i == 0 || values[i] >= 0 then i else PrevKnown(values, i - 1)
  }

  /** The first known day from i on; None if the scan leaves the array. */
  function NextKnown(values: seq<int>, i: nat): (l: Option<nat>)
    ensures l.Some? ==> i <= l.value < |values| && values[l.value] >= 0 && forall k :: i <= k < l.value ==> values[k] < 0
    ensures l.None? ==> forall k :: i <= k < |values| ==> values[k] < 0
    decreases |values| - i
  {
    if i >= |values| then None else if values[i] >= 0 then Some(i) else NextKnown(values, i + 1)
  }

  /** A value k n-ths of the way from a to b. */
  function Between(a: int, b: int, k: int, n: int): int
    requires n != 0
  {
    a + Quo((b - a) * k, n)
  }

  /** getIndex; None is a run-time panic. */
  function IndexValue(values: seq<int>, i: int): Option<int>
  {
    if i < 0 || i >= |values| then Some(-2)
    else if values[i] >= 0 then Some(values[i])
    else if i == 0 then None
    else
      var l, f := NextKnown(values, i), PrevKnown(values, i);
      if l.None? then None
      else Some(Between(values[f], values[l.value], i - f, l.value - f))
  }

  /** GetValue. */
  function Value(values: seq<int>, ppv: int, index: int): Option<int>
  {
    if ppv == 0 then None
    else
      var floor := Quo(index, ppv);
      if floor < 0 || floor >= |values| + 1 then Some(-1)
      else
        var this', next := IndexValue(values, floor), IndexValue(values, floor + 1);
        if this'.None? || next.None? then None
        else Some(Between(this'.value, next.value, index - floor * ppv, ppv))
  }

  /** The two scans from an unknown day. Scanning past the end panics, as does a division by zero. */
  method GetIndex(values: seq<int>, index: int) returns (r: Option<int>)
    ensures r == IndexValue(values, index)
  {
    if index < 0 || index >= |values| {
      return Some(-2);
    }
    if values[index] >= 0 {
      return Some(values[index]);
    }
    var firstDay := index;
    while firstDay > 0 && values[firstDay] < 0
      invariant 0 <= firstDay <= index
      invariant PrevKnown(values, firstDay) == PrevKnown(values, index)
    {
      firstDay := firstDay - 1;
    }
    var lastDay := index;
    while lastDay > 0 && lastDay < |values| && values[lastDay] < 0
      invariant index <= lastDay <= |values|
      invariant NextKnown(values, lastDay) == NextKnown(values, index)
      invariant index == 0 ==> lastDay == 0
      decreases |values| - lastDay
    {
      lastDay := lastDay + 1;
    }
    if lastDay == |values| || lastDay == firstDay {
      return None;
    }
    r := Some(values[firstDay] + Quo((values[lastDay] - values[firstDay]) * (index - firstDay), lastDay - firstDay));
  }

  method GetValue(values: seq<int>, ppv: int, index: int) returns (r: Option<int>)
    ensures r == Value(values, ppv, index)
  {
    if ppv == 0 {
      return None;
    }
    var floor := Quo(index, ppv);
    if floor < 0 || floor >= |values| + 1 {
      return Some(-1);
    }
    var part := index - floor * ppv;
    var a := GetIndex(values, floor);
    if a.None? {
      return None;
    }
    var b := GetIndex(values, floor + 1);
    if b.None? {
      return None;
    }
    r := Some(a.value + Quo((b.value - a.value) * part, ppv));
  }

  // ----- Arithmetic -------------------------------------------------------------------------------------

  lemma ProductMonotone(a: int, k: int, m: int)
    requires a >= 0 && k <= m
    ensures a * k <= a * m && k * a <= m * a
  {
    assert a * m - a * k == a * (m - k);
  }

  lemma DivMonotone(x: int, y: int, n: int)
    requires n > 0 && x <= y
    ensures x / n <= y / n
  {
    var p, q := x / n, y / n;
    assert x == p * n + x % n && y == q * n + y % n;
    if p > q {
      ProductMonotone(n, q + 1, p);
    }
  }

  lemma DivExact(b: int, n: int)
    requires n > 0
    ensures b * n / n == b
  {
    var x := b * n / n;
    assert b * n == x * n + b * n % n;
    assert (b - x) * n == b * n % n;
    if b > x { ProductMonotone(n, 1, b - x); }
    if b < x { ProductMonotone(n, b - x, -1); }
  }

  lemma BetweenMonotone(a: int, b: int, k: int, m: int, n: int)
    requires a <= b && 0 <= k <= m <= n && n > 0
    ensures a <= Between(a, b, k, n) <= Between(a, b, m, n) <= b
    ensures Between(a, b, 0, n) == a && Between(a, b, n, n) == b
  {
    ProductMonotone(b - a, 0, k);
    ProductMonotone(b - a, k, m);
    ProductMonotone(b - a, m, n);
    DivMonotone(0, (b - a) * k, n);
    DivMonotone((b - a) * k, (b - a) * m, n);
    DivMonotone((b - a) * m, (b - a) * n, n);
    DivExact(b - a, n);
    DivExact(0, n);
  }

  /** r is the value k n-ths of the way from a to b, rounded towards a. */
  predicate RoundedTowards(a: int, b: int, k: int, n: int, r: int)
  {
    if a <= b then n * (r - a) <= (b - a) * k < n * (r - a + 1)
    else n * (a - r) <= (a - b) * k < n * (a - r + 1)
  }

  lemma DivBounds(x: int, n: int)
    requires n > 0
    ensures n * (x / n) <= x < n * (x / n + 1)
  {
    assert x == n * (x / n) + x % n;
    assert n * (x / n + 1) == n * (x / n) + n;
  }

  lemma BetweenRounds(a: int, b: int, k: int, n: int)
    requires 0 <= k && n > 0
    ensures RoundedTowards(a, b, k, n, Between(a, b, k, n))
  {
    if a <= b {
      ProductMonotone(b - a, 0, k);
      DivBounds((b - a) * k, n);
    } else {
      ProductMonotone(a - b, 0, k);
      assert (b - a) * k == -((a - b) * k);
      DivBounds((a - b) * k, n);
      ZeroDiv((b - a) * k, n);
    }
  }

  lemma ZeroDiv(x: int, n: int)
    requires n > 0 && x <= 0
    ensures Quo(x, n) == -(-x / n)
  {
    if x == 0 { SmallDiv(0, n); }
  }

  // ----- Between known days ------------------------------------------------------------------------------

  /** The first and the last day are known, and known values do not decrease. */
  predicate Growing(values: seq<int>)
  {
    && |values| > 0 && values[0] >= 0 && values[|values| - 1] >= 0
    && forall i, j :: 0 <= i <= j < |values| && values[i] >= 0 && values[j] >= 0 ==> values[i] <= values[j]
  }

  /** getIndex panics exactly on an unknown day that is day 0 or has no known day after it. */
  lemma IndexPanics(values: seq<int>, i: int)
    ensures IndexValue(values, i).None? <==>
      0 <= i < |values| && values[i] < 0 && (i == 0 || forall k :: i < k < |values| ==> values[k] < 0)
  {
  }

  /** The value of an unknown day: on the line between the known days around it, where day 0 counts as
      known, and rounded towards the earlier one. */
  lemma IndexRounds(values: seq<int>, i: nat)
    requires i < |values| && values[i] < 0 && IndexValue(values, i).Some?
    ensures NextKnown(values, i).Some? && PrevKnown(values, i) < NextKnown(values, i).value
    ensures var f, l := PrevKnown(values, i), NextKnown(values, i).value;
      RoundedTowards(values[f], values[l], i - f, l - f, IndexValue(values, i).value)
  {
    var f, l := PrevKnown(values, i), NextKnown(values, i).value;
    BetweenRounds(values[f], values[l], i - f, l - f);
  }

  function Day(values: seq<int>, i: nat): int
    requires Growing(values) && i < |values|
  {
    IndexPanics(values, i);
    IndexValue(values, i).value
  }

  /** A day's value lies between those of the known days around it. */
  lemma DayBounds(values: seq<int>, i: nat)
    requires Growing(values) && i < |values|
    ensures NextKnown(values, i).Some?
    ensures 0 <= values[PrevKnown(values, i)] <= Day(values, i) <= values[NextKnown(values, i).value]
  {
    var l, f := NextKnown(values, i), PrevKnown(values, i);
    if values[i] < 0 {
      BetweenMonotone(values[f], values[l.value], i - f, i - f, l.value - f);
    }
  }

  lemma DayStep(values: seq<int>, i: nat)
    requires Growing(values) && i + 1 < |values|
    ensures Day(values, i) <= Day(values, i + 1)
  {
    DayBounds(values, i);
    DayBounds(values, i + 1);
    if values[i + 1] < 0 && values[i] < 0 {
      SameGap(values, i);
    }
  }

  /** Two neighbouring unknown days lie between the same known days. */
  lemma SameGap(values: seq<int>, i: nat)
    requires Growing(values) && i + 1 < |values| && values[i] < 0 && values[i + 1] < 0
    ensures Day(values, i) <= Day(values, i + 1)
  {
    DayBounds(values, i);
    var f, l := PrevKnown(values, i), NextKnown(values, i).value;
    assert PrevKnown(values, i + 1) == f && NextKnown(values, i + 1) == Some(l);
    BetweenMonotone(values[f], values[l], i - f, i + 1 - f, l - f);
  }

  lemma {:induction false} DayMonotone(values: seq<int>, i: nat, j: nat)
    requires Growing(values) && i <= j < |values|
    ensures Day(values, i) <= Day(values, j)
  {
    if i < j {
      DayMonotone(values, i, j - 1);
      DayStep(values, j - 1);
    }
  }

  // ----- Within a day ------------------------------------------------------------------------------------------

  lemma FloorOf(f: int, p: int, ppv: int)
    requires 0 <= p < ppv && f >= 0
    ensures f * ppv + p >= 0 && Quo(f * ppv + p, ppv) == f
  {
    var x := f * ppv + p;
    ProductMonotone(ppv, 0, f);
    assert ppv * f == f * ppv;
    var q := x / ppv;
    assert x == q * ppv + x % ppv;
    assert (f - q) * ppv == x % ppv - p;
    if f > q { ProductMonotone(ppv, 1, f - q); }
    if f < q { ProductMonotone(ppv, f - q, -1); }
  }

  /** p of ppv parts into day f. */
  lemma ValueWithin(values: seq<int>, ppv: int, f: nat, p: int)
    requires Growing(values) && f + 1 < |values| && 0 <= p < ppv
    ensures Value(values, ppv, f * ppv + p) == Some(Between(Day(values, f), Day(values, f + 1), p, ppv))
  {
    FloorOf(f, p, ppv);
    IndexPanics(values, f);
    IndexPanics(values, f + 1);
  }

  /** p of ppv parts into day f, in or just past the table: on the line to the next day, rounded towards
      day f. It panics exactly if one of the two days does. */
  lemma ValueRounds(values: seq<int>, ppv: int, f: nat, p: int)
    requires f <= |values| && 0 <= p < ppv
    ensures var r, a, b := Value(values, ppv, f * ppv + p), IndexValue(values, f), IndexValue(values, f + 1);
      && (r.None? <==> a.None? || b.None?)
      && (r.Some? ==> RoundedTowards(a.value, b.value, p, ppv, r.value))
  {
    FloorOf(f, p, ppv);
    var a, b := IndexValue(values, f), IndexValue(values, f + 1);
    if a.Some? && b.Some? { BetweenRounds(a.value, b.value, p, ppv); }
  }

  /** Beyond that the value is -1, on both sides; up to one day before the table the first line is
      continued backwards. */
  lemma ValueOutside(values: seq<int>, ppv: int, index: int)
    requires ppv > 0
    ensures index <= -ppv || index >= (|values| + 1) * ppv ==> Value(values, ppv, index) == Some(-1)
    ensures -ppv < index < 0 && IndexValue(values, 0).Some? && IndexValue(values, 1).Some? ==>
      var a, b, r := IndexValue(values, 0).value, IndexValue(values, 1).value, Value(values, ppv, index);
      r.Some? && RoundedTowards(a, 2 * a - b, -index, ppv, r.value)
  {
    if index <= -ppv {
      DivMonotone(ppv, -index, ppv);
      DivExact(1, ppv);
    } else if index < 0 {
      SmallDiv(-index, ppv);
      assert Quo(index, ppv) == 0;
      if IndexValue(values, 0).Some? && IndexValue(values, 1).Some? {
        var a, b := IndexValue(values, 0).value, IndexValue(values, 1).value;
        BetweenRounds(a, 2 * a - b, -index, ppv);
        assert (2 * a - b - a) * (-index) == (b - a) * index;
      }
    } else if index >= (|values| + 1) * ppv {
      DivMonotone((|values| + 1) * ppv, index, ppv);
      DivExact(|values| + 1, ppv);
    }
  }

  /** On every day the value is that day's: on a known day the known one. */
  lemma ValueOnDay(values: seq<int>, ppv: int, d: nat)
    requires Growing(values) && d < |values| && ppv > 0
    ensures Value(values, ppv, d * ppv) == Some(Day(values, d))
    ensures values[d] >= 0 ==> Value(values, ppv, d * ppv) == Some(values[d])
  {
    FloorOf(d, 0, ppv);
    IndexPanics(values, d);
    IndexPanics(values, d + 1);
    assert d * ppv - d * ppv == 0;
    if d + 1 < |values| {
      NoPart(Day(values, d), Day(values, d + 1), ppv);
    } else {
      NoPart(Day(values, d), -2, ppv);
    }
  }

  lemma NoPart(a: int, b: int, n: int)
    requires n > 0
    ensures Between(a, b, 0, n) == a
  {
    assert (b - a) * 0 == 0;
    SmallDiv(0, n);
  }

  predicate Ordered(a: Option<int>, b: Option<int>)
  {
    a.Some? && b.Some? && 0 <= a.value <= b.value
  }

  /** g is GetValue; the trigger keeps its definition out of sight. */
  ghost predicate IsValue(g: int -> Option<int>, values: seq<int>, ppv: int)
  {
    forall k {:trigger Value(values, ppv, k)} :: g(k) == Value(values, ppv, k)
  }

  ghost predicate Line(g: int -> Option<int>, start: int, a: int, b: int, ppv: int)
    requires ppv > 0
  {
    && 0 <= a <= b && g(start + ppv) == Some(b)
    && forall p :: 0 <= p < ppv ==> g(start + p) == Some(Between(a, b, p, ppv))
  }

  /** Within a day the values follow a line to the next day's value. */
  lemma DayLine(g: int -> Option<int>, values: seq<int>, ppv: int, f: nat, start: int) returns (a: int, b: int)
    requires IsValue(g, values, ppv) && Growing(values) && f + 1 < |values| && ppv > 0 && start == f * ppv
    ensures Line(g, start, a, b, ppv)
  {
    a, b := Day(values, f), Day(values, f + 1);
    DayBounds(values, f);
    DayStep(values, f);
    forall p | 0 <= p < ppv ensures g(start + p) == Some(Between(a, b, p, ppv)) {
      ValueWithin(values, ppv, f, p);
    }
    NextDay(g, values, ppv, f, start);
  }

  lemma NextDay(g: int -> Option<int>, values: seq<int>, ppv: int, f: nat, start: int)
    requires IsValue(g, values, ppv) && Growing(values) && f + 1 < |values| && ppv > 0 && start == f * ppv
    ensures g(start + ppv) == Some(Day(values, f + 1))
  {
    var k := (f + 1) * ppv;
    assert k == start + ppv;
    ValueOnDay(values, ppv, f + 1);
    assert g(k) == Value(values, ppv, k);
  }

  lemma LineStep(g: int -> Option<int>, start: int, a: int, b: int, p: int, ppv: int)
    requires 0 <= p < ppv && Line(g, start, a, b, ppv)
    ensures Ordered(g(start + p), g(start + p + 1))
  {
    BetweenMonotone(a, b, p, p + 1, ppv);
    var q := p + 1;
    assert start + p + 1 == start + q;
    if q < ppv { assert g(start + q) == Some(Between(a, b, q, ppv)); }
  }

  lemma SplitIndex(x: int, ppv: int, days: nat) returns (f: nat, p: int)
    requires 0 <= x < (days - 1) * ppv && ppv > 0
    ensures x == f * ppv + p && 0 <= p < ppv && f + 1 < days
  {
    f, p := x / ppv, x % ppv;
    if f >= days - 1 {
      ProductMonotone(ppv, days - 1, f);
    }
  }

  lemma {:induction false} StepsAddUp(g: int -> Option<int>, x: int, y: int)
    requires x <= y && Ordered(g(x), g(x)) && forall k :: x <= k < y ==> Ordered(g(k), g(k + 1))
    ensures Ordered(g(x), g(y))
    decreases y - x
  {
    if x < y {
      StepsAddUp(g, x, y - 1);
      assert Ordered(g(y - 1), g(y - 1 + 1));
    }
  }

  lemma ValueNext(g: int -> Option<int>, values: seq<int>, ppv: int, k: int)
    requires IsValue(g, values, ppv) && Growing(values) && ppv > 0 && 0 <= k < (|values| - 1) * ppv
    ensures Ordered(g(k), g(k + 1))
  {
    var f, p := SplitIndex(k, ppv, |values|);
    var a, b := DayLine(g, values, ppv, f, f * ppv);
    LineStep(g, f * ppv, a, b, p, ppv);
  }

  lemma ValueDefined(g: int -> Option<int>, values: seq<int>, ppv: int, k: int)
    requires IsValue(g, values, ppv) && Growing(values) && ppv > 0 && 0 <= k <= (|values| - 1) * ppv
    ensures Ordered(g(k), g(k))
  {
    if k < (|values| - 1) * ppv {
      ValueNext(g, values, ppv, k);
    } else {
      ValueOnDay(values, ppv, |values| - 1);
      assert g(k) == Value(values, ppv, k);
    }
  }

  lemma ValuesOrdered(g: int -> Option<int>, values: seq<int>, ppv: int, x: int, y: int)
    requires IsValue(g, values, ppv) && Growing(values) && ppv > 0 && 0 <= x <= y <= (|values| - 1) * ppv
    ensures Ordered(g(x), g(y))
  {
    ValueDefined(g, values, ppv, x);
    forall k | x <= k < y ensures Ordered(g(k), g(k + 1)) {
      ValueNext(g, values, ppv, k);
    }
    StepsAddUp(g, x, y);
  }

  /** No panic, and no decrease, from the first day to the last. */
  lemma ValueMonotone(values: seq<int>, ppv: int, x: int, y: int)
    requires Growing(values) && ppv > 0 && 0 <= x <= y <= (|values| - 1) * ppv
    ensures Ordered(Value(values, ppv, x), Value(values, ppv, y))
  {
    var g := (k: int) => Value(values, ppv, k);
    ValuesOrdered(g, values, ppv, x, y);
  }

  /**
    * Past the last day the value falls towards -2: p parts on it still is the last value exactly when
    * (last + 2) * p < ppv, and it is smaller otherwise.
    */
  lemma PastTheEnd(values: seq<int>, ppv: int, p: int)
    requires Growing(values) && 0 <= p < ppv
    ensures var last, r := values[|values| - 1], Value(values, ppv, (|values| - 1) * ppv + p);
      r.Some? && r.value <= last && (r.value == last <==> (last + 2) * p < ppv)
  {
    var last := values[|values| - 1];
    FloorOf(|values| - 1, p, ppv);
    var x := (last + 2) * p;
    assert (-2 - last) * p == -x;
    ProductMonotone(last + 2, 0, p);
    DivMonotone(0, x, ppv);
    DivExact(0, ppv);
    DivExact(1, ppv);
    if x >= ppv { DivMonotone(ppv, x, ppv); } else { SmallDiv(x, ppv); }
    SmallDiv(0, ppv);
  }

  lemma SmallDiv(x: int, n: int)
    requires 0 <= x < n
    ensures x / n == 0
  {
  }

  /** One day further the value is -2. */
  lemma AfterTheEnd(values: seq<int>, ppv: int)
    requires Growing(values) && ppv > 0
    ensures Value(values, ppv, |values| * ppv) == Some(-2)
  {
    FloorOf(|values|, 0, ppv);
    DivExact(0, ppv);
  }
}
