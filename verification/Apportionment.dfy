/** Largest-remainder apportionment of cells among permille weights
    (`apportion` in the layout resolver). */
module Apportionment {
  import opened Widths
  import opened Ranking

  function Sum(s: seq<nat>): nat {
    if s == [] then 0 else Sum(s[..|s| - 1]) + s[|s| - 1]
  }

  /** The divisor the code uses: the ratio sum, but never zero. */
  function Divisor(ratios: seq<nat>): (d: nat)
    ensures d > 0
  {
    if Sum(ratios) == 0 then 1 else Sum(ratios)
  }

  /** `x / d`, by repeated subtraction (`DivMod` equates it with the operator): a
      proof that mentions a quota then does not have to reason about division. */
  function Quotient(x: nat, d: nat): nat
    requires d > 0
  {
    if x < d then 0 else 1 + Quotient(x - d, d)
  }

  /** `x % d`, likewise. */
  function Remainder(x: nat, d: nat): nat
    requires d > 0
  {
    if x < d then x else Remainder(x - d, d)
  }

  /** Each child's quota `ratio * total / d`, rounded down. */
  function Floors(total: nat, ratios: seq<nat>, d: nat): (fs: seq<nat>)
    requires d > 0
    ensures |fs| == |ratios|
  {
    if ratios == [] then []
    else Floors(total, ratios[..|ratios| - 1], d) + [Quotient(ratios[|ratios| - 1] * total, d)]
  }

  /** What rounding down cuts off each quota, in units of `1/d`. */
  function Remainders(total: nat, ratios: seq<nat>, d: nat): (rs: seq<nat>)
    requires d > 0
    ensures |rs| == |ratios|
  {
    if ratios == [] then []
    else Remainders(total, ratios[..|ratios| - 1], d) + [Remainder(ratios[|ratios| - 1] * total, d)]
  }

  /** One more cell for each of the first `left` indices of `order`. */
  function Bump(alloc: seq<nat>, order: seq<nat>, left: nat): (r: seq<nat>)
    requires forall k :: 0 <= k < |order| ==> order[k] < |alloc|
    ensures |r| == |alloc|
    decreases |order|
  {
    if left == 0 || order == [] then alloc
    else Bump(alloc[order[0] := alloc[order[0]] + 1], order[1..], left - 1)
  }

  /** What `apportion` computes. */
  function Alloc(total: nat, ratios: seq<nat>): (r: seq<nat>)
    ensures |r| == |ratios|
  {
    var d := Divisor(ratios);
    var fs := Floors(total, ratios, d);
    var rems := Remainders(total, ratios, d);
    Bump(fs, Order(rems, |rems|), SatSub(total, Sum(fs)))
  }

  // ----- sums

  lemma {:induction false} SumPrefix(s: seq<nat>, i: nat)
    requires i < |s|
    ensures Sum(s[..i + 1]) == Sum(s[..i]) + s[i]
  {
    assert s[..i + 1][..i] == s[..i];
  }

  lemma {:induction false} SumUpdate(s: seq<nat>, i: nat, v: nat)
    requires i < |s|
    ensures Sum(s[i := v]) + s[i] == Sum(s) + v
  {
    var n := |s| - 1;
    if i == n {
      assert s[i := v][..n] == s[..n];
    } else {
      assert s[i := v][..n] == s[..n][i := v];
      SumUpdate(s[..n], i, v);
    }
  }

  /** Pointwise bounds add up; equal sums with pointwise `<=` mean equal vectors. */
  lemma {:induction false} SumPointwise(a: seq<nat>, b: seq<nat>)
    requires |a| == |b| && forall i :: 0 <= i < |a| ==> a[i] <= b[i]
    ensures Sum(a) <= Sum(b)
    ensures Sum(a) == Sum(b) ==> a == b
  {
    if a != [] {
      var n := |a| - 1;
      SumPointwise(a[..n], b[..n]);
      assert a == a[..n] + [a[n]] && b == b[..n] + [b[n]];
    }
  }

  lemma SumTimes(a: seq<nat>, b: seq<nat>, c: nat)
    requires |a| == |b| && forall i :: 0 <= i < |a| ==> a[i] <= c * b[i]
    ensures Sum(a) <= c * Sum(b)
  {
    var cb := seq(|b|, i requires 0 <= i < |b| => c * b[i]);
    SumScaled(b, cb, c);
    SumPointwise(a, cb);
  }

  lemma {:induction false} SumScaled(s: seq<nat>, scaled: seq<nat>, k: nat)
    requires |scaled| == |s| && forall i :: 0 <= i < |s| ==> scaled[i] == k * s[i]
    ensures Sum(scaled) == k * Sum(s)
  {
    if s != [] {
      var n := |s| - 1;
      SumScaled(s[..n], scaled[..n], k);
      assert k * Sum(s) == k * Sum(s[..n]) + k * s[n];
    }
  }

  lemma {:induction false} DivMod(x: nat, d: nat)
    requires d > 0
    ensures x == d * Quotient(x, d) + Remainder(x, d) && Remainder(x, d) < d
    ensures x / d == Quotient(x, d) && x % d == Remainder(x, d)
  {
    SubtractionWorks(x, d);
    DivModUnique(x, d, Quotient(x, d), Remainder(x, d));
  }

  lemma {:induction false} SubtractionWorks(x: nat, d: nat)
    requires d > 0
    ensures x == d * Quotient(x, d) + Remainder(x, d) && Remainder(x, d) < d
  {
    if x >= d {
      SubtractionWorks(x - d, d);
      Distribute(d, Quotient(x - d, d), 1);
    }
  }

  lemma DivModUnique(x: nat, d: nat, q: nat, r: nat)
    requires d > 0 && x == d * q + r && r < d
    ensures x / d == q && x % d == r
  {
    var q', r' := x / d, x % d;
    assert x == d * q' + r' && 0 <= r' < d;
    if q > q' { MulMonotone(d, q', q); assert false; }
    if q < q' { MulMonotone(d, q, q'); assert false; }
  }

  lemma QuotientSmaller(x: nat, d: nat)
    requires d > 0
    ensures 0 <= x / d <= x
  {
    DivMod(x, d);
    QuotientBound(x, d);
  }

  lemma {:induction false} QuotientBound(x: nat, d: nat)
    requires d > 0
    ensures Quotient(x, d) <= x
  {
    if x >= d { QuotientBound(x - d, d); }
  }

  lemma {:induction false} QuotaAt(total: nat, ratios: seq<nat>, d: nat, i: nat)
    requires d > 0 && i < |ratios|
    ensures Floors(total, ratios, d)[i] == Quotient(ratios[i] * total, d)
    ensures Remainders(total, ratios, d)[i] == Remainder(ratios[i] * total, d)
    ensures ratios[i] * total == d * Floors(total, ratios, d)[i] + Remainders(total, ratios, d)[i]
    ensures Remainders(total, ratios, d)[i] < d
  {
    var n := |ratios| - 1;
    if i == n {
      DivMod(ratios[i] * total, d);
    } else {
      QuotaAt(total, ratios[..n], d, i);
    }
  }

  /** The exact quotas add up to `total`: whole parts and remainders account for
      every cell. */
  lemma {:induction false} QuotasAddUp(total: nat, ratios: seq<nat>, d: nat)
    requires d > 0
    ensures d * Sum(Floors(total, ratios, d)) + Sum(Remainders(total, ratios, d)) == total * Sum(ratios)
  {
    if ratios != [] {
      var n := |ratios| - 1;
      var fs, rs := Floors(total, ratios, d), Remainders(total, ratios, d);
      QuotasAddUp(total, ratios[..n], d);
      assert fs[..n] == Floors(total, ratios[..n], d);
      assert rs[..n] == Remainders(total, ratios[..n], d);
      QuotaAt(total, ratios, d, n);
      Distribute(d, Sum(fs[..n]), fs[n]);
      Distribute(total, Sum(ratios[..n]), ratios[n]);
    }
  }

  lemma Distribute(d: int, x: int, y: int)
    ensures d * (x + y) == d * x + d * y
    ensures d * (x - y) == d * x - d * y
  {}

  lemma Commute(x: int, y: int)
    ensures x * y == y * x
  {}

  lemma Associate(x: int, y: int, z: int)
    ensures x * y * z == x * (y * z)
  {}

  lemma MulMonotone(d: nat, x: int, y: int)
    requires x <= y
    ensures d * x <= d * y
    ensures d > 0 && x < y ==> d * x + d <= d * y
  {
    Distribute(d, x, y - x);
    if x < y {
      Distribute(d, 1, y - x - 1);
    }
  }

  // ----- bumping

  lemma {:induction false} BumpSum(alloc: seq<nat>, order: seq<nat>, left: nat)
    requires forall k :: 0 <= k < |order| ==> order[k] < |alloc|
    ensures Sum(Bump(alloc, order, left)) == Sum(alloc) + Min(left, |order|)
    decreases |order|
  {
    if left > 0 && order != [] {
      SumUpdate(alloc, order[0], alloc[order[0]] + 1);
      BumpSum(alloc[order[0] := alloc[order[0]] + 1], order[1..], left - 1);
    }
  }

  lemma {:induction false} BumpAt(alloc: seq<nat>, order: seq<nat>, left: nat, i: nat)
    requires forall k :: 0 <= k < |order| ==> order[k] < |alloc|
    requires forall k, m :: 0 <= k < m < |order| ==> order[k] != order[m]
    requires i < |alloc|
    ensures i !in order ==> Bump(alloc, order, left)[i] == alloc[i]
    ensures forall k :: 0 <= k < |order| && order[k] == i ==>
      Bump(alloc, order, left)[i] == alloc[i] + (if k < left then 1 else 0)
    decreases |order|
  {
    if left > 0 && order != [] {
      BumpAt(alloc[order[0] := alloc[order[0]] + 1], order[1..], left - 1, i);
      forall k | 0 <= k < |order| && order[k] == i
        ensures Bump(alloc, order, left)[i] == alloc[i] + (if k < left then 1 else 0)
      {
        if k > 0 { assert order[1..][k - 1] == i && order[0] != i; }
      }
    }
  }

  // ----- the largest-remainder rule, stated without the algorithm

  /** `a` shares `total` by the largest-remainder rule: every part is its quota
      rounded down or one more, the parts sum to `total`, and whoever is rounded
      up comes before whoever is not. */
  ghost predicate LargestRemainder(total: nat, ratios: seq<nat>, a: seq<nat>) {
    var d := Divisor(ratios);
    var fs, rems := Floors(total, ratios, d), Remainders(total, ratios, d);
    && |a| == |ratios|
    && Sum(a) == total
    && (forall i :: 0 <= i < |a| ==> fs[i] <= a[i] <= fs[i] + 1)
    && (forall i, j :: 0 <= i < |a| && 0 <= j < |a| && a[i] == fs[i] + 1 && a[j] == fs[j]
          ==> Before(rems, i, j))
  }

  /** The order in which leftover cells are handed out. */
  function RoundOrder(total: nat, ratios: seq<nat>): (r: seq<nat>)
    ensures |r| == |ratios|
  {
    var rems := Remainders(total, ratios, Divisor(ratios));
    Order(rems, |rems|)
  }

  function Leftover(total: nat, ratios: seq<nat>): nat {
    SatSub(total, Sum(Floors(total, ratios, Divisor(ratios))))
  }

  /** A part is one above its floor exactly if its place in the order is below the leftover. */
  lemma RoundedAt(total: nat, ratios: seq<nat>, i: nat) returns (k: nat)
    requires i < |ratios|
    ensures k < |ratios| && RoundOrder(total, ratios)[k] == i
    ensures Alloc(total, ratios)[i]
         == Floors(total, ratios, Divisor(ratios))[i] + (if k < Leftover(total, ratios) then 1 else 0)
  {
    hide Floors, Remainders, Order, Sum, Bump;
    var d := Divisor(ratios);
    var fs, rems := Floors(total, ratios, d), Remainders(total, ratios, d);
    var order := Order(rems, |rems|);
    assert i in order;
    k :| 0 <= k < |order| && order[k] == i;
    OrderDistinct(rems, order);
    BumpAt(fs, order, SatSub(total, Sum(fs)), i);
  }

  /** Whoever is rounded up comes before whoever is not. */
  lemma RoundedBefore(total: nat, ratios: seq<nat>, i: nat, j: nat)
    requires i < |ratios| && j < |ratios|
    requires var fs := Floors(total, ratios, Divisor(ratios));
      Alloc(total, ratios)[i] == fs[i] + 1 && Alloc(total, ratios)[j] == fs[j]
    ensures Before(Remainders(total, ratios, Divisor(ratios)), i, j)
  {
    hide Floors, Remainders, Order, Sum, Alloc, Before;
    var k := RoundedAt(total, ratios, i);
    var m := RoundedAt(total, ratios, j);
    assert k < m;
  }

  /** How the code rounds, whatever the ratios are. */
  lemma RoundedInOrder(total: nat, ratios: seq<nat>)
    ensures var fs := Floors(total, ratios, Divisor(ratios));
      forall i :: 0 <= i < |ratios| ==> fs[i] <= Alloc(total, ratios)[i] <= fs[i] + 1
    ensures var fs := Floors(total, ratios, Divisor(ratios));
      forall i, j :: 0 <= i < |ratios| && 0 <= j < |ratios|
        && Alloc(total, ratios)[i] == fs[i] + 1 && Alloc(total, ratios)[j] == fs[j]
        ==> Before(Remainders(total, ratios, Divisor(ratios)), i, j)
  {
    hide Floors, Remainders, Order, Sum, Alloc, Before;
    var fs, a := Floors(total, ratios, Divisor(ratios)), Alloc(total, ratios);
    forall i | 0 <= i < |ratios| ensures fs[i] <= a[i] <= fs[i] + 1 {
      var k := RoundedAt(total, ratios, i);
    }
    forall i, j | 0 <= i < |ratios| && 0 <= j < |ratios| && a[i] == fs[i] + 1 && a[j] == fs[j]
      ensures Before(Remainders(total, ratios, Divisor(ratios)), i, j)
    {
      RoundedBefore(total, ratios, i, j);
    }
  }

  lemma RoundedByRank(total: nat, ratios: seq<nat>, i: nat)
    requires i < |ratios|
    ensures var d := Divisor(ratios);
      Alloc(total, ratios)[i] == Floors(total, ratios, d)[i]
        + (if Rank(Remainders(total, ratios, d), i) < Leftover(total, ratios) then 1 else 0)
  {
    hide Floors, Remainders, Order, Sum, Alloc, Before, Leftover;
    var k := RoundedAt(total, ratios, i);
    var rems := Remainders(total, ratios, Divisor(ratios));
    PlaceIsRank(rems, Order(rems, |rems|), k);
  }

  /** A part gets at least `m` cells exactly if its quota reaches `m`, or reaches `m - 1` and fewer
      parts than there are leftover cells have a larger remainder. */
  lemma AtLeastIff(total: nat, ratios: seq<nat>, i: nat, m: nat)
    requires Sum(ratios) > 0 && i < |ratios| && m > 0
    ensures Alloc(total, ratios)[i] >= m <==> QuotaReaches(total, ratios, i, m)
  {
    hide Floors, Remainders, Sum, Alloc, Rank, Leftover;
    var d := Sum(ratios);
    var q := Floors(total, ratios, d)[i];
    RoundedByRank(total, ratios, i);
    QuotaAt(total, ratios, d, i);
    if q >= m {
      MulMonotone(d, m, q);
    } else {
      MulMonotone(d, q + 1, m);
      Distribute(d, q, 1);
      if q == m - 1 {} else { MulMonotone(d, q + 1, m - 1); }
    }
  }

  predicate QuotaReaches(total: nat, ratios: seq<nat>, i: nat, m: nat)
    requires Sum(ratios) > 0 && i < |ratios| && m > 0
  {
    var d, x := Sum(ratios), ratios[i] * total;
    || d * m <= x
    || (d * (m - 1) <= x && Rank(Remainders(total, ratios, d), i) < Leftover(total, ratios))
  }

  lemma LeftoverBound(total: nat, ratios: seq<nat>)
    requires Sum(ratios) > 0
    ensures var d := Sum(ratios);
      var fs, rems := Floors(total, ratios, d), Remainders(total, ratios, d);
      && d * (total - Sum(fs)) == Sum(rems)
      && 0 <= total - Sum(fs) < |ratios|
  {
    hide Floors, Remainders, Sum;
    var d, n := Sum(ratios), |ratios|;
    var fs, rems := Floors(total, ratios, d), Remainders(total, ratios, d);
    SomeRatio(ratios);
    QuotasAddUp(total, ratios, d);
    Distribute(d, total, Sum(fs));
    var ones := seq(n, _ => 1);
    SumOnes(n);
    forall i | 0 <= i < n ensures rems[i] <= (d - 1) * ones[i] {
      QuotaAt(total, ratios, d, i);
    }
    SumTimes(rems, ones, d - 1);
    FewerThan(d, total - Sum(fs), n);
  }

  lemma FewerThan(d: nat, left: int, n: nat)
    requires d > 0 && n > 0 && 0 <= d * left <= (d - 1) * n
    ensures 0 <= left < n
  {
    Distribute(n, d, 1);
    if left >= n { MulMonotone(d, n, left); }
    if left < 0 { MulMonotone(d, left, 0); }
  }

  lemma {:induction false} SumOnes(n: nat)
    ensures Sum(seq(n, _ => 1)) == n
  {
    if n > 0 {
      assert seq(n, _ => 1)[..n - 1] == seq(n - 1, _ => 1);
      SumOnes(n - 1);
    }
  }

  lemma AllocSum(total: nat, ratios: seq<nat>)
    ensures var fs := Floors(total, ratios, Divisor(ratios));
      Sum(Alloc(total, ratios)) == Sum(fs) + Min(SatSub(total, Sum(fs)), |ratios|)
  {
    hide Floors, Remainders, Order, Sum, Bump;
    var d := Divisor(ratios);
    var fs, rems := Floors(total, ratios, d), Remainders(total, ratios, d);
    BumpSum(fs, Order(rems, |rems|), SatSub(total, Sum(fs)));
  }

  /** With a positive ratio sum the code follows the largest-remainder rule. */
  lemma AllocFollowsRule(total: nat, ratios: seq<nat>)
    requires Sum(ratios) > 0
    ensures LargestRemainder(total, ratios, Alloc(total, ratios))
  {
    hide Floors, Remainders, Sum, Alloc;
    LeftoverBound(total, ratios);
    AllocSum(total, ratios);
    RoundedInOrder(total, ratios);
  }

  /** The rule has at most one outcome, so two clients can never disagree by a cell. */
  lemma RuleIsDeterministic(total: nat, ratios: seq<nat>, a: seq<nat>, b: seq<nat>)
    requires LargestRemainder(total, ratios, a) && LargestRemainder(total, ratios, b)
    ensures a == b
  {
    // Where they differ, one rounds up `j` and the other rounds up some `k` instead,
    // so each of `j` and `k` comes before the other.
    if forall j :: 0 <= j < |a| ==> a[j] <= b[j] {
      SumPointwise(a, b);
    } else if forall j :: 0 <= j < |a| ==> b[j] <= a[j] {
      SumPointwise(b, a);
    }
  }

  lemma SomeRatio(ratios: seq<nat>)
    requires Sum(ratios) > 0
    ensures ratios != []
  {}

  lemma {:induction false} SumConcat(a: seq<nat>, b: seq<nat>)
    ensures Sum(a + b) == Sum(a) + Sum(b)
  {
    if b == [] {
      assert a + b == a;
    } else {
      var n := |b| - 1;
      assert (a + b)[..|a| + n] == a + b[..n];
      SumConcat(a, b[..n]);
    }
  }

  lemma SumOfOne(a: nat)
    ensures Sum([a]) == a
  {
    assert [a][..0] == [];
  }

  lemma SumOfTwo(a: nat, b: nat)
    ensures Sum([a, b]) == a + b
  {
    assert [a, b][..1] == [a];
    SumOfOne(a);
  }

  lemma SumOfThree(a: nat, b: nat, c: nat)
    ensures Sum([a, b, c]) == a + b + c
  {
    assert [a, b, c][..2] == [a, b];
    SumOfTwo(a, b);
  }

  /** Shares worked out by hand. */
  lemma SharesAre(total: nat, d: nat, ratios: seq<nat>, fs: seq<nat>, rems: seq<nat>, a: seq<nat>)
    requires |fs| == |rems| == |a| == |ratios| && d == Sum(ratios) > 0 && Sum(a) == total
    requires forall i :: 0 <= i < |a| ==> ratios[i] * total == d * fs[i] + rems[i] && rems[i] < d
    requires forall i :: 0 <= i < |a| ==> fs[i] <= a[i] <= fs[i] + 1
    requires forall i, j :: 0 <= i < |a| && 0 <= j < |a| && a[i] == fs[i] + 1 && a[j] == fs[j] ==> Before(rems, i, j)
    ensures Alloc(total, ratios) == a
  {
    hide Sum, Alloc, Floors, Remainders;
    forall i | 0 <= i < |a|
      ensures Floors(total, ratios, d)[i] == fs[i] && Remainders(total, ratios, d)[i] == rems[i]
    {
      QuotaAt(total, ratios, d, i);
      DivMod(ratios[i] * total, d);
      DivModUnique(ratios[i] * total, d, fs[i], rems[i]);
    }
    assert Remainders(total, ratios, d) == rems && Floors(total, ratios, d) == fs;
    AllocFollowsRule(total, ratios);
    RuleIsDeterministic(total, ratios, a, Alloc(total, ratios));
  }

  /** Where every quota is whole, the shares are the quotas. */
  lemma WholeQuotas(total: nat, d: nat, ratios: seq<nat>, a: seq<nat>)
    requires |a| == |ratios| && d == Sum(ratios) > 0 && Sum(a) == total
    requires forall i :: 0 <= i < |a| ==> ratios[i] * total == d * a[i]
    ensures Alloc(total, ratios) == a
  {
    hide Sum, Alloc;
    SharesAre(total, d, ratios, a, seq(|a|, _ => 0), a);
  }

  /** The parts sum to `total` exactly when the ratios are not all zero or there
      are no more cells than children. */
  lemma ExactSumIff(total: nat, ratios: seq<nat>)
    ensures Sum(Alloc(total, ratios)) == total <==> Sum(ratios) > 0 || total <= |ratios|
  {
    hide Floors, Remainders, Sum, Alloc;
    if Sum(ratios) > 0 {
      AllocFollowsRule(total, ratios);
    } else {
      NoFloors(total, ratios);
      AllocSum(total, ratios);
    }
  }

  lemma NoFloors(total: nat, ratios: seq<nat>)
    requires Sum(ratios) == 0
    ensures Sum(Floors(total, ratios, 1)) == 0
  {
    hide Floors, Remainders, Sum;
    QuotasAddUp(total, ratios, 1);
    assert total * 0 == 0;
  }

  /** A part is rounded up only if its quota is not whole, so each part lies at the
      floor or the ceiling of its quota and a zero ratio gets no cells. */
  lemma WithinQuota(total: nat, ratios: seq<nat>, i: nat)
    requires Sum(ratios) > 0 && i < |ratios|
    ensures var a, s := Alloc(total, ratios)[i], Sum(ratios);
      a == ratios[i] * total / s || (a == ratios[i] * total / s + 1 && ratios[i] * total % s > 0)
    ensures ratios[i] == 0 ==> Alloc(total, ratios)[i] == 0
  {
    hide Floors, Remainders, Sum, Alloc;
    var d := Sum(ratios);
    var fs, rems, a := Floors(total, ratios, d), Remainders(total, ratios, d), Alloc(total, ratios);
    AllocFollowsRule(total, ratios);
    if a[i] == fs[i] + 1 && rems[i] == 0 {
      WholeQuotaStays(total, ratios, i);
      assert false;
    }
    QuotaAt(total, ratios, d, i);
    DivMod(ratios[i] * total, d);
  }

  /** Each part is less than one cell away from its exact quota. */
  lemma QuotaError(total: nat, ratios: seq<nat>, i: nat)
    requires Sum(ratios) > 0 && i < |ratios|
    ensures var a, s := Alloc(total, ratios)[i], Sum(ratios);
      ratios[i] * total - s < s * a < ratios[i] * total + s
  {
    hide Floors, Remainders, Sum, Alloc, Quotient, Remainder;
    var d := Sum(ratios);
    AllocFollowsRule(total, ratios);
    if Remainders(total, ratios, d)[i] == 0 { WholeQuotaStays(total, ratios, i); }
    QuotaAt(total, ratios, d, i);
    Distribute(d, Floors(total, ratios, d)[i], 1);
  }

  lemma WholeQuotaStays(total: nat, ratios: seq<nat>, i: nat)
    requires Sum(ratios) > 0 && i < |ratios|
    requires Remainders(total, ratios, Sum(ratios))[i] == 0
    ensures Alloc(total, ratios)[i] == Floors(total, ratios, Sum(ratios))[i]
  {
    hide Floors, Remainders, Sum, Alloc;
    var d := Sum(ratios);
    var fs, rems, a := Floors(total, ratios, d), Remainders(total, ratios, d), Alloc(total, ratios);
    AllocFollowsRule(total, ratios);
    if a[i] == fs[i] + 1 {
      // Every remainder is then paid for by a cell handed out, and cells cost `d` each.
      var up := seq(|a|, j requires 0 <= j < |a| => a[j] - fs[j]);
      forall j | 0 <= j < |a| ensures rems[j] <= (d - 1) * up[j] {
        QuotaAt(total, ratios, d, j);
        if a[j] == fs[j] { assert Before(rems, i, j); }
      }
      SumTimes(rems, up, d - 1);
      SumDifference(a, fs, up);
      LeftoverBound(total, ratios);
      Distribute(Sum(up), d, 1);
      SumPrefixBound(up, i);
      assert false;
    }
  }

  lemma {:induction false} SumDifference(a: seq<nat>, b: seq<nat>, c: seq<nat>)
    requires |a| == |b| == |c| && forall i :: 0 <= i < |a| ==> a[i] == b[i] + c[i]
    ensures Sum(a) == Sum(b) + Sum(c)
  {
    if a != [] {
      var n := |a| - 1;
      SumDifference(a[..n], b[..n], c[..n]);
    }
  }

  /** A larger ratio never gets fewer cells; equal ratios differ by at most one,
      in favour of the lower index. */
  lemma Monotone(total: nat, ratios: seq<nat>, i: nat, j: nat)
    requires Sum(ratios) > 0 && i < |ratios| && j < |ratios|
    ensures ratios[i] > ratios[j] ==> Alloc(total, ratios)[i] >= Alloc(total, ratios)[j]
    ensures ratios[i] == ratios[j] && i < j ==>
      Alloc(total, ratios)[j] <= Alloc(total, ratios)[i] <= Alloc(total, ratios)[j] + 1
  {
    hide Floors, Remainders, Sum, Alloc;
    var d := Sum(ratios);
    var fs := Floors(total, ratios, d);
    AllocFollowsRule(total, ratios);
    QuotaAt(total, ratios, d, i);
    QuotaAt(total, ratios, d, j);
    if ratios[i] > ratios[j] {
      MulMonotone(total, ratios[j], ratios[i]);
      if fs[i] < fs[j] { MulMonotone(d, fs[i], fs[j]); assert false; }
      if total == 0 { WithinQuota(total, ratios, j); }
    }
  }

  /** Scaling every ratio by a common factor changes nothing. */
  lemma ScaleInvariant(total: nat, ratios: seq<nat>, k: nat)
    requires Sum(ratios) > 0 && k > 0
    ensures Alloc(total, seq(|ratios|, i requires 0 <= i < |ratios| => k * ratios[i])) == Alloc(total, ratios)
  {
    hide Floors, Remainders, Sum, Alloc;
    var scaled := seq(|ratios|, i requires 0 <= i < |ratios| => k * ratios[i]);
    SumScaled(ratios, scaled, k);
    var d := Sum(ratios);
    MulMonotone(k, 0, d);
    var fs, rems := Floors(total, ratios, d), Remainders(total, ratios, d);
    forall i | 0 <= i < |ratios|
      ensures Floors(total, scaled, k * d)[i] == fs[i]
      ensures Remainders(total, scaled, k * d)[i] == k * rems[i]
    {
      ScaledQuota(total, ratios, scaled, d, k, i);
    }
    AllocFollowsRule(total, scaled);
    AllocFollowsRule(total, ratios);
    var a := Alloc(total, scaled);
    forall i, j | 0 <= i < |a| && 0 <= j < |a| && a[i] == fs[i] + 1 && a[j] == fs[j]
      ensures Before(rems, i, j)
    {
      assert Before(Remainders(total, scaled, k * d), i, j);
      ScaledOrder(rems[i], rems[j], k);
    }
    RuleIsDeterministic(total, ratios, a, Alloc(total, ratios));
  }

  lemma ScaledQuota(total: nat, ratios: seq<nat>, scaled: seq<nat>, d: nat, k: nat, i: nat)
    requires |scaled| == |ratios| && i < |ratios| && scaled[i] == k * ratios[i]
    requires d > 0 && k > 0 && k * d > 0
    ensures Floors(total, scaled, k * d)[i] == Floors(total, ratios, d)[i]
    ensures Remainders(total, scaled, k * d)[i] == k * Remainders(total, ratios, d)[i]
  {
    hide Floors, Remainders, Quotient, Remainder;
    var x := ratios[i] * total;
    Associate(k, ratios[i], total);
    ScaledDivMod(x, d, k);
    QuotaAt(total, scaled, k * d, i);
    QuotaAt(total, ratios, d, i);
  }

  lemma ScaledOrder(x: nat, y: nat, k: nat)
    requires k > 0
    ensures k * x > k * y <==> x > y
    ensures k * x == k * y <==> x == y
  {
    if x < y { assert k * y == k * x + k * (y - x); assert k * (y - x) > 0; }
    if x > y { assert k * x == k * y + k * (x - y); assert k * (x - y) > 0; }
  }

  lemma {:induction false} ScaledDivMod(x: nat, d: nat, k: nat)
    requires d > 0 && k > 0 && k * d > 0
    ensures Quotient(k * x, k * d) == Quotient(x, d) && Remainder(k * x, k * d) == k * Remainder(x, d)
  {
    ScaledOrder(d, x, k);
    if x >= d {
      Distribute(k, x, d);
      ScaledDivMod(x - d, d, k);
    }
  }

  // ----- pairs

  lemma TwoUpdates(r: seq<nat>, a: nat, b: nat, x: nat, y: nat)
    requires a < |r| && b < |r| && a != b && x + y == r[a] + r[b]
    ensures Sum(r[a := x][b := y]) == Sum(r)
  {
    hide Sum;
    SumUpdate(r, a, x);
    SumUpdate(r[a := x], b, y);
  }

  lemma PairAtMostSum(r: seq<nat>, a: nat, b: nat)
    requires a < |r| && b < |r| && a != b
    ensures r[a] + r[b] <= Sum(r)
  {
    hide Sum;
    SumUpdate(r, a, 0);
    SumPrefixBound(r[a := 0], b);
  }

  // ----- the code

  /** `apportion`, in the source's own widths: no step wraps or truncates. */
  method Apportion(total: U16, ratios: seq<U16>) returns (alloc: seq<U16>)
    requires Sum(ratios) <= U32_MAX
    ensures alloc == Alloc(total, ratios)
  {
    hide Floors, Remainders, Order, Sum;
    var n := |ratios|;
    var sum := RatioSum(ratios);
    sum := if sum == 0 then 1 else sum;
    ghost var fs, rems := Floors(total, ratios, sum), Remainders(total, ratios, sum);
    FloorsFit(total, ratios);
    alloc := [];
    var remainders: seq<U32> := [];
    var used: U32 := 0;
    assert Sum(fs[..0]) == 0 by { EmptySum(fs[..0]); }
    for i := 0 to n
      invariant alloc == fs[..i] && remainders == rems[..i]
      invariant used == Sum(fs[..i])
    {
      MulFits(ratios[i], total);
      QuotaAt(total, ratios, sum, i);
      DivMod(ratios[i] * total, sum);
      SumPrefix(fs, i);
      SumPrefixBound(fs, i);
      SumPrefixBound(fs, i + 1);
      var num: U32 := ratios[i] * total;
      var q: U16 := num / sum;
      alloc := alloc + [q];
      remainders := remainders + [num % sum];
      used := used + q;
    }
    assert fs[..n] == fs && rems[..n] == rems;
    RoundedFit(total, ratios);
    assert Bump(alloc, Order(remainders, n), SatSub(total, used)) == Alloc(total, ratios);
    alloc := HandOut(total, alloc, Order(remainders, n), SatSub(total, used));
  }

  method RatioSum(ratios: seq<U16>) returns (sum: U32)
    requires Sum(ratios) <= U32_MAX
    ensures sum == Sum(ratios)
  {
    sum := 0;
    for i := 0 to |ratios|
      invariant sum == Sum(ratios[..i])
    {
      SumPrefix(ratios, i);
      SumPrefixBound(ratios, i + 1);
      sum := sum + ratios[i];
    }
    assert ratios[..|ratios|] == ratios;
  }

  /** The second loop of `apportion`: one leftover cell each, in order. */
  method HandOut(total: U16, floors: seq<U16>, order: seq<nat>, left: U32) returns (alloc: seq<U16>)
    requires forall k :: 0 <= k < |order| ==> order[k] < |floors|
    requires forall i :: 0 <= i < |floors| ==> Bump(floors, order, left)[i] <= total
    ensures alloc == Bump(floors, order, left)
  {
    alloc := floors;
    var leftover := left;
    for k := 0 to |order|
      invariant |alloc| == |floors|
      invariant Bump(alloc, order[k..], leftover) == Bump(floors, order, left)
    {
      if leftover == 0 { return; }
      var i := order[k];
      assert order[k..][0] == i && order[k..][1..] == order[k + 1..];
      ghost var cur: seq<nat> := alloc;
      ghost var next: seq<nat> := cur[i := cur[i] + 1];
      assert Bump(alloc, order[k..], leftover) == Bump(next, order[k + 1..], leftover - 1);
      BumpGrows(next, order[k + 1..], leftover - 1, i);
      assert Bump(next, order[k + 1..], leftover - 1)[i] <= total;
      alloc := alloc[i := alloc[i] + 1];
      leftover := leftover - 1;
    }
  }

  lemma EmptySum(s: seq<nat>)
    requires s == []
    ensures Sum(s) == 0
  {}

  lemma MulFits(x: U16, y: U16)
    ensures 0 <= x * y <= U32_MAX
  {
    assert x * y <= 0xFFFF * y;
  }

  lemma {:induction false} SumPrefixBound(s: seq<nat>, i: nat)
    requires i <= |s|
    ensures Sum(s[..i]) <= Sum(s)
    ensures i < |s| ==> s[i] <= Sum(s)
    decreases |s| - i
  {
    if i == |s| {
      assert s[..i] == s;
    } else {
      SumPrefix(s, i);
      SumPrefixBound(s, i + 1);
    }
  }

  /** Floors never hand out more than there is. */
  lemma FloorsFit(total: nat, ratios: seq<nat>)
    ensures Sum(Floors(total, ratios, Divisor(ratios))) <= total
  {
    if Sum(ratios) > 0 {
      LeftoverBound(total, ratios);
    } else {
      QuotasAddUp(total, ratios, 1);
      assert total * Sum(ratios) == 0;
    }
  }

  lemma {:induction false} BumpGrows(alloc: seq<nat>, order: seq<nat>, left: nat, i: nat)
    requires forall k :: 0 <= k < |order| ==> order[k] < |alloc|
    requires i < |alloc|
    ensures Bump(alloc, order, left)[i] >= alloc[i]
    decreases |order|
  {
    if left > 0 && order != [] {
      BumpGrows(alloc[order[0] := alloc[order[0]] + 1], order[1..], left - 1, i);
    }
  }

  /** No part exceeds `total`, so each fits the width of `total`. */
  lemma RoundedFit(total: nat, ratios: seq<nat>)
    ensures forall i :: 0 <= i < |ratios| ==> Alloc(total, ratios)[i] <= total
  {
    hide Alloc, Floors;
    var a := Alloc(total, ratios);
    FloorsFit(total, ratios);
    AllocSum(total, ratios);
    forall i | 0 <= i < |ratios| ensures a[i] <= total {
      SumPrefixBound(a, i);
    }
  }
}
