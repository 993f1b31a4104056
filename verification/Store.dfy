/** What the daemon stores when a client sends ratios: each raised to the floor, then renormalized
    to 1000. */
module StoredRatios {
  import opened Widths
  import opened Ranking
  import opened Apportionment
  import opened Resize

  /** Weights summing to 1000 with none under the floor. */
  predicate PermilleRatios(ratios: seq<nat>) {
    Sum(ratios) == PERMILLE && forall i :: 0 <= i < |ratios| ==> ratios[i] >= MIN_RATIO
  }

  /** The daemon's clamp and renormalization leave a client's proposal as it is. */
  lemma StoredVerbatim(r: seq<U16>)
    requires PermilleRatios(r)
    ensures Stored(r) == r
  {
    hide Alloc, Sum;
    assert Floored(r) == r;
    SomeRatio(r);
    WholeQuotas(PERMILLE, PERMILLE, r, r);
  }

  lemma {:induction false} EvenSum(k: nat, base: nat, left: nat)
    ensures Sum(seq(k, i => base + (if i < left then 1 else 0))) == base * k + Min(k, left)
  {
    if k > 0 {
      var s := seq(k, i => base + (if i < left then 1 else 0));
      assert s[..k - 1] == seq(k - 1, i => base + (if i < left then 1 else 0));
      EvenSum(k - 1, base, left);
      Distribute(base, k - 1, 1);
    }
  }

  /** Whatever weights it is given, the daemon's renormalization makes them sum to 1000. */
  lemma NormalizeSums(ratios: seq<U16>)
    requires ratios != []
    ensures Sum(Normalize(ratios)) == PERMILLE
  {
    hide Alloc, Sum;
    var n := |ratios|;
    if Sum(ratios) == 0 {
      var base := 1000 / n;
      DivMod(1000, n);
      Commute(base, n);
      EvenSum(n, base, 1000 - base * n);
      assert Normalize(ratios) == seq(n, i => base + (if i < 1000 - base * n then 1 else 0));
    } else {
      ExactSumIff(PERMILLE, ratios);
    }
  }

  // ----- what a weight ends at

  lemma StoredIsShared(r: seq<U16>)
    requires r != []
    ensures Sum(Floored(r)) > 0 && Stored(r) == Alloc(PERMILLE, Floored(r)) && Sum(Stored(r)) == PERMILLE
  {
    hide Sum, Alloc;
    NormalizeSums(Floored(r));
    SumPrefixBound(Floored(r), 0);
  }

  /** The weight stored at `i` is at least `m` exactly if, after raising to the floor, its exact share
      of 1000 reaches `m`, or reaches `m - 1` and is among those rounded up. */
  lemma StoredAtLeastIff(r: seq<U16>, i: nat, m: nat)
    requires i < |r| && m > 0
    ensures Sum(Floored(r)) > 0
    ensures Stored(r)[i] >= m <==> QuotaReaches(PERMILLE, Floored(r), i, m)
  {
    hide Sum, Alloc, QuotaReaches, Stored;
    StoredIsShared(r);
    AtLeastIff(PERMILLE, Floored(r), i, m);
  }

  /** No weight ends below the floor of 20 if the raised weights sum to no more than 1000, and none
      ends at zero if they sum to no more than 20000. */
  lemma FloorKept(r: seq<U16>, i: nat)
    requires i < |r|
    ensures Sum(Floored(r)) <= PERMILLE ==> Stored(r)[i] >= MIN_RATIO
    ensures Sum(Floored(r)) <= MIN_RATIO * PERMILLE ==> Stored(r)[i] > 0
  {
    hide Sum, Stored, Rank, Remainders, Leftover;
    StoredAtLeastIff(r, i, MIN_RATIO);
    StoredAtLeastIff(r, i, 1);
  }

  /** Two vectors that bring a pane to nothing, floor or no floor. */
  lemma Collapsed()
    ensures Stored([65535, 0]) == [1000, 0]
    ensures Stored([30000, 20, 20]) == [999, 1, 0]
  {
    hide Alloc, Sum;
    assert Floored([65535, 0]) == [65535, 20] && Floored([30000, 20, 20]) == [30000, 20, 20];
    SumOfTwo(65535, 20);
    SumOfTwo(1000, 0);
    SharesAre(1000, 65555, [65535, 20], [999, 0], [45555, 20000], [1000, 0]);
    SumOfThree(30000, 20, 20);
    SumOfThree(999, 1, 0);
    SharesAre(1000, 30040, [30000, 20, 20], [998, 0, 0], [20080, 20000, 20000], [999, 1, 0]);
  }

  // ----- what is stored as it came

  /** Raising to the floor adds weight, unless none is below it. */
  lemma FlooredSum(r: seq<U16>)
    ensures Sum(Floored(r)) >= Sum(r)
    ensures Sum(Floored(r)) == Sum(r) ==> forall i :: 0 <= i < |r| ==> r[i] >= MIN_RATIO
  {
    hide Sum;
    SumPointwise(r, Floored(r));
    if Sum(Floored(r)) == Sum(r) {
      forall i | 0 <= i < |r| ensures r[i] >= MIN_RATIO { assert Floored(r)[i] == r[i]; }
    }
  }

  lemma {:induction false} FlooredAtMost(r: seq<U16>)
    ensures Sum(Floored(r)) <= Sum(r) + MIN_RATIO * |r|
  {
    if r != [] {
      var n := |r| - 1;
      FlooredAtMost(r[..n]);
      assert Floored(r)[..n] == Floored(r[..n]);
    }
  }

  /** Storing never leaves more than the raised weight. */
  lemma StoredAtMost(r: seq<U16>, i: nat)
    requires Sum(r) == PERMILLE && i < |r|
    ensures Stored(r)[i] <= Floored(r)[i]
  {
    hide Sum, Stored, Rank, Remainders, Leftover;
    var w, s := Floored(r)[i] as int, Sum(Floored(r));
    FlooredSum(r);
    if s == PERMILLE {
      StoredVerbatim(r);
    } else {
      StoredAtLeastIff(r, i, w + 1);
      MulMonotone(w, PERMILLE, s);
      Commute(w, s);
      Distribute(s, w, 1);
    }
  }

  /** If a weight above the floor is stored as it came, every weight reaches the floor: the heavier
      of two raised weights loses more, so it gives way first. */
  lemma HeavyKept(r: seq<U16>, a: nat, i: nat)
    requires Sum(r) == PERMILLE && a < |r| && i < |r| && r[a] > MIN_RATIO && Stored(r)[a] == r[a]
    ensures Stored(r)[i] >= MIN_RATIO
  {
    hide Sum, Stored, Rank, Remainders, Leftover, QuotaReaches;
    var w := Floored(r);
    FlooredSum(r);
    StoredAtLeastIff(r, a, r[a]);
    StoredAtLeastIff(r, i, MIN_RATIO);
    if Sum(w) == PERMILLE {
      StoredVerbatim(r);
    } else {
      ReachesToo(w, Sum(w), a, i);
    }
  }

  lemma ReachesToo(w: seq<nat>, s: nat, a: nat, i: nat)
    requires s == Sum(w) > PERMILLE && a < |w| && i < |w| && w[a] > MIN_RATIO && w[i] >= MIN_RATIO
    requires QuotaReaches(PERMILLE, w, a, w[a])
    ensures QuotaReaches(PERMILLE, w, i, MIN_RATIO)
  {
    hide Sum, Rank, Remainders, Leftover;
    // What the excess takes from a weight of 1000 units.
    var e := s - PERMILLE;
    LossIs(w[a], s);
    LossIs(w[i], s);
    if w[i] > w[a] {
      MulMonotone(s, MIN_RATIO, w[a] - 1);
    } else {
      MulMonotone(e, w[i], w[a]);
      if w[i] > MIN_RATIO {
        MulMonotone(s, MIN_RATIO, w[i] - 1);
      } else {
        RemainderAt(w, s, a, w[a] - 1);
        RemainderAt(w, s, i, MIN_RATIO - 1);
        MulMonotone(e, w[i], w[a]);
        RankMonotone(Remainders(PERMILLE, w, s), i, a);
      }
    }
  }

  lemma LossIs(w: nat, s: nat)
    requires s > PERMILLE
    ensures w * PERMILLE == s * w - (s - PERMILLE) * w
    ensures s * (w - 1) == s * w - s
    ensures w > 0 ==> w * PERMILLE < s * w
  {
    Commute(s, w);
    Commute(s - PERMILLE, w);
    Distribute(w, s, PERMILLE);
    Distribute(s, w, 1);
    MulMonotone(w, PERMILLE, s);
  }

  lemma RemainderAt(w: seq<nat>, s: nat, i: nat, q: nat)
    requires s == Sum(w) > PERMILLE && i < |w| && w[i] == q + 1
    requires s * q <= w[i] * PERMILLE
    ensures |Remainders(PERMILLE, w, s)| == |w| && Remainders(PERMILLE, w, s)[i] == s - (s - PERMILLE) * w[i]
  {
    hide Sum, Remainders;
    LossIs(w[i], s);
    QuotaAt(PERMILLE, w, s, i);
    DivMod(w[i] * PERMILLE, s);
    DivModUnique(w[i] * PERMILLE, s, q, w[i] * PERMILLE - s * q);
  }

  /** Weights summing to 1000, one of them above the floor, are stored as they came if and only if
      none is below the floor. */
  lemma StoredVerbatimIff(r: seq<U16>, a: nat)
    requires Sum(r) == PERMILLE && a < |r| && r[a] > MIN_RATIO
    ensures Stored(r) == r <==> PermilleRatios(r)
  {
    hide Sum, Stored;
    if PermilleRatios(r) { StoredVerbatim(r); }
    if Stored(r) == r {
      forall i | 0 <= i < |r| ensures r[i] >= MIN_RATIO { HeavyKept(r, a, i); }
    }
  }
}
