/**
 * The 4-subsets of the contact points found around one seed, in the order in
 * which Apache Commons Math's CombinatoricsUtils.combinationsIterator visits
 * them: each subset as strictly increasing indices, subsets ordered
 * colexicographically (by their largest index first).
 */
module Combinations {
  import opened Vectors

  /** The number of k-subsets of an n-set, by Pascal's rule. */
  function Binom(n: nat, k: nat): nat {
    if k == 0 then 1
    else if n == 0 then 0
    else Binom(n - 1, k) + Binom(n - 1, k - 1)
  }

  /** c is a k-subset of {0, ..., n-1} written as strictly increasing indices. */
  predicate IsCombination(c: seq<nat>, n: nat, k: nat) {
    && |c| == k
    && (forall i, j :: 0 <= i < j < |c| ==> c[i] < c[j])
    && (forall i :: 0 <= i < |c| ==> c[i] < n)
  }

  /** Each combination with x appended. */
  function Extend(cs: seq<seq<nat>>, x: nat): (r: seq<seq<nat>>)
    ensures |r| == |cs|
    ensures forall i :: 0 <= i < |cs| ==> r[i] == cs[i] + [x]
  {
    seq(|cs|, i requires 0 <= i < |cs| => cs[i] + [x])
  }

  /**
   * combinationsIterator(n, k): the subsets without n-1, then those with n-1
   * as their largest element.
   */
  function Comb(n: nat, k: nat): (r: seq<seq<nat>>)
    ensures |r| == Binom(n, k)
    ensures forall i :: 0 <= i < |r| ==> IsCombination(r[i], n, k)
    decreases n
  {
    if k == 0 then [[]]
    else if n == 0 then []
    else
      var without := Comb(n - 1, k);
      var with := Extend(Comb(n - 1, k - 1), n - 1);
      assert forall i :: 0 <= i < |with| ==> IsCombination(with[i], n, k) by {
        forall i | 0 <= i < |with|
          ensures IsCombination(with[i], n, k)
        {
          var c := Comb(n - 1, k - 1)[i];
          assert IsCombination(c, n - 1, k - 1);
          assert with[i] == c + [n - 1];
        }
      }
      without + with
  }

  /** No subset is visited twice. */
  lemma {:induction false} CombDistinct(n: nat, k: nat)
    ensures forall i, j :: 0 <= i < j < |Comb(n, k)| ==> Comb(n, k)[i] != Comb(n, k)[j]
    decreases n
  {
    if k > 0 && n > 0 {
      CombDistinct(n - 1, k);
      CombDistinct(n - 1, k - 1);
      var without := Comb(n - 1, k);
      var shorter := Comb(n - 1, k - 1);
      var with := Extend(shorter, n - 1);
      assert Comb(n, k) == without + with;
      forall i, j | 0 <= i < j < |Comb(n, k)|
        ensures Comb(n, k)[i] != Comb(n, k)[j]
      {
        var r := Comb(n, k);
        if j < |without| {
          assert r[i] == without[i] && r[j] == without[j];
        } else if i < |without| {
          assert r[i] == without[i] && r[j] == with[j - |without|];
          assert r[j][k - 1] == n - 1;
          assert IsCombination(without[i], n - 1, k);
          assert r[i][k - 1] < n - 1;
        } else {
          var i', j' := i - |without|, j - |without|;
          assert r[i] == shorter[i'] + [n - 1] && r[j] == shorter[j'] + [n - 1];
          assert r[i][..k - 1] == shorter[i'];
          assert r[j][..k - 1] == shorter[j'];
        }
      }
    }
  }

  /** A combination ending in n-1 is a shorter combination of {0, ..., n-2} plus n-1. */
  lemma DropLargest(c: seq<nat>, n: nat, k: nat)
    requires k > 0 && n > 0 && IsCombination(c, n, k) && c[k - 1] == n - 1
    ensures IsCombination(c[..k - 1], n - 1, k - 1) && c == c[..k - 1] + [n - 1]
  {
    forall i | 0 <= i < k - 1
      ensures c[i] < n - 1
    {
      assert c[i] < c[k - 1];
    }
  }

  /** A combination whose largest index is not n-1 avoids n-1 altogether. */
  lemma AvoidsLargest(c: seq<nat>, n: nat, k: nat)
    requires k > 0 && n > 0 && IsCombination(c, n, k) && c[k - 1] != n - 1
    ensures IsCombination(c, n - 1, k)
  {
    forall i | 0 <= i < k
      ensures c[i] < n - 1
    {
      if i < k - 1 {
        assert c[i] < c[k - 1];
      }
    }
  }

  /** Every subset is visited. */
  lemma {:induction false} CombComplete(n: nat, k: nat, c: seq<nat>)
    requires IsCombination(c, n, k)
    ensures c in Comb(n, k)
    decreases n, 1
  {
    if k == 0 {
      assert c == [];
    } else {
      assert c[k - 1] < n;
      if c[k - 1] == n - 1 {
        CompleteWithLargest(n, k, c);
      } else {
        CompleteWithoutLargest(n, k, c);
      }
    }
  }

  lemma {:induction false} CompleteWithLargest(n: nat, k: nat, c: seq<nat>)
    requires k > 0 && n > 0 && IsCombination(c, n, k) && c[k - 1] == n - 1
    ensures c in Comb(n, k)
    decreases n, 0
  {
    var without := Comb(n - 1, k);
    var shorter := Comb(n - 1, k - 1);
    var with := Extend(shorter, n - 1);
    assert Comb(n, k) == without + with;
    DropLargest(c, n, k);
    CombComplete(n - 1, k - 1, c[..k - 1]);
    var m :| 0 <= m < |shorter| && shorter[m] == c[..k - 1];
    assert with[m] == c;
  }

  lemma {:induction false} CompleteWithoutLargest(n: nat, k: nat, c: seq<nat>)
    requires k > 0 && n > 0 && IsCombination(c, n, k) && c[k - 1] != n - 1
    ensures c in Comb(n, k)
    decreases n, 0
  {
    var without := Comb(n - 1, k);
    assert Comb(n, k) == without + Extend(Comb(n - 1, k - 1), n - 1);
    AvoidsLargest(c, n, k);
    CombComplete(n - 1, k, c);
  }

  lemma {:induction false} BinomOne(n: nat)
    ensures Binom(n, 1) == n
  {
    if n > 0 {
      BinomOne(n - 1);
    }
  }

  lemma {:induction false} BinomTwo(n: nat)
    ensures 2 * Binom(n, 2) == n * (n - 1)
  {
    if n > 0 {
      BinomTwo(n - 1);
      BinomOne(n - 1);
    }
  }

  lemma {:induction false} BinomThree(n: nat)
    ensures 6 * Binom(n, 3) == n * (n - 1) * (n - 2)
  {
    if n > 0 {
      BinomThree(n - 1);
      BinomTwo(n - 1);
    }
  }

  /** The closed form n(n-1)(n-2)(n-3)/24 of the number of 4-subsets. */
  lemma {:induction false} BinomFour(n: nat)
    ensures 24 * Binom(n, 4) == n * (n - 1) * (n - 2) * (n - 3)
  {
    if n > 0 {
      BinomFour(n - 1);
      BinomThree(n - 1);
    }
  }

  /** A contact point on the foreground boundary with the unit vector back towards the seed. */
  datatype ContactPoint = ContactPoint(point: Vec3, inwardNormal: Vec3)

  /** The argument of one call of the ellipsoid fitter: four contact points and the seed. */
  datatype FitTask = FitTask(contacts: seq<ContactPoint>, centre: Vec3)

  /**
   * getAllCombinationsOfFourPoints: one task per 4-subset of the points, in
   * iterator order, each holding the points at the subset's indices and the
   * same centre.
   */
  function AllCombinationsOfFour(points: seq<ContactPoint>, centre: Vec3): (tasks: seq<FitTask>)
    ensures |tasks| == Binom(|points|, 4)
    ensures forall t :: 0 <= t < |tasks| ==>
      var c := Comb(|points|, 4)[t];
      tasks[t] == FitTask([points[c[0]], points[c[1]], points[c[2]], points[c[3]]], centre)
  {
    var combs := Comb(|points|, 4);
    seq(|combs|, t requires 0 <= t < |combs| =>
      assert IsCombination(combs[t], |points|, 4);
      FitTask([points[combs[t][0]], points[combs[t][1]], points[combs[t][2]], points[combs[t][3]]], centre))
  }

  /**
   * Every choice of four points at strictly increasing indices is the task at
   * exactly one position.
   */
  lemma AllCombinationsOfFourCoverEachSubsetOnce(points: seq<ContactPoint>, centre: Vec3, c: seq<nat>)
    requires IsCombination(c, |points|, 4)
    ensures exists t :: 0 <= t < |AllCombinationsOfFour(points, centre)| && Comb(|points|, 4)[t] == c
    ensures forall t, u :: 0 <= t < u < |Comb(|points|, 4)| ==> Comb(|points|, 4)[t] != Comb(|points|, 4)[u]
  {
    CombComplete(|points|, 4, c);
    CombDistinct(|points|, 4);
  }

  /** With the 18 sampling directions of the source each seed yields 3060 fitting tasks. */
  lemma EighteenPointsGive3060Tasks(points: seq<ContactPoint>, centre: Vec3)
    requires |points| == 18
    ensures |AllCombinationsOfFour(points, centre)| == 3060
  {
    EighteenChooseFour(|points|);
  }

  lemma EighteenChooseFour(n: nat)
    requires n == 18
    ensures Binom(n, 4) == 3060
  {
    BinomFour(n);
    FallingProductOfEighteen(n);
  }

  lemma FallingProductOfEighteen(n: nat)
    requires n == 18
    ensures n * (n - 1) * (n - 2) * (n - 3) == 73440
  {
  }
}
