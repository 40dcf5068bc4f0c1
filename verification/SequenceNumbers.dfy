/** Sequence numbers and the interpolation search that finds them
    (MessageSequence.GetSequenceNumber in user/mailbox.go). */
module SequenceNumbers {
  import opened Base

  ghost predicate Increasing(uids: seq<nat>) {
    forall i, j :: 0 <= i < j < |uids| ==> uids[i] < uids[j]
  }

  /** How many uids are below the given one. */
  function CountBelow(uids: seq<nat>, uid: nat): (n: nat)
    ensures n <= |uids|
  {
    if uids == [] then 0 else (if uids[0] < uid then 1 else 0) + CountBelow(uids[1..], uid)
  }

  /** In an increasing list the uids below the given one are its front part. */
  lemma {:induction false} CountBelowIs(uids: seq<nat>, uid: nat, k: nat)
    requires Increasing(uids) && k <= |uids|
    requires k > 0 ==> uids[k - 1] < uid
    requires k < |uids| ==> uid <= uids[k]
    ensures CountBelow(uids, uid) == k
  {
    if uids != [] {
      if k == 0 {
        var t := uids[1..];
        assert |t| > 0 ==> uids[0] < uids[1] && t[0] == uids[1];
        CountBelowIs(t, uid, 0);
      } else {
        assert uids[0] < uid;
        CountBelowIs(uids[1..], uid, k - 1);
      }
    }
  }

  /** And conversely: everything before the count is below, the rest is not. */
  lemma {:induction false} CountBelowSplits(uids: seq<nat>, uid: nat)
    requires Increasing(uids)
    ensures var k := CountBelow(uids, uid);
      && k <= |uids|
      && (forall i :: 0 <= i < k ==> uids[i] < uid)
      && (forall i :: k <= i < |uids| ==> uid <= uids[i])
  {
    if uids != [] {
      CountBelowSplits(uids[1..], uid);
      if uids[0] >= uid {
        CountBelowIs(uids, uid, 0);
        forall i | 0 <= i < |uids| ensures uid <= uids[i] { }
      }
      assert forall i :: 1 <= i < |uids| ==> uids[i] == uids[1..][i - 1];
    }
  }

  /** How the search picks the index to look at, from the uid sought, the uids at
      the two ends and the two end indices. */
  type Probe = (nat, nat, nat, nat, nat) -> int

  /** What a probe has to keep to on a list: stay between the ends, reach the
      upper end when its uid is the one sought, and stay below it otherwise. */
  ghost predicate Admissible(probe: Probe, uids: seq<nat>, uid: nat) {
    forall lo: nat, hi: nat :: lo < hi < |uids| && uids[lo] <= uid <= uids[hi] ==>
      Between(uid, uids[hi], lo, hi, probe(uid, uids[lo], uids[hi], lo, hi))
  }

  /** Admissible on every list of uids below a bound. */
  ghost predicate SafeProbe(probe: Probe, bound: nat) {
    forall uids: seq<nat>, uid: nat :: Increasing(uids) && Below(uids, bound) ==> Admissible(probe, uids, uid)
  }

  ghost predicate Below(uids: seq<nat>, bound: nat) {
    forall i :: 0 <= i < |uids| ==> uids[i] < bound
  }

  predicate Between(uid: nat, maxUID: nat, lo: nat, hi: nat, c: int) {
    lo <= c <= hi && (c == hi <==> uid == maxUID)
  }

  /** GetSequenceNumber returns the lowest sequence number whose uid is at least
      the given one. No index is out of range and the distance between the two
      ends shrinks in every round. */
  method GetSequenceNumber(uids: seq<nat>, uid: nat, probe: Probe) returns (n: nat)
    requires Increasing(uids) && |uids| + 1 < LIMIT32
    requires Admissible(probe, uids, uid)
    ensures n == 1 + CountBelow(uids, uid)
  {
    hide CountBelow;
    if |uids| == 0 {
      return 1;
    }
    if uid < uids[0] {
      CountBelowIs(uids, uid, 0);
      return 1;
    }
    if uid > uids[|uids| - 1] {
      CountBelowIs(uids, uid, |uids|);
      return |uids| + 1;
    }
    if |uids| == 1 {
      CountBelowIs(uids, uid, 0);
      return 1;
    }
    var minIndex, maxIndex := 0, |uids| - 1;
    var minUID, maxUID := uids[minIndex], uids[maxIndex];
    while true
      invariant 0 <= minIndex < maxIndex < |uids|
      invariant minUID == uids[minIndex] && maxUID == uids[maxIndex]
      invariant minUID <= uid <= maxUID
      invariant minIndex > 0 ==> uids[minIndex - 1] < uid
      decreases maxIndex - minIndex
    {
      var checkIndex := probe(uid, minUID, maxUID, minIndex, maxIndex);
      var newUID := uids[checkIndex];
      if newUID == uid {
        CountBelowIs(uids, uid, checkIndex);
        return checkIndex + 1;
      }
      if newUID > uid {
        maxUID := newUID;
        maxIndex := checkIndex;
      } else {
        minIndex := checkIndex + 1;
        minUID := uids[minIndex];
        if minUID > uid {
          CountBelowIs(uids, uid, minIndex);
          return minIndex + 1;
        }
      }
    }
  }

  /** Linear interpolation in exact arithmetic, rounded down. */
  function ExactProbe(uid: nat, minUID: nat, maxUID: nat, minIndex: nat, maxIndex: nat): int {
    if maxUID <= minUID || uid < minUID || maxIndex < minIndex then minIndex
    else minIndex + (uid - minUID) * (maxIndex - minIndex) / (maxUID - minUID)
  }

  lemma ExactProbeAdmissible(uids: seq<nat>, uid: nat)
    requires Increasing(uids)
    ensures Admissible(ExactProbe, uids, uid)
  {
    forall lo: nat, hi: nat | lo < hi < |uids| && uids[lo] <= uid <= uids[hi]
      ensures Between(uid, uids[hi], lo, hi, ExactProbe(uid, uids[lo], uids[hi], lo, hi))
    {
      Interpolate(uid - uids[lo], uids[hi] - uids[lo], hi - lo);
    }
  }

  /** In exact arithmetic the search is right on all uids. */
  lemma ExactProbeSafe(bound: nat)
    ensures SafeProbe(ExactProbe, bound)
  {
    hide Admissible;
    forall uids: seq<nat>, uid: nat | Increasing(uids) ensures Admissible(ExactProbe, uids, uid) {
      ExactProbeAdmissible(uids, uid);
    }
  }

  lemma Interpolate(a: nat, d: nat, n: nat)
    requires a <= d && 0 < d && 0 < n
    ensures 0 <= a * n / d <= n
    ensures a * n / d == n <==> a == d
  {
    var q := a * n / d;
    DivisionBounds(a * n, d);
    assert 0 <= a * n;
    if a == d {
      assert q * d == n * d by { assert a * n == n * d; DivExact(n, d); }
    } else {
      assert a * n < d * n by { MulLess(a, d, n); }
      if q >= n { MulLeq(d, n, q); }
    }
    if a == d { DivExact(n, d); }
  }

  lemma DivisionBounds(x: nat, d: nat)
    requires d > 0
    ensures d * (x / d) <= x < d * (x / d) + d && x / d >= 0
  {
  }

  lemma DivExact(n: nat, d: nat)
    requires d > 0
    ensures d * n / d == n
  {
    var q := d * n / d;
    DivisionBounds(d * n, d);
    if q < n { MulLeq(d, q + 1, n); } else if q > n { MulLeq(d, n + 1, q); }
  }

  lemma MulLess(a: nat, b: nat, n: nat)
    requires a < b && n > 0
    ensures a * n < b * n
  {
  }

  lemma MulLeq(d: nat, x: int, y: int)
    requires x <= y
    ensures d * x <= d * y
  {
  }
}
