/** Fetching messages by ranges and by message sets: what the queries of
    user/mailbox.go return, in terms of the mailbox's list of messages. */
module MailboxFetch {
  import opened Base
  import opened SequenceNumbers
  import opened MailboxSpec

  /** bitmessagesByUIDRange. An upper end of 0 is not an empty range to the
      folder but an open one. */
  function UIDRange(ps: seq<Piece>, start: nat, end: nat): seq<Bmail> {
    if end != 0 then Numbered(Interval(start, end, ps), 1 + CountBelow(Uids(ps), start))
    else if ps != [] && start > ps[0].uid then []
    else Numbered(ps, 1)
  }

  /** The request is answered exactly, with right sequence numbers, if and only
      if the upper end is not 0, or the mailbox is empty, or the lower end is
      above its first uid. */
  lemma UIDRangeRight(ps: seq<Piece>, start: nat, end: nat)
    requires Increasing(Uids(ps)) && (ps != [] ==> ps[0].uid > 0)
    ensures UIDRange(ps, start, end) == Numbered(Interval(start, end, ps), 1 + CountBelow(Uids(ps), start))
      <==> end != 0 || ps == [] || start > ps[0].uid
  {
    if end == 0 {
      forall i | 0 <= i < |ps| ensures ps[i].uid > 0 { assert i > 0 ==> Uids(ps)[0] < Uids(ps)[i]; }
      IntervalIsSlice(start, 0, ps, 0, 0);
    }
  }

  /** bitmessagesSinceUID, on a mailbox that is not empty. */
  function SinceUID(ps: seq<Piece>, start: nat): seq<Bmail>
    requires ps != []
  {
    Numbered(Interval(start, ps[|ps| - 1].uid, ps), 1 + CountBelow(Uids(ps), start))
  }

  /** It returns the messages from the given uid on. */
  lemma SinceUIDExact(ps: seq<Piece>, start: nat)
    requires ps != [] && Increasing(Uids(ps))
    ensures SinceUID(ps, start) == Numbered(ps[CountBelow(Uids(ps), start)..], 1 + CountBelow(Uids(ps), start))
  {
    var u := Uids(ps);
    var k, n := CountBelow(u, start), |ps|;
    CountBelowSplits(u, start);
    forall i | 0 <= i < n ensures start <= ps[i].uid <= ps[n - 1].uid <==> k <= i < n {
      assert u[i] == ps[i].uid && (i < n - 1 ==> u[i] < u[n - 1]);
    }
    IntervalIsSlice(start, ps[n - 1].uid, ps, k, n);
    assert ps[k..n] == ps[k..];
  }

  // Message sets.

  /** One end of a range in a message set: "*", nothing, a number, or neither. */
  datatype Bound = Star | Absent | Value(n: U64) | Malformed

  datatype Range = Range(min: Bound, max: Bound)

  predicate WellFormed(r: Range) {
    r.min.Star? || (r.min.Value? && !r.max.Malformed?)
  }

  /** What one range contributes; a single uid contributes an entry even if there
      is no such message. */
  function Contribution(ps: seq<Piece>, r: Range): seq<Option<Bmail>>
    requires ps != [] && WellFormed(r)
  {
    if r.min.Star? then
      var p := ps[|ps| - 1];
      [Some(Bmail(p.uid, |ps|, p.letter))]
    else match r.max
      case Absent => [Lookup(ps, r.min.n)]
      case Star => Somes(SinceUID(ps, r.min.n))
      case Value(end) => Somes(UIDRange(ps, r.min.n, end))
  }

  function Somes(bs: seq<Bmail>): (r: seq<Option<Bmail>>)
    ensures |r| == |bs| && forall i :: 0 <= i < |bs| ==> r[i] == Some(bs[i])
  {
    seq(|bs|, i requires 0 <= i < |bs| => Some(bs[i]))
  }

  /** bitmessageSetByUID: the ranges in turn, up to the first that is malformed. */
  function SetByUID(ps: seq<Piece>, ranges: seq<Range>): seq<Option<Bmail>> {
    if ps == [] || ranges == [] || !WellFormed(ranges[0]) then []
    else Contribution(ps, ranges[0]) + SetByUID(ps, ranges[1..])
  }

  /** The ranges before position i are well formed, so range i is looked at. */
  ghost predicate Reached(ranges: seq<Range>, i: int) {
    0 <= i < |ranges| && forall j :: 0 <= j <= i ==> WellFormed(ranges[j])
  }

  ghost predicate AbsentSingle(ps: seq<Piece>, r: Range) {
    r.min.Value? && r.max.Absent? && Lookup(ps, r.min.n).None?
  }

  lemma ContributionNil(ps: seq<Piece>, r: Range)
    requires ps != [] && WellFormed(r)
    ensures None in Contribution(ps, r) <==> AbsentSingle(ps, r)
  {
    hide MailboxSpec.Interval, SequenceNumbers.CountBelow, MailboxSpec.Lookup, UIDRange, SinceUID;
    if !r.min.Star? && r.max.Star? {
      SomesHave(SinceUID(ps, r.min.n));
    } else if !r.min.Star? && r.max.Value? {
      SomesHave(UIDRange(ps, r.min.n, r.max.n));
    }
  }

  lemma SomesHave(bs: seq<Bmail>)
    ensures None !in Somes(bs)
  {
  }

  /** The result holds a missing entry, on which MessageSetByUID panics, if and
      only if a range that is reached names a single uid that is not there. */
  lemma {:induction false} SetHasNil(ps: seq<Piece>, ranges: seq<Range>)
    ensures None in SetByUID(ps, ranges) <==>
      ps != [] && exists i :: Reached(ranges, i) && AbsentSingle(ps, ranges[i])
  {
    hide MailboxSpec.Lookup, Contribution;
    if ps != [] && ranges != [] && WellFormed(ranges[0]) {
      SetHasNil(ps, ranges[1..]);
      ContributionNil(ps, ranges[0]);
      ReachedShift(ranges);
      if AbsentSingle(ps, ranges[0]) {
        assert Reached(ranges, 0);
      } else if i :| Reached(ranges[1..], i) && AbsentSingle(ps, ranges[1..][i]) {
        assert Reached(ranges, i + 1);
      }
      if i :| Reached(ranges, i) && AbsentSingle(ps, ranges[i]) {
        if i > 0 { assert Reached(ranges[1..], i - 1); }
      }
    } else if ranges != [] && !WellFormed(ranges[0]) {
      assert forall i :: !Reached(ranges, i);
    }
  }

  lemma ReachedShift(ranges: seq<Range>)
    requires ranges != [] && WellFormed(ranges[0])
    ensures forall i :: 0 <= i ==> (Reached(ranges[1..], i) <==> Reached(ranges, i + 1))
  {
    forall i | 0 <= i ensures Reached(ranges[1..], i) <==> Reached(ranges, i + 1) {
      if Reached(ranges[1..], i) {
        forall j | 0 <= j <= i + 1 ensures WellFormed(ranges[j]) {
          if j > 0 { assert ranges[j] == ranges[1..][j - 1]; }
        }
      }
      if Reached(ranges, i + 1) {
        forall j | 0 <= j <= i ensures WellFormed(ranges[1..][j]) { assert ranges[1..][j] == ranges[j + 1]; }
      }
    }
  }

  /** The uids that a range fetches: those it asks for, except that with an upper
      end of 0, which asks for none, it fetches all or none of the mailbox. */
  predicate Asks(ps: seq<Piece>, r: Range, uid: nat)
    requires ps != [] && WellFormed(r)
  {
    if r.min.Star? then uid == ps[|ps| - 1].uid
    else match r.max
      case Absent => uid == r.min.n
      case Star => r.min.n <= uid
      case Value(end) => if end == 0 then r.min.n <= ps[0].uid else r.min.n <= uid <= end
  }

  /** A range yields exactly the messages with those uids. */
  lemma ContributionExact(ps: seq<Piece>, r: Range, x: Bmail)
    requires Increasing(Uids(ps)) && ps != [] && WellFormed(r)
    ensures Some(x) in Contribution(ps, r) <==> Placed(ps, x) && Asks(ps, r, x.uid)
  {
    if r.min.Star? {
      SamePlace(ps, x, |ps| - 1);
    } else if r.max.Absent? {
      SingleExact(ps, r.min.n, x);
    } else if r.max.Star? {
      SinceExact(ps, r.min.n, x);
    } else if r.max.n == 0 {
      OpenExact(ps, r.min.n, x);
    } else {
      SpanExact(ps, r.min.n, r.max.n, x);
    }
  }

  lemma SingleExact(ps: seq<Piece>, uid: nat, x: Bmail)
    requires Increasing(Uids(ps))
    ensures Lookup(ps, uid) == Some(x) <==> Placed(ps, x) && x.uid == uid
  {
    hide MailboxSpec.Lookup;
    LookupExact(ps, uid);
    if Placed(ps, x) && x.uid == uid {
      assert ps[x.seqno - 1].uid == uid;
    }
    if Lookup(ps, uid).Some? {
      var i :| 0 <= i < |ps| && ps[i].uid == uid;
    }
  }

  lemma IntervalHolds(ps: seq<Piece>, lo: nat, hi: nat, x: Bmail)
    requires Increasing(Uids(ps))
    ensures x in Numbered(Interval(lo, hi, ps), 1 + CountBelow(Uids(ps), lo)) <==> Placed(ps, x) && lo <= x.uid <= hi
  {
    hide MailboxSpec.Interval, SequenceNumbers.CountBelow;
    IntervalNumbers(lo, hi, ps);
    if Placed(ps, x) {
      var i := x.seqno - 1;
      assert x == Bmail(ps[i].uid, i + 1, ps[i].letter);
    }
  }

  lemma SinceExact(ps: seq<Piece>, start: nat, x: Bmail)
    requires Increasing(Uids(ps)) && ps != []
    ensures Some(x) in Somes(SinceUID(ps, start)) <==> Placed(ps, x) && start <= x.uid
  {
    hide MailboxSpec.Interval, SequenceNumbers.CountBelow;
    IntervalHolds(ps, start, ps[|ps| - 1].uid, x);
    SomesHold(SinceUID(ps, start), x);
    assert Placed(ps, x) ==> Uids(ps)[x.seqno - 1] <= Uids(ps)[|ps| - 1];
  }

  lemma SpanExact(ps: seq<Piece>, start: nat, end: nat, x: Bmail)
    requires Increasing(Uids(ps)) && end != 0
    ensures Some(x) in Somes(UIDRange(ps, start, end)) <==> Placed(ps, x) && start <= x.uid <= end
  {
    IntervalHolds(ps, start, end, x);
    SomesHold(UIDRange(ps, start, end), x);
  }

  lemma OpenExact(ps: seq<Piece>, start: nat, x: Bmail)
    requires ps != []
    ensures Some(x) in Somes(UIDRange(ps, start, 0)) <==> Placed(ps, x) && start <= ps[0].uid
  {
    SomesHold(UIDRange(ps, start, 0), x);
    if Placed(ps, x) && start <= ps[0].uid {
      assert UIDRange(ps, start, 0)[x.seqno - 1] == x;
    }
  }

  /** Two messages of the list with one uid are the same. */
  lemma SamePlace(ps: seq<Piece>, x: Bmail, i: nat)
    requires Increasing(Uids(ps)) && i < |ps|
    ensures Placed(ps, x) && x.uid == ps[i].uid <==> x == Bmail(ps[i].uid, i + 1, ps[i].letter)
  {
    if Placed(ps, x) && x.uid == ps[i].uid {
      var j := x.seqno - 1;
      assert Uids(ps)[j] == Uids(ps)[i];
      assert j == i;
    }
  }

  lemma SomesHold(bs: seq<Bmail>, x: Bmail)
    ensures Some(x) in Somes(bs) <==> x in bs
  {
    if x in bs {
      var i :| 0 <= i < |bs| && bs[i] == x;
      assert Somes(bs)[i] == Some(x);
    }
  }

  /** A message set fetched by uid yields exactly the mailbox's messages that one
      of the reached ranges fetches. */
  lemma {:induction false} SetExact(ps: seq<Piece>, ranges: seq<Range>, x: Bmail)
    requires Increasing(Uids(ps)) && ps != []
    ensures Some(x) in SetByUID(ps, ranges) <==>
      Placed(ps, x) && exists i :: Reached(ranges, i) && Asks(ps, ranges[i], x.uid)
  {
    hide Contribution;
    if ranges != [] && WellFormed(ranges[0]) {
      SetExact(ps, ranges[1..], x);
      ContributionExact(ps, ranges[0], x);
      ReachedShift(ranges);
      if Asks(ps, ranges[0], x.uid) {
        assert Reached(ranges, 0);
      } else if i :| Reached(ranges[1..], i) && Asks(ps, ranges[1..][i], x.uid) {
        assert Reached(ranges, i + 1);
      }
      if i :| Reached(ranges, i) && Asks(ps, ranges[i], x.uid) {
        if i > 0 { assert Reached(ranges[1..], i - 1); }
      }
    } else if ranges != [] {
      assert forall i :: !Reached(ranges, i);
    }
  }

  // How often each message comes, and in which order.

  ghost predicate AscendingUids(seg: seq<Option<Bmail>>) {
    forall i, j :: 0 <= i < j < |seg| && seg[i].Some? && seg[j].Some? ==> seg[i].value.uid < seg[j].value.uid
  }

  /** What a range is to be answered with: the one missing entry, or exactly the
      messages it asks for in ascending order of uid. */
  ghost predicate Answers(ps: seq<Piece>, r: Range, seg: seq<Option<Bmail>>)
    requires ps != [] && WellFormed(r)
  {
    if AbsentSingle(ps, r) then seg == [None]
    else
      && None !in seg && AscendingUids(seg)
      && forall x :: Some(x) in seg <==> Placed(ps, x) && Asks(ps, r, x.uid)
  }

  lemma SliceAscends(ps: seq<Piece>, a: nat, b: nat, first: nat)
    requires Increasing(Uids(ps)) && a <= b <= |ps|
    ensures AscendingUids(Somes(Numbered(ps[a..b], first)))
  {
    var seg := Somes(Numbered(ps[a..b], first));
    forall i, j | 0 <= i < j < |seg| ensures seg[i].value.uid < seg[j].value.uid {
      assert Uids(ps)[a + i] < Uids(ps)[a + j];
    }
  }

  lemma ContributionAscends(ps: seq<Piece>, r: Range)
    requires Increasing(Uids(ps)) && ps != [] && WellFormed(r)
    ensures AscendingUids(Contribution(ps, r))
  {
    hide MailboxSpec.Interval, SequenceNumbers.CountBelow, MailboxSpec.Lookup, AscendingUids;
    if r.min.Star? || r.max.Absent? {
      ShortAscends(Contribution(ps, r));
    } else {
      var start := r.min.n;
      var first := 1 + CountBelow(Uids(ps), start);
      if r.max.Value? && r.max.n == 0 {
        assert ps[0..|ps|] == ps && ps[0..0] == [];
        SliceAscends(ps, 0, |ps|, 1);
        ShortAscends(Somes([]));
      } else {
        var end := if r.max.Star? then ps[|ps| - 1].uid else r.max.n;
        var a, b := IntervalSlice(start, end, ps);
        SliceAscends(ps, a, b, first);
      }
    }
  }

  lemma ShortAscends(seg: seq<Option<Bmail>>)
    requires |seg| <= 1
    ensures AscendingUids(seg)
  {
  }

  lemma ContributionAnswers(ps: seq<Piece>, r: Range)
    requires Increasing(Uids(ps)) && ps != [] && WellFormed(r)
    ensures Answers(ps, r, Contribution(ps, r))
  {
    hide MailboxSpec.Interval, SequenceNumbers.CountBelow, MailboxSpec.Lookup, MailboxSpec.Placed;
    hide SinceUID, UIDRange, Asks;
    ContributionNil(ps, r);
    ContributionAscends(ps, r);
    forall x ensures Some(x) in Contribution(ps, r) <==> Placed(ps, x) && Asks(ps, r, x.uid) {
      ContributionExact(ps, r, x);
    }
  }

  function Flatten(segs: seq<seq<Option<Bmail>>>): seq<Option<Bmail>> {
    if segs == [] then [] else segs[0] + Flatten(segs[1..])
  }

  /** A message set fetched by uid is answered range by range, in their order, up to
      the first that is malformed. */
  lemma {:induction false} SetSegments(ps: seq<Piece>, ranges: seq<Range>) returns (segs: seq<seq<Option<Bmail>>>)
    requires Increasing(Uids(ps)) && ps != []
    ensures |segs| <= |ranges| && (|segs| < |ranges| ==> !WellFormed(ranges[|segs|]))
    ensures forall i :: 0 <= i < |segs| ==> WellFormed(ranges[i]) && Answers(ps, ranges[i], segs[i])
    ensures SetByUID(ps, ranges) == Flatten(segs)
  {
    hide Answers, Contribution;
    if ranges == [] || !WellFormed(ranges[0]) {
      segs := [];
    } else {
      ContributionAnswers(ps, ranges[0]);
      var rest := SetSegments(ps, ranges[1..]);
      segs := [Contribution(ps, ranges[0])] + rest;
      assert segs[1..] == rest;
      forall i | 0 <= i < |segs| ensures WellFormed(ranges[i]) && Answers(ps, ranges[i], segs[i]) {
        if i > 0 { assert segs[i] == rest[i - 1] && ranges[i] == ranges[1..][i - 1]; }
      }
    }
  }

  /** The range is answered with this entry. */
  ghost predicate Yields(ps: seq<Piece>, r: Range, x: Option<Bmail>)
    requires ps != [] && WellFormed(r)
  {
    if x.None? then AbsentSingle(ps, r) else Placed(ps, x.value) && Asks(ps, r, x.value.uid)
  }

  /** How many of the first n ranges are reached and answered with this entry. */
  ghost function Hits(ps: seq<Piece>, ranges: seq<Range>, x: Option<Bmail>, n: nat): nat
    requires ps != [] && n <= |ranges|
  {
    if n == 0 then 0
    else
      Hits(ps, ranges, x, n - 1) + if Reached(ranges, n - 1) && Yields(ps, ranges[n - 1], x) then 1 else 0
  }

  lemma {:induction false} OnceEach(seg: seq<Option<Bmail>>, x: Option<Bmail>)
    requires AscendingUids(seg) && None !in seg
    ensures multiset(seg)[x] == if x in seg then 1 else 0
  {
    if seg != [] {
      var n := |seg| - 1;
      assert seg == seg[..n] + [seg[n]];
      OnceEach(seg[..n], x);
      forall i | 0 <= i < n ensures seg[i] != seg[n] {
        assert seg[i] in seg && seg[n] in seg;
      }
    }
  }

  lemma AnswersOnce(ps: seq<Piece>, r: Range, seg: seq<Option<Bmail>>, x: Option<Bmail>)
    requires Increasing(Uids(ps)) && ps != [] && WellFormed(r) && Answers(ps, r, seg)
    ensures multiset(seg)[x] == if Yields(ps, r, x) then 1 else 0
  {
    hide MailboxSpec.Lookup;
    if !AbsentSingle(ps, r) {
      OnceEach(seg, x);
    } else if x.Some? {
      SingleExact(ps, r.min.n, x.value);
    }
  }

  lemma {:induction false} HitsFirst(ps: seq<Piece>, ranges: seq<Range>, x: Option<Bmail>, n: nat)
    requires ps != [] && n < |ranges| && WellFormed(ranges[0])
    ensures Hits(ps, ranges, x, n + 1) == Hits(ps, ranges[1..], x, n) + if Yields(ps, ranges[0], x) then 1 else 0
  {
    hide Yields, Reached, WellFormed;
    ReachedShift(ranges);
    if n == 0 {
      ReachedFirst(ranges);
      assert Hits(ps, ranges, x, 0) == 0;
    } else {
      HitsFirst(ps, ranges, x, n - 1);
      assert ranges[n] == ranges[1..][n - 1];
    }
  }

  lemma ReachedFirst(ranges: seq<Range>)
    requires ranges != [] && WellFormed(ranges[0])
    ensures Reached(ranges, 0)
  {
  }

  lemma {:induction false} NoHits(ps: seq<Piece>, ranges: seq<Range>, x: Option<Bmail>, n: nat)
    requires ps != [] && n <= |ranges| && (ranges != [] ==> !WellFormed(ranges[0]))
    ensures Hits(ps, ranges, x, n) == 0
  {
    if n > 0 { NoHits(ps, ranges, x, n - 1); }
  }

  /** A message, or a missing entry, comes as often as there are ranges reached that
      are answered with it. */
  lemma {:induction false} SetCounts(ps: seq<Piece>, ranges: seq<Range>, x: Option<Bmail>)
    requires Increasing(Uids(ps)) && ps != []
    ensures multiset(SetByUID(ps, ranges))[x] == Hits(ps, ranges, x, |ranges|)
  {
    hide Contribution, Answers, Yields, Hits;
    if ranges == [] || !WellFormed(ranges[0]) {
      NoHits(ps, ranges, x, |ranges|);
    } else {
      ContributionAnswers(ps, ranges[0]);
      AnswersOnce(ps, ranges[0], Contribution(ps, ranges[0]), x);
      SetCounts(ps, ranges[1..], x);
      HitsFirst(ps, ranges, x, |ranges| - 1);
    }
  }

  // Sets of sequence numbers.

  /** The fetch of one sequence number n as the code does it: the uid of message
      n is passed on as if it were a sequence number. */
  function FetchSequenceNumber(ps: seq<Piece>, n: nat): Option<Bmail>
    requires 1 <= n <= |ps|
  {
    var seqno := ps[n - 1].uid;
    if 1 <= seqno <= |ps| then Some(Bmail(ps[seqno - 1].uid, seqno, ps[seqno - 1].letter)) else None
  }

  /** It returns message n if and only if the uid of message n is n. */
  lemma FetchSequenceNumberRight(ps: seq<Piece>, n: nat)
    requires Increasing(Uids(ps)) && 1 <= n <= |ps|
    ensures FetchSequenceNumber(ps, n) == Some(Bmail(ps[n - 1].uid, n, ps[n - 1].letter)) <==> ps[n - 1].uid == n
    ensures ps[0].uid > 0 ==> (ps[n - 1].uid == n <==> forall i :: 0 <= i < n ==> ps[i].uid == i + 1)
  {
    if ps[0].uid > 0 && ps[n - 1].uid == n { NoGaps(ps, n); }
  }

  /** What it returns has the uid of message n as its sequence number; there is
      something exactly if that is the sequence number of a message. */
  lemma FetchSequenceNumberGives(ps: seq<Piece>, n: nat)
    requires 1 <= n <= |ps|
    ensures var r := FetchSequenceNumber(ps, n);
      && (r.Some? <==> 1 <= ps[n - 1].uid <= |ps|)
      && (r.Some? ==> Placed(ps, r.value) && r.value.seqno == ps[n - 1].uid)
  {
  }

  /** It is n if every uid up to it is that of a message that is still there and
      that the mailbox shows. */
  lemma {:induction false} NoGaps(ps: seq<Piece>, n: nat)
    requires Increasing(Uids(ps)) && 1 <= n <= |ps| && ps[0].uid > 0 && ps[n - 1].uid == n
    ensures forall i :: 0 <= i < n ==> ps[i].uid == i + 1
  {
    if n > 1 {
      AtLeast(ps, n - 2);
      assert Uids(ps)[n - 2] < Uids(ps)[n - 1];
      NoGaps(ps, n - 1);
    }
  }

  lemma {:induction false} AtLeast(ps: seq<Piece>, i: nat)
    requires Increasing(Uids(ps)) && i < |ps| && ps[0].uid > 0
    ensures ps[i].uid > i
  {
    if i > 0 {
      AtLeast(ps, i - 1);
      assert Uids(ps)[i - 1] < Uids(ps)[i];
    }
  }
}
