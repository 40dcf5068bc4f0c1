/** How many messages there are: in every run, as many as were delivered or added
    and the copies that late keys leave behind, less what the user deleted. */
module PipelineCount {
  import opened Base
  import opened Mail
  import opened FolderSpec
  import opened MailboxSpec
  import opened Pipeline
  import opened PipelineInv
  import opened PipelineMoves

  // Late keys. What happens to a waiting letter depends on the letter and on what
  // the surroundings contribute, and on nothing else.

  /** The letter is saved: to be sent, or to wait on. */
  predicate Saves(l: Letter, answer: Answer) {
    var g := GenerateObject(l, answer).1;
    g.Object? || g.PubkeySent?
  }

  /** Processing it gives no error, so that the next letter gets its turn. */
  predicate Continues(l: Letter, outside: Outside) {
    Saves(l, outside.answer) || (GenerateObject(l, outside.answer).1.AckMissing? && outside.ack.Some?)
  }

  /** The number of letters saved. */
  function Copies(ls: seq<Letter>, outsides: seq<Outside>): nat
    decreases |ls|
  {
    if ls == [] || outsides == [] then 0
    else
      (if Saves(ls[0], outsides[0].answer) then 1 else 0) +
      (if Continues(ls[0], outsides[0]) then Copies(ls[1..], outsides[1..]) else 0)
  }

  /** Letter k gets its turn. */
  ghost predicate Reached(ls: seq<Letter>, outsides: seq<Outside>, k: int) {
    0 <= k < |ls| && k < |outsides| && forall j :: 0 <= j < k ==> Continues(ls[j], outsides[j])
  }

  lemma {:induction false} NoCopies(ls: seq<Letter>, outsides: seq<Outside>)
    ensures Copies(ls, outsides) == 0 <==>
      forall k :: Reached(ls, outsides, k) ==> !Saves(ls[k], outsides[k].answer)
    decreases |ls|
  {
    hide Saves, Continues;
    if ls != [] && outsides != [] {
      var ms, os := ls[1..], outsides[1..];
      NoCopies(ms, os);
      ReachedNext(ls, outsides, 0);
      if k :| Reached(ms, os, k) && Saves(ms[k], os[k].answer) {
        ReachedNext(ls, outsides, k + 1);
      }
      if k :| Reached(ls, outsides, k) && Saves(ls[k], outsides[k].answer) {
        ReachedNext(ls, outsides, k);
      }
    }
  }

  /** Each letter that gets its turn is processed, once. */
  lemma {:induction false} EachTurnOnce(p: Post, ls: seq<Letter>, outsides: seq<Outside>) returns (n: nat)
    ensures ProcessAll(p, ls, outsides).calls == p.calls + n
    ensures forall k :: Reached(ls, outsides, k) <==> 0 <= k < n
    decreases |ls|
  {
    hide Continues, Pipeline.Process;
    if ls == [] || outsides == [] {
      n := 0;
    } else {
      CopyContinues(p, ls[0], outsides[0]);
      CallCounted(p, Bmsg(0, ls[0]), outsides[0].answer, outsides[0].ack);
      n := 1;
      if Continues(ls[0], outsides[0]) {
        var q := Process(p, Bmsg(0, ls[0]), outsides[0].answer, outsides[0].ack).0;
        var rest := EachTurnOnce(q, ls[1..], outsides[1..]);
        n := rest + 1;
      }
      forall k ensures Reached(ls, outsides, k) <==> 0 <= k < n {
        ReachedNext(ls, outsides, k);
      }
    }
  }

  lemma CallCounted(p: Post, m: Bmsg, answer: Answer, ack: Option<Hash>)
    ensures Process(p, m, answer, ack).0.calls == p.calls + 1
  {
    hide Pipeline.GenerateObject, MailboxSpec.SaveIn;
  }

  lemma ReachedNext(ls: seq<Letter>, outsides: seq<Outside>, k: int)
    requires ls != [] && outsides != []
    ensures Reached(ls, outsides, k) <==>
      k == 0 || (k > 0 && Continues(ls[0], outsides[0]) && Reached(ls[1..], outsides[1..], k - 1))
  {
    hide Continues;
    var ms, os := ls[1..], outsides[1..];
    if k > 0 && Continues(ls[0], outsides[0]) && Reached(ms, os, k - 1) {
      forall j | 0 <= j < k ensures Continues(ls[j], outsides[j]) {
        if j > 0 { assert Continues(ms[j - 1], os[j - 1]); }
      }
    }
    if k > 0 && Reached(ls, outsides, k) {
      forall j | 0 <= j < k - 1 ensures Continues(ms[j], os[j]) {
        assert Continues(ls[j + 1], outsides[j + 1]);
      }
    }
  }

  lemma SaveCount(f: Folder, uid: nat, l: Letter)
    requires Good(f)
    ensures |SaveIn(f, uid, l).0.messages| == |f.messages| + if uid == 0 then 1 else 0
    ensures uid == 0 ==> SaveIn(f, uid, l).2.None?
  {
    if uid in f.messages { ReplaceExact(f, uid, l); }
  }

  /** One call of process adds a message exactly if it saves one without a uid. */
  lemma ProcessCount(p: Post, m: Bmsg, answer: Answer, ack: Option<Hash>)
    requires Good(p.outbox)
    ensures Total(Process(p, m, answer, ack).0) ==
      Total(p) + if m.uid == 0 && Saves(m.letter, answer) then 1 else 0
  {
    hide Pipeline.GenerateObject, MailboxSpec.SaveIn;
    SaveCount(p.outbox, m.uid, GenerateObject(m.letter, answer).0);
  }

  lemma CopyContinues(p: Post, l: Letter, outside: Outside)
    ensures Process(p, Bmsg(0, l), outside.answer, outside.ack).1 == Continues(l, outside)
  {
  }

  lemma {:induction false} ProcessAllCount(p: Post, ls: seq<Letter>, outsides: seq<Outside>)
    requires Inv(p) && AllFit(ls, p.ledger.Keys)
    ensures Total(ProcessAll(p, ls, outsides)) == Total(p) + Copies(ls, outsides)
    decreases |ls|
  {
    hide Pipeline.Process, Saves, Continues, Fits, BoxOk;
    if ls != [] && outsides != [] {
      var o := outsides[0];
      var q := Process(p, Bmsg(0, ls[0]), o.answer, o.ack).0;
      NextUnclaimed(p);
      InvBox(p, Outbox);
      ProcessInv(p, Bmsg(0, ls[0]), o.answer, o.ack);
      ProcessCount(p, Bmsg(0, ls[0]), o.answer, o.ack);
      CopyContinues(p, ls[0], o);
      if Continues(ls[0], o) { ProcessAllCount(q, ls[1..], outsides[1..]); }
    }
  }

  /** A key that comes in adds exactly one message for each waiting letter that gets
      its turn and is saved, so it adds none if and only if there is no such letter. */
  lemma PubkeyTotal(p: Post, wanted: set<Address>, outsides: seq<Outside>)
    requires Inv(p)
    ensures var ls := WaitingFor(Pieces(ALL, p.outbox), wanted);
      var q := DeliverPublic(p, wanted, outsides);
      && Total(q) == Total(p) + Copies(ls, outsides)
      && (Total(q) == Total(p) <==>
            forall k :: Reached(ls, outsides, k) ==> !Saves(ls[k], outsides[k].answer))
  {
    hide Pipeline.ProcessAll, Pipeline.WaitingFor, Copies, Inv;
    var ls := WaitingFor(Pieces(ALL, p.outbox), wanted);
    WaitingAllFit(p, wanted);
    ProcessAllCount(p, ls, outsides);
    NoCopies(ls, outsides);
  }

  /** Whatever the answer, everything that is in the Outbox stays there as it is;
      what is saved of the letter is saved beside it, under the next uid. */
  lemma PubkeyDuplicates(p: Post, l: Letter, outside: Outside)
    requires Inv(p) && Fits(l, p.ledger.Keys)
    ensures var q := Process(p, Bmsg(0, l), outside.answer, outside.ack).0;
      var m := Message(2, Encoded(GenerateObject(l, outside.answer).0));
      && q.outbox.messages ==
           (if Saves(l, outside.answer) then p.outbox.messages[p.outbox.next := m] else p.outbox.messages)
      && p.outbox.next !in p.outbox.messages
      && q.limbo == p.limbo && q.sent == p.sent
  {
    hide Pipeline.GenerateObject;
    NextUnclaimed(p);
    Generates(l, outside.answer, p.ledger.Keys);
  }

  // The balance of a run.

  /** The end of the proof of work of an ack saves the message; one without a uid
      becomes one message more. */
  predicate SavesLate(o: Order, finished: Hash, answer: Answer) {
    && o.AckOrder? && o.bmsg.uid == 0
    && GenerateObject(o.bmsg.letter.(ack := Some(finished)), answer).1.Object?
  }

  /** The copies saved in one step on account of a late key. */
  function CopiesIn(p: Post, e: Event): nat {
    match e
    case Pubkey(wanted, outsides) => Copies(WaitingFor(Pieces(ALL, p.outbox), wanted), outsides)
    case PowDone(i, finished, answer, now) =>
      if i < |p.pending| && SavesLate(p.pending[i], finished, answer) then 1 else 0
    case _ => 0
  }

  predicate Removes(p: Post, e: Event) {
    e.Expunge? && e.uid in BoxOf(p, e.box).messages
  }

  function LateCopies(events: seq<Event>): nat {
    if events == [] then 0
    else
      var front := events[..|events| - 1];
      LateCopies(front) + CopiesIn(Run(START, front), events[|events| - 1])
  }

  function Removals(events: seq<Event>): nat {
    if events == [] then 0
    else
      var front := events[..|events| - 1];
      Removals(front) + if Removes(Run(START, front), events[|events| - 1]) then 1 else 0
  }

  /** The messages that come from outside: over SMTP, or added by the user. */
  function Arrivals(events: seq<Event>): nat {
    if events == [] then 0
    else
      var e := events[|events| - 1];
      Arrivals(events[..|events| - 1]) + if e.Smtp? || e.Append? then 1 else 0
  }

  lemma DeliverCount(p: Post, e: Email, outside: Outside, now: nat)
    requires Inv(p)
    ensures Total(Deliver(p, e, outside, now).0) == Total(p) + 1
  {
    hide Pipeline.Process;
    var l := FromEmail(e).(flags := {Seen}, timeReceived := now);
    AddNewExact(p.outbox, FromEmail(e), now);
    var q := p.(outbox := AddNew(p.outbox, FromEmail(e), now));
    ProcessCount(q, Bmsg(p.outbox.next, l), outside.answer, outside.ack);
  }

  lemma FinishCount(p: Post, i: nat, finished: Hash, answer: Answer, now: nat)
    requires Inv(p) && i < |p.pending|
    ensures Total(Finish(TakeOrder(p, i), p.pending[i], finished, answer, now)) ==
      Total(p) + if SavesLate(p.pending[i], finished, answer) then 1 else 0
  {
    hide Pipeline.FinishSend, Pipeline.GenerateObject, MailboxSpec.SaveIn, BoxOk;
    TakeOrderInv(p, i);
    InvBox(p, Outbox);
    match p.pending[i]
    case AckOrder(m, recorded, call) =>
      SaveCount(p.outbox, m.uid, GenerateObject(m.letter.(ack := Some(finished)), answer).0);
    case SendOrder(m, wire, call) => FinishSendExact(TakeOrder(p, i), m, wire, call, now);
  }

  lemma DeleteCount(f: Folder, done: set<Hash>, uid: nat)
    requires BoxOk(f, done)
    ensures |DeleteIn(ALL, f, uid).messages| == |f.messages| - if uid in f.messages then 1 else 0
  {
    hide MailboxSpec.DeleteIn, BoxOk;
    DeleteFits(f, done, uid);
    CutSize(f.messages, uid);
  }

  lemma ChangeFlagsCount(f: Folder, done: set<Hash>, uid: nat, flags: set<Flag>)
    requires BoxOk(f, done)
    ensures |ChangeFlags(f, uid, flags).messages| == |f.messages|
  {
    hide Pipeline.ChangeFlags, BoxOk;
    ChangeFlagsFits(f, done, uid, flags);
    SameSize(f.messages, ChangeFlags(f, uid, flags).messages);
  }

  lemma SameSize(m: map<nat, Message>, n: map<nat, Message>)
    requires m.Keys == n.Keys
    ensures |m| == |n|
  {
    assert |m| == |m.Keys| && |n| == |n.Keys|;
  }

  lemma UserCount(p: Post, e: Event)
    requires Inv(p) && (e.Expunge? || e.Reflag? || e.Append?)
    ensures Total(Step(p, e)) + (if Removes(p, e) then 1 else 0) == Total(p) + if e.Append? then 1 else 0
  {
    hide MailboxSpec.DeleteIn, Pipeline.ChangeFlags, MailboxSpec.SaveIn, Total, Pipeline.WithBox, Pipeline.BoxOf;
    hide Inv, BoxOk, FolderSpec.Good;
    var f := BoxOf(p, e.box);
    InvBox(p, e.box);
    match e
    case Expunge(box, uid) =>
      DeleteCount(f, p.ledger.Keys, uid);
      BoxCount(p, box, DeleteIn(ALL, f, uid));
    case Reflag(box, uid, flags) =>
      ChangeFlagsCount(f, p.ledger.Keys, uid, flags);
      BoxCount(p, box, ChangeFlags(f, uid, flags));
    case Append(box, email, flags, now) =>
      var l := FromEmail(email).(flags := flags, timeReceived := now);
      SaveCount(f, 0, l);
      BoxCount(p, box, SaveIn(f, 0, l).0);
  }

  lemma StepCount(p: Post, e: Event)
    requires Inv(p)
    ensures Total(Step(p, e)) + (if Removes(p, e) then 1 else 0) ==
      Total(p) + (if e.Smtp? || e.Append? then 1 else 0) + CopiesIn(p, e)
  {
    hide Pipeline.Deliver, Pipeline.Finish, Pipeline.DeliverPublic, Pipeline.DeliverAckReply, Inv;
    hide MailboxSpec.DeleteIn, Pipeline.ChangeFlags, MailboxSpec.SaveIn, Saves, SavesLate;
    match e
    case Smtp(email, outside, now) => DeliverCount(p, email, outside, now);
    case Pubkey(wanted, outsides) => PubkeyTotal(p, wanted, outsides);
    case PowDone(i, finished, answer, now) => if i < |p.pending| { FinishCount(p, i, finished, answer, now); }
    case PowLost(i) =>
    case AckReply(hash, now) => AckReplyExact(p, hash, now);
    case Expunge(_, _) => UserCount(p, e);
    case Reflag(_, _, _) => UserCount(p, e);
    case Append(_, _, _, _) => UserCount(p, e);
  }

  /** Conservation, in every run: the three boxes together hold one message for
      each that arrived and one for each copy a late key left behind, less those
      that the user deleted. */
  lemma {:induction false} Conserved(events: seq<Event>)
    ensures Total(Run(START, events)) + Removals(events) == Arrivals(events) + LateCopies(events)
  {
    hide Pipeline.Step, Inv, CopiesIn, Removes;
    if events != [] {
      var n := |events| - 1;
      Conserved(events[..n]);
      RunInv(events[..n]);
      StepCount(Run(START, events[..n]), events[n]);
    }
  }
}
