/** A user's objects over whole runs: they go through the states of the pipeline,
    so that what holds in every run of it holds of them. */
module UserRuns {
  import opened Base
  import opened Mail
  import opened FolderSpec
  import opened MailboxSpec
  import opened Pipeline
  import opened PipelineInv
  import opened PipelineMoves
  import opened PipelineCount
  import opened PipelineMail
  import opened Users
  import FolderKeys
  import SequenceNumbers

  /** The uids that an event takes in a box, at most. */
  function Need(e: Event): nat {
    if e.Pubkey? then |e.outsides| else 1
  }

  function Needs(events: seq<Event>): nat {
    if events == [] then 0 else Need(events[0]) + Needs(events[1..])
  }

  /** The uids on record were handed out by the Outbox. */
  ghost predicate Recorded(acks: map<Hash, nat>, next: nat) {
    forall h :: h in acks ==> acks[h] < next
  }

  ghost predicate Tame(p: Post) {
    Inv(p) && Recorded(p.acks, p.outbox.next)
  }

  /** A mail client names 32-bit uids. */
  predicate Uids32(e: Event) {
    e.Expunge? || e.Reflag? ==> e.uid < LIMIT32
  }

  /** No counter has grown by more than n. */
  ghost predicate Grown(p: Post, q: Post, n: nat) {
    && p.outbox.next <= q.outbox.next <= p.outbox.next + n
    && q.limbo.next <= p.limbo.next + n && q.sent.next <= p.sent.next + n
  }

  lemma SaveGrows(f: Folder, uid: nat, l: Letter)
    ensures f.next <= SaveIn(f, uid, l).0.next <= f.next + if uid == 0 then 1 else 0
  {
  }

  lemma ProcessGrows(p: Post, m: Bmsg, answer: Answer, ack: Option<Hash>)
    ensures Grown(p, Process(p, m, answer, ack).0, if m.uid == 0 then 1 else 0)
  {
    hide Pipeline.GenerateObject, MailboxSpec.SaveIn;
    SaveGrows(p.outbox, m.uid, GenerateObject(m.letter, answer).0);
  }

  lemma ProcessRecorded(p: Post, m: Bmsg, answer: Answer, ack: Option<Hash>)
    requires Recorded(p.acks, p.outbox.next) && m.uid < p.outbox.next
    ensures var q := Process(p, m, answer, ack).0;
      Recorded(q.acks, q.outbox.next)
  {
    hide Pipeline.GenerateObject, MailboxSpec.SaveIn;
    SaveGrows(p.outbox, m.uid, GenerateObject(m.letter, answer).0);
  }

  lemma {:induction false} ProcessAllGrows(p: Post, ls: seq<Letter>, outsides: seq<Outside>)
    requires Recorded(p.acks, p.outbox.next) && 0 < p.outbox.next
    ensures var q := ProcessAll(p, ls, outsides);
      Grown(p, q, |outsides|) && Recorded(q.acks, q.outbox.next)
    decreases |ls|
  {
    hide Pipeline.Process, Recorded;
    if ls != [] && outsides != [] {
      var o := outsides[0];
      ProcessGrows(p, Bmsg(0, ls[0]), o.answer, o.ack);
      ProcessRecorded(p, Bmsg(0, ls[0]), o.answer, o.ack);
      var (q, ok) := Process(p, Bmsg(0, ls[0]), o.answer, o.ack);
      if ok { ProcessAllGrows(q, ls[1..], outsides[1..]); }
    }
  }

  lemma DeleteNext(f: Folder, uid: nat)
    ensures DeleteIn(ALL, f, uid).next == f.next
  {
  }

  lemma MoveGrows(p: Post, uid: nat, from: Box, to: Box, now: nat)
    requires from != to && !to.Outbox?
    ensures var q := Move(p, uid, from, to, now);
      Grown(p, q, 1) && q.outbox.next == p.outbox.next && q.acks == p.acks
  {
    hide MailboxSpec.DeleteIn, MailboxSpec.Lookup, MailboxSpec.PiecesUpto;
    DeleteNext(BoxOf(p, from), uid);
  }

  lemma FinishAckGrows(p: Post, m: Bmsg, recorded: Hash, call: nat, finished: Hash, answer: Answer)
    ensures var q := FinishAck(p, m, recorded, call, finished, answer);
      Grown(p, q, 1) && q.acks == p.acks
  {
    hide Pipeline.GenerateObject, MailboxSpec.SaveIn;
    SaveGrows(p.outbox, m.uid, GenerateObject(m.letter.(ack := Some(finished)), answer).0);
  }

  lemma FinishSendGrows(p: Post, m: Bmsg, wire: Wire, now: nat)
    ensures var q := FinishSend(p, m, wire, now);
      Grown(p, q, 1) && q.acks == p.acks
  {
    hide Pipeline.Move, MailboxSpec.SaveIn;
    SaveGrows(p.outbox, m.uid, m.letter);
    var (outbox, uid, err) := SaveIn(p.outbox, m.uid, m.letter);
    if err.None? {
      var q := p.(outbox := outbox, network := p.network + [Transmission(wire, m.letter)]);
      MoveGrows(q, uid, Outbox, Destination(m.letter), now);
    }
  }

  lemma UserGrows(p: Post, e: Event)
    requires e.Expunge? || e.Reflag? || e.Append?
    ensures Grown(p, Step(p, e), 1) && Step(p, e).acks == p.acks
  {
    hide MailboxSpec.DeleteIn, MailboxSpec.Lookup, MailboxSpec.PiecesUpto, MailboxSpec.SaveIn;
    var f := BoxOf(p, e.box);
    match e
    case Expunge(_, uid) => DeleteNext(f, uid);
    case Reflag(_, uid, flags) => ChangeFlagsNext(f, uid, flags);
    case Append(_, email, flags, now) => SaveGrows(f, 0, FromEmail(email).(flags := flags, timeReceived := now));
  }

  lemma ChangeFlagsNext(f: Folder, uid: nat, flags: set<Flag>)
    ensures f.next <= ChangeFlags(f, uid, flags).next <= f.next + 1
  {
    hide MailboxSpec.Lookup, MailboxSpec.PiecesUpto, Mail.Rebuilt;
  }

  lemma GrownRecorded(p: Post, q: Post, n: nat)
    requires Recorded(p.acks, p.outbox.next) && Grown(p, q, n) && q.acks == p.acks
    ensures Recorded(q.acks, q.outbox.next)
  {
  }

  lemma DeliverGrows(p: Post, e: Email, outside: Outside, now: nat)
    requires Recorded(p.acks, p.outbox.next) && 0 < p.outbox.next
    ensures var q := Deliver(p, e, outside, now).0;
      Grown(p, q, 1) && Recorded(q.acks, q.outbox.next)
  {
    hide Pipeline.Process;
    var l := FromEmail(e).(flags := {Seen}, timeReceived := now);
    var q := p.(outbox := AddNew(p.outbox, FromEmail(e), now));
    assert Recorded(q.acks, q.outbox.next);
    ProcessGrows(q, Bmsg(p.outbox.next, l), outside.answer, outside.ack);
    ProcessRecorded(q, Bmsg(p.outbox.next, l), outside.answer, outside.ack);
  }

  lemma FinishGrows(p: Post, i: nat, finished: Hash, answer: Answer, now: nat)
    requires i < |p.pending|
    ensures var q := Finish(TakeOrder(p, i), p.pending[i], finished, answer, now);
      Grown(p, q, 1) && q.acks == p.acks
  {
    hide Pipeline.FinishAck, Pipeline.FinishSend;
    match p.pending[i]
    case AckOrder(m, recorded, call) => FinishAckGrows(TakeOrder(p, i), m, recorded, call, finished, answer);
    case SendOrder(m, wire, _) => FinishSendGrows(TakeOrder(p, i), m, wire, now);
  }

  lemma AckReplyGrows(p: Post, hash: Hash, now: nat)
    ensures var q := DeliverAckReply(p, hash, now).0;
      Grown(p, q, 1) && q.acks == p.acks
  {
    hide Pipeline.Move, MailboxSpec.Lookup, MailboxSpec.PiecesUpto;
    if hash in p.acks { MoveGrows(p, p.acks[hash], Limbo, Box.Sent, now); }
  }

  /** One event takes no more uids than it needs. */
  lemma StepGrows(p: Post, e: Event)
    requires Tame(p)
    ensures Tame(Step(p, e)) && Grown(p, Step(p, e), Need(e))
  {
    hide Inv, Recorded, Pipeline.Deliver, Pipeline.ProcessAll, Pipeline.Finish, Pipeline.DeliverAckReply;
    hide MailboxSpec.DeleteIn, Pipeline.ChangeFlags, MailboxSpec.SaveIn;
    StepInv(p, e);
    InvBox(p, Outbox);
    var q := Step(p, e);
    match e
    case Smtp(email, outside, now) => DeliverGrows(p, email, outside, now);
    case Pubkey(wanted, outsides) => ProcessAllGrows(p, WaitingFor(Pieces(ALL, p.outbox), wanted), outsides);
    case PowDone(i, finished, answer, now) =>
      if i < |p.pending| {
        FinishGrows(p, i, finished, answer, now);
        GrownRecorded(p, q, 1);
      }
    case PowLost(_) =>
    case AckReply(hash, now) =>
      AckReplyGrows(p, hash, now);
      GrownRecorded(p, q, 1);
    case Expunge(_, _) =>
      UserGrows(p, e);
      GrownRecorded(p, q, 1);
    case Reflag(_, _, _) =>
      UserGrows(p, e);
      GrownRecorded(p, q, 1);
    case Append(_, _, _, _) =>
      UserGrows(p, e);
      GrownRecorded(p, q, 1);
  }

  /** Every box has n uids left. */
  ghost predicate RoomFor(u: User, n: nat)
    reads u.outbox.mbox, u.limbo.mbox, u.sent.mbox
  {
    && u.outbox.mbox.nextID + n < u.outbox.bound
    && u.limbo.mbox.nextID + n < u.limbo.bound
    && u.sent.mbox.nextID + n < u.sent.bound
  }

  lemma OrderUid(p: Post, i: nat)
    requires Inv(p) && i < |p.pending|
    ensures p.pending[i].bmsg.uid < p.outbox.next
  {
    assert OrderOk(p.pending[i], p.outbox.next, p.ledger.Keys);
  }

  /** One event, done to the objects. */
  method Perform(u: User, e: Event)
    requires u.Valid() && Tame(u.State()) && RoomFor(u, Need(e)) && Uids32(e)
    modifies u.Footprint()
    ensures u.Valid() && u.State() == Step(old(u.State()), e)
  {
    hide FolderKeys.Holds, SequenceNumbers.SafeProbe, MailboxSpec.SaveIn, MailboxSpec.PiecesUpto, MailboxSpec.Lookup;
    hide MailboxSpec.Recents, MailboxSpec.Unseens, MailboxSpec.Readable, Inv, Pipeline.Finish, MailboxSpec.DeleteIn;
    match e {
      case Smtp(email, outside, now) =>
        var _ := u.DeliverFromSMTP(email, outside, now);
      case Pubkey(wanted, outsides) =>
        u.DeliverPublic(wanted, outsides);
      case PowDone(i, finished, answer, now) =>
        if i < |u.pending| {
          OrderUid(u.State(), i);
          u.PowDone(i, finished, answer, now);
        }
      case PowLost(i) =>
        if i < |u.pending| {
          u.PowLost(i);
        }
      case AckReply(hash, now) =>
        var _ := u.DeliverAckReply(hash, now);
      case Expunge(box, uid) =>
        u.Discard(uid, box);
      case Reflag(box, uid, flags) =>
        u.ChangeFlags(box, uid, flags);
      case Append(box, email, flags, now) =>
        u.Append(box, email, flags, now);
    }
  }

  lemma NeedsFrom(events: seq<Event>, i: nat)
    requires i < |events|
    ensures Needs(events[i..]) == Need(events[i]) + Needs(events[i + 1..])
  {
    assert events[i..][0] == events[i] && events[i..][1..] == events[i + 1..];
  }

  lemma RunUpto(p: Post, events: seq<Event>, i: nat)
    requires i < |events|
    ensures Run(p, events[..i + 1]) == Step(Run(p, events[..i]), events[i])
  {
    hide Pipeline.Step;
    assert events[..i + 1][..i] == events[..i];
  }

  /** Any run, from any state in order in which the boxes have room for it: the
      objects end in the state that the pipeline ends in. */
  method Replay(u: User, events: seq<Event>)
    requires u.Valid() && Tame(u.State()) && RoomFor(u, Needs(events))
    requires forall i :: 0 <= i < |events| ==> Uids32(events[i])
    modifies u.Footprint()
    ensures u.Valid() && u.State() == Run(old(u.State()), events) && Tame(u.State())
  {
    hide FolderKeys.Holds, SequenceNumbers.SafeProbe, MailboxSpec.PiecesUpto, MailboxSpec.Recents;
    hide MailboxSpec.Unseens, MailboxSpec.Readable, Tame, Pipeline.Step, Pipeline.Run, Needs;
    ghost var p := u.State();
    var i := 0;
    assert events[0..] == events && Run(p, events[..0]) == p by { RunNothing(p, events); }
    while i < |events|
      invariant i <= |events| && u.Valid() && Tame(u.State())
      invariant u.State() == Run(p, events[..i]) && RoomFor(u, Needs(events[i..]))
    {
      hide FolderKeys.Holds, SequenceNumbers.SafeProbe, MailboxSpec.PiecesUpto, MailboxSpec.Recents;
      hide MailboxSpec.Unseens, MailboxSpec.Readable, Tame, Pipeline.Step, Pipeline.Run, Needs;
      NeedsFrom(events, i);
      RunUpto(p, events, i);
      StepGrows(u.State(), events[i]);
      Perform(u, events[i]);
      i := i + 1;
    }
    assert events[..i] == events;
  }

  lemma RunNothing(p: Post, events: seq<Event>)
    ensures events[0..] == events && Run(p, events[..0]) == p
  {
  }

  /** A run of the objects from three empty boxes keeps account of every message, and
      makes up none. */
  method ReplayFromStart(u: User, events: seq<Event>)
    requires u.Valid() && u.State() == START && RoomFor(u, Needs(events))
    requires forall i :: 0 <= i < |events| ==> Uids32(events[i])
    modifies u.Footprint()
    ensures u.Valid() && u.State() == Run(START, events)
    ensures Total(u.State()) + Removals(events) == Arrivals(events) + LateCopies(events)
    ensures Genuine(events, u.State())
    ensures forall c: nat, forAck: bool :: Count(u.State().issued, Issue(c, forAck)) <= 1
  {
    hide FolderKeys.Holds, SequenceNumbers.SafeProbe, Pipeline.Run, Needs, PipelineMail.Genuine;
    RunInv([]);
    assert Tame(START) by { RunNothing(START, []); }
    Replay(u, events);
    Conserved(events);
    NothingMadeUp(events);
    forall c: nat, forAck: bool ensures Count(u.State().issued, Issue(c, forAck)) <= 1 {
      TwoOrdersPerCall(events, c);
    }
  }
}
