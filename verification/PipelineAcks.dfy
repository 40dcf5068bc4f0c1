/** Which ack replies find their message. An ack is put on record under its hash
    before the proof of work and with the uid its message has in the Outbox; a
    reply carries the hash after the proof of work, and is looked up in Limbo. */
module PipelineAcks {
  import opened Base
  import opened Mail
  import opened FolderSpec
  import opened MailboxSpec
  import opened Pipeline
  import opened PipelineInv
  import opened PipelineMoves

  /** Limbo holds under this uid a message that expects the ack with this hash. */
  ghost predicate Awaits(p: Post, id: nat, hash: Hash) {
    && id in p.limbo.messages && p.limbo.messages[id].payload.Encoded?
    && p.limbo.messages[id].payload.letter.state.ackExpected
    && p.limbo.messages[id].payload.letter.ack == Some(hash)
  }

  /** The reply takes the message out of Limbo. */
  ghost predicate Finds(p: Post, hash: Hash, id: nat, now: nat) {
    id in p.limbo.messages && id !in DeliverAckReply(p, hash, now).0.limbo.messages
  }

  /** In every reachable state: the reply to a message in Limbo finds it if and only
      if the hash it carries is on record with the uid the message has in Limbo. */
  lemma ReplyFinds(events: seq<Event>, id: nat, hash: Hash, now: nat)
    requires Awaits(Run(START, events), id, hash)
    ensures var p := Run(START, events);
      Finds(p, hash, id, now) <==> hash in p.acks && p.acks[hash] == id
  {
    hide Pipeline.Run, Pipeline.DeliverAckReply, Inv;
    RunInv(events);
    ReplyFindsAt(Run(START, events), id, hash, now);
  }

  lemma ReplyFindsAt(p: Post, id: nat, hash: Hash, now: nat)
    requires Inv(p) && Awaits(p, id, hash)
    ensures Finds(p, hash, id, now) <==> hash in p.acks && p.acks[hash] == id
  {
    hide Pipeline.DeliverAckReply;
    AckReplyExact(p, hash, now);
  }

  // Without collisions of hashes.

  ghost predicate Unused(p: Post, h: Hash) {
    h !in p.acks && h !in p.ledger
  }

  /** No hash that comes up is that of another object: neither that of a new ack,
      nor that of an ack with its nonce. The nonce may leave the hash as it was. */
  ghost predicate NoCollision(p: Post, e: Event) {
    match e
    case Smtp(_, outside, _) => outside.ack.Some? ==> Unused(p, outside.ack.value)
    case Pubkey(_, outsides) => AllUnused(p, outsides)
    case PowDone(i, finished, _, _) =>
      i < |p.pending| && p.pending[i].AckOrder? ==>
        finished !in p.ledger && (finished in p.acks ==> finished == p.pending[i].recorded)
    case _ => true
  }

  ghost predicate AllUnused(p: Post, outsides: seq<Outside>) {
    && (forall i :: 0 <= i < |outsides| && outsides[i].ack.Some? ==> Unused(p, outsides[i].ack.value))
    && (forall i, j :: 0 <= i < j < |outsides| && outsides[i].ack.Some? ==> outsides[i].ack != outsides[j].ack)
  }

  ghost predicate WithoutCollisions(events: seq<Event>) {
    events == [] ||
    var front := events[..|events| - 1];
    WithoutCollisions(front) && NoCollision(Run(START, front), events[|events| - 1])
  }

  /** A finished ack is on record under its own hash only if that is the hash it was
      recorded under, and then with the uid recorded at the time. */
  ghost predicate Filed(p: Post, h: Hash)
    requires h in p.ledger
  {
    && (h in p.acks <==> h == p.ledger[h].recorded)
    && (h in p.acks ==> p.acks[h] == p.ledger[h].uid)
  }

  ghost predicate OnRecord(acks: map<Hash, nat>, o: Order) {
    o.AckOrder? ==> o.recorded in acks && acks[o.recorded] == o.bmsg.uid
  }

  ghost predicate Kept(p: Post) {
    && (forall h :: h in p.ledger ==> Filed(p, h))
    && (forall i :: 0 <= i < |p.pending| ==> OnRecord(p.acks, p.pending[i]))
  }

  /** What one call of process does to the records. */
  lemma ProcessRecords(p: Post, m: Bmsg, answer: Answer, ack: Option<Hash>)
    ensures var q := Process(p, m, answer, ack).0;
      && q.ledger == p.ledger
      && ((q.acks == p.acks && q.pending == p.pending)
          || (q.acks == p.acks && |q.pending| == |p.pending| + 1 && q.pending[|p.pending|].SendOrder?
              && q.pending[..|p.pending|] == p.pending)
          || (ack.Some? && q.acks == p.acks[ack.value := m.uid] && |q.pending| == |p.pending| + 1
              && q.pending[..|p.pending|] == p.pending
              && var o := q.pending[|p.pending|]; o.AckOrder? && o.recorded == ack.value && o.bmsg.uid == m.uid))
  {
  }

  lemma ProcessKept(p: Post, m: Bmsg, answer: Answer, ack: Option<Hash>)
    requires Kept(p) && (ack.Some? ==> Unused(p, ack.value))
    ensures Kept(Process(p, m, answer, ack).0)
  {
    hide Pipeline.Process;
    var q := Process(p, m, answer, ack).0;
    ProcessRecords(p, m, answer, ack);
    forall h | h in q.ledger ensures Filed(q, h) {
      assert Filed(p, h);
    }
    forall i | 0 <= i < |q.pending| ensures OnRecord(q.acks, q.pending[i]) {
      if i < |p.pending| {
        assert q.pending[i] == q.pending[..|p.pending|][i];
        assert OnRecord(p.acks, p.pending[i]);
      }
    }
  }

  lemma ProcessUnused(p: Post, m: Bmsg, outsides: seq<Outside>)
    requires outsides != [] && AllUnused(p, outsides)
    ensures AllUnused(Process(p, m, outsides[0].answer, outsides[0].ack).0, outsides[1..])
  {
    hide Pipeline.Process;
    var o := outsides[0];
    var q := Process(p, m, o.answer, o.ack).0;
    ProcessRecords(p, m, o.answer, o.ack);
    var rest := outsides[1..];
    forall i | 0 <= i < |rest| && rest[i].ack.Some? ensures Unused(q, rest[i].ack.value) {
      assert rest[i] == outsides[i + 1] && Unused(p, outsides[i + 1].ack.value);
      assert o.ack.Some? ==> outsides[0].ack != outsides[i + 1].ack;
    }
  }

  lemma {:induction false} ProcessAllKept(p: Post, ls: seq<Letter>, outsides: seq<Outside>)
    requires Kept(p) && AllUnused(p, outsides)
    ensures Kept(ProcessAll(p, ls, outsides))
    decreases |ls|
  {
    hide Pipeline.Process, Kept;
    if ls != [] && outsides != [] {
      var (q, ok) := Process(p, Bmsg(0, ls[0]), outsides[0].answer, outsides[0].ack);
      ProcessKept(p, Bmsg(0, ls[0]), outsides[0].answer, outsides[0].ack);
      ProcessUnused(p, Bmsg(0, ls[0]), outsides);
      if ok { ProcessAllKept(q, ls[1..], outsides[1..]); }
    }
  }

  lemma TakeOrderKept(p: Post, i: nat)
    requires Kept(p) && i < |p.pending|
    ensures Kept(TakeOrder(p, i)) && OnRecord(p.acks, p.pending[i])
  {
    var q := TakeOrder(p, i);
    forall h | h in q.ledger ensures Filed(q, h) {
      assert Filed(p, h);
    }
    forall j | 0 <= j < |q.pending| ensures OnRecord(q.acks, q.pending[j]) {
      assert q.pending[j] == p.pending[if j < i then j else j + 1];
    }
  }

  lemma FinishAckKept(p: Post, m: Bmsg, recorded: Hash, call: nat, finished: Hash, answer: Answer)
    requires Kept(p) && OnRecord(p.acks, AckOrder(m, recorded, call))
    requires finished !in p.ledger && (finished in p.acks ==> finished == recorded)
    ensures Kept(FinishAck(p, m, recorded, call, finished, answer))
  {
    hide Pipeline.GenerateObject, MailboxSpec.SaveIn;
    var q := FinishAck(p, m, recorded, call, finished, answer);
    forall h | h in q.ledger ensures Filed(q, h) {
      assert h != finished ==> Filed(p, h);
    }
    forall i | 0 <= i < |q.pending| ensures OnRecord(q.acks, q.pending[i]) {
      assert i < |p.pending| ==> q.pending[i] == p.pending[i] && OnRecord(p.acks, p.pending[i]);
    }
  }

  lemma FinishSendRecords(p: Post, m: Bmsg, wire: Wire, now: nat)
    ensures var q := FinishSend(p, m, wire, now);
      q.acks == p.acks && q.ledger == p.ledger && q.pending == p.pending
  {
  }

  lemma SameKept(p: Post, q: Post)
    requires Kept(p) && q.acks == p.acks && q.ledger == p.ledger && q.pending == p.pending
    ensures Kept(q)
  {
    forall h | h in q.ledger ensures Filed(q, h) {
      assert Filed(p, h);
    }
  }

  lemma FinishKept(p: Post, i: nat, finished: Hash, answer: Answer, now: nat)
    requires Kept(p) && i < |p.pending| && NoCollision(p, PowDone(i, finished, answer, now))
    ensures Kept(Finish(TakeOrder(p, i), p.pending[i], finished, answer, now))
  {
    hide Pipeline.FinishAck, Pipeline.FinishSend, Kept;
    TakeOrderKept(p, i);
    var q := TakeOrder(p, i);
    match p.pending[i]
    case AckOrder(m, recorded, call) => FinishAckKept(q, m, recorded, call, finished, answer);
    case SendOrder(m, wire, call) =>
      FinishSendRecords(q, m, wire, now);
      SameKept(q, FinishSend(q, m, wire, now));
  }

  lemma StepKept(p: Post, e: Event)
    requires Kept(p) && NoCollision(p, e)
    ensures Kept(Step(p, e))
  {
    hide Pipeline.Process, Pipeline.ProcessAll, Pipeline.Finish, Kept, AllUnused;
    hide MailboxSpec.SaveIn, MailboxSpec.DeleteIn, Pipeline.ChangeFlags;
    match e
    case Smtp(email, outside, now) =>
      var l := FromEmail(email).(flags := {Seen}, timeReceived := now);
      var p1 := p.(outbox := AddNew(p.outbox, FromEmail(email), now));
      SameKept(p, p1);
      ProcessKept(p1, Bmsg(p.outbox.next, l), outside.answer, outside.ack);
    case Pubkey(wanted, outsides) => ProcessAllKept(p, WaitingFor(Pieces(ALL, p.outbox), wanted), outsides);
    case PowDone(i, finished, answer, now) => if i < |p.pending| { FinishKept(p, i, finished, answer, now); }
    case PowLost(i) => if i < |p.pending| { TakeOrderKept(p, i); }
    case AckReply(_, _) => SameKept(p, Step(p, e));
    case Expunge(_, _) => SameKept(p, Step(p, e));
    case Reflag(_, _, _) => SameKept(p, Step(p, e));
    case Append(_, _, _, _) => SameKept(p, Step(p, e));
  }

  lemma {:induction false} RunKept(events: seq<Event>)
    requires WithoutCollisions(events)
    ensures Kept(Run(START, events))
  {
    hide Pipeline.Step, NoCollision;
    if events != [] {
      RunKept(events[..|events| - 1]);
      StepKept(Run(START, events[..|events| - 1]), events[|events| - 1]);
    }
  }

  /** Without collisions: the reply to a message in Limbo finds it if and only if
      the proof of work left the ack's hash as it was recorded, and the uid recorded
      is the one the message got in Limbo. */
  lemma ReplyFindsOwn(events: seq<Event>, id: nat, hash: Hash, now: nat)
    requires WithoutCollisions(events) && Awaits(Run(START, events), id, hash)
    ensures var p := Run(START, events);
      && hash in p.ledger
      && (Finds(p, hash, id, now) <==> p.ledger[hash] == Receipt(hash, id))
  {
    hide Pipeline.Run, Finds, WithoutCollisions;
    var p := Run(START, events);
    RunInv(events);
    RunKept(events);
    ReplyFindsAt(p, id, hash, now);
    assert MessageFits(p.limbo.messages[id], p.ledger.Keys);
    assert Filed(p, hash);
  }

  /** So the reply to a message sent on account of a late key, which was processed
      without a uid, is never found. */
  lemma LateReplyLost(events: seq<Event>, id: nat, hash: Hash, now: nat)
    requires WithoutCollisions(events) && Awaits(Run(START, events), id, hash)
    requires hash in Run(START, events).ledger && Run(START, events).ledger[hash].uid == 0
    ensures !Finds(Run(START, events), hash, id, now)
  {
    hide Pipeline.Run, Finds, WithoutCollisions;
    ReplyFindsOwn(events, id, hash, now);
    RunInv(events);
    assert ValidId(Run(START, events).limbo, id);
  }

  // What Limbo holds.

  ghost predicate LimboLetter(m: Message, withAck: bool) {
    m.payload.Encoded? && m.payload.letter.state.ackExpected && (withAck ==> m.payload.letter.ack.Some?)
  }

  ghost predicate LimboExpects(p: Post, withAck: bool) {
    forall id :: id in p.limbo.messages ==> LimboLetter(p.limbo.messages[id], withAck)
  }

  /** Nothing is put into Limbo by hand, and, with `withAck`, no flags are changed. */
  predicate LeavesLimbo(e: Event, withAck: bool) {
    !(e.Append? && e.box.Limbo?) && !(withAck && e.Reflag? && e.box.Limbo?)
  }

  lemma {:induction false} ProcessAllLimbo(p: Post, ls: seq<Letter>, outsides: seq<Outside>)
    ensures ProcessAll(p, ls, outsides).limbo == p.limbo
    decreases |ls|
  {
    if ls != [] && outsides != [] {
      var (q, ok) := Process(p, Bmsg(0, ls[0]), outsides[0].answer, outsides[0].ack);
      assert q.limbo == p.limbo;
      if ok { ProcessAllLimbo(q, ls[1..], outsides[1..]); }
    }
  }

  lemma AddedToLimbo(p: Post, q: Post, l: Letter, now: nat, withAck: bool)
    requires LimboExpects(p, withAck) && q.limbo == AddNew(p.limbo, l, now)
    requires l.state.ackExpected && l.ack.Some?
    ensures LimboExpects(q, withAck)
  {
  }

  lemma FinishAckLimbo(p: Post, m: Bmsg, recorded: Hash, call: nat, finished: Hash, answer: Answer)
    ensures FinishAck(p, m, recorded, call, finished, answer).limbo == p.limbo
  {
  }

  lemma FinishLimbo(p: Post, i: nat, finished: Hash, answer: Answer, now: nat, withAck: bool)
    requires Inv(p) && i < |p.pending| && LimboExpects(p, withAck)
    ensures LimboExpects(Finish(TakeOrder(p, i), p.pending[i], finished, answer, now), withAck)
  {
    hide Pipeline.FinishSend, Pipeline.FinishAck, Pipeline.AddNew, Inv, LimboLetter;
    TakeOrderInv(p, i);
    var p1 := TakeOrder(p, i);
    match p.pending[i]
    case AckOrder(m, recorded, call) => FinishAckLimbo(p1, m, recorded, call, finished, answer);
    case SendOrder(m, wire, call) =>
      FinishSendExact(p1, m, wire, call, now);
      if m.uid in p1.outbox.messages && m.letter.state.ackExpected {
        AddedToLimbo(p1, FinishSend(p1, m, wire, now), m.letter, now, withAck);
      }
  }

  lemma StepLimbo(p: Post, e: Event, withAck: bool)
    requires Inv(p) && LimboExpects(p, withAck) && LeavesLimbo(e, withAck)
    ensures LimboExpects(Step(p, e), withAck)
  {
    hide Pipeline.ProcessAll, Pipeline.Finish, Pipeline.DeliverAckReply, Inv, LimboLetter;
    hide MailboxSpec.SaveIn, MailboxSpec.DeleteIn, Pipeline.ChangeFlags, Pipeline.GenerateObject;
    match e
    case Smtp(_, _, _) =>
    case Pubkey(wanted, outsides) => ProcessAllLimbo(p, WaitingFor(Pieces(ALL, p.outbox), wanted), outsides);
    case PowDone(i, finished, answer, now) => if i < |p.pending| { FinishLimbo(p, i, finished, answer, now, withAck); }
    case PowLost(_) =>
    case AckReply(hash, now) => AckReplyExact(p, hash, now);
    case Expunge(_, _) => UserLimbo(p, e, withAck);
    case Reflag(_, _, _) => UserLimbo(p, e, withAck);
    case Append(_, _, _, _) =>
  }

  lemma UserLimbo(p: Post, e: Event, withAck: bool)
    requires Inv(p) && LimboExpects(p, withAck) && LeavesLimbo(e, withAck) && (e.Expunge? || e.Reflag?)
    ensures LimboExpects(Step(p, e), withAck)
  {
    hide MailboxSpec.DeleteIn, Pipeline.ChangeFlags;
    if e.box.Limbo? {
      if e.Expunge? {
        DeleteFits(p.limbo, p.ledger.Keys, e.uid);
      } else {
        ChangeFlagsFits(p.limbo, p.ledger.Keys, e.uid, e.flags);
        var q := Step(p, e);
        forall id | id in q.limbo.messages ensures LimboLetter(q.limbo.messages[id], withAck) {
          assert id in p.limbo.messages.Keys && LimboLetter(p.limbo.messages[id], withAck);
        }
      }
    }
  }

  lemma {:induction false} RunLimbo(events: seq<Event>, withAck: bool)
    requires forall i :: 0 <= i < |events| ==> LeavesLimbo(events[i], withAck)
    ensures LimboExpects(Run(START, events), withAck)
  {
    hide Pipeline.Step, Inv;
    if events != [] {
      var n := |events| - 1;
      RunLimbo(events[..n], withAck);
      RunInv(events[..n]);
      StepLimbo(Run(START, events[..n]), events[n], withAck);
    }
  }

  /** As long as the user puts no message into Limbo, every message there expects an
      ack, and no reply is answered that none was expected. */
  lemma LimboExpectsAcks(events: seq<Event>, hash: Hash, now: nat)
    requires forall i :: 0 <= i < |events| ==> LeavesLimbo(events[i], false)
    ensures LimboExpects(Run(START, events), false)
    ensures DeliverAckReply(Run(START, events), hash, now).1 != NoAckExpected
  {
    hide Pipeline.Run, Pipeline.DeliverAckReply, Inv;
    var p := Run(START, events);
    RunLimbo(events, false);
    RunInv(events);
    AckReplyExact(p, hash, now);
    if hash in p.acks && p.acks[hash] in p.limbo.messages {
      assert LimboLetter(p.limbo.messages[p.acks[hash]], false);
    }
  }

  /** As long as the flags of the messages there are left alone too, each carries an
      ack whose proof of work is finished. */
  lemma LimboCarriesAcks(events: seq<Event>, id: nat)
    requires forall i :: 0 <= i < |events| ==> LeavesLimbo(events[i], true)
    requires id in Run(START, events).limbo.messages
    ensures var p := Run(START, events);
      exists hash :: hash in p.ledger && Awaits(p, id, hash)
  {
    hide Pipeline.Run;
    var p := Run(START, events);
    RunLimbo(events, true);
    RunInv(events);
    assert LimboLetter(p.limbo.messages[id], true) && MessageFits(p.limbo.messages[id], p.ledger.Keys);
    assert Awaits(p, id, p.limbo.messages[id].payload.letter.ack.value);
  }

  // Runs that show it.

  lemma RunNext(p: Post, a: seq<Event>, e: Event)
    ensures Run(p, a + [e]) == Step(Run(p, a), e)
  {
    assert (a + [e])[..|a|] == a;
  }

  /** A send without an ack, and one with an ack that is recorded under one hash and
      finished with another. */
  function PlainSend(e: Email): seq<Event> {
    [Smtp(e, Outside(Known(None, false, true), None), 0), PowDone(0, 0, Unusable, 0)]
  }

  function AckedSend(e: Email, recorded: Hash, finished: Hash): seq<Event> {
    [Smtp(e, Outside(Known(None, true, true), Some(recorded)), 0),
     PowDone(0, finished, Known(None, true, true), 0),
     PowDone(0, 0, Unusable, 0)]
  }

  lemma PlainSendEffect(p: Post, e: Email)
    requires Inv(p) && p.pending == [] && e.to.Peer?
    ensures var s := PlainSend(e); var q := Step(Step(p, s[0]), s[1]);
      Inv(q) && q.pending == [] && q.limbo == p.limbo && q.acks == p.acks && q.outbox.next == p.outbox.next + 1
  {
    hide Pipeline.FinishSend, Pipeline.Process, Pipeline.AddNew, Inv;
    var s := PlainSend(e);
    PlainSendPrepared(p, e);
    var p1 := Step(p, s[0]);
    var o := p1.pending[0];
    TakeOrderInv(p1, 0);
    FinishSendExact(TakeOrder(p1, 0), o.bmsg, o.wire, o.call, 0);
    StepInv(p1, s[1]);
  }

  lemma PlainSendPrepared(p: Post, e: Email)
    requires Inv(p) && p.pending == [] && e.to.Peer?
    ensures var q := Step(p, PlainSend(e)[0]);
      && Inv(q) && |q.pending| == 1 && q.pending[0].SendOrder? && q.limbo == p.limbo && q.acks == p.acks
      && q.outbox.next == p.outbox.next + 1 && p.outbox.next in q.outbox.messages
      && q.pending[0].bmsg.uid == p.outbox.next && !q.pending[0].bmsg.letter.state.ackExpected
  {
    StepInv(p, PlainSend(e)[0]);
  }

  lemma AckedSendOrdered(p: Post, e: Email, recorded: Hash, finished: Hash)
    requires Inv(p) && p.pending == [] && e.to.Peer?
    ensures var q := Step(p, AckedSend(e, recorded, finished)[0]);
      && Inv(q) && |q.pending| == 1 && q.limbo == p.limbo && q.acks == p.acks[recorded := p.outbox.next]
      && q.outbox.next == p.outbox.next + 1 && p.outbox.next in q.outbox.messages
      && var o := q.pending[0];
         o.AckOrder? && o.recorded == recorded && o.bmsg.uid == p.outbox.next && o.bmsg.letter.to.Peer?
         && o.bmsg.letter.state.ackExpected
  {
    StepInv(p, AckedSend(e, recorded, finished)[0]);
  }

  lemma AckedSendPrepared(p: Post, e: Email, recorded: Hash, finished: Hash)
    requires Inv(p) && p.pending == [] && e.to.Peer?
    ensures var s := AckedSend(e, recorded, finished); var q := Step(Step(p, s[0]), s[1]);
      && Inv(q) && |q.pending| == 1 && q.limbo == p.limbo && q.acks == p.acks[recorded := p.outbox.next]
      && var o := q.pending[0];
         o.SendOrder? && o.bmsg.uid in q.outbox.messages
         && o.bmsg.letter.state.ackExpected && o.bmsg.letter.ack == Some(finished)
  {
    hide Pipeline.Process, Pipeline.AddNew, Inv;
    var s := AckedSend(e, recorded, finished);
    AckedSendOrdered(p, e, recorded, finished);
    var p1 := Step(p, s[0]);
    StepInv(p1, s[1]);
    InvBox(p1, Outbox);
    assert TakeOrder(p1, 0).pending == [];
  }

  /** A message is sent with an ack and the reply comes in. It finds the message if
      and only if the hash the ack is finished with is then on record with the next
      uid of Limbo: its own, recorded with the next uid of the Outbox, or one that
      another message left there. */
  lemma AckedSendEffect(p: Post, e: Email, recorded: Hash, finished: Hash, now: nat)
    requires Inv(p) && p.pending == [] && e.to.Peer?
    ensures var s := AckedSend(e, recorded, finished); var q := Step(Step(Step(p, s[0]), s[1]), s[2]);
      && Inv(q) && q.acks == p.acks[recorded := p.outbox.next] && Awaits(q, p.limbo.next, finished)
      && q.limbo.messages.Keys == p.limbo.messages.Keys + {p.limbo.next}
      && (Finds(q, finished, p.limbo.next, now) <==>
            if finished == recorded then p.outbox.next == p.limbo.next
            else finished in p.acks && p.acks[finished] == p.limbo.next)
  {
    hide Pipeline.Step, Pipeline.AddNew, Inv, Finds;
    var s := AckedSend(e, recorded, finished);
    AckedSendPrepared(p, e, recorded, finished);
    var p2 := Step(Step(p, s[0]), s[1]);
    IntoLimbo(p2);
    InvBox(p2, Limbo);
    AddNewExact(p2.limbo, p2.pending[0].bmsg.letter, 0);
    ReplyFindsAt(Step(p2, s[2]), p.limbo.next, finished, now);
  }

  /** The only order under way, to send a message that expects an ack, is done. */
  lemma IntoLimbo(p: Post)
    requires Inv(p) && |p.pending| == 1 && p.pending[0].SendOrder?
    requires p.pending[0].bmsg.uid in p.outbox.messages && p.pending[0].bmsg.letter.state.ackExpected
    ensures var q := Step(p, PowDone(0, 0, Unusable, 0));
      Inv(q) && q.acks == p.acks && q.limbo == AddNew(p.limbo, p.pending[0].bmsg.letter, 0)
  {
    hide Pipeline.FinishSend, Pipeline.AddNew, Inv;
    var o := p.pending[0];
    StepInv(p, PowDone(0, 0, Unusable, 0));
    TakeOrderInv(p, 0);
    FinishSendExact(TakeOrder(p, 0), o.bmsg, o.wire, o.call, 0);
  }

  /** With a hash that is new, the reply is not recognized: so it is after every
      proof of work that changes the ack, whatever the uids are. */
  lemma NonceLosesReply(p: Post, e: Email, recorded: Hash, finished: Hash, now: nat)
    requires Inv(p) && p.pending == [] && e.to.Peer?
    requires finished != recorded && finished !in p.acks
    ensures var s := AckedSend(e, recorded, finished); var q := Step(Step(Step(p, s[0]), s[1]), s[2]);
      Awaits(q, p.limbo.next, finished) && DeliverAckReply(q, finished, now) == (q, Unrecognized)
  {
    hide Pipeline.Step, Inv, Pipeline.DeliverAckReply, Awaits, Finds;
    var s := AckedSend(e, recorded, finished);
    AckedSendEffect(p, e, recorded, finished, now);
    AckReplyExact(Step(Step(Step(p, s[0]), s[1]), s[2]), finished, now);
  }

  /** With the hash as it was, the reply to the second message still goes astray if
      the first wanted no ack, because the uids differ then. */
  lemma AckGoesAstray(e1: Email, e2: Email, hash: Hash)
    requires e1.to.Peer? && e2.to.Peer?
    ensures var p := Run(START, PlainSend(e1) + AckedSend(e2, hash, hash));
      Awaits(p, 1, hash) && DeliverAckReply(p, hash, 0) == (p, NoMessage)
  {
    hide Pipeline.Step, Inv, Pipeline.DeliverAckReply, Awaits, Finds;
    var s, t := PlainSend(e1), AckedSend(e2, hash, hash);
    RunInv([]);
    PlainSendEffect(START, e1);
    var p := Step(Step(START, s[0]), s[1]);
    AckedSendEffect(p, e2, hash, hash, 0);
    AckReplyExact(Step(Step(Step(p, t[0]), t[1]), t[2]), hash, 0);
    RunTwo(START, s[0], s[1]);
    RunNext(START, s, t[0]);
    RunNext(START, s + [t[0]], t[1]);
    RunNext(START, s + [t[0]] + [t[1]], t[2]);
    assert s + t == s + [t[0]] + [t[1]] + [t[2]] && s == [s[0], s[1]];
  }

  lemma RunTwo(p: Post, a: Event, b: Event)
    ensures Run(p, [a]) == Step(p, a) && Run(p, [a, b]) == Step(Step(p, a), b)
  {
    hide Pipeline.Step;
    RunNext(p, [], a);
    RunNext(p, [a], b);
    assert [] + [a] == [a] && [a] + [b] == [a, b];
  }

  /** A message put into Limbo by hand is taken for the one of a pending ack, and the
      reply is answered that none was expected. */
  lemma AppendFoolsReply(e: Email, added: Email, hash: Hash, now: nat)
    requires e.to.Peer?
    ensures var p := Run(START, [AckedSend(e, hash, hash)[0], Append(Limbo, added, {}, 0)]);
      DeliverAckReply(p, hash, now) == (p, NoAckExpected)
  {
    hide Pipeline.Deliver, Inv, Pipeline.DeliverAckReply;
    var a, b := AckedSend(e, hash, hash)[0], Append(Limbo, added, {}, 0);
    RunInv([]);
    AckedSendOrdered(START, e, hash, hash);
    RunTwo(START, a, b);
    StepInv(Step(START, a), b);
    AckReplyExact(Step(Step(START, a), b), hash, now);
  }

  /** Marking a message of Limbo as read takes its ack away; it goes on waiting for
      the reply. */
  lemma ReflagDropsAck(e: Email, hash: Hash, flags: set<Flag>)
    requires e.to.Peer?
    ensures var s := AckedSend(e, hash, hash);
      var p := Step(Step(Step(START, s[0]), s[1]), s[2]);
      var q := Step(p, Reflag(Limbo, 1, flags));
      && Awaits(p, 1, hash) && 1 in q.limbo.messages && q.limbo.messages[1].payload.Encoded?
      && q.limbo.messages[1].payload.letter.state.ackExpected && q.limbo.messages[1].payload.letter.ack.None?
  {
    hide Pipeline.Deliver, Pipeline.Finish, Inv, Pipeline.ChangeFlags, Finds;
    var s := AckedSend(e, hash, hash);
    RunInv([]);
    AckedSendEffect(START, e, hash, hash, 0);
    var p := Step(Step(Step(START, s[0]), s[1]), s[2]);
    InvBox(p, Limbo);
    ChangeFlagsFits(p.limbo, p.ledger.Keys, 1, flags);
  }
}
