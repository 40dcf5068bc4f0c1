/** What is stored and sent is what the e-mails say. */
module PipelineMail {
  import opened Base
  import opened Mail
  import opened FolderSpec
  import opened MailboxSpec
  import opened Pipeline
  import opened PipelineInv

  /** The letter has sender, recipient, expiration, subject and body of the e-mail. */
  predicate Says(l: Letter, e: Email) {
    && l.from == e.from && l.to == e.to && l.expiration == e.expiration
    && l.content.subject == e.subject && l.content.body == e.body
  }

  // One delivery.

  /** A delivery puts the e-mail into the Outbox under the next uid, marked as seen and
      with the date, and changes nothing else that is stored. */
  lemma DeliverStores(p: Post, e: Email, outside: Outside, now: nat)
    requires Good(p.outbox)
    ensures var q := Deliver(p, e, outside, now).0;
      var uid := p.outbox.next;
      && q.outbox.next == uid + 1 && q.outbox.messages.Keys == p.outbox.messages.Keys + {uid}
      && (forall id :: id in p.outbox.messages ==> id != uid && q.outbox.messages[id] == p.outbox.messages[id])
      && q.limbo == p.limbo && q.sent == p.sent
      && var m := q.outbox.messages[uid];
         m.suffix == 2 && m.payload.Encoded? && Says(m.payload.letter, e) && m.payload.letter.content.encoding == 2
         && m.payload.letter.flags == {Seen} && m.payload.letter.timeReceived == now
  {
    hide Pipeline.GenerateObject;
    GenerateChanges(FromEmail(e).(flags := {Seen}, timeReceived := now), outside.answer);
  }

  /** The content that goes out for an e-mail. */
  predicate Carries(wire: Wire, e: Email, ack: Option<Hash>) {
    && wire.content.encoding == 2 && wire.content.subject == e.subject && wire.content.body == e.body
    && (if e.to.Broadcast? then wire.WireBroadcast? else wire.WireMessage? && wire.ack == ack)
  }

  /** An ack is asked for. */
  predicate WantsAck(e: Email, answer: Answer) {
    e.to.Peer? && answer.Known? && answer.own.None? && answer.wantsAck
  }

  /** What a delivery leads to, by what the surroundings answer: nothing, the order of
      the ack that is asked for, or the order to send the e-mail without one. */
  lemma DeliverOutcome(p: Post, e: Email, outside: Outside, now: nat)
    requires Good(p.outbox)
    ensures var (q, ok) := Deliver(p, e, outside, now);
      var uid, answer := p.outbox.next, outside.answer;
      && (ok <==> answer.PubkeyRequested? ||
                  (answer.Known? && if WantsAck(e, answer) then outside.ack.Some? else answer.encodes))
      && (if !ok || answer.PubkeyRequested? then q.pending == p.pending && q.acks == p.acks
          else
            && |q.pending| == |p.pending| + 1 && q.pending[..|p.pending|] == p.pending
            && var o := q.pending[|p.pending|];
               o.bmsg.uid == uid && Says(o.bmsg.letter, e) && o.call == p.calls &&
               if WantsAck(e, answer) then
                 o.AckOrder? && o.recorded == outside.ack.value && q.acks == p.acks[outside.ack.value := uid]
               else o.SendOrder? && Carries(o.wire, e, None) && q.acks == p.acks)
  {
    hide Pipeline.GenerateObject;
    var l := FromEmail(e).(flags := {Seen}, timeReceived := now);
    GenerateChanges(l, outside.answer);
    GenerateOutcome(l, outside.answer);
  }

  // Any call of process, and its continuation.

  predicate SameText(l: Letter, m: Letter) {
    && l.from == m.from && l.to == m.to && l.expiration == m.expiration
    && l.content.subject == m.content.subject && l.content.body == m.content.body
  }

  /** An ack is expected of a known peer, and there is none. */
  predicate MissesAck(l: Letter, answer: Answer) {
    && answer.Known? && l.to.Peer? && l.ack.None?
    && answer.own.None? && (answer.wantsAck || l.state.ackExpected)
  }

  /** The uid that a message is stored under when it is saved. */
  function SavedAs(f: Folder, uid: nat): nat {
    if uid == 0 then f.next else uid
  }

  /** Exactly one letter of a box was written: under this uid, with this text. */
  ghost predicate Wrote(f: Folder, g: Folder, uid: nat, l: Letter) {
    && g.messages.Keys == f.messages.Keys + {uid} && g.messages[uid].payload.Encoded?
    && SameText(g.messages[uid].payload.letter, l) && g.messages[uid].payload.letter.ack == l.ack
    && forall id :: id in f.messages && id != uid ==> g.messages[id] == f.messages[id]
  }

  /** What process does with a message that is stored or has no uid. It gives no order
      and writes nothing; or it only writes, and the message waits for a key; or it
      records the ack and orders it; or it writes and orders the sending. */
  lemma ProcessOutcome(p: Post, m: Bmsg, answer: Answer, ack: Option<Hash>)
    requires Good(p.outbox) && (m.uid == 0 || m.uid in p.outbox.messages)
    ensures var (q, ok) := Process(p, m, answer, ack);
      var missing, uid, n := MissesAck(m.letter, answer), SavedAs(p.outbox, m.uid), |p.pending|;
      && (ok <==> answer.PubkeyRequested? || (answer.Known? && if missing then ack.Some? else answer.encodes))
      && q.limbo == p.limbo && q.sent == p.sent && q.network == p.network
      && (ok && !missing ==> Wrote(p.outbox, q.outbox, uid, m.letter))
      && (!ok || missing ==> q.outbox == p.outbox)
      && (ok && missing ==> q.acks == p.acks[ack.value := m.uid])
      && (!ok || !missing ==> q.acks == p.acks)
      && (if !ok || answer.PubkeyRequested? then q.pending == p.pending
          else
            && |q.pending| == n + 1 && q.pending[..n] == p.pending && q.pending[n].call == p.calls
            && var o := q.pending[n];
               SameText(o.bmsg.letter, m.letter) && o.bmsg.letter.ack == m.letter.ack &&
               if missing then o.AckOrder? && o.recorded == ack.value && o.bmsg.uid == m.uid
               else o.SendOrder? && WireFits(o.bmsg.letter, o.wire) && o.bmsg.uid == uid)
  {
    hide Pipeline.GenerateObject;
    GenerateChanges(m.letter, answer);
    GenerateOutcome(m.letter, answer);
  }

  /** When the proof of work of an ack is done: the message is written and ordered to be
      sent with that ack exactly if it is still stored or has no uid, and the recipient
      is known and can be encoded to; otherwise nothing happens to it. */
  lemma FinishAckOutcome(p: Post, m: Bmsg, recorded: Hash, call: nat, finished: Hash, answer: Answer)
    requires Good(p.outbox) && m.letter.to.Peer?
    ensures var q := FinishAck(p, m, recorded, call, finished, answer);
      var l, uid, n := m.letter.(ack := Some(finished)), SavedAs(p.outbox, m.uid), |p.pending|;
      && q.acks == p.acks && q.limbo == p.limbo && q.sent == p.sent && q.network == p.network
      && q.ledger == p.ledger[finished := Receipt(recorded, m.uid)]
      && if answer.Known? && answer.encodes && (m.uid == 0 || m.uid in p.outbox.messages) then
           && Wrote(p.outbox, q.outbox, uid, l)
           && |q.pending| == n + 1 && q.pending[..n] == p.pending && q.pending[n].call == call
           && var o := q.pending[n];
              o.SendOrder? && o.bmsg.uid == uid && SameText(o.bmsg.letter, l) &&
              o.wire == WireMessage(m.letter.content, Some(finished))
         else q.outbox == p.outbox && q.pending == p.pending
  {
    hide Pipeline.GenerateObject;
    var l := m.letter.(ack := Some(finished));
    GenerateChanges(l, answer);
    GenerateOutcome(l, answer);
  }

  // Whole runs.

  /** An e-mail that says this came in with one of the events. */
  ghost predicate Brought(events: seq<Event>, l: Letter) {
    exists i :: 0 <= i < |events| && (events[i].Smtp? || events[i].Append?) && Says(l, events[i].email)
  }

  ghost predicate BoxBrought(events: seq<Event>, f: Folder) {
    forall id :: id in f.messages ==>
      f.messages[id].payload.Encoded? && Brought(events, f.messages[id].payload.letter)
  }

  ghost predicate OrdersBrought(events: seq<Event>, orders: seq<Order>) {
    forall i :: 0 <= i < |orders| ==> Brought(events, orders[i].bmsg.letter)
  }

  ghost predicate LettersBrought(events: seq<Event>, ls: seq<Letter>) {
    forall i :: 0 <= i < |ls| ==> Brought(events, ls[i])
  }

  ghost predicate NetworkBrought(events: seq<Event>, network: seq<Transmission>) {
    forall i :: 0 <= i < |network| ==> Brought(events, network[i].letter)
  }

  ghost predicate Genuine(events: seq<Event>, p: Post) {
    && BoxBrought(events, p.outbox) && BoxBrought(events, p.limbo) && BoxBrought(events, p.sent)
    && OrdersBrought(events, p.pending) && NetworkBrought(events, p.network)
  }

  lemma BroughtLater(events: seq<Event>, e: Event, l: Letter)
    requires Brought(events, l)
    ensures Brought(events + [e], l)
  {
    var i :| 0 <= i < |events| && (events[i].Smtp? || events[i].Append?) && Says(l, events[i].email);
    assert (events + [e])[i] == events[i];
  }

  lemma GenuineLater(events: seq<Event>, e: Event, p: Post)
    requires Genuine(events, p)
    ensures Genuine(events + [e], p)
  {
    hide Brought;
    forall l | Brought(events, l) ensures Brought(events + [e], l) {
      BroughtLater(events, e, l);
    }
  }

  lemma BroughtNow(events: seq<Event>, e: Event, l: Letter)
    requires (e.Smtp? || e.Append?) && Says(l, e.email)
    ensures Brought(events + [e], l)
  {
    assert (events + [e])[|events|] == e;
  }

  lemma BroughtSame(events: seq<Event>, l: Letter, m: Letter)
    requires Brought(events, l) && SameText(l, m)
    ensures Brought(events, m)
  {
    var i :| 0 <= i < |events| && (events[i].Smtp? || events[i].Append?) && Says(l, events[i].email);
    assert Says(m, events[i].email);
  }

  lemma SaveBrought(events: seq<Event>, f: Folder, uid: nat, l: Letter)
    requires BoxBrought(events, f) && Brought(events, l)
    ensures BoxBrought(events, SaveIn(f, uid, l).0)
  {
    hide Brought;
  }

  lemma DeleteBrought(events: seq<Event>, f: Folder, uid: nat)
    requires BoxBrought(events, f)
    ensures BoxBrought(events, DeleteIn(ALL, f, uid))
  {
    hide Brought, MailboxSpec.Lookup, MailboxSpec.PiecesUpto;
  }

  lemma LookupBrought(events: seq<Event>, f: Folder, done: set<Hash>, uid: nat)
    requires BoxBrought(events, f) && BoxOk(f, done) && Lookup(Pieces(ALL, f), uid).Some?
    ensures Brought(events, Lookup(Pieces(ALL, f), uid).value.letter)
  {
    hide Brought, MailboxSpec.Lookup, MailboxSpec.PiecesUpto;
    LookupStored(f, done, uid);
  }

  lemma SendPreparedBrought(events: seq<Event>, p: Post, m: Bmsg, wire: Wire, call: nat)
    requires Genuine(events, p) && Brought(events, m.letter)
    ensures Genuine(events, SendPrepared(p, m, wire, call).0)
  {
    hide Brought, MailboxSpec.SaveIn, BoxBrought;
    SaveBrought(events, p.outbox, m.uid, m.letter);
  }

  lemma ProcessBrought(events: seq<Event>, p: Post, m: Bmsg, answer: Answer, ack: Option<Hash>)
    requires Genuine(events, p) && Brought(events, m.letter)
    ensures Genuine(events, Process(p, m, answer, ack).0)
  {
    hide Brought, MailboxSpec.SaveIn, BoxBrought, Pipeline.GenerateObject, Pipeline.SendPrepared;
    var (l, g) := GenerateObject(m.letter, answer);
    GenerateChanges(m.letter, answer);
    BroughtSame(events, m.letter, l);
    var p1 := p.(calls := p.calls + 1);
    match g
    case Object(wire) => SendPreparedBrought(events, p1, m.(letter := l), wire, p.calls);
    case PubkeySent => SaveBrought(events, p.outbox, m.uid, l);
    case AckMissing =>
    case Failed =>
  }

  lemma {:induction false} ProcessAllBrought(events: seq<Event>, p: Post, ls: seq<Letter>, outsides: seq<Outside>)
    requires Genuine(events, p) && LettersBrought(events, ls)
    ensures Genuine(events, ProcessAll(p, ls, outsides))
    decreases |ls|
  {
    hide Brought, Genuine, Pipeline.Process;
    if ls != [] && outsides != [] {
      var (q, ok) := Process(p, Bmsg(0, ls[0]), outsides[0].answer, outsides[0].ack);
      ProcessBrought(events, p, Bmsg(0, ls[0]), outsides[0].answer, outsides[0].ack);
      if ok { ProcessAllBrought(events, q, ls[1..], outsides[1..]); }
    }
  }

  lemma WaitingBrought(events: seq<Event>, f: Folder, done: set<Hash>, wanted: set<Address>)
    requires BoxBrought(events, f) && BoxOk(f, done)
    ensures LettersBrought(events, WaitingFor(Pieces(ALL, f), wanted))
  {
    hide Brought, Pipeline.WaitingFor, MailboxSpec.PiecesUpto;
    var ps := Pieces(ALL, f);
    var ls := WaitingFor(ps, wanted);
    PiecesExact(ALL, f.messages, f.next);
    forall i | 0 <= i < |ls| ensures Brought(events, ls[i]) {
      WaitingExact(ps, wanted, ls[i]);
      var k :| 0 <= k < |ps| && ps[k].letter == ls[i];
      assert ps[k] in ps;
      assert MessageFits(f.messages[ps[k].uid], done);
    }
  }

  lemma AddBrought(events: seq<Event>, f: Folder, l: Letter, now: nat)
    requires BoxBrought(events, f) && Brought(events, l)
    ensures BoxBrought(events, AddNew(f, l, now))
  {
    hide Brought, BoxBrought, MailboxSpec.SaveIn;
    BroughtSame(events, l, l.(flags := {Seen}, timeReceived := now));
    SaveBrought(events, f, 0, l.(flags := {Seen}, timeReceived := now));
  }

  lemma MoveBrought(events: seq<Event>, p: Post, uid: nat, from: Box, to: Box, now: nat)
    requires Genuine(events, p) && Inv(p) && from != to
    ensures Genuine(events, Move(p, uid, from, to, now))
  {
    hide Brought, BoxBrought, Inv, BoxOk, Pipeline.AddNew;
    hide MailboxSpec.Lookup, MailboxSpec.PiecesUpto, MailboxSpec.DeleteIn;
    var f := BoxOf(p, from);
    InvBox(p, from);
    var b := Lookup(Pieces(ALL, f), uid);
    if b.Some? {
      LookupBrought(events, f, p.ledger.Keys, uid);
      DeleteBrought(events, f, uid);
      AddBrought(events, BoxOf(p, to), b.value.letter, now);
    }
  }

  lemma FinishAckBrought(events: seq<Event>, p: Post, m: Bmsg, recorded: Hash, call: nat,
                         finished: Hash, answer: Answer)
    requires Genuine(events, p) && Brought(events, m.letter)
    ensures Genuine(events, FinishAck(p, m, recorded, call, finished, answer))
  {
    hide Brought, BoxBrought, Pipeline.GenerateObject, Pipeline.SendPrepared;
    var l := m.letter.(ack := Some(finished));
    var (k, g) := GenerateObject(l, answer);
    GenerateChanges(l, answer);
    BroughtSame(events, m.letter, k);
    var q := p.(ledger := p.ledger[finished := Receipt(recorded, m.uid)]);
    if g.Object? { SendPreparedBrought(events, q, m.(letter := k), g.wire, call); }
  }

  lemma FinishSendBrought(events: seq<Event>, p: Post, m: Bmsg, wire: Wire, call: nat, now: nat)
    requires Genuine(events, p) && Brought(events, m.letter)
    requires Inv(p) && OrderOk(SendOrder(m, wire, call), p.outbox.next, p.ledger.Keys)
    ensures Genuine(events, FinishSend(p, m, wire, now))
  {
    hide Brought, BoxBrought, Pipeline.Move, MailboxSpec.SaveIn, BoxOk;
    SaveBrought(events, p.outbox, m.uid, m.letter);
    OutboxSaveInv(p, m.uid, m.letter);
    var (outbox, uid, err) := SaveIn(p.outbox, m.uid, m.letter);
    if err.None? {
      var q := p.(outbox := outbox, network := p.network + [Transmission(wire, m.letter)]);
      assert NetworkOk(q);
      MoveBrought(events, q, uid, Outbox, Destination(m.letter), now);
    }
  }

  lemma FinishBrought(events: seq<Event>, p: Post, i: nat, finished: Hash, answer: Answer, now: nat)
    requires Genuine(events, p) && Inv(p) && i < |p.pending|
    ensures Genuine(events, Finish(TakeOrder(p, i), p.pending[i], finished, answer, now))
    ensures Genuine(events, TakeOrder(p, i))
  {
    hide Brought, BoxBrought, Pipeline.FinishAck, Pipeline.FinishSend, Inv;
    TakeOrderInv(p, i);
    var q := TakeOrder(p, i);
    assert forall j :: 0 <= j < |q.pending| ==> q.pending[j] == p.pending[if j < i then j else j + 1];
    match p.pending[i]
    case AckOrder(m, recorded, call) => FinishAckBrought(events, q, m, recorded, call, finished, answer);
    case SendOrder(m, wire, call) => FinishSendBrought(events, q, m, wire, call, now);
  }

  lemma ReflagBrought(events: seq<Event>, f: Folder, done: set<Hash>, uid: nat, flags: set<Flag>)
    requires BoxBrought(events, f) && BoxOk(f, done)
    ensures BoxBrought(events, ChangeFlags(f, uid, flags))
  {
    hide Brought, BoxBrought, BoxOk, MailboxSpec.Lookup, MailboxSpec.PiecesUpto, MailboxSpec.SaveIn;
    var b := Lookup(Pieces(ALL, f), uid);
    if b.Some? {
      LookupBrought(events, f, done, uid);
      BroughtSame(events, b.value.letter, Rebuilt(b.value.letter, flags));
      SaveBrought(events, f, uid, Rebuilt(b.value.letter, flags));
    }
  }

  lemma UserBrought(events: seq<Event>, p: Post, e: Event)
    requires Genuine(events + [e], p) && Inv(p) && (e.Expunge? || e.Reflag? || e.Append?)
    ensures Genuine(events + [e], Step(p, e))
  {
    hide Brought, BoxBrought, BoxOk, Inv, MailboxSpec.DeleteIn, MailboxSpec.SaveIn, Pipeline.ChangeFlags;
    var f := BoxOf(p, e.box);
    InvBox(p, e.box);
    match e
    case Expunge(_, uid) => DeleteBrought(events + [e], f, uid);
    case Reflag(_, uid, flags) => ReflagBrought(events + [e], f, p.ledger.Keys, uid, flags);
    case Append(_, email, flags, now) =>
      var l := FromEmail(email).(flags := flags, timeReceived := now);
      BroughtNow(events, e, l);
      SaveBrought(events + [e], f, 0, l);
  }

  lemma DeliverBrought(events: seq<Event>, p: Post, e: Event)
    requires Genuine(events + [e], p) && e.Smtp?
    ensures Genuine(events + [e], Step(p, e))
  {
    hide Brought, BoxBrought, Pipeline.Process, Pipeline.AddNew;
    var l := FromEmail(e.email).(flags := {Seen}, timeReceived := e.now);
    BroughtNow(events, e, FromEmail(e.email));
    BroughtNow(events, e, l);
    AddBrought(events + [e], p.outbox, FromEmail(e.email), e.now);
    var q := p.(outbox := AddNew(p.outbox, FromEmail(e.email), e.now));
    ProcessBrought(events + [e], q, Bmsg(p.outbox.next, l), e.outside.answer, e.outside.ack);
  }

  lemma StepBrought(events: seq<Event>, p: Post, e: Event)
    requires Genuine(events, p) && Inv(p)
    ensures Genuine(events + [e], Step(p, e))
  {
    hide Genuine, Inv, Pipeline.Deliver, Pipeline.ProcessAll, Pipeline.Finish, Pipeline.Move;
    hide MailboxSpec.Lookup, MailboxSpec.PiecesUpto, MailboxSpec.DeleteIn, MailboxSpec.SaveIn, Pipeline.ChangeFlags;
    GenuineLater(events, e, p);
    var es := events + [e];
    match e
    case Smtp(_, _, _) => DeliverBrought(events, p, e);
    case Pubkey(wanted, outsides) => PubkeyBrought(es, p, wanted, outsides);
    case PowDone(i, finished, answer, now) => if i < |p.pending| { FinishBrought(es, p, i, finished, answer, now); }
    case PowLost(i) => if i < |p.pending| { FinishBrought(es, p, i, 0, Unusable, 0); }
    case AckReply(hash, now) => if hash in p.acks { MoveBrought(es, p, p.acks[hash], Limbo, Box.Sent, now); }
    case Expunge(_, _) => UserBrought(events, p, e);
    case Reflag(_, _, _) => UserBrought(events, p, e);
    case Append(_, _, _, _) => UserBrought(events, p, e);
  }

  lemma PubkeyBrought(events: seq<Event>, p: Post, wanted: set<Address>, outsides: seq<Outside>)
    requires Genuine(events, p) && Inv(p)
    ensures Genuine(events, DeliverPublic(p, wanted, outsides))
  {
    hide Brought, BoxBrought, LettersBrought, Inv, BoxOk;
    hide Pipeline.ProcessAll, Pipeline.WaitingFor, MailboxSpec.PiecesUpto;
    InvBox(p, Outbox);
    WaitingBrought(events, p.outbox, p.ledger.Keys, wanted);
    ProcessAllBrought(events, p, WaitingFor(Pieces(ALL, p.outbox), wanted), outsides);
  }

  /** In every run, each message in a box, in an order or handed to the network says
      what some e-mail said that came in before. */
  lemma {:induction false} NothingMadeUp(events: seq<Event>)
    ensures Genuine(events, Run(START, events))
  {
    hide Pipeline.Step, Inv, Brought;
    if events != [] {
      var n := |events| - 1;
      NothingMadeUp(events[..n]);
      RunInv(events[..n]);
      StepBrought(events[..n], Run(START, events[..n]), events[n]);
      assert events == events[..n] + [events[n]];
    }
  }

  /** So what goes out over the wire has the subject and the body of such an e-mail, and
      is a broadcast exactly if that was addressed so. */
  lemma WireSaysMail(events: seq<Event>, i: nat)
    requires i < |Run(START, events).network|
    ensures var t := Run(START, events).network[i];
      exists k :: 0 <= k < |events| && (events[k].Smtp? || events[k].Append?) &&
        Carries(t.wire, events[k].email, t.letter.ack)
  {
    hide Pipeline.Run;
    NothingMadeUp(events);
    RunInv(events);
    var t := Run(START, events).network[i];
    assert SentOk(t, Run(START, events).ledger.Keys);
    var k :| 0 <= k < |events| && (events[k].Smtp? || events[k].Append?) && Says(t.letter, events[k].email);
    assert Carries(t.wire, events[k].email, t.letter.ack);
  }
}
