/** How messages move through the pipeline: what one step moves, and that no
    queued send loses its message on the way. */
module PipelineMoves {
  import opened Base
  import opened Mail
  import opened FolderSpec
  import opened MailboxSpec
  import opened Pipeline
  import opened PipelineInv

  function Total(p: Post): nat {
    |p.outbox.messages| + |p.limbo.messages| + |p.sent.messages|
  }

  lemma BoxCount(p: Post, box: Box, f: Folder)
    ensures Total(WithBox(p, box, f)) == Total(p) - |BoxOf(p, box).messages| + |f.messages|
  {
  }

  lemma AddNewExact(f: Folder, l: Letter, now: nat)
    requires Good(f)
    ensures var m := Message(l.content.encoding, Encoded(l.(flags := {Seen}, timeReceived := now)));
      && AddNew(f, l, now) == Folder(f.next + 1, f.messages[f.next := m])
      && |AddNew(f, l, now).messages| == |f.messages| + 1
  {
    assert f.next !in f.messages;
  }

  /** Move takes exactly one message out of a box and puts what was stored there,
      with new IMAP data, under the next uid of the other box. */
  lemma MoveExact(p: Post, uid: nat, from: Box, to: Box, now: nat)
    requires BoxesOk(p) && from != to && uid in BoxOf(p, from).messages
    ensures var q := Move(p, uid, from, to, now);
      var f := BoxOf(p, from);
      && f.messages[uid].payload.Encoded?
      && q == WithBox(WithBox(p, from, f.(messages := f.messages - {uid})),
                      to, AddNew(BoxOf(p, to), f.messages[uid].payload.letter, now))
      && Total(q) == Total(p)
  {
    hide MailboxSpec.Lookup, MailboxSpec.PiecesUpto, MailboxSpec.DeleteIn, Total, Pipeline.AddNew;
    var f := BoxOf(p, from);
    LookupStored(f, p.ledger.Keys, uid);
    DeleteFits(f, p.ledger.Keys, uid);
    var l := f.messages[uid].payload.letter;
    AddNewExact(BoxOf(p, to), l, now);
    CutSize(f.messages, uid);
    var q := WithBox(p, from, f.(messages := f.messages - {uid}));
    BoxCount(p, from, f.(messages := f.messages - {uid}));
    BoxCount(q, to, AddNew(BoxOf(p, to), l, now));
  }

  lemma CutSize(m: map<nat, Message>, id: nat)
    ensures |m - {id}| == |m| - if id in m then 1 else 0
  {
    assert (m - {id}).Keys == m.Keys - {id};
  }

  /** A finished send moves its message if it is still in the Outbox: to Limbo if
      an ack is expected and to Sent otherwise, with sender, recipient, content,
      ack and state as saved. If it is not there any more, nothing happens. */
  lemma FinishSendExact(p: Post, m: Bmsg, wire: Wire, call: nat, now: nat)
    requires Inv(p) && OrderOk(SendOrder(m, wire, call), p.outbox.next, p.ledger.Keys)
    ensures var q := FinishSend(p, m, wire, now);
      var to := Destination(m.letter);
      if m.uid in p.outbox.messages then
        && q == WithBox(p.(outbox := p.outbox.(messages := p.outbox.messages - {m.uid}),
                           network := p.network + [Transmission(wire, m.letter)]),
                        to, AddNew(BoxOf(p, to), m.letter, now))
        && Total(q) == Total(p)
      else q == p
  {
    hide Pipeline.Move, Pipeline.AddNew, MailboxSpec.SaveIn;
    if m.uid in p.outbox.messages {
      OutboxSaveInv(p, m.uid, m.letter);
      ReplaceExact(p.outbox, m.uid, m.letter);
      var outbox := SaveIn(p.outbox, m.uid, m.letter).0;
      MoveExact(p.(outbox := outbox, network := p.network + [Transmission(wire, m.letter)]),
                m.uid, Outbox, Destination(m.letter), now);
    } else {
      AbsentExact(p.outbox, m.uid, m.letter);
    }
  }

  lemma ReplaceExact(f: Folder, uid: nat, l: Letter)
    requires Good(f) && uid in f.messages
    ensures var (g, id, err) := SaveIn(f, uid, l);
      && g.next == f.next && id == uid && err.None? && uid in g.messages
      && g.messages[uid] == Message(l.content.encoding, Encoded(l))
      && g.messages - {uid} == f.messages - {uid} && g.messages.Keys == f.messages.Keys
      && |g.messages| == |f.messages|
  {
    assert SaveIn(f, uid, l).0.messages.Keys == f.messages.Keys;
  }

  lemma AbsentExact(f: Folder, uid: nat, l: Letter)
    requires uid != 0 && uid !in f.messages
    ensures SaveIn(f, uid, l).0 == f && SaveIn(f, uid, l).2.Some?
  {
  }

  /** The outcome of an ack reply in every state: it is decided by what Limbo holds
      under the recorded uid, and it changes nothing or moves exactly one message
      from Limbo to Sent. */
  lemma AckReplyExact(p: Post, hash: Hash, now: nat)
    requires Inv(p)
    ensures var (q, outcome) := DeliverAckReply(p, hash, now);
      && (outcome == Unrecognized <==> hash !in p.acks)
      && (outcome == NoMessage <==> hash in p.acks && p.acks[hash] !in p.limbo.messages)
      && (hash in p.acks && p.acks[hash] in p.limbo.messages ==>
            var m := p.limbo.messages[p.acks[hash]];
            m.payload.Encoded? && outcome == if m.payload.letter.state.ackExpected then Received else NoAckExpected)
      && (outcome != Received ==> q == p)
      && (outcome == Received ==>
            var uid := p.acks[hash];
            && q == p.(limbo := p.limbo.(messages := p.limbo.messages - {uid}),
                       sent := AddNew(p.sent, p.limbo.messages[uid].payload.letter, now))
            && Total(q) == Total(p))
  {
    hide Pipeline.Move, MailboxSpec.Lookup, MailboxSpec.PiecesUpto, Pipeline.AddNew;
    if hash in p.acks {
      var uid := p.acks[hash];
      LookupStored(p.limbo, p.ledger.Keys, uid);
      if uid in p.limbo.messages { MoveExact(p, uid, Limbo, Box.Sent, now); }
    }
  }

  // Queued sends.

  /** Nothing queued is stored under this uid, but the Outbox has it; or there is
      no uid yet. */
  ghost predicate Unclaimed(p: Post, uid: nat) {
    uid == 0 || (uid in p.outbox.messages && forall i :: 0 <= i < |p.pending| ==> p.pending[i].bmsg.uid != uid)
  }

  ghost predicate Present(p: Post) {
    forall i :: 0 <= i < |p.pending| && p.pending[i].bmsg.uid != 0 ==> p.pending[i].bmsg.uid in p.outbox.messages
  }

  ghost predicate Distinct(orders: seq<Order>) {
    forall i, j :: 0 <= i < j < |orders| && orders[i].bmsg.uid == orders[j].bmsg.uid ==> orders[i].bmsg.uid == 0
  }

  /** Every queued message that has a uid is in the Outbox, and no two share one. */
  ghost predicate Ready(p: Post) {
    Present(p) && Distinct(p.pending)
  }

  /** A box that has lost no message keeps the queue ready. */
  lemma GrownReady(p: Post, q: Post)
    requires Ready(p) && q.pending == p.pending && q.outbox.messages.Keys >= p.outbox.messages.Keys
    ensures Ready(q)
  {
    forall i | 0 <= i < |q.pending| && q.pending[i].bmsg.uid != 0 ensures q.pending[i].bmsg.uid in q.outbox.messages {
      assert p.pending[i].bmsg.uid in p.outbox.messages.Keys;
    }
  }

  lemma AppendReady(p: Post, q: Post, o: Order)
    requires Ready(p) && q.pending == p.pending + [o] && q.outbox.messages.Keys >= p.outbox.messages.Keys
    requires o.bmsg.uid != 0 ==> o.bmsg.uid in q.outbox.messages
    requires forall i :: 0 <= i < |p.pending| && p.pending[i].bmsg.uid == o.bmsg.uid ==> o.bmsg.uid == 0
    ensures Ready(q)
  {
    forall i | 0 <= i < |q.pending| && q.pending[i].bmsg.uid != 0 ensures q.pending[i].bmsg.uid in q.outbox.messages {
      if i < |p.pending| {
        assert q.pending[i] == p.pending[i];
        assert p.pending[i].bmsg.uid in p.outbox.messages.Keys;
      }
    }
    forall i, j | 0 <= i < j < |q.pending| && q.pending[i].bmsg.uid == q.pending[j].bmsg.uid
      ensures q.pending[i].bmsg.uid == 0
    {
      assert q.pending[i] == p.pending[i];
      if j < |p.pending| { assert q.pending[j] == p.pending[j]; }
    }
  }

  /** The next uid is no queued message's. */
  lemma NextUnclaimed(p: Post)
    requires Inv(p)
    ensures forall i :: 0 <= i < |p.pending| ==> p.pending[i].bmsg.uid != p.outbox.next
    ensures p.outbox.next !in p.outbox.messages && 0 < p.outbox.next
  {
    forall i | 0 <= i < |p.pending| ensures p.pending[i].bmsg.uid != p.outbox.next {
      assert OrderOk(p.pending[i], p.outbox.next, p.ledger.Keys);
    }
  }

  lemma SendPreparedReady(p: Post, m: Bmsg, wire: Wire, call: nat)
    requires Inv(p) && Ready(p) && Unclaimed(p, m.uid)
    ensures SendPrepared(p, m, wire, call).1 && Ready(SendPrepared(p, m, wire, call).0)
  {
    hide Ready;
    var (q, ok) := SendPrepared(p, m, wire, call);
    NextUnclaimed(p);
    assert ok && q.outbox.messages.Keys >= p.outbox.messages.Keys by {
      if m.uid != 0 { ReplaceExact(p.outbox, m.uid, m.letter); }
    }
    AppendReady(p, q, q.pending[|p.pending|]);
  }

  lemma ProcessReady(p: Post, m: Bmsg, answer: Answer, ack: Option<Hash>)
    requires Inv(p) && Ready(p) && Unclaimed(p, m.uid)
    ensures Ready(Process(p, m, answer, ack).0)
  {
    hide Pipeline.SendPrepared, Pipeline.GenerateObject;
    var (l, g) := GenerateObject(m.letter, answer);
    var p1 := p.(calls := p.calls + 1);
    assert Inv(p1) && Ready(p1);
    var q := Process(p, m, answer, ack).0;
    match g
    case Object(wire) => SendPreparedReady(p1, m.(letter := l), wire, p.calls);
    case PubkeySent =>
      if m.uid != 0 { ReplaceExact(p.outbox, m.uid, l); }
      GrownReady(p1, q);
    case AckMissing =>
      if ack.Some? { AppendReady(p1, q, AckOrder(m.(letter := l), ack.value, p.calls)); }
    case Failed =>
  }

  lemma DeliverReady(p: Post, e: Email, outside: Outside, now: nat)
    requires Inv(p) && Ready(p)
    ensures Ready(Deliver(p, e, outside, now).0)
  {
    hide Pipeline.Process, Ready, Inv;
    var l := FromEmail(e).(flags := {Seen}, timeReceived := now);
    NextUnclaimed(p);
    OutboxSaveInv(p, 0, l);
    var p1 := p.(outbox := AddNew(p.outbox, FromEmail(e), now));
    GrownReady(p, p1);
    ProcessReady(p1, Bmsg(p.outbox.next, l), outside.answer, outside.ack);
  }

  lemma {:induction false} ProcessAllReady(p: Post, ls: seq<Letter>, outsides: seq<Outside>)
    requires Inv(p) && Ready(p) && AllFit(ls, p.ledger.Keys)
    ensures Ready(ProcessAll(p, ls, outsides))
    decreases |ls|
  {
    hide Pipeline.Process, Inv, Ready, Fits;
    if ls != [] && outsides != [] {
      var (q, ok) := Process(p, Bmsg(0, ls[0]), outsides[0].answer, outsides[0].ack);
      NextUnclaimed(p);
      ProcessInv(p, Bmsg(0, ls[0]), outsides[0].answer, outsides[0].ack);
      ProcessReady(p, Bmsg(0, ls[0]), outsides[0].answer, outsides[0].ack);
      if ok { ProcessAllReady(q, ls[1..], outsides[1..]); }
    }
  }

  lemma TakeOrderReady(p: Post, i: nat)
    requires Ready(p) && i < |p.pending|
    ensures Ready(TakeOrder(p, i)) && Unclaimed(TakeOrder(p, i), p.pending[i].bmsg.uid)
  {
    var q := TakeOrder(p, i);
    assert forall j :: 0 <= j < |q.pending| ==> q.pending[j] == p.pending[if j < i then j else j + 1];
  }

  lemma FinishAckReady(p: Post, m: Bmsg, recorded: Hash, call: nat, finished: Hash, answer: Answer)
    requires Inv(p) && Ready(p) && Unclaimed(p, m.uid)
    ensures Ready(FinishAck(p, m, recorded, call, finished, answer))
  {
    hide Pipeline.SendPrepared, Pipeline.GenerateObject, Inv;
    AckDoneInv(p, finished, Receipt(recorded, m.uid));
    var q := p.(ledger := p.ledger[finished := Receipt(recorded, m.uid)]);
    assert Ready(q) && Unclaimed(q, m.uid);
    var (k, g) := GenerateObject(m.letter.(ack := Some(finished)), answer);
    if g.Object? { SendPreparedReady(q, m.(letter := k), g.wire, call); }
  }

  /** What a finished send takes out of the Outbox no other queued send needs. */
  lemma FinishSendReady(p: Post, m: Bmsg, wire: Wire, call: nat, now: nat)
    requires Inv(p) && Ready(p) && Unclaimed(p, m.uid)
    requires OrderOk(SendOrder(m, wire, call), p.outbox.next, p.ledger.Keys)
    ensures var q := FinishSend(p, m, wire, now);
      Ready(q) && q.network == p.network + [Transmission(wire, m.letter)]
  {
    hide Pipeline.FinishSend, Pipeline.AddNew, Inv;
    FinishSendExact(p, m, wire, call, now);
  }

  lemma FinishReady(p: Post, i: nat, finished: Hash, answer: Answer, now: nat)
    requires Inv(p) && Ready(p) && i < |p.pending|
    ensures var q := Finish(TakeOrder(p, i), p.pending[i], finished, answer, now);
      Ready(q) && (p.pending[i].SendOrder? ==> |q.network| == |p.network| + 1)
  {
    hide Pipeline.FinishAck, Pipeline.FinishSend, Inv, Ready, Unclaimed;
    TakeOrderInv(p, i);
    TakeOrderReady(p, i);
    match p.pending[i]
    case AckOrder(m, recorded, call) => FinishAckReady(TakeOrder(p, i), m, recorded, call, finished, answer);
    case SendOrder(m, wire, call) => FinishSendReady(TakeOrder(p, i), m, wire, call, now);
  }

  lemma UserReady(p: Post, e: Event)
    requires Inv(p) && Ready(p) && (e.Reflag? || e.Append?)
    ensures Ready(Step(p, e))
  {
    hide Ready, Pipeline.ChangeFlags;
    if e.Reflag? { ChangeFlagsFits(BoxOf(p, e.box), p.ledger.Keys, e.uid, e.flags); }
    GrownReady(p, Step(p, e));
  }

  lemma StepReady(p: Post, e: Event)
    requires Inv(p) && Ready(p) && !e.Expunge?
    ensures Ready(Step(p, e))
  {
    hide Pipeline.Deliver, Pipeline.Finish, Pipeline.ProcessAll, Pipeline.DeliverAckReply, Inv;
    hide Pipeline.ChangeFlags, Pipeline.AddNew;
    match e
    case Smtp(email, outside, now) => DeliverReady(p, email, outside, now);
    case Pubkey(wanted, outsides) =>
      WaitingAllFit(p, wanted);
      ProcessAllReady(p, WaitingFor(Pieces(ALL, p.outbox), wanted), outsides);
    case PowDone(i, finished, answer, now) => if i < |p.pending| { FinishReady(p, i, finished, answer, now); }
    case PowLost(i) => if i < |p.pending| { TakeOrderReady(p, i); }
    case AckReply(hash, now) => AckReplyExact(p, hash, now);
    case Reflag(_, _, _) => UserReady(p, e);
    case Append(_, _, _, _) => UserReady(p, e);
  }

  /** Unless the user deletes messages under way, every queued send finds its
      message in the Outbox, so that it moves when its proof of work is done. */
  lemma {:induction false} QueuedSendsMove(events: seq<Event>)
    requires forall i :: 0 <= i < |events| ==> !events[i].Expunge?
    ensures Ready(Run(START, events))
  {
    hide Pipeline.Step, Inv;
    if events != [] {
      var n := |events| - 1;
      QueuedSendsMove(events[..n]);
      RunInv(events[..n]);
      StepReady(Run(START, events[..n]), events[n]);
    }
  }

  /** A message for which a key was requested is stored as waiting, so it is taken
      up again when a key of its address comes in. */
  lemma PubkeyRequestRemembered(p: Post, m: Bmsg, ack: Option<Hash>, wanted: set<Address>)
    requires Inv(p) && Fits(m.letter, p.ledger.Keys) && m.letter.to in wanted
    requires m.uid == 0 || m.uid in p.outbox.messages
    ensures var (q, ok) := Process(p, m, PubkeyRequested, ack);
      && ok && q.pending == p.pending
      && m.letter.(state := m.letter.state.(pubkeyRequestOutstanding := true))
           in WaitingFor(Pieces(ALL, q.outbox), wanted)
  {
    hide Pipeline.WaitingFor, MailboxSpec.PiecesUpto;
    var q := Process(p, m, PubkeyRequested, ack).0;
    var l := m.letter.(state := m.letter.state.(pubkeyRequestOutstanding := true));
    var uid := SaveIn(p.outbox, m.uid, l).1;
    assert uid < q.outbox.next && q.outbox.messages[uid] == Message(2, Encoded(l));
    PiecesExact(ALL, q.outbox.messages, q.outbox.next);
    assert PieceOf(uid, q.outbox.messages[uid]) == Piece(uid, l);
    var ps := Pieces(ALL, q.outbox);
    var i :| 0 <= i < |ps| && ps[i] == Piece(uid, l);
    WaitingExact(ps, wanted, l);
  }
}
