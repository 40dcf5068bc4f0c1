/** A user's boxes and the work in progress (user/user.go, user/process.go), as
    objects over the mailboxes. Each method does to the boxes what the pipeline
    says. */
module Users {
  import opened Base
  import opened Mail
  import opened FolderSpec
  import opened MailboxSpec
  import opened Mailboxes
  import opened Pipeline
  import opened PipelineMail
  import opened MailboxWalks

  class User {
    const outbox: Mailbox
    const limbo: Mailbox
    const sent: Mailbox

    var acks: map<Hash, nat>
    var pending: seq<Order>
    var network: seq<Transmission>
    var calls: nat

    /** What the pipeline keeps account of and the program does not. */
    ghost var ledger: map<Hash, Receipt>
    ghost var issued: seq<Issue>

    function At(box: Box): Mailbox {
      match box case Outbox => outbox case Limbo => limbo case Sent => sent
    }

    ghost function Footprint(): set<object> {
      {this, outbox, limbo, sent, outbox.mbox, limbo.mbox, sent.mbox}
    }

    ghost predicate Separate() {
      && outbox != limbo && outbox != sent && limbo != sent
      && outbox.mbox != limbo.mbox && outbox.mbox != sent.mbox && limbo.mbox != sent.mbox
      && outbox.sub == ALL && limbo.sub == ALL && sent.sub == ALL
    }

    ghost predicate Valid()
      reads Footprint()
    {
      Separate() && outbox.Valid() && limbo.Valid() && sent.Valid()
    }

    ghost function State(): Post
      reads Footprint()
    {
      Post(outbox.Model(), limbo.Model(), sent.Model(), acks, pending, network, ledger, calls, issued)
    }

    constructor (outbox: Mailbox, limbo: Mailbox, sent: Mailbox)
      requires outbox != limbo && outbox != sent && limbo != sent
      requires outbox.mbox != limbo.mbox && outbox.mbox != sent.mbox && limbo.mbox != sent.mbox
      requires outbox.sub == ALL && limbo.sub == ALL && sent.sub == ALL
      requires outbox.Valid() && limbo.Valid() && sent.Valid()
      ensures Valid() && this.outbox == outbox && this.limbo == limbo && this.sent == sent
      ensures State() == Post(outbox.Model(), limbo.Model(), sent.Model(), map[], [], [], map[], 0, [])
    {
      this.outbox, this.limbo, this.sent := outbox, limbo, sent;
      acks, pending, network, ledger, calls, issued := map[], [], [], map[], 0, [];
    }

    /** Room for one more uid in a box. */
    ghost predicate Room(box: Box)
      reads At(box).mbox
    {
      At(box).mbox.nextID + 1 < At(box).bound
    }

    /** A save in the Outbox changes nothing else. */
    method SaveOutbox(uid: U64, letter: Letter) returns (id: nat, err: Option<Error>)
      requires Valid() && (uid == 0 ==> Room(Outbox))
      modifies Footprint()
      ensures Valid()
      ensures var saved := SaveIn(old(State()).outbox, uid, letter);
        State() == old(State()).(outbox := saved.0) && id == saved.1 && err == saved.2
    {
      hide Mailbox.Valid, MailboxSpec.SaveIn;
      id, err := outbox.SaveBitmessage(uid, letter);
    }

    method SendPrepared(m: Bmsg, wire: Wire, call: nat) returns (ok: bool)
      requires Valid() && m.uid < LIMIT32 && (m.uid == 0 ==> Room(Outbox))
      modifies Footprint()
      ensures Valid() && (State(), ok) == Pipeline.SendPrepared(old(State()), m, wire, call)
    {
      hide Mailbox.Valid;
      var uid, err := SaveOutbox(m.uid, m.letter);
      if err.Some? {
        return false;
      }
      pending := pending + [SendOrder(Bmsg(uid, m.letter), wire, call)];
      issued := issued + [Issue(call, false)];
      ok := true;
    }

    method Process(m: Bmsg, answer: Answer, ack: Option<Hash>) returns (ok: bool)
      requires Valid() && m.uid < LIMIT32 && (m.uid == 0 ==> Room(Outbox))
      modifies Footprint()
      ensures Valid() && (State(), ok) == Pipeline.Process(old(State()), m, answer, ack)
    {
      hide Mailbox.Valid, Pipeline.SendPrepared, Pipeline.GenerateObject;
      hide MailboxSpec.SaveIn, MailboxSpec.PiecesUpto, MailboxSpec.Recents, MailboxSpec.Unseens, MailboxSpec.Readable;
      var call := calls;
      calls := calls + 1;
      var (letter, generated) := GenerateObject(m.letter, answer);
      var m1 := m.(letter := letter);
      match generated {
        case Object(wire) =>
          ok := SendPrepared(m1, wire, call);
        case PubkeySent =>
          var _, err := SaveOutbox(m1.uid, letter);
          ok := err.None?;
        case AckMissing =>
          if ack.None? {
            return false;
          }
          acks := acks[ack.value := m1.uid];
          pending := pending + [AckOrder(m1, ack.value, call)];
          issued := issued + [Issue(call, true)];
          ok := true;
        case Failed =>
          ok := false;
      }
    }

    method Move(uid: nat, from: Box, to: Box, now: nat)
      requires Valid() && uid < LIMIT32 && from != to && Room(to)
      modifies Footprint()
      ensures Valid() && State() == Pipeline.Move(old(State()), uid, from, to, now)
    {
      hide Mailbox.Valid, MailboxSpec.Lookup, MailboxSpec.PiecesUpto;
      hide MailboxSpec.DeleteIn, MailboxSpec.SaveIn, Pipeline.Move;
      ghost var p := State();
      MoveUnfolds(p, uid, from, to, now);
      var b := At(from).BmsgByUID(uid);
      if b.None? {
        return;
      }
      Discard(uid, from);
      Add(b.value.letter, to, now);
    }

    /** A message is deleted from a box. */
    method Discard(uid: nat, box: Box)
      requires Valid() && uid < LIMIT32
      modifies Footprint()
      ensures Valid() && State() == Step(old(State()), Expunge(box, uid))
      ensures forall b: Box :: b != box ==> At(b).mbox.nextID == old(At(b).mbox.nextID)
    {
      hide Mailbox.Valid, MailboxSpec.DeleteIn;
      var _ := At(box).DeleteBitmessageByUID(uid);
    }

    /** A message is added to a box. */
    method Add(letter: Letter, box: Box, now: nat)
      requires Valid() && Room(box)
      modifies Footprint()
      ensures Valid()
      ensures State() == WithBox(old(State()), box, Pipeline.AddNew(BoxOf(old(State()), box), letter, now))
    {
      hide Mailbox.Valid, MailboxSpec.SaveIn;
      var _ := At(box).AddNew(letter, {Seen}, now);
    }

    /** The continuation of a finished order. */
    method Finish(order: Order, finished: Hash, answer: Answer, now: nat)
      requires Valid() && order.bmsg.uid < LIMIT32 && Room(Outbox) && Room(Limbo) && Room(Sent)
      modifies Footprint()
      ensures Valid() && State() == Pipeline.Finish(old(State()), order, finished, answer, now)
    {
      hide Mailbox.Valid, Pipeline.SendPrepared, Pipeline.Move, Pipeline.GenerateObject;
      match order {
        case AckOrder(m, recorded, call) =>
          ledger := ledger[finished := Receipt(recorded, m.uid)];
          var (letter, generated) := GenerateObject(m.letter.(ack := Some(finished)), answer);
          if generated.Object? {
            var _ := SendPrepared(m.(letter := letter), generated.wire, call);
          }
        case SendOrder(m, wire, _) =>
          var uid, err := SaveOutbox(m.uid, m.letter);
          if err.Some? {
            return;
          }
          network := network + [Transmission(wire, m.letter)];
          outbox.Facts();
          Move(uid, Outbox, Destination(m.letter), now);
      }
    }

    /** The queue reports order i done. */
    method PowDone(i: nat, finished: Hash, answer: Answer, now: nat)
      requires Valid() && i < |pending| && pending[i].bmsg.uid < LIMIT32 && Room(Outbox) && Room(Limbo) && Room(Sent)
      modifies Footprint()
      ensures Valid() && State() == Step(old(State()), Event.PowDone(i, finished, answer, now))
    {
      hide Mailbox.Valid, Pipeline.Finish;
      var order := pending[i];
      pending := pending[..i] + pending[i + 1..];
      Finish(order, finished, answer, now);
    }

    /** The queue discards order i. */
    method PowLost(i: nat)
      requires Valid() && i < |pending|
      modifies this
      ensures Valid() && State() == Step(old(State()), Event.PowLost(i))
    {
      pending := pending[..i] + pending[i + 1..];
    }

    method DeliverFromSMTP(email: Email, outside: Outside, now: nat) returns (ok: bool)
      requires Valid() && Room(Outbox)
      modifies Footprint()
      ensures Valid() && (State(), ok) == Deliver(old(State()), email, outside, now)
      ensures old(outbox.mbox.nextID) in State().outbox.messages
      ensures var m := State().outbox.messages[old(outbox.mbox.nextID)];
        m.payload.Encoded? && Says(m.payload.letter, email) &&
        m.payload.letter.flags == {Seen} && m.payload.letter.timeReceived == now
    {
      hide Mailbox.Valid, Pipeline.Process;
      outbox.Facts();
      DeliverStores(State(), email, outside, now);
      var letter := FromEmail(email);
      var uid := outbox.AddNew(letter, {Seen}, now);
      ok := Process(Bmsg(uid, letter.(flags := {Seen}, timeReceived := now)), outside.answer, outside.ack);
    }

    /** A mail client changes the flags of a message: what it was given as an e-mail
        is saved back with the date it had. */
    method ChangeFlags(box: Box, uid: nat, flags: set<Flag>)
      requires Valid() && uid < LIMIT32
      modifies Footprint()
      ensures Valid() && State() == Step(old(State()), Reflag(box, uid, flags))
    {
      hide Mailbox.Valid, MailboxSpec.SaveIn, MailboxSpec.PiecesUpto, MailboxSpec.Lookup;
      At(box).Facts();
      LookupShows(ALL, At(box).Model(), uid);
      var b := At(box).BmsgByUID(uid);
      if b.None? {
        return;
      }
      var _ := At(box).Save(uid, Some(EmailOf(b.value.letter)), flags, b.value.letter.timeReceived);
    }

    /** A mail client adds a message to a box. */
    method Append(box: Box, email: Email, flags: set<Flag>, now: nat)
      requires Valid() && Room(box)
      modifies Footprint()
      ensures Valid() && State() == Step(old(State()), Event.Append(box, email, flags, now))
    {
      hide Mailbox.Valid, MailboxSpec.SaveIn, MailboxSpec.PiecesUpto, MailboxSpec.Lookup;
      var _ := At(box).Save(0, Some(email), flags, now);
    }

    method DeliverAckReply(hash: Hash, now: nat) returns (outcome: AckOutcome)
      requires Valid() && Room(Sent) && (hash in acks ==> acks[hash] < LIMIT32)
      modifies Footprint()
      ensures Valid() && (State(), outcome) == Pipeline.DeliverAckReply(old(State()), hash, now)
    {
      hide Mailbox.Valid, Pipeline.Move, MailboxSpec.Lookup, MailboxSpec.PiecesUpto;
      if hash !in acks {
        return Unrecognized;
      }
      var b := limbo.BmsgByUID(acks[hash]);
      if b.None? {
        return NoMessage;
      }
      if !b.value.letter.state.ackExpected {
        return NoAckExpected;
      }
      Move(acks[hash], Limbo, Sent, now);
      outcome := Received;
    }

    /** DeliverPublic: collect the messages that wait for the key, then process
        each as a copy without a uid. */
    method DeliverPublic(wanted: set<Address>, outsides: seq<Outside>)
      requires Valid() && outbox.mbox.nextID + |outsides| < outbox.bound
      modifies Footprint()
      ensures Valid() && State() == Pipeline.DeliverPublic(old(State()), wanted, outsides)
    {
      hide Mailbox.Valid, Pipeline.ProcessAll, Pipeline.WaitingFor;
      hide MailboxSpec.PiecesUpto, FolderSpec.Fold;
      outbox.Facts();
      var bms, err := outbox.mbox.ForEachMessage(0, 0, 2, [], WaitFn(wanted));
      WaitOutcome(State().outbox, wanted);
      if err.Some? {
        return;
      }
      ProcessEach(bms, outsides);
    }

    method ProcessEach(bms: seq<Letter>, outsides: seq<Outside>)
      requires Valid() && outbox.mbox.nextID + |outsides| < outbox.bound
      modifies Footprint()
      ensures Valid() && State() == ProcessAll(old(State()), bms, outsides)
    {
      hide Mailbox.Valid, Pipeline.Process;
      ghost var goal := ProcessAll(State(), bms, outsides);
      var i := 0;
      assert bms[0..] == bms && outsides[0..] == outsides;
      while i < |bms| && i < |outsides|
        invariant 0 <= i <= |bms| && i <= |outsides|
        invariant Valid() && outbox.mbox.nextID + |outsides| - i < outbox.bound
        invariant ProcessAll(State(), bms[i..], outsides[i..]) == goal
      {
        hide Mailbox.Valid, Pipeline.Process;
        ProcessNext(State(), Bmsg(0, bms[i]), outsides[i].answer, outsides[i].ack);
        assert bms[i..][1..] == bms[i + 1..] && outsides[i..][1..] == outsides[i + 1..];
        var ok := Process(Bmsg(0, bms[i]), outsides[i].answer, outsides[i].ack);
        if !ok {
          return;
        }
        i := i + 1;
      }
    }
  }

  /** Move, as a deletion from one box and an addition to the other. */
  lemma MoveUnfolds(p: Post, uid: nat, from: Box, to: Box, now: nat)
    requires from != to
    ensures var b := Lookup(Pieces(ALL, BoxOf(p, from)), uid);
      Pipeline.Move(p, uid, from, to, now) ==
        if b.None? then p
        else
          var q := Step(p, Expunge(from, uid));
          WithBox(q, to, AddNew(BoxOf(q, to), b.value.letter, now))
  {
    hide MailboxSpec.DeleteIn, MailboxSpec.Lookup, MailboxSpec.SaveIn;
  }

  /** The callback that collects the letters waiting for a public key. */
  function WaitFn(wanted: set<Address>): (seq<Letter>, Entry) -> (seq<Letter>, Option<Error>) {
    (s: seq<Letter>, e: Entry) =>
      match DecodeLetter(e.message.payload)
      case None => (s, Some(Undecodable(e.id)))
      case Some(l) => (if l.state.pubkeyRequestOutstanding && l.to in wanted then s + [l] else s, None)
  }

  lemma {:induction false} WaitingConcat(ps: seq<Piece>, qs: seq<Piece>, wanted: set<Address>)
    ensures WaitingFor(ps + qs, wanted) == WaitingFor(ps, wanted) + WaitingFor(qs, wanted)
  {
    if qs == [] {
      assert ps + qs == ps;
    } else {
      WaitingConcat(ps, qs[..|qs| - 1], wanted);
      assert (ps + qs)[..|ps + qs| - 1] == ps + qs[..|qs| - 1];
    }
  }

  lemma WaitingStep(wanted: set<Address>, s: seq<Letter>, p: Piece, rest: seq<Piece>)
    ensures s + WaitingFor([p] + rest, wanted) ==
      (if p.letter.state.pubkeyRequestOutstanding && p.letter.to in wanted then s + [p.letter] else s) +
      WaitingFor(rest, wanted)
  {
    WaitingConcat([p], rest, wanted);
    assert [p][..0] == [];
  }

  lemma {:induction false} FoldWaiting(wanted: set<Address>, s: seq<Letter>, es: seq<Entry>)
    requires forall e :: e in es ==> e.message.suffix == 2 && DecodeLetter(e.message.payload).Some?
    ensures Fold(WaitFn(wanted), s, es) == (s + WaitingFor(View(ALL, es), wanted), None)
    decreases |es|
  {
    if es != [] {
      assert es[0] in es;
      var p := PieceOf(es[0].id, es[0].message);
      assert ViewOne(ALL, es[0]) == [p];
      FoldWaiting(wanted, WaitFn(wanted)(s, es[0]).0, es[1..]);
      WaitingStep(wanted, s, p, View(ALL, es[1..]));
    } else {
      assert s + WaitingFor([], wanted) == s;
    }
  }

  lemma WaitOutcome(f: Folder, wanted: set<Address>)
    requires Good(f) && Readable(f)
    ensures Fold(WaitFn(wanted), [], RefreshInput(f)) == (WaitingFor(Pieces(ALL, f), wanted), None)
  {
    InputReadable(f);
    FoldWaiting(wanted, [], RefreshInput(f));
    QueryShows(ALL, f, 0, 0);
    WholeInterval(ALL, f);
    assert [] + WaitingFor(Pieces(ALL, f), wanted) == WaitingFor(Pieces(ALL, f), wanted);
  }

  /** One call of process takes at most one uid. */
  lemma ProcessNext(p: Post, m: Bmsg, answer: Answer, ack: Option<Hash>)
    ensures Pipeline.Process(p, m, answer, ack).0.outbox.next <= p.outbox.next + 1
  {
  }
}
