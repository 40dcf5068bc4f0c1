/** What holds in every run of the sending pipeline. */
module PipelineInv {
  import opened Base
  import opened Mail
  import opened FolderSpec
  import opened MailboxSpec
  import opened Pipeline

  // Letters.

  /** What is stored never has a send counted or an ack noted: those changes are
      made to the copy in memory after its last save. */
  predicate Plain(l: Letter) {
    l.state.sendTries == 0 && !l.state.ackReceived && l.content.encoding == 2
  }

  /** The proof of work of a letter's ack is finished, and no ack is expected of a
      broadcast. */
  ghost predicate Fits(l: Letter, done: set<Hash>) {
    && Plain(l)
    && (l.ack.Some? ==> l.ack.value in done)
    && (l.state.ackExpected ==> l.to.Peer?)
  }

  ghost predicate MessageFits(m: Message, done: set<Hash>) {
    m.suffix == 2 && m.payload.Encoded? && Fits(m.payload.letter, done)
  }

  ghost predicate BoxOk(f: Folder, done: set<Hash>) {
    Good(f) && forall id :: id in f.messages ==> MessageFits(f.messages[id], done)
  }

  /** The object to send is a broadcast of the content to the broadcast address, and
      to a peer a message with the content and the ack, if there is one. */
  predicate WireFits(l: Letter, wire: Wire) {
    if l.to.Broadcast? then wire == WireBroadcast(l.content) else wire == WireMessage(l.content, l.ack)
  }

  /** An order for an ack holds a message that expects one and has none; an order
      to send holds a stored message, its object, and if it expects an ack, a
      finished one. */
  ghost predicate OrderOk(o: Order, next: nat, done: set<Hash>) {
    match o
    case AckOrder(m, _, _) =>
      Plain(m.letter) && m.letter.state.ackExpected && m.letter.ack.None? && m.letter.to.Peer? && m.uid < next
    case SendOrder(m, wire, _) =>
      && Fits(m.letter, done) && 0 < m.uid < next
      && WireFits(m.letter, wire) && (m.letter.state.ackExpected ==> m.letter.ack.Some?)
  }

  ghost predicate OrdersOk(p: Post) {
    forall i :: 0 <= i < |p.pending| ==> OrderOk(p.pending[i], p.outbox.next, p.ledger.Keys)
  }

  /** What went out is the object of its message, and if that expects an ack, one is
      embedded whose own proof of work was finished. */
  ghost predicate SentOk(t: Transmission, done: set<Hash>) {
    && WireFits(t.letter, t.wire) && t.letter.content.encoding == 2
    && (t.letter.state.ackExpected ==> t.letter.to.Peer? && t.letter.ack.Some? && t.letter.ack.value in done)
  }

  ghost predicate NetworkOk(p: Post) {
    forall i :: 0 <= i < |p.network| ==> SentOk(p.network[i], p.ledger.Keys)
  }

  ghost predicate BoxesOk(p: Post) {
    BoxOk(p.outbox, p.ledger.Keys) && BoxOk(p.limbo, p.ledger.Keys) && BoxOk(p.sent, p.ledger.Keys)
  }

  ghost predicate Inv(p: Post) {
    BoxesOk(p) && OrdersOk(p) && NetworkOk(p)
  }

  // Boxes.

  lemma InvBox(p: Post, box: Box)
    requires Inv(p)
    ensures BoxOk(BoxOf(p, box), p.ledger.Keys) && Good(BoxOf(p, box))
  {
  }

  lemma SaveFits(f: Folder, done: set<Hash>, uid: nat, l: Letter)
    requires BoxOk(f, done) && Fits(l, done)
    ensures var (g, id, err) := SaveIn(f, uid, l);
      BoxOk(g, done) && f.next <= g.next && (err.None? ==> 0 < id < g.next && id in g.messages)
  {
  }

  lemma LookupStored(f: Folder, done: set<Hash>, uid: nat)
    requires BoxOk(f, done)
    ensures Lookup(Pieces(ALL, f), uid).Some? <==> uid in f.messages
    ensures uid in f.messages ==>
      var l := Lookup(Pieces(ALL, f), uid).value.letter;
      f.messages[uid] == Message(2, Encoded(l)) && Fits(l, done)
  {
    LookupShows(ALL, f, uid);
    assert uid in f.messages ==> MessageFits(f.messages[uid], done);
  }

  lemma DeleteFits(f: Folder, done: set<Hash>, uid: nat)
    requires BoxOk(f, done)
    ensures var g := DeleteIn(ALL, f, uid);
      BoxOk(g, done) && g.next == f.next && g.messages == f.messages - {uid}
  {
    LookupStored(f, done, uid);
  }

  /** A change of flags keeps all of a stored letter but its ack, its channel mark
      and the flags. */
  lemma ChangeFlagsFits(f: Folder, done: set<Hash>, uid: nat, flags: set<Flag>)
    requires BoxOk(f, done)
    ensures var g := ChangeFlags(f, uid, flags);
      && BoxOk(g, done) && g.next == f.next && g.messages.Keys == f.messages.Keys
      && (forall id :: id in f.messages && id != uid ==> g.messages[id] == f.messages[id])
      && (uid in f.messages ==>
            var l := f.messages[uid].payload.letter;
            g.messages[uid] == Message(2, Encoded(l.(ack := None, ofChannel := false, flags := flags))))
  {
    hide MailboxSpec.Lookup, MailboxSpec.PiecesUpto;
    LookupStored(f, done, uid);
    if uid in f.messages {
      SaveFits(f, done, uid, Rebuilt(f.messages[uid].payload.letter, flags));
    }
  }

  lemma DoneGrows(f: Folder, done: set<Hash>, h: Hash)
    requires BoxOk(f, done)
    ensures BoxOk(f, done + {h})
  {
    forall id | id in f.messages ensures MessageFits(f.messages[id], done + {h}) {
      assert MessageFits(f.messages[id], done);
    }
  }

  // generateObject.

  /** From a letter fit to be stored: what object there is fits the letter and embeds
      an ack if one is expected, and an ack is reported missing only where one is
      expected of a peer and there is none. */
  lemma Generates(l: Letter, answer: Answer, done: set<Hash>)
    requires Fits(l, done)
    ensures var (m, g) := GenerateObject(l, answer);
      && Fits(m, done) && m.ack == l.ack && m.to == l.to
      && (g.Object? ==> WireFits(m, g.wire) && (m.state.ackExpected ==> m.ack.Some?))
      && (g.AckMissing? ==> m.state.ackExpected && m.ack.None? && m.to.Peer?)
      && (l.ack.Some? ==> !g.AckMissing?)
  {
  }

  /** What generateObject changes in a letter: the mark of an outstanding request, and
      for a known peer the channel mark and whether an ack is expected. */
  lemma GenerateChanges(l: Letter, answer: Answer)
    ensures var m := GenerateObject(l, answer).0;
      && m.from == l.from && m.to == l.to && m.expiration == l.expiration && m.content == l.content
      && m.ack == l.ack && m.flags == l.flags && m.timeReceived == l.timeReceived
      && m.ofChannel == (if answer.Known? && l.to.Peer? && answer.own.Some? then answer.own.value else l.ofChannel)
      && m.state.ackExpected ==
           (if answer.Known? && l.to.Peer? then answer.own.None? && (answer.wantsAck || l.state.ackExpected)
            else l.state.ackExpected)
      && m.state.pubkeyRequestOutstanding == (answer.PubkeyRequested? || l.state.pubkeyRequestOutstanding)
      && m.state.sendTries == l.state.sendTries && m.state.lastSend == l.state.lastSend
      && m.state.ackReceived == l.state.ackReceived && m.state.received == l.state.received
  {
  }

  /** Its outcome: an ack is missing exactly if one is expected of a peer and there is
      none; otherwise an object is made of what a known recipient can be encoded to. */
  lemma GenerateOutcome(l: Letter, answer: Answer)
    ensures var (m, g) := GenerateObject(l, answer);
      && (g.PubkeySent? <==> answer.PubkeyRequested?)
      && (g.AckMissing? <==> answer.Known? && m.to.Peer? && m.state.ackExpected && m.ack.None?)
      && (g.Object? <==> answer.Known? && !g.AckMissing? && answer.encodes)
      && (g.Object? ==> WireFits(m, g.wire))
  {
  }

  /** The second try: once an ack was found missing, the letter with an ack embeds
      that ack under the same answer, and no later answer finds it missing again. */
  lemma SecondTry(l: Letter, answer: Answer, later: Answer, finished: Hash)
    requires GenerateObject(l, answer).1.AckMissing?
    ensures var m := GenerateObject(l, answer).0.(ack := Some(finished));
      && (answer.encodes ==> GenerateObject(m, answer) == (m, Object(WireMessage(l.content, Some(finished)))))
      && !GenerateObject(m, later).1.AckMissing?
  {
  }

  // Steps.

  lemma SendPreparedInv(p: Post, m: Bmsg, wire: Wire, call: nat)
    requires Inv(p) && Fits(m.letter, p.ledger.Keys)
    requires WireFits(m.letter, wire) && (m.letter.state.ackExpected ==> m.letter.ack.Some?)
    ensures var (q, ok) := SendPrepared(p, m, wire, call);
      Inv(q) && q.ledger == p.ledger && p.outbox.next <= q.outbox.next
  {
    SaveFits(p.outbox, p.ledger.Keys, m.uid, m.letter);
    var (q, ok) := SendPrepared(p, m, wire, call);
    if ok {
      forall i | 0 <= i < |q.pending| ensures OrderOk(q.pending[i], q.outbox.next, q.ledger.Keys) {
        if i < |p.pending| {
          assert OrderOk(p.pending[i], p.outbox.next, p.ledger.Keys);
          assert q.pending[i] == p.pending[i];
        }
      }
    }
  }

  lemma OutboxSaveInv(p: Post, uid: nat, l: Letter)
    requires Inv(p) && Fits(l, p.ledger.Keys)
    ensures Inv(p.(outbox := SaveIn(p.outbox, uid, l).0)) && p.outbox.next <= SaveIn(p.outbox, uid, l).0.next
  {
    SaveFits(p.outbox, p.ledger.Keys, uid, l);
    var next := SaveIn(p.outbox, uid, l).0.next;
    forall i | 0 <= i < |p.pending| ensures OrderOk(p.pending[i], next, p.ledger.Keys) {
      assert OrderOk(p.pending[i], p.outbox.next, p.ledger.Keys);
    }
  }

  lemma ProcessInv(p: Post, m: Bmsg, answer: Answer, ack: Option<Hash>)
    requires Inv(p) && Fits(m.letter, p.ledger.Keys) && m.uid < p.outbox.next
    ensures var (q, ok) := Process(p, m, answer, ack);
      Inv(q) && q.ledger == p.ledger && p.outbox.next <= q.outbox.next
  {
    hide Pipeline.GenerateObject, Pipeline.SendPrepared, MailboxSpec.SaveIn, BoxOk;
    var (l, g) := GenerateObject(m.letter, answer);
    Generates(m.letter, answer, p.ledger.Keys);
    var p1 := p.(calls := p.calls + 1);
    assert Inv(p1);
    match g
    case Object(wire) => SendPreparedInv(p1, m.(letter := l), wire, p.calls);
    case PubkeySent => OutboxSaveInv(p1, m.uid, l);
    case AckMissing =>
    case Failed =>
  }

  lemma DeliverInv(p: Post, e: Email, outside: Outside, now: nat)
    requires Inv(p)
    ensures Inv(Deliver(p, e, outside, now).0)
  {
    var l := FromEmail(e).(flags := {Seen}, timeReceived := now);
    OutboxSaveInv(p, 0, l);
    SaveFits(p.outbox, p.ledger.Keys, 0, l);
    ProcessInv(p.(outbox := AddNew(p.outbox, FromEmail(e), now)), Bmsg(p.outbox.next, l), outside.answer, outside.ack);
  }

  lemma {:induction false} WaitingFits(ps: seq<Piece>, wanted: set<Address>, done: set<Hash>)
    requires forall i :: 0 <= i < |ps| ==> Fits(ps[i].letter, done)
    ensures forall i :: 0 <= i < |WaitingFor(ps, wanted)| ==> Fits(WaitingFor(ps, wanted)[i], done)
  {
    if ps != [] { WaitingFits(ps[..|ps| - 1], wanted, done); }
  }

  ghost predicate HasLetter(ps: seq<Piece>, l: Letter) {
    exists i :: 0 <= i < |ps| && ps[i].letter == l
  }

  lemma HasLetterLast(ps: seq<Piece>, l: Letter)
    requires ps != []
    ensures HasLetter(ps, l) <==> HasLetter(ps[..|ps| - 1], l) || ps[|ps| - 1].letter == l
  {
    var n := |ps| - 1;
    if i :| 0 <= i < |ps| && ps[i].letter == l {
      assert i == n || ps[..n][i].letter == l;
    }
    if i :| 0 <= i < n && ps[..n][i].letter == l {
      assert ps[i].letter == l;
    }
  }

  /** The messages taken up again are exactly the stored ones that wait for a key
      of a wanted address. */
  lemma {:induction false} WaitingExact(ps: seq<Piece>, wanted: set<Address>, l: Letter)
    ensures l in WaitingFor(ps, wanted) <==>
      l.state.pubkeyRequestOutstanding && l.to in wanted && HasLetter(ps, l)
  {
    hide HasLetter;
    if ps != [] {
      WaitingExact(ps[..|ps| - 1], wanted, l);
      HasLetterLast(ps, l);
    } else {
      NoLetter(l);
    }
  }

  predicate Waits(l: Letter, wanted: set<Address>) {
    l.state.pubkeyRequestOutstanding && l.to in wanted
  }

  /** The letters ls are those at these places of the list, which are all the places
      of waiting ones, in their order. */
  ghost predicate AtPlaces(ps: seq<Piece>, wanted: set<Address>, ls: seq<Letter>, places: seq<nat>) {
    && |places| == |ls|
    && (forall i, j :: 0 <= i < j < |places| ==> places[i] < places[j])
    && (forall i :: 0 <= i < |places| ==> places[i] < |ps| && ps[places[i]].letter == ls[i])
    && (forall k :: 0 <= k < |ps| ==> (k in places <==> Waits(ps[k].letter, wanted)))
  }

  lemma PlacesPass(ps: seq<Piece>, wanted: set<Address>, ls: seq<Letter>, places: seq<nat>, p: Piece)
    requires AtPlaces(ps, wanted, ls, places) && !Waits(p.letter, wanted)
    ensures AtPlaces(ps + [p], wanted, ls, places)
  {
    hide Waits;
    assert |ps| !in places;
  }

  lemma PlacesAdd(ps: seq<Piece>, wanted: set<Address>, ls: seq<Letter>, places: seq<nat>, p: Piece)
    requires AtPlaces(ps, wanted, ls, places) && Waits(p.letter, wanted)
    ensures AtPlaces(ps + [p], wanted, ls + [p.letter], places + [|ps|])
  {
    hide Waits;
    var qs, more := ps + [p], places + [|ps|];
    forall k | 0 <= k < |qs| ensures k in more <==> Waits(qs[k].letter, wanted) {
      if k < |ps| { assert qs[k] == ps[k] && (k in more <==> k in places); }
    }
  }

  /** They come once for each place in the list, in the order of the list. */
  lemma {:induction false} WaitingInOrder(ps: seq<Piece>, wanted: set<Address>) returns (places: seq<nat>)
    ensures AtPlaces(ps, wanted, WaitingFor(ps, wanted), places)
  {
    if ps == [] {
      places := [];
    } else {
      hide AtPlaces;
      var n := |ps| - 1;
      var front := WaitingInOrder(ps[..n], wanted);
      var ls := WaitingFor(ps[..n], wanted);
      assert ps[..n] + [ps[n]] == ps;
      if Waits(ps[n].letter, wanted) {
        PlacesAdd(ps[..n], wanted, ls, front, ps[n]);
        places := front + [n];
      } else {
        PlacesPass(ps[..n], wanted, ls, front, ps[n]);
        places := front;
      }
    }
  }

  lemma NoLetter(l: Letter)
    ensures !HasLetter([], l)
  {
  }

  lemma PiecesFit(f: Folder, done: set<Hash>)
    requires BoxOk(f, done)
    ensures forall i :: 0 <= i < |Pieces(ALL, f)| ==> Fits(Pieces(ALL, f)[i].letter, done)
  {
    var ps := Pieces(ALL, f);
    PiecesExact(ALL, f.messages, f.next);
    forall i | 0 <= i < |ps| ensures Fits(ps[i].letter, done) {
      assert ps[i] in ps;
      assert MessageFits(f.messages[ps[i].uid], done);
    }
  }

  ghost predicate AllFit(ls: seq<Letter>, done: set<Hash>) {
    forall i :: 0 <= i < |ls| ==> Fits(ls[i], done)
  }

  lemma WaitingAllFit(p: Post, wanted: set<Address>)
    requires Inv(p)
    ensures AllFit(WaitingFor(Pieces(ALL, p.outbox), wanted), p.ledger.Keys)
  {
    PiecesFit(p.outbox, p.ledger.Keys);
    WaitingFits(Pieces(ALL, p.outbox), wanted, p.ledger.Keys);
  }

  lemma {:induction false} ProcessAllInv(p: Post, ls: seq<Letter>, outsides: seq<Outside>)
    requires Inv(p) && AllFit(ls, p.ledger.Keys)
    ensures Inv(ProcessAll(p, ls, outsides)) && ProcessAll(p, ls, outsides).ledger == p.ledger
    decreases |ls|
  {
    if ls != [] && outsides != [] {
      var (q, ok) := Process(p, Bmsg(0, ls[0]), outsides[0].answer, outsides[0].ack);
      ProcessInv(p, Bmsg(0, ls[0]), outsides[0].answer, outsides[0].ack);
      if ok {
        assert forall i :: 0 <= i < |ls[1..]| ==> ls[1..][i] == ls[i + 1];
        ProcessAllInv(q, ls[1..], outsides[1..]);
      }
    }
  }

  lemma TakeOrderInv(p: Post, i: nat)
    requires Inv(p) && i < |p.pending|
    ensures Inv(TakeOrder(p, i)) && OrderOk(p.pending[i], p.outbox.next, p.ledger.Keys)
  {
    var q := TakeOrder(p, i);
    forall j | 0 <= j < |q.pending| ensures OrderOk(q.pending[j], p.outbox.next, p.ledger.Keys) {
      assert q.pending[j] == p.pending[if j < i then j else j + 1];
    }
  }

  lemma MoveInv(p: Post, uid: nat, from: Box, to: Box, now: nat)
    requires Inv(p) && from != to && !to.Outbox?
    ensures var q := Move(p, uid, from, to, now);
      Inv(q) && q == WithBox(WithBox(p, from, BoxOf(q, from)), to, BoxOf(q, to)) && q.outbox.next == p.outbox.next
  {
    hide MailboxSpec.Lookup, MailboxSpec.PiecesUpto, MailboxSpec.DeleteIn;
    var f := BoxOf(p, from);
    LookupStored(f, p.ledger.Keys, uid);
    var b := Lookup(Pieces(ALL, f), uid);
    if b.Some? {
      DeleteFits(f, p.ledger.Keys, uid);
      SaveFits(BoxOf(p, to), p.ledger.Keys, 0, b.value.letter.(flags := {Seen}, timeReceived := now));
    }
  }

  /** A finished ack is noted. */
  lemma AckDoneInv(p: Post, h: Hash, r: Receipt)
    requires Inv(p)
    ensures Inv(p.(ledger := p.ledger[h := r]))
  {
    var done := p.ledger.Keys;
    assert p.ledger[h := r].Keys == done + {h};
    DoneGrows(p.outbox, done, h);
    DoneGrows(p.limbo, done, h);
    DoneGrows(p.sent, done, h);
    forall i | 0 <= i < |p.pending| ensures OrderOk(p.pending[i], p.outbox.next, done + {h}) {
      assert OrderOk(p.pending[i], p.outbox.next, done);
    }
    forall i | 0 <= i < |p.network| ensures SentOk(p.network[i], done + {h}) {
      assert SentOk(p.network[i], done);
    }
  }

  lemma FinishAckInv(p: Post, m: Bmsg, recorded: Hash, call: nat, finished: Hash, answer: Answer)
    requires Inv(p) && OrderOk(AckOrder(m, recorded, call), p.outbox.next, p.ledger.Keys)
    ensures Inv(FinishAck(p, m, recorded, call, finished, answer))
  {
    hide BoxOk, Pipeline.SendPrepared, Pipeline.GenerateObject;
    var l := m.letter.(ack := Some(finished));
    AckDoneInv(p, finished, Receipt(recorded, m.uid));
    var q := p.(ledger := p.ledger[finished := Receipt(recorded, m.uid)]);
    Generates(l, answer, q.ledger.Keys);
    var (k, g) := GenerateObject(l, answer);
    if g.Object? { SendPreparedInv(q, m.(letter := k), g.wire, call); }
  }

  lemma FinishSendInv(p: Post, m: Bmsg, wire: Wire, call: nat, now: nat)
    requires Inv(p) && OrderOk(SendOrder(m, wire, call), p.outbox.next, p.ledger.Keys)
    ensures Inv(FinishSend(p, m, wire, now))
  {
    hide BoxOk, Pipeline.Move;
    OutboxSaveInv(p, m.uid, m.letter);
    var (outbox, uid, err) := SaveIn(p.outbox, m.uid, m.letter);
    if err.None? {
      var q := p.(outbox := outbox, network := p.network + [Transmission(wire, m.letter)]);
      assert NetworkOk(q);
      MoveInv(q, uid, Outbox, Destination(m.letter), now);
    }
  }

  lemma FinishInv(p: Post, i: nat, finished: Hash, answer: Answer, now: nat)
    requires Inv(p) && i < |p.pending|
    ensures Inv(Finish(TakeOrder(p, i), p.pending[i], finished, answer, now))
  {
    hide Pipeline.FinishAck, Pipeline.FinishSend, Inv;
    TakeOrderInv(p, i);
    match p.pending[i]
    case AckOrder(m, recorded, call) => FinishAckInv(TakeOrder(p, i), m, recorded, call, finished, answer);
    case SendOrder(m, wire, call) => FinishSendInv(TakeOrder(p, i), m, wire, call, now);
  }

  lemma BoxInv(p: Post, box: Box, f: Folder)
    requires Inv(p) && BoxOk(f, p.ledger.Keys) && BoxOf(p, box).next <= f.next
    ensures Inv(WithBox(p, box, f))
  {
    forall i | 0 <= i < |p.pending| ensures OrderOk(p.pending[i], WithBox(p, box, f).outbox.next, p.ledger.Keys) {
      assert OrderOk(p.pending[i], p.outbox.next, p.ledger.Keys);
    }
  }

  /** What the user does to a box keeps the invariant. */
  lemma UserInv(p: Post, e: Event)
    requires Inv(p) && (e.Expunge? || e.Reflag? || e.Append?)
    ensures Inv(Step(p, e))
  {
    hide MailboxSpec.DeleteIn, Pipeline.ChangeFlags, MailboxSpec.SaveIn;
    var f := BoxOf(p, e.box);
    match e
    case Expunge(box, uid) =>
      DeleteFits(f, p.ledger.Keys, uid);
      BoxInv(p, box, DeleteIn(ALL, f, uid));
    case Reflag(box, uid, flags) =>
      ChangeFlagsFits(f, p.ledger.Keys, uid, flags);
      BoxInv(p, box, ChangeFlags(f, uid, flags));
    case Append(box, email, flags, now) =>
      var l := FromEmail(email).(flags := flags, timeReceived := now);
      SaveFits(f, p.ledger.Keys, 0, l);
      BoxInv(p, box, SaveIn(f, 0, l).0);
  }

  lemma StepInv(p: Post, e: Event)
    requires Inv(p)
    ensures Inv(Step(p, e))
  {
    hide Pipeline.Deliver, Pipeline.Finish, Pipeline.ProcessAll, Pipeline.Move, Inv;
    match e
    case Smtp(email, outside, now) => DeliverInv(p, email, outside, now);
    case Pubkey(wanted, outsides) =>
      WaitingAllFit(p, wanted);
      ProcessAllInv(p, WaitingFor(Pieces(ALL, p.outbox), wanted), outsides);
    case PowDone(i, finished, answer, now) => if i < |p.pending| { FinishInv(p, i, finished, answer, now); }
    case PowLost(i) => if i < |p.pending| { TakeOrderInv(p, i); }
    case AckReply(hash, now) => if hash in p.acks { MoveInv(p, p.acks[hash], Limbo, Box.Sent, now); }
    case Expunge(_, _) => UserInv(p, e);
    case Reflag(_, _, _) => UserInv(p, e);
    case Append(_, _, _, _) => UserInv(p, e);
  }

  lemma {:induction false} RunInv(events: seq<Event>)
    ensures Inv(Run(START, events))
  {
    hide Pipeline.Step;
    if events != [] {
      RunInv(events[..|events| - 1]);
      StepInv(Run(START, events[..|events| - 1]), events[|events| - 1]);
    }
  }

  // What this says of every run.

  /** What goes out, in every run: a broadcast exactly to the broadcast address, and to
      a peer a message with the content and the ack of the letter it was made from. */
  lemma SentAsAddressed(events: seq<Event>, i: nat)
    requires i < |Run(START, events).network|
    ensures var t := Run(START, events).network[i];
      t.wire == if t.letter.to.Broadcast? then WireBroadcast(t.letter.content)
                else WireMessage(t.letter.content, t.letter.ack)
  {
    RunInv(events);
  }

  /** A message that expects an ack is never handed to the network before its
      ack's proof of work is done and the ack embedded. */
  lemma NoSendBeforeAck(events: seq<Event>, i: nat)
    requires i < |Run(START, events).network|
    ensures var p := Run(START, events); var t := p.network[i];
      t.letter.state.ackExpected ==>
        t.letter.ack.Some? && t.letter.ack.value in p.ledger && t.wire == WireMessage(t.letter.content, t.letter.ack)
  {
    RunInv(events);
  }

  /** The send counter and the ack note never reach the store. */
  lemma BookkeepingLost(events: seq<Event>, box: Box, id: nat)
    requires id in BoxOf(Run(START, events), box).messages
    ensures var m := BoxOf(Run(START, events), box).messages[id];
      m.payload.Encoded? && m.payload.letter.state.sendTries == 0 && !m.payload.letter.state.ackReceived
  {
    RunInv(events);
    assert MessageFits(BoxOf(Run(START, events), box).messages[id], Run(START, events).ledger.Keys);
  }

  // Orders by call.

  ghost function Count<T>(s: seq<T>, x: T): nat {
    multiset(s)[x]
  }

  /** How many orders for an ack are under way for a call. */
  function AcksUnderWay(pending: seq<Order>, c: nat): nat {
    if pending == [] then 0
    else
      var o := pending[|pending| - 1];
      AcksUnderWay(pending[..|pending| - 1], c) + if o.AckOrder? && o.call == c then 1 else 0
  }

  /** Call c has given at most one order for an ack and at most one to send, and
      as long as the first is under way the second is still to come. */
  ghost predicate CallOk(p: Post, c: nat) {
    && Count(p.issued, Issue(c, true)) <= 1
    && Count(p.issued, Issue(c, false)) + AcksUnderWay(p.pending, c) <= 1
    && (p.calls <= c ==>
          Count(p.issued, Issue(c, true)) == Count(p.issued, Issue(c, false)) == AcksUnderWay(p.pending, c) == 0)
  }

  lemma UnderWayAppend(pending: seq<Order>, o: Order, c: nat)
    ensures AcksUnderWay(pending + [o], c) == AcksUnderWay(pending, c) + if o.AckOrder? && o.call == c then 1 else 0
  {
    assert (pending + [o])[..|pending|] == pending;
  }

  lemma {:induction false} UnderWayCut(pending: seq<Order>, i: nat, c: nat)
    requires i < |pending|
    ensures AcksUnderWay(pending[..i] + pending[i + 1..], c)
         + (if pending[i].AckOrder? && pending[i].call == c then 1 else 0) == AcksUnderWay(pending, c)
  {
    var n := |pending| - 1;
    var r := pending[..i] + pending[i + 1..];
    if i == n {
      assert r == pending[..n];
    } else {
      var front := pending[..n];
      UnderWayCut(front, i, c);
      assert r[..n - 1] == front[..i] + front[i + 1..] && r[n - 1] == pending[n];
    }
  }

  lemma ProcessCalls(p: Post, m: Bmsg, answer: Answer, ack: Option<Hash>, c: nat)
    requires CallOk(p, c)
    ensures CallOk(Process(p, m, answer, ack).0, c)
  {
    hide AcksUnderWay;
    var q := Process(p, m, answer, ack).0;
    if |q.pending| > |p.pending| { UnderWayAppend(p.pending, q.pending[|p.pending|], c); }
  }

  lemma {:induction false} ProcessAllCalls(p: Post, ls: seq<Letter>, outsides: seq<Outside>, c: nat)
    requires CallOk(p, c)
    ensures CallOk(ProcessAll(p, ls, outsides), c)
    decreases |ls|
  {
    hide CallOk, Pipeline.Process;
    if ls != [] && outsides != [] {
      var (q, ok) := Process(p, Bmsg(0, ls[0]), outsides[0].answer, outsides[0].ack);
      ProcessCalls(p, Bmsg(0, ls[0]), outsides[0].answer, outsides[0].ack, c);
      if ok { ProcessAllCalls(q, ls[1..], outsides[1..], c); }
    }
  }

  /** The end of an order for an ack gives no order or the one order to send of the
      same call; the end of an order to send gives none. */
  lemma FinishIssues(p: Post, o: Order, finished: Hash, answer: Answer, now: nat)
    ensures var q := Finish(p, o, finished, answer, now);
      && q.calls == p.calls
      && ((q.issued == p.issued && q.pending == p.pending) ||
          (o.AckOrder? && q.issued == p.issued + [Issue(o.call, false)] && |q.pending| == |p.pending| + 1
           && q.pending == p.pending + [q.pending[|p.pending|]] && q.pending[|p.pending|].SendOrder?))
  {
  }

  lemma FinishCalls(p: Post, i: nat, finished: Hash, answer: Answer, now: nat, c: nat)
    requires CallOk(p, c) && i < |p.pending|
    ensures CallOk(Finish(TakeOrder(p, i), p.pending[i], finished, answer, now), c) && CallOk(TakeOrder(p, i), c)
  {
    hide AcksUnderWay, Pipeline.Finish;
    UnderWayCut(p.pending, i, c);
    var p1 := TakeOrder(p, i);
    FinishIssues(p1, p.pending[i], finished, answer, now);
    var q := Finish(p1, p.pending[i], finished, answer, now);
    if q.pending != p1.pending { UnderWayAppend(p1.pending, q.pending[|p1.pending|], c); }
  }

  lemma StepCalls(p: Post, e: Event, c: nat)
    requires CallOk(p, c)
    ensures CallOk(Step(p, e), c)
  {
    hide Pipeline.Process, Pipeline.ProcessAll, Pipeline.Finish, CallOk;
    hide MailboxSpec.SaveIn, MailboxSpec.DeleteIn, Pipeline.ChangeFlags, MailboxSpec.PiecesUpto, MailboxSpec.Lookup;
    match e
    case Smtp(email, outside, now) =>
      var l := FromEmail(email).(flags := {Seen}, timeReceived := now);
      var q := p.(outbox := AddNew(p.outbox, FromEmail(email), now));
      SameCalls(p, q, c);
      ProcessCalls(q, Bmsg(p.outbox.next, l), outside.answer, outside.ack, c);
    case Pubkey(wanted, outsides) => ProcessAllCalls(p, WaitingFor(Pieces(ALL, p.outbox), wanted), outsides, c);
    case PowDone(i, finished, answer, now) => if i < |p.pending| { FinishCalls(p, i, finished, answer, now, c); }
    case PowLost(i) => if i < |p.pending| { FinishCalls(p, i, 0, Unusable, 0, c); }
    case AckReply(_, _) => SameCalls(p, Step(p, e), c);
    case Expunge(_, _) => SameCalls(p, Step(p, e), c);
    case Reflag(_, _, _) => SameCalls(p, Step(p, e), c);
    case Append(_, _, _, _) => SameCalls(p, Step(p, e), c);
  }

  lemma SameCalls(p: Post, q: Post, c: nat)
    requires CallOk(p, c) && q.calls == p.calls && q.issued == p.issued && q.pending == p.pending
    ensures CallOk(q, c)
  {
  }

  /** In every run, each call of process leads to at most one order for an ack and
      at most one to send. */
  lemma {:induction false} TwoOrdersPerCall(events: seq<Event>, c: nat)
    ensures CallOk(Run(START, events), c)
    ensures Count(Run(START, events).issued, Issue(c, true)) <= 1
    ensures Count(Run(START, events).issued, Issue(c, false)) <= 1
  {
    hide Pipeline.Step;
    if events != [] {
      TwoOrdersPerCall(events[..|events| - 1], c);
      StepCalls(Run(START, events[..|events| - 1]), events[|events| - 1], c);
    }
  }
}
