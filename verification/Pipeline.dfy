/** Sending a message (user/process.go, user/user.go, user/serverops.go): the
    three boxes a message passes, the proof-of-work orders under way with their
    continuations, and the acks that are waited for. What the program learns from
    its keys, from the server and from the clock comes with the events. */
module Pipeline {
  import opened Base
  import opened Mail
  import opened FolderSpec
  import opened MailboxSpec

  /** These mailboxes show all of their folder. */
  const ALL: Filter := (l: Letter) => true

  datatype Box = Outbox | Limbo | Sent

  /** What goes over the wire. */
  datatype Wire = WireMessage(content: Content, ack: Option<Hash>) | WireBroadcast(content: Content)

  /** A message in memory; uid 0 means that it is not stored. */
  datatype Bmsg = Bmsg(uid: nat, letter: Letter)

  /** A proof-of-work order and what is to be done when it is finished. `call` is
      the call of process it descends from; `recorded` is the hash of the ack
      before its proof of work, under which it is on record. */
  datatype Order =
    | AckOrder(bmsg: Bmsg, recorded: Hash, call: nat)
    | SendOrder(bmsg: Bmsg, wire: Wire, call: nat)

  /** What was handed to the network, with the message it was made from. */
  datatype Transmission = Transmission(wire: Wire, letter: Letter)

  /** For a finished ack: the hash it is on record under, and the uid recorded. */
  datatype Receipt = Receipt(recorded: Hash, uid: nat)

  /** An order that was given, by the call of process it descends from. */
  datatype Issue = Issue(call: nat, forAck: bool)

  /** `ledger` holds the finished acks, `calls` the number of calls of process so
      far, and `issued` the proof-of-work orders given so far. */
  datatype Post = Post(
    outbox: Folder,
    limbo: Folder,
    sent: Folder,
    acks: map<Hash, nat>,
    pending: seq<Order>,
    network: seq<Transmission>,
    ledger: map<Hash, Receipt>,
    calls: nat,
    issued: seq<Issue>)

  const START := Post(EMPTY, EMPTY, EMPTY, map[], [], [], map[], 0, [])

  function BoxOf(p: Post, box: Box): Folder {
    match box case Outbox => p.outbox case Limbo => p.limbo case Sent => p.sent
  }

  function WithBox(p: Post, box: Box, f: Folder): Post {
    match box case Outbox => p.(outbox := f) case Limbo => p.(limbo := f) case Sent => p.(sent := f)
  }

  // generateObject.

  /** What the lookups answer: no usable sender or recipient; a request for the
      recipient's key was sent; or the recipient is known, `own` telling whether
      it is one of our own addresses and if so whether it is a channel. */
  datatype Answer =
    | Unusable
    | PubkeyRequested
    | Known(own: Option<bool>, wantsAck: bool, encodes: bool)

  datatype Generated = Object(wire: Wire) | PubkeySent | AckMissing | Failed

  function GenerateObject(l: Letter, answer: Answer): (Letter, Generated) {
    match answer
    case Unusable => (l, Generated.Failed)
    case PubkeyRequested => (l.(state := l.state.(pubkeyRequestOutstanding := true)), PubkeySent)
    case Known(own, wantsAck, encodes) =>
      if l.to.Broadcast? then
        (l, if encodes then Object(WireBroadcast(l.content)) else Generated.Failed)
      else
        var m :=
          if own.Some? then l.(ofChannel := own.value, state := l.state.(ackExpected := false))
          else if wantsAck then l.(state := l.state.(ackExpected := true))
          else l;
        if m.ack.None? && m.state.ackExpected then (m, AckMissing)
        else (m, if encodes then Object(WireMessage(m.content, m.ack)) else Generated.Failed)
  }

  // process and the continuations.

  /** Saves the message and orders the proof of work for its object. */
  function SendPrepared(p: Post, m: Bmsg, wire: Wire, call: nat): (Post, bool) {
    var (outbox, uid, err) := SaveIn(p.outbox, m.uid, m.letter);
    if err.Some? then (p, false)
    else
      (p.(outbox := outbox,
          pending := p.pending + [SendOrder(Bmsg(uid, m.letter), wire, call)],
          issued := p.issued + [Issue(call, false)]), true)
  }

  /** process; `ack` is the hash of the ack if one can be generated. The second
      result tells whether it returned without an error. */
  function Process(p0: Post, m0: Bmsg, answer: Answer, ack: Option<Hash>): (Post, bool) {
    var call := p0.calls;
    var p := p0.(calls := call + 1);
    var (letter, generated) := GenerateObject(m0.letter, answer);
    var m := m0.(letter := letter);
    match generated
    case Object(wire) => SendPrepared(p, m, wire, call)
    case PubkeySent =>
      var saved := SaveIn(p.outbox, m.uid, m.letter);
      (p.(outbox := saved.0), saved.2.None?)
    case AckMissing =>
      if ack.None? then (p, false)
      else
        (p.(acks := p.acks[ack.value := m.uid],
            pending := p.pending + [AckOrder(m, ack.value, call)],
            issued := p.issued + [Issue(call, true)]), true)
    case Failed => (p, false)
  }

  /** addNew on a folder. */
  function AddNew(f: Folder, l: Letter, now: nat): Folder {
    SaveIn(f, 0, l.(flags := {Seen}, timeReceived := now)).0
  }

  /** Move: what is stored under the uid goes to the other box, under a new uid. */
  function Move(p: Post, uid: nat, from: Box, to: Box, now: nat): Post {
    var b := Lookup(Pieces(ALL, BoxOf(p, from)), uid);
    if b.None? then p
    else
      var q := WithBox(p, from, DeleteIn(ALL, BoxOf(p, from), uid));
      WithBox(q, to, AddNew(BoxOf(q, to), b.value.letter, now))
  }

  function Destination(l: Letter): Box {
    if l.state.ackExpected then Limbo else Sent
  }

  /** The proof of work of an ack is done; with the nonce in it its hash is
      `finished`. */
  function FinishAck(p: Post, m: Bmsg, recorded: Hash, call: nat, finished: Hash, answer: Answer): Post {
    var (letter, generated) := GenerateObject(m.letter.(ack := Some(finished)), answer);
    var q := p.(ledger := p.ledger[finished := Receipt(recorded, m.uid)]);
    if generated.Object? then SendPrepared(q, m.(letter := letter), generated.wire, call).0 else q
  }

  /** The proof of work of a message is done. */
  function FinishSend(p: Post, m: Bmsg, wire: Wire, now: nat): Post {
    var (outbox, uid, err) := SaveIn(p.outbox, m.uid, m.letter);
    if err.Some? then p
    else
      var q := p.(outbox := outbox, network := p.network + [Transmission(wire, m.letter)]);
      Move(q, uid, Outbox, Destination(m.letter), now)
  }

  function Finish(p: Post, order: Order, finished: Hash, answer: Answer, now: nat): Post {
    match order
    case AckOrder(m, recorded, call) => FinishAck(p, m, recorded, call, finished, answer)
    case SendOrder(m, wire, _) => FinishSend(p, m, wire, now)
  }

  // The events of a run.

  /** What the surroundings contribute to one call of process. */
  datatype Outside = Outside(answer: Answer, ack: Option<Hash>)

  datatype Event =
    | Smtp(email: Email, outside: Outside, now: nat)                  // DeliverFromSMTP
    | Pubkey(wanted: set<Address>, outsides: seq<Outside>)            // DeliverPublic
    | PowDone(i: nat, finished: Hash, answer: Answer, now: nat)       // a proof of work ends
    | PowLost(i: nat)                                                 // an order is discarded by the queue
    | AckReply(hash: Hash, now: nat)                                  // DeliverAckReply
    | Expunge(box: Box, uid: nat)                                     // the user deletes a message
    | Reflag(box: Box, uid: nat, flags: set<Flag>)                    // the user changes its flags
    | Append(box: Box, email: Email, flags: set<Flag>, now: nat)      // the user adds a message

  function Deliver(p: Post, e: Email, outside: Outside, now: nat): (Post, bool) {
    var letter := FromEmail(e).(flags := {Seen}, timeReceived := now);
    Process(p.(outbox := AddNew(p.outbox, FromEmail(e), now)), Bmsg(p.outbox.next, letter), outside.answer, outside.ack)
  }

  /** The stored messages that wait for a public key of one of the addresses. */
  function WaitingFor(ps: seq<Piece>, wanted: set<Address>): seq<Letter> {
    if ps == [] then []
    else
      var l := ps[|ps| - 1].letter;
      WaitingFor(ps[..|ps| - 1], wanted) +
      if l.state.pubkeyRequestOutstanding && l.to in wanted then [l] else []
  }

  /** Each is processed as a message that is not stored, until one fails (or,
      with fewer contributions than messages, until those run out). */
  function ProcessAll(p: Post, ls: seq<Letter>, outsides: seq<Outside>): Post
    decreases |ls|
  {
    if ls == [] || outsides == [] then p
    else
      var (q, ok) := Process(p, Bmsg(0, ls[0]), outsides[0].answer, outsides[0].ack);
      if ok then ProcessAll(q, ls[1..], outsides[1..]) else q
  }

  function DeliverPublic(p: Post, wanted: set<Address>, outsides: seq<Outside>): Post {
    ProcessAll(p, WaitingFor(Pieces(ALL, p.outbox), wanted), outsides)
  }

  datatype AckOutcome = Unrecognized | NoMessage | NoAckExpected | Received

  function DeliverAckReply(p: Post, hash: Hash, now: nat): (Post, AckOutcome) {
    if hash !in p.acks then (p, Unrecognized)
    else
      var b := Lookup(Pieces(ALL, p.limbo), p.acks[hash]);
      if b.None? then (p, NoMessage)
      else if !b.value.letter.state.ackExpected then (p, NoAckExpected)
      else (Move(p, p.acks[hash], Limbo, Sent, now), Received)
  }

  function TakeOrder(p: Post, i: nat): Post
    requires i < |p.pending|
  {
    p.(pending := p.pending[..i] + p.pending[i + 1..])
  }

  /** Save, for a message that is there. */
  function ChangeFlags(f: Folder, uid: nat, flags: set<Flag>): Folder {
    var b := Lookup(Pieces(ALL, f), uid);
    if b.None? then f else SaveIn(f, uid, Rebuilt(b.value.letter, flags)).0
  }

  function Step(p: Post, e: Event): Post {
    match e
    case Smtp(email, outside, now) => Deliver(p, email, outside, now).0
    case Pubkey(wanted, outsides) => DeliverPublic(p, wanted, outsides)
    case PowDone(i, finished, answer, now) =>
      if i < |p.pending| then Finish(TakeOrder(p, i), p.pending[i], finished, answer, now) else p
    case PowLost(i) => if i < |p.pending| then TakeOrder(p, i) else p
    case AckReply(hash, now) => DeliverAckReply(p, hash, now).0
    case Expunge(box, uid) => WithBox(p, box, DeleteIn(ALL, BoxOf(p, box), uid))
    case Reflag(box, uid, flags) => WithBox(p, box, ChangeFlags(BoxOf(p, box), uid, flags))
    case Append(box, email, flags, now) =>
      WithBox(p, box, SaveIn(BoxOf(p, box), 0, FromEmail(email).(flags := flags, timeReceived := now)).0)
  }

  function Run(p: Post, events: seq<Event>): Post {
    if events == [] then p else Step(Run(p, events[..|events| - 1]), events[|events| - 1])
  }
}
