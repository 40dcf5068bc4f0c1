/** A message as its serialization keeps it (user/bmail.go): the UID and the
    sequence number are not part of the record. Times are whole seconds, the
    resolution of the stored date format. */
module Mail {
  import opened Base

  datatype Flag = Seen | Answered | Flagged | Deleted | Draft | Recent

  datatype Content = Content(encoding: U64, subject: string, body: string)

  /** The address a message is sent to; whether it names the broadcast address
      is a matter of the address alone. */
  datatype Address = Broadcast | Peer(name: string)

  /** The inventory hash of an object, taken over all its bytes: an ack has one
      hash before its proof of work and, unless the nonce found is 0, another
      after it. */
  type Hash = nat

  datatype State = State(
    pubkeyRequestOutstanding: bool,
    sendTries: nat,
    lastSend: nat,
    ackExpected: bool,
    ackReceived: bool,
    received: bool)

  const FRESH_STATE := State(false, 0, 0, false, false, false)

  datatype Letter = Letter(
    from: string,
    to: Address,
    ofChannel: bool,
    expiration: nat,
    content: Content,
    ack: Option<Hash>, // the finished ack, told apart by its hash
    flags: set<Flag>,
    timeReceived: nat,
    state: State)

  /** What is taken from an e-mail, and what is given back as one. */
  datatype Email = Email(from: string, to: Address, expiration: nat, subject: string, body: string)

  /** NewBitmessageFromSMTP: a letter without ack, channel mark or history. */
  function FromEmail(e: Email): Letter {
    Letter(e.from, e.to, false, e.expiration, Content(2, e.subject, e.body), None, {}, 0, FRESH_STATE)
  }

  /** ToEmail. */
  function EmailOf(l: Letter): Email {
    Email(l.from, l.to, l.expiration, l.content.subject, l.content.body)
  }

  /** What Save stores when a client changes the flags of a message: the letter
      made again from its e-mail, with the date and the state it had. */
  function Rebuilt(l: Letter, flags: set<Flag>): Letter {
    FromEmail(EmailOf(l)).(flags := flags, timeReceived := l.timeReceived, state := l.state)
  }

  /** What a folder stores: a serialized letter, or bytes that are not one. */
  datatype Payload = Encoded(letter: Letter) | Raw(bytes: seq<nat>)

  function Serialize(letter: Letter): Payload {
    Encoded(letter)
  }

  /** decodeBitmessage: only content encodings 1 and 2 are understood. */
  function DecodeLetter(p: Payload): Option<Letter> {
    if p.Encoded? && 1 <= p.letter.content.encoding <= 2 then Some(p.letter) else None
  }

  /** ToEmail succeeds on encoding 2 only. */
  predicate ConvertsToEmail(letter: Letter) {
    letter.content.encoding == 2
  }
}
