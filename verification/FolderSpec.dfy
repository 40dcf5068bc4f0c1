/** The reference folder: a plain map from id to message with a counter for
    the next id. The two stores are proved against it. */
module FolderSpec {
  import opened Base
  import opened Mail

  datatype Message = Message(suffix: U64, payload: Payload)

  datatype Folder = Folder(next: nat, messages: map<nat, Message>)

  const EMPTY := Folder(1, map[])

  datatype Error =
    | DuplicateID | InvalidID | NotFound | NilMessage | BadRange
    | Undecodable(id: nat) | InvalidSequenceNumber | DateChanged | UnableToSave | NotAnEmail

  datatype Reply =
    | Inserted(id: nat)
    | Found(suffix: U64, payload: Payload)
    | Done
    | Failed(error: Error)

  function ErrorOf(r: Reply): Option<Error> {
    if r.Failed? then Some(r.error) else None
  }

  datatype Op =
    | InsertNew(msg: Option<Payload>, suffix: U64)
    | Insert(id: U64, msg: Option<Payload>, suffix: U64)
    | Get(id: U64)
    | Delete(id: U64)

  predicate IssuesId(op: Op) {
    op.InsertNew? && op.msg.Some?
  }

  predicate ValidId(f: Folder, id: nat) {
    0 < id < f.next
  }

  /** The reference folder's answer to one operation. */
  function Apply(f: Folder, op: Op): (Folder, Reply) {
    match op
    case InsertNew(msg, suffix) =>
      if msg.None? then (f, Failed(NilMessage))
      else (Folder(f.next + 1, f.messages[f.next := Message(suffix, msg.value)]), Inserted(f.next))
    case Insert(id, msg, suffix) =>
      if !ValidId(f, id) then (f, Failed(InvalidID))
      else if msg.None? then (f, Failed(NilMessage))
      else if id in f.messages then (f, Failed(DuplicateID))
      else (f.(messages := f.messages[id := Message(suffix, msg.value)]), Done)
    case Get(id) =>
      if id in f.messages then (f, Found(f.messages[id].suffix, f.messages[id].payload))
      else (f, Failed(NotFound))
    case Delete(id) =>
      if !ValidId(f, id) then (f, Failed(InvalidID))
      else if id !in f.messages then (f, Failed(NotFound))
      else (f.(messages := f.messages - {id}), Done)
  }

  /** Every stored id was handed out: it lies in 1 .. next - 1. */
  ghost predicate Good(f: Folder) {
    1 <= f.next && forall id :: id in f.messages ==> ValidId(f, id)
  }

  lemma ApplyGood(f: Folder, op: Op)
    requires Good(f)
    ensures Good(Apply(f, op).0)
  {
  }

  // Listings: the messages in ascending order of id.

  datatype Entry = Entry(id: nat, message: Message)

  ghost predicate Ascending(es: seq<Entry>) {
    forall i, j :: 0 <= i < j < |es| ==> es[i].id < es[j].id
  }

  /** es lists exactly the messages of m, each once, in increasing id. */
  ghost predicate Lists(es: seq<Entry>, m: map<nat, Message>) {
    && Ascending(es)
    && (forall e :: e in es ==> e.id in m && m[e.id] == e.message)
    && (forall id :: id in m ==> Entry(id, m[id]) in es)
  }

  function Upto(m: map<nat, Message>, n: nat): seq<Entry> {
    if n == 0 then []
    else Upto(m, n - 1) + (if n - 1 in m then [Entry(n - 1, m[n - 1])] else [])
  }

  /** All messages of a folder whose ids are below its counter. */
  function Listing(f: Folder): seq<Entry> {
    Upto(f.messages, f.next)
  }

  lemma {:induction false} UptoLists(m: map<nat, Message>, n: nat)
    ensures Ascending(Upto(m, n))
    ensures forall e :: e in Upto(m, n) ==> e.id < n && e.id in m && m[e.id] == e.message
    ensures forall id :: id in m && id < n ==> Entry(id, m[id]) in Upto(m, n)
  {
    if n != 0 { UptoLists(m, n - 1); }
  }

  lemma ListingLists(f: Folder)
    requires Good(f)
    ensures Lists(Listing(f), f.messages)
  {
    UptoLists(f.messages, f.next);
  }

  /** Lists, said by taking the listing apart from its greatest id down. */
  ghost predicate Peels(es: seq<Entry>, m: map<nat, Message>) {
    if es == [] then m == map[]
    else
      var e := es[|es| - 1];
      && e.id in m && m[e.id] == e.message
      && (forall id :: id in m ==> id <= e.id)
      && Peels(es[..|es| - 1], m - {e.id})
  }

  lemma {:induction false} ListsPeels(es: seq<Entry>, m: map<nat, Message>)
    requires Lists(es, m)
    ensures Peels(es, m)
  {
    if es != [] {
      var e := es[|es| - 1];
      assert e in es;
      ListsFront(es, m);
      ListsPeels(es[..|es| - 1], m - {e.id});
    }
  }

  lemma {:induction false} PeelsLists(es: seq<Entry>, m: map<nat, Message>)
    requires Peels(es, m)
    ensures Lists(es, m)
  {
    if es != [] {
      var k := |es| - 1;
      PeelsLists(es[..k], m - {es[k].id});
      forall e | e in es[..k] ensures e.id < es[k].id && e.id in m && m[e.id] == e.message {
        assert e.id in m - {es[k].id};
      }
      ListsBack(es[..k], es[k], m);
      assert es == es[..k] + [es[k]];
    }
  }

  lemma ListsBack(es: seq<Entry>, e: Entry, m: map<nat, Message>)
    requires e.id in m && m[e.id] == e.message
    requires Lists(es, m - {e.id})
    requires forall d :: d in es ==> d.id < e.id
    ensures Lists(es + [e], m)
  {
    var r := es + [e];
    forall i, j | 0 <= i < j < |r| ensures r[i].id < r[j].id {
      assert r[i] in es;
    }
    forall id | id in m ensures Entry(id, m[id]) in r {
      if id != e.id {
        assert id in m - {e.id};
        assert Entry(id, (m - {e.id})[id]) in es;
      }
    }
  }

  /** A map has one listing only. */
  lemma {:induction false} PeelsUnique(es: seq<Entry>, fs: seq<Entry>, m: map<nat, Message>)
    requires Peels(es, m) && Peels(fs, m)
    ensures es == fs
  {
    if es != [] && fs != [] {
      var e := es[|es| - 1];
      PeelsUnique(es[..|es| - 1], fs[..|fs| - 1], m - {e.id});
      assert es == es[..|es| - 1] + [e] && fs == fs[..|fs| - 1] + [e];
    }
  }

  lemma ListsFront(es: seq<Entry>, m: map<nat, Message>)
    requires Lists(es, m) && es != []
    ensures Lists(es[..|es| - 1], m - {es[|es| - 1].id})
  {
    var k := |es| - 1;
    var front, m' := es[..k], m - {es[k].id};
    forall e | e in front ensures e.id in m' && m'[e.id] == e.message {
      var i :| 0 <= i < k && front[i] == e;
      assert es[i].id < es[k].id;
    }
    forall id | id in m' ensures Entry(id, m'[id]) in front {
      var i :| 0 <= i < |es| && es[i] == Entry(id, m[id]);
      assert i != k;
      assert front[i] == Entry(id, m'[id]);
    }
  }

  // Queries over a listing.

  /** The messages a range query asks for: low and high are inclusive, and 0
      stands for "no upper bound" and for "any suffix". */
  predicate Selects(low: nat, high: nat, suffix: nat, e: Entry) {
    low <= e.id && (high != 0 ==> e.id <= high) && (suffix != 0 ==> e.message.suffix == suffix)
  }

  function Select(low: nat, high: nat, suffix: nat, es: seq<Entry>): seq<Entry> {
    if es == [] then []
    else (if Selects(low, high, suffix, es[0]) then [es[0]] else []) + Select(low, high, suffix, es[1..])
  }

  /** A callback run over a list: it carries the variables it captured as a
      state, and the first error it returns stops the walk. */
  function Fold<S>(fn: (S, Entry) -> (S, Option<Error>), s: S, es: seq<Entry>): (S, Option<Error>) {
    if es == [] then (s, None)
    else
      var (t, err) := fn(s, es[0]);
      if err.Some? then (t, err) else Fold(fn, t, es[1..])
  }
}
