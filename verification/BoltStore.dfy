/** The folder kept in the database (store/folder.go). */
module BoltStore {
  import opened Base
  import opened BigEndian
  import opened Mail
  import opened Bolt
  import opened FolderSpec
  import opened FolderKeys
  import opened Queries
  import opened LastIDs

  /** The transaction shared by both inserts: look for a key with the id's
      prefix, and put the message only if there is none. */
  function InsertTx(items: seq<Item>, id: U64, suffix: U64, v: Payload): Option<seq<Item>> {
    var k := Key(id, suffix);
    var p := Seek(items, k[..8]);
    if p < |items| && |items[p].key| >= 8 && items[p].key[..8] == k[..8] then None
    else Some(Put(items, k, v))
  }

  /** The lookup shared by GetMessage and DeleteMessage: the key sought must
      have a value and the id's prefix. */
  function SeekMessage(items: seq<Item>, id: U64): Option<Item>
    requires WellKeyed(items)
  {
    var p := Seek(items, PutUint64(id));
    if p == |items| || items[p].value.None? || items[p].key[..8] != PutUint64(id) then None
    else Some(items[p])
  }

  lemma InsertTxHolds(items: seq<Item>, m: map<nat, Message>, id: U64, suffix: U64, v: Payload)
    requires Holds(items, m)
    ensures InsertTx(items, id, suffix, v).None? <==> id in m
    ensures id !in m ==> Holds(InsertTx(items, id, suffix, v).value, m[id := Message(suffix, v)])
  {
    KeyRoundTrip(id, suffix);
    SeekDecides(items, m, id);
    if id !in m { PutHolds(items, m, id, Message(suffix, v)); }
  }

  lemma SeekMessageHolds(items: seq<Item>, m: map<nat, Message>, id: U64)
    requires Holds(items, m)
    ensures SeekMessage(items, id).Some? <==> id in m
    ensures id in m ==>
      var it := SeekMessage(items, id).value;
      IsMessage(it) && EntryOf(it) == Entry(id, m[id]) && it.key == Key(id, m[id].suffix)
  {
    SeekDecides(items, m, id);
    if id in m { KeyRoundTrip(id, m[id].suffix); }
  }

  class BoltFolder {
    // What the database file holds.
    var items: seq<Item>
    var storedNext: Bytes

    // What the process keeps in memory.
    var nextID: U64

    ghost var messages: map<nat, Message>

    ghost function Model(): Folder
      reads this
    {
      Folder(nextID, messages)
    }

    ghost predicate Valid()
      reads this
    {
      && Holds(items, messages)
      && storedNext == PutUint64(nextID)
      && Good(Model())
    }

    /** A new mailbox: an empty bucket with its "data" bucket. */
    constructor Create()
      ensures Valid() && Model() == EMPTY
    {
      items := [Item(DATA, None)];
      storedNext := PutUint64(1);
      nextID := 1;
      messages := map[];
      new;
      FreshHolds();
    }

    /** Opening again what `closed` left in the database; its in-memory counter
        is not looked at. */
    constructor Open(closed: BoltFolder)
      requires closed.Valid()
      ensures Valid() && Model() == closed.Model()
    {
      items := closed.items;
      storedNext := closed.storedNext;
      nextID := Uint64(closed.storedNext);
      messages := closed.messages;
      new;
      Uint64RoundTrip(closed.nextID);
    }

    method InsertNewMessage(msg: Option<Payload>, suffix: U64) returns (r: Reply)
      requires Valid()
      modifies this
      ensures msg.None? || old(nextID) + 1 < LIMIT ==>
        Valid() && (Model(), r) == Apply(old(Model()), InsertNew(msg, suffix))
      ensures msg.Some? && old(nextID) + 1 == LIMIT ==>
        && r == Inserted(old(nextID)) && nextID == 0 && storedNext == PutUint64(nextID)
        && Holds(items, messages) && messages == old(messages)[old(nextID) := Message(suffix, msg.value)]
    {
      if msg.None? {
        return Failed(NilMessage);
      }
      var id := nextID;
      var tx := InsertTx(items, id, suffix, msg.value);
      InsertTxHolds(items, messages, id, suffix, msg.value);
      ApplyGood(Model(), InsertNew(msg, suffix));
      if tx.None? {
        return Failed(DuplicateID);
      }
      items := tx.value;
      storedNext := PutUint64(Inc64(id));
      messages := messages[id := Message(suffix, msg.value)];
      nextID := Inc64(id);
      r := Inserted(id);
    }

    method InsertMessage(id: U64, msg: Option<Payload>, suffix: U64) returns (r: Reply)
      requires Valid()
      modifies this
      ensures Valid() && (Model(), r) == Apply(old(Model()), Insert(id, msg, suffix))
      ensures r == Failed(InvalidID) <==> id == 0 || old(nextID) <= id
      ensures r == Failed(DuplicateID) <==> id in old(messages) && msg.Some?
      ensures r == Done <==> 0 < id < old(nextID) && id !in old(messages) && msg.Some?
      ensures nextID == old(nextID)
      ensures messages == if r == Done then old(messages)[id := Message(suffix, msg.value)] else old(messages)
    {
      if id == 0 || id >= nextID {
        return Failed(InvalidID);
      }
      if msg.None? {
        return Failed(NilMessage);
      }
      var tx := InsertTx(items, id, suffix, msg.value);
      InsertTxHolds(items, messages, id, suffix, msg.value);
      ApplyGood(Model(), Insert(id, msg, suffix));
      if tx.None? {
        return Failed(DuplicateID);
      }
      items := tx.value;
      messages := messages[id := Message(suffix, msg.value)];
      r := Done;
    }

    method GetMessage(id: U64) returns (r: Reply)
      requires Valid()
      ensures (Model(), r) == Apply(Model(), Get(id))
    {
      var found := SeekMessage(items, id);
      SeekMessageHolds(items, messages, id);
      if found.None? {
        return Failed(NotFound);
      }
      var m := EntryOf(found.value).message;
      r := Found(m.suffix, m.payload);
    }

    method DeleteMessage(id: U64) returns (r: Reply)
      requires Valid()
      modifies this
      ensures Valid() && (Model(), r) == Apply(old(Model()), Delete(id))
      ensures r == Failed(InvalidID) <==> id == 0 || old(nextID) <= id
      ensures r == Failed(NotFound) <==> 0 < id < old(nextID) && id !in old(messages)
      ensures r == Done <==> id in old(messages)
      ensures nextID == old(nextID)
      ensures messages == if r == Done then old(messages) - {id} else old(messages)
    {
      if id == 0 || id >= nextID {
        return Failed(InvalidID);
      }
      var found := SeekMessage(items, id);
      SeekMessageHolds(items, messages, id);
      ApplyGood(Model(), Delete(id));
      if found.None? {
        return Failed(NotFound);
      }
      RemoveHolds(items, messages, id);
      items := Remove(items, found.value.key);
      messages := messages - {id};
      r := Done;
    }

    /** The callback `fn` carries its captured variables as a state of type S. */
    method ForEachMessage<S>(low: U64, high: U64, suffix: U64, init: S, fn: (S, Entry) -> (S, Option<Error>))
      returns (s: S, err: Option<Error>)
      requires Valid()
      ensures (s, err) ==
        if high != 0 && low > high then (init, Some(BadRange))
        else Fold(fn, init, Select(low, high, suffix, Listing(Model())))
    {
      if high != 0 && low > high {
        return init, Some(BadRange);
      }
      s, err := Walk(items, low, high, suffix, init, fn);
      EntriesAreListing();
    }

    method LastID() returns (last: nat, bySuffix: map<U64, nat>)
      requires Valid()
      ensures AsWritten(messages, last, bySuffix)
    {
      last, bySuffix := ScanLast(items);
      EntriesAreListing();
      LastFoldAsWritten(Model());
    }

    lemma EntriesAreListing()
      requires Valid()
      ensures Entries(items) == Listing(Model())
    {
      ListingLists(Model());
      ListsPeels(Listing(Model()), messages);
      PeelsUnique(Entries(items), Listing(Model()), messages);
    }
  }

  /** The cursor loop of ForEachMessage. */
  method Walk<S>(items: seq<Item>, low: U64, high: U64, suffix: U64, init: S, fn: (S, Entry) -> (S, Option<Error>))
    returns (s: S, err: Option<Error>)
    requires Sorted(items) && WellKeyed(items)
    ensures (s, err) == Fold(fn, init, Select(low, high, suffix, Entries(items)))
  {
    hide FolderKeys.Entries, FolderSpec.Select, FolderSpec.Fold, FolderKeys.PutUint64;
    s, err := init, None;
    var p := Seek(items, PutUint64(low));
    ghost var goal := Fold(fn, init, Select(low, high, suffix, Entries(items)));
    SeekSkips(items, low, high, suffix);
    ghost var start := p;
    while p < |items|
      invariant start <= p <= |items|
      invariant Fold(fn, s, Select(low, high, suffix, Entries(items[p..]))) == goal
      invariant err.None?
    {
      WalkStep(fn, s, items, p, low, high, suffix);
      if items[p].value.Some? {
        var e := EntryOf(items[p]);
        FromLow(items, p, low);
        if high != 0 && e.id > high {
          PastHigh(fn, s, items, p, low, high, suffix);
          return;
        }
        if suffix == 0 || e.message.suffix == suffix {
          var out := fn(s, e);
          s, err := out.0, out.1;
          if err.Some? {
            return;
          }
        }
      }
      p := p + 1;
    }
    WalkEnd(fn, s, items, low, high, suffix);
  }

  lemma WalkEnd<S>(fn: (S, Entry) -> (S, Option<Error>), s: S, items: seq<Item>, low: U64, high: U64, suffix: U64)
    ensures Fold(fn, s, Select(low, high, suffix, Entries(items[|items|..]))) == (s, None)
  {
  }

  /** One step of the cursor. */
  lemma WalkStep<S>(fn: (S, Entry) -> (S, Option<Error>), s: S,
                    items: seq<Item>, p: nat, low: U64, high: U64, suffix: U64)
    requires p < |items|
    ensures var rest := Select(low, high, suffix, Entries(items[p + 1..]));
      Fold(fn, s, Select(low, high, suffix, Entries(items[p..]))) ==
        if IsMessage(items[p]) && Selects(low, high, suffix, EntryOf(items[p])) then
          var out := fn(s, EntryOf(items[p]));
          if out.1.Some? then out else Fold(fn, out.0, rest)
        else Fold(fn, s, rest)
  {
    assert items[p..] == [items[p]] + items[p + 1..];
    EntriesConcat([items[p]], items[p + 1..]);
    var es, fs := Entries([items[p]]), Entries(items[p + 1..]);
    SelectConcat(low, high, suffix, es, fs);
    var all, rest := Select(low, high, suffix, Entries(items[p..])), Select(low, high, suffix, fs);
    if IsMessage(items[p]) && Selects(low, high, suffix, EntryOf(items[p])) {
      assert es == [EntryOf(items[p])];
      assert all == [EntryOf(items[p])] + rest;
      assert all[1..] == rest;
    } else {
      assert all == rest;
    }
  }

  /** The cursor loop of LastID. */
  method ScanLast(items: seq<Item>) returns (last: nat, bySuffix: map<U64, nat>)
    requires WellKeyed(items)
    ensures (last, bySuffix) == LastFold(Entries(items))
  {
    last, bySuffix := 0, map[];
    var p := 0;
    while p < |items|
      invariant p <= |items|
      invariant (last, bySuffix) == LastFold(Entries(items[..p]))
    {
      EntriesNext(items, p);
      if |items[p].key| == 16 {
        var e := EntryOf(items[p]);
        LastFoldAppend(Entries(items[..p]), e);
        var r := LastStep(last, bySuffix, e);
        last, bySuffix := r.0, r.1;
      }
      p := p + 1;
    }
    assert items[..p] == items;
  }

  lemma EntriesNext(items: seq<Item>, p: nat)
    requires p < |items|
    ensures Entries(items[..p + 1]) ==
      if IsMessage(items[p]) then Entries(items[..p]) + [EntryOf(items[p])] else Entries(items[..p])
  {
    assert items[..p + 1] == items[..p] + [items[p]];
    EntriesConcat(items[..p], [items[p]]);
  }

  /** What lies before the sought position is below the range. */
  lemma SeekSkips(items: seq<Item>, low: U64, high: U64, suffix: U64)
    ensures var p := Seek(items, PutUint64(low));
      Select(low, high, suffix, Entries(items)) == Select(low, high, suffix, Entries(items[p..]))
  {
    var p := Seek(items, PutUint64(low));
    assert items == items[..p] + items[p..];
    EntriesConcat(items[..p], items[p..]);
    SelectConcat(low, high, suffix, Entries(items[..p]), Entries(items[p..]));
    forall e | e in Entries(items[..p]) ensures !Selects(low, high, suffix, e) {
      var i := EntriesFrom(items[..p], e);
      KeyOfBytes(items[i].key);
      KeyBelowId(e.id, e.message.suffix, low);
    }
    SelectNone(low, high, suffix, Entries(items[..p]));
  }

  /** From the sought position on, ids are within the lower bound. */
  lemma FromLow(items: seq<Item>, p: nat, low: U64)
    requires Sorted(items) && Seek(items, PutUint64(low)) <= p < |items| && IsMessage(items[p])
    ensures low <= EntryOf(items[p]).id
  {
    var k := items[p].key;
    SeekAbove(items, PutUint64(low), p);
    KeyOfBytes(k);
    KeyBelowId(Uint64(k[..8]), Uint64(k[8..]), low);
  }

  /** Once an id exceeds the upper bound, so does every later one. */
  lemma PastHigh<S>(fn: (S, Entry) -> (S, Option<Error>), s: S,
                    items: seq<Item>, p: nat, low: U64, high: U64, suffix: U64)
    requires Sorted(items) && p < |items| && IsMessage(items[p])
    requires high != 0 && EntryOf(items[p]).id > high
    ensures Fold(fn, s, Select(low, high, suffix, Entries(items[p..]))) == (s, None)
  {
    forall e | e in Entries(items[p..]) ensures !Selects(low, high, suffix, e) {
      var i := EntriesFrom(items[p..], e);
      if i != 0 {
        KeyOfBytes(items[p].key);
        KeyOfBytes(items[p + i].key);
        KeyOrder(EntryOf(items[p]).id, EntryOf(items[p]).message.suffix, e.id, e.message.suffix);
      }
    }
    SelectNone(low, high, suffix, Entries(items[p..]));
  }
}
