/** How a folder is laid out in its bucket: one 16-byte key per message, the
    big-endian id followed by the big-endian suffix, next to the nested bucket
    "data" (store/folder.go). */
module FolderKeys {
  import opened Base
  import opened BigEndian
  import opened Mail
  import opened Bolt
  import opened FolderSpec

  /** The four bytes of "data". */
  const DATA: Bytes := [100, 97, 116, 97]

  function PutUint64(n: U64): (b: Bytes)
    ensures |b| == 8
  {
    Encode(n, 8)
  }

  function Uint64(b: Bytes): U64
    requires |b| == 8
  {
    EncodeDecode(b);
    Pow256Of8();
    Decode(b)
  }

  function Key(id: U64, suffix: U64): (k: Bytes)
    ensures |k| == 16
  {
    PutUint64(id) + PutUint64(suffix)
  }

  lemma Uint64RoundTrip(n: U64)
    ensures Uint64(PutUint64(n)) == n
  {
    Pow256Of8();
    DecodeEncode(n, 8);
  }

  lemma KeyRoundTrip(id: U64, suffix: U64)
    ensures Key(id, suffix)[..8] == PutUint64(id)
    ensures Uint64(Key(id, suffix)[..8]) == id && Uint64(Key(id, suffix)[8..]) == suffix
  {
    Uint64RoundTrip(id);
    Uint64RoundTrip(suffix);
    assert Key(id, suffix)[8..] == PutUint64(suffix);
  }

  lemma KeyOfBytes(k: Bytes)
    requires |k| == 16
    ensures k == Key(Uint64(k[..8]), Uint64(k[8..]))
  {
    Pow256Of8();
    EncodeDecode(k[..8]);
    EncodeDecode(k[8..]);
    assert k == k[..8] + k[8..];
  }

  /** Keys are ordered by id, then by suffix. */
  lemma KeyOrder(i: U64, s: U64, j: U64, t: U64)
    ensures Less(Key(i, s), Key(j, t)) <==> i < j || (i == j && s < t)
  {
    Pow256Of8();
    EncodeOrder(i, j, 8);
    EncodeOrder(s, t, 8);
    EncodeInjective(i, j, 8);
    LessConcat(PutUint64(i), PutUint64(j), PutUint64(s), PutUint64(t));
  }

  /** Seeking an id passes exactly the keys of smaller ids. */
  lemma KeyBelowId(j: U64, t: U64, i: U64)
    ensures Less(Key(j, t), PutUint64(i)) <==> j < i
  {
    Pow256Of8();
    EncodeOrder(j, i, 8);
    LessConcat(PutUint64(j), PutUint64(i), PutUint64(t), []);
    assert PutUint64(i) + [] == PutUint64(i);
  }

  /** The "data" key never lies between an id and a key of that id. */
  lemma DataNotBetween(id: U64, s: U64)
    requires Less(PutUint64(id), DATA)
    ensures Less(Key(id, s), DATA)
  {
    LessExtend(PutUint64(id), DATA, PutUint64(s));
  }

  // The messages of a bucket.

  ghost predicate WellKeyed(items: seq<Item>) {
    forall i :: 0 <= i < |items| ==> items[i] == Item(DATA, None) || IsMessage(items[i])
  }

  predicate IsMessage(it: Item) {
    it.value.Some? && |it.key| == 16
  }

  function EntryOf(it: Item): Entry
    requires IsMessage(it)
  {
    Entry(Uint64(it.key[..8]), Message(Uint64(it.key[8..]), it.value.value))
  }

  /** The messages in key order; the nested bucket is not one of them. */
  function Entries(items: seq<Item>): seq<Entry> {
    if items == [] then [] else EntriesAt(items[0]) + Entries(items[1..])
  }

  function EntriesAt(item: Item): seq<Entry> {
    if IsMessage(item) then [EntryOf(item)] else []
  }

  /** The bucket stores exactly the messages of m. */
  ghost predicate Holds(items: seq<Item>, m: map<nat, Message>) {
    Sorted(items) && WellKeyed(items) && Item(DATA, None) in items && Peels(Entries(items), m)
  }

  lemma FreshHolds()
    ensures Holds([Item(DATA, None)], map[])
  {
    assert [Item(DATA, None)][0] == Item(DATA, None);
    assert !IsMessage(Item(DATA, None));
    assert Entries([Item(DATA, None)]) == [];
  }

  lemma {:induction false} EntriesConcat(a: seq<Item>, b: seq<Item>)
    ensures Entries(a + b) == Entries(a) + Entries(b)
  {
    hide Entries;
    if a == [] {
      EntriesNone();
      assert a + b == b;
    } else {
      EntriesConcat(a[1..], b);
      var all := a + b;
      assert all[0] == a[0] && all[1..] == a[1..] + b;
      EntriesStep(a);
      EntriesStep(all);
    }
  }

  lemma EntriesNone()
    ensures Entries([]) == []
  {
  }

  lemma EntriesStep(a: seq<Item>)
    requires a != []
    ensures Entries(a) == EntriesAt(a[0]) + Entries(a[1..])
  {
  }

  lemma {:induction false} EntriesHas(items: seq<Item>, i: nat)
    requires i < |items| && IsMessage(items[i])
    ensures EntryOf(items[i]) in Entries(items)
  {
    if i != 0 { EntriesHas(items[1..], i - 1); }
  }

  lemma {:induction false} EntriesFrom(items: seq<Item>, e: Entry) returns (i: nat)
    requires e in Entries(items)
    ensures i < |items| && IsMessage(items[i]) && EntryOf(items[i]) == e
  {
    if IsMessage(items[0]) && EntryOf(items[0]) == e {
      i := 0;
    } else {
      i := EntriesFrom(items[1..], e);
      i := i + 1;
    }
  }

  /** The key under which a stored message lies. */
  lemma StoredKey(items: seq<Item>, m: map<nat, Message>, id: U64) returns (i: nat)
    requires Holds(items, m) && id in m
    ensures i < |items| && items[i] == Item(Key(id, m[id].suffix), Some(m[id].payload))
  {
    PeelsLists(Entries(items), m);
    i := EntriesFrom(items, Entry(id, m[id]));
    KeyOfBytes(items[i].key);
  }

  lemma KeyStored(items: seq<Item>, m: map<nat, Message>, i: nat)
    requires Holds(items, m) && i < |items| && IsMessage(items[i])
    ensures EntryOf(items[i]).id in m && m[EntryOf(items[i]).id] == EntryOf(items[i]).message
  {
    PeelsLists(Entries(items), m);
    EntriesHas(items, i);
  }

  /** No two keys of a bucket have the same id. */
  lemma OneKeyPerId(items: seq<Item>, m: map<nat, Message>, i: nat, j: nat)
    requires Holds(items, m) && i < j < |items| && IsMessage(items[i]) && IsMessage(items[j])
    ensures EntryOf(items[i]).id != EntryOf(items[j]).id
  {
    KeyStored(items, m, i);
    KeyStored(items, m, j);
    KeyOfBytes(items[i].key);
    KeyOfBytes(items[j].key);
    LessIrreflexive(items[i].key);
  }

  /** The prefix seek finds the message with the given id, if there is one. */
  lemma SeekPresent(items: seq<Item>, m: map<nat, Message>, id: U64)
    requires Holds(items, m) && id in m
    ensures var p := Seek(items, PutUint64(id));
      p < |items| && items[p] == Item(Key(id, m[id].suffix), Some(m[id].payload))
  {
    var k, p := PutUint64(id), Seek(items, PutUint64(id));
    var i := StoredKey(items, m, id);
    KeyBelowId(id, m[id].suffix, id);
    if p < i {
      var key := items[p].key;
      LessTotal(key, k);
      if IsMessage(items[p]) {
        KeyStored(items, m, p);
        KeyOfBytes(key);
        var j, t := Uint64(key[..8]), Uint64(key[8..]);
        KeyBelowId(j, t, id);
        KeyOrder(j, t, id, m[id].suffix);
      } else {
        DataNotBetween(id, m[id].suffix);
        LessTransitive(items[i].key, DATA, items[i].key);
        LessIrreflexive(items[i].key);
      }
    }
  }

  /** A seek for an absent id finds no message with that id: it ends at the end
      of the bucket, at "data", or at a key of another id. */
  lemma SeekAbsent(items: seq<Item>, m: map<nat, Message>, id: U64)
    requires Holds(items, m) && id !in m
    ensures var p := Seek(items, PutUint64(id));
      p == |items| || items[p] == Item(DATA, None) || (IsMessage(items[p]) && items[p].key[..8] != PutUint64(id))
  {
    var p := Seek(items, PutUint64(id));
    if p < |items| && IsMessage(items[p]) {
      KeyStored(items, m, p);
      Uint64RoundTrip(id);
    }
  }

  /** Both together, in the words of the code: the key sought has a value and
      the prefix asked for exactly if the id is in use. */
  lemma SeekDecides(items: seq<Item>, m: map<nat, Message>, id: U64)
    requires Holds(items, m)
    ensures var p := Seek(items, PutUint64(id));
      && (p < |items| && items[p].value.Some? ==> |items[p].key| == 16)
      && (p < |items| && |items[p].key| >= 8 ==> items[p].value.Some?)
      && (id in m <==> p < |items| && items[p].value.Some? && items[p].key[..8] == PutUint64(id))
      && (id in m ==>
            && items[p] == Item(Key(id, m[id].suffix), Some(m[id].payload))
            && Uint64(items[p].key[8..]) == m[id].suffix)
  {
    if id in m {
      SeekPresent(items, m, id);
      KeyRoundTrip(id, m[id].suffix);
    } else {
      SeekAbsent(items, m, id);
    }
  }

  /** Putting a message under an id that is not in use adds it to the map. */
  lemma PutHolds(items: seq<Item>, m: map<nat, Message>, id: U64, msg: Message)
    requires Holds(items, m) && id !in m
    ensures Holds(Put(items, Key(id, msg.suffix), msg.payload), m[id := msg])
  {
    var k := Key(id, msg.suffix);
    KeyUnused(items, m, id, msg.suffix);
    PutSorted(items, k, msg.payload);
    PutKeyed(items, k, msg.payload);
    PutLists(items, m, id, msg);
  }

  lemma KeyUnused(items: seq<Item>, m: map<nat, Message>, id: U64, s: U64)
    requires Holds(items, m) && id !in m
    ensures var p := Seek(items, Key(id, s)); p == |items| || items[p].key != Key(id, s)
  {
    var p := Seek(items, Key(id, s));
    if p < |items| && items[p].key == Key(id, s) {
      KeyRoundTrip(id, s);
      KeyStored(items, m, p);
    }
  }

  lemma PutKeyed(items: seq<Item>, k: Bytes, v: Payload)
    requires |k| == 16 && WellKeyed(items) && Item(DATA, None) in items
    ensures WellKeyed(Put(items, k, v)) && Item(DATA, None) in Put(items, k, v)
  {
    hide BigEndian.Less;
    var p, it := Seek(items, k), Item(k, Some(v));
    if p < |items| && items[p].key == k {
      var d :| 0 <= d < |items| && items[d] == Item(DATA, None);
      assert items[p := it][d] == items[d];
    } else {
      InsertKeyed(items, p, it);
    }
  }

  lemma InsertKeyed(items: seq<Item>, p: nat, it: Item)
    requires p <= |items| && IsMessage(it) && WellKeyed(items) && Item(DATA, None) in items
    ensures var r := items[..p] + [it] + items[p..]; WellKeyed(r) && Item(DATA, None) in r
  {
    var r := items[..p] + [it] + items[p..];
    var d :| 0 <= d < |items| && items[d] == Item(DATA, None);
    assert r[if d < p then d else d + 1] == items[d];
    forall i | 0 <= i < |r| ensures r[i] == Item(DATA, None) || IsMessage(r[i]) {
      assert i != p ==> r[i] == items[if i < p then i else i - 1];
    }
  }

  lemma PutLists(items: seq<Item>, m: map<nat, Message>, id: U64, msg: Message)
    requires Holds(items, m) && id !in m
    ensures Peels(Entries(Put(items, Key(id, msg.suffix), msg.payload)), m[id := msg])
  {
    var k := Key(id, msg.suffix);
    var p := Seek(items, k);
    KeyUnused(items, m, id, msg.suffix);
    PutBelow(items, m, id, msg.suffix);
    PutAbove(items, m, id, msg.suffix);
    assert items == items[..p] + items[p..];
    EntriesConcat(items[..p], items[p..]);
    PeelsInsert(Entries(items[..p]), Entries(items[p..]), m, id, msg);
    KeyRoundTrip(id, msg.suffix);
    EntriesMiddle(items[..p], Item(k, Some(msg.payload)), items[p..]);
    assert Put(items, k, msg.payload) == items[..p] + [Item(k, Some(msg.payload))] + items[p..];
  }

  lemma EntriesMiddle(a: seq<Item>, it: Item, c: seq<Item>)
    requires IsMessage(it)
    ensures Entries(a + [it] + c) == Entries(a) + [EntryOf(it)] + Entries(c)
  {
    EntriesConcat(a + [it], c);
    EntriesConcat(a, [it]);
  }

  lemma PutBelow(items: seq<Item>, m: map<nat, Message>, id: U64, s: U64)
    requires Holds(items, m) && id !in m
    ensures forall e :: e in Entries(items[..Seek(items, Key(id, s))]) ==> e.id < id
  {
    var p := Seek(items, Key(id, s));
    forall e | e in Entries(items[..p]) ensures e.id < id {
      var i := EntriesFrom(items[..p], e);
      KeyStored(items, m, i);
      KeyOfBytes(items[i].key);
      KeyOrder(e.id, e.message.suffix, id, s);
    }
  }

  lemma PutAbove(items: seq<Item>, m: map<nat, Message>, id: U64, s: U64)
    requires Holds(items, m) && id !in m
    ensures forall e :: e in Entries(items[Seek(items, Key(id, s))..]) ==> id < e.id
  {
    var p := Seek(items, Key(id, s));
    forall e | e in Entries(items[p..]) ensures id < e.id {
      var i := EntriesFrom(items[p..], e);
      SeekAbove(items, Key(id, s), p + i);
      KeyStored(items, m, p + i);
      KeyOfBytes(items[p + i].key);
      KeyOrder(e.id, e.message.suffix, id, s);
    }
  }

  lemma PeelsInsert(es: seq<Entry>, fs: seq<Entry>, m: map<nat, Message>, id: nat, msg: Message)
    requires Peels(es + fs, m)
    requires forall e :: e in es ==> e.id < id
    requires forall e :: e in fs ==> id < e.id
    ensures Peels(es + [Entry(id, msg)] + fs, m[id := msg])
  {
    PeelsLists(es + fs, m);
    ListsInsert(es, fs, m, id, msg);
    ListsPeels(es + [Entry(id, msg)] + fs, m[id := msg]);
  }

  lemma ListsInsert(es: seq<Entry>, fs: seq<Entry>, m: map<nat, Message>, id: nat, msg: Message)
    requires Lists(es + fs, m)
    requires forall e :: e in es ==> e.id < id
    requires forall e :: e in fs ==> id < e.id
    ensures Lists(es + [Entry(id, msg)] + fs, m[id := msg])
  {
    var all, r, m' := es + fs, es + [Entry(id, msg)] + fs, m[id := msg];
    var n := |es|;
    forall i, j | 0 <= i < j < |r| ensures r[i].id < r[j].id {
      assert i < n ==> r[i] == all[i] && r[i] in es;
      assert j < n ==> r[j] == all[j];
      assert n < j ==> r[j] == all[j - 1] && r[j] in fs;
      assert n < i ==> r[i] == all[i - 1];
    }
    forall e | e in r ensures e.id in m' && m'[e.id] == e.message {
      if e != Entry(id, msg) { assert e in all; }
    }
    forall i | i in m' ensures Entry(i, m'[i]) in r {
      if i != id {
        assert Entry(i, m[i]) in all;
      } else {
        assert r[n] == Entry(id, msg);
      }
    }
  }

  /** Deleting the key of a stored message takes its id out of the map. */
  lemma RemoveHolds(items: seq<Item>, m: map<nat, Message>, id: U64)
    requires Holds(items, m) && id in m
    ensures Holds(Remove(items, Key(id, m[id].suffix)), m - {id})
  {
    var p := StoredKey(items, m, id);
    RemoveKeyed(items, p);
    RemoveSorted(items, items[p].key);
    RemoveLists(items, m, id);
  }

  lemma RemoveKeyed(items: seq<Item>, p: nat)
    requires Sorted(items) && WellKeyed(items) && Item(DATA, None) in items
    requires p < |items| && IsMessage(items[p])
    ensures var r := Remove(items, items[p].key); WellKeyed(r) && Item(DATA, None) in r
  {
    SeekFinds(items, p);
    DropKeyed(items, p);
  }

  lemma DropKeyed(items: seq<Item>, p: nat)
    requires WellKeyed(items) && Item(DATA, None) in items
    requires p < |items| && IsMessage(items[p])
    ensures var r := items[..p] + items[p + 1..]; WellKeyed(r) && Item(DATA, None) in r
  {
    var d :| 0 <= d < |items| && items[d] == Item(DATA, None);
    var r := items[..p] + items[p + 1..];
    assert r[if d < p then d else d - 1] == items[d];
    forall i | 0 <= i < |r| ensures r[i] == Item(DATA, None) || IsMessage(r[i]) {
      assert r[i] == items[if i < p then i else i + 1];
    }
  }

  lemma RemoveLists(items: seq<Item>, m: map<nat, Message>, id: U64)
    requires Holds(items, m) && id in m
    ensures Peels(Entries(Remove(items, Key(id, m[id].suffix))), m - {id})
  {
    var p := StoredKey(items, m, id);
    SeekFinds(items, p);
    KeyRoundTrip(id, m[id].suffix);
    var a, c := items[..p], items[p + 1..];
    assert items == a + [items[p]] + c;
    EntriesMiddle(a, items[p], c);
    EntriesConcat(a, c);
    PeelsRemove(Entries(a), Entries(c), m, id);
  }

  lemma PeelsRemove(es: seq<Entry>, fs: seq<Entry>, m: map<nat, Message>, id: nat)
    requires id in m && Peels(es + [Entry(id, m[id])] + fs, m)
    ensures Peels(es + fs, m - {id})
  {
    PeelsLists(es + [Entry(id, m[id])] + fs, m);
    ListsRemove(es, fs, m, id);
    ListsPeels(es + fs, m - {id});
  }

  lemma ListsRemove(es: seq<Entry>, fs: seq<Entry>, m: map<nat, Message>, id: nat)
    requires id in m && Lists(es + [Entry(id, m[id])] + fs, m)
    ensures Lists(es + fs, m - {id})
  {
    var x := Entry(id, m[id]);
    var all, r, m' := es + [x] + fs, es + fs, m - {id};
    CutAscending(es, x, fs);
    forall e | e in r ensures e.id in m' && m'[e.id] == e.message {
      assert e in all;
    }
    forall i | i in m' ensures Entry(i, m'[i]) in r {
      assert Entry(i, m[i]) in all;
    }
  }

  lemma CutAscending(es: seq<Entry>, x: Entry, fs: seq<Entry>)
    requires Ascending(es + [x] + fs)
    ensures Ascending(es + fs) && forall e :: e in es + fs ==> e.id != x.id
  {
    var all, r, n := es + [x] + fs, es + fs, |es|;
    assert forall i :: 0 <= i < |r| ==> r[i] == all[if i < n then i else i + 1];
    assert all[n] == x;
  }
}
