/** A bucket of the embedded database: items in strictly ascending key order,
    walked by cursors. An item without a value is a nested bucket. */
module Bolt {
  import opened Base
  import opened BigEndian
  import opened Mail

  datatype Item = Item(key: Bytes, value: Option<Payload>)

  ghost predicate Sorted(items: seq<Item>) {
    forall i, j :: 0 <= i < j < |items| ==> Less(items[i].key, items[j].key)
  }

  /** Cursor.Seek: the position of the first key that is not below k. */
  function Seek(items: seq<Item>, k: Bytes): (p: nat)
    ensures p <= |items|
    ensures forall i :: 0 <= i < p ==> Less(items[i].key, k)
    ensures p < |items| ==> !Less(items[p].key, k)
  {
    if items == [] || !Less(items[0].key, k) then 0 else 1 + Seek(items[1..], k)
  }

  function Put(items: seq<Item>, k: Bytes, v: Payload): seq<Item> {
    var p := Seek(items, k);
    if p < |items| && items[p].key == k then items[p := Item(k, Some(v))]
    else items[..p] + [Item(k, Some(v))] + items[p..]
  }

  function Remove(items: seq<Item>, k: Bytes): seq<Item> {
    var p := Seek(items, k);
    if p < |items| && items[p].key == k then items[..p] + items[p + 1..] else items
  }

  /** Everything from the sought position on is at or above the sought key. */
  lemma SeekAbove(items: seq<Item>, k: Bytes, i: nat)
    requires Sorted(items) && Seek(items, k) <= i < |items|
    ensures !Less(items[i].key, k)
  {
    var p := Seek(items, k);
    if p < i && Less(items[i].key, k) {
      LessTransitive(items[p].key, items[i].key, k);
    }
  }

  /** A key that is present is where Seek says it is. */
  lemma SeekFinds(items: seq<Item>, i: nat)
    requires Sorted(items) && i < |items|
    ensures Seek(items, items[i].key) == i
  {
    var k := items[i].key;
    var p := Seek(items, k);
    LessIrreflexive(k);
  }

  lemma PutSorted(items: seq<Item>, k: Bytes, v: Payload)
    requires Sorted(items)
    ensures Sorted(Put(items, k, v))
  {
    var p := Seek(items, k);
    var r := Put(items, k, v);
    if p < |items| && items[p].key == k {
    } else {
      forall i, j | 0 <= i < j < |r| ensures Less(r[i].key, r[j].key) {
        if j == p {
          assert Less(items[i].key, k);
        } else if i == p {
          SeekAbove(items, k, p);
          LessTotal(items[p].key, k);
          if p < j - 1 { LessTransitive(k, items[p].key, items[j - 1].key); }
        }
      }
    }
  }

  lemma RemoveSorted(items: seq<Item>, k: Bytes)
    requires Sorted(items)
    ensures Sorted(Remove(items, k))
  {
  }
}
