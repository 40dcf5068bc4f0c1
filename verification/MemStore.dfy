/** The folder kept in memory (store/data/folder.go), with its cached last ids. */
module MemStore {
  import opened Base
  import opened BigEndian
  import opened Mail
  import opened FolderSpec
  import opened LastIDs
  import opened Queries

  class MemFolder {
    var lastIndex: nat
    var nextIndex: U64
    var lastIndexBySuffix: map<U64, nat>
    var messages: map<nat, Message>

    ghost function Model(): Folder
      reads this
    {
      Folder(nextIndex, messages)
    }

    /** The caches equal the maxima recomputed from the message map. */
    ghost predicate Valid()
      reads this
    {
      Good(Model()) && Documented(messages, lastIndex, lastIndexBySuffix)
    }

    constructor ()
      ensures Valid() && Model() == EMPTY
    {
      lastIndex, nextIndex := 0, 1;
      lastIndexBySuffix, messages := map[], map[];
    }

    method LastID() returns (last: nat, bySuffix: map<U64, nat>)
      requires Valid()
      ensures Documented(messages, last, bySuffix)
    {
      return lastIndex, lastIndexBySuffix;
    }

    /** updateLast: makes the caches right for a message that is added to m. */
    method UpdateLast(id: nat, suffix: U64, ghost m: map<nat, Message>, ghost payload: Payload)
      requires id > 0 && id !in m && Documented(m, lastIndex, lastIndexBySuffix)
      modifies this`lastIndex, this`lastIndexBySuffix
      ensures Documented(m[id := Message(suffix, payload)], lastIndex, lastIndexBySuffix)
    {
      UpdatedKeeps(m, lastIndex, lastIndexBySuffix, id, Message(suffix, payload));
      if lastIndex < id {
        lastIndex := id;
        lastIndexBySuffix := lastIndexBySuffix[suffix := id];
        return;
      }
      // A missing key reads as 0.
      if (if suffix in lastIndexBySuffix then lastIndexBySuffix[suffix] else 0) < id {
        lastIndexBySuffix := lastIndexBySuffix[suffix := id];
      }
    }

    method InsertNewMessage(msg: Option<Payload>, suffix: U64) returns (r: Reply)
      requires Valid()
      modifies this
      ensures (if msg.None? then Failed(NilMessage) else Inserted(old(nextIndex))) == r
      ensures msg.None? || old(nextIndex) + 1 < LIMIT ==>
        Valid() && (Model(), r) == Apply(old(Model()), InsertNew(msg, suffix))
      ensures msg.Some? && old(nextIndex) + 1 == LIMIT ==> nextIndex == 0
    {
      if msg.None? {
        return Failed(NilMessage);
      }
      var id := nextIndex;
      ApplyGood(Model(), InsertNew(msg, suffix));
      ghost var m := messages;
      messages := messages[id := Message(suffix, msg.value)];
      UpdateLast(id, suffix, m, msg.value);
      nextIndex := Inc64(id);
      r := Inserted(id);
    }

    method InsertMessage(id: U64, msg: Option<Payload>, suffix: U64) returns (r: Reply)
      requires Valid()
      modifies this
      ensures Valid() && (Model(), r) == Apply(old(Model()), Insert(id, msg, suffix))
      ensures r == Failed(InvalidID) <==> id == 0 || old(nextIndex) <= id
      ensures r == Failed(DuplicateID) <==> id in old(messages) && msg.Some?
      ensures r == Done <==> 0 < id < old(nextIndex) && id !in old(messages) && msg.Some?
      ensures nextIndex == old(nextIndex)
      ensures messages == if r == Done then old(messages)[id := Message(suffix, msg.value)] else old(messages)
    {
      if id == 0 || id >= nextIndex {
        return Failed(InvalidID);
      }
      if msg.None? {
        return Failed(NilMessage);
      }
      if id in messages {
        return Failed(DuplicateID);
      }
      ApplyGood(Model(), Insert(id, msg, suffix));
      UpdateLast(id, suffix, messages, msg.value);
      messages := messages[id := Message(suffix, msg.value)];
      r := Done;
    }

    method GetMessage(id: U64) returns (r: Reply)
      requires Valid()
      ensures (Model(), r) == Apply(Model(), Get(id))
    {
      if id == 0 || id >= nextIndex {
        return Failed(NotFound);
      }
      if id !in messages {
        return Failed(NotFound);
      }
      r := Found(messages[id].suffix, messages[id].payload);
    }

    method DeleteMessage(id: U64) returns (r: Reply)
      requires Valid()
      modifies this
      ensures Valid() && (Model(), r) == Apply(old(Model()), Delete(id))
      ensures r == Failed(InvalidID) <==> id == 0 || old(nextIndex) <= id
      ensures r == Failed(NotFound) <==> 0 < id < old(nextIndex) && id !in old(messages)
      ensures r == Done <==> id in old(messages)
      ensures nextIndex == old(nextIndex)
      ensures messages == if r == Done then old(messages) - {id} else old(messages)
    {
      if id == 0 || id >= nextIndex {
        return Failed(InvalidID);
      }
      if id !in messages {
        return Failed(NotFound);
      }
      hide Documented, LastIDs.GreatestOf, ScanState;
      ApplyGood(Model(), Delete(id));
      var suffix := messages[id].suffix;
      ghost var m, last, cache := messages, lastIndex, lastIndexBySuffix;
      SuffixCached(m, last, cache, id);
      messages := messages - {id};
      r := Done;
      if lastIndexBySuffix[suffix] != id {
        NotTheLast(m, last, cache, id);
        return;
      }
      var k := id - 1;
      ScanStart(m, id, last);
      while k > 0
        invariant 0 <= k < id
        invariant messages == m - {id} && nextIndex == old(nextIndex) && lastIndexBySuffix == cache
        invariant ScanState(m, id, last, k, lastIndex)
        invariant forall i :: k < i < id ==> !HasSuffix(m, suffix, i)
      {
        hide Documented, LastIDs.GreatestOf, ScanState;
        ScanDown(m, id, last, k, lastIndex);
        if k in messages {
          if id == lastIndex {
            lastIndex := k;
          }
          if messages[k].suffix == suffix {
            lastIndexBySuffix := lastIndexBySuffix[suffix := k];
            FoundLower(m, last, cache, id, k, lastIndex);
            return;
          }
        }
        k := k - 1;
      }
      FoundNone(m, last, cache, id, lastIndex);
      lastIndexBySuffix := lastIndexBySuffix - {suffix};
      if id == lastIndex {
        lastIndex := 0;
      }
    }

    /** The map is ranged over in an order that is not specified. */
    method ForEachMessage<S>(low: U64, high: U64, suffix: U64, init: S, fn: (S, Entry) -> (S, Option<Error>))
      returns (s: S, err: Option<Error>, ghost visited: seq<Entry>)
      requires Valid()
      ensures (s, err) == Fold(fn, init, visited)
      ensures err.Some? ==> visited != [] && Fold(fn, init, visited[..|visited| - 1]).1.None?
      ensures VisitsOnce(messages, low, high, visited)
      ensures err.None? ==> VisitsAll(messages, low, high, visited)
    {
      hide FolderSpec.Fold, Documented;
      FoldEmpty(fn, init);
      s, err, visited := init, None, [];
      var todo := messages.Keys;
      while todo != {}
        invariant todo <= messages.Keys
        invariant (s, err) == Fold(fn, init, visited) && err.None?
        invariant VisitsOnce(messages, low, high, visited) && forall e :: e in visited ==> e.id !in todo
        invariant forall id :: id in messages && Selects(low, high, 0, Entry(id, messages[id])) ==>
          id in todo || Entry(id, messages[id]) in visited
        decreases todo
      {
        var id :| id in todo;
        todo := todo - {id};
        var m := messages[id];
        if (id > high && high != 0) || id < low {
          continue;
        }
        FoldAppend(fn, init, visited, Entry(id, m));
        var out := fn(s, Entry(id, m));
        s, err := out.0, out.1;
        ghost var before := visited;
        visited := visited + [Entry(id, m)];
        assert visited[..|before|] == before;
        if err.Some? {
          return;
        }
      }
    }
  }

  lemma FoldEmpty<S>(fn: (S, Entry) -> (S, Option<Error>), s: S)
    ensures Fold(fn, s, []) == (s, None)
  {
  }

  lemma {:induction false} FoldAppend<S>(fn: (S, Entry) -> (S, Option<Error>), s: S, es: seq<Entry>, e: Entry)
    requires Fold(fn, s, es).1.None?
    ensures Fold(fn, s, es + [e]) == fn(Fold(fn, s, es).0, e)
    decreases |es|
  {
    if es == [] {
      assert (es + [e])[1..] == [];
    } else {
      var (t, err) := fn(s, es[0]);
      FoldAppend(fn, t, es[1..], e);
      assert (es + [e])[0] == es[0] && (es + [e])[1..] == es[1..] + [e];
    }
  }

  /** updateLast. */
  function Updated(last: nat, bySuffix: map<U64, nat>, id: nat, suffix: U64): (nat, map<U64, nat>) {
    if last < id then (id, bySuffix[suffix := id])
    else if (if suffix in bySuffix then bySuffix[suffix] else 0) < id then (last, bySuffix[suffix := id])
    else (last, bySuffix)
  }

  lemma UpdatedKeeps(m: map<nat, Message>, last: nat, bySuffix: map<U64, nat>, id: nat, msg: Message)
    requires Documented(m, last, bySuffix) && id > 0 && id !in m
    ensures var r := Updated(last, bySuffix, id, msg.suffix);
      Documented(m[id := msg], r.0, r.1)
  {
    var m', r := m[id := msg], Updated(last, bySuffix, id, msg.suffix);
    forall s | s in r.1 ensures GreatestOf(m', s, r.1[s]) {
      assert forall i :: HasSuffix(m', s, i) <==> HasSuffix(m, s, i) || (i == id && s == msg.suffix);
      if s in bySuffix { assert GreatestOf(m, s, bySuffix[s]); }
    }
  }

  lemma SuffixCached(m: map<nat, Message>, last: nat, cache: map<U64, nat>, id: nat)
    requires Documented(m, last, cache) && id in m
    ensures m[id].suffix in cache && GreatestOf(m, m[id].suffix, cache[m[id].suffix])
  {
  }

  /** How far the backward scan of a delete has moved the cached last id. */
  ghost predicate ScanState(m: map<nat, Message>, id: nat, last: nat, k: nat, now: nat) {
    if last != id then now == last
    else if forall i :: k < i < id ==> i !in m then now == id
    else k < now < id && now in m && forall i :: now < i < id ==> i !in m
  }

  lemma ScanStart(m: map<nat, Message>, id: nat, last: nat)
    requires 0 < id
    ensures ScanState(m, id, last, id - 1, last)
  {
  }

  lemma ScanDown(m: map<nat, Message>, id: nat, last: nat, k: nat, now: nat)
    requires 0 < k < id && ScanState(m, id, last, k, now)
    ensures ScanState(m, id, last, k - 1, if k in m && id == now then k else now)
  {
  }

  lemma OthersKeep(m: map<nat, Message>, last: nat, cache: map<U64, nat>, id: nat, s: U64)
    requires Documented(m, last, cache) && id in m && s in cache && cache[s] != id
    ensures GreatestOf(m - {id}, s, cache[s])
  {
    assert GreatestOf(m, s, cache[s]);
    assert forall i :: HasSuffix(m - {id}, s, i) ==> HasSuffix(m, s, i);
  }

  lemma NotTheLast(m: map<nat, Message>, last: nat, cache: map<U64, nat>, id: nat)
    requires Documented(m, last, cache) && id in m && cache[m[id].suffix] != id
    ensures Documented(m - {id}, last, cache)
  {
    assert GreatestOf(m, m[id].suffix, cache[m[id].suffix]);
    assert HasSuffix(m, m[id].suffix, id);
    assert last in m && last != id;
    forall s | s in cache ensures GreatestOf(m - {id}, s, cache[s]) {
      assert GreatestOf(m, s, cache[s]);
      OthersKeep(m, last, cache, id, s);
    }
  }

  lemma FoundLower(m: map<nat, Message>, last: nat, cache: map<U64, nat>, id: nat, k: nat, now: nat)
    requires Documented(m, last, cache) && id in m && cache[m[id].suffix] == id
    requires 0 < k < id && HasSuffix(m, m[id].suffix, k)
    requires forall i :: k < i < id ==> !HasSuffix(m, m[id].suffix, i)
    requires ScanState(m, id, last, k - 1, now)
    ensures Documented(m - {id}, now, cache[m[id].suffix := k])
  {
    var m', t, cache' := m - {id}, m[id].suffix, cache[m[id].suffix := k];
    assert GreatestOf(m, t, id);
    forall s | s in cache' ensures GreatestOf(m', s, cache'[s]) {
      if s == t {
        assert forall i :: HasSuffix(m', s, i) ==> HasSuffix(m, s, i);
      } else {
        assert GreatestOf(m, s, cache[s]);
        OthersKeep(m, last, cache, id, s);
      }
    }
    assert k in m';
  }

  lemma FoundNone(m: map<nat, Message>, last: nat, cache: map<U64, nat>, id: nat, was: nat)
    requires Documented(m, last, cache) && id in m && cache[m[id].suffix] == id && 0 !in m
    requires forall i :: 0 < i < id ==> !HasSuffix(m, m[id].suffix, i)
    requires ScanState(m, id, last, 0, was)
    ensures Documented(m - {id}, if was == id then 0 else was, cache - {m[id].suffix})
  {
    var m', t, cache' := m - {id}, m[id].suffix, cache - {m[id].suffix};
    assert GreatestOf(m, t, id);
    forall i | i in m' ensures m'[i].suffix in cache' {
      assert HasSuffix(m, m[i].suffix, i);
    }
    forall s | s in cache' ensures GreatestOf(m', s, cache'[s]) {
      assert GreatestOf(m, s, cache[s]);
      OthersKeep(m, last, cache, id, s);
    }
    assert last in m && id <= last;
    if last != id {
      assert last in m';
    } else if was == id {
      assert forall i :: i in m' ==> 0 < i < id;
      assert m' == map[];
    } else {
      assert was in m';
    }
  }

  // The walk in memory against the contract of ForEachMessage.

  ghost predicate InRange(m: map<nat, Message>, low: nat, high: nat, id: nat) {
    id in m && low <= id && (high == 0 || id <= high)
  }

  /** Messages of the range, none of them twice, in any order. */
  ghost predicate VisitsOnce(m: map<nat, Message>, low: nat, high: nat, visited: seq<Entry>) {
    && (forall i, j :: 0 <= i < j < |visited| ==> visited[i].id != visited[j].id)
    && (forall e :: e in visited ==> InRange(m, low, high, e.id) && m[e.id] == e.message)
  }

  ghost predicate VisitsAll(m: map<nat, Message>, low: nat, high: nat, visited: seq<Entry>) {
    forall id :: InRange(m, low, high, id) ==> Entry(id, m[id]) in visited
  }

  /** A walk that the callback does not stop. */
  ghost predicate FullVisit(m: map<nat, Message>, low: nat, high: nat, visited: seq<Entry>) {
    VisitsOnce(m, low, high, visited) && VisitsAll(m, low, high, visited)
  }

  /** No message of the range has another suffix than the one asked for. */
  ghost predicate SuffixFits(m: map<nat, Message>, low: nat, high: nat, suffix: nat) {
    suffix == 0 || forall id :: InRange(m, low, high, id) ==> m[id].suffix == suffix
  }

  ghost predicate AtMostOne(m: map<nat, Message>, low: nat, high: nat) {
    forall i, j :: InRange(m, low, high, i) && InRange(m, low, high, j) ==> i == j
  }

  /** The walk in memory ignores the suffix and the order it is asked for. So it is
      sure to visit what the contract promises, in increasing order of id, if and
      only if every message of the range has the suffix and there is at most one. */
  lemma MemWalkMeetsContract(f: Folder, low: nat, high: nat, suffix: nat)
    requires Good(f)
    ensures
      (forall visited :: FullVisit(f.messages, low, high, visited) ==>
         visited == Select(low, high, suffix, Listing(f)))
      <==> SuffixFits(f.messages, low, high, suffix) && AtMostOne(f.messages, low, high)
  {
    hide FolderSpec.Select, FolderSpec.Upto, FullVisit, SuffixFits, AtMostOne;
    if SuffixFits(f.messages, low, high, suffix) && AtMostOne(f.messages, low, high) {
      forall visited | FullVisit(f.messages, low, high, visited)
        ensures visited == Select(low, high, suffix, Listing(f))
      {
        SingleVisit(f, low, high, suffix, visited);
      }
    } else {
      var visited := WrongVisit(f, low, high, suffix);
    }
  }

  lemma SingleVisit(f: Folder, low: nat, high: nat, suffix: nat, visited: seq<Entry>)
    requires Good(f) && FullVisit(f.messages, low, high, visited)
    requires SuffixFits(f.messages, low, high, suffix) && AtMostOne(f.messages, low, high)
    ensures visited == Select(low, high, suffix, Listing(f))
  {
    hide FolderSpec.Select, FolderSpec.Upto;
    var r := Select(low, high, suffix, Listing(f));
    QueryExact(f, low, high, suffix);
    assert VisitsOnce(f.messages, low, high, r);
    ShortVisit(f.messages, low, high, visited);
    ShortVisit(f.messages, low, high, r);
    assert forall e :: e in visited ==> e in r;
    assert forall e :: e in r ==> e in visited;
    if visited != [] { assert visited[0] in r; }
    if r != [] { assert r[0] in visited; }
  }

  lemma ShortVisit(m: map<nat, Message>, low: nat, high: nat, es: seq<Entry>)
    requires VisitsOnce(m, low, high, es) && AtMostOne(m, low, high)
    ensures |es| <= 1
  {
    if es != [] {
      var k := |es| - 1;
      assert es[0] in es && es[k] in es;
      assert es[0].id == es[k].id;
    }
  }

  /** The walk in increasing order is one that may happen. */
  lemma OrderedVisit(f: Folder, low: nat, high: nat)
    requires Good(f)
    ensures FullVisit(f.messages, low, high, Select(low, high, 0, Listing(f)))
  {
    hide FolderSpec.Select, FolderSpec.Upto;
    QueryExact(f, low, high, 0);
  }

  function Backwards(es: seq<Entry>): (r: seq<Entry>)
    ensures |r| == |es| && forall i :: 0 <= i < |es| ==> r[i] == es[|es| - 1 - i]
  {
    seq(|es|, i requires 0 <= i < |es| => es[|es| - 1 - i])
  }

  /** And so is the same walk backwards. */
  lemma BackwardsVisit(m: map<nat, Message>, low: nat, high: nat, es: seq<Entry>)
    requires FullVisit(m, low, high, es)
    ensures FullVisit(m, low, high, Backwards(es))
  {
    var r := Backwards(es);
    forall id | InRange(m, low, high, id) ensures Entry(id, m[id]) in r {
      var i :| 0 <= i < |es| && es[i] == Entry(id, m[id]);
      assert r[|es| - 1 - i] == es[i];
    }
  }

  /** A walk that is not what the contract promises. */
  lemma WrongVisit(f: Folder, low: nat, high: nat, suffix: nat) returns (visited: seq<Entry>)
    requires Good(f)
    requires !(SuffixFits(f.messages, low, high, suffix) && AtMostOne(f.messages, low, high))
    ensures FullVisit(f.messages, low, high, visited) && visited != Select(low, high, suffix, Listing(f))
  {
    hide FolderSpec.Select, FolderSpec.Upto;
    var m, w, r := f.messages, Select(low, high, 0, Listing(f)), Select(low, high, suffix, Listing(f));
    OrderedVisit(f, low, high);
    QueryExact(f, low, high, suffix);
    visited := w;
    if !SuffixFits(m, low, high, suffix) {
      var id :| InRange(m, low, high, id) && m[id].suffix != suffix;
      assert Entry(id, m[id]) in w && Entry(id, m[id]) !in r;
    } else if w == r {
      var i, j :| InRange(m, low, high, i) && InRange(m, low, high, j) && i != j;
      assert Entry(i, m[i]) in w && Entry(j, m[j]) in w;
      BackwardsVisit(m, low, high, w);
      visited := Backwards(w);
      assert visited[0].id != w[0].id;
    }
  }

  /** Two messages of the suffix asked for, visited in falling order. */
  lemma MemWalkOutOfOrder(a: Payload, b: Payload)
    ensures var m := map[1 := Message(2, a), 2 := Message(2, b)];
      var visited := [Entry(2, m[2]), Entry(1, m[1])];
      FullVisit(m, 0, 0, visited) && SuffixFits(m, 0, 0, 2) && !Ascending(visited)
  {
    var m := map[1 := Message(2, a), 2 := Message(2, b)];
    var visited := [Entry(2, m[2]), Entry(1, m[1])];
    assert visited[0].id > visited[1].id;
  }
}
