/** The key manager's bookkeeping (idmgr/manager.go): the map of identities, the
    index of the next derived one, and the two lists of addresses. Deriving a key
    from the master key is a function of index and stream that may fail. */
module KeyManager {
  import opened Base

  type Address = string

  datatype Identity = Identity(name: string, imported: bool, isChan: bool)

  /** The address derived for an index and a stream, if derivation succeeds. */
  type Derivation = (nat, nat) -> Option<Address>

  ghost predicate Distinct(list: seq<Address>) {
    forall i, j :: 0 <= i < j < |list| ==> list[i] != list[j]
  }

  /** The two lists split the map, without duplicates. */
  ghost predicate Partitioned(ids: map<Address, Identity>, imported: seq<Address>, derived: seq<Address>) {
    && Distinct(imported) && Distinct(derived)
    && (forall a :: a in imported <==> a in ids && ids[a].imported)
    && (forall a :: a in derived <==> a in ids && !ids[a].imported)
  }

  /** An address is listed as derived twice, or as imported though it is not. */
  ghost predicate Broken(ids: map<Address, Identity>, imported: seq<Address>, derived: seq<Address>) {
    !Distinct(derived) || exists a :: a in imported && a in ids && !ids[a].imported
  }

  /** Deriving an address keeps the split if and only if the address is new. */
  lemma DerivingKeepsPartition(ids: map<Address, Identity>, imported: seq<Address>, derived: seq<Address>,
                               addr: Address, id: Identity)
    requires Partitioned(ids, imported, derived) && !id.imported
    ensures Partitioned(ids[addr := id], imported, derived + [addr]) <==> addr !in ids
    ensures addr in ids ==> Broken(ids[addr := id], imported, derived + [addr])
  {
    var ids', derived' := ids[addr := id], derived + [addr];
    if addr in ids {
      if ids[addr].imported {
        assert addr in imported && !ids'[addr].imported;
      } else {
        var i :| 0 <= i < |derived| && derived[i] == addr;
        assert derived'[i] == derived'[|derived|];
      }
    } else {
      assert forall i, j :: 0 <= i < j < |derived'| ==> derived'[i] != derived'[j];
      forall a ensures a in derived' <==> a in ids' && !ids'[a].imported { }
    }
  }

  /** No further address that is derived mends it. */
  lemma BrokenStays(ids: map<Address, Identity>, imported: seq<Address>, derived: seq<Address>,
                    addr: Address, id: Identity)
    requires Broken(ids, imported, derived) && !id.imported
    ensures Broken(ids[addr := id], imported, derived + [addr])
  {
    var ids', derived' := ids[addr := id], derived + [addr];
    if !Distinct(derived) {
      var i, j :| 0 <= i < j < |derived| && derived[i] == derived[j];
      assert derived'[i] == derived'[j];
    } else {
      var a :| a in imported && a in ids && !ids[a].imported;
      assert a in ids' && !ids'[a].imported;
    }
  }

  /** The addresses are new, and no two of them the same. */
  ghost predicate AllNew(ids: map<Address, Identity>, addrs: seq<Address>) {
    Distinct(addrs) && forall a :: a in addrs ==> a !in ids
  }

  /** The state of the split after `addrs` were derived one after the other. */
  ghost predicate SplitAfter(before: map<Address, Identity>, addrs: seq<Address>,
                             ids: map<Address, Identity>, imported: seq<Address>, derived: seq<Address>) {
    && (forall a :: a in ids <==> a in before || a in addrs)
    && (if AllNew(before, addrs) then Partitioned(ids, imported, derived) else Broken(ids, imported, derived))
  }

  lemma SplitNext(before: map<Address, Identity>, addrs: seq<Address>, ids: map<Address, Identity>,
                  imported: seq<Address>, derived: seq<Address>, addr: Address, id: Identity)
    requires SplitAfter(before, addrs, ids, imported, derived) && !id.imported
    ensures SplitAfter(before, addrs + [addr], ids[addr := id], imported, derived + [addr])
  {
    hide Partitioned, Broken;
    var more := addrs + [addr];
    if AllNew(before, addrs) {
      DerivingKeepsPartition(ids, imported, derived, addr, id);
      NewNext(before, addrs, addr);
    } else {
      BrokenStays(ids, imported, derived, addr, id);
      NotNewNext(before, addrs, addr);
    }
  }

  lemma NewNext(before: map<Address, Identity>, addrs: seq<Address>, addr: Address)
    requires AllNew(before, addrs)
    ensures AllNew(before, addrs + [addr]) <==> addr !in before && addr !in addrs
  {
    var more := addrs + [addr];
    assert more[|addrs|] == addr && forall i :: 0 <= i < |addrs| ==> more[i] == addrs[i];
    if i :| 0 <= i < |addrs| && addrs[i] == addr {
      assert more[i] == more[|addrs|];
    }
  }

  lemma NotNewNext(before: map<Address, Identity>, addrs: seq<Address>, addr: Address)
    requires !AllNew(before, addrs)
    ensures !AllNew(before, addrs + [addr])
  {
    var more := addrs + [addr];
    if !Distinct(addrs) {
      var i, j :| 0 <= i < j < |addrs| && addrs[i] == addrs[j];
      assert more[i] == more[j];
    } else {
      var a :| a in addrs && a in before;
      assert a in more;
    }
  }

  lemma ImportingKeepsPartition(ids: map<Address, Identity>, imported: seq<Address>, derived: seq<Address>,
                                addr: Address, id: Identity)
    requires Partitioned(ids, imported, derived) && id.imported && addr !in ids
    ensures Partitioned(ids[addr := id], imported + [addr], derived)
  {
    assert addr !in imported && addr !in derived;
  }

  lemma {:induction false} DistinctCount(list: seq<Address>)
    requires Distinct(list)
    ensures |(set a | a in list)| == |list|
  {
    if list != [] {
      var n := |list| - 1;
      DistinctCount(list[..n]);
      assert list[n] !in list[..n];
      assert (set a | a in list) == (set a | a in list[..n]) + {list[n]};
    }
  }

  /** Then the counters of the two lists add up to the size of the map. */
  lemma CountersAddUp(ids: map<Address, Identity>, imported: seq<Address>, derived: seq<Address>)
    requires Partitioned(ids, imported, derived)
    ensures |imported| + |derived| == |ids|
  {
    DistinctCount(imported);
    DistinctCount(derived);
    var a, b := (set x | x in imported), (set x | x in derived);
    assert a !! b && a + b == ids.Keys;
    assert |ids.Keys| == |a| + |b|;
  }

  // The indices used.

  /** j is the first index from `from` on for which derivation succeeds. */
  ghost predicate FirstFrom(derive: Derivation, stream: nat, from: nat, j: nat) {
    from <= j && derive(j, stream).Some? && forall i :: from <= i < j ==> derive(i, stream).None?
  }

  /** A run of New on one stream that uses the indices `used`, starting with the
      index `start` as the next one and ending with `end`. */
  ghost predicate Uses(derive: Derivation, stream: nat, start: nat, used: seq<nat>, end: nat)
    decreases |used|
  {
    if used == [] then start == end
    else FirstFrom(derive, stream, start, used[0]) && Uses(derive, stream, used[0] + 1, used[1..], end)
  }

  /** The indices used are exactly the succeeding ones below the next index, each
      used once and in order. */
  lemma {:induction false} UsesExactly(derive: Derivation, stream: nat, start: nat, used: seq<nat>, end: nat)
    requires Uses(derive, stream, start, used, end)
    ensures start <= end
    ensures forall k :: 0 <= k < |used| ==> start <= used[k] < end
    ensures forall i, j :: 0 <= i < j < |used| ==> used[i] < used[j]
    ensures forall i :: start <= i < end ==> (i in used <==> derive(i, stream).Some?)
    decreases |used|
  {
    if used != [] {
      UsesExactly(derive, stream, used[0] + 1, used[1..], end);
      assert forall k :: 1 <= k < |used| ==> used[k] == used[1..][k - 1];
      forall i | start <= i < end ensures i in used <==> derive(i, stream).Some? {
        if i > used[0] { assert i in used <==> i in used[1..]; }
      }
    }
  }

  lemma {:induction false} UsesNext(derive: Derivation, stream: nat, start: nat, used: seq<nat>, end: nat, j: nat)
    requires Uses(derive, stream, start, used, end) && FirstFrom(derive, stream, end, j)
    ensures Uses(derive, stream, start, used + [j], j + 1)
    decreases |used|
  {
    var more := used + [j];
    if used == [] {
      assert more[1..] == [];
    } else {
      UsesNext(derive, stream, used[0] + 1, used[1..], end, j);
      assert more[0] == used[0] && more[1..] == used[1..] + [j];
    }
  }

  /** The outcome of try number i. */
  function Try(derive: Derivation, stream: nat, start: nat, i: nat): Option<Address> {
    derive((start + i) % LIMIT32, stream)
  }

  /** Before the index wraps around, the tries run through consecutive indices. */
  lemma NoWrap(derive: Derivation, stream: nat, start: nat, tries: nat)
    requires Try(derive, stream, start, tries).Some?
    requires forall i: nat :: i < tries ==> Try(derive, stream, start, i).None?
    ensures start + tries + 1 < LIMIT32 ==> FirstFrom(derive, stream, start, start + tries)
  {
    if start + tries + 1 < LIMIT32 {
      Small(start + tries);
      forall i | start <= i < start + tries ensures derive(i, stream).None? {
        Small(i);
        assert Try(derive, stream, start, i - start).None?;
      }
    }
  }

  lemma Small(n: nat)
    requires n < LIMIT32
    ensures n % LIMIT32 == n
  {
  }

  class Manager {
    var ids: map<Address, Identity>
    var newIDIndex: nat
    var importedIDs: seq<Address>
    var derivedIDs: seq<Address>

    ghost predicate Consistent()
      reads this
    {
      Partitioned(ids, importedIDs, derivedIDs)
    }

    constructor ()
      ensures Consistent() && ids == map[] && newIDIndex == 0
    {
      ids, newIDIndex, importedIDs, derivedIDs := map[], 0, [], [];
    }

    method ImportIdentity(addr: Address, id: Identity)
      requires Consistent()
      modifies this
      ensures Consistent() && newIDIndex == old(newIDIndex) && derivedIDs == old(derivedIDs)
      ensures addr in old(ids) ==> ids == old(ids) && importedIDs == old(importedIDs)
      ensures addr !in old(ids) ==>
        ids == old(ids)[addr := id.(imported := true)] && importedIDs == old(importedIDs) + [addr]
    {
      if addr in ids {
        return;
      }
      ImportingKeepsPartition(ids, importedIDs, derivedIDs, addr, id.(imported := true));
      ids := ids[addr := id.(imported := true)];
      importedIDs := importedIDs + [addr];
    }

    /** New: tries index after index, modulo 2^32, up to the first success. The
        code would loop for ever if there were none; `hit` is the number of tries
        after which there is one. */
    method New(derive: Derivation, name: string, stream: nat, ghost hit: nat) returns (addr: Address, tries: nat)
      requires newIDIndex < LIMIT32
      requires Try(derive, stream, newIDIndex, hit).Some?
      modifies this
      ensures Try(derive, stream, old(newIDIndex), tries) == Some(addr)
      ensures forall i: nat :: i < tries ==> Try(derive, stream, old(newIDIndex), i).None?
      ensures newIDIndex == (old(newIDIndex) + tries + 1) % LIMIT32
      ensures old(newIDIndex) + tries + 1 < LIMIT32 ==>
        FirstFrom(derive, stream, old(newIDIndex), old(newIDIndex) + tries) && newIDIndex == old(newIDIndex) + tries + 1
      ensures ids == old(ids)[addr := Identity(name, false, false)]
      ensures importedIDs == old(importedIDs) && derivedIDs == old(derivedIDs) + [addr]
      ensures old(Consistent()) ==> (Consistent() <==> addr !in old(ids))
    {
      tries := 0;
      var start := newIDIndex;
      while Try(derive, stream, start, tries).None?
        invariant tries <= hit
        invariant forall i: nat :: i < tries ==> Try(derive, stream, start, i).None?
        decreases hit - tries
      {
        tries := tries + 1;
      }
      NoWrap(derive, stream, start, tries);
      newIDIndex := (start + tries + 1) % LIMIT32;
      addr := Try(derive, stream, start, tries).value;
      if Consistent() {
        DerivingKeepsPartition(ids, importedIDs, derivedIDs, addr, Identity(name, false, false));
      }
      derivedIDs := derivedIDs + [addr];
      ids := ids[addr := Identity(name, false, false)];
    }

    /** FromPlaintext on what was exported: the lists are rebuilt from the map, in
        an order that is not specified. */
    constructor Reload(ids: map<Address, Identity>, newIDIndex: nat)
      ensures this.ids == ids && this.newIDIndex == newIDIndex && Consistent()
    {
      this.ids, this.newIDIndex := ids, newIDIndex;
      var todo, imported, derived := ids.Keys, [], [];
      while todo != {}
        invariant todo <= ids.Keys
        invariant Partitioned(map a | a in ids && a !in todo :: ids[a], imported, derived)
        decreases todo
      {
        var addr :| addr in todo;
        ghost var seen := map a | a in ids && a !in todo :: ids[a];
        todo := todo - {addr};
        assert (map a | a in ids && a !in todo :: ids[a]) == seen[addr := ids[addr]];
        if ids[addr].imported {
          ImportingKeepsPartition(seen, imported, derived, addr, ids[addr]);
          imported := imported + [addr];
        } else {
          DerivingKeepsPartition(seen, imported, derived, addr, ids[addr]);
          derived := derived + [addr];
        }
      }
      assert (map a | a in ids && a !in todo :: ids[a]) == ids;
      importedIDs, derivedIDs := imported, derived;
    }
  }

  /** Numbers that increase from `start` on, for each of which derivation succeeds,
      and none of them the last of the 32-bit indices. */
  ghost predicate Successes(derive: Derivation, stream: nat, start: nat, hits: seq<nat>) {
    && (forall i :: 0 <= i < |hits| ==>
          start <= hits[i] && hits[i] + 1 < LIMIT32 && derive(hits[i], stream).Some?)
    && (forall i, j :: 0 <= i < j < |hits| ==> hits[i] < hits[j])
  }

  /** Any number of calls of New on one stream, as long as there are that many
      indices for which derivation succeeds before the index wraps around. They use
      exactly the succeeding indices below the next one, each once and in order, and
      the split is kept if and only if the addresses are new and all different. */
  method NewForEach(mgr: Manager, derive: Derivation, stream: nat, names: seq<string>, ghost hits: seq<nat>)
    returns (addrs: seq<Address>, used: seq<nat>)
    requires mgr.newIDIndex < LIMIT32 && |hits| == |names| && Successes(derive, stream, mgr.newIDIndex, hits)
    modifies mgr
    ensures |used| == |addrs| == |names| && Uses(derive, stream, old(mgr.newIDIndex), used, mgr.newIDIndex)
    ensures forall i, j :: 0 <= i < j < |used| ==> used[i] < used[j]
    ensures forall i :: old(mgr.newIDIndex) <= i < mgr.newIDIndex ==> (i in used <==> derive(i, stream).Some?)
    ensures forall k :: 0 <= k < |used| ==> derive(used[k], stream) == Some(addrs[k])
    ensures mgr.derivedIDs == old(mgr.derivedIDs) + addrs && mgr.importedIDs == old(mgr.importedIDs)
    ensures old(mgr.Consistent()) ==> (mgr.Consistent() <==> AllNew(old(mgr.ids), addrs))
  {
    hide Uses, AllNew, Partitioned, SplitAfter;
    addrs, used := [], [];
    ghost var start := mgr.newIDIndex;
    ghost var was := mgr.Consistent();
    UsesNothing(derive, stream, start);
    if was { SplitFirst(mgr.ids, mgr.importedIDs, mgr.derivedIDs); }
    var i := 0;
    while i < |names|
      invariant i <= |names| && |used| == |addrs| == i
      invariant mgr.newIDIndex < LIMIT32 && (i < |names| ==> mgr.newIDIndex <= hits[i])
      invariant Uses(derive, stream, start, used, mgr.newIDIndex)
      invariant forall k :: 0 <= k < i ==> derive(used[k], stream) == Some(addrs[k])
      invariant mgr.derivedIDs == old(mgr.derivedIDs) + addrs && mgr.importedIDs == old(mgr.importedIDs)
      invariant was ==> SplitAfter(old(mgr.ids), addrs, mgr.ids, mgr.importedIDs, mgr.derivedIDs)
    {
      var next := mgr.newIDIndex;
      if was {
        SplitNexts(old(mgr.ids), addrs, mgr.ids, mgr.importedIDs, mgr.derivedIDs, Identity(names[i], false, false));
      }
      Small(hits[i]);
      var addr, tries := mgr.New(derive, names[i], stream, hits[i] - next);
      NextHit(derive, stream, next, tries, hits[i]);
      UsesNext(derive, stream, start, used, next, next + tries);
      addrs, used := addrs + [addr], used + [next + tries];
      i := i + 1;
    }
    UsesExactly(derive, stream, start, used, mgr.newIDIndex);
    if was { SplitLast(old(mgr.ids), addrs, mgr.ids, mgr.importedIDs, mgr.derivedIDs); }
  }

  lemma UsesNothing(derive: Derivation, stream: nat, start: nat)
    ensures Uses(derive, stream, start, [], start)
  {
  }

  lemma SplitFirst(ids: map<Address, Identity>, imported: seq<Address>, derived: seq<Address>)
    requires Partitioned(ids, imported, derived)
    ensures SplitAfter(ids, [], ids, imported, derived)
  {
  }

  lemma SplitNexts(before: map<Address, Identity>, addrs: seq<Address>, ids: map<Address, Identity>,
                   imported: seq<Address>, derived: seq<Address>, id: Identity)
    requires SplitAfter(before, addrs, ids, imported, derived) && !id.imported
    ensures forall addr :: SplitAfter(before, addrs + [addr], ids[addr := id], imported, derived + [addr])
  {
    forall addr ensures SplitAfter(before, addrs + [addr], ids[addr := id], imported, derived + [addr]) {
      SplitNext(before, addrs, ids, imported, derived, addr, id);
    }
  }

  lemma SplitLast(before: map<Address, Identity>, addrs: seq<Address>, ids: map<Address, Identity>,
                  imported: seq<Address>, derived: seq<Address>)
    requires SplitAfter(before, addrs, ids, imported, derived)
    ensures Partitioned(ids, imported, derived) <==> AllNew(before, addrs)
  {
  }

  /** The first success comes no later than one that is known. */
  lemma NextHit(derive: Derivation, stream: nat, start: nat, tries: nat, hit: nat)
    requires start <= hit && hit + 1 < LIMIT32 && derive(hit, stream).Some?
    requires Try(derive, stream, start, tries).Some?
    requires forall i: nat :: i < tries ==> Try(derive, stream, start, i).None?
    ensures start + tries <= hit
  {
    Small(hit);
    assert Try(derive, stream, start, hit - start).Some?;
  }

  /** Exporting and reloading keeps the two lists up to order, and the counters,
      as long as they were consistent. */
  method ExportReload(mgr: Manager) returns (copy: Manager)
    requires mgr.Consistent()
    ensures fresh(copy) && copy.Consistent() && copy.ids == mgr.ids && copy.newIDIndex == mgr.newIDIndex
    ensures forall a :: a in copy.importedIDs <==> a in mgr.importedIDs
    ensures forall a :: a in copy.derivedIDs <==> a in mgr.derivedIDs
    ensures |copy.importedIDs| == |mgr.importedIDs| && |copy.derivedIDs| == |mgr.derivedIDs|
  {
    copy := new Manager.Reload(mgr.ids, mgr.newIDIndex);
    DistinctCount(copy.importedIDs);
    DistinctCount(mgr.importedIDs);
    DistinctCount(copy.derivedIDs);
    DistinctCount(mgr.derivedIDs);
    assert (set a | a in copy.importedIDs) == (set a | a in mgr.importedIDs);
    assert (set a | a in copy.derivedIDs) == (set a | a in mgr.derivedIDs);
  }

  /** The split breaks where a derived address was imported before: it is then on
      both lists. */
  lemma ImportThenDerive(addr: Address, a: Identity, b: Identity)
    requires a.imported && !b.imported
    ensures Partitioned(map[addr := a], [addr], [])
    ensures !Partitioned(map[addr := a][addr := b], [addr], [addr])
  {
    ImportingKeepsPartition(map[], [], [], addr, a);
    assert [] + [addr] == [addr];
    DerivingKeepsPartition(map[addr := a], [addr], [], addr, b);
  }
}
