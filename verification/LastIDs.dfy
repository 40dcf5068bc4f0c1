/** The last-id queries: what the contract of a folder asks for
    (store/data/folder.go), and what the database folder computes instead
    (store/folder.go). */
module LastIDs {
  import opened Base
  import opened Mail
  import opened FolderSpec

  ghost predicate HasSuffix(m: map<nat, Message>, s: U64, id: int) {
    id in m && m[id].suffix == s
  }

  /** The documented answer: the greatest id with suffix s. */
  ghost predicate GreatestOf(m: map<nat, Message>, s: U64, v: nat) {
    HasSuffix(m, s, v) && forall id :: HasSuffix(m, s, id) ==> id <= v
  }

  ghost predicate Greatest(m: map<nat, Message>, v: nat) {
    if m == map[] then v == 0 else v in m && forall id :: id in m ==> id <= v
  }

  /** What a correct cache holds: an entry for exactly the suffixes in use,
      each the greatest id of its suffix, and the greatest id overall. */
  ghost predicate Documented(m: map<nat, Message>, last: nat, bySuffix: map<U64, nat>) {
    && Greatest(m, last)
    && (forall id :: id in m ==> m[id].suffix in bySuffix)
    && (forall s :: s in bySuffix ==> GreatestOf(m, s, bySuffix[s]))
  }

  // The answer of the database folder, which compares a stored id with the
  // suffix and so stops at the first id above it.

  /** v is the smallest id of suffix s above s if there is one, and the greatest
      id of suffix s if there is none. */
  ghost predicate FirstAboveOf(m: map<nat, Message>, s: U64, v: nat) {
    && HasSuffix(m, s, v)
    && (v > s ==> forall id :: HasSuffix(m, s, id) && id > s ==> v <= id)
    && (v <= s ==> forall id :: HasSuffix(m, s, id) ==> id <= v)
  }

  ghost predicate AsWritten(m: map<nat, Message>, last: nat, bySuffix: map<U64, nat>) {
    && (forall id :: id in m ==> m[id].suffix in bySuffix)
    && (forall s :: s in bySuffix ==> FirstAboveOf(m, s, bySuffix[s]) && bySuffix[s] <= last)
    && (if bySuffix == map[] then last == 0 else exists s :: s in bySuffix && bySuffix[s] == last)
  }

  /** One round of the loop of LastID. */
  function LastStep(last: nat, bySuffix: map<U64, nat>, e: Entry): (nat, map<U64, nat>) {
    var s := e.message.suffix;
    if s in bySuffix && bySuffix[s] > s then (last, bySuffix)
    else if e.id < last then (last, bySuffix[s := e.id])
    else (e.id, bySuffix[s := e.id])
  }

  lemma LastStepKeeps(m: map<nat, Message>, last: nat, bySuffix: map<U64, nat>, e: Entry)
    requires AsWritten(m, last, bySuffix)
    requires forall id :: id in m ==> id < e.id
    ensures var r := LastStep(last, bySuffix, e);
      AsWritten(m[e.id := e.message], r.0, r.1)
  {
    var s0 := e.message.suffix;
    var m', r := m[e.id := e.message], LastStep(last, bySuffix, e);
    forall s | s in r.1 ensures FirstAboveOf(m', s, r.1[s]) && r.1[s] <= r.0 {
      assert forall id :: HasSuffix(m', s, id) <==> HasSuffix(m, s, id) || (id == e.id && s == s0);
      if s != s0 { assert FirstAboveOf(m, s, bySuffix[s]); }
    }
    if s0 in bySuffix && bySuffix[s0] > s0 {
    } else {
      assert bySuffix != map[] ==> last in m;
      assert r.1[s0] == e.id == r.0;
    }
  }

  function LastFold(es: seq<Entry>): (nat, map<U64, nat>) {
    if es == [] then (0, map[])
    else
      var (last, bySuffix) := LastFold(es[..|es| - 1]);
      LastStep(last, bySuffix, es[|es| - 1])
  }

  ghost function Below(m: map<nat, Message>, n: nat): map<nat, Message> {
    map id | id in m && id < n :: m[id]
  }

  ghost predicate FoldRight(m: map<nat, Message>, n: nat) {
    var r := LastFold(Upto(m, n));
    AsWritten(Below(m, n), r.0, r.1)
  }

  lemma {:induction false} LastFoldUpto(m: map<nat, Message>, n: nat)
    ensures FoldRight(m, n)
  {
    hide FoldRight;
    if n == 0 {
      LastFoldZero(m);
    } else {
      LastFoldUpto(m, n - 1);
      LastFoldNext(m, n - 1);
    }
  }

  lemma LastFoldZero(m: map<nat, Message>)
    ensures FoldRight(m, 0)
  {
    assert Below(m, 0) == map[];
  }

  lemma LastFoldNext(m: map<nat, Message>, n: nat)
    requires FoldRight(m, n)
    ensures FoldRight(m, n + 1)
  {
    BelowNext(m, n);
    if n in m {
      var r := LastFold(Upto(m, n));
      LastStepKeeps(Below(m, n), r.0, r.1, Entry(n, m[n]));
      LastFoldAppend(Upto(m, n), Entry(n, m[n]));
    }
  }

  lemma LastFoldAppend(es: seq<Entry>, e: Entry)
    ensures var r := LastFold(es); LastFold(es + [e]) == LastStep(r.0, r.1, e)
  {
    assert (es + [e])[..|es|] == es;
  }

  lemma BelowNext(m: map<nat, Message>, n: nat)
    ensures Below(m, n + 1) == if n in m then Below(m, n)[n := m[n]] else Below(m, n)
    ensures Upto(m, n + 1) == if n in m then Upto(m, n) + [Entry(n, m[n])] else Upto(m, n)
  {
  }

  lemma LastFoldAsWritten(f: Folder)
    requires Good(f)
    ensures var r := LastFold(Listing(f)); AsWritten(f.messages, r.0, r.1)
  {
    LastFoldUpto(f.messages, f.next);
    assert Below(f.messages, f.next) == f.messages;
  }

  /** At most one id of suffix s exceeds s. */
  ghost predicate AtMostOneAbove(m: map<nat, Message>, s: U64) {
    forall i, j :: HasSuffix(m, s, i) && HasSuffix(m, s, j) && i > s && j > s ==> i == j
  }

  /** The database folder answers a suffix as documented exactly if at most one
      id of that suffix exceeds the suffix. */
  lemma SuffixAnswerRight(m: map<nat, Message>, last: nat, bySuffix: map<U64, nat>, s: U64)
    requires AsWritten(m, last, bySuffix) && s in bySuffix
    ensures GreatestOf(m, s, bySuffix[s]) <==> AtMostOneAbove(m, s)
  {
    var v := bySuffix[s];
    assert FirstAboveOf(m, s, v);
    if GreatestOf(m, s, v) {
      forall i, j | HasSuffix(m, s, i) && HasSuffix(m, s, j) && i > s && j > s ensures i == j {
        assert i <= v && j <= v;
      }
    }
  }

  /** It answers the last id as documented exactly if the suffix of the greatest
      id meets that condition. */
  lemma LastAnswerRight(m: map<nat, Message>, last: nat, bySuffix: map<U64, nat>, top: nat)
    requires AsWritten(m, last, bySuffix) && m != map[] && Greatest(m, top)
    ensures last == top <==> AtMostOneAbove(m, m[top].suffix)
  {
    var t := m[top].suffix;
    SuffixAnswerRight(m, last, bySuffix, t);
    assert HasSuffix(m, t, top);
    assert FirstAboveOf(m, t, bySuffix[t]) && bySuffix[t] <= last;
    var s :| s in bySuffix && bySuffix[s] == last;
    assert FirstAboveOf(m, s, last);
    if last == top {
      assert s == t;
    }
  }

  /** The everyday case it gets wrong: a mailbox whose fourth message has come. */
  lemma LastIDMissesFourth(a: Payload, last: nat, bySuffix: map<U64, nat>)
    requires
      AsWritten(map[1 := Message(2, a), 2 := Message(2, a), 3 := Message(2, a), 4 := Message(2, a)], last, bySuffix)
    ensures last == 3 && bySuffix == map[2 := 3]
  {
    var m := map[1 := Message(2, a), 2 := Message(2, a), 3 := Message(2, a), 4 := Message(2, a)];
    assert m[3].suffix in bySuffix;
    assert HasSuffix(m, 2, 3) && HasSuffix(m, 2, 4);
    assert FirstAboveOf(m, 2, bySuffix[2]);
    forall s | s in bySuffix ensures s == 2 {
      assert FirstAboveOf(m, s, bySuffix[s]);
    }
  }
}
