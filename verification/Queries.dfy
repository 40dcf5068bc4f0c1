/** Facts about range queries over listings. */
module Queries {
  import opened Base
  import opened FolderSpec

  lemma {:induction false} SelectConcat(low: nat, high: nat, suffix: nat, es: seq<Entry>, fs: seq<Entry>)
    ensures Select(low, high, suffix, es + fs) == Select(low, high, suffix, es) + Select(low, high, suffix, fs)
  {
    if es == [] {
      assert es + fs == fs;
    } else {
      SelectConcat(low, high, suffix, es[1..], fs);
      var all := es + fs;
      assert all[0] == es[0] && all[1..] == es[1..] + fs;
    }
  }

  lemma {:induction false} SelectNone(low: nat, high: nat, suffix: nat, es: seq<Entry>)
    requires forall e :: e in es ==> !Selects(low, high, suffix, e)
    ensures Select(low, high, suffix, es) == []
  {
    if es != [] {
      assert es[0] in es;
      SelectNone(low, high, suffix, es[1..]);
    }
  }

  /** A query keeps exactly the entries it selects, in their order. */
  lemma {:induction false} SelectIn(low: nat, high: nat, suffix: nat, es: seq<Entry>)
    ensures forall e :: e in Select(low, high, suffix, es) <==> e in es && Selects(low, high, suffix, e)
    ensures Ascending(es) ==> Ascending(Select(low, high, suffix, es))
  {
    if es != [] {
      SelectIn(low, high, suffix, es[1..]);
      var r, t := Select(low, high, suffix, es), Select(low, high, suffix, es[1..]);
      assert es == [es[0]] + es[1..];
      if Ascending(es) && Selects(low, high, suffix, es[0]) {
        forall i, j | 0 <= i < j < |r| ensures r[i].id < r[j].id {
          assert r[j] == t[j - 1] && r[j] in t;
          if i > 0 { assert r[i] == t[i - 1]; }
        }
      }
    }
  }

  /** A range query on a folder yields each stored message with
      low <= id <= high and a matching suffix once, in increasing id. */
  lemma QueryExact(f: Folder, low: nat, high: nat, suffix: nat)
    requires Good(f)
    ensures var r := Select(low, high, suffix, Listing(f));
      && Ascending(r)
      && (forall e :: e in r ==> e.id in f.messages && f.messages[e.id] == e.message && Selects(low, high, suffix, e))
      && (forall id :: id in f.messages && Selects(low, high, suffix, Entry(id, f.messages[id])) ==>
            Entry(id, f.messages[id]) in r)
  {
    ListingLists(f);
    SelectIn(low, high, suffix, Listing(f));
  }

  /** The callback that only records what it is given and stops when `verdict`
      objects. */
  function Recorder(verdict: Entry -> Option<Error>): (seq<Entry>, Entry) -> (seq<Entry>, Option<Error>) {
    (seen: seq<Entry>, e: Entry) => (seen + [e], verdict(e))
  }

  /** What a stopping walk visits is a prefix of the query: everything if the
      callback never objects, and otherwise everything up to and including the
      first entry that it objects to. */
  lemma {:induction false} FoldVisitsPrefix(verdict: Entry -> Option<Error>, seen: seq<Entry>, es: seq<Entry>)
    returns (n: nat)
    ensures n <= |es|
    ensures Fold(Recorder(verdict), seen, es).0 == seen + es[..n]
    ensures forall i :: 0 <= i < n - 1 ==> verdict(es[i]).None?
    ensures Fold(Recorder(verdict), seen, es).1 == if n == 0 then None else verdict(es[n - 1])
    ensures n == |es| || (n > 0 && verdict(es[n - 1]).Some?)
    decreases |es|
  {
    if es == [] {
      n := 0;
    } else if verdict(es[0]).Some? {
      n := 1;
      assert es[..1] == [es[0]];
    } else {
      var k := FoldVisitsPrefix(verdict, seen + [es[0]], es[1..]);
      n := k + 1;
      assert es[..n] == [es[0]] + es[1..][..k];
      assert seen + es[..n] == seen + [es[0]] + es[1..][..k];
      forall i | 0 <= i < n - 1 ensures verdict(es[i]).None? {
        if i > 0 { assert es[i] == es[1..][i - 1]; }
      }
      assert k > 0 ==> es[n - 1] == es[1..][k - 1];
    }
  }
}
