/** The callbacks that a mailbox hands to ForEachMessage, and what the walks
    with them amount to. */
module MailboxWalks {
  import opened Base
  import opened Mail
  import opened FolderSpec
  import opened Queries
  import opened SequenceNumbers
  import opened MailboxSpec
  import opened MailboxFetch

  /** The variables that the callback of refresh updates. */
  datatype Stats = Stats(uids: seq<nat>, recent: nat, unseen: nat)

  function RefreshStep(sub: Filter, s: Stats, e: Entry): (Stats, Option<Error>) {
    match DecodeLetter(e.message.payload)
    case None => (s, Some(Undecodable(e.id)))
    case Some(letter) =>
      if !sub(letter) then (s, None)
      else (Stats(s.uids + [e.id],
                  if Recent in letter.flags then Inc32(s.recent) else s.recent,
                  if Seen !in letter.flags then Inc32(s.unseen) else s.unseen), None)
  }

  function RefreshFn(sub: Filter): (Stats, Entry) -> (Stats, Option<Error>) {
    (s: Stats, e: Entry) => RefreshStep(sub, s, e)
  }

  /** The variables that the callback of getRange updates. */
  datatype Fetch = Fetch(i: nat, got: seq<Bmail>)

  function RangeStep(sub: Filter, first: nat, s: Fetch, e: Entry): (Fetch, Option<Error>) {
    match DecodeLetter(e.message.payload)
    case None => (s, None)
    case Some(letter) =>
      if !sub(letter) then (s, None)
      else (Fetch(s.i + 1, s.got + [Bmail(e.id, first + s.i, letter)]), None)
  }

  function RangeFn(sub: Filter, first: nat): (Fetch, Entry) -> (Fetch, Option<Error>) {
    (s: Fetch, e: Entry) => RangeStep(sub, first, s, e)
  }

  /** The pieces among a list of entries. */
  function View(sub: Filter, es: seq<Entry>): seq<Piece> {
    if es == [] then []
    else ViewOne(sub, es[0]) + View(sub, es[1..])
  }

  function ViewOne(sub: Filter, e: Entry): seq<Piece> {
    if Shows(sub, e.message) then [PieceOf(e.id, e.message)] else []
  }

  lemma {:induction false} ViewAppend(sub: Filter, es: seq<Entry>, e: Entry)
    ensures View(sub, es + [e]) == View(sub, es) + ViewOne(sub, e)
  {
    if es == [] {
      assert (es + [e])[1..] == [];
    } else {
      ViewAppend(sub, es[1..], e);
      assert (es + [e])[1..] == es[1..] + [e];
    }
  }

  lemma {:induction false} ViewUpto(sub: Filter, m: map<nat, Message>, n: nat)
    ensures View(sub, Upto(m, n)) == PiecesUpto(sub, m, n)
  {
    if n != 0 {
      ViewUpto(sub, m, n - 1);
      if n - 1 in m {
        ViewAppend(sub, Upto(m, n - 1), Entry(n - 1, m[n - 1]));
      } else {
        assert Upto(m, n) == Upto(m, n - 1);
      }
    }
  }

  lemma {:induction false} IntervalConcat(lo: nat, hi: nat, ps: seq<Piece>, qs: seq<Piece>)
    ensures Interval(lo, hi, ps + qs) == Interval(lo, hi, ps) + Interval(lo, hi, qs)
  {
    if qs == [] {
      assert ps + qs == ps;
    } else {
      IntervalConcat(lo, hi, ps, qs[..|qs| - 1]);
      assert (ps + qs)[..|ps + qs| - 1] == ps + qs[..|qs| - 1];
    }
  }

  lemma {:induction false} ViewSelect(sub: Filter, lo: nat, hi: nat, es: seq<Entry>)
    requires hi != 0
    ensures View(sub, Select(lo, hi, 2, es)) == Interval(lo, hi, View(sub, es))
  {
    if es != [] {
      ViewSelect(sub, lo, hi, es[1..]);
      var e, rest := es[0], Select(lo, hi, 2, es[1..]);
      IntervalConcat(lo, hi, ViewOne(sub, e), View(sub, es[1..]));
      if Selects(lo, hi, 2, e) {
        assert ([e] + rest)[1..] == rest;
      } else {
        assert Select(lo, hi, 2, es) == rest;
      }
      assert Interval(lo, hi, ViewOne(sub, e)) == if Selects(lo, hi, 2, e) then ViewOne(sub, e) else [];
    }
  }

  lemma {:induction false} SelectTop(lo: nat, top: nat, suffix: nat, es: seq<Entry>)
    requires top != 0 && forall e :: e in es ==> e.id <= top
    ensures Select(lo, 0, suffix, es) == Select(lo, top, suffix, es)
  {
    if es != [] {
      assert es[0] in es;
      SelectTop(lo, top, suffix, es[1..]);
    }
  }

  /** What a range query over a folder shows; no upper bound means the greatest
      id there can be. */
  lemma QueryShows(sub: Filter, f: Folder, lo: nat, hi: nat)
    requires Good(f)
    ensures View(sub, Select(lo, hi, 2, Listing(f))) == Interval(lo, if hi == 0 then f.next else hi, Pieces(sub, f))
  {
    ListingLists(f);
    ViewUpto(sub, f.messages, f.next);
    if hi == 0 {
      SelectTop(lo, f.next, 2, Listing(f));
      ViewSelect(sub, lo, f.next, Listing(f));
    } else {
      ViewSelect(sub, lo, hi, Listing(f));
    }
  }

  /** The state of a range walk after passing the pieces v. */
  function Fetched(s: Fetch, v: seq<Piece>, first: nat): Fetch {
    Fetch(s.i + |v|, s.got + Numbered(v, first + s.i))
  }

  lemma FetchedStep(s: Fetch, p: Piece, v: seq<Piece>, first: nat)
    ensures Fetched(s, [p] + v, first) ==
      Fetched(Fetch(s.i + 1, s.got + [Bmail(p.uid, first + s.i, p.letter)]), v, first)
  {
    var all := [p] + v;
    assert Numbered(all, first + s.i) == [Bmail(p.uid, first + s.i, p.letter)] + Numbered(v, first + s.i + 1);
  }

  lemma {:induction false} FoldRange(sub: Filter, first: nat, s: Fetch, es: seq<Entry>)
    requires forall e :: e in es ==> e.message.suffix == 2
    ensures Fold(RangeFn(sub, first), s, es) == (Fetched(s, View(sub, es), first), None)
    decreases |es|
  {
    if es != [] {
      assert es[0] in es;
      FoldRange(sub, first, RangeStep(sub, first, s, es[0]).0, es[1..]);
      if Shows(sub, es[0].message) {
        FetchedStep(s, PieceOf(es[0].id, es[0].message), View(sub, es[1..]), first);
      } else {
        assert View(sub, es) == View(sub, es[1..]);
      }
    } else {
      assert s.got + Numbered([], first + s.i) == s.got;
    }
  }

  /** The state of a refresh after passing the pieces v. */
  function Counted(s: Stats, v: seq<Piece>): Stats {
    Stats(s.uids + Uids(v), s.recent + Recents(v), s.unseen + Unseens(v))
  }

  function CountOne(s: Stats, p: Piece): Stats {
    Stats(s.uids + [p.uid],
          s.recent + (if Recent in p.letter.flags then 1 else 0),
          s.unseen + (if Seen in p.letter.flags then 0 else 1))
  }

  lemma CountedStep(s: Stats, p: Piece, v: seq<Piece>)
    ensures Counted(s, [p] + v) == Counted(CountOne(s, p), v)
  {
    CountsConcat([p], v);
    assert [p][..0] == [];
    assert Uids([p] + v) == [p.uid] + Uids(v);
  }

  lemma RefreshStepIs(sub: Filter, s: Stats, e: Entry)
    requires e.message.suffix == 2 && DecodeLetter(e.message.payload).Some?
    requires s.recent + 1 < LIMIT32 && s.unseen + 1 < LIMIT32
    ensures RefreshStep(sub, s, e) ==
      (if Shows(sub, e.message) then CountOne(s, PieceOf(e.id, e.message)) else s, None)
  {
  }

  lemma {:induction false} FoldRefresh(sub: Filter, s: Stats, es: seq<Entry>)
    requires forall e :: e in es ==> e.message.suffix == 2 && DecodeLetter(e.message.payload).Some?
    requires s.recent + |es| < LIMIT32 && s.unseen + |es| < LIMIT32
    ensures Fold(RefreshFn(sub), s, es) == (Counted(s, View(sub, es)), None)
    decreases |es|
  {
    if es != [] {
      assert es[0] in es;
      RefreshStepIs(sub, s, es[0]);
      FoldRefresh(sub, RefreshStep(sub, s, es[0]).0, es[1..]);
      if Shows(sub, es[0].message) {
        CountedStep(s, PieceOf(es[0].id, es[0].message), View(sub, es[1..]));
      } else {
        assert View(sub, es) == View(sub, es[1..]);
      }
    } else {
      assert s.uids + Uids([]) == s.uids;
    }
  }

  lemma {:induction false} FoldRefreshFails(sub: Filter, s: Stats, es: seq<Entry>)
    requires exists e :: e in es && DecodeLetter(e.message.payload).None?
    ensures Fold(RefreshFn(sub), s, es).1.Some?
    decreases |es|
  {
    if DecodeLetter(es[0].message.payload).Some? {
      var e :| e in es && DecodeLetter(e.message.payload).None?;
      assert e in es[1..];
      FoldRefreshFails(sub, RefreshStep(sub, s, es[0]).0, es[1..]);
    }
  }

  /** The stored messages that refresh runs through. */
  function RefreshInput(f: Folder): seq<Entry> {
    Select(0, 0, 2, Listing(f))
  }

  lemma {:induction false} SelectShorter(low: nat, high: nat, suffix: nat, es: seq<Entry>)
    ensures |Select(low, high, suffix, es)| <= |es|
  {
    if es != [] { SelectShorter(low, high, suffix, es[1..]); }
  }

  lemma {:induction false} UptoShort(m: map<nat, Message>, n: nat)
    ensures |Upto(m, n)| <= n
  {
    if n != 0 { UptoShort(m, n - 1); }
  }

  lemma InputReadable(f: Folder)
    requires Good(f)
    ensures forall e :: e in RefreshInput(f) ==> e.message.suffix == 2
    ensures Readable(f) <==> forall e :: e in RefreshInput(f) ==> DecodeLetter(e.message.payload).Some?
  {
    QueryExact(f, 0, 0, 2);
    forall id | id in f.messages && f.messages[id].suffix == 2 ensures Entry(id, f.messages[id]) in RefreshInput(f) {
      assert Selects(0, 0, 2, Entry(id, f.messages[id]));
    }
  }

  /** A refresh that can read everything computes the uid list and the two
      counters; one that cannot reports an error. */
  lemma RefreshOutcome(sub: Filter, f: Folder)
    requires Good(f) && f.next < LIMIT32
    ensures var out := Fold(RefreshFn(sub), Stats([], 0, 0), RefreshInput(f));
      if Readable(f) then out == (Counted(Stats([], 0, 0), Pieces(sub, f)), None) else out.1.Some?
  {
    InputReadable(f);
    if Readable(f) {
      SelectShorter(0, 0, 2, Listing(f));
      UptoShort(f.messages, f.next);
      FoldRefresh(sub, Stats([], 0, 0), RefreshInput(f));
      QueryShows(sub, f, 0, 0);
      WholeInterval(sub, f);
    } else {
      FoldRefreshFails(sub, Stats([], 0, 0), RefreshInput(f));
    }
  }

  lemma WholeInterval(sub: Filter, f: Folder)
    ensures Interval(0, f.next, Pieces(sub, f)) == Pieces(sub, f)
  {
    var ps := Pieces(sub, f);
    PiecesExact(sub, f.messages, f.next);
    forall i | 0 <= i < |ps| ensures 0 <= ps[i].uid <= f.next { assert ps[i] in ps; }
    IntervalIsSlice(0, f.next, ps, 0, |ps|);
    assert ps[0..|ps|] == ps;
  }

  lemma {:induction false} IntervalEmpty(lo: nat, hi: nat, ps: seq<Piece>)
    requires lo > hi
    ensures Interval(lo, hi, ps) == []
  {
    if ps != [] { IntervalEmpty(lo, hi, ps[..|ps| - 1]); }
  }

  /** What the walk of getRange collects. */
  lemma RangeOutcome(sub: Filter, f: Folder, lo: nat, hi: nat, first: nat)
    requires Good(f)
    ensures Fold(RangeFn(sub, first), Fetch(0, []), Select(lo, hi, 2, Listing(f))) ==
      (Fetched(Fetch(0, []), Interval(lo, if hi == 0 then f.next else hi, Pieces(sub, f)), first), None)
  {
    SelectIn(lo, hi, 2, Listing(f));
    FoldRange(sub, first, Fetch(0, []), Select(lo, hi, 2, Listing(f)));
    QueryShows(sub, f, lo, hi);
  }

  /** A range that starts above its end but between the same uids is empty. */
  lemma CrossedRange(ps: seq<Piece>, start: nat, end: nat)
    requires Increasing(Uids(ps)) && CountBelow(Uids(ps), start) > CountBelow(Uids(ps), end)
    ensures Interval(start, end, ps) == []
  {
    CountBelowSplits(Uids(ps), start);
    CountBelowSplits(Uids(ps), end);
    assert Uids(ps)[CountBelow(Uids(ps), end)] < start;
    IntervalEmpty(start, end, ps);
  }

  /** Without an upper end everything is in range if the first message is. */
  lemma OpenRange(sub: Filter, f: Folder, start: nat)
    requires Pieces(sub, f) == [] || start <= Pieces(sub, f)[0].uid
    ensures Interval(start, f.next, Pieces(sub, f)) == Pieces(sub, f)
  {
    var ps := Pieces(sub, f);
    PiecesExact(sub, f.messages, f.next);
    forall i | 0 <= i < |ps| ensures start <= ps[i].uid <= f.next {
      assert ps[i] in ps;
      assert i > 0 ==> Uids(ps)[0] < Uids(ps)[i];
    }
    IntervalIsSlice(start, f.next, ps, 0, |ps|);
    assert ps[0..|ps|] == ps;
  }

  /** The comparison of sequence numbers in bitmessagesByUIDRange, and the walk
      that follows it, amount to UIDRange. */
  lemma RangeAnswer(sub: Filter, f: Folder, start: nat, end: nat)
    requires Good(f)
    ensures var ps := Pieces(sub, f);
      var a, b := 1 + CountBelow(Uids(ps), start), 1 + CountBelow(Uids(ps), end);
      UIDRange(ps, start, end) ==
        if a > b then [] else Numbered(Interval(start, if end == 0 then f.next else end, ps), a)
  {
    hide MailboxSpec.PiecesUpto, MailboxSpec.Interval, SequenceNumbers.CountBelow;
    var ps := Pieces(sub, f);
    var u := Uids(ps);
    PiecesExact(sub, f.messages, f.next);
    if end != 0 {
      if CountBelow(u, start) > CountBelow(u, end) { CrossedRange(ps, start, end); }
    } else {
      CountBelowIs(u, 0, 0);
      CountBelowSplits(u, start);
      if CountBelow(u, start) == 0 { OpenRange(sub, f, start); }
    }
  }
}
