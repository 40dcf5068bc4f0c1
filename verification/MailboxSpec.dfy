/** What a mailbox shows of its folder: the reference against which the cached
    uid list and counters of user/mailbox.go are proved. */
module MailboxSpec {
  import opened Base
  import opened Mail
  import opened FolderSpec
  import opened SequenceNumbers

  /** The predicate that defines a subfolder. */
  type Filter = Letter -> bool

  /** One message of the mailbox. */
  datatype Piece = Piece(uid: nat, letter: Letter)

  /** A message as it is handed out, with its sequence number. */
  datatype Bmail = Bmail(uid: nat, seqno: nat, letter: Letter)

  predicate Shows(sub: Filter, m: Message) {
    m.suffix == 2 && DecodeLetter(m.payload).Some? && sub(DecodeLetter(m.payload).value)
  }

  function PieceOf(id: nat, m: Message): Piece
    requires DecodeLetter(m.payload).Some?
  {
    Piece(id, DecodeLetter(m.payload).value)
  }

  function PieceAt(sub: Filter, m: map<nat, Message>, id: nat): seq<Piece> {
    if id in m && Shows(sub, m[id]) then [PieceOf(id, m[id])] else []
  }

  function PiecesUpto(sub: Filter, m: map<nat, Message>, n: nat): seq<Piece> {
    if n == 0 then [] else PiecesUpto(sub, m, n - 1) + PieceAt(sub, m, n - 1)
  }

  /** The messages of the mailbox, in ascending order of uid. */
  function Pieces(sub: Filter, f: Folder): seq<Piece> {
    PiecesUpto(sub, f.messages, f.next)
  }

  function Uids(ps: seq<Piece>): (u: seq<nat>)
    ensures |u| == |ps| && forall i :: 0 <= i < |ps| ==> u[i] == ps[i].uid
  {
    seq(|ps|, i requires 0 <= i < |ps| => ps[i].uid)
  }

  function Recents(ps: seq<Piece>): nat {
    if ps == [] then 0 else Recents(ps[..|ps| - 1]) + if Recent in ps[|ps| - 1].letter.flags then 1 else 0
  }

  function Unseens(ps: seq<Piece>): nat {
    if ps == [] then 0 else Unseens(ps[..|ps| - 1]) + if Seen in ps[|ps| - 1].letter.flags then 0 else 1
  }

  /** Every message that the mailbox would have to read can be read. */
  ghost predicate Readable(f: Folder) {
    forall id :: id in f.messages && f.messages[id].suffix == 2 ==> DecodeLetter(f.messages[id].payload).Some?
  }

  function Numbered(ps: seq<Piece>, first: nat): (r: seq<Bmail>)
    ensures |r| == |ps| && forall i :: 0 <= i < |ps| ==> r[i] == Bmail(ps[i].uid, first + i, ps[i].letter)
  {
    seq(|ps|, i requires 0 <= i < |ps| => Bmail(ps[i].uid, first + i, ps[i].letter))
  }

  /** The messages whose uid lies in a closed interval. */
  function Interval(lo: nat, hi: nat, ps: seq<Piece>): seq<Piece> {
    if ps == [] then []
    else Interval(lo, hi, ps[..|ps| - 1]) + if lo <= ps[|ps| - 1].uid <= hi then [ps[|ps| - 1]] else []
  }

  /** The mailbox's message with a uid, with its sequence number. */
  function Lookup(ps: seq<Piece>, uid: nat): Option<Bmail> {
    var k := CountBelow(Uids(ps), uid);
    if k < |ps| && ps[k].uid == uid then Some(Bmail(uid, k + 1, ps[k].letter)) else None
  }

  // The list of pieces.

  lemma {:induction false} PiecesExact(sub: Filter, m: map<nat, Message>, n: nat)
    ensures Increasing(Uids(PiecesUpto(sub, m, n)))
    ensures forall p :: p in PiecesUpto(sub, m, n) ==>
      p.uid < n && p.uid in m && Shows(sub, m[p.uid]) && p == PieceOf(p.uid, m[p.uid])
    ensures forall id :: id in m && id < n && Shows(sub, m[id]) ==> PieceOf(id, m[id]) in PiecesUpto(sub, m, n)
  {
    hide PiecesUpto, Shows;
    if n == 0 {
      PiecesNone(sub, m);
    } else {
      PiecesExact(sub, m, n - 1);
      PiecesNext(sub, m, n - 1);
      IncreasingNext(PiecesUpto(sub, m, n - 1), PieceAt(sub, m, n - 1));
    }
  }

  lemma PiecesNone(sub: Filter, m: map<nat, Message>)
    ensures PiecesUpto(sub, m, 0) == []
  {
  }

  lemma IncreasingNext(ps: seq<Piece>, qs: seq<Piece>)
    requires Increasing(Uids(ps)) && |qs| <= 1 && forall p, q :: p in ps && q in qs ==> p.uid < q.uid
    ensures Increasing(Uids(ps + qs))
  {
    var u := Uids(ps + qs);
    forall i, j | 0 <= i < j < |u| ensures u[i] < u[j] {
      assert (ps + qs)[i] == ps[i] && u[i] == Uids(ps)[i];
      if j < |ps| {
        assert u[j] == Uids(ps)[j];
      } else {
        assert ps[i] in ps && qs[0] in qs;
      }
    }
  }

  /** Sequence numbers are positions: message number k has uid uids[k - 1]. */
  lemma LookupExact(ps: seq<Piece>, uid: nat)
    requires Increasing(Uids(ps))
    ensures Lookup(ps, uid).Some? <==> exists i :: 0 <= i < |ps| && ps[i].uid == uid
    ensures forall i :: 0 <= i < |ps| && ps[i].uid == uid ==> Lookup(ps, uid) == Some(Bmail(uid, i + 1, ps[i].letter))
  {
    forall i | 0 <= i < |ps| && ps[i].uid == uid
      ensures Lookup(ps, uid) == Some(Bmail(uid, i + 1, ps[i].letter))
    {
      CountBelowIs(Uids(ps), uid, i);
    }
  }

  lemma {:induction false} PiecesCount(sub: Filter, m: map<nat, Message>, n: nat)
    requires forall id :: id in m ==> 0 < id
    ensures |PiecesUpto(sub, m, n)| <= if n == 0 then 0 else n - 1
  {
    if n > 1 {
      PiecesCount(sub, m, n - 1);
    }
  }

  lemma {:induction false} CountsConcat(ps: seq<Piece>, qs: seq<Piece>)
    ensures Recents(ps + qs) == Recents(ps) + Recents(qs)
    ensures Unseens(ps + qs) == Unseens(ps) + Unseens(qs)
  {
    if qs == [] {
      assert ps + qs == ps;
    } else {
      CountsConcat(ps, qs[..|qs| - 1]);
      assert (ps + qs)[..|ps + qs| - 1] == ps + qs[..|qs| - 1];
    }
  }

  // How the list follows the folder.

  /** Only the part of the map below n matters. */
  lemma {:induction false} PiecesLocal(sub: Filter, m: map<nat, Message>, m': map<nat, Message>, n: nat)
    requires forall i :: 0 <= i < n ==> (i in m <==> i in m') && (i in m ==> m[i] == m'[i])
    ensures PiecesUpto(sub, m, n) == PiecesUpto(sub, m', n)
  {
    if n != 0 { PiecesLocal(sub, m, m', n - 1); }
  }

  /** Deleting a message takes its piece out of its place in the list. */
  lemma {:induction false} PiecesDelete(sub: Filter, m: map<nat, Message>, id: nat, n: nat) returns (k: nat)
    requires id in m && id < n && Shows(sub, m[id])
    ensures var ps := PiecesUpto(sub, m, n);
      k < |ps| && ps[k] == PieceOf(id, m[id]) && PiecesUpto(sub, m - {id}, n) == ps[..k] + ps[k + 1..]
    decreases n
  {
    hide PiecesUpto, Shows, PieceOf;
    PiecesNext(sub, m, n - 1);
    PiecesNext(sub, m - {id}, n - 1);
    if n == id + 1 {
      PiecesLocal(sub, m, m - {id}, id);
      k := |PiecesUpto(sub, m, id)|;
    } else {
      k := PiecesDelete(sub, m, id, n - 1);
      CutFront(PiecesUpto(sub, m, n - 1), PieceAt(sub, m, n - 1), k);
    }
  }

  lemma PiecesNext(sub: Filter, m: map<nat, Message>, n: nat)
    ensures PiecesUpto(sub, m, n + 1) == PiecesUpto(sub, m, n) + PieceAt(sub, m, n)
  {
  }

  lemma CutFront(ps: seq<Piece>, qs: seq<Piece>, k: nat)
    requires k < |ps|
    ensures ps[..k] + ps[k + 1..] + qs == (ps + qs)[..k] + (ps + qs)[k + 1..] && (ps + qs)[k] == ps[k]
  {
  }

  /** Replacing a message by one that is shown too replaces its piece. */
  lemma {:induction false} PiecesReplace(sub: Filter, m: map<nat, Message>, id: nat, msg: Message, n: nat)
    returns (k: nat)
    requires id in m && id < n && Shows(sub, m[id]) && Shows(sub, msg)
    ensures var ps := PiecesUpto(sub, m, n);
      k < |ps| && ps[k] == PieceOf(id, m[id]) && PiecesUpto(sub, m[id := msg], n) == ps[k := PieceOf(id, msg)]
    decreases n
  {
    if n == id + 1 {
      PiecesLocal(sub, m, m[id := msg], id);
      k := |PiecesUpto(sub, m, id)|;
    } else {
      k := PiecesReplace(sub, m, id, msg, n - 1);
    }
  }

  /** A new message goes to the end of the list. */
  lemma PiecesAppend(sub: Filter, f: Folder, msg: Message)
    ensures var g := Folder(f.next + 1, f.messages[f.next := msg]);
      Pieces(sub, g) == Pieces(sub, f) + if Shows(sub, msg) then [PieceOf(f.next, msg)] else []
  {
    PiecesLocal(sub, f.messages, f.messages[f.next := msg], f.next);
  }

  /** Section 7.4.1 of RFC 3501: taking message k + 1 out lowers the sequence
      numbers of the messages with greater uids by one and leaves the others. */
  lemma RemovalShifts(ps: seq<Piece>, k: nat, uid: nat)
    requires Increasing(Uids(ps)) && k < |ps| && uid != ps[k].uid
    ensures var qs := ps[..k] + ps[k + 1..];
      && Increasing(Uids(qs))
      && (Lookup(ps, uid).None? <==> Lookup(qs, uid).None?)
      && (Lookup(ps, uid).Some? ==>
            var b := Lookup(ps, uid).value;
            Lookup(qs, uid) == Some(if uid > ps[k].uid then b.(seqno := b.seqno - 1) else b))
  {
    hide Lookup, SequenceNumbers.CountBelow;
    var qs := ps[..k] + ps[k + 1..];
    assert forall i :: 0 <= i < |qs| ==> qs[i] == ps[if i < k then i else i + 1];
    LookupExact(ps, uid);
    LookupExact(qs, uid);
    if i :| 0 <= i < |ps| && ps[i].uid == uid {
      assert qs[if i < k then i else i - 1].uid == uid;
    }
  }

  // Ranges of uids.

  lemma {:induction false} IntervalIsSlice(lo: nat, hi: nat, ps: seq<Piece>, a: nat, b: nat)
    requires a <= b <= |ps|
    requires forall i :: 0 <= i < |ps| ==> (lo <= ps[i].uid <= hi <==> a <= i < b)
    ensures Interval(lo, hi, ps) == ps[a..b]
    decreases |ps|
  {
    if ps != [] {
      var n := |ps| - 1;
      var a', b' := if a > n then n else a, if b > n then n else b;
      IntervalIsSlice(lo, hi, ps[..n], a', b');
      SliceLast(ps, a, b);
    }
  }

  lemma SliceLast(ps: seq<Piece>, a: nat, b: nat)
    requires a <= b <= |ps| && ps != []
    ensures var n := |ps| - 1;
      ps[a..b] == ps[..n][if a > n then n else a..if b > n then n else b] + if a <= n < b then [ps[n]] else []
  {
  }

  lemma IntervalSlice(lo: nat, hi: nat, ps: seq<Piece>) returns (a: nat, b: nat)
    requires Increasing(Uids(ps))
    ensures a <= b <= |ps| && Interval(lo, hi, ps) == ps[a..b]
    ensures forall i :: 0 <= i < |ps| ==> (lo <= ps[i].uid <= hi <==> a <= i < b)
    ensures a < b ==> a == CountBelow(Uids(ps), lo)
  {
    var u := Uids(ps);
    CountBelowSplits(u, lo);
    CountBelowSplits(u, hi + 1);
    a, b := CountBelow(u, lo), CountBelow(u, hi + 1);
    if a > b { a, b := 0, 0; }
    forall i | 0 <= i < |ps| ensures lo <= ps[i].uid <= hi <==> a <= i < b {
      assert u[i] == ps[i].uid;
    }
    IntervalIsSlice(lo, hi, ps, a, b);
  }

  /** b carries its own position in the list. */
  predicate Placed(ps: seq<Piece>, b: Bmail) {
    0 < b.seqno <= |ps| && ps[b.seqno - 1] == Piece(b.uid, b.letter)
  }

  lemma SlicePlaced(ps: seq<Piece>, a: nat, b: nat, first: nat)
    requires a <= b <= |ps| && (a < b ==> first == 1 + a)
    ensures var r := Numbered(ps[a..b], first);
      && (forall x :: x in r ==> Placed(ps, x) && a <= x.seqno - 1 < b)
      && (forall i :: a <= i < b ==> Bmail(ps[i].uid, i + 1, ps[i].letter) in r)
  {
    var r := Numbered(ps[a..b], first);
    forall i | a <= i < b ensures Bmail(ps[i].uid, i + 1, ps[i].letter) in r {
      assert ps[a..b][i - a] == ps[i];
      assert r[i - a] == Bmail(ps[i].uid, i + 1, ps[i].letter);
    }
  }

  /** Section 2.3.1.2 of RFC 3501: numbering the messages of an interval from the
      sequence number of its lower end gives exactly the mailbox's messages with
      those uids, each with its position in the uid list. */
  lemma IntervalNumbers(lo: nat, hi: nat, ps: seq<Piece>)
    requires Increasing(Uids(ps))
    ensures var r := Numbered(Interval(lo, hi, ps), 1 + CountBelow(Uids(ps), lo));
      && (forall x :: x in r ==> Placed(ps, x) && lo <= x.uid <= hi)
      && (forall i :: 0 <= i < |ps| && lo <= ps[i].uid <= hi ==> Bmail(ps[i].uid, i + 1, ps[i].letter) in r)
  {
    var a, b := IntervalSlice(lo, hi, ps);
    SlicePlaced(ps, a, b, 1 + CountBelow(Uids(ps), lo));
  }

  // Saving and deleting.

  /** saveBitmessage on the folder: a letter without a uid gets a new one, a
      letter with a uid replaces what is stored there. */
  function SaveIn(f: Folder, uid: nat, letter: Letter): (Folder, nat, Option<Error>) {
    var msg := Message(letter.content.encoding, Serialize(letter));
    if uid == 0 then (Folder(f.next + 1, f.messages[f.next := msg]), f.next, None)
    else if !ValidId(f, uid) then (f, uid, Some(InvalidID))
    else if uid !in f.messages then (f, uid, Some(NotFound))
    else (f.(messages := f.messages[uid := msg]), uid, None)
  }

  lemma SaveInKeeps(f: Folder, uid: nat, letter: Letter)
    requires Good(f) && Readable(f)
    ensures Good(SaveIn(f, uid, letter).0) && Readable(SaveIn(f, uid, letter).0)
  {
  }

  /** DeleteBitmessageByUID on the folder: only the mailbox's own messages. */
  function DeleteIn(sub: Filter, f: Folder, uid: nat): Folder {
    if Lookup(Pieces(sub, f), uid).Some? then f.(messages := f.messages - {uid}) else f
  }

  /** A uid is looked up with success exactly if the folder shows it. */
  lemma LookupShows(sub: Filter, f: Folder, uid: nat)
    requires Good(f)
    ensures Increasing(Uids(Pieces(sub, f)))
    ensures Lookup(Pieces(sub, f), uid).Some? <==> uid in f.messages && Shows(sub, f.messages[uid])
    ensures Lookup(Pieces(sub, f), uid).Some? ==>
      var b := Lookup(Pieces(sub, f), uid).value;
      Placed(Pieces(sub, f), b) && Piece(b.uid, b.letter) == PieceOf(uid, f.messages[uid])
  {
    hide PiecesUpto, Lookup;
    var ps := Pieces(sub, f);
    PiecesExact(sub, f.messages, f.next);
    LookupExact(ps, uid);
    if uid in f.messages && Shows(sub, f.messages[uid]) {
      var i :| 0 <= i < |ps| && ps[i] == PieceOf(uid, f.messages[uid]);
    }
    if Lookup(ps, uid).Some? {
      var i := Lookup(ps, uid).value.seqno - 1;
      assert ps[i] in ps;
    }
  }

  /** Replacing a shown message by a shown message keeps the uid list, the next
      uid and every other message, and changes the one as asked. */
  lemma SaveReplacesOnly(sub: Filter, f: Folder, uid: nat, letter: Letter)
    requires Good(f) && uid in f.messages && Shows(sub, f.messages[uid])
    requires Shows(sub, Message(letter.content.encoding, Serialize(letter)))
    ensures var (g, id, err) := SaveIn(f, uid, letter);
      && err.None? && id == uid && g.next == f.next
      && Uids(Pieces(sub, g)) == Uids(Pieces(sub, f))
      && (forall i :: 0 <= i < |Pieces(sub, f)| ==>
            Pieces(sub, g)[i].letter == if Pieces(sub, f)[i].uid == uid then letter else Pieces(sub, f)[i].letter)
      && (forall id :: id != uid ==>
            (id in g.messages <==> id in f.messages) && (id in f.messages ==> g.messages[id] == f.messages[id]))
  {
    var msg := Message(letter.content.encoding, Serialize(letter));
    var k := PiecesReplace(sub, f.messages, uid, msg, f.next);
    LookupShows(sub, f, uid);
    var ps := Pieces(sub, f);
    assert forall i :: 0 <= i < |ps| ==> Uids(ps)[i] == ps[i].uid;
  }
}
