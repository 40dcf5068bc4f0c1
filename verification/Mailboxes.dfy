/** The IMAP mailbox (user/mailbox.go): a cached uid list and counters over a
    folder in the database. */
module Mailboxes {
  import opened Base
  import opened Mail
  import opened FolderSpec
  import opened BoltStore
  import opened SequenceNumbers
  import opened MailboxSpec
  import opened MailboxWalks
  import opened MailboxFetch
  import FolderKeys

  class Mailbox {
    const mbox: BoltFolder
    const sub: Filter

    /** How the search for a sequence number probes, and the uids it is safe for. */
    const probe: Probe
    ghost const bound: nat

    var uids: seq<nat>
    var numRecent: nat
    var numUnseen: nat
    var nextUID: nat

    ghost function Model(): Folder
      reads mbox
    {
      mbox.Model()
    }

    ghost function Contents(): seq<Piece>
      reads mbox
    {
      Pieces(sub, Model())
    }

    /** The probe is safe for the uids below the bound, which are 32-bit uids. */
    ghost predicate Searches() {
      bound <= LIMIT32 && SafeProbe(probe, bound)
    }

    /** The folder is in order, its ids are below the bound, and all that the
        mailbox has to read can be read. */
    ghost predicate Sound()
      reads mbox
    {
      mbox.Valid() && Searches() && mbox.nextID < bound && Readable(Model())
    }

    /** What is cached is what a refresh would compute. */
    ghost predicate Current()
      reads this, mbox
    {
      && uids == Uids(Contents())
      && numRecent == Recents(Contents())
      && numUnseen == Unseens(Contents())
      && nextUID == mbox.nextID
    }

    ghost predicate Valid()
      reads this, mbox
    {
      Sound() && Current()
    }

    constructor (folder: BoltFolder, filter: Filter, probe: Probe, ghost bound: nat)
      ensures mbox == folder && sub == filter && this.probe == probe && this.bound == bound
    {
      mbox, sub, this.probe, this.bound := folder, filter, probe, bound;
      uids, numRecent, numUnseen, nextUID := [], 0, 0, 0;
    }

    /** Succeeds exactly if every message with suffix 2 can be decoded; a failed
        refresh leaves the uid list as it was. */
    method Refresh() returns (err: Option<Error>)
      requires mbox.Valid() && mbox.nextID < LIMIT32
      modifies this
      ensures err.None? <==> Readable(Model())
      ensures err.None? ==> Current()
      ensures err.Some? ==> uids == old(uids) && nextUID == mbox.nextID
      ensures var s := Fold(RefreshFn(sub), Stats([], 0, 0), RefreshInput(Model())).0;
        numRecent == s.recent && numUnseen == s.unseen
    {
      hide FolderKeys.Holds, SequenceNumbers.SafeProbe, FolderSpec.Fold, FolderSpec.Select;
      hide MailboxSpec.PiecesUpto, MailboxSpec.Recents, MailboxSpec.Unseens;
      nextUID := Truncate32(mbox.nextID);
      var s: Stats;
      s, err := mbox.ForEachMessage(0, 0, 2, Stats([], 0, 0), RefreshFn(sub));
      RefreshOutcome(sub, Model());
      numRecent, numUnseen := s.recent, s.unseen;
      if err.Some? {
        return;
      }
      uids := s.uids;
      assert [] + Uids(Contents()) == Uids(Contents());
    }

    /** newMailbox: fails if the first refresh does. */
    static method NewMailbox(folder: BoltFolder, filter: Filter, probe: Probe, ghost bound: nat)
      returns (box: Mailbox, err: Option<Error>)
      requires folder.Valid() && folder.nextID < bound <= LIMIT32 && SafeProbe(probe, bound)
      ensures fresh(box) && box.mbox == folder && box.sub == filter && box.probe == probe && box.bound == bound
      ensures err.None? <==> Readable(folder.Model())
      ensures err.None? ==> box.Valid()
    {
      hide FolderKeys.Holds, SequenceNumbers.SafeProbe;
      box := new Mailbox(folder, filter, probe, bound);
      err := box.Refresh();
    }

    lemma Facts()
      requires Valid()
      ensures Good(Model()) && Increasing(uids) && |uids| + 1 < LIMIT32 && |uids| == |Contents()|
      ensures mbox.Valid() && Readable(Model()) && 0 < mbox.nextID < bound <= LIMIT32
      ensures forall i :: 0 <= i < |uids| ==> 0 < uids[i] < mbox.nextID
    {
      hide FolderKeys.Holds, SequenceNumbers.SafeProbe;
      var f := Model();
      PiecesExact(sub, f.messages, f.next);
      PiecesCount(sub, f.messages, f.next);
      forall i | 0 <= i < |uids| ensures 0 < uids[i] < mbox.nextID {
        assert Contents()[i] in Contents();
      }
    }

    method SequenceNumber(uid: nat) returns (n: nat)
      requires Valid()
      ensures n == 1 + CountBelow(uids, uid)
    {
      hide FolderKeys.Holds;
      Facts();
      n := GetSequenceNumber(uids, uid, probe);
    }

    method BmsgByUID(uid: U64) returns (r: Option<Bmail>)
      requires Valid()
      ensures r == Lookup(Contents(), uid)
    {
      hide FolderKeys.Holds, SequenceNumbers.SafeProbe;
      var seqno := SequenceNumber(uid);
      if seqno > |uids| || uids[seqno - 1] != uid {
        return None;
      }
      LookupShows(sub, Model(), uid);
      var got := mbox.GetMessage(uid);
      if got.Failed? {
        return None;
      }
      if got.suffix != 2 {
        return None;
      }
      var letter := DecodeLetter(got.payload);
      if letter.None? {
        return None;
      }
      r := Some(Bmail(uid, seqno, letter.value));
    }

    method BitmessageBySequenceNumber(seqno: nat) returns (r: Option<Bmail>)
      requires Valid()
      ensures r == if 1 <= seqno <= |Contents()| then
          Some(Bmail(Contents()[seqno - 1].uid, seqno, Contents()[seqno - 1].letter)) else None
    {
      hide FolderKeys.Holds, SequenceNumbers.SafeProbe;
      Facts();
      if seqno < 1 || seqno > |uids| {
        return None;
      }
      LookupExact(Contents(), uids[seqno - 1]);
      r := BmsgByUID(uids[seqno - 1]);
    }

    method LastBitmessage() returns (r: Option<Bmail>)
      requires Valid()
      ensures r == if Contents() == [] then None else
          var p := Contents()[|Contents()| - 1]; Some(Bmail(p.uid, |Contents()|, p.letter))
    {
      hide FolderKeys.Holds, SequenceNumbers.SafeProbe;
      Facts();
      if |uids| == 0 {
        return None;
      }
      LookupExact(Contents(), uids[|uids| - 1]);
      r := BmsgByUID(uids[|uids| - 1]);
    }

    /** getRange; the sequence numbers are taken on trust from `first`. */
    method GetRange(startUID: U64, endUID: U64, first: nat) returns (r: seq<Bmail>)
      requires Valid()
      ensures r == Numbered(Interval(startUID, if endUID == 0 then mbox.nextID else endUID, Contents()), first)
    {
      hide FolderKeys.Holds, SequenceNumbers.SafeProbe;
      var s, err := mbox.ForEachMessage(startUID, endUID, 2, Fetch(0, []), RangeFn(sub, first));
      if endUID != 0 && startUID > endUID {
        IntervalEmpty(startUID, endUID, Contents());
        return [];
      }
      RangeOutcome(sub, Model(), startUID, endUID, first);
      if err.Some? {
        return [];
      }
      r := s.got;
    }

    method BitmessagesByUIDRange(start: U64, end: U64) returns (r: seq<Bmail>)
      requires Valid()
      ensures r == UIDRange(Contents(), start, end)
    {
      hide FolderKeys.Holds, SequenceNumbers.SafeProbe, MailboxSpec.PiecesUpto, MailboxSpec.Interval;
      var startSequence := SequenceNumber(start);
      var endSequence := SequenceNumber(end);
      RangeAnswer(sub, Model(), start, end);
      if startSequence > endSequence {
        return [];
      }
      r := GetRange(start, end, startSequence);
    }

    method BitmessagesSinceUID(start: U64) returns (r: seq<Bmail>)
      requires Valid() && Contents() != [] // on an empty mailbox the code indexes out of range
      ensures r == SinceUID(Contents(), start)
    {
      hide FolderKeys.Holds, SequenceNumbers.SafeProbe;
      Facts();
      var startSequence := SequenceNumber(start);
      r := GetRange(start, uids[|uids| - 1], startSequence);
    }

    method BitmessagesBySequenceRange(start: nat, end: nat) returns (r: seq<Bmail>)
      requires Valid()
      ensures r == if 1 <= start <= end <= |Contents()| then Numbered(Contents()[start - 1..end], start) else []
    {
      hide FolderKeys.Holds, SequenceNumbers.SafeProbe, MailboxSpec.PiecesUpto, MailboxSpec.Interval;
      Facts();
      if start < 1 || start > |uids| || end < 1 || end > |uids| || end < start {
        return [];
      }
      var startUID, endUID := uids[start - 1], uids[end - 1];
      IntervalIsSlice(startUID, endUID, Contents(), start - 1, end);
      r := GetRange(startUID, endUID, start);
    }

    method BitmessageSetByUID(ranges: seq<Range>) returns (msgs: seq<Option<Bmail>>)
      requires Valid()
      ensures msgs == SetByUID(Contents(), ranges)
      ensures Contents() == [] ==> msgs == []
      ensures Contents() != [] ==> forall x :: multiset(msgs)[x] == Hits(Contents(), ranges, x, |ranges|)
    {
      hide FolderKeys.Holds, SequenceNumbers.SafeProbe, MailboxSpec.PiecesUpto, MailboxFetch.Hits;
      Facts();
      if Contents() != [] {
        forall x ensures multiset(SetByUID(Contents(), ranges))[x] == Hits(Contents(), ranges, x, |ranges|) {
          SetCounts(Contents(), ranges, x);
        }
      }
      msgs := [];
      if |uids| == 0 {
        return;
      }
      var i := 0;
      assert ranges[0..] == ranges;
      while i < |ranges|
        invariant i <= |ranges|
        invariant SetByUID(Contents(), ranges) == msgs + SetByUID(Contents(), ranges[i..])
      {
        assert ranges[i..][0] == ranges[i] && ranges[i..][1..] == ranges[i + 1..];
        if !WellFormed(ranges[i]) {
          return;
        }
        var more := FetchRange(ranges[i]);
        msgs := msgs + more;
        i := i + 1;
      }
    }

    /** The body of the loop over a message set, for a range that is well formed. */
    method FetchRange(range: Range) returns (msgs: seq<Option<Bmail>>)
      requires Valid() && Contents() != [] && WellFormed(range)
      ensures msgs == Contribution(Contents(), range)
    {
      hide FolderKeys.Holds, SequenceNumbers.SafeProbe;
      if range.min.Star? {
        var b := LastBitmessage();
        return [b];
      }
      var start := range.min.n;
      if range.max.Absent? {
        var b := BmsgByUID(start);
        return [b];
      }
      var bs;
      if range.max.Star? {
        bs := BitmessagesSinceUID(start);
      } else {
        bs := BitmessagesByUIDRange(start, range.max.n);
      }
      msgs := Somes(bs);
    }

    /** The single-number case of bitmessageSetBySequenceNumber. */
    method FetchBySequenceNumber(n: nat) returns (r: Option<Bmail>)
      requires Valid() && 1 <= n <= |Contents()|
      ensures r == FetchSequenceNumber(Contents(), n)
    {
      hide FolderKeys.Holds, SequenceNumbers.SafeProbe, MailboxSpec.PiecesUpto, MailboxSpec.Lookup;
      hide MailboxSpec.Recents, MailboxSpec.Unseens, MailboxSpec.Readable;
      Facts();
      var start := Truncate32(uids[n - 1]);
      r := BitmessageBySequenceNumber(start);
    }

    /** saveBitmessage. When the letter has a uid, the delete, the check that it
        is gone and the insert at the same uid cannot fail part-way. */
    method SaveBitmessage(uid: U64, letter: Letter) returns (id: nat, err: Option<Error>)
      requires Valid() && (uid == 0 ==> mbox.nextID + 1 < bound)
      modifies this, mbox
      ensures Valid() && (Model(), id, err) == SaveIn(old(Model()), uid, letter)
      ensures err == Some(InvalidID) <==> old(mbox.nextID) <= uid
      ensures err == Some(NotFound) <==> 0 < uid < old(mbox.nextID) && uid !in old(Model()).messages
      ensures err.None? <==> uid == 0 || uid in old(Model()).messages
      ensures id == if uid == 0 then old(mbox.nextID) else uid
      ensures mbox.nextID == old(mbox.nextID) + if uid == 0 then 1 else 0
      ensures Model().messages == if err.Some? then old(Model()).messages else
          old(Model()).messages[id := Message(letter.content.encoding, Encoded(letter))]
    {
      hide FolderKeys.Holds, SequenceNumbers.SafeProbe;
      id, err := uid, None;
      var suffix := letter.content.encoding;
      SaveInKeeps(Model(), uid, letter);
      if uid == 0 {
        var r := mbox.InsertNewMessage(Some(Serialize(letter)), suffix);
        id := r.id;
      } else {
        var r := mbox.DeleteMessage(uid);
        err := ErrorOf(r);
        if err.Some? {
          return;
        }
        r := mbox.GetMessage(uid);
        if r.Found? {
          err := Some(UnableToSave);
          return;
        }
        // The outcome of this insert is not looked at.
        r := mbox.InsertMessage(uid, Some(Serialize(letter)), suffix);
        assert Model().messages == old(Model()).messages[uid := Message(suffix, Serialize(letter))];
      }
      err := Refresh();
    }

    /** addNew; the outcome of the save is not looked at. */
    method AddNew(letter: Letter, flags: set<Flag>, now: nat) returns (uid: nat)
      requires Valid() && mbox.nextID + 1 < bound
      modifies this, mbox
      ensures Valid() && uid == old(mbox.nextID)
      ensures Model() == SaveIn(old(Model()), 0, letter.(flags := flags, timeReceived := now)).0
    {
      var id, _ := SaveBitmessage(0, letter.(flags := flags, timeReceived := now));
      uid := id;
    }

    /** Save: the message is made again from the e-mail, which may not be one.
        Replacing a message keeps its uid, its date and its state. */
    method Save(uid: U64, email: Option<Email>, flags: set<Flag>, date: nat) returns (err: Option<Error>)
      requires Valid() && (uid == 0 ==> mbox.nextID + 1 < bound)
      modifies this, mbox
      ensures Valid()
      ensures email.None? ==> err == Some(NotAnEmail) && Model() == old(Model())
      ensures email.Some? ==>
        var letter := FromEmail(email.value).(flags := flags, timeReceived := date);
        if uid == 0 then err.None? && Model() == SaveIn(old(Model()), 0, letter).0
        else match old(Lookup(Contents(), uid))
          case None => err == Some(InvalidSequenceNumber) && Model() == old(Model())
          case Some(b) =>
            if b.letter.timeReceived != date then err == Some(DateChanged) && Model() == old(Model())
            else err.None? && Model() == SaveIn(old(Model()), uid, letter.(state := b.letter.state)).0
    {
      hide FolderKeys.Holds, SequenceNumbers.SafeProbe;
      if email.None? {
        return Some(NotAnEmail);
      }
      var letter := FromEmail(email.value).(flags := flags, timeReceived := date);
      if uid != 0 {
        LookupShows(sub, Model(), uid);
        var previous := BmsgByUID(uid);
        if previous.None? {
          return Some(InvalidSequenceNumber);
        }
        if previous.value.letter.timeReceived != date {
          return Some(DateChanged);
        }
        letter := letter.(state := previous.value.letter.state);
      }
      var id;
      id, err := SaveBitmessage(uid, letter);
    }

    /** The counters are lowered and the uid is cut out of the list, which leaves
        what a refresh would compute. */
    method DeleteBitmessageByUID(uid: U64) returns (err: Option<Error>)
      requires Valid()
      modifies this, mbox
      ensures Valid() && err.None? && Model() == DeleteIn(sub, old(Model()), uid)
      ensures mbox.nextID == old(mbox.nextID)
      ensures Model().messages ==
        if uid in old(Model()).messages && Shows(sub, old(Model()).messages[uid]) then old(Model()).messages - {uid}
        else old(Model()).messages
    {
      hide FolderKeys.Holds, SequenceNumbers.SafeProbe, MailboxSpec.Lookup, MailboxSpec.PiecesUpto;
      hide MailboxSpec.Recents, MailboxSpec.Unseens;
      Facts();
      LookupShows(sub, Model(), uid);
      var b := BmsgByUID(uid);
      if b.None? {
        return None;
      }
      ghost var f := Model();
      ghost var k := DeleteEffect(sub, f, uid);
      assert ValidId(f, uid);
      var r := mbox.DeleteMessage(uid);
      assert r.Done? && Model() == f.(messages := f.messages - {uid});
      err := ErrorOf(r);
      if err.Some? {
        return;
      }
      if Recent in b.value.letter.flags {
        numRecent := Dec32(numRecent);
      }
      if Seen !in b.value.letter.flags {
        numUnseen := Dec32(numUnseen);
      }
      uids := CutUid(uids, uid);
    }

    /** Section 6.4.3 of RFC 3501: removes exactly the messages flagged deleted,
        and returns those among them that convert to e-mail, in ascending order
        of uid and with the sequence numbers they had. */
    method DeleteFlaggedMessages() returns (msgs: seq<Bmail>, err: Option<Error>)
      requires Valid()
      modifies this, mbox
      ensures Valid() && err.None?
      ensures Model() == RemoveAll(old(Model()), old(Doomed(Contents())))
      ensures msgs == Convertible(old(Doomed(Contents())))
      ensures forall i, j :: 0 <= i < j < |msgs| ==> msgs[i].uid < msgs[j].uid
      ensures forall b :: b in msgs <==>
        Placed(old(Contents()), b) && Deleted in b.letter.flags && ConvertsToEmail(b.letter)
    {
      hide FolderKeys.Holds, SequenceNumbers.SafeProbe, MailboxSpec.PiecesUpto;
      hide MailboxSpec.Recents, MailboxSpec.Unseens, MailboxSpec.DeleteIn, Doomed;
      var doomed := GatherDoomed();
      ghost var f := Model();
      GatheredUids(sub, f);
      msgs, err := [], None;
      var i := 0;
      while i < |doomed|
        invariant i <= |doomed| && doomed == Doomed(Pieces(sub, f))
        invariant Valid() && err.None?
        invariant Model() == RemoveAll(f, doomed[..i]) && msgs == Convertible(doomed[..i])
      {
        hide FolderKeys.Holds, SequenceNumbers.SafeProbe, MailboxSpec.PiecesUpto;
        hide MailboxSpec.Recents, MailboxSpec.Unseens, MailboxSpec.DeleteIn, Doomed, Convertible;
        var b := doomed[i];
        if ConvertsToEmail(b.letter) {
          msgs := msgs + [b];
        }
        ConvertibleNext(doomed, i);
        RemoveNext(sub, f, doomed, i);
        err := DeleteBitmessageByUID(b.uid);
        i := i + 1;
      }
      assert doomed[..i] == doomed;
      ReturnedExact(Pieces(sub, f));
    }

    method GatherDoomed() returns (doomed: seq<Bmail>)
      requires Valid()
      ensures doomed == Doomed(Contents())
    {
      hide FolderKeys.Holds, SequenceNumbers.SafeProbe, MailboxSpec.PiecesUpto, MailboxSpec.Lookup;
      hide MailboxSpec.Recents, MailboxSpec.Unseens;
      Facts();
      doomed := [];
      var i := 0;
      while i < |uids|
        invariant i <= |uids| && doomed == Doomed(Contents()[..i])
      {
        var ps := Contents();
        LookupExact(ps, uids[i]);
        var b := BmsgByUID(uids[i]);
        assert ps[..i + 1][..i] == ps[..i];
        if b.Some? && Deleted in b.value.letter.flags {
          doomed := doomed + [b.value];
        }
        i := i + 1;
      }
      assert Contents()[..i] == Contents();
    }
  }

  /** The messages flagged deleted, with their sequence numbers. */
  function Doomed(ps: seq<Piece>): seq<Bmail> {
    if ps == [] then []
    else
      var p := ps[|ps| - 1];
      Doomed(ps[..|ps| - 1]) + if Deleted in p.letter.flags then [Bmail(p.uid, |ps|, p.letter)] else []
  }

  function Convertible(bs: seq<Bmail>): seq<Bmail> {
    if bs == [] then []
    else Convertible(bs[..|bs| - 1]) + if ConvertsToEmail(bs[|bs| - 1].letter) then [bs[|bs| - 1]] else []
  }

  /** The folder without the messages of a list. */
  function RemoveAll(f: Folder, bs: seq<Bmail>): Folder {
    f.(messages := f.messages - (set b | b in bs :: b.uid))
  }

  /** The doomed messages are those of the mailbox that carry the flag, once
      each, in ascending order of uid. */
  lemma {:induction false} DoomedExact(ps: seq<Piece>)
    requires Increasing(Uids(ps))
    ensures forall b :: b in Doomed(ps) ==> Placed(ps, b) && Deleted in b.letter.flags
    ensures forall i :: 0 <= i < |ps| && Deleted in ps[i].letter.flags ==>
      Bmail(ps[i].uid, i + 1, ps[i].letter) in Doomed(ps)
    ensures forall i, j :: 0 <= i < j < |Doomed(ps)| ==>
      Doomed(ps)[i].seqno < Doomed(ps)[j].seqno && Doomed(ps)[i].uid < Doomed(ps)[j].uid
  {
    if ps != [] {
      var n := |ps| - 1;
      var front := ps[..n];
      assert Uids(front) == Uids(ps)[..n];
      DoomedExact(front);
      forall b | b in Doomed(front) ensures Placed(ps, b) && b.seqno <= n && b.uid < ps[n].uid {
        assert Placed(front, b);
        assert Uids(ps)[b.seqno - 1] < Uids(ps)[n];
      }
    }
  }

  lemma {:induction false} ConvertibleExact(bs: seq<Bmail>, b: Bmail)
    ensures b in Convertible(bs) <==> b in bs && ConvertsToEmail(b.letter)
  {
    if bs != [] {
      ConvertibleExact(bs[..|bs| - 1], b);
      assert bs == bs[..|bs| - 1] + [bs[|bs| - 1]];
    }
  }

  lemma ConvertibleNext(bs: seq<Bmail>, i: nat)
    requires i < |bs|
    ensures Convertible(bs[..i + 1]) == Convertible(bs[..i]) + if ConvertsToEmail(bs[i].letter) then [bs[i]] else []
  {
    assert bs[..i + 1][..i] == bs[..i];
  }

  ghost predicate AscendingUids(bs: seq<Bmail>) {
    forall i, j :: 0 <= i < j < |bs| ==> bs[i].uid < bs[j].uid
  }

  lemma {:induction false} ConvertibleAscends(bs: seq<Bmail>)
    requires AscendingUids(bs)
    ensures AscendingUids(Convertible(bs))
  {
    if bs != [] {
      var n := |bs| - 1;
      var front := Convertible(bs[..n]);
      ConvertibleAscends(bs[..n]);
      forall i | 0 <= i < |front| ensures front[i].uid < bs[n].uid {
        ConvertibleExact(bs[..n], front[i]);
        var k :| 0 <= k < n && bs[k] == front[i];
      }
    }
  }

  /** What DeleteFlaggedMessages returns: exactly the messages flagged deleted that
      convert to e-mail, in ascending order of uid. */
  lemma ReturnedExact(ps: seq<Piece>)
    requires Increasing(Uids(ps))
    ensures AscendingUids(Convertible(Doomed(ps)))
    ensures forall b :: b in Convertible(Doomed(ps)) <==>
      Placed(ps, b) && Deleted in b.letter.flags && ConvertsToEmail(b.letter)
  {
    hide Doomed, Convertible;
    DoomedExact(ps);
    ConvertibleAscends(Doomed(ps));
    forall b: Bmail ensures b in Convertible(Doomed(ps)) <==>
      Placed(ps, b) && Deleted in b.letter.flags && ConvertsToEmail(b.letter)
    {
      ConvertibleExact(Doomed(ps), b);
      if Placed(ps, b) {
        var i := b.seqno - 1;
        assert b == Bmail(ps[i].uid, i + 1, ps[i].letter);
      }
    }
  }

  lemma GatheredUids(sub: Filter, f: Folder)
    requires Good(f)
    ensures Increasing(Uids(Pieces(sub, f)))
  {
    PiecesExact(sub, f.messages, f.next);
  }

  /** Deleting the next doomed message from what is left deletes it for good:
      it is still shown, since uids do not repeat. */
  lemma RemoveNext(sub: Filter, f: Folder, doomed: seq<Bmail>, i: nat)
    requires Good(f) && doomed == Doomed(Pieces(sub, f)) && i < |doomed|
    ensures doomed[i].uid < f.next
    ensures DeleteIn(sub, RemoveAll(f, doomed[..i]), doomed[i].uid) == RemoveAll(f, doomed[..i + 1])
  {
    hide MailboxSpec.PiecesUpto, MailboxSpec.Lookup, Doomed;
    var ps, b := Pieces(sub, f), doomed[i];
    GatheredUids(sub, f);
    DoomedExact(ps);
    assert b in doomed;
    LookupExact(ps, b.uid);
    LookupShows(sub, f, b.uid);
    var g := RemoveAll(f, doomed[..i]);
    assert b.uid in g.messages;
    assert Good(g);
    LookupShows(sub, g, b.uid);
    assert doomed[..i + 1] == doomed[..i] + [b];
    assert (set x | x in doomed[..i + 1] :: x.uid) == (set x | x in doomed[..i] :: x.uid) + {b.uid};
    assert g.messages - {b.uid} == f.messages - (set x | x in doomed[..i + 1] :: x.uid);
  }

  /** The loop that takes a uid out of the list. */
  method CutUid(uids: seq<nat>, uid: nat) returns (r: seq<nat>)
    ensures uid !in uids ==> r == uids
    ensures forall k :: 0 <= k < |uids| && uids[k] == uid && uid !in uids[..k] ==> r == uids[..k] + uids[k + 1..]
  {
    var i := 0;
    while i < |uids|
      invariant i <= |uids| && uid !in uids[..i]
    {
      if uids[i] == uid {
        return uids[..i] + uids[i + 1..];
      }
      i := i + 1;
    }
    r := uids;
  }

  /** After the removal exactly the messages of the mailbox without the flag, and
      those that are not the mailbox's, are left, all as they were. */
  lemma ExpungeExact(sub: Filter, f: Folder)
    requires Good(f)
    ensures var g := RemoveAll(f, Doomed(Pieces(sub, f)));
      && g.next == f.next
      && (forall id :: id in g.messages <==>
            id in f.messages && !(Shows(sub, f.messages[id]) && Deleted in PieceOf(id, f.messages[id]).letter.flags))
      && (forall id :: id in g.messages ==> g.messages[id] == f.messages[id])
  {
    var ps := Pieces(sub, f);
    GatheredUids(sub, f);
    DoomedExact(ps);
    PiecesExact(sub, f.messages, f.next);
    forall id | id in f.messages && Shows(sub, f.messages[id]) && Deleted in PieceOf(id, f.messages[id]).letter.flags
      ensures exists b :: b in Doomed(ps) && b.uid == id
    {
      var i :| 0 <= i < |ps| && ps[i] == PieceOf(id, f.messages[id]);
      assert Bmail(id, i + 1, ps[i].letter) in Doomed(ps);
    }
    forall b | b in Doomed(ps)
      ensures b.uid in f.messages && Shows(sub, f.messages[b.uid])
      ensures Deleted in PieceOf(b.uid, f.messages[b.uid]).letter.flags
    {
      assert ps[b.seqno - 1] in ps;
    }
  }

  /** What deleting message uid does to the list and to the counters, which are
      not zero when they have to be lowered. */
  lemma DeleteEffect(sub: Filter, f: Folder, uid: nat) returns (k: nat)
    requires Good(f) && Readable(f) && Lookup(Pieces(sub, f), uid).Some?
    ensures var g := f.(messages := f.messages - {uid});
      var ps, qs := Pieces(sub, f), Pieces(sub, g);
      && Good(g) && Readable(g)
      && k < |ps| && ps[k].uid == uid && Lookup(ps, uid) == Some(Bmail(uid, k + 1, ps[k].letter))
      && uid !in Uids(ps)[..k]
      && qs == ps[..k] + ps[k + 1..]
      && Uids(qs) == Uids(ps)[..k] + Uids(ps)[k + 1..]
      && Recents(ps) == Recents(qs) + (if Recent in ps[k].letter.flags then 1 else 0)
      && Unseens(ps) == Unseens(qs) + (if Seen in ps[k].letter.flags then 0 else 1)
  {
    LookupShows(sub, f, uid);
    k := PiecesDelete(sub, f.messages, uid, f.next);
    var ps := Pieces(sub, f);
    LookupExact(ps, uid);
    CutCounts(ps, k);
    CutUids(ps, k);
  }

  lemma CutCounts(ps: seq<Piece>, k: nat)
    requires k < |ps|
    ensures var qs := ps[..k] + ps[k + 1..];
      && Recents(ps) == Recents(qs) + (if Recent in ps[k].letter.flags then 1 else 0)
      && Unseens(ps) == Unseens(qs) + (if Seen in ps[k].letter.flags then 0 else 1)
  {
    CountsConcat(ps[..k], ps[k + 1..]);
    var tail := [ps[k]] + ps[k + 1..];
    CountsConcat([ps[k]], ps[k + 1..]);
    CountsSingle(ps[k]);
    assert ps == ps[..k] + tail;
    CountsConcat(ps[..k], tail);
  }

  lemma CutUids(ps: seq<Piece>, k: nat)
    requires k < |ps|
    ensures Uids(ps[..k] + ps[k + 1..]) == Uids(ps)[..k] + Uids(ps)[k + 1..]
  {
  }

  lemma CountsSingle(p: Piece)
    ensures Recents([p]) == if Recent in p.letter.flags then 1 else 0
    ensures Unseens([p]) == if Seen in p.letter.flags then 0 else 1
  {
    assert [p][..0] == [];
  }
}
