/** Whole runs of folder operations: the database folder, reopened at any
    points, and the memory folder both answer as the plain map does, and ids are
    never handed out twice. */
module FolderRuns {
  import opened Base
  import opened BigEndian
  import opened Mail
  import opened FolderSpec
  import opened BoltStore
  import opened MemStore

  datatype Action = Do(op: Op) | Reopen

  function Act(f: Folder, a: Action): (Folder, Reply) {
    match a
    case Do(op) => Apply(f, op)
    case Reopen => (f, Done)
  }

  /** The answers of the plain map to a run; reopening it changes nothing. */
  function Run(f: Folder, acts: seq<Action>): (Folder, seq<Reply>) {
    if acts == [] then (f, [])
    else
      var n := |acts| - 1;
      var (g, replies) := Run(f, acts[..n]);
      var (h, r) := Act(g, acts[n]);
      (h, replies + [r])
  }

  predicate Issues(a: Action) {
    a.Do? && IssuesId(a.op)
  }

  /** How many ids a run asks for. */
  function Issued(acts: seq<Action>): nat {
    if acts == [] then 0
    else Issued(acts[..|acts| - 1]) + if Issues(acts[|acts| - 1]) then 1 else 0
  }

  lemma RunNext(f: Folder, acts: seq<Action>, i: nat)
    requires i < |acts|
    ensures var r := Run(f, acts[..i]); var s := Act(r.0, acts[i]);
      Run(f, acts[..i + 1]) == (s.0, r.1 + [s.1])
    ensures Issued(acts[..i + 1]) == Issued(acts[..i]) + if Issues(acts[i]) then 1 else 0
  {
    assert acts[..i + 1][..i] == acts[..i];
  }

  lemma {:induction false} RunGood(f: Folder, acts: seq<Action>, i: nat)
    requires Good(f) && i <= |acts|
    ensures var r := Run(f, acts[..i]);
      Good(r.0) && r.0.next == f.next + Issued(acts[..i]) && |r.1| == i
    decreases i
  {
    if i > 0 {
      RunGood(f, acts, i - 1);
      RunNext(f, acts, i - 1);
      if acts[i - 1].Do? { ApplyGood(Run(f, acts[..i - 1]).0, acts[i - 1].op); }
    }
  }

  lemma {:induction false} IssuedMonotone(acts: seq<Action>, i: nat, j: nat)
    requires i <= j <= |acts|
    ensures Issued(acts[..i]) <= Issued(acts[..j])
    decreases j
  {
    if i < j {
      IssuedMonotone(acts, i, j - 1);
      RunNext(EMPTY, acts, j - 1);
    }
  }

  lemma {:induction false} RunPrefix(f: Folder, acts: seq<Action>, i: nat, j: nat)
    requires Good(f) && i <= j <= |acts|
    ensures |Run(f, acts[..j]).1| == j && Run(f, acts[..j]).1[..i] == Run(f, acts[..i]).1
    decreases j
  {
    RunGood(f, acts, j);
    if i == j {
      RunGood(f, acts, i);
    } else {
      RunPrefix(f, acts, i, j - 1);
      RunNext(f, acts, j - 1);
    }
  }

  /** Section 2.3.1.1 of RFC 3501. In any run of inserts, deletes and
      reopenings, the request for a new id at position i is granted, with an id
      fixed by the number of requests before it; it never reports a duplicate. */
  lemma IdsInOrder(f: Folder, acts: seq<Action>, i: nat)
    requires Good(f) && i < |acts| && Issues(acts[i])
    ensures |Run(f, acts).1| == |acts|
    ensures Run(f, acts).1[i] == Inserted(f.next + Issued(acts[..i]))
  {
    assert acts[..|acts|] == acts;
    RunGood(f, acts, i);
    RunNext(f, acts, i);
    RunPrefix(f, acts, i + 1, |acts|);
    assert Run(f, acts).1[i] == Run(f, acts).1[..i + 1][i];
  }

  /** Ids strictly increase over a run, so none is used again after a delete. */
  lemma IdsIncrease(f: Folder, acts: seq<Action>, i: nat, j: nat)
    requires Good(f) && i < j < |acts| && Issues(acts[i]) && Issues(acts[j])
    ensures var replies := Run(f, acts).1;
      |replies| == |acts| && replies[i].Inserted? && replies[j].Inserted? && replies[i].id < replies[j].id
  {
    IdsInOrder(f, acts, i);
    IdsInOrder(f, acts, j);
    RunNext(f, acts, i);
    IssuedMonotone(acts, i + 1, j);
  }

  // The answers, in terms of the earlier operations and their answers alone.

  /** The message that an action brings. */
  predicate Brings(a: Action, m: Message) {
    && a.Do? && (a.op.InsertNew? || a.op.Insert?)
    && a.op.msg.Some? && m == Message(a.op.suffix, a.op.msg.value)
  }

  /** The action stored a message under the id, as its answer tells. */
  predicate Stores(a: Action, r: Reply, id: nat) {
    a.Do? && ((a.op.InsertNew? && r == Inserted(id)) || (a.op.Insert? && a.op.id == id && r == Done))
  }

  predicate Takes(a: Action, r: Reply, id: nat) {
    a.Do? && a.op.Delete? && a.op.id == id && r == Done
  }

  /** The id was given to a new message. */
  ghost predicate HandedOut(acts: seq<Action>, replies: seq<Reply>, id: nat) {
    exists i :: 0 <= i < |acts| && i < |replies| && acts[i].Do? && acts[i].op.InsertNew? && replies[i] == Inserted(id)
  }

  /** At i the message m was stored under the id, and from then on none was stored
      there and none taken away. */
  ghost predicate LastStored(acts: seq<Action>, replies: seq<Reply>, id: nat, i: int, m: Message) {
    && 0 <= i < |acts| == |replies| && Stores(acts[i], replies[i], id) && Brings(acts[i], m)
    && forall k :: i < k < |acts| ==> !Stores(acts[k], replies[k], id) && !Takes(acts[k], replies[k], id)
  }

  ghost predicate InUse(acts: seq<Action>, replies: seq<Reply>, id: nat) {
    exists i, m :: LastStored(acts, replies, id, i, m)
  }

  /** The right answer to the next action after `acts` were answered with `replies`. */
  ghost predicate Right(acts: seq<Action>, replies: seq<Reply>, a: Action, r: Reply) {
    if a.Reopen? then r == Done
    else match a.op
      case InsertNew(msg, _) =>
        && (r == Failed(NilMessage) <==> msg.None?)
        && (msg.Some? ==> r.Inserted? && r.id > 0 && forall id: nat :: HandedOut(acts, replies, id) ==> id < r.id)
      case Insert(id, msg, _) =>
        && (r == Failed(InvalidID) <==> !HandedOut(acts, replies, id))
        && (r == Failed(NilMessage) <==> HandedOut(acts, replies, id) && msg.None?)
        && (r == Failed(DuplicateID) <==> InUse(acts, replies, id) && msg.Some?)
        && (r == Done <==> HandedOut(acts, replies, id) && !InUse(acts, replies, id) && msg.Some?)
      case Get(id) =>
        && (r == Failed(NotFound) <==> !InUse(acts, replies, id))
        && (forall i, m :: LastStored(acts, replies, id, i, m) ==> r == Found(m.suffix, m.payload))
      case Delete(id) =>
        && (r == Failed(InvalidID) <==> !HandedOut(acts, replies, id))
        && (r == Failed(NotFound) <==> HandedOut(acts, replies, id) && !InUse(acts, replies, id))
        && (r == Done <==> InUse(acts, replies, id))
  }

  /** Every answer of a run is right. */
  ghost predicate AllRight(acts: seq<Action>, replies: seq<Reply>) {
    |replies| == |acts| && forall i :: 0 <= i < |acts| ==> Right(acts[..i], replies[..i], acts[i], replies[i])
  }

  /** What the folder holds is what the history says. */
  ghost predicate Tells(acts: seq<Action>, replies: seq<Reply>, f: Folder, id: nat) {
    && (HandedOut(acts, replies, id) <==> 0 < id < f.next)
    && (InUse(acts, replies, id) <==> id in f.messages)
    && (forall i, m :: LastStored(acts, replies, id, i, m) ==> id in f.messages && f.messages[id] == m)
  }

  lemma HandedOutNext(acts: seq<Action>, replies: seq<Reply>, a: Action, r: Reply, id: nat)
    requires |acts| == |replies|
    ensures HandedOut(acts + [a], replies + [r], id) <==>
      HandedOut(acts, replies, id) || (a.Do? && a.op.InsertNew? && r == Inserted(id))
  {
    var as1, rs := acts + [a], replies + [r];
    if i :| 0 <= i < |acts| && acts[i].Do? && acts[i].op.InsertNew? && replies[i] == Inserted(id) {
      assert as1[i] == acts[i] && rs[i] == replies[i];
    }
    assert as1[|acts|] == a && rs[|acts|] == r;
  }

  lemma LastStoredNext(acts: seq<Action>, replies: seq<Reply>, a: Action, r: Reply, id: nat, i: int, m: Message)
    requires |acts| == |replies|
    ensures LastStored(acts + [a], replies + [r], id, i, m) <==>
      if Stores(a, r, id) then i == |acts| && Brings(a, m) else LastStored(acts, replies, id, i, m) && !Takes(a, r, id)
  {
    hide Stores, Takes, Brings;
    var as1, rs := acts + [a], replies + [r];
    assert as1[|acts|] == a && rs[|acts|] == r;
    assert forall k :: 0 <= k < |acts| ==> as1[k] == acts[k] && rs[k] == replies[k];
  }

  lemma InUseNext(acts: seq<Action>, replies: seq<Reply>, a: Action, r: Reply, id: nat)
    requires |acts| == |replies|
    ensures InUse(acts + [a], replies + [r], id) <==>
      if Stores(a, r, id) then exists m :: Brings(a, m) else InUse(acts, replies, id) && !Takes(a, r, id)
  {
    hide Stores, Takes, Brings, LastStored;
    if Stores(a, r, id) {
      if m :| Brings(a, m) { LastStoredNext(acts, replies, a, r, id, |acts|, m); }
    } else {
      if i, m :| LastStored(acts, replies, id, i, m) { LastStoredNext(acts, replies, a, r, id, i, m); }
    }
    if i, m :| LastStored(acts + [a], replies + [r], id, i, m) { LastStoredNext(acts, replies, a, r, id, i, m); }
  }

  /** One action keeps the history and the folder in step. */
  lemma TellsNext(acts: seq<Action>, replies: seq<Reply>, f: Folder, a: Action, id: nat)
    requires |acts| == |replies| && Good(f) && Tells(acts, replies, f, id)
    ensures var (g, r) := Act(f, a);
      Tells(acts + [a], replies + [r], g, id)
  {
    hide HandedOut, InUse, LastStored;
    var (g, r) := Act(f, a);
    HandedOutNext(acts, replies, a, r, id);
    InUseNext(acts, replies, a, r, id);
    if Stores(a, r, id) { assert Brings(a, Message(a.op.suffix, a.op.msg.value)); }
    forall i, m | LastStored(acts + [a], replies + [r], id, i, m) ensures id in g.messages && g.messages[id] == m {
      LastStoredNext(acts, replies, a, r, id, i, m);
    }
  }

  lemma {:induction false} RunTells(acts: seq<Action>, i: nat, id: nat)
    requires i <= |acts|
    ensures var (f, replies) := Run(EMPTY, acts[..i]);
      Good(f) && |replies| == i && Tells(acts[..i], replies, f, id)
    decreases i
  {
    hide Tells, Run, Act;
    RunGood(EMPTY, acts, i);
    if i == 0 {
      NothingTells(acts, id);
    } else {
      RunTells(acts, i - 1, id);
      RunNext(EMPTY, acts, i - 1);
      var (f, replies) := Run(EMPTY, acts[..i - 1]);
      RunGood(EMPTY, acts, i - 1);
      TellsNext(acts[..i - 1], replies, f, acts[i - 1], id);
      assert acts[..i] == acts[..i - 1] + [acts[i - 1]];
    }
  }

  lemma NothingTells(acts: seq<Action>, id: nat)
    ensures Tells(acts[..0], Run(EMPTY, acts[..0]).1, Run(EMPTY, acts[..0]).0, id)
  {
  }

  lemma ActRight(acts: seq<Action>, replies: seq<Reply>, f: Folder, a: Action)
    requires |acts| == |replies| && Good(f) && forall id: nat :: Tells(acts, replies, f, id)
    ensures Right(acts, replies, a, Act(f, a).1)
  {
    hide HandedOut, InUse, LastStored;
    if a.Do? && !a.op.InsertNew? { assert Tells(acts, replies, f, a.op.id); }
    if a.Do? && a.op.InsertNew? {
      forall id: nat | HandedOut(acts, replies, id) ensures id < f.next { assert Tells(acts, replies, f, id); }
    }
  }

  /** In every run from a new folder, every answer is right: a duplicate is reported
      exactly for an id in use, an id not handed out is invalid, one handed out and
      not in use is not found, and a get returns what was stored there last. */
  lemma RepliesRight(acts: seq<Action>)
    ensures AllRight(acts, Run(EMPTY, acts).1)
  {
    hide Right, Run, Act, Tells;
    var replies := Run(EMPTY, acts).1;
    assert acts[..|acts|] == acts;
    RunGood(EMPTY, acts, |acts|);
    forall i | 0 <= i < |acts| ensures Right(acts[..i], replies[..i], acts[i], replies[i]) {
      var (f, before) := Run(EMPTY, acts[..i]);
      forall id: nat ensures Tells(acts[..i], before, f, id) { RunTells(acts, i, id); }
      RunGood(EMPTY, acts, i);
      ActRight(acts[..i], before, f, acts[i]);
      RunNext(EMPTY, acts, i);
      RunPrefix(EMPTY, acts, i, |acts|);
      RunPrefix(EMPTY, acts, i + 1, |acts|);
      assert replies[i] == replies[..i + 1][i];
    }
  }

  /** The database folder over a run that starts at f; after a reopening it is
      another object on the same file. */
  method ReplayBolt(f: BoltFolder, acts: seq<Action>) returns (g: BoltFolder, replies: seq<Reply>)
    requires f.Valid() && f.nextID + Issued(acts) < LIMIT
    modifies f
    ensures g.Valid() && (g == f || fresh(g)) && (g.Model(), replies) == Run(old(f.Model()), acts)
  {
    g, replies := f, [];
    ghost var start := f.Model();
    var i := 0;
    assert acts[..|acts|] == acts;
    while i < |acts|
      invariant i <= |acts|
      invariant g.Valid() && (g == f || fresh(g))
      invariant (g.Model(), replies) == Run(start, acts[..i])
    {
      RunGood(start, acts, i);
      RunNext(start, acts, i);
      IssuedMonotone(acts, i + 1, |acts|);
      var r := Done;
      if acts[i].Do? {
        r := PerformBolt(g, acts[i].op);
      } else {
        g := new BoltFolder.Open(g);
      }
      replies := replies + [r];
      i := i + 1;
    }
  }

  method PerformBolt(f: BoltFolder, op: Op) returns (r: Reply)
    requires f.Valid() && (IssuesId(op) ==> f.nextID + 1 < LIMIT)
    modifies f
    ensures f.Valid() && (f.Model(), r) == Apply(old(f.Model()), op)
  {
    match op {
      case InsertNew(msg, suffix) => r := f.InsertNewMessage(msg, suffix);
      case Insert(id, msg, suffix) => r := f.InsertMessage(id, msg, suffix);
      case Get(id) => r := f.GetMessage(id);
      case Delete(id) => r := f.DeleteMessage(id);
    }
  }

  /** The memory folder over the same run; there is nothing to reopen. */
  method ReplayMem(f: MemFolder, acts: seq<Action>) returns (replies: seq<Reply>)
    requires f.Valid() && f.nextIndex + Issued(acts) < LIMIT
    modifies f
    ensures f.Valid() && (f.Model(), replies) == Run(old(f.Model()), acts)
  {
    replies := [];
    ghost var start := f.Model();
    var i := 0;
    assert acts[..|acts|] == acts;
    while i < |acts|
      invariant i <= |acts|
      invariant f.Valid()
      invariant (f.Model(), replies) == Run(start, acts[..i])
    {
      RunGood(start, acts, i);
      RunNext(start, acts, i);
      IssuedMonotone(acts, i + 1, |acts|);
      var r := Done;
      if acts[i].Do? {
        r := PerformMem(f, acts[i].op);
      }
      replies := replies + [r];
      i := i + 1;
    }
  }

  method PerformMem(f: MemFolder, op: Op) returns (r: Reply)
    requires f.Valid() && (IssuesId(op) ==> f.nextIndex + 1 < LIMIT)
    modifies f
    ensures f.Valid() && (f.Model(), r) == Apply(old(f.Model()), op)
  {
    match op {
      case InsertNew(msg, suffix) => r := f.InsertNewMessage(msg, suffix);
      case Insert(id, msg, suffix) => r := f.InsertMessage(id, msg, suffix);
      case Get(id) => r := f.GetMessage(id);
      case Delete(id) => r := f.DeleteMessage(id);
    }
  }

  /** Two fresh folders of the two kinds give the same answers, the right ones, to
      every run that asks for fewer than 2^64 - 1 ids. */
  method SameAnswers(acts: seq<Action>) returns (bolt: seq<Reply>, mem: seq<Reply>)
    requires 1 + Issued(acts) < LIMIT
    ensures bolt == mem == Run(EMPTY, acts).1 && AllRight(acts, bolt)
  {
    hide AllRight;
    var f := new BoltFolder.Create();
    var g, a := ReplayBolt(f, acts);
    var h := new MemFolder();
    var b := ReplayMem(h, acts);
    RepliesRight(acts);
    return a, b;
  }

  /** Without that bound ids repeat: after the last 64-bit id the database
      folder goes back to 0. */
  method WrapAround(f: BoltFolder, a: Payload) returns (r: Reply)
    requires f.Valid() && f.nextID == LIMIT - 1
    modifies f
    ensures r == Inserted(LIMIT - 1) && f.nextID == 0 && !f.Valid()
  {
    r := f.InsertNewMessage(Some(a), 2);
  }
}
