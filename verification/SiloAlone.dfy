/** Obstruction freedom: a worker that is left alone, with no lock in its way, commits its transaction. */
module SiloAlone {
  import opened SiloTid
  import opened SiloMachine
  import opened SiloLocks
  import opened SiloEpoch
  import opened SiloLog
  import opened SiloTheorems
  import opened SiloProgram
  import opened SiloChoice
  import opened SiloProgress

  /** No other worker has a lock. */
  ghost predicate Unhindered(s: State, w: nat) {
    forall v, k: nat | 0 <= v < |s.ws| && v != w :: !Holds(s.ws[v], k)
  }

  lemma FreeRecord(s: State, w: nat, k: nat)
    requires Locks(s) && w < |s.ws| && k < |s.recs| && Unhindered(s, w)
    ensures s.recs[k].word.lock <==> Holds(s.ws[w], k)
  {
    OthersHold(s, w, k);
  }

  // ---- how many steps are left ----

  /** More than one operation and all that it adds to the commit. */
  const PER_OP: nat := VALUE_SIZE + 8

  /** The word in hand is the record's, and not locked. */
  ghost predicate Good(s: State, k: nat, expected: TidWord) {
    !expected.lock && expected == Load(s, k)
  }

  /** Steps from the first operation, or from the next one, to the end of the transaction. */
  function FromExec(u: Worker, left: nat): nat {
    left * PER_OP + 7 + |u.readSet| + |u.writeSet| * (VALUE_SIZE + 6)
  }

  /** Steps from the lock point. */
  function FromEpochLoad(u: Worker): nat {
    5 + |u.readSet| + |u.writeSet| * (VALUE_SIZE + 3)
  }

  function Minus(a: nat, b: nat): nat {
    if a < b then 0 else a - b
  }

  ghost function ReadSteps(s: State, k: nat, expected: TidWord, buf: Bytes): nat {
    if Good(s, k, expected) then Minus(VALUE_SIZE, |buf|) + 1
    else if expected.lock then VALUE_SIZE + 2
    else Minus(VALUE_SIZE, |buf|) + VALUE_SIZE + 2
  }

  function FromStart(u: Worker): nat {
    |u.prog| * PER_OP + 8
  }

  /** A bound on the steps that worker u needs, alone, to commit or to give up; from RETRY on it cannot give up. */
  ghost function Rank(s: State, u: Worker): nat {
    var w := |u.writeSet|;
    match u.pc
    case Retry => FromStart(u) + 5 + |s.ws|
    case CheckLoad => FromStart(u) + 4 + |s.ws|
    case Check(i, _) => FromStart(u) + 3 + Minus(|s.ws|, i)
    case AddLoad => FromStart(u) + 2
    case AddCas(_) => FromStart(u) + 1
    case Start => FromStart(u)
    case Exec(op) => FromExec(u, Minus(|u.prog|, op))
    case Reading(op, k, expected, buf) => FromExec(u, Minus(|u.prog|, op + 1)) + 1 + ReadSteps(s, k, expected, buf)
    case LockLoad(i) => FromEpochLoad(u) + 1 + 3 * Minus(w, i)
    case LockTry(i, expected) =>
      FromEpochLoad(u) + 3 * Minus(w, i) - (if i < w && Good(s, u.writeSet[i], expected) then 1 else 0)
    case EpochLoad => FromEpochLoad(u)
    case EpochStore(_) => FromEpochLoad(u) - 1
    case Validate(i) => 3 + Minus(|u.readSet|, i) + w * (VALUE_SIZE + 3)
    case Choose => 2 + w * (VALUE_SIZE + 1)
    case WriteRec(i, j) => 1 + Minus(Minus(w, i) * (VALUE_SIZE + 1), j)
    case UnlockLoad(i) => 2 * Minus(w, i) + 1
    case UnlockStore(i, _) => 2 * Minus(w, i)
    case _ => 0
  }

  /** What a step of the worker does to the rank. */
  ghost predicate Falls(s: State, u: Worker, s': State, u': Worker) {
    u'.pc.Idle? || (u.pc.UnlockLoad? && u'.pc.Retry?) || Rank(s', u') < Rank(s, u)
  }

  lemma OutsideFalls(s: State, w: nat, u: Worker, c: Choice)
    requires WorkerWf(|s.recs|, |s.ws|, w, u) && Gap(s) && w < |s.ws| && u == s.ws[w] && !c.quit
    requires Outside(u.pc) && !u.pc.Idle? && !u.pc.Stopped?
    ensures var m := MoveOutside(s, w, u, c); Falls(s, u, After(s, w, m), m.u)
  {
    hide FromStart, GapOk, CaughtUp;
    FirstOp(u.(pc := Exec(0), maxRead := ZERO, maxWrite := ZERO));
    SameStart(u, MoveOutside(s, w, u, c).u);
  }

  lemma FirstOp(u: Worker)
    requires u.readSet == [] && u.writeSet == []
    ensures FromExec(u, |u.prog|) < FromStart(u)
  {
  }

  lemma SameStart(u: Worker, v: Worker)
    requires u.prog == v.prog
    ensures FromStart(u) == FromStart(v)
  {
  }

  lemma ExecFalls(s: State, w: nat, u: Worker)
    requires Wf(s) && Locks(s) && w < |s.ws| && u == s.ws[w] && Unhindered(s, w) && u.pc.Exec?
    ensures var m := MoveExec(s, u); Falls(s, u, After(s, w, m), m.u)
  {
    assert WorkerWf(|s.recs|, |s.ws|, w, u);
    var m := MoveExec(s, u);
    if u.pc.op >= |u.prog| {
      SortSorts(u.writeSet);
    } else if m.u.pc.Reading? {
      FreeRecord(s, w, m.u.pc.key);
    }
  }

  lemma ReadFalls(s: State, w: nat, u: Worker)
    requires Wf(s) && Locks(s) && w < |s.ws| && u == s.ws[w] && Unhindered(s, w) && u.pc.Reading?
    ensures var m := MoveRead(s, u); Falls(s, u, After(s, w, m), m.u)
  {
    assert WorkerWf(|s.recs|, |s.ws|, w, u);
    FreeRecord(s, w, u.pc.key);
  }

  lemma LockFalls(s: State, w: nat, u: Worker)
    requires Wf(s) && Locks(s) && w < |s.ws| && u == s.ws[w] && Unhindered(s, w) && (u.pc.LockLoad? || u.pc.LockTry?)
    ensures var m := MoveLock(s, u); Falls(s, u, After(s, w, m), m.u)
  {
    hide FromEpochLoad;
    assert WorkerWf(|s.recs|, |s.ws|, w, u);
    var i := u.pc.i;
    if i < |u.writeSet| {
      FreeRecord(s, w, u.writeSet[i]);
      NotYetHeld(u, i);
    }
    SameRest(u, MoveLock(s, u).u);
  }

  lemma NotYetHeld(u: Worker, i: nat)
    requires (u.pc.LockLoad? || u.pc.LockTry?) && u.pc.i == i < |u.writeSet| && Distinct(u.writeSet)
    ensures !Holds(u, u.writeSet[i])
  {
  }

  lemma SameRest(u: Worker, v: Worker)
    requires u.readSet == v.readSet && u.writeSet == v.writeSet
    ensures FromEpochLoad(u) == FromEpochLoad(v) >= 2
  {
  }

  lemma RestFalls(s: State, w: nat, u: Worker)
    requires WorkerWf(|s.recs|, |s.ws|, w, u) && w < |s.ws| && u == s.ws[w]
    ensures u.pc.EpochLoad? || u.pc.EpochStore? || u.pc.Validate? ==>
              var m := MoveValidate(s, w, u); Falls(s, u, After(s, w, m), m.u)
  {
  }

  lemma WriteFalls(s: State, w: nat, u: Worker)
    requires Wf(s) && w < |s.ws| && u == s.ws[w] && (u.pc.Choose? || u.pc.WriteRec?)
    ensures var m := MoveWrite(s, u); Falls(s, u, After(s, w, m), m.u)
  {
    hide ChooseTid;
    assert WorkerWf(|s.recs|, |s.ws|, w, u);
  }

  lemma UnlockFalls(s: State, w: nat, u: Worker)
    requires Wf(s) && w < |s.ws| && u == s.ws[w] && (u.pc.UnlockLoad? || u.pc.UnlockStore?)
    ensures var m := MoveUnlock(s, u); Falls(s, u, After(s, w, m), m.u)
  {
    assert WorkerWf(|s.recs|, |s.ws|, w, u);
  }

  /** Every step that a worker makes alone brings it nearer to its commit, or to the end of a lost attempt. */
  lemma RankFalls(s: State, w: nat, c: Choice)
    requires Base(s) && Legal(s, w, c) && Unhindered(s, w) && !c.quit
    requires !s.ws[w].pc.Idle? && !s.ws[w].pc.Stopped?
    ensures Falls(s, s.ws[w], Step(s, w, c), Step(s, w, c).ws[w])
  {
    hide Falls, WorkerWf, Unhindered, Locks;
    hide MoveOutside, MoveExec, MoveRead, MoveLock, MoveValidate, MoveWrite, MoveUnlock;
    var u := s.ws[w];
    assert WorkerWf(|s.recs|, |s.ws|, w, u);
    if Outside(u.pc) {
      OutsideFalls(s, w, u, c);
    } else if u.pc.Exec? {
      ExecFalls(s, w, u);
    } else if u.pc.Reading? {
      ReadFalls(s, w, u);
    } else if u.pc.LockLoad? || u.pc.LockTry? {
      LockFalls(s, w, u);
    } else if u.pc.Choose? || u.pc.WriteRec? {
      WriteFalls(s, w, u);
    } else if u.pc.UnlockLoad? || u.pc.UnlockStore? {
      UnlockFalls(s, w, u);
    } else {
      RestFalls(s, w, u);
    }
  }

  // ---- what a transaction that runs alone sees and does ----

  /** The table of s0, but for the locks that u holds. */
  ghost predicate Untouched(s0: State, s: State, u: Worker) {
    && |s.recs| == |s0.recs|
    && forall k | 0 <= k < |s.recs| :: s.recs[k] == s0.recs[k].(word := s0.recs[k].word.(lock := Holds(u, k)))
  }

  /** These reads are what the table of s0 says. */
  ghost predicate Sees(s0: State, seen: seq<ReadElem>) {
    forall i | 0 <= i < |seen| ::
      && seen[i].key < |s0.recs|
      && seen[i].word == s0.recs[seen[i].key].word && seen[i].value == s0.recs[seen[i].key].value
  }

  /** One entry has been added to the log of s0, for worker u. */
  ghost predicate Entered(s0: State, s: State, u: Worker) {
    |s.log| == |s0.log| + 1 && s.log[..|s0.log|] == s0.log && u.pos == |s0.log|
  }

  /** What record r of s0 is while it is the one being installed, up to byte j. */
  function Partly(r: Rec, value: Bytes, j: nat): Rec {
    if j <= |value| && j <= |r.value| then Rec(r.word.(lock := true), value[..j] + r.value[j..]) else r
  }

  /** The records released have the value and the TID, the one being installed part of the value. */
  ghost function Installed(s0: State, u: Worker, k: nat): Rec
    requires u.pc.WriteRec? && k < |s0.recs|
  {
    if k in u.writeSet && !Holds(u, k) then Rec(u.last, u.value)
    else if u.pc.i < |u.writeSet| && k == u.writeSet[u.pc.i] then Partly(s0.recs[k], u.value, u.pc.j)
    else s0.recs[k].(word := s0.recs[k].word.(lock := Holds(u, k)))
  }

  ghost predicate Installing(s0: State, s: State, u: Worker)
    requires u.pc.WriteRec?
  {
    |s.recs| == |s0.recs| && forall k | 0 <= k < |s.recs| :: s.recs[k] == Installed(s0, u, k)
  }

  /** The transaction has committed: it saw the table of s0, and that table has changed just as the program says. */
  ghost predicate Effected(s0: State, s: State, w: nat)
    requires w < |s0.ws|
  {
    && |s.log| == |s0.log| + 1 && s.log[..|s0.log|] == s0.log
    && var e := s.log[|s0.log|];
       && e.worker == w && e.status.Committed? && AsksFor(e, s0.ws[w].prog, s0.ws[w].value) && Sees(s0, e.seen)
       && |s.recs| == |s0.recs|
       && forall k | 0 <= k < |s.recs| ::
            s.recs[k] == if k in e.writes then Rec(e.status.tid, s0.ws[w].value) else s0.recs[k]
  }

  /** How far worker w has come, alone, since it began an attempt in s0. */
  ghost predicate Stage(s0: State, s: State, w: nat, u: Worker)
    requires w < |s0.ws|
  {
    match u.pc
    case Idle => Effected(s0, s, w)
    case Stopped => false
    case UnlockLoad(_) => false
    case UnlockStore(_, _) => false
    case WriteRec(_, _) => Sees(s0, u.readSet) && Entered(s0, s, u) && Installing(s0, s, u)
    case EpochStore(_) => Sees(s0, u.readSet) && Entered(s0, s, u) && Untouched(s0, s, u)
    case Validate(_) => Sees(s0, u.readSet) && Entered(s0, s, u) && Untouched(s0, s, u)
    case Choose => Sees(s0, u.readSet) && Entered(s0, s, u) && Untouched(s0, s, u)
    case Exec(_) => Sees(s0, u.readSet) && s.log == s0.log && Untouched(s0, s, u)
    case Reading(_, k, expected, buf) =>
      && Sees(s0, u.readSet) && s.log == s0.log && Untouched(s0, s, u)
      && k < |s0.recs| && expected == s0.recs[k].word
      && |buf| <= |s0.recs[k].value| && buf == s0.recs[k].value[..|buf|]
    case LockLoad(_) => Sees(s0, u.readSet) && s.log == s0.log && Untouched(s0, s, u)
    case LockTry(_, _) => Sees(s0, u.readSet) && s.log == s0.log && Untouched(s0, s, u)
    case EpochLoad => Sees(s0, u.readSet) && s.log == s0.log && Untouched(s0, s, u)
    case _ => s.recs == s0.recs && s.log == s0.log
  }

  /** Nothing in s0 is locked, and its values are whole. */
  ghost predicate AllFree(s0: State) {
    forall k | 0 <= k < |s0.recs| :: !s0.recs[k].word.lock && |s0.recs[k].value| == VALUE_SIZE
  }

  lemma OutsideStage(s0: State, s: State, w: nat, u: Worker, c: Choice)
    requires AllFree(s0) && w < |s0.ws| && w < |s.ws| && WorkerWf(|s.recs|, |s.ws|, w, u) && Stage(s0, s, w, u)
    requires Outside(u.pc) && !u.pc.Idle? && !c.quit
    ensures var m := MoveOutside(s, w, u, c); Stage(s0, After(s, w, m), w, m.u)
  {
    var m := MoveOutside(s, w, u, c);
    if m.u.pc.Exec? {
      assert forall k: nat :: !Holds(m.u, k);
    }
  }

  lemma ExecStage(s0: State, s: State, w: nat, u: Worker)
    requires AllFree(s0) && w < |s0.ws| && w < |s.ws| && WorkerWf(|s.recs|, |s.ws|, w, u) && Stage(s0, s, w, u)
    requires u.pc.Exec?
    ensures var m := MoveExec(s, u); Stage(s0, After(s, w, m), w, m.u)
  {
    var m := MoveExec(s, u);
    assert (forall k: nat :: !Holds(m.u, k)) && (forall k: nat :: !Holds(u, k));
  }

  lemma ReadStage(s0: State, s: State, w: nat, u: Worker)
    requires AllFree(s0) && w < |s0.ws| && w < |s.ws| && WorkerWf(|s.recs|, |s.ws|, w, u) && Stage(s0, s, w, u)
    requires u.pc.Reading?
    ensures var m := MoveRead(s, u); Stage(s0, After(s, w, m), w, m.u)
  {
    var m := MoveRead(s, u);
    assert (forall k: nat :: !Holds(m.u, k)) && (forall k: nat :: !Holds(u, k));
    assert s.recs[u.pc.key] == s0.recs[u.pc.key];
  }

  lemma LockStage(s0: State, s: State, w: nat, u: Worker)
    requires w < |s0.ws| && w < |s.ws| && WorkerWf(|s.recs|, |s.ws|, w, u) && Stage(s0, s, w, u)
    requires u.pc.LockLoad? || u.pc.LockTry?
    ensures var m := MoveLock(s, u); Stage(s0, After(s, w, m), w, m.u)
  {
    hide Sees;
    LockMove(s, w, u);
  }

  lemma EpochStage(s0: State, s: State, w: nat, u: Worker)
    requires w < |s0.ws| && w < |s.ws| && Stage(s0, s, w, u) && (u.pc.EpochLoad? || u.pc.EpochStore?)
    ensures var m := MoveValidate(s, w, u); Stage(s0, After(s, w, m), w, m.u)
  {
    hide Sees;
    QuietMove(s, w, u, Choice(false, false, [], []));
  }

  lemma ValidateStage(s0: State, s: State, w: nat, u: Worker)
    requires w < |s0.ws| && w < |s.ws| && WorkerWf(|s.recs|, |s.ws|, w, u) && Stage(s0, s, w, u) && u.pc.Validate?
    ensures var m := MoveValidate(s, w, u); Stage(s0, After(s, w, m), w, m.u)
  {
    QuietMove(s, w, u, Choice(false, false, [], []));
    if u.pc.i < |u.readSet| {
      var r := u.readSet[u.pc.i];
      assert s.recs[r.key].word == s0.recs[r.key].word.(lock := Holds(u, r.key));
    }
  }

  lemma ChooseStage(s0: State, s: State, w: nat, u: Worker)
    requires Wf(s) && w < |s0.ws| && w < |s.ws| && u == s.ws[w] && Stage(s0, s, w, u) && u.pc.Choose?
    ensures var m := MoveWrite(s, u); Stage(s0, After(s, w, m), w, m.u)
  {
    hide Sees, ChooseTid;
    var m := MoveWrite(s, u);
    var s' := After(s, w, m);
    WriteMove(s, w, u);
    AllHeld(u);
    assert s'.log[..|s0.log|] == s.log[..|s0.log|];
    forall k | 0 <= k < |s'.recs| && k in u.writeSet ensures s.recs[k] == Partly(s0.recs[k], u.value, 0) {
      assert s0.recs[k].value[0..] == s0.recs[k].value;
    }
    assert u.writeSet != [] ==> u.writeSet[0] in u.writeSet;
  }

  lemma AllHeld(u: Worker)
    requires u.pc.Choose?
    ensures forall k: nat :: k in u.writeSet <==> Holds(u, k)
  {
    forall k: nat | k in u.writeSet ensures Holds(u, k) {
      var j :| 0 <= j < |u.writeSet| && u.writeSet[j] == k;
      HoldsAt(u, j);
    }
  }

  lemma ByteStage(s0: State, s: State, w: nat, u: Worker)
    requires Wf(s) && w < |s0.ws| && w < |s.ws| && u == s.ws[w] && AllFree(s0) && Stage(s0, s, w, u)
    requires u.pc.WriteRec? && u.pc.i < |u.writeSet| && u.pc.j < VALUE_SIZE
    ensures var m := MoveWrite(s, u); Stage(s0, After(s, w, m), w, m.u)
  {
    hide Sees;
    assert WorkerWf(|s.recs|, |s.ws|, w, u);
    WriteMove(s, w, u);
    HoldsAt(u, u.pc.i);
    var k, j := u.writeSet[u.pc.i], u.pc.j;
    var r := s0.recs[k];
    assert Partly(r, u.value, j).value[j := u.value[j]] == u.value[..j + 1] + r.value[j + 1..];
  }

  lemma WordStage(s0: State, s: State, w: nat, u: Worker)
    requires Wf(s) && w < |s0.ws| && w < |s.ws| && u == s.ws[w] && AllFree(s0) && Stage(s0, s, w, u)
    requires u.pc.WriteRec? && u.pc.i < |u.writeSet| && u.pc.j == VALUE_SIZE
    ensures var m := MoveWrite(s, u); Stage(s0, After(s, w, m), w, m.u)
  {
    hide Sees, Installed, AllFree;
    assert WorkerWf(|s.recs|, |s.ws|, w, u);
    WriteMove(s, w, u);
    var m := MoveWrite(s, u);
    var s' := After(s, w, m);
    forall k: nat | k < |s0.recs|
      ensures Installed(s0, m.u, k) == if k == u.writeSet[u.pc.i] then Rec(u.last, u.value) else Installed(s0, u, k)
      ensures k == u.writeSet[u.pc.i] ==> Installed(s0, u, k).value == u.value
    {
      Released(s0, s, u, m, k);
    }
  }

  /** What the releasing store does to the records, one by one. */
  lemma Released(s0: State, s: State, u: Worker, m: Move, k: nat)
    requires u.pc.WriteRec? && u.pc.i < |u.writeSet| && u.pc.j == VALUE_SIZE && Distinct(u.writeSet) && AllFree(s0)
    requires m.u == u.(pc := WriteRec(u.pc.i + 1, 0)) && k < |s0.recs| && Drops(s, u, m)
    requires m.eff.k == u.writeSet[u.pc.i] && |u.value| == VALUE_SIZE
    ensures Installed(s0, m.u, k) == if k == u.writeSet[u.pc.i] then Rec(u.last, u.value) else Installed(s0, u, k)
    ensures k == u.writeSet[u.pc.i] ==> Installed(s0, u, k).value == u.value
  {
    HoldsAt(u, u.pc.i);
    var i := u.pc.i;
    assert u.writeSet[i] in u.writeSet;
    if i + 1 < |u.writeSet| && k == u.writeSet[i + 1] {
      HoldsAt(m.u, i + 1);
      assert s0.recs[k].value[0..] == s0.recs[k].value;
    }
  }

  lemma LastStage(s0: State, s: State, w: nat, u: Worker)
    requires Wf(s) && LogOk(s) && w < |s0.ws| && w < |s.ws| && u == s.ws[w] && AllFree(s0) && Stage(s0, s, w, u)
    requires u.pc.WriteRec? && u.pc.i >= |u.writeSet| && Follows(u)
    requires u.prog == s0.ws[w].prog && u.value == s0.ws[w].value
    ensures var m := MoveWrite(s, u); Stage(s0, After(s, w, m), w, m.u)
  {
    hide Sees, Writes, Reads, ReadsKey;
    assert WorkerWf(|s.recs|, |s.ws|, w, u) && EntryOk(w, u, s.log[u.pos]);
    assert forall k: nat :: !Holds(u, k);
  }

  /** Each step of a worker that is alone leads on to its commit. */
  lemma StageStep(s0: State, s: State, w: nat, c: Choice)
    requires Base(s) && Legal(s, w, c) && !c.quit && w < |s0.ws| && AllFree(s0) && Follows(s.ws[w])
    requires Stage(s0, s, w, s.ws[w]) && !s.ws[w].pc.Idle?
    requires s.ws[w].prog == s0.ws[w].prog && s.ws[w].value == s0.ws[w].value
    ensures Stage(s0, Step(s, w, c), w, Step(s, w, c).ws[w])
  {
    hide Follows, AllFree, WorkerWf, Locks, Sees, Entered, Untouched;
    hide MoveOutside, MoveExec, MoveRead, MoveLock, MoveValidate, MoveWrite, MoveUnlock;
    var u := s.ws[w];
    assert WorkerWf(|s.recs|, |s.ws|, w, u);
    if Outside(u.pc) {
      OutsideStage(s0, s, w, u, c);
    } else if u.pc.Exec? {
      ExecStage(s0, s, w, u);
    } else if u.pc.Reading? {
      ReadStage(s0, s, w, u);
    } else if u.pc.LockLoad? || u.pc.LockTry? {
      LockStage(s0, s, w, u);
    } else if u.pc.EpochLoad? || u.pc.EpochStore? {
      EpochStage(s0, s, w, u);
    } else if u.pc.Validate? {
      ValidateStage(s0, s, w, u);
    } else if u.pc.Choose? {
      ChooseStage(s0, s, w, u);
    } else {
      WriteStage(s0, s, w, u);
    }
  }

  lemma WriteStage(s0: State, s: State, w: nat, u: Worker)
    requires Wf(s) && LogOk(s) && w < |s0.ws| && w < |s.ws| && u == s.ws[w] && AllFree(s0) && Stage(s0, s, w, u)
    requires u.pc.WriteRec? && Follows(u) && u.prog == s0.ws[w].prog && u.value == s0.ws[w].value
    ensures var m := MoveWrite(s, u); Stage(s0, After(s, w, m), w, m.u)
  {
    assert WorkerWf(|s.recs|, |s.ws|, w, u);
    hide Stage, Follows, AllFree, MoveWrite, LogOk, Wf;
    if u.pc.i >= |u.writeSet| {
      LastStage(s0, s, w, u);
    } else if u.pc.j < VALUE_SIZE {
      ByteStage(s0, s, w, u);
    } else {
      WordStage(s0, s, w, u);
    }
  }

  // ---- runs ----

  /** Between states i and j, worker w alone makes steps, and is not told to quit. */
  ghost predicate Alone(schedule: seq<Event>, i: nat, j: nat, w: nat)
    requires i <= j <= |schedule|
  {
    forall m | i <= m < j :: schedule[m].w == w && !schedule[m].c.quit
  }

  /** The other workers are as they were. */
  ghost predicate OthersSame(s0: State, s: State, w: nat) {
    |s.ws| == |s0.ws| && forall v | 0 <= v < |s.ws| && v != w :: s.ws[v] == s0.ws[v]
  }

  lemma OthersStay(s0: State, s: State, w: nat, c: Choice)
    requires Legal(s, w, c) && OthersSame(s0, s, w) && Unhindered(s0, w)
    ensures Unhindered(s, w) && OthersSame(s0, Step(s, w, c), w)
  {
    hide MoveOf;
  }

  /** The state in which an attempt begins, with no lock in the way. */
  lemma Begins(s0: State, w: nat)
    requires Base(s0) && w < |s0.ws| && s0.ws[w].pc.Retry? && Unhindered(s0, w)
    ensures AllFree(s0) && Stage(s0, s0, w, s0.ws[w])
  {
    assert forall k: nat :: !Holds(s0.ws[w], k);
    forall k | 0 <= k < |s0.recs| ensures !s0.recs[k].word.lock {
      FreeRecord(s0, w, k);
    }
  }

  /** A worker that makes steps alone from RETRY on commits, or is on its way to, within the bound. */
  lemma {:induction false} AloneAt(run: seq<State>, schedule: seq<Event>, i: nat, j: nat, w: nat) returns (m: nat)
    requires IsRun(run, schedule) && i <= j < |run| && w < |run[i].ws| && Alone(schedule, i, j, w)
    requires run[i].ws[w].pc.Retry? && Unhindered(run[i], w)
    ensures i <= m <= j && w < |run[m].ws|
    ensures OthersSame(run[i], run[m], w) && Stage(run[i], run[m], w, run[m].ws[w])
    ensures run[m].ws[w].pc.Idle? || m == j
    ensures run[m].ws[w].pc.Idle? || Rank(run[m], run[m].ws[w]) + (m - i) <= Rank(run[i], run[i].ws[w])
    ensures !run[m].ws[w].pc.Idle? ==>
              run[m].ws[w].prog == run[i].ws[w].prog && run[m].ws[w].value == run[i].ws[w].value
  {
    hide Base, Stage, Rank, Unhindered, OthersSame, MoveOf, Follows, Legal, AllFree, Step;
    RunBase(run, schedule, i);
    Begins(run[i], w);
    if i == j {
      m := i;
      Alike(run[i], w);
    } else {
      m := AloneAt(run, schedule, i, j - 1, w);
      if !run[m].ws[w].pc.Idle? {
        AloneStep(run, schedule, i, j - 1, w);
        m := j;
      }
    }
  }

  lemma Alike(s: State, w: nat)
    ensures OthersSame(s, s, w)
  {
  }

  lemma AloneStep(run: seq<State>, schedule: seq<Event>, i: nat, j: nat, w: nat)
    requires IsRun(run, schedule) && i <= j < |schedule| && w < |run[i].ws| && Base(run[i]) && AllFree(run[i])
    requires schedule[j].w == w && !schedule[j].c.quit && Unhindered(run[i], w) && OthersSame(run[i], run[j], w)
    requires Stage(run[i], run[j], w, run[j].ws[w]) && !run[j].ws[w].pc.Idle?
    requires run[j].ws[w].prog == run[i].ws[w].prog && run[j].ws[w].value == run[i].ws[w].value
    ensures w < |run[j + 1].ws|
    ensures OthersSame(run[i], run[j + 1], w) && Stage(run[i], run[j + 1], w, run[j + 1].ws[w])
    ensures run[j + 1].ws[w].pc.Idle? || Rank(run[j + 1], run[j + 1].ws[w]) < Rank(run[j], run[j].ws[w])
    ensures run[j + 1].ws[w].prog == run[i].ws[w].prog && run[j + 1].ws[w].value == run[i].ws[w].value
  {
    hide Base, Rank, Unhindered, MoveOf, Follows, AllFree;
    var s, c := run[j], schedule[j].c;
    assert StepAt(run, schedule, j);
    RunBase(run, schedule, j);
    RunFollows(run, schedule, j, w);
    OthersStay(run[i], s, w, c);
    StageStep(run[i], s, w, c);
    RankFalls(s, w, c);
    ProgramMove(s, w, s.ws[w], c);
  }

  /**
   * In every run: if a worker is about to begin an attempt, no other worker has a lock, and it then makes steps alone,
   * as many as the bound says, without being told to quit, then within these steps it has committed its transaction,
   * which saw the table as it was and changed it just as the program says.
   */
  lemma AloneCommits(run: seq<State>, schedule: seq<Event>, i: nat, j: nat, w: nat) returns (m: nat)
    requires IsRun(run, schedule) && i <= j < |run| && w < |run[i].ws| && Alone(schedule, i, j, w)
    requires run[i].ws[w].pc.Retry? && Unhindered(run[i], w)
    requires j - i >= |run[i].ws[w].prog| * PER_OP + 13 + |run[i].ws|
    ensures i < m <= j && w < |run[m].ws| && run[m].ws[w].pc.Idle? && Effected(run[i], run[m], w)
  {
    m := AloneAt(run, schedule, i, j, w);
    NotDone(run[m], run[m].ws[w]);
  }

  lemma NotDone(s: State, u: Worker)
    requires u.pc.UnlockStore? ==> u.pc.i < |u.writeSet|
    ensures !u.pc.Idle? && !u.pc.Stopped? ==> Rank(s, u) > 0
  {
  }

  /** From wherever a worker is, left alone it comes to its commit or to the next attempt. */
  lemma {:induction false} AloneEnds(run: seq<State>, schedule: seq<Event>, i: nat, j: nat, w: nat) returns (m: nat)
    requires IsRun(run, schedule) && i <= j < |run| && w < |run[i].ws| && Alone(schedule, i, j, w)
    requires !run[i].ws[w].pc.Idle? && !run[i].ws[w].pc.Stopped? && Unhindered(run[i], w)
    ensures i <= m <= j && w < |run[m].ws| && OthersSame(run[i], run[m], w)
    ensures !run[m].ws[w].pc.Stopped?
    ensures run[m].ws[w].prog == run[i].ws[w].prog && run[m].ws[w].value == run[i].ws[w].value
    ensures
      || run[m].ws[w].pc.Idle?
      || run[m].ws[w].pc.Retry?
      || (m == j && Rank(run[m], run[m].ws[w]) + (m - i) <= Rank(run[i], run[i].ws[w]))
    ensures (m - i) <= Rank(run[i], run[i].ws[w])
  {
    hide Base, Rank, Unhindered, OthersSame, MoveOf, Legal, Step;
    if i == j || run[i].ws[w].pc.Retry? {
      m := i;
      Alike(run[i], w);
    } else {
      m := AloneEnds(run, schedule, i, j - 1, w);
      if !run[m].ws[w].pc.Idle? && !run[m].ws[w].pc.Retry? {
        EndsStep(run, schedule, i, j - 1, w);
        m := j;
      }
    }
  }

  lemma EndsStep(run: seq<State>, schedule: seq<Event>, i: nat, j: nat, w: nat)
    requires IsRun(run, schedule) && i <= j < |schedule| && w < |run[i].ws| && w < |run[j].ws|
    requires schedule[j].w == w && !schedule[j].c.quit && Unhindered(run[i], w) && OthersSame(run[i], run[j], w)
    requires !run[j].ws[w].pc.Idle? && !run[j].ws[w].pc.Stopped? && !run[j].ws[w].pc.Retry?
    ensures w < |run[j + 1].ws| && OthersSame(run[i], run[j + 1], w)
    ensures !run[j + 1].ws[w].pc.Stopped?
    ensures run[j + 1].ws[w].prog == run[j].ws[w].prog && run[j + 1].ws[w].value == run[j].ws[w].value
    ensures run[j + 1].ws[w].pc.Idle? || run[j + 1].ws[w].pc.Retry?
            || Rank(run[j + 1], run[j + 1].ws[w]) < Rank(run[j], run[j].ws[w])
    ensures Rank(run[j], run[j].ws[w]) > 0
  {
    hide Base, Rank, Unhindered, MoveOf;
    var s, c := run[j], schedule[j].c;
    assert StepAt(run, schedule, j);
    RunBase(run, schedule, j);
    OthersStay(run[i], s, w, c);
    RankFalls(s, w, c);
    ProgramMove(s, w, s.ws[w], c);
    InBase(s, w);
    NotDone(s, s.ws[w]);
  }

  lemma InBase(s: State, w: nat)
    requires Base(s) && w < |s.ws|
    ensures WorkerWf(|s.recs|, |s.ws|, w, s.ws[w])
  {
  }

  /**
   * Obstruction freedom: in every state of every run, a worker within a transaction that makes steps alone, with no
   * other worker holding a lock, commits what its program asks for within a bound, after at most one lost attempt.
   */
  lemma ObstructionFree(run: seq<State>, schedule: seq<Event>, i: nat, j: nat, w: nat) returns (m: nat, p: nat)
    requires IsRun(run, schedule) && i <= j < |run| && w < |run[i].ws| && Alone(schedule, i, j, w)
    requires !run[i].ws[w].pc.Idle? && !run[i].ws[w].pc.Stopped? && Unhindered(run[i], w)
    requires j - i >= Rank(run[i], run[i].ws[w]) + |run[i].ws[w].prog| * PER_OP + 13 + |run[i].ws|
    ensures i < m <= j && w < |run[m].ws| && run[m].ws[w].pc.Idle? && p < |run[m].log|
    ensures run[m].log[p].worker == w && run[m].log[p].status.Committed?
    ensures AsksFor(run[m].log[p], run[i].ws[w].prog, run[i].ws[w].value)
  {
    hide Base, Rank, Unhindered, MoveOf, Legal, Step, AsksFor, OthersSame;
    m := AloneEnds(run, schedule, i, j, w);
    if run[m].ws[w].pc.Idle? {
      p := AtTheTop(run, schedule, m - 1, w);
    } else {
      Reached(run, schedule, i, j, m, w);
      m := AloneCommits(run, schedule, m, j, w);
      p := |run[m].log| - 1;
    }
  }

  lemma AtTheTop(run: seq<State>, schedule: seq<Event>, i: nat, w: nat) returns (p: nat)
    requires IsRun(run, schedule) && i < |schedule| && schedule[i].w == w < |run[i + 1].ws|
    requires run[i + 1].ws[w].pc.Idle?
    ensures p < |run[i + 1].log| && run[i + 1].log[p].worker == w && run[i + 1].log[p].status.Committed?
    ensures AsksFor(run[i + 1].log[p], run[i + 1].ws[w].prog, run[i + 1].ws[w].value)
  {
    hide AsksFor, MoveOf;
    LeftCommitted(run, schedule, i);
    assert StepAt(run, schedule, i);
    ProgramMove(run[i], w, run[i].ws[w], schedule[i].c);
    p := run[i].ws[w].pos;
  }

  /** If the bound has not been used up, the worker is not in the midst of its attempt any more. */
  lemma Reached(run: seq<State>, schedule: seq<Event>, i: nat, j: nat, m: nat, w: nat)
    requires IsRun(run, schedule) && i <= m <= j < |run| && w < |run[i].ws| && w < |run[m].ws|
    requires !run[m].ws[w].pc.Stopped? && !run[m].ws[w].pc.Idle?
    requires run[m].ws[w].pc.Retry? || (m == j && Rank(run[m], run[m].ws[w]) + (m - i) <= Rank(run[i], run[i].ws[w]))
    requires j - i >= Rank(run[i], run[i].ws[w]) && OthersSame(run[i], run[m], w) && Unhindered(run[i], w)
    ensures run[m].ws[w].pc.Retry? && Unhindered(run[m], w) && |run[m].ws| == |run[i].ws|
  {
    hide Base, Rank;
    RunBase(run, schedule, m);
    InBase(run[m], w);
    NotDone(run[m], run[m].ws[w]);
  }
}
