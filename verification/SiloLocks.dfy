/**
 * Lock discipline: in every reachable state a record is locked exactly when one worker owns its
 * lock, and only the owner changes it.
 */
module SiloLocks {
  import opened SiloTid
  import opened SiloMachine

  // ---- well-formedness of the workers' private state ----

  /** Outside a transaction: both sets are empty. */
  predicate Outside(pc: Pc) {
    pc.Idle? || pc.Retry? || pc.CheckLoad? || pc.Check? || pc.AddLoad? || pc.AddCas? || pc.Start? || pc.Stopped?
  }

  predicate Executing(pc: Pc) {
    pc.Exec? || pc.Reading?
  }

  /** From the lock point on: the transaction has a log entry. */
  predicate Logged(pc: Pc) {
    pc.EpochStore? || pc.Validate? || pc.Choose? || pc.WriteRec? || pc.UnlockLoad? || pc.UnlockStore?
  }

  predicate Increasing(s: seq<nat>) {
    forall i, j | 0 <= i < j < |s| :: s[i] < s[j]
  }

  predicate Distinct(s: seq<nat>) {
    forall i, j | 0 <= i < j < |s| :: s[i] != s[j]
  }

  /** The part of worker w's private state that its program counter relies on; n records, m workers. */
  ghost predicate WorkerWf(n: nat, m: nat, w: nat, u: Worker) {
    && (Outside(u.pc) ==> u.readSet == [] && u.writeSet == [])
    && (!u.pc.Idle? && !u.pc.Stopped? ==>
          |u.value| == VALUE_SIZE && |u.prog| > 0 && forall i | 0 <= i < |u.prog| :: u.prog[i].key < n)
    && (forall i | 0 <= i < |u.readSet| :: u.readSet[i].key < n && |u.readSet[i].value| == VALUE_SIZE)
    && (forall i | 0 <= i < |u.writeSet| :: u.writeSet[i] < n)
    && Distinct(u.writeSet)
    && !u.last.lock
    && (!Outside(u.pc) && !Executing(u.pc) ==> Increasing(u.writeSet) && |u.readSet| + |u.writeSet| > 0)
    && match u.pc
       case CheckLoad => w == 0
       case Check(i, _) => w == 0 && 1 <= i
       case AddLoad => w == 0
       case AddCas(_) => w == 0
       case Exec(i) => i <= |u.prog| && (i > 0 ==> |u.readSet| + |u.writeSet| > 0)
       case Reading(i, k, e, buf) => i < |u.prog| && k < n && |buf| <= VALUE_SIZE && (e.lock ==> buf == [])
       case LockLoad(i) => i <= |u.writeSet|
       case LockTry(i, _) => i < |u.writeSet|
       case Validate(i) => i <= |u.readSet|
       case WriteRec(i, j) => i <= |u.writeSet| && j <= VALUE_SIZE
       case UnlockLoad(i) => i <= |u.writeSet|
       case UnlockStore(i, _) => i < |u.writeSet|
       case _ => true
  }

  ghost predicate Wf(s: State) {
    && |s.ws| > 0
    && (forall k | 0 <= k < |s.recs| :: |s.recs[k].value| == VALUE_SIZE)
    && (forall w | 0 <= w < |s.ws| :: WorkerWf(|s.recs|, |s.ws|, w, s.ws[w]))
    && (forall w | 0 <= w < |s.ws| :: Logged(s.ws[w].pc) ==> s.ws[w].pos < |s.log|)
  }

  // ---- sorting the write set ----

  lemma InsertSorts(k: nat, s: seq<nat>)
    requires Increasing(s) && k !in s
    ensures Increasing(Insert(k, s)) && |Insert(k, s)| == |s| + 1
    ensures forall x :: x in Insert(k, s) <==> x == k || x in s
  {
    if s != [] && s[0] <= k {
      InsertSorts(k, s[1..]);
      assert s == [s[0]] + s[1..];
      var t := Insert(k, s[1..]);
      assert Insert(k, s) == [s[0]] + t;
      forall i, j | 0 <= i < j < |t| + 1 ensures Insert(k, s)[i] < Insert(k, s)[j] {
        assert t[j - 1] in t;
      }
    }
  }

  /** Sorting a write set of distinct keys rearranges it in increasing order. */
  lemma {:induction false} SortSorts(s: seq<nat>)
    requires Distinct(s)
    ensures Increasing(Sort(s)) && |Sort(s)| == |s|
    ensures forall x :: x in Sort(s) <==> x in s
  {
    if s != [] {
      SortSorts(s[1..]);
      assert s == [s[0]] + s[1..];
      InsertSorts(s[0], Sort(s[1..]));
    }
  }

  // ---- lock ownership ----

  /** The write-set positions [HeldFrom, HeldTo) whose locks the worker owns. */
  function HeldFrom(u: Worker): nat {
    match u.pc
    case WriteRec(i, _) => i
    case UnlockLoad(i) => i
    case UnlockStore(i, _) => i
    case _ => 0
  }

  function HeldTo(u: Worker): nat {
    match u.pc
    case LockLoad(i) => i
    case LockTry(i, _) => i
    case EpochLoad => |u.writeSet|
    case EpochStore(_) => |u.writeSet|
    case Validate(_) => |u.writeSet|
    case Choose => |u.writeSet|
    case WriteRec(_, _) => |u.writeSet|
    case UnlockLoad(_) => |u.writeSet|
    case UnlockStore(_, _) => |u.writeSet|
    case _ => 0
  }

  ghost predicate Holds(u: Worker, k: nat) {
    exists j :: HeldFrom(u) <= j < HeldTo(u) && j < |u.writeSet| && u.writeSet[j] == k
  }

  /** A worker about to restore a word still has it in hand as the record shows it. */
  ghost predicate HandOk(s: State, u: Worker) {
    u.pc.UnlockStore? && u.pc.i < |u.writeSet| && u.writeSet[u.pc.i] < |s.recs|
    ==> u.pc.expected == s.recs[u.writeSet[u.pc.i]].word
  }

  ghost predicate OwnersLock(s: State) {
    forall w, k: nat | 0 <= w < |s.ws| && Holds(s.ws[w], k) :: k < |s.recs| && s.recs[k].word.lock
  }

  ghost predicate Owned(s: State, k: nat) {
    exists w :: 0 <= w < |s.ws| && Holds(s.ws[w], k)
  }

  ghost predicate OneOwner(s: State) {
    forall v, w, k: nat | 0 <= v < |s.ws| && 0 <= w < |s.ws| && Holds(s.ws[v], k) && Holds(s.ws[w], k) :: v == w
  }

  /** A lock bit is set exactly when a worker owns the lock, and that worker is the only one. */
  ghost predicate Locks(s: State) {
    && OwnersLock(s)
    && (forall k | 0 <= k < |s.recs| && s.recs[k].word.lock :: Owned(s, k))
    && OneOwner(s)
    && (forall w | 0 <= w < |s.ws| :: HandOk(s, s.ws[w]))
  }

  lemma OutsideWf(s: State, w: nat, u: Worker, c: Choice)
    requires Legal(s, w, c) && WorkerWf(|s.recs|, |s.ws|, w, u) && Outside(u.pc)
    ensures WorkerWf(|s.recs|, |s.ws|, w, MoveOutside(s, w, u, c).u)
  {
  }

  lemma ExecWf(s: State, w: nat, u: Worker)
    requires WorkerWf(|s.recs|, |s.ws|, w, u) && u.pc.Exec?
    ensures WorkerWf(|s.recs|, |s.ws|, w, MoveExec(s, u).u)
  {
    if u.pc.op >= |u.prog| {
      SortSorts(u.writeSet);
      forall i | 0 <= i < |u.writeSet| ensures Sort(u.writeSet)[i] < |s.recs| {
        assert Sort(u.writeSet)[i] in u.writeSet;
      }
    }
  }

  lemma ReadWf(s: State, w: nat, u: Worker)
    requires WorkerWf(|s.recs|, |s.ws|, w, u) && u.pc.Reading?
    ensures WorkerWf(|s.recs|, |s.ws|, w, MoveRead(s, u).u)
  {
  }

  lemma LockWf(s: State, w: nat, u: Worker)
    requires WorkerWf(|s.recs|, |s.ws|, w, u) && (u.pc.LockLoad? || u.pc.LockTry?)
    ensures WorkerWf(|s.recs|, |s.ws|, w, MoveLock(s, u).u)
  {
  }

  lemma ValidateWf(s: State, w: nat, u: Worker)
    requires WorkerWf(|s.recs|, |s.ws|, w, u) && (u.pc.EpochLoad? || u.pc.EpochStore? || u.pc.Validate?)
    ensures WorkerWf(|s.recs|, |s.ws|, w, MoveValidate(s, w, u).u)
  {
  }

  lemma WriteWf(s: State, w: nat, u: Worker)
    requires WorkerWf(|s.recs|, |s.ws|, w, u) && (u.pc.Choose? || u.pc.WriteRec?)
    ensures WorkerWf(|s.recs|, |s.ws|, w, MoveWrite(s, u).u)
  {
  }

  lemma UnlockWf(s: State, w: nat, u: Worker)
    requires WorkerWf(|s.recs|, |s.ws|, w, u) && (u.pc.UnlockLoad? || u.pc.UnlockStore?)
    ensures WorkerWf(|s.recs|, |s.ws|, w, MoveUnlock(s, u).u)
  {
  }

  /** What every effect leaves intact: value sizes, and the log position of a logged worker. */
  ghost predicate EffectWf(s: State, m: Move) {
    && (m.eff.PutRec? ==> |m.eff.rec.value| == VALUE_SIZE)
    && (Logged(m.u.pc) ==> m.u.pos < |s.log| || (m.u.pos == |s.log| && m.eff.Append?))
  }

  lemma MoveWf(s: State, w: nat, u: Worker, c: Choice)
    requires Wf(s) && Legal(s, w, c) && u == s.ws[w]
    ensures WorkerWf(|s.recs|, |s.ws|, w, MoveOf(s, w, u, c).u)
  {
    if Outside(u.pc) {
      OutsideWf(s, w, u, c);
    } else if u.pc.Exec? {
      ExecWf(s, w, u);
    } else if u.pc.Reading? {
      ReadWf(s, w, u);
    } else if u.pc.LockLoad? || u.pc.LockTry? {
      LockWf(s, w, u);
    } else if u.pc.Choose? || u.pc.WriteRec? {
      WriteWf(s, w, u);
    } else if u.pc.UnlockLoad? || u.pc.UnlockStore? {
      UnlockWf(s, w, u);
    } else {
      ValidateWf(s, w, u);
    }
  }

  lemma QuietEffectWf(s: State, w: nat, u: Worker, c: Choice)
    requires Outside(u.pc) || Executing(u.pc)
    ensures EffectWf(s, MoveOf(s, w, u, c))
  {
  }

  lemma MoveEffectWf(s: State, w: nat, u: Worker, c: Choice)
    requires Wf(s) && Legal(s, w, c) && u == s.ws[w]
    ensures EffectWf(s, MoveOf(s, w, u, c))
  {
    hide WorkerWf, MoveOutside, MoveExec, MoveRead;
    if Outside(u.pc) || Executing(u.pc) {
      QuietEffectWf(s, w, u, c);
    }
  }

  lemma AfterWf(s: State, w: nat, m: Move)
    requires Wf(s) && w < |s.ws| && WorkerWf(|s.recs|, |s.ws|, w, m.u) && EffectWf(s, m)
    ensures Wf(After(s, w, m))
  {
  }

  lemma WfStep(s: State, w: nat, c: Choice)
    requires Wf(s) && Legal(s, w, c)
    ensures Wf(Step(s, w, c))
  {
    MoveWf(s, w, s.ws[w], c);
    MoveEffectWf(s, w, s.ws[w], c);
    AfterWf(s, w, MoveOf(s, w, s.ws[w], c));
  }

  // ---- the lock discipline is kept ----

  /** The move keeps the worker's locks; if it changes a record, it is one the worker has locked. */
  ghost predicate Keeps(s: State, u: Worker, m: Move) {
    && (forall k: nat :: Holds(m.u, k) <==> Holds(u, k))
    && (m.eff.PutRec? ==> m.eff.k < |s.recs| && Holds(u, m.eff.k) && m.eff.rec.word == s.recs[m.eff.k].word)
  }

  /** The move locks one record, found unlocked, and changes nothing else in it. */
  ghost predicate Takes(s: State, u: Worker, m: Move) {
    && m.eff.PutRec? && m.eff.k < |s.recs|
    && !s.recs[m.eff.k].word.lock && m.eff.rec == s.recs[m.eff.k].(word := s.recs[m.eff.k].word.(lock := true))
    && (forall k: nat :: Holds(m.u, k) <==> k == m.eff.k || Holds(u, k))
    && !m.u.pc.UnlockStore?
  }

  /** The move unlocks one record that the worker had locked, and leaves its bytes. */
  ghost predicate Drops(s: State, u: Worker, m: Move) {
    && m.eff.PutRec? && m.eff.k < |s.recs|
    && Holds(u, m.eff.k) && !m.eff.rec.word.lock && m.eff.rec.value == s.recs[m.eff.k].value
    && (forall k: nat :: Holds(m.u, k) <==> k != m.eff.k && Holds(u, k))
    && !m.u.pc.UnlockStore?
  }

  lemma HoldsAt(u: Worker, j: nat)
    requires HeldFrom(u) <= j < HeldTo(u) && j < |u.writeSet|
    ensures Holds(u, u.writeSet[j])
  {
  }

  lemma LockMove(s: State, w: nat, u: Worker)
    requires WorkerWf(|s.recs|, |s.ws|, w, u) && (u.pc.LockLoad? || u.pc.LockTry?)
    ensures var m := MoveLock(s, u); if m.eff.PutRec? then Takes(s, u, m) else Keeps(s, u, m)
  {
    var m := MoveLock(s, u);
    if m.eff.PutRec? {
      var i := u.pc.i;
      forall k: nat ensures Holds(m.u, k) <==> k == m.eff.k || Holds(u, k) {
        if k == m.eff.k {
          HoldsAt(m.u, i);
        } else if Holds(u, k) {
          var j :| HeldFrom(u) <= j < HeldTo(u) && j < |u.writeSet| && u.writeSet[j] == k;
          HoldsAt(m.u, j);
        }
      }
    }
  }

  lemma ReleaseMove(u: Worker, u': Worker)
    requires Increasing(u.writeSet) && u'.writeSet == u.writeSet
    requires HeldTo(u') == HeldTo(u) == |u.writeSet| && HeldFrom(u') == HeldFrom(u) + 1 && HeldFrom(u) < |u.writeSet|
    ensures Holds(u, u.writeSet[HeldFrom(u)])
    ensures forall k: nat :: Holds(u', k) <==> k != u.writeSet[HeldFrom(u)] && Holds(u, k)
  {
  }

  lemma WriteMove(s: State, w: nat, u: Worker)
    requires Wf(s) && w < |s.ws| && u == s.ws[w] && (u.pc.Choose? || u.pc.WriteRec?)
    ensures var m := MoveWrite(s, u);
      if u.pc.WriteRec? && u.pc.i < |u.writeSet| && u.pc.j == VALUE_SIZE then Drops(s, u, m) else Keeps(s, u, m)
  {
    var m := MoveWrite(s, u);
    assert WorkerWf(|s.recs|, |s.ws|, w, u);
    if u.pc.WriteRec? && u.pc.i < |u.writeSet| {
      HoldsAt(u, u.pc.i);
      if u.pc.j == VALUE_SIZE {
        ReleaseMove(u, m.u);
      }
    }
  }

  lemma UnlockMove(s: State, w: nat, u: Worker)
    requires WorkerWf(|s.recs|, |s.ws|, w, u) && (u.pc.UnlockLoad? || u.pc.UnlockStore?)
    ensures var m := MoveUnlock(s, u); if u.pc.UnlockStore? then Drops(s, u, m) else Keeps(s, u, m)
  {
    var m := MoveUnlock(s, u);
    if u.pc.UnlockStore? {
      ReleaseMove(u, m.u);
    }
  }

  lemma QuietMove(s: State, w: nat, u: Worker, c: Choice)
    requires Outside(u.pc) || Executing(u.pc) || u.pc.EpochLoad? || u.pc.EpochStore? || u.pc.Validate?
    ensures Keeps(s, u, MoveOf(s, w, u, c))
  {
  }

  /** Every move keeps, takes or drops. */
  lemma MoveLocks(s: State, w: nat, u: Worker, c: Choice)
    requires Wf(s) && Legal(s, w, c) && u == s.ws[w]
    ensures var m := MoveOf(s, w, u, c); Keeps(s, u, m) || Takes(s, u, m) || Drops(s, u, m)
  {
    hide Keeps, Takes, Drops, MoveOutside, MoveExec, MoveRead, MoveLock, MoveValidate, MoveWrite, MoveUnlock;
    assert WorkerWf(|s.recs|, |s.ws|, w, u);
    if u.pc.LockLoad? || u.pc.LockTry? {
      LockMove(s, w, u);
    } else if u.pc.Choose? || u.pc.WriteRec? {
      WriteMove(s, w, u);
    } else if u.pc.UnlockLoad? || u.pc.UnlockStore? {
      UnlockMove(s, w, u);
    } else {
      QuietMove(s, w, u, c);
    }
  }

  lemma LockedBy(s: State, w: nat, k: nat)
    requires OwnersLock(s) && w < |s.ws| && Holds(s.ws[w], k)
    ensures k < |s.recs| && s.recs[k].word.lock
  {
  }

  lemma KeptHolds(s: State, w: nat, m: Move, v: nat, k: nat)
    requires w < |s.ws| && v < |s.ws| && Keeps(s, s.ws[w], m)
    ensures Holds(After(s, w, m).ws[v], k) <==> Holds(s.ws[v], k)
  {
  }

  lemma KeptRecs(s: State, w: nat, m: Move)
    requires w < |s.ws| && Keeps(s, s.ws[w], m)
    ensures |After(s, w, m).recs| == |s.recs|
    ensures forall k | 0 <= k < |s.recs| :: After(s, w, m).recs[k].word == s.recs[k].word
  {
  }

  lemma LocksKeep(s: State, w: nat, m: Move)
    requires Locks(s) && w < |s.ws| && Keeps(s, s.ws[w], m) && HandOk(s, m.u)
    ensures Locks(After(s, w, m))
  {
    var s' := After(s, w, m);
    KeptRecs(s, w, m);
    assert OwnersLock(s') by {
      forall v, k: nat | 0 <= v < |s'.ws| && Holds(s'.ws[v], k) ensures k < |s'.recs| && s'.recs[k].word.lock {
        KeptHolds(s, w, m, v, k);
        LockedBy(s, v, k);
      }
    }
    assert OneOwner(s') by {
      forall v1, v2, k: nat | 0 <= v1 < |s'.ws| && 0 <= v2 < |s'.ws| && Holds(s'.ws[v1], k) && Holds(s'.ws[v2], k)
        ensures v1 == v2
      {
        KeptHolds(s, w, m, v1, k);
        KeptHolds(s, w, m, v2, k);
      }
    }
    forall k | 0 <= k < |s'.recs| && s'.recs[k].word.lock ensures Owned(s', k) {
      assert Owned(s, k);
      var v :| 0 <= v < |s.ws| && Holds(s.ws[v], k);
      KeptHolds(s, w, m, v, k);
    }
    forall v | 0 <= v < |s'.ws| ensures HandOk(s', s'.ws[v]) {
      assert HandOk(s, s.ws[v]);
    }
  }

  lemma HandsKept(s: State, w: nat, m: Move)
    requires Wf(s) && OneOwner(s) && w < |s.ws| && m.eff.PutRec? && !m.u.pc.UnlockStore?
    requires (forall v | 0 <= v < |s.ws| :: HandOk(s, s.ws[v]))
    requires forall v | 0 <= v < |s.ws| && v != w :: !Holds(s.ws[v], m.eff.k)
    ensures forall v | 0 <= v < |s.ws| :: HandOk(After(s, w, m), After(s, w, m).ws[v])
  {
  }

  lemma LocksTake(s: State, w: nat, m: Move)
    requires Wf(s) && Locks(s) && w < |s.ws| && Takes(s, s.ws[w], m)
    ensures Locks(After(s, w, m))
  {
    var s' := After(s, w, m);
    forall k | 0 <= k < |s.recs| && s'.recs[k].word.lock ensures Owned(s', k) {
      if k == m.eff.k {
        assert Holds(s'.ws[w], k);
      } else {
        assert Owned(s, k);
        var v :| 0 <= v < |s.ws| && Holds(s.ws[v], k);
        assert Holds(s'.ws[v], k);
      }
    }
    HandsKept(s, w, m);
  }

  lemma LocksDrop(s: State, w: nat, m: Move)
    requires Wf(s) && Locks(s) && w < |s.ws| && Drops(s, s.ws[w], m)
    ensures Locks(After(s, w, m))
  {
    var s' := After(s, w, m);
    forall k | 0 <= k < |s.recs| && s'.recs[k].word.lock ensures Owned(s', k) {
      assert Owned(s, k);
      var v :| 0 <= v < |s.ws| && Holds(s.ws[v], k);
      assert Holds(s'.ws[v], k);
    }
    forall v, k: nat | 0 <= v < |s'.ws| && Holds(s'.ws[v], k) ensures k < |s'.recs| && s'.recs[k].word.lock {
      assert Holds(s.ws[v], k);
    }
    HandsKept(s, w, m);
  }

  lemma LocksStep(s: State, w: nat, c: Choice)
    requires Wf(s) && Locks(s) && Legal(s, w, c)
    ensures Locks(Step(s, w, c))
  {
    var m := MoveOf(s, w, s.ws[w], c);
    MoveLocks(s, w, s.ws[w], c);
    if Keeps(s, s.ws[w], m) {
      assert HandOk(s, s.ws[w]);
      LocksKeep(s, w, m);
    } else if Takes(s, s.ws[w], m) {
      LocksTake(s, w, m);
    } else {
      LocksDrop(s, w, m);
    }
  }

  /** A record is locked by a worker other than w exactly if it is locked and w does not hold it. */
  lemma OthersHold(s: State, w: nat, k: nat)
    requires Locks(s) && w < |s.ws| && k < |s.recs|
    ensures (exists v :: 0 <= v < |s.ws| && v != w && Holds(s.ws[v], k)) <==> s.recs[k].word.lock && !Holds(s.ws[w], k)
    ensures forall v | 0 <= v < |s.ws| && Holds(s.ws[v], k) :: s.recs[k].word.lock
  {
    if s.recs[k].word.lock {
      assert Owned(s, k);
    }
  }

  /** Only the owner of a record's lock changes its bytes or the version its word names; others at most lock it. */
  lemma OnlyOwnerWrites(s: State, w: nat, c: Choice, k: nat)
    requires Wf(s) && Locks(s) && Legal(s, w, c) && k < |s.recs|
    ensures
      var r, r' := s.recs[k], Step(s, w, c).recs[k];
      r' == r || Holds(s.ws[w], k) || (!r.word.lock && r' == r.(word := r.word.(lock := true)))
  {
    MoveLocks(s, w, s.ws[w], c);
  }
}
