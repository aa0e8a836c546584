/** What holds in every run of the Silo machine. */
module SiloTheorems {
  import opened SiloTid
  import opened SiloMachine
  import opened SiloLocks
  import opened SiloEpoch
  import opened SiloLog
  import opened SiloReplay
  import opened SiloSerial

  /** Holds in every run, however long. */
  ghost predicate Base(s: State) {
    Wf(s) && Locks(s) && Gap(s) && LogOk(s)
  }

  /** Holds in every run in which no choice of a TID goes past the end of the tid field. */
  ghost predicate Inv(s: State, init: seq<Bytes>) {
    Base(s) && Serial(s, init)
  }

  /** Wherever a TID has been chosen in the first i steps of the run, there was room for it. */
  ghost predicate NoWrap(run: seq<State>, schedule: seq<Event>, i: nat)
    requires IsRun(run, schedule) && i < |run|
  {
    forall j | 0 <= j < i :: RoomAt(run, schedule, j)
  }

  ghost predicate RoomAt(run: seq<State>, schedule: seq<Event>, j: nat)
    requires IsRun(run, schedule) && j < |schedule|
  {
    assert StepAt(run, schedule, j);
    HasRoom(run[j], schedule[j].w)
  }

  function Values(s: State): (v: seq<Bytes>)
    ensures |v| == |s.recs|
  {
    seq(|s.recs|, k requires 0 <= k < |s.recs| => s.recs[k].value)
  }

  lemma InitBase(s: State)
    requires Init(s)
    ensures Base(s)
  {
    assert forall w, k: nat | 0 <= w < |s.ws| :: !Holds(s.ws[w], k);
    assert forall k | 0 <= k < |s.recs| :: !s.recs[k].word.lock;
  }

  lemma InitInv(s: State)
    requires Init(s)
    ensures Inv(s, Values(s))
  {
    InitBase(s);
    assert forall w, k: nat | 0 <= w < |s.ws| :: !Holds(s.ws[w], k);
    forall k | 0 <= k < |s.recs| ensures RecOk(s, Values(s), k) {
      assert Ver(s.recs[k].word) == 0x2000_0000;
    }
    forall w | 0 <= w < |s.ws| ensures WorkerOk(s, Values(s), s.ws[w]) {
    }
  }

  lemma BaseStep(s: State, w: nat, c: Choice)
    requires Base(s) && Legal(s, w, c)
    ensures Base(Step(s, w, c))
  {
    WfStep(s, w, c);
    LocksStep(s, w, c);
    GapStep(s, w, c);
    LogStep(s, w, c);
  }

  lemma InvStep(s: State, init: seq<Bytes>, w: nat, c: Choice)
    requires Inv(s, init) && Legal(s, w, c) && HasRoom(s, w)
    ensures Inv(Step(s, w, c), init)
  {
    BaseStep(s, w, c);
    SerialStep(s, init, w, c);
  }

  lemma {:induction false} RunBase(run: seq<State>, schedule: seq<Event>, i: nat)
    requires IsRun(run, schedule) && i < |run|
    ensures Base(run[i])
  {
    if i == 0 {
      InitBase(run[0]);
    } else {
      RunBase(run, schedule, i - 1);
      assert StepAt(run, schedule, i - 1);
      BaseStep(run[i - 1], schedule[i - 1].w, schedule[i - 1].c);
    }
  }

  lemma {:induction false} RunInv(run: seq<State>, schedule: seq<Event>, i: nat)
    requires IsRun(run, schedule) && i < |run| && NoWrap(run, schedule, i)
    ensures Inv(run[i], Values(run[0]))
  {
    if i == 0 {
      InitInv(run[0]);
    } else {
      assert StepAt(run, schedule, i - 1) && RoomAt(run, schedule, i - 1);
      RunInv(run, schedule, i - 1);
      InvStep(run[i - 1], Values(run[0]), schedule[i - 1].w, schedule[i - 1].c);
    }
  }

  /**
   * In a run with fewer than 2^29 commits in each epoch, no tid exceeds the number of commits in its word's
   * epoch, and so every choice of a TID has room.
   */
  lemma {:induction false} TidBound(run: seq<State>, schedule: seq<Event>, i: nat)
    requires IsRun(run, schedule) && i < |run| && InRange(run[i])
    ensures RecsLow(run[i], run[i].log)
    ensures forall w | 0 <= w < |run[i].ws| :: TidsLow(run[i].ws[w], run[i].log)
    ensures NoWrap(run, schedule, i)
  {
    hide InRange, RecsLow, TidsLow, HasRoom, MoreCommits;
    if i > 0 {
      assert StepAt(run, schedule, i - 1);
      RunBase(run, schedule, i - 1);
      CommitsGrow(run[i - 1], schedule[i - 1].w, schedule[i - 1].c);
      RangeBack(run[i - 1], run[i]);
      TidBound(run, schedule, i - 1);
      BoundedStep(run[i - 1], schedule[i - 1].w, schedule[i - 1].c);
      assert RoomAt(run, schedule, i - 1);
    } else {
      InitBounded(run[0]);
    }
  }

  lemma InitBounded(s: State)
    requires Init(s)
    ensures Bounded(s)
  {
  }

  lemma RangeBack(s: State, s': State)
    requires MoreCommits(s.log, s'.log) && InRange(s')
    ensures InRange(s)
  {
  }

  // ---- serializability ----

  /** Every read of the committed transaction q saw what running the committed transactions before it serially shows. */
  ghost predicate ReadsSerial(log: seq<Entry>, init: seq<Bytes>, q: nat)
    requires q < |log|
  {
    forall i | 0 <= i < |log[q].seen| :: ReadAgrees(log, init, q, i)
  }

  /**
   * In every run, the committed transactions in the order of their lock points form a serial execution:
   * each of their reads returned the version, TID and bytes, of the last earlier writer of the record,
   * and each record that is not locked holds the version of its last writer.
   */
  lemma Serializability(run: seq<State>, schedule: seq<Event>, i: nat)
    requires IsRun(run, schedule) && i < |run| && NoWrap(run, schedule, i)
    ensures forall q | 0 <= q < |run[i].log| && run[i].log[q].status.Committed? ::
              ReadsSerial(run[i].log, Values(run[0]), q)
    ensures forall k | 0 <= k < |run[i].recs| && !run[i].recs[k].word.lock ::
              Version(Ver(run[i].recs[k].word), run[i].recs[k].value) == Latest(run[i], Values(run[0]), k)
  {
    RunInv(run, schedule, i);
    var s, init := run[i], Values(run[0]);
    forall q | 0 <= q < |s.log| && s.log[q].status.Committed? ensures ReadsSerial(s.log, init, q) {
      assert EntryWf(s.log[q]);
    }
    forall k | 0 <= k < |s.recs| && !s.recs[k].word.lock
      ensures Version(Ver(s.recs[k].word), s.recs[k].value) == Latest(s, init, k)
    {
      assert RecOk(s, init, k);
    }
  }

  /** A step leaves every entry in its place, and a decided one as it is. */
  ghost predicate LogKept(log: seq<Entry>, log': seq<Entry>) {
    && |log| <= |log'|
    && forall q | 0 <= q < |log| ::
         log'[q].worker == log[q].worker && (log[q].status != Pending ==> log'[q] == log[q])
  }

  /** If worker u is past its lock point, its transaction is in the log, at n or later. */
  ghost predicate From(n: nat, log: seq<Entry>, u: Worker) {
    n <= |log| && (Logged(u.pc) ==> n <= u.pos < |log|)
  }

  lemma KeptItself(log: seq<Entry>)
    ensures LogKept(log, log)
  {
  }

  lemma KeptTwice(a: seq<Entry>, b: seq<Entry>, c: seq<Entry>)
    requires LogKept(a, b) && LogKept(b, c)
    ensures LogKept(a, c)
  {
  }

  lemma LogKeptStep(s: State, w: nat, c: Choice)
    requires Base(s) && Legal(s, w, c)
    ensures LogKept(s.log, Step(s, w, c).log) && |Step(s, w, c).ws| == |s.ws|
  {
    MoveEntry(s, w, s.ws[w], c);
    AfterKept(s, w, MoveOf(s, w, s.ws[w], c));
  }

  lemma AfterKept(s: State, w: nat, m: Move)
    requires w < |s.ws| && EntryMove(s, w, s.ws[w], m)
    ensures LogKept(s.log, After(s, w, m).log)
  {
    hide EntryOk;
  }

  lemma FromStep(s: State, w: nat, c: Choice, v: nat, n: nat)
    requires Base(s) && Legal(s, w, c) && v < |s.ws| && From(n, s.log, s.ws[v])
    ensures v < |Step(s, w, c).ws| && From(n, Step(s, w, c).log, Step(s, w, c).ws[v])
  {
    MoveEntry(s, w, s.ws[w], c);
    AfterFrom(s, w, MoveOf(s, w, s.ws[w], c), v, n);
  }

  lemma AfterFrom(s: State, w: nat, m: Move, v: nat, n: nat)
    requires w < |s.ws| && v < |s.ws| && EntryMove(s, w, s.ws[w], m) && From(n, s.log, s.ws[v])
    ensures From(n, After(s, w, m).log, After(s, w, m).ws[v])
  {
    hide EntryOk;
  }

  lemma {:induction false} RunLogKept(run: seq<State>, schedule: seq<Event>, i: nat, j: nat)
    requires IsRun(run, schedule) && i <= j < |run|
    ensures LogKept(run[i].log, run[j].log) && |run[i].ws| == |run[j].ws|
  {
    if i < j {
      hide Base, Legal, LogKept, Step;
      RunLogKept(run, schedule, i, j - 1);
      assert StepAt(run, schedule, j - 1);
      RunBase(run, schedule, j - 1);
      LogKeptStep(run[j - 1], schedule[j - 1].w, schedule[j - 1].c);
      KeptTwice(run[i].log, run[j - 1].log, run[j].log);
    } else {
      KeptItself(run[i].log);
    }
  }

  lemma FromAt(run: seq<State>, schedule: seq<Event>, k: nat, v: nat, n: nat)
    requires IsRun(run, schedule) && k < |schedule| && v < |run[k].ws| && From(n, run[k].log, run[k].ws[v])
    ensures v < |run[k + 1].ws| && From(n, run[k + 1].log, run[k + 1].ws[v])
  {
    hide Base, From;
    assert StepAt(run, schedule, k);
    RunBase(run, schedule, k);
    FromStep(run[k], schedule[k].w, schedule[k].c, v, n);
  }

  /** What a worker enters after the state j comes after all that is in the log of that state. */
  lemma {:induction false} EnteredLater(run: seq<State>, schedule: seq<Event>, j: nat, k: nat, w: nat)
    requires IsRun(run, schedule) && j <= k < |run| && w < |run[j].ws| && !Logged(run[j].ws[w].pc)
    ensures w < |run[k].ws| && From(|run[j].log|, run[k].log, run[k].ws[w])
  {
    if j < k {
      hide Base, From, Legal, Step, StepAt;
      EnteredLater(run, schedule, j, k - 1, w);
      FromAt(run, schedule, k - 1, w, |run[j].log|);
    }
  }

  /**
   * The serial order respects real time: if transaction q is decided in state i, and worker w has not come to its
   * lock point in state j, at i or later, then whatever transaction it has in the log afterwards comes after q, and
   * q is still what it was decided to be.
   */
  lemma RealTime(run: seq<State>, schedule: seq<Event>, i: nat, j: nat, k: nat, q: nat, w: nat)
    requires IsRun(run, schedule) && i <= j <= k < |run| && q < |run[i].log| && run[i].log[q].status != Pending
    requires w < |run[j].ws| && !Logged(run[j].ws[w].pc)
    ensures q < |run[k].log| && run[k].log[q] == run[i].log[q]
    ensures w < |run[k].ws|
    ensures Logged(run[k].ws[w].pc) ==>
              && q < run[k].ws[w].pos < |run[k].log| && run[k].log[run[k].ws[w].pos].worker == w
  {
    RunLogKept(run, schedule, i, j);
    RunLogKept(run, schedule, i, k);
    EnteredLater(run, schedule, j, k, w);
    RunBase(run, schedule, k);
  }

  /** With no transaction under way, the table is what the serial execution leaves, and nothing is locked. */
  lemma QuiescentTable(run: seq<State>, schedule: seq<Event>, i: nat)
    requires IsRun(run, schedule) && i < |run| && NoWrap(run, schedule, i)
    requires forall w | 0 <= w < |run[i].ws| :: Outside(run[i].ws[w].pc)
    ensures forall k | 0 <= k < |run[i].recs| ::
              && !run[i].recs[k].word.lock
              && Version(Ver(run[i].recs[k].word), run[i].recs[k].value) == Latest(run[i], Values(run[0]), k)
  {
    RunBase(run, schedule, i);
    forall k | 0 <= k < |run[i].recs| ensures !run[i].recs[k].word.lock {
      assert forall w | 0 <= w < |run[i].ws| :: !Holds(run[i].ws[w], k);
      assert !Owned(run[i], k);
    }
    Serializability(run, schedule, i);
  }

  /** The bytes and the TID that read() accepts are those of the record's latest committed version, never a mixture. */
  lemma NoTornRead(run: seq<State>, schedule: seq<Event>, i: nat, w: nat, c: Choice)
    requires IsRun(run, schedule) && i < |run| && NoWrap(run, schedule, i) && Legal(run[i], w, c)
    requires run[i].ws[w].pc.Reading? && Step(run[i], w, c).ws[w].pc.Exec?
    ensures
      var u := run[i].ws[w];
      var k := u.pc.key;
      && Step(run[i], w, c).ws[w].readSet == u.readSet + [ReadElem(k, u.pc.expected, u.pc.buf)]
      && Version(Ver(u.pc.expected), u.pc.buf) == Latest(run[i], Values(run[0]), k)
  {
    RunInv(run, schedule, i);
    var s, init := run[i], Values(run[0]);
    var u := s.ws[w];
    assert WorkerWf(|s.recs|, |s.ws|, w, u) && WorkerOk(s, init, u);
    assert RecOk(s, init, u.pc.key);
  }

  // ---- TIDs and epochs ----

  /** Along the serial order, the TIDs committed to each record strictly increase. */
  lemma TidOrder(run: seq<State>, schedule: seq<Event>, i: nat)
    requires IsRun(run, schedule) && i < |run| && NoWrap(run, schedule, i)
    ensures forall q, r, k: nat
              | 0 <= q < r < |run[i].log| && CommitsWrite(run[i].log[q], k) && CommitsWrite(run[i].log[r], k) ::
              Ver(run[i].log[q].status.tid) < Ver(run[i].log[r].status.tid)
  {
    RunInv(run, schedule, i);
  }

  lemma {:induction false} RunAges(run: seq<State>, schedule: seq<Event>, i: nat)
    requires IsRun(run, schedule) && i < |run| && run[i].epoch < EPOCH_LIMIT
    ensures Ages(run[i])
  {
    hide Ages, Base, AgesOk;
    if i == 0 {
      InitAges(run[0]);
    } else {
      RunBase(run, schedule, i - 1);
      assert StepAt(run, schedule, i - 1);
      AgesBack(run[i - 1], schedule[i - 1].w, schedule[i - 1].c);
      RunAges(run, schedule, i - 1);
      BaseAges(run[i - 1], schedule[i - 1].w, schedule[i - 1].c);
    }
  }

  lemma InitAges(s: State)
    requires Init(s)
    ensures Ages(s)
  {
  }

  lemma AgesBack(s: State, w: nat, c: Choice)
    requires Base(s) && Legal(s, w, c)
    ensures s.epoch <= Step(s, w, c).epoch
  {
    EpochGrows(s, w, c);
  }

  lemma BaseAges(s: State, w: nat, c: Choice)
    requires Base(s) && Ages(s) && Legal(s, w, c) && Step(s, w, c).epoch < EPOCH_LIMIT
    ensures Ages(Step(s, w, c))
  {
    AgesStep(s, w, c);
  }

  /** Epochs agree with the serial order: a commit's is the one loaded at its lock point, and they never decrease. */
  lemma EpochsInOrder(run: seq<State>, schedule: seq<Event>, i: nat)
    requires IsRun(run, schedule) && i < |run| && run[i].epoch < EPOCH_LIMIT
    ensures forall q, r
              | 0 <= q < r < |run[i].log| && run[i].log[q].status.Committed? && run[i].log[r].status.Committed? ::
              run[i].log[q].status.tid.epoch <= run[i].log[r].status.tid.epoch
    ensures forall q | 0 <= q < |run[i].log| && run[i].log[q].status.Committed? ::
              run[i].log[q].status.tid.epoch == AtLeast1(run[i].log[q].epoch)
  {
    RunAges(run, schedule, i);
    var log := run[i].log;
    forall q, r | 0 <= q < r < |log| && log[q].status.Committed? && log[r].status.Committed?
      ensures log[q].status.tid.epoch <= log[r].status.tid.epoch
    {
      assert log[q].epoch <= log[r].epoch;
    }
  }

  /** Silo's requirement: for every worker, the leader included, 0 <= E - e_w <= 1 at all times. */
  lemma EpochGap(run: seq<State>, schedule: seq<Event>, i: nat, w: nat)
    requires IsRun(run, schedule) && i < |run| && w < |run[i].ws|
    ensures 0 <= run[i].epoch - run[i].ws[w].epoch <= 1
  {
    RunBase(run, schedule, i);
    assert GapOk(run[i].epoch, run[i].ws[w]);
  }

  // ---- locks ----

  /**
   * A record is locked exactly when a worker owns its lock; owners are unique; a worker that is not
   * committing has none.
   */
  lemma LockDiscipline(run: seq<State>, schedule: seq<Event>, i: nat, k: nat)
    requires IsRun(run, schedule) && i < |run| && k < |run[i].recs|
    ensures run[i].recs[k].word.lock <==> exists w :: 0 <= w < |run[i].ws| && Holds(run[i].ws[w], k)
    ensures forall v, w
              | 0 <= v < |run[i].ws| && 0 <= w < |run[i].ws| && Holds(run[i].ws[v], k) && Holds(run[i].ws[w], k) ::
              v == w
    ensures forall w | 0 <= w < |run[i].ws| && (Outside(run[i].ws[w].pc) || Executing(run[i].ws[w].pc)) ::
              !Holds(run[i].ws[w], k)
  {
    RunBase(run, schedule, i);
    if run[i].recs[k].word.lock {
      assert Owned(run[i], k);
    }
  }

  /** A step that leaves v's lock on k in place, and is not a write of v's, leaves record k in place. */
  lemma HeldUnchanged(s: State, w: nat, c: Choice, v: nat, k: nat)
    requires Wf(s) && Locks(s) && Legal(s, w, c) && v < |s.ws| && k < |s.recs|
    requires Holds(s.ws[v], k) && !s.ws[v].pc.WriteRec? && Holds(Step(s, w, c).ws[v], k)
    ensures Step(s, w, c).recs[k] == s.recs[k]
  {
    MoveLocks(s, w, s.ws[w], c);
    LockedBy(s, v, k);
    PutKinds(s, w, s.ws[w], c);
  }

  lemma PutKinds(s: State, w: nat, u: Worker, c: Choice)
    requires Wf(s) && Legal(s, w, c) && u == s.ws[w]
    ensures var m := MoveOf(s, w, u, c); m.eff.PutRec? && !u.pc.WriteRec? ==> Takes(s, u, m) || Drops(s, u, m)
  {
    assert WorkerWf(|s.recs|, |s.ws|, w, u);
    if u.pc.LockTry? {
      LockMove(s, w, u);
    } else if u.pc.UnlockStore? {
      UnlockMove(s, w, u);
    }
  }

  lemma {:induction false} RunShape(run: seq<State>, schedule: seq<Event>, i: nat)
    requires IsRun(run, schedule) && i < |run|
    ensures |run[i].ws| == |run[0].ws| && |run[i].recs| == |run[0].recs|
  {
    if i > 0 {
      assert StepAt(run, schedule, i - 1);
      RunShape(run, schedule, i - 1);
    }
  }

  /** Worker w holds record k and has not committed. */
  ghost predicate HoldsOpen(s: State, w: nat, k: nat) {
    w < |s.ws| && k < |s.recs| && Holds(s.ws[w], k) && !s.ws[w].pc.WriteRec?
  }

  lemma HeldAt(run: seq<State>, schedule: seq<Event>, j: nat, w: nat, k: nat)
    requires IsRun(run, schedule) && j < |schedule| && HoldsOpen(run[j], w, k) && HoldsOpen(run[j + 1], w, k)
    ensures run[j + 1].recs[k] == run[j].recs[k]
  {
    RunBase(run, schedule, j);
    assert StepAt(run, schedule, j);
    HeldUnchanged(run[j], schedule[j].w, schedule[j].c, w, k);
  }

  lemma {:induction false} HeldThroughout(run: seq<State>, schedule: seq<Event>, i: nat, j: nat, w: nat, k: nat)
    requires IsRun(run, schedule) && i <= j < |run|
    requires forall t | i <= t <= j :: HoldsOpen(run[t], w, k)
    ensures k < |run[i].recs| && k < |run[j].recs| && run[j].recs[k] == run[i].recs[k]
  {
    assert HoldsOpen(run[i], w, k) && HoldsOpen(run[j], w, k);
    if i < j {
      HeldThroughout(run, schedule, i, j - 1, w, k);
      assert HoldsOpen(run[j - 1], w, k);
      HeldAt(run, schedule, j - 1, w, k);
    }
  }

  /** A lock taken at step i and given up at step j without a commit leaves the record, word and bytes, as it was. */
  lemma AbortRestores(run: seq<State>, schedule: seq<Event>, i: nat, j: nat, w: nat, k: nat)
    requires IsRun(run, schedule) && i < j < |schedule| && w < |run[0].ws| && k < |run[0].recs|
    requires w < |run[i].ws| && !Holds(run[i].ws[w], k)
    requires forall t | i < t <= j :: HoldsOpen(run[t], w, k)
    requires w < |run[j + 1].ws| && !Holds(run[j + 1].ws[w], k)
    ensures k < |run[i].recs| && k < |run[j + 1].recs| && run[j + 1].recs[k] == run[i].recs[k]
  {
    RunShape(run, schedule, i);
    RunShape(run, schedule, j + 1);
    assert HoldsOpen(run[i + 1], w, k) && HoldsOpen(run[j], w, k);
    HeldThroughout(run, schedule, i + 1, j, w, k);
    TakeAt(run, schedule, i, w, k);
    DropAt(run, schedule, j, w, k);
  }

  lemma TakeAt(run: seq<State>, schedule: seq<Event>, i: nat, w: nat, k: nat)
    requires IsRun(run, schedule) && i < |schedule| && w < |run[i].ws| && k < |run[i].recs|
    requires !Holds(run[i].ws[w], k) && HoldsOpen(run[i + 1], w, k)
    ensures !run[i].recs[k].word.lock
    ensures run[i + 1].recs[k] == run[i].recs[k].(word := run[i].recs[k].word.(lock := true))
  {
    RunBase(run, schedule, i);
    assert StepAt(run, schedule, i);
    TakeLocks(run[i], schedule[i].w, schedule[i].c, w, k);
  }

  lemma DropAt(run: seq<State>, schedule: seq<Event>, j: nat, w: nat, k: nat)
    requires IsRun(run, schedule) && j < |schedule| && HoldsOpen(run[j], w, k)
    requires w < |run[j + 1].ws| && !Holds(run[j + 1].ws[w], k) && k < |run[j + 1].recs|
    ensures run[j + 1].recs[k] == run[j].recs[k].(word := run[j].recs[k].word.(lock := false))
  {
    RunBase(run, schedule, j);
    assert StepAt(run, schedule, j);
    DropRestores(run[j], schedule[j].w, schedule[j].c, w, k);
  }

  lemma TakeLocks(s: State, v: nat, c: Choice, w: nat, k: nat)
    requires Wf(s) && Locks(s) && Legal(s, v, c) && w < |s.ws| && k < |s.recs|
    requires !Holds(s.ws[w], k) && Holds(Step(s, v, c).ws[w], k)
    ensures !s.recs[k].word.lock && Step(s, v, c).recs[k] == s.recs[k].(word := s.recs[k].word.(lock := true))
  {
    MoveLocks(s, v, s.ws[v], c);
  }

  /** An unlocking that is not a commit's store clears the lock bit and nothing else. */
  lemma DropRestores(s: State, v: nat, c: Choice, w: nat, k: nat)
    requires Wf(s) && Locks(s) && Legal(s, v, c) && HoldsOpen(s, w, k) && !Holds(Step(s, v, c).ws[w], k)
    ensures Step(s, v, c).recs[k] == s.recs[k].(word := s.recs[k].word.(lock := false))
  {
    assert WorkerWf(|s.recs|, |s.ws|, v, s.ws[v]) && HandOk(s, s.ws[v]);
    MoveLocks(s, v, s.ws[v], c);
  }

  // ---- progress ----

  /** Worker w can only spin: it waits for the lock of a record that is locked now. */
  ghost predicate Waiting(s: State, w: nat)
    requires w < |s.ws|
  {
    match s.ws[w].pc
    case Reading(_, k, expected, _) => expected.lock && k < |s.recs| && s.recs[k].word.lock
    case LockTry(i, _) =>
      i < |s.ws[w].writeSet| && s.ws[w].writeSet[i] < |s.recs| && s.recs[s.ws[w].writeSet[i]].word.lock
    case _ => false
  }

  ghost predicate CanMove(s: State, w: nat) {
    w < |s.ws| && !s.ws[w].pc.Stopped? && !Waiting(s, w)
  }

  /** Following owners from a locked record leads, along ever larger keys, to a worker that can move. */
  lemma OwnerMoves(s: State, k: nat) returns (w: nat)
    requires Wf(s) && Locks(s) && k < |s.recs| && s.recs[k].word.lock
    ensures CanMove(s, w)
    decreases |s.recs| - k
  {
    assert Owned(s, k);
    var v :| 0 <= v < |s.ws| && Holds(s.ws[v], k);
    assert WorkerWf(|s.recs|, |s.ws|, v, s.ws[v]);
    if Waiting(s, v) {
      var u := s.ws[v];
      var j :| HeldFrom(u) <= j < HeldTo(u) && j < |u.writeSet| && u.writeSet[j] == k;
      assert u.writeSet[j] < u.writeSet[u.pc.i];
      w := OwnerMoves(s, u.writeSet[u.pc.i]);
    } else {
      w := v;
    }
  }

  /** Deadlock freedom: as long as some worker has not stopped, some worker can take a step that is not a spin. */
  lemma DeadlockFree(run: seq<State>, schedule: seq<Event>, i: nat, v: nat) returns (w: nat)
    requires IsRun(run, schedule) && i < |run| && v < |run[i].ws| && !run[i].ws[v].pc.Stopped?
    ensures CanMove(run[i], w)
    ensures forall c: Choice | Legal(run[i], w, c) :: Step(run[i], w, c).ws[w].pc != run[i].ws[w].pc
  {
    RunBase(run, schedule, i);
    var s := run[i];
    if Waiting(s, v) {
      var k := if s.ws[v].pc.Reading? then s.ws[v].pc.key else s.ws[v].writeSet[s.ws[v].pc.i];
      w := OwnerMoves(s, k);
    } else {
      w := v;
    }
    forall c: Choice | Legal(s, w, c) ensures Step(s, w, c).ws[w].pc != s.ws[w].pc {
      Moves(s, w, s.ws[w], c);
    }
  }

  lemma Moves(s: State, w: nat, u: Worker, c: Choice)
    requires Wf(s) && CanMove(s, w) && Legal(s, w, c) && u == s.ws[w]
    ensures MoveOf(s, w, u, c).u.pc != u.pc
  {
    assert WorkerWf(|s.recs|, |s.ws|, w, u);
  }
}
