/**
 * The transaction log: each transaction past its lock point has one entry, the entries' epochs grow,
 * a committed TID's epoch is the one loaded at the lock point, and no tid exceeds the number of commits
 * in its word's epoch.
 */
module SiloLog {
  import opened SiloTid
  import opened SiloMachine
  import opened SiloLocks
  import opened SiloEpoch

  // ---- log entries mirror the workers ----

  ghost predicate StatusOk(u: Worker, e: Entry) {
    && (u.pc.EpochStore? || u.pc.Validate? || u.pc.Choose? ==> e.status == Pending)
    && (u.pc.WriteRec? ==> e.status == Committed(u.last))
    && (u.pc.UnlockLoad? || u.pc.UnlockStore? ==> e.status == Aborted)
  }

  ghost predicate CheckedOk(u: Worker, e: Entry) {
    && e.checked <= |e.seen|
    && (u.pc.EpochStore? ==> e.checked == 0)
    && (u.pc.Validate? ==> e.checked == u.pc.i)
    && (u.pc.Choose? || u.pc.WriteRec? ==> e.checked == |e.seen|)
  }

  ghost predicate EntryOk(w: nat, u: Worker, e: Entry) {
    && e.worker == w && e.seen == u.readSet && e.writes == u.writeSet && e.value == u.value
    && e.epoch == (if u.pc.EpochStore? then u.pc.e else u.epoch)
    && CheckedOk(u, e)
    && StatusOk(u, e)
  }

  ghost predicate LogOk(s: State) {
    && (forall w | 0 <= w < |s.ws| && Logged(s.ws[w].pc) ::
          s.ws[w].pos < |s.log| && EntryOk(w, s.ws[w], s.log[s.ws[w].pos]))
    && (forall p | 0 <= p < |s.log| :: EntryWf(s.log[p]))
  }

  ghost predicate EntryWf(e: Entry) {
    e.checked <= |e.seen| && (e.status.Committed? ==> e.checked == |e.seen|)
  }

  /** The entry of the moving worker after its move. */
  ghost predicate EntryMove(s: State, w: nat, u: Worker, m: Move) {
    && (m.eff.Append? ==>
          && m.eff.entry.status == Pending && m.eff.entry.epoch == s.epoch
          && m.u.pos == |s.log| && Logged(m.u.pc) && EntryOk(w, m.u, m.eff.entry))
    && (m.eff.Decide? ==>
          && Logged(u.pc) && Logged(m.u.pc) && m.u.pos == u.pos == m.eff.pos && u.pos < |s.log|
          && s.log[u.pos].status == Pending && m.eff.status != Pending
          && EntryOk(w, m.u, s.log[u.pos].(status := m.eff.status))
          && EntryWf(s.log[u.pos].(status := m.eff.status)))
    && (m.eff.Mark? ==>
          && Logged(u.pc) && Logged(m.u.pc) && m.u.pos == u.pos == m.eff.pos && u.pos < |s.log|
          && s.log[u.pos].status == Pending
          && EntryOk(w, m.u, s.log[u.pos].(checked := s.log[u.pos].checked + 1)))
    && (!m.eff.Append? && !m.eff.Decide? && !m.eff.Mark? && Logged(m.u.pc) ==>
          Logged(u.pc) && m.u.pos == u.pos && u.pos < |s.log| && EntryOk(w, m.u, s.log[u.pos]))
  }

  lemma ValidateEntry(s: State, w: nat, u: Worker)
    requires LogOk(s) && w < |s.ws| && u == s.ws[w] && WorkerWf(|s.recs|, |s.ws|, w, u)
    requires (u.pc.EpochLoad? || u.pc.EpochStore? || u.pc.Validate?)
    ensures EntryMove(s, w, u, MoveValidate(s, w, u))
  {
  }

  lemma FinishEntry(s: State, w: nat, u: Worker)
    requires LogOk(s) && w < |s.ws| && u == s.ws[w]
    ensures u.pc.Choose? || u.pc.WriteRec? ==> EntryMove(s, w, u, MoveWrite(s, u))
    ensures u.pc.UnlockLoad? || u.pc.UnlockStore? ==> EntryMove(s, w, u, MoveUnlock(s, u))
  {
  }

  lemma OtherEntry(s: State, w: nat, u: Worker, c: Choice)
    requires !Logged(u.pc) && !u.pc.EpochLoad?
    ensures EntryMove(s, w, u, MoveOf(s, w, u, c))
  {
  }

  lemma MoveEntry(s: State, w: nat, u: Worker, c: Choice)
    requires Wf(s) && LogOk(s) && Legal(s, w, c) && u == s.ws[w]
    ensures EntryMove(s, w, u, MoveOf(s, w, u, c))
  {
    if u.pc.EpochLoad? || u.pc.EpochStore? || u.pc.Validate? {
      assert WorkerWf(|s.recs|, |s.ws|, w, u);
      ValidateEntry(s, w, u);
    } else if Logged(u.pc) {
      FinishEntry(s, w, u);
    } else {
      OtherEntry(s, w, u, c);
    }
  }

  lemma LogStep(s: State, w: nat, c: Choice)
    requires Wf(s) && LogOk(s) && Legal(s, w, c)
    ensures LogOk(Step(s, w, c))
  {
    MoveEntry(s, w, s.ws[w], c);
    AfterLog(s, w, MoveOf(s, w, s.ws[w], c));
  }

  lemma AfterLog(s: State, w: nat, m: Move)
    requires LogOk(s) && w < |s.ws| && EntryMove(s, w, s.ws[w], m)
    ensures LogOk(After(s, w, m))
  {
    var s' := After(s, w, m);
    forall v | 0 <= v < |s'.ws| && Logged(s'.ws[v].pc)
      ensures s'.ws[v].pos < |s'.log| && EntryOk(v, s'.ws[v], s'.log[s'.ws[v].pos])
    {
      if v != w {
        assert s'.ws[v] == s.ws[v];
      }
    }
  }

  // ---- counting commits ----

  /** The commit entry e adds to the count of epoch e. */
  function One(entry: Entry, e: nat): nat {
    if CommitsAt(entry, e) then 1 else 0
  }

  lemma CommitsAppend(log: seq<Entry>, entry: Entry, e: nat)
    ensures CommitsIn(log + [entry], e) == CommitsIn(log, e) + One(entry, e)
  {
    assert (log + [entry])[..|log|] == log;
  }

  lemma {:induction false} CommitsUpdate(log: seq<Entry>, p: nat, entry: Entry, e: nat)
    requires p < |log| && log[p].status == Pending
    ensures CommitsIn(log[p := entry], e) == CommitsIn(log, e) + One(entry, e)
  {
    var n := |log| - 1;
    if p == n {
      assert log[p := entry][..n] == log[..n];
    } else {
      CommitsUpdate(log[..n], p, entry, e);
      assert log[p := entry][..n] == log[..n][p := entry];
    }
  }

  /** Does this effect commit a transaction whose TID is in epoch e? */
  ghost predicate CommitsNow(eff: Effect, e: nat) {
    eff.Decide? && eff.status.Committed? && eff.status.tid.epoch == e
  }

  lemma AfterCommits(s: State, w: nat, m: Move, e: nat)
    requires LogOk(s) && w < |s.ws| && EntryMove(s, w, s.ws[w], m)
    ensures CommitsIn(After(s, w, m).log, e) == CommitsIn(s.log, e) + (if CommitsNow(m.eff, e) then 1 else 0)
  {
    if m.eff.Append? {
      CommitsAppend(s.log, m.eff.entry, e);
    } else if m.eff.Decide? {
      CommitsUpdate(s.log, m.eff.pos, s.log[m.eff.pos].(status := m.eff.status), e);
    } else if m.eff.Mark? {
      CommitsUpdate(s.log, m.eff.pos, s.log[m.eff.pos].(checked := s.log[m.eff.pos].checked + 1), e);
    }
  }

  /** The TID that a worker about to choose one chooses. */
  function Next(u: Worker): TidWord {
    ChooseTid(u.maxWrite, u.maxRead, u.last, u.epoch)
  }

  lemma CommitMove(s: State, w: nat, u: Worker, c: Choice, e: nat)
    ensures CommitsNow(MoveOf(s, w, u, c).eff, e) <==> u.pc.Choose? && Next(u).epoch == e
  {
  }

  /** The commits of an epoch grow by one exactly when a transaction chooses a TID in that epoch. */
  lemma CommitsStep(s: State, w: nat, c: Choice, e: nat)
    requires Wf(s) && LogOk(s) && Legal(s, w, c)
    ensures CommitsIn(Step(s, w, c).log, e) ==
            CommitsIn(s.log, e) + (if s.ws[w].pc.Choose? && Next(s.ws[w]).epoch == e then 1 else 0)
  {
    MoveEntry(s, w, s.ws[w], c);
    CommitMove(s, w, s.ws[w], c, e);
    AfterCommits(s, w, MoveOf(s, w, s.ws[w], c), e);
  }

  /** The commits of an epoch are commits. */
  lemma {:induction false} CommitsInAll(log: seq<Entry>, e: nat)
    ensures CommitsIn(log, e) <= Commits(log)
  {
    if log != [] {
      CommitsInAll(log[..|log| - 1], e);
    }
  }

  /** A run of fewer than 2^29 commits is in range whatever its epochs are. */
  lemma FewCommits(s: State)
    requires Commits(s.log) < TID_LIMIT
    ensures InRange(s)
  {
    forall e: nat ensures CommitsIn(s.log, e) < TID_LIMIT {
      CommitsInAll(s.log, e);
    }
  }

  // ---- the 29-bit bound ----

  /** Whether the TID that worker u chooses will exceed what it must exceed. */
  ghost predicate RoomToChoose(u: Worker) {
    Room(u.maxWrite, u.maxRead, u.last, u.epoch)
  }

  ghost predicate HasRoom(s: State, w: nat)
    requires w < |s.ws|
  {
    s.ws[w].pc.Choose? ==> RoomToChoose(s.ws[w])
  }

  /** The tid of word w is at most the number of commits in its epoch. */
  ghost predicate Low(w: TidWord, log: seq<Entry>) {
    w.tid <= CommitsIn(log, w.epoch)
  }

  /** ... and so is every tid that worker u carries. */
  ghost predicate TidsLow(u: Worker, log: seq<Entry>) {
    && Low(u.last, log) && Low(u.maxRead, log) && Low(u.maxWrite, log)
    && (forall i | 0 <= i < |u.readSet| :: Low(u.readSet[i].word, log))
    && (match u.pc
        case Reading(_, _, expected, _) => Low(expected, log)
        case LockTry(_, expected) => Low(expected, log)
        case UnlockStore(_, expected) => Low(expected, log)
        case _ => true)
  }

  ghost predicate RecsLow(s: State, log: seq<Entry>) {
    forall k | 0 <= k < |s.recs| :: Low(s.recs[k].word, log)
  }

  /** No tid anywhere exceeds the number of commits so far in its epoch. */
  ghost predicate Bounded(s: State) {
    && RecsLow(s, s.log)
    && forall w | 0 <= w < |s.ws| :: TidsLow(s.ws[w], s.log)
  }

  ghost predicate EffectLow(eff: Effect, log: seq<Entry>) {
    eff.PutRec? ==> Low(eff.rec.word, log)
  }

  /** No epoch loses commits. */
  ghost predicate MoreCommits(log: seq<Entry>, log': seq<Entry>) {
    forall e: nat :: CommitsIn(log, e) <= CommitsIn(log', e)
  }

  lemma ExecuteLow(s: State, w: nat, u: Worker, log: seq<Entry>, c: Choice)
    requires RecsLow(s, log) && TidsLow(u, log) && WorkerWf(|s.recs|, |s.ws|, w, u)
    requires Outside(u.pc) || Executing(u.pc)
    ensures TidsLow(MoveOf(s, w, u, c).u, log) && EffectLow(MoveOf(s, w, u, c).eff, log)
  {
    hide CommitsIn;
  }

  /** Choosing a TID is the one step that makes a new tid, and the epoch of the new TID has one commit more. */
  lemma ChooseLow(s: State, u: Worker, log: seq<Entry>, log': seq<Entry>)
    requires TidsLow(u, log) && u.pc.Choose? && MoreCommits(log, log')
    requires CommitsIn(log', Next(u).epoch) == CommitsIn(log, Next(u).epoch) + 1 < TID_LIMIT
    ensures TidsLow(MoveWrite(s, u).u, log') && EffectLow(MoveWrite(s, u).eff, log) && RoomToChoose(u)
  {
    hide CommitsIn, ChooseTid, Room, Exceeds;
    ChooseTidGrows((e: nat) => CommitsIn(log, e), u.maxWrite, u.maxRead, u.last, u.epoch);
    TidsGrow(u, log, log');
  }

  lemma TidsGrow(u: Worker, log: seq<Entry>, log': seq<Entry>)
    requires TidsLow(u, log) && MoreCommits(log, log')
    ensures TidsLow(u, log')
  {
    hide CommitsIn;
  }

  lemma FinishLow(s: State, u: Worker, log: seq<Entry>)
    requires RecsLow(s, log) && TidsLow(u, log)
    ensures u.pc.WriteRec? ==> TidsLow(MoveWrite(s, u).u, log) && EffectLow(MoveWrite(s, u).eff, log)
    ensures u.pc.UnlockLoad? || u.pc.UnlockStore? ==>
              TidsLow(MoveUnlock(s, u).u, log) && EffectLow(MoveUnlock(s, u).eff, log)
  {
    hide CommitsIn;
  }

  lemma ValidateLow(s: State, w: nat, u: Worker, log: seq<Entry>)
    requires RecsLow(s, log) && TidsLow(u, log)
    ensures u.pc.EpochLoad? || u.pc.EpochStore? || u.pc.Validate? ==>
              TidsLow(MoveValidate(s, w, u).u, log) && EffectLow(MoveValidate(s, w, u).eff, log)
    ensures u.pc.LockLoad? || u.pc.LockTry? ==> TidsLow(MoveLock(s, u).u, log) && EffectLow(MoveLock(s, u).eff, log)
  {
    hide CommitsIn;
  }

  lemma MoveLow(s: State, w: nat, u: Worker, c: Choice)
    requires RecsLow(s, s.log) && TidsLow(u, s.log) && WorkerWf(|s.recs|, |s.ws|, w, u) && !u.pc.Choose?
    ensures var m := MoveOf(s, w, u, c); TidsLow(m.u, s.log) && EffectLow(m.eff, s.log)
  {
    hide TidsLow, EffectLow, RecsLow, MoveOutside, MoveExec, MoveRead, MoveLock, MoveValidate, MoveWrite, MoveUnlock;
    if Outside(u.pc) || Executing(u.pc) {
      ExecuteLow(s, w, u, s.log, c);
    } else if u.pc.WriteRec? || u.pc.UnlockLoad? || u.pc.UnlockStore? {
      FinishLow(s, u, s.log);
    } else {
      ValidateLow(s, w, u, s.log);
    }
  }

  lemma AfterLow(s: State, w: nat, m: Move, log': seq<Entry>)
    requires Bounded(s) && MoreCommits(s.log, log') && w < |s.ws| && EffectLow(m.eff, s.log) && TidsLow(m.u, log')
    ensures RecsLow(After(s, w, m), log')
    ensures forall v | 0 <= v < |s.ws| :: TidsLow(After(s, w, m).ws[v], log')
  {
    hide TidsLow, CommitsIn;
    forall v | 0 <= v < |s.ws| && v != w ensures TidsLow(After(s, w, m).ws[v], log') {
      TidsGrow(s.ws[v], s.log, log');
    }
  }

  lemma CommitsGrow(s: State, w: nat, c: Choice)
    requires Wf(s) && LogOk(s) && Legal(s, w, c)
    ensures MoreCommits(s.log, Step(s, w, c).log)
  {
    forall e: nat ensures CommitsIn(s.log, e) <= CommitsIn(Step(s, w, c).log, e) {
      CommitsStep(s, w, c, e);
    }
  }

  /** So the tid field cannot wrap in a run with fewer than 2^29 commits in each epoch. */
  lemma BoundedStep(s: State, w: nat, c: Choice)
    requires Wf(s) && LogOk(s) && Bounded(s) && Legal(s, w, c) && InRange(Step(s, w, c))
    ensures Bounded(Step(s, w, c))
    ensures HasRoom(s, w)
  {
    hide RecsLow, TidsLow, EffectLow, LogOk, CommitsIn, ChooseTid;
    var u, log' := s.ws[w], Step(s, w, c).log;
    assert WorkerWf(|s.recs|, |s.ws|, w, u);
    CommitsGrow(s, w, c);
    if u.pc.Choose? {
      CommitsStep(s, w, c, Next(u).epoch);
      ChooseLow(s, u, s.log, log');
      assert MoveOf(s, w, u, c) == MoveWrite(s, u);
    } else {
      MoveLow(s, w, u, c);
      TidsGrow(MoveOf(s, w, u, c).u, s.log, log');
    }
    AfterLow(s, w, MoveOf(s, w, u, c), log');
  }

  lemma EpochGrows(s: State, w: nat, c: Choice)
    requires Wf(s) && Gap(s) && Legal(s, w, c)
    ensures s.epoch <= Step(s, w, c).epoch
  {
    MoveGap(s, w, s.ws[w], c);
  }

  // ---- epochs in the serial order ----

  /** The epoch of everything a transaction has seen so far is at most this. */
  function Horizon(s: State, u: Worker): nat {
    if Logged(u.pc) && u.pos < |s.log| then AtLeast1(s.log[u.pos].epoch) else AtLeast1(s.epoch)
  }

  function AtLeast1(e: nat): nat {
    if e < 1 then 1 else e
  }

  /** Epochs carried by worker u lie between 1 and the horizon h; the maxima start at zero. */
  ghost predicate AgesOk(u: Worker, h: nat) {
    && u.last.epoch <= h && u.maxRead.epoch <= h && u.maxWrite.epoch <= h
    && (forall i | 0 <= i < |u.readSet| :: 1 <= u.readSet[i].word.epoch <= h)
    && (match u.pc
        case Reading(_, _, expected, _) => 1 <= expected.epoch <= h
        case LockLoad(i) => i > 0 ==> u.maxWrite.epoch >= 1
        case LockTry(i, expected) => 1 <= expected.epoch <= h && (i > 0 ==> u.maxWrite.epoch >= 1)
        case EpochLoad => |u.writeSet| > 0 ==> u.maxWrite.epoch >= 1
        case EpochStore(_) => |u.writeSet| > 0 ==> u.maxWrite.epoch >= 1
        case Validate(i) => (|u.writeSet| > 0 ==> u.maxWrite.epoch >= 1) && (i > 0 ==> u.maxRead.epoch >= 1)
        case Choose => u.maxWrite.epoch >= 1 || u.maxRead.epoch >= 1
        case WriteRec(_, _) => 1 <= u.last.epoch
        case _ => true)
  }

  ghost predicate RecAges(s: State) {
    forall k | 0 <= k < |s.recs| :: 1 <= s.recs[k].word.epoch <= AtLeast1(s.epoch)
  }

  /** Log epochs never decrease along the serial order, and a commit's epoch is the one it loaded at its lock point. */
  ghost predicate EpochOrder(log: seq<Entry>, e: nat) {
    && (forall i, j | 0 <= i <= j < |log| :: log[i].epoch <= log[j].epoch)
    && (forall i | 0 <= i < |log| :: log[i].epoch <= e)
    && (forall i | 0 <= i < |log| && log[i].status.Committed? :: log[i].status.tid.epoch == AtLeast1(log[i].epoch))
  }

  ghost predicate Ages(s: State) {
    && EpochOrder(s.log, s.epoch)
    && RecAges(s)
    && forall w | 0 <= w < |s.ws| :: AgesOk(s.ws[w], Horizon(s, s.ws[w]))
  }

  lemma AgesGrow(u: Worker, h: nat, h': nat)
    requires AgesOk(u, h) && h <= h'
    ensures AgesOk(u, h')
  {
  }

  lemma ExecuteAges(s: State, w: nat, u: Worker, c: Choice)
    requires Wf(s) && RecAges(s) && Legal(s, w, c) && u == s.ws[w] && (Outside(u.pc) || Executing(u.pc))
    requires AgesOk(u, AtLeast1(s.epoch))
    ensures AgesOk(MoveOf(s, w, u, c).u, AtLeast1(s.epoch))
  {
    assert WorkerWf(|s.recs|, |s.ws|, w, u);
  }

  lemma LockAges(s: State, w: nat, u: Worker)
    requires RecAges(s) && WorkerWf(|s.recs|, |s.ws|, w, u) && (u.pc.LockLoad? || u.pc.LockTry?)
    requires AgesOk(u, AtLeast1(s.epoch))
    ensures AgesOk(MoveLock(s, u).u, AtLeast1(s.epoch))
  {
  }

  lemma ValidateAges(s: State, w: nat, u: Worker, h: nat)
    requires WorkerWf(|s.recs|, |s.ws|, w, u) && (u.pc.EpochLoad? || u.pc.EpochStore? || u.pc.Validate?)
    requires AgesOk(u, h)
    ensures AgesOk(MoveValidate(s, w, u).u, h)
  {
    if u.pc.Validate? && u.pc.i < |u.readSet| {
      var check := Load(s, u.readSet[u.pc.i].key);
      MaxVer(u.maxRead, check);
      VerParts(u.maxRead, check);
    }
  }

  /** The epoch of the TID a commit chooses. */
  lemma ChosenEpoch(s: State, u: Worker)
    requires u.pc.Choose? && AgesOk(u, AtLeast1(u.epoch)) && u.epoch < EPOCH_LIMIT
    ensures ChooseTid(u.maxWrite, u.maxRead, u.last, u.epoch).epoch == AtLeast1(u.epoch)
    ensures AgesOk(MoveWrite(s, u).u, AtLeast1(u.epoch))
  {
    hide ChooseTid;
    ChooseTidTaken(u.maxWrite, u.maxRead, u.last, u.epoch);
  }

  lemma FinishAges(s: State, u: Worker, h: nat)
    requires AgesOk(u, h)
    ensures u.pc.WriteRec? ==> AgesOk(MoveWrite(s, u).u, h)
    ensures u.pc.UnlockLoad? || u.pc.UnlockStore? ==> AgesOk(MoveUnlock(s, u).u, h)
  {
  }

  lemma MoveAges(s: State, w: nat, u: Worker, c: Choice)
    requires Wf(s) && LogOk(s) && Ages(s) && Gap(s) && Legal(s, w, c) && u == s.ws[w]
    requires u.pc.Choose? ==> u.epoch < EPOCH_LIMIT
    ensures AgesOk(MoveOf(s, w, u, c).u, Horizon(s, u))
  {
    hide AgesOk, MoveOutside, MoveExec, MoveRead, MoveLock, MoveValidate, MoveWrite, MoveUnlock;
    assert WorkerWf(|s.recs|, |s.ws|, w, u) && AgesOk(u, Horizon(s, u));
    if Outside(u.pc) || Executing(u.pc) {
      ExecuteAges(s, w, u, c);
    } else if u.pc.LockLoad? || u.pc.LockTry? {
      LockAges(s, w, u);
    } else if u.pc.Choose? {
      ChosenEpoch(s, u);
    } else if u.pc.WriteRec? || u.pc.UnlockLoad? || u.pc.UnlockStore? {
      FinishAges(s, u, Horizon(s, u));
    } else {
      ValidateAges(s, w, u, Horizon(s, u));
    }
  }

  ghost predicate EffectAges(s: State, eff: Effect) {
    && (eff.PutRec? ==> 1 <= eff.rec.word.epoch <= AtLeast1(s.epoch))
    && (eff.Decide? && eff.pos < |s.log| && eff.status.Committed? ==>
          eff.status.tid.epoch == AtLeast1(s.log[eff.pos].epoch))
    && (eff.Append? ==> eff.entry.epoch == s.epoch && eff.entry.status == Pending)
    && (eff.SetEpoch? ==> eff.epoch >= s.epoch)
  }

  lemma FinishEffectAges(s: State, w: nat, u: Worker)
    requires Wf(s) && LogOk(s) && Locks(s) && Ages(s) && w < |s.ws| && u == s.ws[w]
    requires u.pc.Choose? ==> u.epoch < EPOCH_LIMIT
    ensures u.pc.Choose? || u.pc.WriteRec? ==> EffectAges(s, MoveWrite(s, u).eff)
    ensures u.pc.UnlockLoad? || u.pc.UnlockStore? ==> EffectAges(s, MoveUnlock(s, u).eff)
  {
    assert WorkerWf(|s.recs|, |s.ws|, w, u) && AgesOk(u, Horizon(s, u)) && HandOk(s, u);
    if Logged(u.pc) {
      assert s.log[u.pos].epoch <= s.epoch;
    }
    if u.pc.Choose? {
      ChosenEpoch(s, u);
    }
  }

  lemma LockEffectAges(s: State, u: Worker)
    requires RecAges(s) && (u.pc.LockLoad? || u.pc.LockTry?)
    ensures EffectAges(s, MoveLock(s, u).eff)
  {
  }

  lemma ValidateEffectAges(s: State, w: nat, u: Worker)
    requires u.pc.EpochLoad? || u.pc.EpochStore? || u.pc.Validate?
    ensures EffectAges(s, MoveValidate(s, w, u).eff)
  {
  }

  lemma MoveEffectAges(s: State, w: nat, u: Worker, c: Choice)
    requires Wf(s) && LogOk(s) && Locks(s) && Ages(s) && Gap(s) && Legal(s, w, c) && u == s.ws[w]
    requires u.pc.Choose? ==> u.epoch < EPOCH_LIMIT
    ensures EffectAges(s, MoveOf(s, w, u, c).eff)
  {
    hide Locks, Wf, LogOk, AgesOk, MoveLock, MoveValidate, MoveWrite, MoveUnlock;
    if Outside(u.pc) {
      MoveGap(s, w, u, c);
    } else if u.pc.LockLoad? || u.pc.LockTry? {
      LockEffectAges(s, u);
    } else if u.pc.EpochLoad? || u.pc.EpochStore? || u.pc.Validate? {
      ValidateEffectAges(s, w, u);
    } else if u.pc.Choose? || u.pc.WriteRec? || u.pc.UnlockLoad? || u.pc.UnlockStore? {
      FinishEffectAges(s, w, u);
    }
  }

  lemma AfterEpochOrder(s: State, w: nat, m: Move)
    requires EpochOrder(s.log, s.epoch) && RecAges(s) && w < |s.ws| && EffectAges(s, m.eff)
    ensures EpochOrder(After(s, w, m).log, After(s, w, m).epoch)
    ensures RecAges(After(s, w, m))
  {
  }

  /** No step lowers a worker's horizon. */
  lemma HorizonGrows(s: State, w: nat, m: Move, v: nat)
    requires LogOk(s) && EpochOrder(s.log, s.epoch) && w < |s.ws| && v < |s.ws|
    requires EffectAges(s, m.eff) && EntryMove(s, w, s.ws[w], m)
    ensures Horizon(s, s.ws[v]) <= Horizon(After(s, w, m), After(s, w, m).ws[v])
  {
  }

  lemma EpochInRange(s: State, w: nat, c: Choice)
    requires Wf(s) && Gap(s) && Legal(s, w, c) && Step(s, w, c).epoch < EPOCH_LIMIT
    ensures s.ws[w].pc.Choose? ==> s.ws[w].epoch < EPOCH_LIMIT
  {
    EpochGrows(s, w, c);
    assert GapOk(s.epoch, s.ws[w]);
  }

  /** Epochs agree with the serial order after every step. */
  lemma AgesStep(s: State, w: nat, c: Choice)
    requires Wf(s) && Gap(s) && LogOk(s) && Locks(s) && Ages(s) && Legal(s, w, c)
    requires Step(s, w, c).epoch < EPOCH_LIMIT
    ensures Ages(Step(s, w, c))
  {
    var u := s.ws[w];
    var m := MoveOf(s, w, u, c);
    EpochInRange(s, w, c);
    MoveEffectAges(s, w, u, c);
    MoveEntry(s, w, u, c);
    MoveAges(s, w, u, c);
    AfterAges(s, w, m);
  }

  lemma AfterAges(s: State, w: nat, m: Move)
    requires LogOk(s) && Ages(s) && w < |s.ws| && EffectAges(s, m.eff) && EntryMove(s, w, s.ws[w], m)
    requires AgesOk(m.u, Horizon(s, s.ws[w]))
    ensures Ages(After(s, w, m))
  {
    AfterEpochOrder(s, w, m);
    var s' := After(s, w, m);
    forall v | 0 <= v < |s'.ws| ensures AgesOk(s'.ws[v], Horizon(s', s'.ws[v])) {
      HorizonGrows(s, w, m, v);
      AgesGrow(s'.ws[v], Horizon(s, s.ws[v]), Horizon(s', s'.ws[v]));
    }
  }
}
