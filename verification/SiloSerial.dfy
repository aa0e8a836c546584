/**
 * Serializability. The serial order is the order of the lock points, that is, of the log. At all times
 * every validated read agrees with the serial replay up to its transaction's lock point, and every
 * unlocked record holds what the replay of the whole log leaves in it.
 */
module SiloSerial {
  import opened SiloTid
  import opened SiloMachine
  import opened SiloLocks
  import opened SiloEpoch
  import opened SiloLog
  import opened SiloReplay

  /** The version init() gives record k. */
  function First(init: seq<Bytes>, k: nat): Version {
    Version(0x2000_0000, if k < |init| then init[k] else [])
  }

  /** What the whole log leaves in record k. */
  function Latest(s: State, init: seq<Bytes>, k: nat): Version {
    Replay(s.log, |s.log|, First(init, k), k)
  }

  /** Record k shows the latest committed version (it does not while a committed write is being installed). */
  ghost predicate Clean(s: State, init: seq<Bytes>, k: nat)
    requires k < |s.recs|
  {
    Ver(s.recs[k].word) == Latest(s, init, k).ver
  }

  ghost predicate RecOk(s: State, init: seq<Bytes>, k: nat)
    requires k < |s.recs|
  {
    && (!s.recs[k].word.lock ==> Clean(s, init, k))
    && (Clean(s, init, k) ==> s.recs[k].value == Latest(s, init, k).value)
  }

  /** buf was copied from record k while its word named version ver, as far as that is still the current one. */
  ghost predicate CopyOk(s: State, init: seq<Bytes>, k: nat, ver: nat, buf: Bytes)
    requires k < |s.recs|
  {
    && ver <= Ver(s.recs[k].word)
    && (ver == Ver(s.recs[k].word) && Clean(s, init, k) ==>
          |buf| <= |s.recs[k].value| && buf == s.recs[k].value[..|buf|])
  }

  ghost predicate ReadsOk(s: State, init: seq<Bytes>, u: Worker) {
    && (forall i | 0 <= i < |u.readSet| ::
          var r := u.readSet[i];
          r.key < |s.recs| && CopyOk(s, init, r.key, Ver(r.word), r.value))
    && (u.pc.Reading? && !u.pc.expected.lock ==>
          u.pc.key < |s.recs| && CopyOk(s, init, u.pc.key, Ver(u.pc.expected), u.pc.buf))
  }

  /** Record k, locked by u, before and after u's commit. */
  ghost predicate HeldOk(s: State, init: seq<Bytes>, u: Worker, k: nat)
    requires k < |s.recs|
  {
    if u.pc.WriteRec? then
      && Latest(s, init, k) == Version(Ver(u.last), u.value)
      && Ver(s.recs[k].word) < Ver(u.last)
      && (u.pc.i < |u.writeSet| && k == u.writeSet[u.pc.i] ==>
            u.pc.j <= |u.value| == |s.recs[k].value| && s.recs[k].value[..u.pc.j] == u.value[..u.pc.j])
    else
      Clean(s, init, k) && Ver(s.recs[k].word) <= Ver(u.maxWrite)
  }

  ghost predicate HolderOk(s: State, init: seq<Bytes>, u: Worker) {
    forall k: nat | Holds(u, k) :: k < |s.recs| && HeldOk(s, init, u, k)
  }

  /** Not yet validated reads are older than whatever later transactions have committed. */
  ghost predicate LaterOk(s: State, u: Worker) {
    u.pc.EpochStore? || u.pc.Validate? ==>
      forall q, i | u.pos <= q < |s.log| && 0 <= i < |u.readSet| && CommitsWrite(s.log[q], u.readSet[i].key) ::
        Ver(u.readSet[i].word) < Ver(s.log[q].status.tid)
  }

  /** No later transaction writes a record that u still has locked. */
  ghost predicate AloneOk(s: State, u: Worker) {
    Logged(u.pc) ==> forall q, k: nat | u.pos < q < |s.log| && Holds(u, k) :: k !in s.log[q].writes
  }

  /** No later transaction has validated a read of a record that undecided u has locked. */
  ghost predicate ShieldOk(s: State, u: Worker) {
    u.pc.EpochStore? || u.pc.Validate? || u.pc.Choose? ==>
      forall q, i | u.pos < q < |s.log| && 0 <= i < s.log[q].checked && i < |s.log[q].seen| ::
        !Holds(u, s.log[q].seen[i].key)
  }

  ghost predicate WorkerOk(s: State, init: seq<Bytes>, u: Worker) {
    ReadsOk(s, init, u) && HolderOk(s, init, u) && LaterOk(s, u) && AloneOk(s, u) && ShieldOk(s, u)
  }

  /** Read i of log entry q saw exactly what running the transactions before q one by one would show it. */
  ghost predicate ReadAgrees(log: seq<Entry>, init: seq<Bytes>, q: nat, i: nat)
    requires q < |log| && i < |log[q].seen|
  {
    var r := log[q].seen[i];
    Replay(log, q, First(init, r.key), r.key) == Version(Ver(r.word), r.value)
  }

  ghost predicate ChecksAgree(log: seq<Entry>, init: seq<Bytes>) {
    forall q, i | 0 <= q < |log| && 0 <= i < log[q].checked && i < |log[q].seen| :: ReadAgrees(log, init, q, i)
  }

  /** Along the log, the committed TIDs of each record's writers strictly increase. */
  ghost predicate TidsIncrease(log: seq<Entry>) {
    forall q, r, k: nat | 0 <= q < r < |log| && CommitsWrite(log[q], k) && CommitsWrite(log[r], k) ::
      Ver(log[q].status.tid) < Ver(log[r].status.tid)
  }

  ghost predicate Serial(s: State, init: seq<Bytes>) {
    && |init| == |s.recs|
    && (forall k | 0 <= k < |s.recs| :: RecOk(s, init, k))
    && (forall w | 0 <= w < |s.ws| :: WorkerOk(s, init, s.ws[w]))
    && ChecksAgree(s.log, init)
    && TidsIncrease(s.log)
  }

  // ---- what a step of w may do under the feet of the others ----

  /** Versions do not go back, and bytes change only together with the version or while not clean. */
  ghost predicate RecsRely(s: State, s': State, init: seq<Bytes>) {
    && |s'.recs| == |s.recs|
    && forall k | 0 <= k < |s.recs| ::
         && Ver(s.recs[k].word) <= Ver(s'.recs[k].word)
         && (Ver(s.recs[k].word) == Ver(s'.recs[k].word) && Clean(s', init, k) ==>
               Clean(s, init, k) && s'.recs[k].value == s.recs[k].value)
  }

  lemma ReadsKept(s: State, s': State, init: seq<Bytes>, u: Worker)
    requires ReadsOk(s, init, u) && RecsRely(s, s', init)
    ensures ReadsOk(s', init, u)
  {
  }

  /** The records u has locked stay as they are, and so does the latest version of each. */
  ghost predicate HeldRely(s: State, s': State, init: seq<Bytes>, u: Worker) {
    forall k: nat | Holds(u, k) && k < |s.recs| ::
      k < |s'.recs| && s'.recs[k] == s.recs[k] && Latest(s', init, k) == Latest(s, init, k)
  }

  lemma HolderKept(s: State, s': State, init: seq<Bytes>, u: Worker)
    requires HolderOk(s, init, u) && HeldRely(s, s', init, u)
    ensures HolderOk(s', init, u)
  {
  }

  /** Entry q, now e, committed its write of k before already, or its TID is above the version of k. */
  ghost predicate CommitRises(s: State, e: Entry, q: nat, k: nat)
    requires q < |s.log| && CommitsWrite(e, k)
  {
    || (CommitsWrite(s.log[q], k) && e.status == s.log[q].status)
    || (k < |s.recs| && Ver(s.recs[k].word) < Ver(e.status.tid))
  }

  /** Entries keep what they read and write; at most one more of them commits, with a TID above what it overwrites. */
  ghost predicate LogRely(s: State, s': State, u: Worker) {
    && |s.log| <= |s'.log|
    && (forall q | 0 <= q < |s.log| ::
          s'.log[q].writes == s.log[q].writes && s'.log[q].seen == s.log[q].seen)
    && (forall q, k: nat {:trigger CommitsWrite(s'.log[q], k)} | 0 <= q < |s.log| && CommitsWrite(s'.log[q], k) ::
          CommitRises(s, s'.log[q], q, k))
    && (forall q, k: nat | |s.log| <= q < |s'.log| :: !CommitsWrite(s'.log[q], k))
    && (forall q, k: nat | |s.log| <= q < |s'.log| && Holds(u, k) :: k !in s'.log[q].writes)
    && (forall q, i | 0 <= q < |s'.log| && 0 <= i < s'.log[q].checked && i < |s'.log[q].seen| ::
          (q < |s.log| && i < s.log[q].checked) || !Holds(u, s'.log[q].seen[i].key))
  }

  // ---- moves that touch neither the table nor the log ----

  lemma ReadMove(s: State, init: seq<Bytes>, w: nat, u: Worker)
    requires ReadsOk(s, init, u) && WorkerWf(|s.recs|, |s.ws|, w, u) && Wf(s) && u.pc.Reading?
    ensures ReadsOk(s, init, MoveRead(s, u).u)
  {
  }

  lemma OtherReads(s: State, init: seq<Bytes>, w: nat, u: Worker, c: Choice)
    requires ReadsOk(s, init, u) && Wf(s) && Legal(s, w, c) && u == s.ws[w] && !u.pc.Reading?
    ensures ReadsOk(s, init, MoveOf(s, w, u, c).u)
  {
    assert WorkerWf(|s.recs|, |s.ws|, w, u);
  }

  predicate Validating(pc: Pc) {
    pc.EpochStore? || pc.Validate?
  }

  /** u' is no more committed to anything than u. */
  ghost predicate SameStance(u: Worker, u': Worker) {
    && !u'.pc.WriteRec?
    && (forall k: nat | Holds(u', k) :: Holds(u, k) && !u.pc.WriteRec? && u'.maxWrite == u.maxWrite)
    && (Logged(u'.pc) ==> Logged(u.pc) && u'.pos == u.pos)
    && (Validating(u'.pc) ==> Validating(u.pc) && u'.readSet == u.readSet)
    && (u'.pc.Choose? ==> Validating(u.pc))
  }

  lemma EarlyStance(s: State, w: nat, u: Worker, c: Choice)
    requires Wf(s) && Legal(s, w, c) && u == s.ws[w] && (Outside(u.pc) || Executing(u.pc))
    ensures SameStance(u, MoveOf(s, w, u, c).u)
  {
  }

  lemma LockStance(s: State, u: Worker)
    requires (u.pc.LockLoad? || u.pc.LockTry?) && MoveLock(s, u).eff.Quiet? && Keeps(s, u, MoveLock(s, u))
    ensures SameStance(u, MoveLock(s, u).u)
  {
  }

  lemma LateStance(s: State, w: nat, u: Worker)
    requires Wf(s) && w < |s.ws| && u == s.ws[w]
    ensures var m := MoveValidate(s, w, u);
      (u.pc.EpochLoad? || Validating(u.pc)) && m.eff.Quiet? && Keeps(s, u, m) ==> SameStance(u, m.u)
    ensures var m := MoveWrite(s, u); u.pc.WriteRec? && m.eff.Quiet? && Keeps(s, u, m) ==> SameStance(u, m.u)
    ensures var m := MoveUnlock(s, u);
      (u.pc.UnlockLoad? || u.pc.UnlockStore?) && m.eff.Quiet? && Keeps(s, u, m) ==> SameStance(u, m.u)
  {
    assert WorkerWf(|s.recs|, |s.ws|, w, u);
  }

  lemma QuietStance(s: State, w: nat, u: Worker, c: Choice)
    requires Wf(s) && Legal(s, w, c) && u == s.ws[w]
    requires var m := MoveOf(s, w, u, c); (m.eff.Quiet? || m.eff.SetEpoch?) && Keeps(s, u, m)
    ensures SameStance(u, MoveOf(s, w, u, c).u)
  {
    if Outside(u.pc) || Executing(u.pc) {
      EarlyStance(s, w, u, c);
    } else if u.pc.LockLoad? || u.pc.LockTry? {
      LockStance(s, u);
    } else {
      LateStance(s, w, u);
    }
  }

  lemma StanceRest(s: State, init: seq<Bytes>, u: Worker, u': Worker)
    requires WorkerOk(s, init, u) && SameStance(u, u')
    ensures HolderOk(s, init, u') && LaterOk(s, u') && AloneOk(s, u') && ShieldOk(s, u')
  {
  }

  /** A state with the same table and log. */
  ghost predicate SameShared(s: State, s': State) {
    s'.recs == s.recs && s'.log == s.log
  }

  lemma SharedWorker(s: State, s': State, init: seq<Bytes>, u: Worker)
    requires SameShared(s, s') && WorkerOk(s, init, u)
    ensures WorkerOk(s', init, u)
  {
  }

  lemma QuietSerial(s: State, init: seq<Bytes>, w: nat, m: Move)
    requires Serial(s, init) && w < |s.ws| && (m.eff.Quiet? || m.eff.SetEpoch?)
    requires WorkerOk(s, init, m.u)
    ensures Serial(After(s, w, m), init)
  {
    var s' := After(s, w, m);
    assert SameShared(s, s');
    forall v | 0 <= v < |s'.ws| ensures WorkerOk(s', init, s'.ws[v]) {
      SharedWorker(s, s', init, s'.ws[v]);
    }
    forall k | 0 <= k < |s'.recs| ensures RecOk(s', init, k) {
      assert RecOk(s, init, k);
    }
  }

  // ---- locking, copying bytes, installing, unlocking ----

  /** What a move that puts record k must satisfy for the other workers' sake, k being theirs in no way. */
  lemma PutOthers(s: State, init: seq<Bytes>, w: nat, m: Move, v: nat)
    requires Serial(s, init) && Locks(s) && w < |s.ws| && v < |s.ws| && v != w
    requires m.eff.PutRec? && m.eff.k < |s.recs| && !Holds(s.ws[v], m.eff.k)
    requires RecsRely(s, After(s, w, m), init)
    ensures WorkerOk(After(s, w, m), init, s.ws[v])
  {
  }

  /** The log, hence every record's latest version, is untouched by a put. */
  lemma PutLatest(s: State, init: seq<Bytes>, w: nat, m: Move, k: nat)
    requires w < |s.ws| && m.eff.PutRec?
    ensures Latest(After(s, w, m), init, k) == Latest(s, init, k)
  {
  }

  lemma PutSerial(s: State, init: seq<Bytes>, w: nat, m: Move)
    requires Serial(s, init) && Locks(s) && w < |s.ws|
    requires m.eff.PutRec? && m.eff.k < |s.recs|
    requires forall v | 0 <= v < |s.ws| && v != w :: !Holds(s.ws[v], m.eff.k)
    requires RecsRely(s, After(s, w, m), init)
    requires RecOk(After(s, w, m), init, m.eff.k)
    requires HolderOk(After(s, w, m), init, m.u) && SameReads(s.ws[w], m.u)
    requires LaterOk(s, m.u) && AloneOk(s, m.u) && ShieldOk(s, m.u)
    ensures Serial(After(s, w, m), init)
  {
    var s' := After(s, w, m);
    assert WorkerOk(s, init, s.ws[w]);
    ReadsKept(s, s', init, s.ws[w]);
    forall v | 0 <= v < |s'.ws| ensures WorkerOk(s', init, s'.ws[v]) {
      if v != w {
        PutOthers(s, init, w, m, v);
      }
    }
    forall k | 0 <= k < |s'.recs| ensures RecOk(s', init, k) {
      if k != m.eff.k {
        assert RecOk(s, init, k);
        PutLatest(s, init, w, m, k);
      }
    }
  }

  predicate SameReads(u: Worker, u': Worker) {
    u'.readSet == u.readSet && !u'.pc.Reading?
  }

  lemma NobodyElse(s: State, w: nat, k: nat)
    requires Locks(s) && w < |s.ws| && k < |s.recs| && (Holds(s.ws[w], k) || !s.recs[k].word.lock)
    ensures forall v | 0 <= v < |s.ws| && v != w :: !Holds(s.ws[v], k)
  {
  }

  lemma TakeSerial(s: State, init: seq<Bytes>, w: nat, u: Worker, m: Move)
    requires Serial(s, init) && Wf(s) && Locks(s) && w < |s.ws| && u == s.ws[w]
    requires u.pc.LockTry? && m == MoveLock(s, u) && m.eff.PutRec? && Takes(s, u, m)
    ensures Serial(After(s, w, m), init)
  {
    hide Latest, ReadsOk, ChecksAgree, TidsIncrease, Body, Max;
    var s' := After(s, w, m);
    var k := m.eff.k;
    assert WorkerOk(s, init, u) && RecOk(s, init, k);
    NobodyElse(s, w, k);
    MaxVer(u.maxWrite, u.pc.expected);
    PutLatest(s, init, w, m, k);
    forall k' | 0 <= k' < |s.recs| ensures Latest(s', init, k') == Latest(s, init, k') {
      PutLatest(s, init, w, m, k');
    }
    PutSerial(s, init, w, m);
  }

  lemma ByteSerial(s: State, init: seq<Bytes>, w: nat, u: Worker, m: Move)
    requires Serial(s, init) && Wf(s) && Locks(s) && w < |s.ws| && u == s.ws[w]
    requires u.pc.WriteRec? && u.pc.i < |u.writeSet| && u.pc.j < VALUE_SIZE && m == MoveWrite(s, u) && Keeps(s, u, m)
    ensures Serial(After(s, w, m), init)
  {
    hide Latest, ReadsOk, ChecksAgree, TidsIncrease, Body, Max;
    var s' := After(s, w, m);
    assert WorkerWf(|s.recs|, |s.ws|, w, u) && WorkerOk(s, init, u);
    var k := u.writeSet[u.pc.i];
    HoldsAt(u, u.pc.i);
    assert m.eff == PutRec(k, s.recs[k].(value := s.recs[k].value[u.pc.j := u.value[u.pc.j]]));
    NobodyElse(s, w, k);
    assert HeldOk(s, init, u, k);
    forall k' | 0 <= k' < |s.recs| ensures Latest(s', init, k') == Latest(s, init, k') {
      PutLatest(s, init, w, m, k');
    }
    assert RecOk(s, init, k);
    forall k': nat | Holds(m.u, k') ensures k' < |s'.recs| && HeldOk(s', init, m.u, k') {
      assert Holds(u, k') && HeldOk(s, init, u, k');
    }
    PutSerial(s, init, w, m);
  }

  lemma InstallSerial(s: State, init: seq<Bytes>, w: nat, u: Worker, m: Move)
    requires Serial(s, init) && Wf(s) && Locks(s) && w < |s.ws| && u == s.ws[w]
    requires u.pc.WriteRec? && u.pc.i < |u.writeSet| && u.pc.j == VALUE_SIZE && m == MoveWrite(s, u) && Drops(s, u, m)
    ensures Serial(After(s, w, m), init)
  {
    hide Latest, ReadsOk, ChecksAgree, TidsIncrease, Body, Max;
    var s' := After(s, w, m);
    assert WorkerWf(|s.recs|, |s.ws|, w, u) && WorkerOk(s, init, u);
    var k := u.writeSet[u.pc.i];
    HoldsAt(u, u.pc.i);
    assert m.eff == PutRec(k, s.recs[k].(word := u.last));
    NobodyElse(s, w, k);
    assert HeldOk(s, init, u, k);
    assert s.recs[k].value == u.value;
    forall k' | 0 <= k' < |s.recs| ensures Latest(s', init, k') == Latest(s, init, k') {
      PutLatest(s, init, w, m, k');
    }
    forall k': nat | Holds(m.u, k') ensures k' < |s'.recs| && HeldOk(s', init, m.u, k') {
      assert Holds(u, k') && HeldOk(s, init, u, k') && k' != k;
    }
    PutSerial(s, init, w, m);
  }

  lemma UnlockSerial(s: State, init: seq<Bytes>, w: nat, u: Worker, m: Move)
    requires Serial(s, init) && Wf(s) && Locks(s) && w < |s.ws| && u == s.ws[w]
    requires u.pc.UnlockStore? && m == MoveUnlock(s, u) && Drops(s, u, m)
    ensures Serial(After(s, w, m), init)
  {
    hide Latest, ReadsOk, ChecksAgree, TidsIncrease, Body, Max;
    var s' := After(s, w, m);
    assert WorkerWf(|s.recs|, |s.ws|, w, u) && WorkerOk(s, init, u) && HandOk(s, u);
    var k := u.writeSet[u.pc.i];
    HoldsAt(u, u.pc.i);
    NobodyElse(s, w, k);
    assert HeldOk(s, init, u, k) && RecOk(s, init, k);
    forall k' | 0 <= k' < |s.recs| ensures Latest(s', init, k') == Latest(s, init, k') {
      PutLatest(s, init, w, m, k');
    }
    PutSerial(s, init, w, m);
  }

  // ---- the lock point ----

  lemma WorkersKept(s: State, s': State, init: seq<Bytes>, u: Worker)
    requires WorkerOk(s, init, u) && RecsRely(s, s', init) && HeldRely(s, s', init, u) && LogRely(s, s', u)
    ensures WorkerOk(s', init, u)
  {
  }

  /** The table is untouched, and so is the latest version of every record. */
  ghost predicate SameVersions(s: State, s': State, init: seq<Bytes>) {
    s'.recs == s.recs && forall k: nat :: Latest(s', init, k) == Latest(s, init, k)
  }

  lemma VersionsKept(s: State, s': State, init: seq<Bytes>)
    requires SameVersions(s, s', init) && forall k | 0 <= k < |s.recs| :: RecOk(s, init, k)
    ensures RecsRely(s, s', init)
    ensures forall u :: HeldRely(s, s', init, u)
    ensures forall k | 0 <= k < |s'.recs| :: RecOk(s', init, k)
  {
    forall k | 0 <= k < |s'.recs| ensures RecOk(s', init, k) {
      assert RecOk(s, init, k);
    }
  }

  lemma AppendVersions(s: State, s': State, init: seq<Bytes>, e: Entry)
    requires s'.recs == s.recs && s'.log == s.log + [e] && e.status == Pending
    ensures SameVersions(s, s', init)
  {
    forall k: nat ensures Latest(s', init, k) == Latest(s, init, k) {
      ReplayAppend(s.log, e, |s.log|, First(init, k), k);
      assert !CommitsWrite(s'.log[|s.log|], k);
    }
  }

  lemma AppendChecks(s: State, s': State, init: seq<Bytes>, e: Entry)
    requires s'.log == s.log + [e] && e.checked == 0 && ChecksAgree(s.log, init)
    ensures ChecksAgree(s'.log, init)
  {
    forall q, i | 0 <= q < |s'.log| && 0 <= i < s'.log[q].checked && i < |s'.log[q].seen|
      ensures ReadAgrees(s'.log, init, q, i)
    {
      var k := s'.log[q].seen[i].key;
      assert s'.log[q] == s.log[q] && ReadAgrees(s.log, init, q, i);
      ReplayAppend(s.log, e, q, First(init, k), k);
    }
  }

  lemma AppendRely(s: State, s': State, e: Entry, v: Worker)
    requires s'.log == s.log + [e] && e.status == Pending && e.checked == 0
    requires forall k: nat | k in e.writes :: !Holds(v, k)
    ensures LogRely(s, s', v)
  {
  }

  lemma AppendSelf(s: State, s': State, init: seq<Bytes>, u: Worker, u': Worker, e: Entry)
    requires WorkerOk(s, init, u) && RecsRely(s, s', init) && HeldRely(s, s', init, u)
    requires s'.log == s.log + [e] && e.status == Pending
    requires u.pc.EpochLoad? && u'.pc.EpochStore? && u' == u.(pc := u'.pc, pos := |s.log|)
    ensures WorkerOk(s', init, u')
  {
    ReadsKept(s, s', init, u);
    HolderKept(s, s', init, u);
    assert forall k: nat :: Holds(u', k) <==> Holds(u, k);
  }

  lemma HoldsAll(u: Worker)
    requires HeldFrom(u) == 0 && HeldTo(u) == |u.writeSet|
    ensures forall k: nat :: Holds(u, k) <==> k in u.writeSet
  {
  }

  lemma AppendSerial(s: State, s': State, init: seq<Bytes>, w: nat, u: Worker, e: Entry)
    requires Serial(s, init) && Locks(s) && w < |s.ws| && u == s.ws[w] && u.pc.EpochLoad?
    requires e == Entry(w, u.readSet, u.writeSet, u.value, s.epoch, 0, Pending)
    requires s' == s.(log := s.log + [e], ws := s.ws[w := u.(pc := EpochStore(s.epoch), pos := |s.log|)])
    ensures Serial(s', init)
  {
    AppendVersions(s, s', init, e);
    VersionsKept(s, s', init);
    AppendChecks(s, s', init, e);
    HoldsAll(u);
    forall v | 0 <= v < |s'.ws| ensures WorkerOk(s', init, s'.ws[v]) {
      assert WorkerOk(s, init, s.ws[v]);
      if v == w {
        AppendSelf(s, s', init, u, s'.ws[w], e);
      } else {
        assert forall k: nat | k in u.writeSet :: Holds(u, k) && !Holds(s.ws[v], k);
        AppendRely(s, s', e, s.ws[v]);
        WorkersKept(s, s', init, s.ws[v]);
      }
    }
  }

  // ---- validating a read ----

  /** Entry p is replaced by one with the same reads and writes, and neither commits. */
  ghost predicate Undecided(s: State, s': State, p: nat, e: Entry) {
    && s'.recs == s.recs && p < |s.log| && s'.log == s.log[p := e]
    && s.log[p].status == Pending && !e.status.Committed?
    && e.seen == s.log[p].seen && e.writes == s.log[p].writes
  }

  lemma UndecidedReplay(s: State, s': State, p: nat, e: Entry, q: nat, init: Version, k: nat)
    requires Undecided(s, s', p, e) && q <= |s.log|
    ensures Replay(s'.log, q, init, k) == Replay(s.log, q, init, k)
  {
  }

  lemma UndecidedVersions(s: State, s': State, init: seq<Bytes>, p: nat, e: Entry)
    requires Undecided(s, s', p, e)
    ensures SameVersions(s, s', init)
  {
    forall k: nat ensures Latest(s', init, k) == Latest(s, init, k) {
      UndecidedReplay(s, s', p, e, |s.log|, First(init, k), k);
    }
  }

  lemma UndecidedChecks(s: State, s': State, init: seq<Bytes>, p: nat, e: Entry)
    requires Undecided(s, s', p, e) && ChecksAgree(s.log, init) && TidsIncrease(s.log)
    requires forall i | 0 <= i < |e.seen| && s.log[p].checked <= i < e.checked :: ReadAgrees(s.log, init, p, i)
    ensures ChecksAgree(s'.log, init) && TidsIncrease(s'.log)
  {
    forall q, i | 0 <= q < |s'.log| && 0 <= i < s'.log[q].checked && i < |s'.log[q].seen|
      ensures ReadAgrees(s'.log, init, q, i)
    {
      var k := s'.log[q].seen[i].key;
      assert ReadAgrees(s.log, init, q, i);
      UndecidedReplay(s, s', p, e, q, First(init, k), k);
    }
  }

  /** A read that validates saw what the serial replay up to the lock point shows. */
  lemma ValidatedAgrees(s: State, init: seq<Bytes>, w: nat, u: Worker)
    requires Serial(s, init) && Wf(s) && LogOk(s) && w < |s.ws| && u == s.ws[w]
    requires u.pc.Validate? && u.pc.i < |u.readSet|
    requires Valid(u.readSet[u.pc.i], Load(s, u.readSet[u.pc.i].key), u.writeSet)
    ensures ReadAgrees(s.log, init, u.pos, u.pc.i)
  {
    assert WorkerWf(|s.recs|, |s.ws|, w, u) && WorkerOk(s, init, u) && EntryOk(w, u, s.log[u.pos]);
    var r := u.readSet[u.pc.i];
    var k := r.key;
    assert RecOk(s, init, k) && CopyOk(s, init, k, Ver(r.word), r.value);
    if s.recs[k].word.lock {
      var j :| 0 <= j < |u.writeSet| && u.writeSet[j] == k;
      HoldsAt(u, j);
      assert HeldOk(s, init, u, k);
    }
    assert Clean(s, init, k) && Ver(r.word) == Ver(s.recs[k].word);
    assert r.value == s.recs[k].value;
    ReplayBefore(s.log, u.pos, |s.log|, First(init, k), k);
  }

  lemma UndecidedSelf(s: State, s': State, init: seq<Bytes>, u: Worker, u': Worker, p: nat, e: Entry)
    requires WorkerOk(s, init, u) && Undecided(s, s', p, e) && p == u.pos && RecsRely(s, s', init)
    requires HeldRely(s, s', init, u)
    requires u.pc.Validate?
    requires u' == u.(pc := u'.pc, maxRead := u'.maxRead) && (u'.pc.Validate? || u'.pc == UnlockLoad(0))
    ensures WorkerOk(s', init, u')
  {
    ReadsKept(s, s', init, u);
    HolderKept(s, s', init, u);
    assert forall k: nat :: Holds(u', k) <==> Holds(u, k);
  }

  lemma UndecidedRely(s: State, s': State, p: nat, e: Entry, v: Worker)
    requires Undecided(s, s', p, e)
    requires forall i | s.log[p].checked <= i < e.checked && i < |e.seen| :: !Holds(v, e.seen[i].key)
    ensures LogRely(s, s', v)
  {
  }

  lemma UndecidedSerial(s: State, s': State, init: seq<Bytes>, w: nat, p: nat, e: Entry)
    requires Serial(s, init) && w < |s.ws| && Undecided(s, s', p, e) && p == s.ws[w].pos && s.ws[w].pc.Validate?
    requires forall i | 0 <= i < |e.seen| && s.log[p].checked <= i < e.checked :: ReadAgrees(s.log, init, p, i)
    requires forall v, i | 0 <= v < |s.ws| && v != w && s.log[p].checked <= i < e.checked && i < |e.seen| ::
               !Holds(s.ws[v], e.seen[i].key)
    requires |s'.ws| == |s.ws| && s'.ws == s.ws[w := s'.ws[w]]
    requires s'.ws[w] == s.ws[w].(pc := s'.ws[w].pc, maxRead := s'.ws[w].maxRead)
    requires s'.ws[w].pc.Validate? || s'.ws[w].pc == UnlockLoad(0)
    ensures Serial(s', init)
  {
    UndecidedVersions(s, s', init, p, e);
    VersionsKept(s, s', init);
    UndecidedChecks(s, s', init, p, e);
    forall v | 0 <= v < |s'.ws| ensures WorkerOk(s', init, s'.ws[v]) {
      assert WorkerOk(s, init, s.ws[v]);
      if v == w {
        UndecidedSelf(s, s', init, s.ws[w], s'.ws[w], p, e);
      } else {
        UndecidedRely(s, s', p, e, s.ws[v]);
        WorkersKept(s, s', init, s.ws[v]);
      }
    }
  }

  /** Nobody else has locked a record whose read has just been validated. */
  lemma ValidatedFree(s: State, w: nat, u: Worker)
    requires Wf(s) && Locks(s) && w < |s.ws| && u == s.ws[w]
    requires u.pc.Validate? && u.pc.i < |u.readSet|
    requires Valid(u.readSet[u.pc.i], Load(s, u.readSet[u.pc.i].key), u.writeSet)
    ensures forall v | 0 <= v < |s.ws| && v != w :: !Holds(s.ws[v], u.readSet[u.pc.i].key)
  {
  }

  lemma MarkSerial(s: State, s': State, init: seq<Bytes>, w: nat, u: Worker, r: TidWord)
    requires Serial(s, init) && Wf(s) && Locks(s) && LogOk(s) && w < |s.ws| && u == s.ws[w]
    requires u.pc.Validate? && u.pc.i < |u.readSet| && u.pos < |s.log|
    requires Valid(u.readSet[u.pc.i], Load(s, u.readSet[u.pc.i].key), u.writeSet)
    requires s' == s.(log := s.log[u.pos := s.log[u.pos].(checked := u.pc.i + 1)],
                      ws := s.ws[w := u.(pc := Validate(u.pc.i + 1), maxRead := r)])
    ensures Serial(s', init)
  {
    assert EntryOk(w, u, s.log[u.pos]);
    ValidatedAgrees(s, init, w, u);
    ValidatedFree(s, w, u);
    UndecidedSerial(s, s', init, w, u.pos, s.log[u.pos].(checked := u.pc.i + 1));
  }

  lemma AbortSerial(s: State, s': State, init: seq<Bytes>, w: nat, u: Worker)
    requires Serial(s, init) && LogOk(s) && w < |s.ws| && u == s.ws[w]
    requires u.pc.Validate? && u.pos < |s.log|
    requires s' == s.(log := s.log[u.pos := s.log[u.pos].(status := Aborted)], ws := s.ws[w := u.(pc := UnlockLoad(0))])
    ensures Serial(s', init)
  {
    assert EntryOk(w, u, s.log[u.pos]);
    UndecidedSerial(s, s', init, w, u.pos, s.log[u.pos].(status := Aborted));
  }

  // ---- committing ----

  /** Entry p commits under TID t. */
  ghost predicate Commit(s: State, s': State, p: nat, t: TidWord) {
    && s'.recs == s.recs && p < |s.log| && s.log[p].status == Pending
    && s'.log == s.log[p := s.log[p].(status := Committed(t))]
  }

  /** What makes it safe: no later entry writes what p writes, or has validated a read of it. */
  ghost predicate Safe(s: State, p: nat) {
    && p < |s.log|
    && (forall q, k: nat | p < q < |s.log| && k in s.log[p].writes :: k !in s.log[q].writes)
    && (forall q, i | p < q < |s.log| && 0 <= i < s.log[q].checked && i < |s.log[q].seen| ::
          s.log[q].seen[i].key !in s.log[p].writes)
  }

  lemma CommitReplay(s: State, s': State, p: nat, t: TidWord, q: nat, init: Version, k: nat)
    requires Commit(s, s', p, t) && q <= |s.log| && (q <= p || k !in s.log[p].writes)
    ensures Replay(s'.log, q, init, k) == Replay(s.log, q, init, k)
  {
  }

  lemma CommitLatest(s: State, s': State, p: nat, t: TidWord, init: seq<Bytes>, k: nat)
    requires Commit(s, s', p, t) && Safe(s, p)
    ensures Latest(s', init, k) ==
            if k in s.log[p].writes then Version(Ver(t), s.log[p].value) else Latest(s, init, k)
  {
    if k in s.log[p].writes {
      ReplayLast(s'.log, p, First(init, k), k);
    } else {
      CommitReplay(s, s', p, t, |s.log|, First(init, k), k);
    }
  }

  lemma CommitChecks(s: State, s': State, init: seq<Bytes>, p: nat, t: TidWord)
    requires Commit(s, s', p, t) && Safe(s, p) && ChecksAgree(s.log, init)
    ensures ChecksAgree(s'.log, init)
  {
    forall q, i | 0 <= q < |s'.log| && 0 <= i < s'.log[q].checked && i < |s'.log[q].seen|
      ensures ReadAgrees(s'.log, init, q, i)
    {
      var k := s'.log[q].seen[i].key;
      assert ReadAgrees(s.log, init, q, i);
      CommitReplay(s, s', p, t, q, First(init, k), k);
    }
  }

  /** No committed write of k names a later version than the replay of the whole log. */
  lemma {:induction false} LatestIsHighest(log: seq<Entry>, n: nat, q: nat, init: Version, k: nat)
    requires TidsIncrease(log) && q < n <= |log| && CommitsWrite(log[q], k)
    ensures Ver(log[q].status.tid) <= Replay(log, n, init, k).ver
  {
    if q < n - 1 && !CommitsWrite(log[n - 1], k) {
      LatestIsHighest(log, n - 1, q, init, k);
    }
  }

  lemma CommitTids(s: State, s': State, init: seq<Bytes>, p: nat, t: TidWord)
    requires Commit(s, s', p, t) && Safe(s, p) && TidsIncrease(s.log)
    requires forall k: nat | k in s.log[p].writes :: Latest(s, init, k).ver < Ver(t)
    ensures TidsIncrease(s'.log)
  {
    forall q, r, k: nat | 0 <= q < r < |s'.log| && CommitsWrite(s'.log[q], k) && CommitsWrite(s'.log[r], k)
      ensures Ver(s'.log[q].status.tid) < Ver(s'.log[r].status.tid)
    {
      if r == p {
        LatestIsHighest(s.log, |s.log|, q, First(init, k), k);
      }
    }
  }

  /** A worker about to commit has locked exactly what it writes, and what it has locked is older than its new TID. */
  lemma AboutToCommit(s: State, init: seq<Bytes>, w: nat, u: Worker, t: TidWord)
    requires Serial(s, init) && Wf(s) && LogOk(s) && w < |s.ws| && u == s.ws[w] && u.pc.Choose?
    requires Ver(u.maxWrite) < Ver(t)
    ensures Safe(s, u.pos) && s.log[u.pos].writes == u.writeSet && s.log[u.pos].value == u.value
    ensures forall k: nat :: Holds(u, k) <==> k in u.writeSet
    ensures forall k: nat | k in u.writeSet ::
              k < |s.recs| && Latest(s, init, k).ver == Ver(s.recs[k].word) && Ver(s.recs[k].word) < Ver(t)
  {
    assert WorkerOk(s, init, u) && EntryOk(w, u, s.log[u.pos]);
    forall k: nat ensures Holds(u, k) <==> k in u.writeSet {
      if k in u.writeSet {
        var j :| 0 <= j < |u.writeSet| && u.writeSet[j] == k;
        HoldsAt(u, j);
      }
    }
    forall k: nat | k in u.writeSet
      ensures k < |s.recs| && Latest(s, init, k).ver == Ver(s.recs[k].word) && Ver(s.recs[k].word) < Ver(t)
    {
      assert Holds(u, k);
      assert HeldOk(s, init, u, k);
    }
  }

  lemma CommitRely(s: State, s': State, init: seq<Bytes>, p: nat, t: TidWord)
    requires Commit(s, s', p, t) && Safe(s, p) && (forall k | 0 <= k < |s.recs| :: RecOk(s, init, k))
    requires forall k: nat | k in s.log[p].writes :: k < |s.recs| && Ver(s.recs[k].word) < Ver(t)
    ensures RecsRely(s, s', init)
    ensures forall k | 0 <= k < |s'.recs| && k !in s.log[p].writes :: RecOk(s', init, k)
    ensures forall k | 0 <= k < |s'.recs| && k in s.log[p].writes :: !Clean(s', init, k)
  {
    forall k: nat ensures Latest(s', init, k) ==
        if k in s.log[p].writes then Version(Ver(t), s.log[p].value) else Latest(s, init, k)
    {
      CommitLatest(s, s', p, t, init, k);
    }
    forall k | 0 <= k < |s'.recs| && k !in s.log[p].writes ensures RecOk(s', init, k) {
      assert RecOk(s, init, k);
    }
  }

  lemma CommitLogRely(s: State, s': State, p: nat, t: TidWord, v: Worker)
    requires Commit(s, s', p, t)
    requires forall k: nat | k in s.log[p].writes :: k < |s.recs| && Ver(s.recs[k].word) < Ver(t)
    ensures LogRely(s, s', v)
  {
  }

  lemma CommitOther(s: State, s': State, init: seq<Bytes>, p: nat, t: TidWord, v: Worker)
    requires Commit(s, s', p, t) && Safe(s, p) && WorkerOk(s, init, v) && RecsRely(s, s', init)
    requires forall k: nat | k in s.log[p].writes :: k < |s.recs| && Ver(s.recs[k].word) < Ver(t) && !Holds(v, k)
    ensures WorkerOk(s', init, v)
  {
    forall k: nat | Holds(v, k) ensures Latest(s', init, k) == Latest(s, init, k) {
      CommitLatest(s, s', p, t, init, k);
    }
    CommitLogRely(s, s', p, t, v);
    WorkersKept(s, s', init, v);
  }

  lemma CommitSelf(s: State, s': State, init: seq<Bytes>, p: nat, t: TidWord, u: Worker, u': Worker)
    requires Commit(s, s', p, t) && Safe(s, p) && WorkerOk(s, init, u) && RecsRely(s, s', init)
    requires u.pc.Choose? && u' == u.(pc := WriteRec(0, 0), last := t) && u.pos == p
    requires s.log[p].writes == u.writeSet && s.log[p].value == u.value && |u.value| == VALUE_SIZE
    requires forall k: nat | k in u.writeSet ::
               k < |s.recs| && Ver(s.recs[k].word) < Ver(t) && |s.recs[k].value| == VALUE_SIZE
    ensures WorkerOk(s', init, u')
  {
    ReadsKept(s, s', init, u);
    forall k: nat | Holds(u', k) ensures k < |s'.recs| && HeldOk(s', init, u', k) {
      CommitLatest(s, s', p, t, init, k);
    }
    assert forall k: nat :: Holds(u', k) <==> Holds(u, k);
  }

  lemma CommitSerial(s: State, s': State, init: seq<Bytes>, w: nat, u: Worker, t: TidWord)
    requires Serial(s, init) && Wf(s) && Locks(s) && LogOk(s) && w < |s.ws| && u == s.ws[w]
    requires u.pc.Choose? && u.pos < |s.log| && Ver(u.maxWrite) < Ver(t)
    requires s' == s.(log := s.log[u.pos := s.log[u.pos].(status := Committed(t))],
                      ws := s.ws[w := u.(pc := WriteRec(0, 0), last := t)])
    ensures Serial(s', init)
  {
    var p := u.pos;
    AboutToCommit(s, init, w, u, t);
    assert EntryOk(w, u, s.log[p]) && WorkerWf(|s.recs|, |s.ws|, w, u);
    assert Commit(s, s', p, t);
    CommitRely(s, s', init, p, t);
    CommitChecks(s, s', init, p, t);
    CommitTids(s, s', init, p, t);
    forall k | 0 <= k < |s'.recs| ensures RecOk(s', init, k) {
      if k in u.writeSet {
        LockedBy(s, w, k);
      }
    }
    forall v | 0 <= v < |s'.ws| ensures WorkerOk(s', init, s'.ws[v]) {
      assert WorkerOk(s, init, s.ws[v]);
      if v == w {
        CommitSelf(s, s', init, p, t, u, s'.ws[w]);
      } else {
        CommitOther(s, s', init, p, t, s.ws[v]);
      }
    }
  }

  // ---- every step ----

  lemma ReadsSelf(s: State, init: seq<Bytes>, w: nat, u: Worker, c: Choice)
    requires ReadsOk(s, init, u) && Wf(s) && Legal(s, w, c) && u == s.ws[w]
    ensures ReadsOk(s, init, MoveOf(s, w, u, c).u)
  {
    if u.pc.Reading? {
      assert WorkerWf(|s.recs|, |s.ws|, w, u);
      ReadMove(s, init, w, u);
    } else {
      OtherReads(s, init, w, u, c);
    }
  }

  lemma PutStep(s: State, init: seq<Bytes>, w: nat, u: Worker, c: Choice, m: Move)
    requires Serial(s, init) && Wf(s) && Locks(s) && Legal(s, w, c) && u == s.ws[w]
    requires m == MoveOf(s, w, u, c) && m.eff.PutRec?
    ensures Serial(After(s, w, m), init)
  {
    assert WorkerWf(|s.recs|, |s.ws|, w, u);
    if u.pc.LockTry? {
      LockMove(s, w, u);
      TakeSerial(s, init, w, u, m);
    } else if u.pc.WriteRec? {
      WriteMove(s, w, u);
      if u.pc.j < VALUE_SIZE {
        ByteSerial(s, init, w, u, m);
      } else {
        InstallSerial(s, init, w, u, m);
      }
    } else {
      UnlockMove(s, w, u);
      UnlockSerial(s, init, w, u, m);
    }
  }

  lemma QuietStep(s: State, init: seq<Bytes>, w: nat, u: Worker, c: Choice, m: Move)
    requires Serial(s, init) && Wf(s) && Locks(s) && Legal(s, w, c) && u == s.ws[w]
    requires m == MoveOf(s, w, u, c) && (m.eff.Quiet? || m.eff.SetEpoch?)
    ensures Serial(After(s, w, m), init)
  {
    assert WorkerOk(s, init, u);
    MoveLocks(s, w, u, c);
    QuietStance(s, w, u, c);
    StanceRest(s, init, u, m.u);
    ReadsSelf(s, init, w, u, c);
    QuietSerial(s, init, w, m);
  }

  /** Serializability is kept by every step, if it is not the choice of a TID without room. */
  lemma SerialStep(s: State, init: seq<Bytes>, w: nat, c: Choice)
    requires Serial(s, init) && Wf(s) && Locks(s) && LogOk(s) && Legal(s, w, c) && HasRoom(s, w)
    ensures Serial(Step(s, w, c), init)
  {
    var u := s.ws[w];
    var m := MoveOf(s, w, u, c);
    if m.eff.PutRec? {
      PutStep(s, init, w, u, c, m);
    } else if m.eff.Quiet? || m.eff.SetEpoch? {
      QuietStep(s, init, w, u, c, m);
    } else {
      LogMoveStep(s, init, w, u, c, m);
    }
  }

  lemma ValidateStep(s: State, init: seq<Bytes>, w: nat, u: Worker, m: Move)
    requires Serial(s, init) && Wf(s) && Locks(s) && LogOk(s) && w < |s.ws| && u == s.ws[w]
    requires u.pc.Validate? && m == MoveValidate(s, w, u) && !m.eff.Quiet?
    ensures Serial(After(s, w, m), init)
  {
    assert EntryOk(w, u, s.log[u.pos]);
    if m.eff.Mark? {
      MarkSerial(s, After(s, w, m), init, w, u, m.u.maxRead);
    } else {
      AbortSerial(s, After(s, w, m), init, w, u);
    }
  }

  lemma ChooseStep(s: State, init: seq<Bytes>, w: nat, u: Worker, m: Move)
    requires Serial(s, init) && Wf(s) && Locks(s) && LogOk(s) && w < |s.ws| && u == s.ws[w]
    requires u.pc.Choose? && m == MoveWrite(s, u) && RoomToChoose(u)
    ensures Serial(After(s, w, m), init)
  {
    assert EntryOk(w, u, s.log[u.pos]);
    ChooseTidGrowsIff(u.maxWrite, u.maxRead, u.last, u.epoch);
    CommitSerial(s, After(s, w, m), init, w, u, m.u.last);
  }

  lemma LogMoveStep(s: State, init: seq<Bytes>, w: nat, u: Worker, c: Choice, m: Move)
    requires Serial(s, init) && Wf(s) && Locks(s) && LogOk(s) && Legal(s, w, c) && HasRoom(s, w) && u == s.ws[w]
    requires m == MoveOf(s, w, u, c) && (m.eff.Append? || m.eff.Mark? || m.eff.Decide?)
    ensures Serial(After(s, w, m), init)
  {
    if u.pc.EpochLoad? {
      AppendSerial(s, After(s, w, m), init, w, u, m.eff.entry);
    } else if u.pc.Choose? {
      ChooseStep(s, init, w, u, m);
    } else {
      ValidateStep(s, init, w, u, m);
    }
  }
}
