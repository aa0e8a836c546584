/**
 * The Silo protocol as a small-step machine: several workers, each with a program counter, share a
 * table of records and a global epoch. Every access to shared memory is one step of one worker.
 * `log` is bookkeeping for the theorems: a transaction is entered at its lock point, the moment it
 * loads the global epoch with its whole write set locked.
 */
module SiloMachine {
  import opened SiloTid

  /** Bytes per record value (silo/consts.h). */
  const VALUE_SIZE: nat := 4

  type Bytes = seq<char>

  datatype Rec = Rec(word: TidWord, value: Bytes)

  datatype Op = Read(key: nat) | Write(key: nat)

  datatype ReadElem = ReadElem(key: nat, word: TidWord, value: Bytes)

  datatype Status = Pending | Committed(tid: TidWord) | Aborted

  /** `checked` counts the reads validated so far. */
  datatype Entry = Entry(
    worker: nat, seen: seq<ReadElem>, writes: seq<nat>, value: Bytes, epoch: nat, checked: nat, status: Status)

  datatype Pc =
    | Idle                                                      // top of the worker loop
    | Retry                                                     // label RETRY
    | CheckLoad                                                 // checkEpochLoaded: load the global epoch
    | Check(i: nat, now: nat)                                   // ... and compare worker i's epoch with it
    | AddLoad                                                   // atomicAddGlobalEpoch: load
    | AddCas(before: nat)                                       // ... and compare-and-swap
    | Start                                                     // quit test and begin()
    | Exec(op: nat)                                             // next operation of the program
    | Reading(op: nat, key: nat, expected: TidWord, buf: Bytes) // read(): word loaded, buf copied so far
    | LockLoad(i: nat)                                          // lockWriteSet: load the word of the i-th write
    | LockTry(i: nat, expected: TidWord)                        // ... spin on its lock bit, or compare-and-swap
    | EpochLoad                                                 // the lock point
    | EpochStore(e: nat)
    | Validate(i: nat)                                          // phase 2, i-th read
    | Choose                                                    // writePhase: choose the TID
    | WriteRec(i: nat, j: nat)                                  // copy byte j of the i-th write, then store its word
    | UnlockLoad(i: nat)                                        // unlockWriteSet
    | UnlockStore(i: nat, expected: TidWord)
    | Stopped

  datatype Worker = Worker(
    pc: Pc, prog: seq<Op>, value: Bytes,
    readSet: seq<ReadElem>, writeSet: seq<nat>,
    maxRead: TidWord, maxWrite: TidWord, last: TidWord,
    epoch: nat, pos: nat)

  datatype State = State(recs: seq<Rec>, epoch: nat, ws: seq<Worker>, log: seq<Entry>)

  /** What the environment decides: whether the epoch timer has elapsed, whether `quit` is set, the next program. */
  datatype Choice = Choice(timer: bool, quit: bool, prog: seq<Op>, value: Bytes)

  predicate Legal(s: State, w: nat, c: Choice) {
    && w < |s.ws|
    && |c.value| == VALUE_SIZE
    && |c.prog| > 0
    && forall i | 0 <= i < |c.prog| :: c.prog[i].key < |s.recs|
  }

  predicate ReadsKey(seen: seq<ReadElem>, k: nat) {
    exists i :: 0 <= i < |seen| && seen[i].key == k
  }

  // ---- std::sort on the write set ----

  function Insert(k: nat, s: seq<nat>): seq<nat> {
    if s == [] || k < s[0] then [k] + s else [s[0]] + Insert(k, s[1..])
  }

  function Sort(s: seq<nat>): seq<nat> {
    if s == [] then [] else Insert(s[0], Sort(s[1..]))
  }

  // ---- steps ----

  /** What a step does to shared memory (and to the log), besides moving its own worker on. */
  datatype Effect =
    | Quiet
    | PutRec(k: nat, rec: Rec)
    | SetEpoch(epoch: nat)
    | Append(entry: Entry)
    | Mark(pos: nat)
    | Decide(pos: nat, status: Status)

  datatype Move = Move(u: Worker, eff: Effect)

  function Goto(u: Worker, pc: Pc): Move {
    Move(u.(pc := pc), Quiet)
  }

  /** silo/main.cpp worker() and silo/epoch.h stepEpochTime(): everything outside a transaction. */
  function MoveOutside(s: State, w: nat, u: Worker, c: Choice): Move {
    match u.pc
    case Idle =>
      if c.quit then Goto(u, Stopped) else Move(u.(pc := Retry, prog := c.prog, value := c.value), Quiet)
    case Retry =>
      Goto(u, if w == 0 && c.timer then CheckLoad else Start)
    case CheckLoad =>
      Goto(u, Check(1, s.epoch))
    case Check(i, now) =>
      if i >= |s.ws| then Goto(u, AddLoad)
      else if s.ws[i].epoch != now then Goto(u, Start)
      else Goto(u, Check(i + 1, now))
    case AddLoad =>
      Goto(u, AddCas(s.epoch))
    case AddCas(before) =>
      if s.epoch == before then Move(u.(pc := Start), SetEpoch(before + 1))
      else Goto(u, AddCas(s.epoch))
    case Start =>
      if c.quit then Goto(u, Stopped) else Move(u.(pc := Exec(0), maxRead := ZERO, maxWrite := ZERO), Quiet)
    case _ => Goto(u, u.pc)
  }

  /** The word of record k, as one atomic load finds it. */
  function Load(s: State, k: nat): TidWord {
    if k < |s.recs| then s.recs[k].word else ZERO
  }

  /** silo/txn_executor.cpp read() and write(): dispatch, then the reader's spin, copy and re-check. */
  function MoveExec(s: State, u: Worker): Move
    requires u.pc.Exec?
  {
    var i := u.pc.op;
    if i >= |u.prog| then Move(u.(pc := LockLoad(0), writeSet := Sort(u.writeSet)), Quiet)
    else
      match u.prog[i]
      case Read(k) =>
        if ReadsKey(u.readSet, k) || k in u.writeSet then Goto(u, Exec(i + 1))
        else Goto(u, Reading(i, k, Load(s, k), []))
      case Write(k) =>
        Move(u.(pc := Exec(i + 1), writeSet := if k in u.writeSet then u.writeSet else u.writeSet + [k]), Quiet)
  }

  function MoveRead(s: State, u: Worker): Move
    requires u.pc.Reading?
  {
    var Reading(i, k, expected, buf) := u.pc;
    if expected.lock then Goto(u, Reading(i, k, Load(s, k), []))
    else if |buf| < VALUE_SIZE then
      if k < |s.recs| && |buf| < |s.recs[k].value| then Goto(u, Reading(i, k, expected, buf + [s.recs[k].value[|buf|]]))
      else Goto(u, u.pc)
    else if Load(s, k) == expected then
      Move(u.(pc := Exec(i + 1), readSet := u.readSet + [ReadElem(k, expected, buf)]), Quiet)
    else Goto(u, Reading(i, k, Load(s, k), []))
  }

  /** silo/txn_executor.cpp lockWriteSet(): a failed compare-and-swap also reloads the word. */
  function MoveLock(s: State, u: Worker): Move {
    match u.pc
    case LockLoad(i) =>
      if i >= |u.writeSet| then Goto(u, EpochLoad) else Goto(u, LockTry(i, Load(s, u.writeSet[i])))
    case LockTry(i, expected) =>
      if i >= |u.writeSet| then Goto(u, u.pc)
      else
        var k := u.writeSet[i];
        if !expected.lock && k < |s.recs| && s.recs[k].word == expected then
          Move(u.(pc := LockLoad(i + 1), maxWrite := Max(u.maxWrite, expected)),
               PutRec(k, s.recs[k].(word := expected.(lock := true))))
        else Goto(u, LockTry(i, Load(s, k)))
    case _ => Goto(u, u.pc)
  }

  /** The test validationPhase() applies to the word found for a read. */
  predicate Valid(r: ReadElem, check: TidWord, writeSet: seq<nat>) {
    && r.word.tid == check.tid
    && (check.lock ==> r.key in writeSet)
    && r.word.epoch == check.epoch
  }

  /** silo/txn_executor.cpp validationPhase() once the write set is locked. */
  function MoveValidate(s: State, w: nat, u: Worker): Move {
    match u.pc
    case EpochLoad =>
      Move(u.(pc := EpochStore(s.epoch), pos := |s.log|),
           Append(Entry(w, u.readSet, u.writeSet, u.value, s.epoch, 0, Pending)))
    case EpochStore(e) =>
      Move(u.(pc := Validate(0), epoch := e), Quiet)
    case Validate(i) =>
      if i >= |u.readSet| then Goto(u, Choose)
      else
        var check := Load(s, u.readSet[i].key);
        if Valid(u.readSet[i], check, u.writeSet) then
          Move(u.(pc := Validate(i + 1), maxRead := Max(u.maxRead, check)), Mark(u.pos))
        else Move(u.(pc := UnlockLoad(0)), Decide(u.pos, Aborted))
    case _ => Goto(u, u.pc)
  }

  /** silo/txn_executor.cpp writePhase(): choose the TID, then for each write copy the bytes and store the word. */
  function MoveWrite(s: State, u: Worker): Move {
    match u.pc
    case Choose =>
      var t := ChooseTid(u.maxWrite, u.maxRead, u.last, u.epoch);
      Move(u.(pc := WriteRec(0, 0), last := t), Decide(u.pos, Committed(t)))
    case WriteRec(i, j) =>
      if i >= |u.writeSet| then Move(u.(pc := Idle, readSet := [], writeSet := []), Quiet)
      else if u.writeSet[i] >= |s.recs| then Goto(u, u.pc)
      else
        var k := u.writeSet[i];
        var r := s.recs[k];
        if j < VALUE_SIZE && j < |r.value| && j < |u.value| then
          Move(u.(pc := WriteRec(i, j + 1)), PutRec(k, r.(value := r.value[j := u.value[j]])))
        else Move(u.(pc := WriteRec(i + 1, 0)), PutRec(k, r.(word := u.last)))
    case _ => Goto(u, u.pc)
  }

  /** silo/txn_executor.cpp unlockWriteSet() and abort(). */
  function MoveUnlock(s: State, u: Worker): Move {
    match u.pc
    case UnlockLoad(i) =>
      if i >= |u.writeSet| then Move(u.(pc := Retry, readSet := [], writeSet := []), Quiet)
      else Goto(u, UnlockStore(i, Load(s, u.writeSet[i])))
    case UnlockStore(i, expected) =>
      if i >= |u.writeSet| || u.writeSet[i] >= |s.recs| then Goto(u, u.pc)
      else
        var k := u.writeSet[i];
        Move(u.(pc := UnlockLoad(i + 1)), PutRec(k, s.recs[k].(word := expected.(lock := false))))
    case _ => Goto(u, u.pc)
  }

  function MoveOf(s: State, w: nat, u: Worker, c: Choice): Move {
    match u.pc
    case Exec(_) => MoveExec(s, u)
    case Reading(_, _, _, _) => MoveRead(s, u)
    case LockLoad(_) => MoveLock(s, u)
    case LockTry(_, _) => MoveLock(s, u)
    case EpochLoad => MoveValidate(s, w, u)
    case EpochStore(_) => MoveValidate(s, w, u)
    case Validate(_) => MoveValidate(s, w, u)
    case Choose => MoveWrite(s, u)
    case WriteRec(_, _) => MoveWrite(s, u)
    case UnlockLoad(_) => MoveUnlock(s, u)
    case UnlockStore(_, _) => MoveUnlock(s, u)
    case _ => MoveOutside(s, w, u, c)
  }

  function ApplyEffect(s: State, eff: Effect): State {
    match eff
    case Quiet => s
    case PutRec(k, rec) => if k < |s.recs| then s.(recs := s.recs[k := rec]) else s
    case SetEpoch(e) => s.(epoch := e)
    case Append(entry) => s.(log := s.log + [entry])
    case Mark(p) => if p < |s.log| then s.(log := s.log[p := s.log[p].(checked := s.log[p].checked + 1)]) else s
    case Decide(p, st) => if p < |s.log| then s.(log := s.log[p := s.log[p].(status := st)]) else s
  }

  /** The state after worker w makes move m. */
  function After(s: State, w: nat, m: Move): State
    requires w < |s.ws|
  {
    ApplyEffect(s, m.eff).(ws := s.ws[w := m.u])
  }

  /** One atomic step of worker w. */
  function Step(s: State, w: nat, c: Choice): State
    requires Legal(s, w, c)
  {
    After(s, w, MoveOf(s, w, s.ws[w], c))
  }

  /** silo/main.cpp init(), on zeroed memory: epoch 1, tid 0, unlocked; the global and local epochs are 0. */
  predicate Init(s: State) {
    && |s.ws| > 0
    && s.epoch == 0
    && s.log == []
    && (forall k | 0 <= k < |s.recs| ::
          s.recs[k].word == Fields(false, true, false, 0, 1) && |s.recs[k].value| == VALUE_SIZE)
    && (forall w | 0 <= w < |s.ws| ::
          var u := s.ws[w];
          u.pc == Idle && u.readSet == [] && u.writeSet == [] && u.last == ZERO
          && u.maxRead == ZERO && u.maxWrite == ZERO && u.epoch == 0)
  }

  // ---- runs ----

  datatype Event = Event(w: nat, c: Choice)

  /** The i-th event of the schedule takes the i-th state of the run to the next. */
  predicate StepAt(run: seq<State>, schedule: seq<Event>, i: nat)
    requires i < |schedule| < |run|
  {
    Legal(run[i], schedule[i].w, schedule[i].c) && run[i + 1] == Step(run[i], schedule[i].w, schedule[i].c)
  }

  /** `run` is a run of the machine from an initial state under `schedule`. */
  predicate IsRun(run: seq<State>, schedule: seq<Event>) {
    && |run| == |schedule| + 1
    && Init(run[0])
    && forall i | 0 <= i < |schedule| :: StepAt(run, schedule, i)
  }

  /** The number of commits, and of those whose TID is in epoch e. */
  function Commits(log: seq<Entry>): nat {
    if log == [] then 0 else Commits(log[..|log| - 1]) + (if log[|log| - 1].status.Committed? then 1 else 0)
  }

  predicate CommitsAt(entry: Entry, e: nat) {
    entry.status.Committed? && entry.status.tid.epoch == e
  }

  function CommitsIn(log: seq<Entry>, e: nat): nat {
    if log == [] then 0 else CommitsIn(log[..|log| - 1], e) + (if CommitsAt(log[|log| - 1], e) then 1 else 0)
  }

  /**
   * The range in which the tid field of a TID word holds what is put into it: the tid starts again in
   * every epoch, so it is the commits of one epoch that must be fewer than 2^29.
   */
  ghost predicate InRange(s: State) {
    forall e: nat :: CommitsIn(s.log, e) < TID_LIMIT
  }

  // ---- the serial specification ----

  datatype Version = Version(ver: nat, value: Bytes)

  /** Does entry i of the log commit a write of record k? */
  predicate CommitsWrite(e: Entry, k: nat) {
    e.status.Committed? && k in e.writes
  }

  /**
   * What record k holds after running the first p transactions of the log one after another, each
   * committed one storing its value under its TID in every record it writes.
   */
  function Replay(log: seq<Entry>, p: nat, init: Version, k: nat): Version
    requires p <= |log|
  {
    if p == 0 then init
    else if CommitsWrite(log[p - 1], k) then Version(Ver(log[p - 1].status.tid), log[p - 1].value)
    else Replay(log, p - 1, init, k)
  }
}
