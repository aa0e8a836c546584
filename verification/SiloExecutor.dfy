/**
 * The code of a worker, in its own loops and fields: each access to shared memory is a step of the machine,
 * so that what holds of the machine's runs holds of the code among any other workers.
 * A method returns false exactly when the turns that the environment had to give are used up on the way.
 */
module SiloExecutor {
  import opened SiloTid
  import opened SiloMachine
  import opened SiloLocks
  import opened SiloProgram
  import opened SiloShared

  /** Between the sorting of the write set and the end of validationPhase. */
  predicate InValidation(pc: Pc) {
    || pc.Exec? || pc.LockLoad? || pc.LockTry? || pc.EpochLoad? || pc.EpochStore? || pc.Validate?
    || pc.UnlockLoad? || pc.UnlockStore?
  }

  /** Between the label RETRY and the first operation. */
  predicate InBegin(pc: Pc) {
    pc.Retry? || pc.CheckLoad? || pc.Check? || pc.AddLoad? || pc.AddCas? || pc.Start?
  }

  class TxnExecutor {
    const sys: Shared
    var steps: seq<Op>
    var writeValue: Bytes
    var readSet: seq<ReadElem>
    var writeSet: seq<nat>
    var maxReadTid: TidWord
    var maxWriteTid: TidWord
    var mostRecentlyChosenTid: TidWord
    var entry: nat // where in the log the transaction is, for the bookkeeping only

    /** The code is where the machine's program counter says, with the same local state. */
    ghost predicate Here(pc: Pc)
      reads this, sys
    {
      && sys.me == Worker(pc, steps, writeValue, readSet, writeSet, maxReadTid, maxWriteTid, mostRecentlyChosenTid,
                          sys.me.epoch, sys.me.pos)
      && (Logged(pc) ==> entry == sys.me.pos)
    }

    /** ... and it is ready for the next turn. */
    ghost predicate At(pc: Pc)
      reads this, sys
    {
      sys.Ready() && Here(pc)
    }

    /** The sets have exactly the keys that the program writes, and those that it reads before writing them. */
    ghost predicate Asked()
      reads this
    {
      && (forall k: nat :: k in writeSet <==> Writes(steps, |steps|, k))
      && (forall k: nat :: ReadsKey(readSet, k) <==> Reads(steps, |steps|, k))
    }

    lemma AskedAt(pc: Pc)
      requires At(pc) && (pc == Exec(|steps|) || pc == Choose)
      ensures Asked()
    {
      sys.ProgramFollowed();
    }

    /** One read of the key was added, with a whole value that was not found locked. */
    ghost predicate ReadOnce(before: seq<ReadElem>, after: seq<ReadElem>, key: nat) {
      && |after| == |before| + 1 && after[..|before|] == before
      && after[|before|].key == key && !after[|before|].word.lock && |after[|before|].value| == VALUE_SIZE
    }

    constructor (sys: Shared)
      requires sys.Ready() && sys.me.pc == Idle && sys.me.readSet == [] && sys.me.writeSet == []
      requires sys.me.maxRead == ZERO && sys.me.maxWrite == ZERO && sys.me.last == ZERO
      requires sys.me == sys.mem.ws[sys.id]
      ensures At(Idle) && this.sys == sys
    {
      this.sys := sys;
      steps, writeValue := sys.mem.ws[sys.id].prog, sys.mem.ws[sys.id].value;
      readSet, writeSet := [], [];
      maxReadTid, maxWriteTid, mostRecentlyChosenTid := ZERO, ZERO, ZERO;
      entry := 0;
    }

    // ---- sets ----

    method SearchReadSet(key: nat) returns (found: bool)
      ensures found <==> ReadsKey(readSet, key)
    {
      var i := 0;
      while i < |readSet|
        invariant 0 <= i <= |readSet|
        invariant forall j | 0 <= j < i :: readSet[j].key != key
      {
        if readSet[i].key == key {
          return true;
        }
        i := i + 1;
      }
      return false;
    }

    method SearchWriteSet(key: nat) returns (found: bool)
      ensures found <==> key in writeSet
    {
      var i := 0;
      while i < |writeSet|
        invariant 0 <= i <= |writeSet|
        invariant key !in writeSet[..i]
      {
        if writeSet[i] == key {
          return true;
        }
        i := i + 1;
      }
      return false;
    }

    // ---- execution ----

    /** read: unless the key is in one of the sets, its record is read into the read set. */
    method Read(op: nat, key: nat) returns (ok: bool)
      requires At(Exec(op)) && op < |steps| && steps[op] == Op.Read(key)
      modifies this, sys
      ensures sys.Ready() && (ok || sys.env == []) && |sys.env| <= old(|sys.env|) && old(sys.run) <= sys.run
      ensures ok ==> At(Exec(op + 1)) && steps == old(steps) && writeSet == old(writeSet)
      ensures ok && (ReadsKey(old(readSet), key) || key in writeSet) ==> readSet == old(readSet)
      ensures ok && !ReadsKey(old(readSet), key) && key !in writeSet ==> ReadOnce(old(readSet), readSet, key)
      ensures !ok ==> sys.me.pc == Exec(op) || (sys.me.pc.Reading? && sys.me.pc.op == op)
    {
      hide IsRun, Step, Legal, Played, Shared.Due, MoveOf;
      var c;
      ok, c := sys.Turn();
      if !ok {
        return;
      }
      assert sys.me.prog[op].key == key;
      sys.InTable();
      var inReadSet := SearchReadSet(key);
      var inWriteSet := SearchWriteSet(key);
      if inReadSet || inWriteSet {
        SkipRead(op, key, c);
      } else {
        var expected := sys.mem.recs[key].word;
        StartRead(op, key, c);
        ok := ReadRecord(op, key, expected);
      }
    }

    /** The first access of read, which the machine also makes for a key that need not be read. */
    method SkipRead(op: nat, key: nat, c: Choice)
      requires sys.Due(c) && Here(Exec(op)) && op < |steps| && steps[op] == Op.Read(key)
      requires ReadsKey(readSet, key) || key in writeSet
      modifies sys
      ensures At(Exec(op + 1)) && sys.env == old(sys.env) && old(sys.run) <= sys.run
    {
      hide IsRun, Step, Legal, Played, Shared.Due, MoveOutside, MoveRead, MoveLock, MoveValidate, MoveWrite, MoveUnlock;
      sys.Done(Quiet, c);
    }

    method StartRead(op: nat, key: nat, c: Choice)
      requires sys.Due(c) && Here(Exec(op)) && op < |steps| && steps[op] == Op.Read(key) && key < |sys.mem.recs|
      requires !ReadsKey(readSet, key) && key !in writeSet
      modifies sys
      ensures At(Reading(op, key, old(sys.mem.recs[key].word), []))
      ensures sys.env == old(sys.env) && old(sys.run) <= sys.run
    {
      hide IsRun, Step, Legal, Played, Shared.Due, MoveOutside, MoveRead, MoveLock, MoveValidate, MoveWrite, MoveUnlock;
      sys.Done(Quiet, c);
    }

    /** The loop of read: spin until the lock is clear, copy the bytes, look at the word again. */
    method ReadRecord(op: nat, key: nat, word: TidWord) returns (ok: bool)
      requires At(Reading(op, key, word, []))
      modifies this, sys
      ensures sys.Ready() && (ok || sys.env == []) && |sys.env| <= old(|sys.env|) && old(sys.run) <= sys.run
      ensures ok ==> At(Exec(op + 1)) && steps == old(steps) && writeSet == old(writeSet)
      ensures ok ==> ReadOnce(old(readSet), readSet, key)
      ensures !ok ==> sys.me.pc.Reading? && sys.me.pc.op == op
    {
      hide IsRun, Step, Legal, Played, Shared.Due, MoveOf;
      var expected := word;
      while true
        invariant At(Reading(op, key, expected, [])) && steps == old(steps) && readSet == old(readSet)
        invariant writeSet == old(writeSet)
        invariant |sys.env| <= old(|sys.env|) && old(sys.run) <= sys.run
        decreases |sys.env|
      {
        ok, expected := SpinUnlocked(op, key, expected);
        if !ok {
          return;
        }
        var buf;
        ok, buf := CopyValue(op, key, expected);
        if !ok {
          return;
        }
        var same;
        ok, same, expected := Recheck(op, key, expected, buf);
        if !ok || same {
          return;
        }
      }
    }

    /** The word is loaded again: if it is the one found before, the copy is good. */
    method Recheck(op: nat, key: nat, expected: TidWord, buf: Bytes) returns (ok: bool, same: bool, check: TidWord)
      requires At(Reading(op, key, expected, buf)) && !expected.lock && |buf| == VALUE_SIZE
      modifies this, sys
      ensures sys.Ready() && (ok || sys.env == []) && |sys.env| <= old(|sys.env|) && old(sys.run) <= sys.run
      ensures ok ==> steps == old(steps) && writeSet == old(writeSet) && same == (check == expected)
      ensures ok ==> readSet == if same then old(readSet) + [ReadElem(key, expected, buf)] else old(readSet)
      ensures ok ==> At(if same then Exec(op + 1) else Reading(op, key, check, []))
      ensures sys.Took(ok, 1) && (!ok ==> sys.me == old(sys.me))
    {
      hide IsRun, Step, Legal, Played, Shared.Due, MoveOf;
      same, check := false, expected;
      var c;
      ok, c := sys.Turn();
      if !ok {
        return;
      }
      sys.InTable();
      check := sys.mem.recs[key].word;
      same := expected == check;
      if same {
        Keep(op, key, expected, buf, c);
      } else {
        Discard(op, key, expected, buf, c);
      }
    }

    method Keep(op: nat, key: nat, expected: TidWord, buf: Bytes, c: Choice)
      requires sys.Due(c) && Here(Reading(op, key, expected, buf)) && !expected.lock && |buf| == VALUE_SIZE
      requires key < |sys.mem.recs| && sys.mem.recs[key].word == expected
      modifies this, sys
      ensures At(Exec(op + 1)) && sys.env == old(sys.env) && old(sys.run) <= sys.run
      ensures steps == old(steps) && writeSet == old(writeSet)
      ensures readSet == old(readSet) + [ReadElem(key, expected, buf)]
    {
      hide IsRun, Step, Legal, Played, Shared.Due, MoveOutside, MoveLock, MoveValidate, MoveWrite, MoveUnlock;
      sys.Done(Quiet, c);
      readSet := readSet + [ReadElem(key, expected, buf)];
    }

    method Discard(op: nat, key: nat, expected: TidWord, buf: Bytes, c: Choice)
      requires sys.Due(c) && Here(Reading(op, key, expected, buf)) && !expected.lock && |buf| == VALUE_SIZE
      requires key < |sys.mem.recs| && sys.mem.recs[key].word != expected
      modifies sys
      ensures At(Reading(op, key, old(sys.mem.recs[key].word), []))
      ensures sys.env == old(sys.env) && old(sys.run) <= sys.run
    {
      hide IsRun, Step, Legal, Played, Shared.Due, MoveOutside, MoveLock, MoveValidate, MoveWrite, MoveUnlock;
      sys.Done(Quiet, c);
    }

    method SpinUnlocked(op: nat, key: nat, word: TidWord) returns (ok: bool, expected: TidWord)
      requires At(Reading(op, key, word, []))
      modifies sys
      ensures sys.Ready() && (ok || sys.env == []) && |sys.env| <= old(|sys.env|) && old(sys.run) <= sys.run
      ensures ok ==> At(Reading(op, key, expected, [])) && !expected.lock
      ensures !ok ==> sys.me.pc.Reading? && sys.me.pc.op == op
    {
      hide IsRun, Step, Legal, Played, Shared.Due, MoveOutside, MoveLock, MoveValidate, MoveWrite, MoveUnlock;
      expected := word;
      ok := true;
      while expected.lock
        invariant At(Reading(op, key, expected, []))
        invariant |sys.env| <= old(|sys.env|) && old(sys.run) <= sys.run
        decreases |sys.env|
      {
        var c;
        ok, c := sys.Turn();
        if !ok {
          return;
        }
        sys.Sound();
        expected := sys.mem.recs[key].word;
        sys.Done(Quiet, c);
      }
      ok := true;
    }

    /** memcpy, one byte at a time. */
    method CopyValue(op: nat, key: nat, expected: TidWord) returns (ok: bool, buf: Bytes)
      requires At(Reading(op, key, expected, [])) && !expected.lock
      modifies sys
      ensures sys.Ready() && (ok || sys.env == []) && old(sys.run) <= sys.run
      ensures ok ==> At(Reading(op, key, expected, buf)) && |buf| == VALUE_SIZE && |sys.env| < old(|sys.env|)
      ensures |sys.env| <= old(|sys.env|)
      ensures sys.Took(ok, VALUE_SIZE) && (!ok ==> sys.me.pc.Reading? && sys.me.pc.op == op)
    {
      hide IsRun, Step, Legal, Played, Shared.Due, MoveOutside, MoveLock, MoveValidate, MoveWrite, MoveUnlock;
      buf := [];
      while |buf| < VALUE_SIZE
        invariant At(Reading(op, key, expected, buf)) && |buf| <= VALUE_SIZE
        invariant |sys.env| + |buf| == old(|sys.env|) && old(sys.run) <= sys.run
      {
        var c;
        ok, c := sys.Turn();
        if !ok {
          return;
        }
        sys.Sound();
        buf := buf + [sys.mem.recs[key].value[|buf|]];
        sys.Done(Quiet, c);
      }
      ok := true;
    }

    /** write: remember the key, once. */
    method Write(op: nat, key: nat) returns (ok: bool)
      requires At(Exec(op)) && op < |steps| && steps[op] == Op.Write(key)
      modifies this, sys
      ensures sys.Ready() && (ok || sys.env == []) && |sys.env| <= old(|sys.env|) && old(sys.run) <= sys.run
      ensures ok ==> At(Exec(op + 1)) && steps == old(steps) && readSet == old(readSet)
      ensures ok ==> writeSet == if key in old(writeSet) then old(writeSet) else old(writeSet) + [key]
      ensures sys.Took(ok, 1) && (!ok ==> sys.me.pc == Exec(op) && sys.me == old(sys.me))
    {
      hide IsRun, Step, Legal, Played, Shared.Due, MoveOutside, MoveLock, MoveValidate, MoveWrite, MoveUnlock;
      var c;
      ok, c := sys.Turn();
      if !ok {
        return;
      }
      var found := SearchWriteSet(key);
      sys.Done(Quiet, c);
      if !found {
        writeSet := writeSet + [key];
      }
    }

    // ---- commit ----

    /** lockWriteSet: the records of the sorted write set, one after the other. */
    method LockWriteSet() returns (ok: bool)
      requires At(LockLoad(0))
      modifies this, sys
      ensures sys.Ready() && (ok || sys.env == []) && |sys.env| <= old(|sys.env|) && old(sys.run) <= sys.run
      ensures writeSet == old(writeSet) && (ok ==> At(EpochLoad) && sys.Locked(writeSet))
      ensures !ok ==> sys.me.pc.LockLoad? || sys.me.pc.LockTry?
    {
      hide IsRun, Step, Legal, Played, Shared.Due, MoveOf;
      var i := 0;
      while i < |writeSet|
        invariant i <= |writeSet| && At(LockLoad(i)) && writeSet == old(writeSet)
        invariant |sys.env| <= old(|sys.env|) && old(sys.run) <= sys.run
      {
        ok := LockRecord(i);
        if !ok {
          return;
        }
        i := i + 1;
      }
      ok := FinishLocking();
    }

    /** With every lock taken, the lock point comes next. */
    method FinishLocking() returns (ok: bool)
      requires At(LockLoad(|writeSet|))
      modifies this, sys
      ensures sys.Ready() && (ok || sys.env == []) && |sys.env| <= old(|sys.env|) && old(sys.run) <= sys.run
      ensures writeSet == old(writeSet) && (ok ==> At(EpochLoad) && sys.Locked(writeSet))
      ensures sys.Took(ok, 1) && (!ok ==> sys.me == old(sys.me))
    {
      hide IsRun, Step, Legal, Played, Shared.Due, MoveOutside, MoveExec, MoveRead, MoveValidate, MoveWrite, MoveUnlock;
      var c;
      ok, c := sys.Turn();
      if ok {
        sys.Done(Quiet, c);
        sys.AllLocked();
      }
    }

    /** One record is locked by compare-and-swap, once its lock bit is seen clear. */
    method LockRecord(i: nat) returns (ok: bool)
      requires At(LockLoad(i)) && i < |writeSet|
      modifies this, sys
      ensures sys.Ready() && (ok || sys.env == []) && |sys.env| <= old(|sys.env|) && old(sys.run) <= sys.run
      ensures writeSet == old(writeSet) && (ok ==> At(LockLoad(i + 1)))
      ensures !ok ==> sys.me.pc.LockLoad? || sys.me.pc.LockTry?
    {
      hide IsRun, Step, Legal, Played, Shared.Due, MoveOutside, MoveExec, MoveRead, MoveValidate, MoveWrite, MoveUnlock;
      var c, expected;
      ok, c := sys.Turn();
      if !ok {
        return;
      }
      sys.Sound();
      expected := sys.mem.recs[writeSet[i]].word;
      sys.Done(Quiet, c);
      while true
        invariant At(LockTry(i, expected)) && writeSet == old(writeSet)
        invariant |sys.env| <= old(|sys.env|) && old(sys.run) <= sys.run
        decreases |sys.env|
      {
        var locked;
        ok, locked, expected := TryLock(i, expected);
        if !ok || locked {
          return;
        }
      }
    }

    method TryLock(i: nat, word: TidWord) returns (ok: bool, locked: bool, expected: TidWord)
      requires At(LockTry(i, word)) && i < |writeSet|
      modifies this, sys
      ensures sys.Ready() && (ok || sys.env == []) && |sys.env| <= old(|sys.env|) && old(sys.run) <= sys.run
      ensures writeSet == old(writeSet) && |sys.env| <= old(|sys.env|) && (ok ==> |sys.env| < old(|sys.env|))
      ensures ok ==> At(if locked then LockLoad(i + 1) else LockTry(i, expected))
      ensures sys.Took(ok, 1) && (!ok ==> sys.me == old(sys.me))
    {
      hide IsRun, Step, Legal, Played, Shared.Due, MoveOf;
      expected, locked := word, false;
      var c;
      ok, c := sys.Turn();
      if !ok {
        return;
      }
      sys.InTable();
      var rec := sys.mem.recs[writeSet[i]];
      if expected.lock {
        Reload(i, expected, c);
        expected := rec.word;
      } else {
        var desired := expected.(lock := true);
        if rec.word == expected {
          Install(i, expected, rec.(word := desired), c);
          locked := true;
        } else {
          Reload(i, expected, c);
          expected := rec.word;
        }
      }
    }

    /** The compare-and-swap that succeeds, and the load that takes its place otherwise. */
    method Install(i: nat, expected: TidWord, rec: Rec, c: Choice)
      requires sys.Due(c) && Here(LockTry(i, expected)) && i < |writeSet| && writeSet[i] < |sys.mem.recs|
      requires sys.mem.recs[writeSet[i]].word == expected && !expected.lock
      requires rec == sys.mem.recs[writeSet[i]].(word := expected.(lock := true))
      modifies this, sys
      ensures At(LockLoad(i + 1)) && writeSet == old(writeSet) && sys.env == old(sys.env) && old(sys.run) <= sys.run
    {
      hide IsRun, Step, Legal, Played, Shared.Due, MoveOutside, MoveExec, MoveRead, MoveValidate, MoveWrite, MoveUnlock;
      sys.Done(PutRec(writeSet[i], rec), c);
      maxWriteTid := Max(maxWriteTid, expected);
    }

    method Reload(i: nat, expected: TidWord, c: Choice)
      requires sys.Due(c) && Here(LockTry(i, expected)) && i < |writeSet| && writeSet[i] < |sys.mem.recs|
      requires expected.lock || sys.mem.recs[writeSet[i]].word != expected
      modifies sys
      ensures At(LockTry(i, old(sys.mem.recs[writeSet[i]].word))) && sys.env == old(sys.env) && old(sys.run) <= sys.run
    {
      hide IsRun, Step, Legal, Played, Shared.Due, MoveOutside, MoveExec, MoveRead, MoveValidate, MoveWrite, MoveUnlock;
      sys.Done(Quiet, c);
    }

    /** The lock point: the global epoch is loaded, and published as the worker's own. */
    method LoadEpoch() returns (ok: bool)
      requires At(EpochLoad)
      modifies this, sys
      ensures sys.Ready() && (ok || sys.env == []) && |sys.env| <= old(|sys.env|) && old(sys.run) <= sys.run
      ensures ok ==> At(Validate(0)) && readSet == old(readSet)
      ensures sys.Took(ok, 2) && (!ok ==> sys.me.pc.EpochLoad? || sys.me.pc.EpochStore?)
    {
      hide IsRun, Step, Legal, Played, Shared.Due, MoveOutside, MoveExec, MoveRead, MoveLock, MoveWrite, MoveUnlock;
      var c;
      ok, c := sys.Turn();
      if ok {
        var e := sys.mem.epoch;
        entry := |sys.mem.log|;
        sys.Done(Append(Entry(sys.id, readSet, writeSet, writeValue, e, 0, Pending)), c);
        ok := PublishEpoch(e);
      }
    }

    method PublishEpoch(e: nat) returns (ok: bool)
      requires At(EpochStore(e))
      modifies this, sys
      ensures sys.Ready() && (ok || sys.env == []) && |sys.env| <= old(|sys.env|) && old(sys.run) <= sys.run
      ensures ok ==> At(Validate(0)) && readSet == old(readSet) && sys.mem.ws[sys.id].epoch == e
      ensures sys.Took(ok, 1) && (!ok ==> sys.me == old(sys.me))
    {
      hide IsRun, Step, Legal, Played, Shared.Due, MoveOutside, MoveExec, MoveRead, MoveLock, MoveWrite, MoveUnlock;
      var c;
      ok, c := sys.Turn();
      if ok {
        sys.StoreEpoch(e, c);
      }
    }

    /** The check of one read: same tid, same epoch, and no lock of another transaction. */
    method ValidateRead(i: nat) returns (ok: bool, valid: bool)
      requires At(Validate(i)) && i < |readSet|
      modifies this, sys
      ensures sys.Ready() && (ok || sys.env == []) && |sys.env| <= old(|sys.env|) && old(sys.run) <= sys.run
      ensures readSet == old(readSet) && (ok ==> At(if valid then Validate(i + 1) else UnlockLoad(0)))
      ensures sys.Took(ok, 1) && (!ok ==> sys.me == old(sys.me))
      ensures ok ==> readSet[i].key < |sys.mem.recs|
      ensures ok ==> (valid <==> Ver(readSet[i].word) == Ver(sys.mem.recs[readSet[i].key].word)
                                 && sys.Ours(readSet[i].key))
    {
      hide IsRun, Step, Legal, Played, Shared.Due, MoveOf;
      valid := false;
      var c;
      ok, c := sys.Turn();
      if !ok {
        return;
      }
      sys.InTable();
      var op := readSet[i];
      var check := sys.mem.recs[op.key].word;
      var own := SearchWriteSet(op.key);
      VerParts(op.word, check);
      OwnLocks(i);
      sys.OursIff(op.key);
      if op.word.tid != check.tid || (check.lock && !own) || op.word.epoch != check.epoch {
        Reject(i, check, c);
      } else {
        Accept(i, check, c);
        valid := true;
      }
    }

    /** While validating, a worker has locked just its write set. */
    lemma OwnLocks(i: nat)
      requires Here(Validate(i))
      ensures forall k: nat :: k in writeSet <==> Holds(sys.me, k)
    {
      forall k: nat | k in writeSet ensures Holds(sys.me, k) {
        var j :| 0 <= j < |writeSet| && writeSet[j] == k;
        HoldsAt(sys.me, j);
      }
    }

    method Accept(i: nat, check: TidWord, c: Choice)
      requires sys.Due(c) && Here(Validate(i)) && i < |readSet| && readSet[i].key < |sys.mem.recs|
      requires check == sys.mem.recs[readSet[i].key].word && SiloMachine.Valid(readSet[i], check, writeSet)
      modifies this, sys
      ensures At(Validate(i + 1)) && readSet == old(readSet) && sys.env == old(sys.env) && old(sys.run) <= sys.run
      ensures sys.mem.recs == old(sys.mem.recs) && sys.mem.ws == old(sys.mem.ws)
    {
      hide IsRun, Step, Legal, Played, Shared.Due, MoveOutside, MoveExec, MoveRead, MoveLock, MoveWrite, MoveUnlock;
      sys.Done(Mark(entry), c);
      maxReadTid := Max(maxReadTid, check);
    }

    method Reject(i: nat, check: TidWord, c: Choice)
      requires sys.Due(c) && Here(Validate(i)) && i < |readSet| && readSet[i].key < |sys.mem.recs|
      requires check == sys.mem.recs[readSet[i].key].word && !SiloMachine.Valid(readSet[i], check, writeSet)
      modifies sys
      ensures At(UnlockLoad(0)) && sys.env == old(sys.env) && old(sys.run) <= sys.run
      ensures sys.mem.recs == old(sys.mem.recs) && sys.mem.ws == old(sys.mem.ws)
    {
      hide IsRun, Step, Legal, Played, Shared.Due, MoveOutside, MoveExec, MoveRead, MoveLock, MoveWrite, MoveUnlock;
      sys.Done(Decide(entry, Aborted), c);
    }

    method SortWriteSet() returns (ok: bool)
      requires At(Exec(|steps|))
      modifies this, sys
      ensures sys.Ready() && (ok || sys.env == []) && |sys.env| <= old(|sys.env|) && old(sys.run) <= sys.run
      ensures ok ==> At(LockLoad(0))
      ensures sys.Took(ok, 1) && (!ok ==> sys.me.pc.Exec? && sys.me == old(sys.me))
      ensures ok ==> forall k :: k in writeSet <==> k in old(writeSet)
    {
      hide IsRun, Step, Legal, Played, Shared.Due, MoveOutside, MoveRead, MoveLock, MoveValidate, MoveWrite, MoveUnlock;
      var c;
      ok, c := sys.Turn();
      if ok {
        sys.Sound();
        SortSorts(writeSet);
        sys.Done(Quiet, c);
        writeSet := Sort(writeSet);
      }
    }

    /** Phase 2: every read is checked; all must be valid. */
    method ValidateReads() returns (ok: bool, valid: bool)
      requires At(Validate(0))
      modifies this, sys
      ensures sys.Ready() && (ok || sys.env == []) && |sys.env| <= old(|sys.env|) && old(sys.run) <= sys.run
      ensures ok ==> At(if valid then Choose else UnlockLoad(0)) && sys.Locked(writeSet)
      ensures !ok ==> sys.me.pc.Validate?
    {
      hide IsRun, Step, Legal, Played, Shared.Due, MoveOf;
      var i := 0;
      ok, valid := true, true;
      while i < |readSet|
        invariant i <= |readSet| && At(Validate(i)) && valid
        invariant |sys.env| <= old(|sys.env|) && old(sys.run) <= sys.run
      {
        ok, valid := ValidateRead(i);
        if !ok || !valid {
          sys.AllLocked();
          return;
        }
        i := i + 1;
      }
      ok := FinishValidation();
    }

    /** With every read checked, the transaction commits. */
    method FinishValidation() returns (ok: bool)
      requires At(Validate(|readSet|))
      modifies this, sys
      ensures sys.Ready() && (ok || sys.env == []) && |sys.env| <= old(|sys.env|) && old(sys.run) <= sys.run
      ensures ok ==> At(Choose) && sys.Locked(writeSet)
      ensures sys.Took(ok, 1) && (!ok ==> sys.me == old(sys.me))
    {
      hide IsRun, Step, Legal, Played, Shared.Due, MoveOutside, MoveExec, MoveRead, MoveLock, MoveWrite, MoveUnlock;
      var c;
      ok, c := sys.Turn();
      if ok {
        sys.Done(Quiet, c);
        sys.AllLocked();
      }
    }

    /** validationPhase: sort and lock the write set, load the epoch, check the reads; unlock again if one fails. */
    method ValidationPhase() returns (ok: bool, committed: bool)
      requires At(Exec(|steps|))
      modifies this, sys
      ensures sys.Ready() && (ok || sys.env == []) && |sys.env| <= old(|sys.env|) && old(sys.run) <= sys.run
      ensures ok ==> At(if committed then Choose else UnlockLoad(|writeSet|)) && (committed ==> sys.Locked(writeSet))
      ensures !ok ==> InValidation(sys.me.pc)
      ensures ok && committed ==> Asked()
    {
      hide IsRun, Step, Legal, Played, Shared.Due, TxnExecutor.Here, MoveOf;
      committed := false;
      ok := SortWriteSet();
      if !ok {
        return;
      }
      ok := LockWriteSet();
      if !ok {
        return;
      }
      ok := LoadEpoch();
      if !ok {
        return;
      }
      ok, committed := ValidateReads();
      if ok && committed {
        AskedAt(Choose);
      } else if ok {
        ok := UnlockWriteSet();
      }
    }

    /** unlockWriteSet */
    method UnlockWriteSet() returns (ok: bool)
      requires At(UnlockLoad(0))
      modifies this, sys
      ensures sys.Ready() && (ok || sys.env == []) && |sys.env| <= old(|sys.env|) && old(sys.run) <= sys.run
      ensures writeSet == old(writeSet) && (ok ==> At(UnlockLoad(|writeSet|)))
      ensures sys.Took(ok, 2 * |writeSet|) && (!ok ==> sys.me.pc.UnlockLoad? || sys.me.pc.UnlockStore?)
    {
      hide IsRun, Step, Legal, Played, Shared.Due, MoveOf;
      var i := 0;
      ok := true;
      while i < |writeSet|
        invariant i <= |writeSet| && At(UnlockLoad(i)) && writeSet == old(writeSet) && ok
        invariant |sys.env| + 2 * i == old(|sys.env|) && old(sys.run) <= sys.run
      {
        ok := UnlockRecord(i);
        if !ok {
          return;
        }
        i := i + 1;
      }
    }

    method UnlockRecord(i: nat) returns (ok: bool)
      requires At(UnlockLoad(i)) && i < |writeSet|
      modifies this, sys
      ensures sys.Ready() && (ok || sys.env == []) && |sys.env| <= old(|sys.env|) && old(sys.run) <= sys.run
      ensures writeSet == old(writeSet) && (ok ==> At(UnlockLoad(i + 1)))
      ensures sys.Took(ok, 2) && (!ok ==> sys.me.pc.UnlockLoad? || sys.me.pc.UnlockStore?)
    {
      hide IsRun, Step, Legal, Played, Shared.Due, MoveOutside, MoveExec, MoveRead, MoveLock, MoveValidate, MoveWrite;
      var c;
      ok, c := sys.Turn();
      if ok {
        sys.Sound();
        var expected := sys.mem.recs[writeSet[i]].word;
        sys.Done(Quiet, c);
        ok := StoreUnlocked(i, expected);
      }
    }

    method StoreUnlocked(i: nat, expected: TidWord) returns (ok: bool)
      requires At(UnlockStore(i, expected)) && i < |writeSet|
      modifies this, sys
      ensures sys.Ready() && (ok || sys.env == []) && |sys.env| <= old(|sys.env|) && old(sys.run) <= sys.run
      ensures writeSet == old(writeSet) && (ok ==> At(UnlockLoad(i + 1)))
      ensures sys.Took(ok, 1) && (!ok ==> sys.me == old(sys.me))
    {
      hide IsRun, Step, Legal, Played, Shared.Due, MoveOutside, MoveExec, MoveRead, MoveLock, MoveValidate, MoveWrite;
      var c;
      ok, c := sys.Turn();
      if ok {
        sys.Sound();
        var desired := expected.(lock := false);
        sys.Done(PutRec(writeSet[i], sys.mem.recs[writeSet[i]].(word := desired)), c);
      }
    }

    /** writePhase, the choice of the TID: the largest of the three candidates. */
    method ChooseNext() returns (ok: bool)
      requires At(Choose)
      modifies this, sys
      ensures sys.Ready() && (ok || sys.env == []) && |sys.env| <= old(|sys.env|) && old(sys.run) <= sys.run
      ensures writeSet == old(writeSet) && (ok ==> At(WriteRec(0, 0)))
      ensures sys.Took(ok, 1) && (!ok ==> sys.me == old(sys.me))
    {
      hide IsRun, Step, Legal, Played, Shared.Due, MoveOutside, MoveExec, MoveRead, MoveLock, MoveValidate,
        MoveUnlock, Max, Bump;
      var c;
      ok, c := sys.Turn();
      if !ok {
        return;
      }
      var tidA := Bump(Max(maxWriteTid, maxReadTid));
      var tidB := Bump(mostRecentlyChosenTid);
      var tidC := ZERO.(epoch := sys.mem.ws[sys.id].epoch % EPOCH_LIMIT);
      var maxTid: TidWord := Max(Max(tidA, tidB), tidC).(lock := false, latest := true);
      sys.Done(Decide(entry, Committed(maxTid)), c);
      mostRecentlyChosenTid := maxTid;
    }

    /** writePhase: every record gets the value, byte by byte, and then the new word, which unlocks it. */
    method WritePhase() returns (ok: bool)
      requires At(Choose)
      modifies this, sys
      ensures sys.Ready() && (ok || sys.env == []) && |sys.env| <= old(|sys.env|) && old(sys.run) <= sys.run
      ensures ok ==> At(Idle)
      ensures sys.Took(ok, 2 + (VALUE_SIZE + 1) * old(|writeSet|)) && (!ok ==> sys.me.pc.Choose? || sys.me.pc.WriteRec?)
    {
      hide IsRun, Step, Legal, Played, Shared.Due, MoveOf;
      ok := ChooseNext();
      if !ok {
        return;
      }
      var i := 0;
      while i < |writeSet|
        invariant i <= |writeSet| && At(WriteRec(i, 0)) && writeSet == old(writeSet)
        invariant |sys.env| + 1 + (VALUE_SIZE + 1) * i == old(|sys.env|) && old(sys.run) <= sys.run
      {
        ok := WriteRecord(i);
        if !ok {
          return;
        }
        i := i + 1;
      }
      ok := FinishWrites();
    }

    method FinishWrites() returns (ok: bool)
      requires At(WriteRec(|writeSet|, 0))
      modifies this, sys
      ensures sys.Ready() && (ok || sys.env == []) && |sys.env| <= old(|sys.env|) && old(sys.run) <= sys.run
      ensures ok ==> At(Idle)
      ensures sys.Took(ok, 1) && (!ok ==> sys.me == old(sys.me))
    {
      hide IsRun, Step, Legal, Played, Shared.Due, MoveOutside, MoveExec, MoveRead, MoveLock, MoveValidate, MoveUnlock;
      var c;
      ok, c := sys.Turn();
      if ok {
        sys.Done(Quiet, c);
        readSet, writeSet := [], [];
      }
    }

    method WriteRecord(i: nat) returns (ok: bool)
      requires At(WriteRec(i, 0)) && i < |writeSet|
      modifies this, sys
      ensures sys.Ready() && (ok || sys.env == []) && |sys.env| <= old(|sys.env|) && old(sys.run) <= sys.run
      ensures writeSet == old(writeSet) && (ok ==> At(WriteRec(i + 1, 0)))
      ensures sys.Took(ok, VALUE_SIZE + 1) && (!ok ==> sys.me.pc.WriteRec?)
    {
      hide IsRun, Step, Legal, Played, Shared.Due, MoveOf;
      var j := 0;
      while j < VALUE_SIZE
        invariant 0 <= j <= VALUE_SIZE && At(WriteRec(i, j)) && writeSet == old(writeSet)
        invariant |sys.env| + j == old(|sys.env|) && old(sys.run) <= sys.run
      {
        ok := WriteByte(i, j);
        if !ok {
          return;
        }
        j := j + 1;
      }
      ok := StoreWord(i);
    }

    method WriteByte(i: nat, j: nat) returns (ok: bool)
      requires At(WriteRec(i, j)) && i < |writeSet| && j < VALUE_SIZE
      modifies this, sys
      ensures sys.Ready() && (ok || sys.env == []) && |sys.env| <= old(|sys.env|) && old(sys.run) <= sys.run
      ensures writeSet == old(writeSet) && (ok ==> At(WriteRec(i, j + 1)))
      ensures sys.Took(ok, 1) && (!ok ==> sys.me == old(sys.me))
    {
      hide IsRun, Step, Legal, Played, Shared.Due, MoveOutside, MoveExec, MoveRead, MoveLock, MoveValidate, MoveUnlock;
      var c;
      ok, c := sys.Turn();
      if ok {
        sys.Sound();
        var rec := sys.mem.recs[writeSet[i]];
        sys.Done(PutRec(writeSet[i], rec.(value := rec.value[j := writeValue[j]])), c);
      }
    }

    method StoreWord(i: nat) returns (ok: bool)
      requires At(WriteRec(i, VALUE_SIZE)) && i < |writeSet|
      modifies this, sys
      ensures sys.Ready() && (ok || sys.env == []) && |sys.env| <= old(|sys.env|) && old(sys.run) <= sys.run
      ensures writeSet == old(writeSet) && (ok ==> At(WriteRec(i + 1, 0)))
      ensures sys.Took(ok, 1) && (!ok ==> sys.me == old(sys.me))
    {
      hide IsRun, Step, Legal, Played, Shared.Due, MoveOutside, MoveExec, MoveRead, MoveLock, MoveValidate, MoveUnlock;
      var c;
      ok, c := sys.Turn();
      if ok {
        sys.Sound();
        sys.Done(PutRec(writeSet[i], sys.mem.recs[writeSet[i]].(word := mostRecentlyChosenTid)), c);
      }
    }

    /** abort, after the unlocking. */
    method Abort() returns (ok: bool)
      requires At(UnlockLoad(|writeSet|))
      modifies this, sys
      ensures sys.Ready() && (ok || sys.env == []) && |sys.env| <= old(|sys.env|) && old(sys.run) <= sys.run
      ensures ok ==> At(Retry)
      ensures sys.Took(ok, 1) && (!ok ==> sys.me.pc.UnlockLoad? && sys.me == old(sys.me))
    {
      hide IsRun, Step, Legal, Played, Shared.Due, MoveOutside, MoveExec, MoveRead, MoveLock, MoveValidate, MoveWrite;
      var c;
      ok, c := sys.Turn();
      if ok {
        sys.Done(Quiet, c);
        readSet, writeSet := [], [];
      }
    }

    // ---- epochs ----

    /** checkEpochLoaded: whether all workers but the leader have published the present epoch. */
    method CheckEpochLoaded() returns (ok: bool, loaded: bool)
      requires At(CheckLoad)
      modifies this, sys
      ensures sys.Ready() && (ok || sys.env == []) && |sys.env| <= old(|sys.env|) && old(sys.run) <= sys.run
      ensures ok ==> At(if loaded then AddLoad else Start)
      ensures ok ==> (loaded <==> forall i | 1 <= i < |sys.mem.ws| :: sys.mem.ws[i].epoch == sys.mem.epoch)
      ensures !ok ==> sys.me.pc.CheckLoad? || sys.me.pc.Check?
    {
      hide IsRun, Step, Legal, Played, Shared.Due, MoveExec, MoveRead, MoveLock, MoveValidate, MoveWrite, MoveUnlock;
      loaded := false;
      var c;
      ok, c := sys.Turn();
      if ok {
        var nowEpoch := sys.mem.epoch;
        sys.Done(Quiet, c);
        ok, loaded := CheckWorkers(nowEpoch);
      }
    }

    method CheckWorkers(nowEpoch: nat) returns (ok: bool, loaded: bool)
      requires At(Check(1, nowEpoch))
      modifies this, sys
      ensures sys.Ready() && (ok || sys.env == []) && |sys.env| <= old(|sys.env|) && old(sys.run) <= sys.run
      ensures ok ==> At(if loaded then AddLoad else Start)
      ensures ok ==> (loaded <==> forall i | 1 <= i < |sys.mem.ws| :: sys.mem.ws[i].epoch == sys.mem.epoch)
      ensures !ok ==> sys.me.pc.Check?
    {
      hide IsRun, Step, Legal, Played, Shared.Due, MoveOf;
      loaded := false;
      var i := 1;
      while i < |sys.mem.ws|
        invariant 1 <= i && At(Check(i, nowEpoch)) && !loaded
        invariant |sys.env| <= old(|sys.env|) && old(sys.run) <= sys.run
      {
        var same;
        ok, same := CheckWorker(i, nowEpoch);
        if !ok || !same {
          return;
        }
        i := i + 1;
      }
      ok := FinishCheck(i, nowEpoch);
      loaded := true;
    }

    method FinishCheck(i: nat, nowEpoch: nat) returns (ok: bool)
      requires At(Check(i, nowEpoch)) && i >= |sys.mem.ws|
      modifies this, sys
      ensures sys.Ready() && (ok || sys.env == []) && |sys.env| <= old(|sys.env|) && old(sys.run) <= sys.run
      ensures ok ==> At(AddLoad)
      ensures ok ==> forall j | 1 <= j < |sys.mem.ws| :: sys.mem.ws[j].epoch == sys.mem.epoch
      ensures sys.Took(ok, 1) && (!ok ==> sys.me == old(sys.me))
    {
      hide IsRun, Step, Legal, Played, Shared.Due, MoveExec, MoveRead, MoveLock, MoveValidate, MoveWrite, MoveUnlock;
      var c;
      ok, c := sys.Turn();
      if ok {
        sys.Done(Quiet, c);
        sys.CaughtUp();
      }
    }

    method CheckWorker(i: nat, nowEpoch: nat) returns (ok: bool, same: bool)
      requires At(Check(i, nowEpoch)) && 1 <= i < |sys.mem.ws|
      modifies this, sys
      ensures sys.Ready() && (ok || sys.env == []) && |sys.env| <= old(|sys.env|) && old(sys.run) <= sys.run
      ensures |sys.mem.ws| == old(|sys.mem.ws|)
      ensures ok ==> At(if same then Check(i + 1, nowEpoch) else Start)
      ensures sys.Took(ok, 1) && (!ok ==> sys.me == old(sys.me))
      ensures ok ==> i < |sys.mem.ws| && (same <==> sys.mem.ws[i].epoch == sys.mem.epoch)
    {
      hide IsRun, Step, Legal, Played, Shared.Due, MoveExec, MoveRead, MoveLock, MoveValidate, MoveWrite, MoveUnlock;
      same := false;
      var c;
      ok, c := sys.Turn();
      if ok {
        sys.Sound();
        sys.ScanNow();
        same := sys.mem.ws[i].epoch == nowEpoch;
        sys.Done(Quiet, c);
      }
    }

    /** atomicAddGlobalEpoch: one more, by compare-and-swap. */
    method AddGlobalEpoch() returns (ok: bool)
      requires At(AddLoad)
      modifies this, sys
      ensures sys.Ready() && (ok || sys.env == []) && |sys.env| <= old(|sys.env|) && old(sys.run) <= sys.run
      ensures ok ==> At(Start)
      ensures !ok ==> sys.me.pc.AddLoad? || sys.me.pc.AddCas?
    {
      hide IsRun, Step, Legal, Played, Shared.Due, MoveExec, MoveRead, MoveLock, MoveValidate, MoveWrite, MoveUnlock;
      var c;
      ok, c := sys.Turn();
      if !ok {
        return;
      }
      var expected := sys.mem.epoch;
      sys.Done(Quiet, c);
      while true
        invariant At(AddCas(expected))
        invariant |sys.env| <= old(|sys.env|) && old(sys.run) <= sys.run
        decreases |sys.env|
      {
        var added;
        ok, added, expected := TryAdd(expected);
        if !ok || added {
          return;
        }
      }
    }

    method TryAdd(before: nat) returns (ok: bool, added: bool, expected: nat)
      requires At(AddCas(before))
      modifies this, sys
      ensures sys.Ready() && (ok || sys.env == []) && |sys.env| <= old(|sys.env|) && old(sys.run) <= sys.run
      ensures ok ==> |sys.env| < old(|sys.env|) && At(if added then Start else AddCas(expected))
      ensures sys.Took(ok, 1) && (!ok ==> sys.me == old(sys.me))
    {
      hide IsRun, Step, Legal, Played, Shared.Due, MoveExec, MoveRead, MoveLock, MoveValidate, MoveWrite, MoveUnlock;
      added, expected := false, before;
      var c;
      ok, c := sys.Turn();
      if ok {
        added := sys.mem.epoch == expected;
        if added {
          var desired := expected + 1;
          sys.Done(SetEpoch(desired), c);
        } else {
          expected := sys.mem.epoch;
          sys.Done(Quiet, c);
        }
      }
    }

    // ---- the worker ----

    /** The top of the loop: the leader looks at the timer. */
    method LeaveRetry() returns (ok: bool, check: bool)
      requires At(Retry)
      modifies sys
      ensures sys.Ready() && (ok || sys.env == []) && |sys.env| <= old(|sys.env|) && old(sys.run) <= sys.run
      ensures ok ==> At(if check then CheckLoad else Start) && |sys.env| < old(|sys.env|)
      ensures sys.Took(ok, 1) && (!ok ==> sys.me == old(sys.me))
      ensures ok ==> sys.Used() > 0 && check == (sys.id == 0 && sys.Decided().timer)
    {
      hide IsRun, Step, Legal, Played, Shared.Due, MoveExec, MoveRead, MoveLock, MoveValidate, MoveWrite, MoveUnlock;
      check := false;
      var c;
      ok, c := sys.Turn();
      if ok {
        sys.Done(Quiet, c);
        check := sys.id == 0 && c.timer;
      }
    }

    /** From the label RETRY to the first operation; the leader may step the epoch on the way. */
    method Begin() returns (ok: bool, quit: bool)
      requires At(Retry)
      modifies this, sys
      ensures sys.Ready() && (ok || sys.env == []) && |sys.env| <= old(|sys.env|) && old(sys.run) <= sys.run
      ensures ok ==> At(if quit then Stopped else Exec(0))
      ensures ok ==> |sys.env| < old(|sys.env|)
      ensures !ok ==> InBegin(sys.me.pc)
      ensures ok && quit ==> sys.me.pc.Stopped?
    {
      hide IsRun, Step, Legal, Played, Shared.Due, MoveOf;
      quit := false;
      var check;
      ok, check := LeaveRetry();
      if !ok {
        return;
      }
      if check {
        var loaded;
        ok, loaded := CheckEpochLoaded();
        if ok && loaded {
          ok := AddGlobalEpoch();
        }
        if !ok {
          return;
        }
      }
      ok, quit := BeginTransaction();
    }

    method BeginTransaction() returns (ok: bool, quit: bool)
      requires At(Start)
      modifies this, sys
      ensures sys.Ready() && (ok || sys.env == []) && |sys.env| <= old(|sys.env|) && old(sys.run) <= sys.run
      ensures ok ==> At(if quit then Stopped else Exec(0))
      ensures sys.Took(ok, 1) && (!ok ==> sys.me == old(sys.me))
      ensures ok ==> sys.Used() > 0 && quit == sys.Decided().quit
    {
      hide IsRun, Step, Legal, Played, Shared.Due, MoveOf;
      quit := false;
      var c;
      ok, c := sys.Turn();
      if ok {
        quit := c.quit;
        LeaveStart(c);
      }
    }

    method LeaveStart(c: Choice)
      requires sys.Due(c) && Here(Start)
      modifies this, sys
      ensures At(if c.quit then Stopped else Exec(0)) && sys.env == old(sys.env) && old(sys.run) <= sys.run
    {
      hide IsRun, Step, Legal, Played, Shared.Due, MoveExec, MoveRead, MoveLock, MoveValidate, MoveWrite, MoveUnlock;
      sys.Done(Quiet, c);
      if !c.quit {
        maxReadTid, maxWriteTid := ZERO, ZERO;
      }
    }

    method RunSteps() returns (ok: bool)
      requires At(Exec(0))
      modifies this, sys
      ensures sys.Ready() && (ok || sys.env == []) && |sys.env| <= old(|sys.env|) && old(sys.run) <= sys.run
      ensures ok ==> At(Exec(|steps|))
      ensures !ok ==> sys.me.pc.Exec? || sys.me.pc.Reading?
      ensures ok ==> Asked()
    {
      hide IsRun, Step, Legal, Played, Shared.Due, TxnExecutor.Here, Asked, MoveOf;
      ok := true;
      var i := 0;
      while i < |steps|
        invariant i <= |steps| && At(Exec(i)) && ok
        invariant |sys.env| <= old(|sys.env|) && old(sys.run) <= sys.run
      {
        match steps[i] {
          case Read(key) => ok := Read(i, key);
          case Write(key) => ok := Write(i, key);
        }
        if !ok {
          return;
        }
        i := i + 1;
      }
      AskedAt(Exec(|steps|));
    }

    /** One transaction, tried until it commits; `more` is false once the worker has been told to quit. */
    method RunTransaction() returns (ok: bool, more: bool)
      requires At(Retry)
      modifies this, sys
      ensures sys.Ready() && (ok || sys.env == []) && |sys.env| <= old(|sys.env|) && old(sys.run) <= sys.run
      ensures ok ==> At(if more then Idle else Stopped)
      ensures !ok ==> !sys.me.pc.Idle? && !sys.me.pc.Stopped?
      ensures ok && !more ==> sys.me.pc.Stopped?
    {
      hide IsRun, Step, Legal, Played, Shared.Due, TxnExecutor.Here, MoveOf;
      while true
        invariant At(Retry)
        invariant |sys.env| <= old(|sys.env|) && old(sys.run) <= sys.run
        decreases |sys.env|
      {
        var committed;
        ok, more, committed := TryTransaction();
        if !ok || !more || committed {
          return;
        }
      }
    }

    method TryTransaction() returns (ok: bool, more: bool, committed: bool)
      requires At(Retry)
      modifies this, sys
      ensures sys.Ready() && (ok || sys.env == []) && |sys.env| <= old(|sys.env|) && old(sys.run) <= sys.run
      ensures ok ==> |sys.env| < old(|sys.env|)
      ensures ok ==> At(if !more then Stopped else if committed then Idle else Retry)
      ensures !ok ==> !sys.me.pc.Idle? && !sys.me.pc.Stopped?
      ensures ok && !more ==> sys.me.pc.Stopped?
    {
      hide IsRun, Step, Legal, Played, Shared.Due, TxnExecutor.Here, MoveOf;
      committed := false;
      var quit;
      ok, quit := Begin();
      more := !quit;
      if !ok || quit {
        return;
      }
      ok := RunSteps();
      if !ok {
        return;
      }
      ok, committed := ValidationPhase();
      if !ok {
        return;
      }
      if committed {
        ok := WritePhase();
      } else {
        ok := Abort();
      }
    }

    method NextSteps() returns (ok: bool, quit: bool)
      requires At(Idle)
      modifies this, sys
      ensures sys.Ready() && (ok || sys.env == []) && |sys.env| <= old(|sys.env|) && old(sys.run) <= sys.run
      ensures ok ==> |sys.env| < old(|sys.env|)
      ensures ok ==> At(if quit then Stopped else Retry)
      ensures sys.Took(ok, 1) && (!ok ==> sys.me == old(sys.me))
      ensures ok && quit ==> sys.me.pc.Stopped?
      ensures ok ==> sys.Used() > 0 && quit == sys.Decided().quit
      ensures ok && !quit ==> steps == sys.Decided().prog && writeValue == sys.Decided().value
    {
      hide IsRun, Step, Legal, Played, Shared.Due, MoveOf;
      quit := false;
      var c;
      ok, c := sys.Turn();
      if ok {
        quit := c.quit;
        LeaveIdle(c);
      }
    }

    method LeaveIdle(c: Choice)
      requires sys.Due(c) && Here(Idle)
      modifies this, sys
      ensures At(if c.quit then Stopped else Retry) && sys.env == old(sys.env) && old(sys.run) <= sys.run
      ensures c.quit ==> sys.me.pc.Stopped?
      ensures !c.quit ==> steps == c.prog && writeValue == c.value
    {
      hide IsRun, Step, Legal, Played, Shared.Due, MoveExec, MoveRead, MoveLock, MoveValidate, MoveWrite, MoveUnlock;
      sys.Done(Quiet, c);
      if !c.quit {
        steps, writeValue := c.prog, c.value;
      }
    }

    /**
     * The worker loop: whatever the other workers do, the code together with them makes the machine's run
     * under the schedule of the turns taken, and it takes all of them unless it has been told to quit.
     * Every theorem about runs applies to the states that it goes through.
     */
    method Work()
      requires At(Idle)
      modifies this, sys
      ensures IsRun(sys.run, sys.schedule) && old(sys.run) <= sys.run && sys.Ready()
      ensures sys.run[|sys.run| - 1] == sys.Whole() && sys.schedule == Played(sys.given[..sys.Used()], sys.id)
      ensures sys.env == [] || sys.me.pc == Stopped
    {
      hide IsRun, Step, Legal, Played, Shared.Due, TxnExecutor.Here, MoveOf;
      while true
        invariant At(Idle) && old(sys.run) <= sys.run
        decreases |sys.env|
      {
        var ok, quit, more;
        ok, quit := NextSteps();
        if !ok || quit {
          return;
        }
        ok, more := RunTransaction();
        if !ok || !more {
          return;
        }
      }
    }
  }
}
