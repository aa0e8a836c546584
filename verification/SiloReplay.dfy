/** Facts about running the log serially: what a change to one log entry does to Replay. */
module SiloReplay {
  import opened SiloTid
  import opened SiloMachine

  /** Entries [p, n) that commit no write of k do not change what a replay finds. */
  lemma {:induction false} ReplaySkip(log: seq<Entry>, p: nat, n: nat, init: Version, k: nat)
    requires p <= n <= |log|
    requires forall q | p <= q < n :: !CommitsWrite(log[q], k)
    ensures Replay(log, n, init, k) == Replay(log, p, init, k)
  {
    if p < n {
      ReplaySkip(log, p, n - 1, init, k);
    }
  }

  /** A replay that ends in version v ends there before any entry committing another version. */
  lemma {:induction false} ReplayBefore(log: seq<Entry>, p: nat, n: nat, init: Version, k: nat)
    requires p <= n <= |log|
    requires forall q | p <= q < n && CommitsWrite(log[q], k) :: Ver(log[q].status.tid) != Replay(log, n, init, k).ver
    ensures Replay(log, n, init, k) == Replay(log, p, init, k)
  {
    if p < n {
      ReplayBefore(log, p, n - 1, init, k);
    }
  }

  /** The last writer of k decides. */
  lemma ReplayLast(log: seq<Entry>, p: nat, init: Version, k: nat)
    requires p < |log| && CommitsWrite(log[p], k)
    requires forall q | p < q < |log| :: !CommitsWrite(log[q], k)
    ensures Replay(log, |log|, init, k) == Version(Ver(log[p].status.tid), log[p].value)
  {
    ReplaySkip(log, p + 1, |log|, init, k);
  }

  lemma ReplayAppend(log: seq<Entry>, e: Entry, p: nat, init: Version, k: nat)
    requires p <= |log|
    ensures Replay(log + [e], p, init, k) == Replay(log, p, init, k)
  {
  }
}
