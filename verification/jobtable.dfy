/**
  The table of background processes (`backgroundProcesses`, a vector of
  `BackgroundProcess{pid, command}`): a background launch appends an entry,
  and `updateBackgroundProcesses` polls every entry with a non-blocking wait,
  dropping those whose wait failed or whose process has exited.

  The operating system's answer to the non-blocking wait is a parameter: a
  function from process id to outcome, fixed for the duration of one poll.
*/
module JobTable {
  import opened Sequences

  /** One `BackgroundProcess`: process id and the command text it ran. */
  datatype Job = Job(pid: int, command: string)

  /** What a non-blocking `waitpid` says about a process. */
  datatype WaitOutcome = WaitFailed | StillRunning | Exited

  /** The branch the poll takes on `waitpid`'s return value: `-1` is an
      error, `0` means still running, and anything else (the code's final
      `else`) means the process has completed. */
  function OutcomeOf(result: int): (w: WaitOutcome)
    ensures w == WaitFailed <==> result == -1
    ensures w == StillRunning <==> result == 0
    ensures w == Exited <==> result != -1 && result != 0
  {
    if result == -1 then WaitFailed else if result == 0 then StillRunning else Exited
  }

  /** A message the poll prints about an entry it removes. */
  datatype Notice = Notice(job: Job, outcome: WaitOutcome)

  /** The entries a poll keeps, in table order. */
  function Kept(table: seq<Job>, wait: int -> WaitOutcome): seq<Job>
    decreases |table|
  {
    if |table| == 0 then []
    else
      var last := table[|table| - 1];
      Kept(table[..|table| - 1], wait) + (if wait(last.pid) == StillRunning then [last] else [])
  }

  /** The entries a poll removes, in table order, each with the outcome
      that removed it. */
  function Reaped(table: seq<Job>, wait: int -> WaitOutcome): seq<Notice>
    decreases |table|
  {
    if |table| == 0 then []
    else
      var last := table[|table| - 1];
      var w := wait(last.pid);
      Reaped(table[..|table| - 1], wait) + (if w == StillRunning then [] else [Notice(last, w)])
  }

  /** A job survives a poll exactly when it is in the table and still running. */
  lemma {:induction false} KeptMembers(table: seq<Job>, wait: int -> WaitOutcome, j: Job)
    ensures j in Kept(table, wait) <==> j in table && wait(j.pid) == StillRunning
    decreases |table|
  {
    if |table| > 0 {
      var prefix := table[..|table| - 1];
      KeptMembers(prefix, wait, j);
      assert table == prefix + [table[|table| - 1]];
    }
  }

  /** A notice is printed exactly for a table entry whose wait failed or
      whose process exited, and it carries that outcome. */
  lemma {:induction false} ReapedMembers(table: seq<Job>, wait: int -> WaitOutcome, n: Notice)
    ensures n in Reaped(table, wait) <==>
      n.job in table && n.outcome == wait(n.job.pid) && n.outcome != StillRunning
    decreases |table|
  {
    if |table| > 0 {
      var prefix := table[..|table| - 1];
      ReapedMembers(prefix, wait, n);
      assert table == prefix + [table[|table| - 1]];
    }
  }

  /** The jobs named by a list of notices. */
  function JobsOf(notices: seq<Notice>): seq<Job>
  {
    if |notices| == 0 then [] else JobsOf(notices[..|notices| - 1]) + [notices[|notices| - 1].job]
  }

  /** `updateBackgroundProcesses`: the iterator walks the vector, erasing an
      entry in place (without advancing) when its wait failed or its process
      exited, and stepping past it when it is still running. */
  method UpdateBackgroundProcesses(table: seq<Job>, wait: int -> WaitOutcome)
    returns (remaining: seq<Job>, notices: seq<Notice>)
    ensures remaining == Kept(table, wait)
    ensures notices == Reaped(table, wait)
  {
    remaining := table;
    notices := [];
    var it := 0;
    ghost var seen := 0;
    while it < |remaining|
      invariant it <= |remaining| && seen <= |table|
      invariant remaining[..it] == Kept(table[..seen], wait)
      invariant remaining[it..] == table[seen..]
      invariant notices == Reaped(table[..seen], wait)
      decreases |remaining| - it
    {
      var job := remaining[it];
      assert job == table[seen];
      assert table[..seen + 1][..seen] == table[..seen];
      var result := wait(job.pid);
      if result == WaitFailed {
        notices := notices + [Notice(job, WaitFailed)];
        remaining := remaining[..it] + remaining[it + 1..];
      } else if result == StillRunning {
        it := it + 1;
      } else {
        notices := notices + [Notice(job, Exited)];
        remaining := remaining[..it] + remaining[it + 1..];
      }
      seen := seen + 1;
      assert remaining[it..] == table[seen..];
    }
    assert table[..seen] == table;
    assert remaining[..it] == remaining;
  }

  /** Every entry is either kept or reported, never both and never twice:
      the two lists together are a rearrangement of the table. */
  lemma {:induction false} PollPartitions(table: seq<Job>, wait: int -> WaitOutcome)
    ensures |Kept(table, wait)| + |Reaped(table, wait)| == |table|
    ensures multiset(Kept(table, wait)) + multiset(JobsOf(Reaped(table, wait))) == multiset(table)
    decreases |table|
  {
    if |table| > 0 {
      var prefix, last := table[..|table| - 1], table[|table| - 1];
      PollPartitions(prefix, wait);
      PartitionStep(prefix, last, wait);
      LastSplit(table);
    }
  }

  /** The inductive step of `PollPartitions`: one more entry at the end. */
  lemma PartitionStep(prefix: seq<Job>, last: Job, wait: int -> WaitOutcome)
    requires |Kept(prefix, wait)| + |Reaped(prefix, wait)| == |prefix|
    requires multiset(Kept(prefix, wait)) + multiset(JobsOf(Reaped(prefix, wait))) == multiset(prefix)
    ensures var table := prefix + [last];
      && |Kept(table, wait)| + |Reaped(table, wait)| == |table|
      && multiset(Kept(table, wait)) + multiset(JobsOf(Reaped(table, wait))) == multiset(table)
  {
    PollSnoc(prefix, last, wait);
    var ks, rs := Kept(prefix, wait), Reaped(prefix, wait);
    var w := wait(last.pid);
    assert multiset(prefix + [last]) == multiset(prefix) + multiset{last};
    if w == StillRunning {
      assert rs + [] == rs;
      MoveOne(ks, JobsOf(rs), multiset(prefix), last, true);
    } else {
      assert ks + [] == ks;
      JobsOfSnoc(rs, Notice(last, w));
      MoveOne(ks, JobsOf(rs), multiset(prefix), last, false);
    }
  }

  /** Polling one more entry adds it to exactly one of the two lists. */
  lemma PollSnoc(prefix: seq<Job>, last: Job, wait: int -> WaitOutcome)
    ensures var w := wait(last.pid);
      && Kept(prefix + [last], wait) == Kept(prefix, wait) + (if w == StillRunning then [last] else [])
      && Reaped(prefix + [last], wait) == Reaped(prefix, wait) + (if w == StillRunning then [] else [Notice(last, w)])
  {
    assert (prefix + [last])[..|prefix|] == prefix;
  }

  /** Adding one element to either of two lists that together hold `m`
      makes them hold `m` plus that element. */
  lemma MoveOne<T>(a: seq<T>, b: seq<T>, m: multiset<T>, x: T, first: bool)
    requires multiset(a) + multiset(b) == m
    ensures first ==> multiset(a + [x]) + multiset(b) == m + multiset{x}
    ensures !first ==> multiset(a) + multiset(b + [x]) == m + multiset{x}
  {
    assert multiset(a + [x]) == multiset(a) + multiset{x};
    assert multiset(b + [x]) == multiset(b) + multiset{x};
  }

  lemma JobsOfSnoc(rs: seq<Notice>, n: Notice)
    ensures JobsOf(rs + [n]) == JobsOf(rs) + [n.job]
  {
    assert (rs + [n])[..|rs|] == rs;
  }

  /** `a` occurs in `b` in order, possibly with gaps. */
  predicate SubsequenceOf<T(==)>(a: seq<T>, b: seq<T>)
    decreases |b|
  {
    if |a| == 0 then true
    else if |b| == 0 then false
    else (
      || SubsequenceOf(a, b[..|b| - 1])
      || (a[|a| - 1] == b[|b| - 1] && SubsequenceOf(a[..|a| - 1], b[..|b| - 1])))
  }

  /** The survivors keep their relative order. */
  lemma {:induction false} KeptInOrder(table: seq<Job>, wait: int -> WaitOutcome)
    ensures SubsequenceOf(Kept(table, wait), table)
    decreases |table|
  {
    if |table| > 0 {
      var prefix := table[..|table| - 1];
      var last := table[|table| - 1];
      KeptInOrder(prefix, wait);
      var k := Kept(table, wait);
      if wait(last.pid) == StillRunning {
        assert k == Kept(prefix, wait) + [last];
        assert k[..|k| - 1] == Kept(prefix, wait);
      } else {
        assert k == Kept(prefix, wait);
      }
    }
  }

  /** A poll in which every entry is still running changes nothing. */
  lemma {:induction false} PollAllRunning(table: seq<Job>, wait: int -> WaitOutcome)
    requires forall k :: 0 <= k < |table| ==> wait(table[k].pid) == StillRunning
    ensures Kept(table, wait) == table
    ensures Reaped(table, wait) == []
    decreases |table|
  {
    if |table| > 0 {
      var prefix := table[..|table| - 1];
      assert forall k :: 0 <= k < |prefix| ==> prefix[k] == table[k];
      PollAllRunning(prefix, wait);
      assert table == prefix + [table[|table| - 1]];
    }
  }

  /** Polling again with the same answers keeps the table as it is. */
  lemma PollIdempotent(table: seq<Job>, wait: int -> WaitOutcome)
    ensures Kept(Kept(table, wait), wait) == Kept(table, wait)
    ensures Reaped(Kept(table, wait), wait) == []
  {
    var survivors := Kept(table, wait);
    forall k | 0 <= k < |survivors| ensures wait(survivors[k].pid) == StillRunning {
      KeptMembers(table, wait, survivors[k]);
    }
    PollAllRunning(Kept(table, wait), wait);
  }

  /** A job one poll removes is gone: whatever a later poll observes, it
      neither keeps nor reports that job. */
  lemma RemovedNeverReturns(table: seq<Job>, first: int -> WaitOutcome, later: int -> WaitOutcome, n: Notice)
    requires n in Reaped(table, first)
    ensures n.job !in Kept(table, first)
    ensures n.job !in Kept(Kept(table, first), later)
    ensures forall m :: m in Reaped(Kept(table, first), later) ==> m.job != n.job
  {
    var survivors := Kept(table, first);
    ReapedMembers(table, first, n);
    KeptMembers(table, first, n.job);
    KeptMembers(survivors, later, n.job);
    forall m | m in Reaped(survivors, later) ensures m.job != n.job {
      ReapedMembers(survivors, later, m);
    }
  }

  /* ---------- launching ---------- */

  /** A child's process id as the parent receives it from `fork`: positive. */
  type Pid = p: int | p > 0 witness 1

  /** What `fork` gave the parent: failure, or the child's process id. */
  datatype ForkOutcome = ForkFailed | Forked(pid: Pid)

  /** Which branch of the code a `fork` return value selects. */
  datatype ForkBranch = Parent(outcome: ForkOutcome) | Child

  /** The three-way test on `fork`'s return value: `-1` is a failure reported
      in the parent, `0` is the child, and any other value is the parent
      holding the child's id. `fork` returns nothing below `-1`. */
  function ForkBranchOf(ret: int): (b: ForkBranch)
    requires ret >= -1
    ensures b == Parent(ForkFailed) <==> ret == -1
    ensures b == Child <==> ret == 0
    ensures b.Parent? && b.outcome.Forked? <==> ret > 0
    ensures b.Parent? && b.outcome.Forked? ==> b.outcome.pid == ret
  {
    if ret == -1 then Parent(ForkFailed) else if ret == 0 then Child else Parent(Forked(ret))
  }

  /** The parent's bookkeeping after a launch: a background child is appended
      with the command text; a foreground child is waited for; a failed fork
      leaves the table alone. */
  function RecordLaunch(table: seq<Job>, fork: ForkOutcome, command: string, background: bool): (t: seq<Job>)
    ensures |t| == |table| + (if background && fork.Forked? then 1 else 0)
    ensures t[..|table|] == table
    ensures |t| > |table| ==> t[|table|] == Job(fork.pid, command) && t[|table|].pid > 0
  {
    if background && fork.Forked? then table + [Job(fork.pid, command)] else table
  }

  /** The parent's side of a launch, from `fork`'s raw return value: the
      table grows only for a background launch with a positive id, and the
      new entry carries that id; `-1` leaves the table as it was. */
  lemma LaunchFromFork(table: seq<Job>, ret: int, command: string, background: bool)
    requires ret >= -1 && ret != 0
    ensures ForkBranchOf(ret).Parent?
    ensures var t := RecordLaunch(table, ForkBranchOf(ret).outcome, command, background);
      && (|t| > |table| <==> background && ret > 0)
      && (|t| > |table| ==> t == table + [Job(ret, command)])
      && (ret == -1 ==> t == table)
  {
  }

  /** A launch followed by a poll: the earlier entries fare as they would
      without the launch, and the new job is listed last while it runs. */
  lemma LaunchThenPoll(table: seq<Job>, pid: Pid, command: string, wait: int -> WaitOutcome)
    ensures var t := RecordLaunch(table, Forked(pid), command, true);
      Kept(t, wait) == Kept(table, wait) + (if wait(pid) == StillRunning then [Job(pid, command)] else [])
    ensures var t := RecordLaunch(table, Forked(pid), command, true);
      Reaped(t, wait) == Reaped(table, wait) + (if wait(pid) == StillRunning then [] else [Notice(Job(pid, command), wait(pid))])
  {
    var t := table + [Job(pid, command)];
    assert t[..|t| - 1] == table;
  }
}
