/** Merging: whatever the interleaving, the log holds each thread's jobs in the order of
    its program, and guarded writes reach the driver in the order in which their
    writers took the server's `write_lock`. */
module Programs {
  import opened Bytes
  import opened CircularBuffer
  import opened CriticalSection
  import opened Threads
  import opened Interleaving

  // ----- The log against the programs

  /** The jobs in the log that thread `t` did. */
  function JobsOf(log: seq<Item>, t: nat): seq<Job> {
    if log == [] then []
    else JobsOf(log[..|log| - 1], t) + (if log[|log| - 1].t == t then [JobOf(log[|log| - 1])] else [])
  }

  /** The first `n` jobs of a program, without the dropped ones. */
  function Kept(program: seq<Job>, n: nat, dropped: set<nat>): seq<Job>
    requires n <= |program|
  {
    if n == 0 then []
    else Kept(program, n - 1, dropped) + (if n - 1 in dropped then [] else [program[n - 1]])
  }

  lemma JobsOfSnoc(log: seq<Item>, item: Item, t: nat)
    ensures JobsOf(log + [item], t) == JobsOf(log, t) + if item.t == t then [JobOf(item)] else []
  {
    assert (log + [item])[..|log|] == log;
  }

  lemma {:induction false} KeptStays(program: seq<Job>, n: nat, dropped: set<nat>, k: nat)
    requires n <= |program| && n <= k
    ensures Kept(program, n, dropped + {k}) == Kept(program, n, dropped)
  {
    if n > 0 {
      KeptStays(program, n - 1, dropped, k);
    }
  }

  predicate IsWrite(job: Job) {
    job.Do? && job.call.WriteCall?
  }

  predicate IsGuardedWrite(job: Job) {
    IsWrite(job) && job.guarded
  }

  /** What a thread is about is the next job of its program. */
  predicate OnJob(th: Thread) {
    match th.status
    case Waiting(call, guarded) => th.next < |th.program| && th.program[th.next] == Do(call, guarded)
    case Inside(call, guarded, _, _) => th.next < |th.program| && th.program[th.next] == Do(call, guarded)
    case Scanning(offset, whence, _, _, _) => th.next < |th.program| && th.program[th.next] == Lseek(offset, whence)
    case Stalled(call) =>
      0 < th.next <= |th.program| && th.program[th.next - 1] == Do(call, true) && th.next - 1 in th.dropped
    case _ => true
  }

  /** A guarded write is dropped only as a thread's last act. */
  ghost predicate DropOk(th: Thread, k: nat) {
    k < th.next <= |th.program| && (IsGuardedWrite(th.program[k]) ==> th.status.Stalled? && k == th.next - 1)
  }

  ghost predicate ThreadOk(log: seq<Item>, t: nat, th: Thread) {
    && th.next <= |th.program|
    && JobsOf(log, t) == Kept(th.program, th.next, th.dropped)
    && OnJob(th)
    && forall k :: k in th.dropped ==> DropOk(th, k)
  }

  ghost predicate Merged(c: Config) {
    match c
    case Config(_, _, _, threads, _, log, _, _) =>
      && (forall n :: 0 <= n < |log| ==> log[n].t in threads)
      && (forall t :: t in threads ==> ThreadOk(log, t, threads[t]))
  }

  lemma ProgressKeepsThread(log: seq<Item>, t: nat, th: Thread, status: Status, fpos: int)
    requires ThreadOk(log, t, th) && !th.status.Stalled? && OnJob(th.(status := status))
    ensures ThreadOk(log, t, th.(status := status, fpos := fpos))
  {
    forall k | k in th.dropped ensures DropOk(th.(status := status, fpos := fpos), k) {
      assert DropOk(th, k);
    }
  }

  lemma DropKeepsThread(log: seq<Item>, t: nat, th: Thread, status: Status)
    requires ThreadOk(log, t, th) && th.status.Waiting?
    requires status == (if th.status.guarded && th.status.call.SeekCall? then Leaving
                        else if th.status.guarded then Stalled(th.status.call)
                        else Idle)
    ensures ThreadOk(log, t, Drop(th, status))
  {
    var th' := Drop(th, status);
    KeptStays(th.program, th.next, th.dropped, th.next);
    assert Kept(th'.program, th'.next, th'.dropped) == Kept(th.program, th.next, th'.dropped);
    forall k | k in th'.dropped ensures DropOk(th', k) {
      if k in th.dropped {
        assert DropOk(th, k);
      }
    }
  }

  lemma LogKeepsThread(log: seq<Item>, th: Thread, item: Item, status: Status, fpos: int)
    requires ThreadOk(log, item.t, th) && th.next < |th.program| && th.program[th.next] == JobOf(item)
    requires !th.status.Stalled? && (status.Idle? || status.Leaving?)
    ensures ThreadOk(log + [item], item.t, th.(status := status, next := th.next + 1, fpos := fpos))
  {
    var th' := th.(status := status, next := th.next + 1, fpos := fpos);
    assert th.next in th.dropped ==> DropOk(th, th.next);
    JobsOfSnoc(log, item, item.t);
    forall k | k in th'.dropped ensures DropOk(th', k) {
      assert DropOk(th, k);
    }
  }

  lemma PutKeepsMerged(c: Config, c': Config, t: nat, th: Thread)
    requires Merged(c) && t in c.threads && ThreadOk(c.log, t, th)
    requires c'.threads == c.threads[t := th] && c'.log == c.log
    ensures Merged(c')
  {
  }

  lemma LogKeepsMerged(c: Config, c': Config, item: Item, th: Thread)
    requires Merged(c) && item.t in c.threads && ThreadOk(c.log + [item], item.t, th)
    requires c'.threads == c.threads[item.t := th] && c'.log == c.log + [item]
    ensures Merged(c')
  {
    forall u | u in c'.threads ensures ThreadOk(c'.log, u, c'.threads[u]) {
      if u != item.t {
        assert ThreadOk(c.log, u, c.threads[u]);
        JobsOfSnoc(c.log, item, u);
      }
    }
  }

  /** What a step logs is the next job of the program. */
  lemma LogsNextJob(c: Config, a: Action)
    requires Enabled(c, a) && OnJob(c.threads[a.t]) && |Take(c, a).log| > |c.log|
    ensures var th, th', item := c.threads[a.t], Take(c, a).threads[a.t], Take(c, a).log[|c.log|];
            && th.next < |th.program| && th.program[th.next] == JobOf(item)
            && !th.status.Stalled? && (th'.status.Idle? || th'.status.Leaving?)
            && th' == th.(status := th'.status, next := th.next + 1, fpos := th'.fpos)
  {
  }

  lemma MergedOnJob(c: Config, t: nat)
    requires Merged(c) && t in c.threads
    ensures ThreadOk(c.log, t, c.threads[t]) && OnJob(c.threads[t])
  {
  }

  lemma NextJobKeepsMerged(c: Config, c': Config, item: Item, th: Thread)
    requires Merged(c) && item.t in c.threads
    requires c'.threads == c.threads[item.t := th] && c'.log == c.log + [item]
    requires c.threads[item.t].next < |c.threads[item.t].program|
    requires c.threads[item.t].program[c.threads[item.t].next] == JobOf(item)
    requires !c.threads[item.t].status.Stalled? && (th.status.Idle? || th.status.Leaving?)
    requires th == c.threads[item.t].(status := th.status, next := c.threads[item.t].next + 1, fpos := th.fpos)
    ensures Merged(c')
  {
    MergedOnJob(c, item.t);
    LogKeepsThread(c.log, c.threads[item.t], item, th.status, th.fpos);
    LogKeepsMerged(c, c', item, th);
  }

  lemma LoggingKeepsMerged(c: Config, a: Action)
    requires Merged(c) && Enabled(c, a) && |Take(c, a).log| > |c.log|
    ensures Merged(Take(c, a))
  {
    MergedOnJob(c, a.t);
    LogsNextJob(c, a);
    var th := TakeIsLocal(c, a);
    NextJobKeepsMerged(c, Take(c, a), Take(c, a).log[|c.log|], th);
  }

  lemma DroppingKeepsMerged(c: Config, a: Action)
    requires Merged(c) && Enabled(c, a) && (a.Interrupt? || a.StrayUnlock?)
    ensures Merged(Take(c, a))
  {
    var c', th := Take(c, a), c.threads[a.t];
    assert ThreadOk(c.log, a.t, th);
    DropKeepsThread(c.log, a.t, th, c'.threads[a.t].status);
    PutKeepsMerged(c, c', a.t, c'.threads[a.t]);
  }

  lemma ProgressKeepsMerged(c: Config, a: Action)
    requires Merged(c) && Enabled(c, a) && !a.Interrupt? && !a.StrayUnlock? && |Take(c, a).log| == |c.log|
    ensures Merged(Take(c, a))
  {
    var th := c.threads[a.t];
    var th' := TakeIsLocal(c, a);
    assert ThreadOk(c.log, a.t, th);
    ProgressKeepsThread(c.log, a.t, th, th'.status, th'.fpos);
    PutKeepsMerged(c, Take(c, a), a.t, th');
  }

  lemma TakeKeepsMerged(c: Config, a: Action)
    requires Merged(c) && Enabled(c, a)
    ensures Merged(Take(c, a))
  {
    if |Take(c, a).log| > |c.log| {
      LoggingKeepsMerged(c, a);
    } else if a.Interrupt? || a.StrayUnlock? {
      DroppingKeepsMerged(c, a);
    } else {
      ProgressKeepsMerged(c, a);
    }
  }

  // ----- The order of `write_lock`

  predicate Holds(st: Status) {
    match st
    case Waiting(_, guarded) => guarded
    case Inside(_, guarded, _, _) => guarded
    case Leaving => true
    case Stalled(_) => true
    case _ => false
  }

  /** The guarded writes of a log, with their writers. */
  function GuardedOf(log: seq<Item>): seq<(nat, seq<byte>)> {
    if log == [] then []
    else
      var last := log[|log| - 1];
      GuardedOf(log[..|log| - 1]) +
      if last.Called? && IsGuardedWrite(JobOf(last)) then [(last.t, last.call.data)] else []
  }

  /** The guarded write that a thread has begun and that is not in the log. */
  function Pending(t: nat, st: Status): seq<(nat, seq<byte>)> {
    match st
    case Waiting(WriteCall(data), true) => [(t, data)]
    case Inside(WriteCall(data), true, _, _) => [(t, data)]
    case Stalled(WriteCall(data)) => [(t, data)]
    case _ => []
  }

  /** Exactly the owner of `write_lock` is at a guarded call. */
  ghost predicate WriteMutex(c: Config) {
    && (c.wlock.Some? ==> c.wlock.value in c.threads)
    && forall t :: t in c.threads ==> (Holds(c.threads[t].status) <==> c.wlock == Some(t))
  }

  ghost predicate WriteOrder(c: Config)
    requires WriteMutex(c)
  {
    c.wlog == GuardedOf(c.log) + match c.wlock
                                 case None => []
                                 case Some(t) => Pending(t, c.threads[t].status)
  }

  /** One thread's entry replaced, with `write_lock` following it. */
  lemma PutKeepsWriteMutex(c: Config, c': Config, t: nat, th: Thread)
    requires WriteMutex(c) && t in c.threads && c'.threads == c.threads[t := th]
    requires Holds(th.status) ==> c'.wlock == Some(t)
    requires !Holds(th.status) ==> c'.wlock == if Holds(c.threads[t].status) then None else c.wlock
    requires Holds(th.status) && !Holds(c.threads[t].status) ==> c.wlock.None?
    ensures WriteMutex(c')
  {
    assert Holds(c.threads[t].status) <==> c.wlock == Some(t);
  }

  lemma BeginKeepsWriteMutex(c: Config, a: Action)
    requires WriteMutex(c) && Enabled(c, a) && a.Begin?
    ensures WriteMutex(Take(c, a))
  {
    var c' := Take(c, a);
    PutKeepsWriteMutex(c, c', a.t, c'.threads[a.t]);
  }

  lemma TakeKeepsWriteMutex(c: Config, a: Action)
    requires WriteMutex(c) && Enabled(c, a)
    ensures WriteMutex(Take(c, a))
  {
    if a.Begin? {
      BeginKeepsWriteMutex(c, a);
    } else {
      assert Holds(c.threads[a.t].status) <==> c.wlock == Some(a.t);
      var th := TakeIsLocal(c, a);
      PutKeepsWriteMutex(c, Take(c, a), a.t, th);
    }
  }

  lemma GuardedSnoc(log: seq<Item>, item: Item)
    ensures GuardedOf(log + [item]) ==
            GuardedOf(log) + if item.Called? && IsGuardedWrite(JobOf(item)) then [(item.t, item.call.data)] else []
  {
    assert (log + [item])[..|log|] == log;
  }

  /** One thread's entry replaced, with the two logs following it. */
  lemma PutKeepsWriteOrder(c: Config, c': Config, t: nat, th: Thread)
    requires WriteMutex(c) && WriteMutex(c') && WriteOrder(c)
    requires t in c.threads && c'.threads == c.threads[t := th]
    requires Holds(c.threads[t].status) || Holds(th.status) ==> c'.wlog == GuardedOf(c'.log) + Pending(t, th.status)
    requires !Holds(c.threads[t].status) && !Holds(th.status) ==>
               c'.wlock == c.wlock && c'.wlog == c.wlog && GuardedOf(c'.log) == GuardedOf(c.log)
    ensures WriteOrder(c')
  {
    assert Holds(th.status) <==> c'.wlock == Some(t);
    assert Holds(c.threads[t].status) <==> c.wlock == Some(t);
    if c'.wlock.None? && !Holds(th.status) {
      assert Pending(t, th.status) == [];
    }
  }

  /** The chunk a thread has begun to write is what `wlog` has more than the log. */
  lemma PendingIsNext(c: Config, t: nat)
    requires WriteMutex(c) && WriteOrder(c) && t in c.threads
    ensures Holds(c.threads[t].status) ==> c.wlog == GuardedOf(c.log) + Pending(t, c.threads[t].status)
    ensures c.wlock.None? ==> c.wlog == GuardedOf(c.log)
  {
    assert Holds(c.threads[t].status) <==> c.wlock == Some(t);
  }

  lemma BeginKeepsWriteOrder(c: Config, a: Action)
    requires WriteMutex(c) && WriteOrder(c) && Enabled(c, a) && a.Begin? && WriteMutex(Take(c, a))
    ensures WriteOrder(Take(c, a))
  {
    var c', th := Take(c, a), c.threads[a.t];
    PendingIsNext(c, a.t);
    if th.program[th.next].Reopen? {
      GuardedSnoc(c.log, Reopened(a.t));
    }
    PutKeepsWriteOrder(c, c', a.t, c'.threads[a.t]);
  }

  /** What a call logs when it is released is what was pending. */
  lemma ReleasedIsLogged(log: seq<Item>, t: nat, st: Status, item: Item)
    requires st.Inside? && item.Called? && (item.t, item.call, item.guarded) == (t, st.call, st.guarded)
    ensures GuardedOf(log + [item]) == GuardedOf(log) + Pending(t, st)
  {
    GuardedSnoc(log, item);
  }

  lemma NothingPending(c: Config, c': Config, t: nat, th: Thread)
    requires WriteMutex(c) && WriteMutex(c') && WriteOrder(c)
    requires t in c.threads && c'.threads == c.threads[t := th]
    requires Holds(c.threads[t].status) || Holds(th.status) ==> c'.wlog == GuardedOf(c'.log)
    requires !Holds(c.threads[t].status) && !Holds(th.status) ==>
               c'.wlock == c.wlock && c'.wlog == c.wlog && GuardedOf(c'.log) == GuardedOf(c.log)
    requires Pending(t, th.status) == []
    ensures WriteOrder(c')
  {
    assert GuardedOf(c'.log) + [] == GuardedOf(c'.log);
    PutKeepsWriteOrder(c, c', t, th);
  }

  lemma ReleasedKeepsWriteOrder(c: Config, c': Config, t: nat, th: Thread, item: Item)
    requires WriteMutex(c) && WriteMutex(c') && WriteOrder(c)
    requires t in c.threads && c'.threads == c.threads[t := th] && c.threads[t].status.Inside?
    requires item.Called?
    requires (item.t, item.call, item.guarded) == (t, c.threads[t].status.call, c.threads[t].status.guarded)
    requires c'.log == c.log + [item] && (c'.wlog, c'.wlock) == (c.wlog, c.wlock)
    requires th.status == if item.guarded then Leaving else Idle
    ensures WriteOrder(c')
  {
    PendingIsNext(c, t);
    ReleasedIsLogged(c.log, t, c.threads[t].status, item);
    if !item.guarded {
      assert GuardedOf(c.log) + [] == GuardedOf(c.log);
    }
    NothingPending(c, c', t, th);
  }

  lemma ReleaseKeepsWriteOrder(c: Config, a: Action)
    requires WriteMutex(c) && WriteOrder(c) && Enabled(c, a) && a.Release? && WriteMutex(Take(c, a))
    ensures WriteOrder(Take(c, a))
  {
    var c' := Take(c, a);
    ReleasedKeepsWriteOrder(c, c', a.t, c'.threads[a.t], c'.log[|c.log|]);
  }

  lemma ScanEndKeepsWriteOrder(c: Config, a: Action)
    requires WriteMutex(c) && WriteOrder(c) && Enabled(c, a) && a.ScanEnd? && WriteMutex(Take(c, a))
    ensures WriteOrder(Take(c, a))
  {
    var c' := Take(c, a);
    GuardedSnoc(c.log, c'.log[|c.log|]);
    PutKeepsWriteOrder(c, c', a.t, c'.threads[a.t]);
  }

  lemma OtherStepsKeepWriteOrder(c: Config, a: Action)
    requires WriteMutex(c) && WriteOrder(c) && Enabled(c, a) && WriteMutex(Take(c, a))
    requires !a.Begin? && !a.Release? && !a.ScanEnd?
    ensures WriteOrder(Take(c, a))
  {
    var c' := Take(c, a);
    PendingIsNext(c, a.t);
    assert Pending(a.t, c'.threads[a.t].status) == Pending(a.t, c.threads[a.t].status);
    PutKeepsWriteOrder(c, c', a.t, c'.threads[a.t]);
  }

  lemma TakeKeepsWriteOrder(c: Config, a: Action)
    requires WriteMutex(c) && WriteOrder(c) && Enabled(c, a)
    ensures WriteMutex(Take(c, a)) && WriteOrder(Take(c, a))
  {
    TakeKeepsWriteMutex(c, a);
    match a
    case Begin(_) => BeginKeepsWriteOrder(c, a);
    case Release(_) => ReleaseKeepsWriteOrder(c, a);
    case ScanEnd(_) => ScanEndKeepsWriteOrder(c, a);
    case _ => OtherStepsKeepWriteOrder(c, a);
  }

  // ----- Whole runs

  ghost predicate InOrder(c: Config) {
    Merged(c) && WriteMutex(c) && WriteOrder(c)
  }

  lemma InitialInOrder(c: Config)
    requires Initial(c)
    ensures InOrder(c)
  {
    forall t | t in c.threads ensures ThreadOk(c.log, t, c.threads[t]) && !Holds(c.threads[t].status) {
      assert FreshThread(c, t);
    }
  }

  lemma {:induction false} RunKeepsOrder(c: Config, run: seq<Action>)
    requires InOrder(c) && IsRun(c, run)
    ensures InOrder(Last(c, run))
    decreases |run|
  {
    if run != [] {
      TakeKeepsMerged(c, run[0]);
      TakeKeepsWriteOrder(c, run[0]);
      RunKeepsOrder(Take(c, run[0]), run[1..]);
    }
  }

  lemma {:induction false} ProgramsStay(c: Config, run: seq<Action>, t: nat)
    requires IsRun(c, run) && t in c.threads
    ensures t in Last(c, run).threads && Last(c, run).threads[t].program == c.threads[t].program
    decreases |run|
  {
    if run != [] {
      ProgramsStay(Take(c, run[0]), run[1..], t);
    }
  }

  /** Merge: in every interleaving the log holds no jobs but the threads', and each
      thread's in the order of its program, leaving out exactly those that came back
      without having taken the mutex. */
  lemma LogIsMerge(c: Config, run: seq<Action>)
    requires Initial(c) && IsRun(c, run)
    ensures var e := Last(c, run);
            && (forall n :: 0 <= n < |e.log| ==> e.log[n].t in c.threads)
            && (forall t :: t in c.threads ==>
                  && t in e.threads
                  && e.threads[t].next <= |c.threads[t].program|
                  && JobsOf(e.log, t) == Kept(c.threads[t].program, e.threads[t].next, e.threads[t].dropped))
  {
    InitialInOrder(c);
    RunKeepsOrder(c, run);
    StartStays(c, run);
    var e := Last(c, run);
    forall t | t in c.threads
      ensures && e.threads[t].next <= |c.threads[t].program|
              && JobsOf(e.log, t) == Kept(c.threads[t].program, e.threads[t].next, e.threads[t].dropped)
    {
      ProgramsStay(c, run, t);
      assert ThreadOk(e.log, t, e.threads[t]);
    }
  }

  /** In every interleaving the guarded writes are in the log in the order of
      `write_lock`, and all of them but at most one, which is still on its way or
      stalled; with `write_lock` free, all of them. */
  lemma WriteLockOrder(c: Config, run: seq<Action>)
    requires Initial(c) && IsRun(c, run)
    ensures var e := Last(c, run);
            && GuardedOf(e.log) <= e.wlog
            && |e.wlog| <= |GuardedOf(e.log)| + 1
            && (e.wlock.None? ==> GuardedOf(e.log) == e.wlog)
  {
    InitialInOrder(c);
    RunKeepsOrder(c, run);
  }

  // ----- One thread's writes

  function WritesIn(jobs: seq<Job>): seq<seq<byte>> {
    if jobs == [] then []
    else
      WritesIn(jobs[..|jobs| - 1]) +
      if IsWrite(jobs[|jobs| - 1]) then [jobs[|jobs| - 1].call.data] else []
  }

  lemma WritesInSnoc(jobs: seq<Job>, job: Job)
    ensures WritesIn(jobs + [job]) == WritesIn(jobs) + if IsWrite(job) then [job.call.data] else []
  {
    assert (jobs + [job])[..|jobs|] == jobs;
  }

  ghost predicate WritesGuarded(program: seq<Job>) {
    forall k :: 0 <= k < |program| && IsWrite(program[k]) ==> IsGuardedWrite(program[k])
  }

  /** Dropping jobs other than writes leaves the writes. */
  lemma {:induction false} KeptWrites(program: seq<Job>, n: nat, dropped: set<nat>)
    requires n <= |program| && forall k :: 0 <= k < n && k in dropped ==> !IsWrite(program[k])
    ensures WritesIn(Kept(program, n, dropped)) == WritesIn(program[..n])
  {
    if n > 0 {
      KeptWrites(program, n - 1, dropped);
      assert program[..n] == program[..n - 1] + [program[n - 1]];
      WritesInSnoc(program[..n - 1], program[n - 1]);
      if n - 1 !in dropped {
        WritesInSnoc(Kept(program, n - 1, dropped), program[n - 1]);
      } else {
        assert Kept(program, n, dropped) == Kept(program, n - 1, dropped);
      }
    }
  }

  lemma {:induction false} WritesInPrefix(jobs: seq<Job>, n: nat)
    requires n <= |jobs|
    ensures WritesIn(jobs[..n]) <= WritesIn(jobs)
    decreases |jobs| - n
  {
    if n < |jobs| {
      assert jobs[..n + 1] == jobs[..n] + [jobs[n]];
      WritesInSnoc(jobs[..n], jobs[n]);
      WritesInPrefix(jobs, n + 1);
    } else {
      assert jobs[..n] == jobs;
    }
  }

  /** A thread whose writes are all guarded has in the log those of the jobs it is done
      with, less the one on which it stalled. */
  lemma ThreadWrites(log: seq<Item>, t: nat, th: Thread)
    requires ThreadOk(log, t, th) && WritesGuarded(th.program)
    ensures WritesIn(JobsOf(log, t)) ==
            WritesIn(th.program[..if th.status.Stalled? then th.next - 1 else th.next])
  {
    forall k | 0 <= k < th.next && k in th.dropped && IsWrite(th.program[k])
      ensures th.status.Stalled? && k == th.next - 1
    {
      assert DropOk(th, k);
    }
    if th.status.Stalled? {
      KeptWrites(th.program, th.next - 1, th.dropped);
      assert Kept(th.program, th.next, th.dropped) == Kept(th.program, th.next - 1, th.dropped);
    } else {
      KeptWrites(th.program, th.next, th.dropped);
    }
  }

  /** The chunks of thread `t` among tagged chunks. */
  function ChunksBy(ws: seq<(nat, seq<byte>)>, t: nat): seq<seq<byte>> {
    if ws == [] then []
    else ChunksBy(ws[..|ws| - 1], t) + if ws[|ws| - 1].0 == t then [ws[|ws| - 1].1] else []
  }

  lemma ChunksBySnoc(ws: seq<(nat, seq<byte>)>, w: (nat, seq<byte>), t: nat)
    ensures ChunksBy(ws + [w], t) == ChunksBy(ws, t) + if w.0 == t then [w.1] else []
  {
    assert (ws + [w])[..|ws|] == ws;
  }

  lemma {:induction false} ChunksByThread(log: seq<Item>, t: nat)
    ensures ChunksBy(WritesOf(log), t) == WritesIn(JobsOf(log, t))
  {
    if log != [] {
      var before, last := log[..|log| - 1], log[|log| - 1];
      ChunksByThread(before, t);
      if last.t == t {
        WritesInSnoc(JobsOf(before, t), JobOf(last));
      } else {
        assert JobsOf(log, t) == JobsOf(before, t);
      }
      if IsWrite(JobOf(last)) {
        ChunksBySnoc(WritesOf(before), (last.t, last.call.data), t);
      } else {
        assert WritesOf(log) == WritesOf(before);
      }
    }
  }

  /** In every interleaving, the chunks in the log of a thread that writes only under
      `write_lock` are the first of its program, in its order; once it is through with
      its program without having stalled, they are all of them. */
  lemma WritesArePrefix(c: Config, run: seq<Action>, t: nat)
    requires Initial(c) && IsRun(c, run) && t in c.threads && WritesGuarded(c.threads[t].program)
    ensures var e, program := Last(c, run), c.threads[t].program;
            && ChunksBy(WritesOf(e.log), t) <= WritesIn(program)
            && t in e.threads
            && (e.threads[t].next == |program| && !e.threads[t].status.Stalled? ==>
                  ChunksBy(WritesOf(e.log), t) == WritesIn(program))
  {
    InitialInOrder(c);
    RunKeepsOrder(c, run);
    ProgramsStay(c, run, t);
    var e, program := Last(c, run), c.threads[t].program;
    var th := e.threads[t];
    assert ThreadOk(e.log, t, th);
    ThreadWrites(e.log, t, th);
    ChunksByThread(e.log, t);
    WritesInPrefix(program, if th.status.Stalled? then th.next - 1 else th.next);
    assert program[..|program|] == program;
  }

  // ----- Programs without seek commands

  ghost predicate SeekFree(program: seq<Job>) {
    forall k :: 0 <= k < |program| && program[k].Do? ==> !program[k].call.SeekCall?
  }

  ghost predicate AllSeekFree(c: Config) {
    forall t :: t in c.threads ==> SeekFree(c.threads[t].program)
  }

  lemma SeekFreeStep(c: Config, a: Action)
    requires Merged(c) && Enabled(c, a) && AllSeekFree(c)
    ensures !a.StrayUnlock?
  {
    assert ThreadOk(c.log, a.t, c.threads[a.t]) && SeekFree(c.threads[a.t].program);
  }

  lemma TakeKeepsPrograms(c: Config, a: Action)
    requires Enabled(c, a) && AllSeekFree(c)
    ensures AllSeekFree(Take(c, a))
  {
    assert SeekFree(c.threads[a.t].program);
  }

  /** Where no program holds a seek command, nobody unlocks a mutex not taken: every
      interleaving is one of those the theorems are about. */
  lemma {:induction false} SeekFreeIsPolite(c: Config, run: seq<Action>)
    requires Merged(c) && IsRun(c, run) && AllSeekFree(c)
    ensures PoliteRun(c, run)
    decreases |run|
  {
    if run != [] {
      SeekFreeStep(c, run[0]);
      TakeKeepsMerged(c, run[0]);
      TakeKeepsPrograms(c, run[0]);
      SeekFreeIsPolite(Take(c, run[0]), run[1..]);
    }
  }

  // ----- A thread that never gives `write_lock` back

  /** At a guarded call that will not come back: interrupted, its thread asks again for
      the lock it holds; and a write of no bytes brings its thread down inside. */
  predicate Doomed(st: Status) {
    st.Stalled? || st == Waiting(WriteCall([]), true)
  }

  lemma DoomedStep(c: Config, a: Action, t: nat)
    requires WriteMutex(c) && Enabled(c, a) && t in c.threads && Doomed(c.threads[t].status)
    ensures var c' := Take(c, a);
            && c'.wlog == c.wlog
            && t in c'.threads && Doomed(c'.threads[t].status)
            && (c.threads[t].status.Stalled? ==> c'.threads[t].status.Stalled?)
  {
    assert Holds(c.threads[t].status);
    var th := TakeIsLocal(c, a);
  }

  /** Then `write_lock` is never free again, and no guarded write begins any more. */
  lemma {:induction false} DoomedForever(c: Config, run: seq<Action>, t: nat)
    requires WriteMutex(c) && IsRun(c, run) && t in c.threads && Doomed(c.threads[t].status)
    ensures var e := Last(c, run);
            && e.wlock == Some(t)
            && e.wlog == c.wlog
            && t in e.threads && Doomed(e.threads[t].status)
            && (c.threads[t].status.Stalled? ==> e.threads[t].status.Stalled?)
    decreases |run|
  {
    assert Holds(c.threads[t].status);
    if run != [] {
      TakeKeepsWriteMutex(c, run[0]);
      DoomedStep(c, run[0], t);
      DoomedForever(Take(c, run[0]), run[1..], t);
    }
  }
}
