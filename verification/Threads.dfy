/** Any number of threads calling into the driver, interleaved step by step.  Each
    works through a program of its own, fixed beforehand.  Reads, writes and seek
    commands hold the driver's mutex around their bodies; the length scan of
    `aesd_seek` runs without it.  A guarded call is made as the server makes its
    writes and seek commands, with the server's `write_lock` held around it. */
module Threads {
  import opened Bytes
  import opened CircularBuffer
  import opened PacketSpec
  import opened Driver
  import opened CriticalSection

  // ----- Threads

  datatype Job =
    | Do(call: Call, guarded: bool)
    | Lseek(offset: int, whence: Whence)
    | Reopen

  /** `Leaving`: back from the driver, with `write_lock` yet to be released.
      `Stalled`: its call was interrupted, and it asks again for the `write_lock` that
      it still holds.  `Scanning`: in the unlocked length scan, having added up the
      sizes of the first `|seen|` slots; `since` is how many commits had changed a size
      when the scan began, and `seen[j]` how many had when it read slot `j`. */
  datatype Status =
    | Idle
    | Waiting(call: Call, guarded: bool)
    | Inside(call: Call, guarded: bool, past: seq<nat>, pc: Local)
    | Leaving
    | Stalled(call: Call)
    | Scanning(offset: int, whence: Whence, since: nat, seen: seq<nat>, acc: nat)

  /** A thread owns one open file.  `next` counts the jobs it is done with, among which
      `dropped` are those that came back without having taken the mutex. */
  datatype Thread = Thread(fpos: int, status: Status, program: seq<Job>, next: nat, dropped: set<nat>)

  datatype Scan = Scan(since: nat, until: nat, seen: seq<nat>, total: nat)

  /** A finished job with what it returned. */
  datatype Item =
    | Called(t: nat, call: Call, guarded: bool, past: seq<nat>, result: Result)
    | Sought(t: nat, offset: int, whence: Whence, scan: Scan, position: int)
    | Reopened(t: nat)

  function JobOf(item: Item): Job {
    match item
    case Called(_, call, guarded, _, _) => Do(call, guarded)
    case Sought(_, offset, whence, _, _) => Lseek(offset, whence)
    case Reopened(_) => Reopen
  }

  /** `log` records the finished jobs, calls in the order in which they held the
      mutex; `wlog` the chunks to write in the order in which their writers took
      `write_lock`; `sizes` the slot sizes after each number of commits; `start` where
      the files stood in the beginning. */
  datatype Config = Config(
    dev: Dev,
    lock: Option<nat>,
    wlock: Option<nat>,
    threads: map<nat, Thread>,
    start: map<nat, int>,
    log: seq<Item>,
    wlog: seq<(nat, seq<byte>)>,
    sizes: seq<seq<nat>>)

  datatype Action =
    | Begin(t: nat)
    | Acquire(t: nat, env: Env, past: seq<nat>)
    | Interrupt(t: nat)
    | StrayUnlock(t: nat)
    | Step(t: nat)
    | Release(t: nat)
    | Leave(t: nat)
    | ScanStep(t: nat)
    | ScanEnd(t: nat)

  function InsideOf(c: Config, t: nat): Cs
    requires t in c.threads && c.threads[t].status.Inside?
  {
    Cs(c.dev, c.threads[t].fpos, c.threads[t].status.pc)
  }

  predicate MayBegin(th: Thread, wlock: Option<nat>) {
    && th.status.Idle?
    && th.next < |th.program|
    && (th.program[th.next].Do? && th.program[th.next].guarded ==> wlock.None?)
  }

  /** A wait for the mutex can be interrupted only while somebody has it; a free one is
      taken without a look at signals.  A seek command fails early for a command
      number of ten or more, or when its wait is interrupted; on both ways out it
      unlocks a mutex it has not taken. */
  ghost predicate Enabled(c: Config, a: Action) {
    && a.t in c.threads
    && var th := c.threads[a.t];
       match a
       case Begin(_) => MayBegin(th, c.wlock)
       case Acquire(_, env, _) => th.status.Waiting? && c.lock.None? && MayStart(th.status.call, env, c.dev)
       case Interrupt(_) => th.status.Waiting? && !th.status.call.SeekCall? && c.lock.Some?
       case StrayUnlock(_) =>
         th.status.Waiting? && th.status.call.SeekCall? && (th.status.call.cmd >= CAPACITY || c.lock.Some?)
       case Step(t) => th.status.Inside? && CsOk(InsideOf(c, t)) && !th.status.pc.AtUnlock?
       case Release(_) => th.status.Inside? && th.status.pc.AtUnlock?
       case Leave(_) => th.status.Leaving?
       case ScanStep(_) => th.status.Scanning? && |th.status.seen| < CAPACITY == |c.dev.ring.entry|
       case ScanEnd(_) => th.status.Scanning? && |th.status.seen| == CAPACITY
  }

  function Version(c: Config): nat {
    if c.sizes == [] then 0 else |c.sizes| - 1
  }

  function BeginJob(c: Config, t: nat): Config
    requires t in c.threads && MayBegin(c.threads[t], c.wlock)
  {
    var th := c.threads[t];
    match th.program[th.next]
    case Do(call, guarded) =>
      c.(threads := c.threads[t := th.(status := Waiting(call, guarded))],
         wlock := if guarded then Some(t) else c.wlock,
         wlog := if guarded && call.WriteCall? then c.wlog + [(t, call.data)] else c.wlog)
    case Lseek(offset, whence) =>
      c.(threads := c.threads[t := th.(status := Scanning(offset, whence, Version(c), [], 0))])
    case Reopen =>
      c.(threads := c.threads[t := th.(fpos := 0, next := th.next + 1)],
         log := c.log + [Reopened(t)])
  }

  /** What becomes of a thread whose call came back without having taken the mutex. */
  function Drop(th: Thread, status: Status): Thread {
    th.(status := status, next := th.next + 1, dropped := th.dropped + {th.next})
  }

  ghost function Take(c: Config, a: Action): Config
    requires Enabled(c, a)
  {
    var th := c.threads[a.t];
    match a
    case Begin(t) => BeginJob(c, t)
    case Acquire(t, env, past) =>
      var Waiting(call, guarded) := th.status;
      c.(lock := Some(t),
         threads := c.threads[t := th.(status := Inside(call, guarded, past, Start(call, env, past, c.dev)))])
    case Interrupt(t) =>
      c.(threads := c.threads[t := Drop(th, if th.status.guarded then Stalled(th.status.call) else Idle)])
    case StrayUnlock(t) =>
      c.(lock := None,
         threads := c.threads[t := Drop(th, if th.status.guarded then Leaving else Idle)])
    case Step(t) =>
      var s := Micro(InsideOf(c, t));
      c.(dev := s.dev,
         threads := c.threads[t := th.(fpos := s.fpos, status := th.status.(pc := s.pc))],
         sizes := if th.status.pc.AtSize? then c.sizes + [EntrySizes(s.dev.ring.entry)] else c.sizes)
    case Release(t) =>
      var Inside(call, guarded, past, pc) := th.status;
      c.(lock := None,
         threads := c.threads[t := th.(status := if guarded then Leaving else Idle, next := th.next + 1)],
         log := c.log + [Called(t, call, guarded, past, pc.result)])
    case Leave(t) => c.(wlock := None, threads := c.threads[t := th.(status := Idle)])
    case ScanStep(t) =>
      var st := th.status;
      c.(threads := c.threads[t := th.(status := st.(seen := st.seen + [Version(c)],
                                                     acc := c.dev.ring.entry[|st.seen|].size + st.acc))])
    case ScanEnd(t) =>
      var st := th.status;
      var position := FixedSizeLlseek(th.fpos, st.offset, st.whence, st.acc);
      c.(threads := c.threads[t := th.(fpos := position, status := Idle, next := th.next + 1)],
         log := c.log + [Sought(t, st.offset, st.whence, Scan(st.since, Version(c), st.seen, st.acc), position)])
  }

  // ----- Runs

  ghost predicate FreshThread(c: Config, t: nat)
    requires t in c.threads
  {
    && (c.threads[t].status, c.threads[t].next, c.threads[t].dropped) == (Idle, 0, {})
    && t in c.start
    && c.start[t] == c.threads[t].fpos
  }

  /** A fresh device and any number of threads, each before its first job. */
  ghost predicate Initial(c: Config) {
    && (c.dev, c.lock, c.wlock, c.log, c.wlog) == (FRESH_DEV, None, None, [], [])
    && c.sizes == [EntrySizes(EMPTY_RING.entry)]
    && forall t :: t in c.threads ==> FreshThread(c, t)
  }

  /** No seek command fails early while somebody holds the mutex. */
  predicate Polite(c: Config, a: Action) {
    a.StrayUnlock? ==> c.lock.None?
  }

  /** `run` is an interleaving from `c`, and `Last` is where it ends. */
  ghost predicate IsRun(c: Config, run: seq<Action>)
    decreases |run|
  {
    run == [] || (Enabled(c, run[0]) && IsRun(Take(c, run[0]), run[1..]))
  }

  ghost function Last(c: Config, run: seq<Action>): Config
    requires IsRun(c, run)
    decreases |run|
  {
    if run == [] then c else Last(Take(c, run[0]), run[1..])
  }

  ghost predicate PoliteRun(c: Config, run: seq<Action>)
    requires IsRun(c, run)
    decreases |run|
  {
    run == [] || (Polite(c, run[0]) && PoliteRun(Take(c, run[0]), run[1..]))
  }

  lemma {:induction false} RunAppend(c: Config, run: seq<Action>, more: seq<Action>)
    requires IsRun(c, run) && IsRun(Last(c, run), more)
    ensures IsRun(c, run + more) && Last(c, run + more) == Last(Last(c, run), more)
    ensures PoliteRun(c, run) && PoliteRun(Last(c, run), more) ==> PoliteRun(c, run + more)
    decreases |run|
  {
    if run == [] {
      assert run + more == more;
    } else {
      RunAppend(Take(c, run[0]), run[1..], more);
      RunCons(c, run[0], run[1..] + more);
      assert [run[0]] + (run[1..] + more) == run + more;
    }
  }

  /** One action before a run. */
  lemma RunCons(c: Config, a: Action, run: seq<Action>)
    requires Enabled(c, a) && IsRun(Take(c, a), run)
    ensures IsRun(c, [a] + run) && Last(c, [a] + run) == Last(Take(c, a), run)
    ensures Polite(c, a) && PoliteRun(Take(c, a), run) ==> PoliteRun(c, [a] + run)
  {
    assert ([a] + run)[1..] == run;
  }

  /** One action after a run. */
  lemma RunSnoc(c: Config, run: seq<Action>, a: Action)
    requires IsRun(c, run) && Enabled(Last(c, run), a)
    ensures IsRun(c, run + [a]) && Last(c, run + [a]) == Take(Last(c, run), a)
    ensures PoliteRun(c, run) && Polite(Last(c, run), a) ==> PoliteRun(c, run + [a])
  {
    assert [a][1..] == [];
    assert IsRun(Last(c, run), [a]);
    assert Last(Last(c, run), [a]) == Take(Last(c, run), a);
    if Polite(Last(c, run), a) {
      assert PoliteRun(Last(c, run), [a]);
    }
    RunAppend(c, run, [a]);
  }

  lemma RunAhead(c: Config, a: Action, run: seq<Action>) returns (run': seq<Action>)
    requires Enabled(c, a) && IsRun(Take(c, a), run)
    ensures IsRun(c, run') && Last(c, run') == Last(Take(c, a), run)
    ensures Polite(c, a) && PoliteRun(Take(c, a), run) ==> PoliteRun(c, run')
  {
    RunCons(c, a, run);
    run' := [a] + run;
  }

  /** A step changes the entry of the thread that takes it and no other, and logs at most
      one job, which is that thread's. */
  lemma TakeIsLocal(c: Config, a: Action) returns (th: Thread)
    requires Enabled(c, a)
    ensures th == Take(c, a).threads[a.t] && Take(c, a).threads == c.threads[a.t := th]
    ensures Take(c, a).start == c.start && th.program == c.threads[a.t].program
    ensures Take(c, a).log == c.log ||
            (|Take(c, a).log| == |c.log| + 1 && Take(c, a).log[..|c.log|] == c.log && Take(c, a).log[|c.log|].t == a.t)
  {
    th := Take(c, a).threads[a.t];
  }
}
