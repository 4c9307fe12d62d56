/** Particular runs: that no thread is ever stuck for want of a step, and two
    interleavings that show where the driver's guarantees end. */
module Schedules {
  import opened Bytes
  import opened Memory
  import opened CircularBuffer
  import opened PacketSpec
  import opened Driver
  import opened CriticalSection
  import opened Threads
  import opened Interleaving
  import opened LengthScan

  // ----- Progress

  /** What a thread may need before it can go on: a mutex that is free, and a call that
      the driver gets past its first lines. */
  predicate Ready(c: Config, th: Thread) {
    match th.status
    case Idle => MayBegin(th, c.wlock)
    case Waiting(call, _) => c.lock.None? && (call.WriteCall? ==> |call.data| >= 1)
    case Stalled(_) => false
    case _ => true
  }

  /** Nobody gets stuck: in every interleaving, a thread that is ready can take a polite
      step, and one that has the mutex always can.  A waiting one can take the mutex,
      unless its seek command is refused for its number. */
  lemma NeverStuck(c: Config, run: seq<Action>, t: nat) returns (a: Action)
    requires Initial(c) && IsRun(c, run) && PoliteRun(c, run)
    requires t in Last(c, run).threads && Ready(Last(c, run), Last(c, run).threads[t])
    ensures Enabled(Last(c, run), a) && Polite(Last(c, run), a) && a.t == t
    ensures var st := Last(c, run).threads[t].status;
            st.Waiting? ==> if st.call.SeekCall? && st.call.cmd >= CAPACITY then a.StrayUnlock? else a.Acquire?
  {
    InitialGood(c);
    RunKeepsGood(c, run);
    var e := Last(c, run);
    assert ScanGoing(e.sizes, e.threads[t].status);
    match e.threads[t].status
    case Idle => a := Begin(t);
    case Waiting(SeekCall(cmd, _), _) =>
      a := if cmd < CAPACITY then Acquire(t, Env(NULL, [], NULL, []), []) else StrayUnlock(t);
    case Waiting(ReadCall, _) => a := Acquire(t, Env(NULL, [], NULL, []), []);
    case Waiting(WriteCall(data), _) =>
      var env := EnvExists(e.dev, data);
      a := Acquire(t, env, []);
    case Inside(_, _, _, pc) => a := if pc.AtUnlock? then Release(t) else Step(t);
    case Leaving => a := Leave(t);
    case Scanning(_, _, _, seen, _) => a := if |seen| == CAPACITY then ScanEnd(t) else ScanStep(t);
  }

  // ----- A thread by itself

  /** The thread inside as `s` says, everything else as it was. */
  function Placed(c: Config, t: nat, s: Cs, sizes: seq<seq<nat>>): Config
    requires t in c.threads && c.threads[t].status.Inside?
  {
    var th := c.threads[t];
    c.(dev := s.dev, sizes := sizes,
       threads := c.threads[t := th.(fpos := s.fpos, status := th.status.(pc := s.pc))])
  }

  lemma StepPlaces(c: Config, t: nat)
    requires Enabled(c, Step(t))
    ensures Take(c, Step(t)) == Placed(c, t, Micro(InsideOf(c, t)), Take(c, Step(t)).sizes)
  {
  }

  lemma PlacedTwice(c: Config, t: nat, s: Cs, sizes: seq<seq<nat>>, s': Cs, sizes': seq<seq<nat>>)
    requires t in c.threads && c.threads[t].status.Inside?
    ensures Placed(Placed(c, t, s, sizes), t, s', sizes') == Placed(c, t, s', sizes')
    ensures InsideOf(Placed(c, t, s, sizes), t) == s
  {
    assert Placed(Placed(c, t, s, sizes), t, s', sizes').threads == Placed(c, t, s', sizes').threads;
  }

  lemma NotPlaced(c: Config, t: nat)
    requires t in c.threads && c.threads[t].status.Inside?
    ensures Placed(c, t, InsideOf(c, t), c.sizes) == c
  {
    assert c.threads[t := c.threads[t]] == c.threads;
  }

  lemma FinishStep(s: Cs)
    requires CsOk(s) && !s.pc.AtUnlock?
    ensures Finish(s) == Finish(Micro(s)) && Rank(Micro(s).pc) < Rank(s.pc)
  {
    MicroDescends(s);
  }

  /** The thread inside goes on until it is ready to unlock, nobody else moving. */
  lemma {:induction false} SoloSteps(c: Config, t: nat) returns (run: seq<Action>)
    requires t in c.threads && c.threads[t].status.Inside? && CsOk(InsideOf(c, t))
    ensures IsRun(c, run) && PoliteRun(c, run)
    ensures Last(c, run) == Placed(c, t, Finish(InsideOf(c, t)), Last(c, run).sizes)
    decreases Rank(c.threads[t].status.pc)
  {
    run := [];
    if c.threads[t].status.pc.AtUnlock? {
      NotPlaced(c, t);
    } else {
      var s := InsideOf(c, t);
      var c' := Take(c, Step(t));
      FinishStep(s);
      StepPlaces(c, t);
      PlacedTwice(c, t, Micro(s), c'.sizes, s, c'.sizes);
      var rest := SoloSteps(c', t);
      PlacedTwice(c, t, Micro(s), c'.sizes, Finish(s), Last(c', rest).sizes);
      run := RunAhead(c, Step(t), rest);
    }
  }

  /** What is left of a configuration when `t` has finished a call and nobody else has
      moved. */
  ghost predicate AfterCall(c: Config, t: nat, guarded: bool, item: Item, e: Config)
    requires t in c.threads
  {
    && e.lock.None?
    && Shaped(e.dev.ring)
    && t in e.threads
    && e.threads[t] == c.threads[t].(fpos := e.threads[t].fpos, next := c.threads[t].next + 1,
                                     status := if guarded then Leaving else Idle)
    && e.threads == c.threads[t := e.threads[t]]
    && (e.log, e.wlock) == (c.log + [item], c.wlock)
  }

  /** The thread inside finishes its call, and unlocks. */
  lemma SoloFinish(c: Config, t: nat) returns (run: seq<Action>, item: Item)
    requires t in c.threads && c.threads[t].status.Inside? && CsOk(InsideOf(c, t))
    ensures IsRun(c, run) && PoliteRun(c, run) && AfterCall(c, t, c.threads[t].status.guarded, item, Last(c, run))
    ensures Last(c, run).dev == Finish(InsideOf(c, t)).dev
    ensures item.Called? && (item.t, item.call) == (t, c.threads[t].status.call)
  {
    var steps := SoloSteps(c, t);
    var e := Last(c, steps);
    RunSnoc(c, steps, Release(t));
    run := steps + [Release(t)];
    item := Last(c, run).log[|c.log|];
    var th := Last(c, run).threads[t];
    assert e.threads[t := th] == c.threads[t := th];
  }

  /** A call from its wait for the mutex to its end. */
  lemma SoloCall(c: Config, t: nat, env: Env) returns (run: seq<Action>, item: Item)
    requires Enabled(c, Acquire(t, env, [])) && Shaped(c.dev.ring)
    ensures IsRun(c, run) && PoliteRun(c, run) && AfterCall(c, t, c.threads[t].status.guarded, item, Last(c, run))
    ensures item.Called? && (item.t, item.call) == (t, c.threads[t].status.call)
  {
    var c' := Take(c, Acquire(t, env, []));
    run, item := SoloFinish(c', t);
    var th := Last(c', run).threads[t];
    assert c'.threads[t := th] == c.threads[t := th];
    run := RunAhead(c, Acquire(t, env, []), run);
  }

  /** A write from beginning to end, `write_lock` still to be released if it is guarded. */
  lemma SoloWrite(c: Config, t: nat, data: seq<byte>, guarded: bool) returns (run: seq<Action>, item: Item)
    requires Shaped(c.dev.ring) && c.lock.None? && |data| >= 1
    requires t in c.threads && MayBegin(c.threads[t], c.wlock)
    requires c.threads[t].program[c.threads[t].next] == Do(WriteCall(data), guarded)
    ensures IsRun(c, run) && PoliteRun(c, run)
    ensures AfterCall(c.(wlock := if guarded then Some(t) else c.wlock), t, guarded, item, Last(c, run))
    ensures item.Called? && (item.t, item.call) == (t, WriteCall(data))
  {
    var env := EnvExists(c.dev, data);
    var c' := Take(c, Begin(t));
    run, item := SoloCall(c', t, env);
    var th := Last(c', run).threads[t];
    assert c'.threads[t := th] == c.threads[t := th];
    run := RunAhead(c, Begin(t), run);
  }

  /** A guarded write, `write_lock` released at the end. */
  lemma SoloGuardedWrite(c: Config, t: nat, data: seq<byte>) returns (run: seq<Action>, item: Item)
    requires Shaped(c.dev.ring) && c.lock.None? && c.wlock.None? && |data| >= 1
    requires t in c.threads && MayBegin(c.threads[t], c.wlock)
    requires c.threads[t].program[c.threads[t].next] == Do(WriteCall(data), true)
    ensures IsRun(c, run) && PoliteRun(c, run) && AfterCall(c, t, false, item, Last(c, run))
    ensures item.Called? && (item.t, item.call) == (t, WriteCall(data))
  {
    var write;
    write, item := SoloWrite(c, t, data, true);
    var c1 := Last(c, write);
    RunSnoc(c, write, Leave(t));
    run := write + [Leave(t)];
    var th := Last(c, run).threads[t];
    assert c1.threads[t := th] == c.threads[t := th];
  }

  /** A length scan from where it is to its last slot. */
  lemma {:induction false} SoloScan(c: Config, t: nat) returns (run: seq<Action>)
    requires t in c.threads && c.threads[t].status.Scanning? && |c.dev.ring.entry| == CAPACITY
    requires |c.threads[t].status.seen| <= CAPACITY
    ensures IsRun(c, run) && PoliteRun(c, run)
    ensures var e, th := Last(c, run), c.threads[t];
            && t in e.threads
            && e == c.(threads := c.threads[t := e.threads[t]])
            && e.threads[t].status.Scanning?
            && e.threads[t].status.since == th.status.since
            && e.threads[t] == th.(status := e.threads[t].status)
            && |e.threads[t].status.seen| == CAPACITY
            && th.status.seen <= e.threads[t].status.seen
            && forall j :: |th.status.seen| <= j < CAPACITY ==> e.threads[t].status.seen[j] == Version(c)
    decreases CAPACITY - |c.threads[t].status.seen|
  {
    if |c.threads[t].status.seen| == CAPACITY {
      run := [];
      assert c.threads[t := c.threads[t]] == c.threads;
    } else {
      var c' := Take(c, ScanStep(t));
      var rest := SoloScan(c', t);
      run := [ScanStep(t)] + rest;
      var e := Last(c', rest);
      assert c'.threads[t := e.threads[t]] == c.threads[t := e.threads[t]];
    }
  }

  // ----- A length scan that misses every total

  const LONG_LINE: seq<byte> := [97, NEWLINE]
  const SHORT_LINE: seq<byte> := [NEWLINE]

  function ScannerAndWriter(): Config {
    Config(FRESH_DEV, None, None,
           map[0 := Thread(0, Idle, [Lseek(0, SeekEnd)], 0, {}),
               1 := Thread(0, Idle, [Do(WriteCall(LONG_LINE), false), Do(WriteCall(SHORT_LINE), false)], 0, {})],
           map[0 := 0, 1 := 0], [], [], [EntrySizes(EMPTY_RING.entry)])
  }

  lemma ScannerIsInitial()
    ensures Initial(ScannerAndWriter())
  {
  }

  /** The scanner has read slot 0, and the writer is about to begin. */
  lemma ScanFirstSlot(c: Config) returns (run: seq<Action>)
    requires c.lock.None? && |c.sizes| == 1 && Shaped(c.dev.ring) && c.dev.ring.entry[0].size == 0
    requires 0 in c.threads && MayBegin(c.threads[0], c.wlock)
    requires c.threads[0].program[c.threads[0].next] == Lseek(0, SeekEnd)
    ensures IsRun(c, run) && PoliteRun(c, run)
    ensures var e := Last(c, run);
            && 0 in e.threads
            && e == c.(threads := c.threads[0 := e.threads[0]])
            && e.threads[0].status == Scanning(0, SeekEnd, 0, [0], 0)
  {
    var c1 := Take(c, Begin(0));
    var c2 := Take(c1, ScanStep(0));
    run := RunAhead(c1, ScanStep(0), []);
    run := RunAhead(c, Begin(0), run);
    assert c2.threads == c.threads[0 := c2.threads[0]];
  }

  lemma TwoLines(log: seq<Item>, first: Item, second: Item)
    requires first.Called? && first.call == WriteCall(LONG_LINE)
    requires second.Called? && second.call == WriteCall(SHORT_LINE)
    requires log == [first, second]
    ensures LoggedPackets(log) == [LONG_LINE, SHORT_LINE]
  {
    assert log[..1] == [first] && [first][..0] == [];
    assert WritesOf([first]) == [(first.t, LONG_LINE)];
    assert WritesOf(log) == [(first.t, LONG_LINE), (second.t, SHORT_LINE)];
    assert Chunks(WritesOf(log)) == [LONG_LINE] + [SHORT_LINE];
    CStrOfClean(LONG_LINE);
    CStrOfClean(SHORT_LINE);
    WholePackets([LONG_LINE] + [SHORT_LINE]);
  }

  /** Both lines are written while the scan stands still. */
  lemma WriteTwoLines(c: Config) returns (run: seq<Action>)
    requires Shaped(c.dev.ring) && c.lock.None? && c.log == []
    requires 0 in c.threads && 1 in c.threads && c.threads[1] == ScannerAndWriter().threads[1]
    ensures IsRun(c, run) && PoliteRun(c, run)
    ensures var e := Last(c, run);
            && Shaped(e.dev.ring) && e.lock.None? && |e.log| == 2
            && 0 in e.threads && e.threads[0] == c.threads[0]
            && LoggedPackets(e.log) == [LONG_LINE, SHORT_LINE]
  {
    var first, item1 := SoloWrite(c, 1, LONG_LINE, false);
    var c1 := Last(c, first);
    var second, item2 := SoloWrite(c1, 1, SHORT_LINE, false);
    RunAppend(c, first, second);
    run := first + second;
    TwoLines(Last(c, run).log, item1, item2);
  }

  lemma ScanRest(c: Config) returns (run: seq<Action>)
    requires Shaped(c.dev.ring) && c.lock.None?
    requires 0 in c.threads && c.threads[0].status == Scanning(0, SeekEnd, 0, [0], 0)
    ensures IsRun(c, run) && PoliteRun(c, run)
    ensures var e := Last(c, run);
            && e.lock.None?
            && e.sizes == c.sizes
            && |e.log| == |c.log| + 1
            && e.log[..|c.log|] == c.log
            && e.log[|c.log|].Sought?
            && var scan := e.log[|c.log|].scan;
               && (scan.since, scan.until, |scan.seen|) == (0, Version(c), CAPACITY)
               && scan.seen[0] == 0 && scan.seen[1] == Version(c)
  {
    var steps := SoloScan(c, 0);
    RunSnoc(c, steps, ScanEnd(0));
    run := steps + [ScanEnd(0)];
  }

  ghost predicate Misled(sizes: seq<seq<nat>>, scan: Scan) {
    && scan.since + 2 == scan.until < |sizes|
    && scan.total !in {Sum(sizes[scan.since]), Sum(sizes[scan.since + 1]), Sum(sizes[scan.until])}
  }

  lemma TwoLinesMislead(sizes: seq<seq<nat>>, scan: Scan)
    requires |sizes| == 3 && Whole(sizes, scan) && RealLengths(sizes, [LONG_LINE, SHORT_LINE])
    requires (scan.since, scan.until) == (0, 2) && scan.seen[0] == 0 && scan.seen[1] == 2
    ensures Misled(sizes, scan)
  {
    var lines := [LONG_LINE, SHORT_LINE];
    assert lines[..0] == [] && lines[..1] == [LONG_LINE] && lines[..2] == lines;
    FlatSnoc([], LONG_LINE);
    FlatSnoc([LONG_LINE], SHORT_LINE);
    assert [] + [LONG_LINE] == [LONG_LINE] && lines == [LONG_LINE] + [SHORT_LINE];
    assert LengthAt(sizes, lines, 0) && LengthAt(sizes, lines, 1) && LengthAt(sizes, lines, 2);
    assert InOf(0) == 0 && InOf(1) == 1;
    assert OneCommit(sizes[0], sizes[1], InOf(0));
    assert OneCommit(sizes[1], sizes[2], InOf(1));
    var p, q, dp, dq := TwoCommitSums(sizes, 0);
    TwoCommitScan(sizes, scan);
  }

  /** A scan can miss every total: it reads slot 0 of an empty device, two packets of
      lengths two and one are committed, it reads the other slots, and answers one,
      which the length never was. */
  lemma ScanCanMiss() returns (c: Config, run: seq<Action>)
    ensures Initial(c) && IsRun(c, run) && PoliteRun(c, run)
    ensures var e := Last(c, run);
            |e.log| == 3 && e.log[2].Sought? && Misled(e.sizes, e.log[2].scan)
  {
    c := ScannerAndWriter();
    ScannerIsInitial();
    var first := ScanFirstSlot(c);
    var c1 := Last(c, first);
    var lines := WriteTwoLines(c1);
    RunAppend(c, first, lines);
    var packets := LoggedPackets(Last(c1, lines).log);
    RunTotals(c, first + lines);
    var rest := ScanRest(Last(c1, lines));
    RunAppend(c, first + lines, rest);
    run := first + lines + rest;
    RunTotals(c, run);
    WholeScan(c, run, 2);
    SameWrites(Last(c, run).log);
    TwoLinesMislead(Last(c, run).sizes, Last(c, run).log[2].scan);
  }

  lemma SameWrites(log: seq<Item>)
    requires |log| == 3 && log[2].Sought?
    ensures LoggedPackets(log) == LoggedPackets(log[..2])
  {
    assert WritesOf(log) == WritesOf(log[..2]);
  }

  // ----- A seek command that fails early

  function ReadersAndSeeker(): Config {
    Config(FRESH_DEV, None, None,
           map[0 := Thread(0, Idle, [Do(ReadCall, false)], 0, {}),
               1 := Thread(0, Idle, [Do(ReadCall, false)], 0, {}),
               2 := Thread(0, Idle, [Do(SeekCall(CAPACITY, 0), false)], 0, {})],
           map[0 := 0, 1 := 0, 2 := 0], [], [], [EntrySizes(EMPTY_RING.entry)])
  }

  /** However a lookup goes, it ends with the output position that it found when it
      began. */
  lemma {:induction false} LookupRestores(s: Cs)
    requires CsOk(s) && s.pc.AtLookup?
    ensures Finish(s).dev == s.dev.(ring := s.dev.ring.(outOffs := s.pc.restoreOutOffs))
    decreases Rank(s.pc)
  {
    var s' := Micro(s);
    assert Finish(s) == Finish(s');
    if s'.pc.AtLookup? {
      LookupRestores(s');
    } else if s'.pc.AtFound? {
      assert Finish(s') == Micro(s');
    }
  }

  lemma ReadersAreInitial()
    ensures Initial(ReadersAndSeeker())
  {
  }

  /** An unguarded call begins. */
  lemma BeginsToWait(c: Config, t: nat, call: Call)
    requires t in c.threads && MayBegin(c.threads[t], c.wlock)
    requires c.threads[t].program[c.threads[t].next] == Do(call, false)
    ensures Enabled(c, Begin(t))
    ensures Take(c, Begin(t)) == c.(threads := c.threads[t := c.threads[t].(status := Waiting(call, false))])
  {
  }

  lemma AllWaiting(c: Config) returns (run: seq<Action>)
    requires c == ReadersAndSeeker()
    ensures IsRun(c, run)
    ensures var read, seek := Waiting(ReadCall, false), Waiting(SeekCall(CAPACITY, 0), false);
            Last(c, run) == c.(threads := c.threads[0 := c.threads[0].(status := read)]
                                                   [1 := c.threads[1].(status := read)]
                                                   [2 := c.threads[2].(status := seek)])
  {
    BeginsToWait(c, 0, ReadCall);
    var c1 := Take(c, Begin(0));
    BeginsToWait(c1, 1, ReadCall);
    var c2 := Take(c1, Begin(1));
    BeginsToWait(c2, 2, SeekCall(CAPACITY, 0));
    run := RunAhead(c2, Begin(2), []);
    run := RunAhead(c1, Begin(1), run);
    run := RunAhead(c, Begin(0), run);
  }

  lemma ReaderGetsIn(c: Config, t: nat, env: Env)
    requires c.lock.None? && t in c.threads && c.threads[t].status == Waiting(ReadCall, false)
    ensures Enabled(c, Acquire(t, env, []))
    ensures Take(c, Acquire(t, env, [])) ==
            c.(lock := Some(t),
               threads := c.threads[t := c.threads[t].(status :=
                                           Inside(ReadCall, false, [], AtLookup(c.dev.ring.outOffs, 0, 0)))])
  {
  }

  lemma FirstLookupStep(d: Dev)
    requires Shaped(d.ring) && d.ring.outOffs == 0 && d.ring.entry[0].size == 0
    ensures Micro(Cs(d, 0, AtLookup(0, 0, 0))) == Cs(d.(ring := d.ring.(outOffs := 1)), 0, AtLookup(0, 1, 0))
  {
  }

  /** A reader of an empty device takes the mutex and moves the output position along
      by one. */
  lemma ReaderSteps(c: Config, env: Env) returns (run: seq<Action>)
    requires c.lock.None? && 0 in c.threads
    requires Shaped(c.dev.ring) && c.dev.ring.outOffs == 0 && c.dev.ring.entry[0].size == 0
    requires c.threads[0].fpos == 0 && c.threads[0].status == Waiting(ReadCall, false)
    ensures IsRun(c, run)
    ensures var e := Last(c, run);
            && e.threads.Keys == c.threads.Keys
            && (forall t :: t in c.threads && t != 0 ==> e.threads[t] == c.threads[t])
            && e.threads[0].status == Inside(ReadCall, false, [], AtLookup(0, 1, 0))
            && e.dev == c.dev.(ring := c.dev.ring.(outOffs := 1))
  {
    ReaderGetsIn(c, 0, env);
    FirstLookupStep(c.dev);
    var c1 := Take(c, Acquire(0, env, []));
    StepPlaces(c1, 0);
    run := RunAhead(c1, Step(0), []);
    run := RunAhead(c, Acquire(0, env, []), run);
  }

  /** Then the seek command's early failure lets the second reader in. */
  lemma TwoInside(c: Config) returns (run: seq<Action>)
    requires c.lock.None? && c.dev == FRESH_DEV
    requires 0 in c.threads && 1 in c.threads && 2 in c.threads && c.threads[0].fpos == 0
    requires c.threads[0].status == c.threads[1].status == Waiting(ReadCall, false)
    requires c.threads[2].status == Waiting(SeekCall(CAPACITY, 0), false)
    ensures IsRun(c, run)
    ensures var e := Last(c, run);
            && e.threads.Keys == c.threads.Keys
            && e.threads[0].status == Inside(ReadCall, false, [], AtLookup(0, 1, 0))
            && e.threads[1].status == Inside(ReadCall, false, [], AtLookup(1, 0, 0))
            && e.threads[2].status == Idle
            && e.dev.ring == EMPTY_RING.(outOffs := 1)
  {
    var env := Env(NULL, [], NULL, []);
    var steps := ReaderSteps(c, env);
    var c1 := Last(c, steps);
    var c2 := Take(c1, StrayUnlock(2));
    var c3 := Take(c2, Acquire(1, env, []));
    run := RunAhead(c2, Acquire(1, env, []), []);
    run := RunAhead(c1, StrayUnlock(2), run);
    RunAppend(c, steps, run);
    run := steps + run;
  }

  lemma ReaderFinishes(c: Config, t: nat) returns (run: seq<Action>, th: Thread)
    requires t in c.threads && c.threads[t].status.Inside? && CsOk(InsideOf(c, t))
    requires c.threads[t].status.pc.AtLookup? && !c.threads[t].status.guarded
    ensures IsRun(c, run) && th.status.Idle?
    ensures var e := Last(c, run);
            && e.lock.None?
            && e.threads == c.threads[t := th]
            && e.dev.ring == c.dev.ring.(outOffs := c.threads[t].status.pc.restoreOutOffs)
  {
    LookupRestores(InsideOf(c, t));
    var item;
    run, item := SoloFinish(c, t);
    th := Last(c, run).threads[t];
  }

  /** Both readers finish, the second one last. */
  lemma ReadersFinish(c: Config) returns (run: seq<Action>)
    requires c.threads.Keys == {0, 1, 2} && c.threads[2].status == Idle
    requires c.threads[0].status == Inside(ReadCall, false, [], AtLookup(0, 1, 0))
    requires c.threads[1].status == Inside(ReadCall, false, [], AtLookup(1, 0, 0))
    requires Shaped(c.dev.ring)
    ensures IsRun(c, run)
    ensures var e := Last(c, run);
            && e.lock.None?
            && (forall t :: t in e.threads ==> e.threads[t].status.Idle?)
            && e.dev.ring == c.dev.ring.(outOffs := 1)
  {
    assert 0 in c.threads && 1 in c.threads && 2 in c.threads;
    var first, th0 := ReaderFinishes(c, 0);
    var second, th1 := ReaderFinishes(Last(c, first), 1);
    RunAppend(c, first, second);
    run := first + second;
  }

  /** A seek command that fails early can break the ring: it releases the
      mutex in the middle of somebody's lookup, the next reader takes the output
      position found there for the real one, and puts it back last.  Nobody is inside
      any more, the mutex is free, and the ring is not in order. */
  lemma StrayUnlockBreaksRing() returns (c: Config, run: seq<Action>)
    ensures Initial(c) && IsRun(c, run)
    ensures var e := Last(c, run);
            && e.lock.None?
            && (forall t :: t in e.threads ==> e.threads[t].status.Idle?)
            && !RingInv(e.dev.ring)
  {
    c := ReadersAndSeeker();
    ReadersAreInitial();
    var begin := AllWaiting(c);
    var inside := TwoInside(Last(c, begin));
    RunAppend(c, begin, inside);
    var finish := ReadersFinish(Last(c, begin + inside));
    RunAppend(c, begin + inside, finish);
    run := begin + inside + finish;
  }
}
