/** Serialisability: whatever the interleaving, the calls behave as if made one at a
    time, in the order in which they held the mutex. */
module Interleaving {
  import opened Bytes
  import opened CircularBuffer
  import opened PacketSpec
  import opened Driver
  import opened CriticalSection
  import opened Threads

  // ----- The serial run

  /** The device and the files' positions in a run of one call after the other. */
  datatype World = World(abs: Abs, files: map<nat, int>)

  function FileOf(w: World, t: nat): int {
    if t in w.files then w.files[t] else 0
  }

  /** A job done alone.  A length scan's total is not a matter of the abstract device
      alone and is taken from the item. */
  function SerialItem(w: World, item: Item): (World, Result) {
    match item
    case Called(t, call, _, past, _) =>
      var (abs, result, pos) := SerialCall(w.abs, call, past, FileOf(w, t));
      (World(abs, w.files[t := pos]), result)
    case Sought(t, offset, whence, scan, _) =>
      var pos := FixedSizeLlseek(FileOf(w, t), offset, whence, scan.total);
      (w.(files := w.files[t := pos]), Result(pos, []))
    case Reopened(t) => (w.(files := w.files[t := 0]), Result(0, []))
  }

  function ResultOf(item: Item): Result {
    match item
    case Called(_, _, _, _, result) => result
    case Sought(_, _, _, _, position) => Result(position, [])
    case Reopened(_) => Result(0, [])
  }

  /** The jobs of a log done one after the other, on a fresh device and with the files
      at their starting positions.  A file moves only by its own thread's jobs. */
  function SerialRun(start: map<nat, int>, log: seq<Item>): World {
    if log == [] then World(FRESH_DEVICE, start)
    else SerialItem(SerialRun(start, log[..|log| - 1]), log[|log| - 1]).0
  }

  ghost predicate ItemOk(start: map<nat, int>, log: seq<Item>, n: nat)
    requires n < |log|
  {
    ResultOf(log[n]) == SerialItem(SerialRun(start, log[..n]), log[n]).1
  }

  /** Every logged job returned what it returns in the serial run. */
  ghost predicate LogOk(start: map<nat, int>, log: seq<Item>) {
    forall n :: 0 <= n < |log| ==> ItemOk(start, log, n)
  }

  lemma LogGrows(start: map<nat, int>, log: seq<Item>, item: Item)
    requires LogOk(start, log) && ResultOf(item) == SerialItem(SerialRun(start, log), item).1
    ensures LogOk(start, log + [item])
    ensures SerialRun(start, log + [item]) == SerialItem(SerialRun(start, log), item).0
  {
    var log' := log + [item];
    assert log'[..|log|] == log;
    forall n | 0 <= n < |log'| ensures ItemOk(start, log', n) {
      if n < |log| {
        assert ItemOk(start, log, n);
        assert log'[..n] == log[..n];
      }
    }
  }

  // ----- What every step keeps

  /** Exactly the owner of the mutex is inside. */
  ghost predicate Mutex(c: Config) {
    && (c.lock.Some? ==> c.lock.value in c.threads)
    && forall t :: t in c.threads ==> (c.threads[t].status.Inside? <==> c.lock == Some(t))
  }

  /** With the mutex free, the device is what the serial run left; with the mutex
      taken, the owner is on course for what it would do there alone. */
  ghost predicate Serial(c: Config)
    requires Mutex(c)
  {
    var w := SerialRun(c.start, c.log);
    match c.lock
    case None => DevInv(c.dev) && Abstract(c.dev) == w.abs
    case Some(t) =>
      var st := c.threads[t].status;
      CsOk(InsideOf(c, t)) && OnCourse(InsideOf(c, t), w.abs, st.call, st.past, FileOf(w, t))
  }

  ghost predicate FileOk(w: World, t: nat, th: Thread) {
    th.status.Inside? || th.fpos == FileOf(w, t)
  }

  /** Outside the mutex a file stands where the serial run has left it. */
  ghost predicate FilesOk(c: Config) {
    var w := SerialRun(c.start, c.log);
    forall t :: t in c.threads ==> FileOk(w, t, c.threads[t])
  }

  ghost predicate Inv(c: Config) {
    match c
    case Config(_, _, _, _, start, log, _, _) => Mutex(c) && Serial(c) && FilesOk(c) && LogOk(start, log)
  }

  /** A step keeps mutual exclusion exactly when it is not an early failure of a
      seek command that releases somebody else's mutex. */
  lemma MutexKeptIff(c: Config, a: Action)
    requires Mutex(c) && Enabled(c, a)
    ensures Mutex(Take(c, a)) <==> Polite(c, a)
  {
    if !Polite(c, a) {
      var t := c.lock.value;
      assert Take(c, a).threads[t].status.Inside?;
    }
  }

  /** What goes wrong then: the next thread gets in while the first is still inside. */
  lemma StrayUnlockAdmitsTwo(c: Config, t: nat, u: nat, v: nat, env: Env, past: seq<nat>)
    requires Mutex(c) && c.lock == Some(t) && u in c.threads && v in c.threads
    requires c.threads[u].status.Waiting? && c.threads[u].status.call.SeekCall?
    requires c.threads[v].status.Waiting? && MayStart(c.threads[v].status.call, env, c.dev) && u != v
    ensures Enabled(c, StrayUnlock(u)) && Enabled(Take(c, StrayUnlock(u)), Acquire(v, env, past))
    ensures var c' := Take(Take(c, StrayUnlock(u)), Acquire(v, env, past));
            t != v && c'.threads[t].status.Inside? && c'.threads[v].status.Inside?
  {
    assert c.threads[t].status.Inside?;
  }

  /** A step that leaves the log, and the files outside the mutex, as they are. */
  lemma FilesStay(c: Config, c': Config, t: nat, th: Thread)
    requires FilesOk(c) && t in c.threads && FileOk(SerialRun(c.start, c.log), t, th)
    requires c'.threads == c.threads[t := th] && (c'.start, c'.log) == (c.start, c.log)
    ensures FilesOk(c')
  {
    var w := SerialRun(c.start, c.log);
    forall u | u in c'.threads ensures FileOk(w, u, c'.threads[u]) {
      if u != t {
        assert FileOk(w, u, c.threads[u]);
      }
    }
  }

  /** A step that logs a job. */
  lemma FilesMove(c: Config, c': Config, t: nat, th: Thread, item: Item)
    requires FilesOk(c) && LogOk(c.start, c.log) && t in c.threads && item.t == t
    requires c'.threads == c.threads[t := th] && c'.start == c.start && c'.log == c.log + [item]
    requires ResultOf(item) == SerialItem(SerialRun(c.start, c.log), item).1
    requires th.fpos == FileOf(SerialItem(SerialRun(c.start, c.log), item).0, t)
    ensures FilesOk(c') && LogOk(c'.start, c'.log)
    ensures SerialRun(c'.start, c'.log) == SerialItem(SerialRun(c.start, c.log), item).0
  {
    LogGrows(c.start, c.log, item);
    var w, w' := SerialRun(c.start, c.log), SerialRun(c'.start, c'.log);
    forall u | u in c'.threads ensures FileOk(w', u, c'.threads[u]) {
      if u != t {
        assert FileOk(w, u, c.threads[u]);
        assert FileOf(w', u) == FileOf(w, u);
      }
    }
  }

  /** Whoever is inside is not disturbed by what goes on outside. */
  lemma SerialStays(c: Config, c': Config, t: nat, th: Thread)
    requires Mutex(c) && Serial(c) && Mutex(c') && t in c.threads
    requires c'.threads == c.threads[t := th] && (c'.dev, c'.lock) == (c.dev, c.lock)
    requires !c.threads[t].status.Inside? && !th.status.Inside?
    requires var w, w' := SerialRun(c.start, c.log), SerialRun(c'.start, c'.log);
             w'.abs == w.abs && forall u :: u != t ==> FileOf(w', u) == FileOf(w, u)
    ensures Serial(c')
  {
    assert c.lock != Some(t);
  }

  /** A step outside the mutex that logs nothing. */
  lemma QuietKeepsInv(c: Config, c': Config, t: nat, th: Thread)
    requires Inv(c) && Mutex(c') && t in c.threads
    requires c'.threads == c.threads[t := th] && (c'.dev, c'.lock, c'.start, c'.log) == (c.dev, c.lock, c.start, c.log)
    requires !c.threads[t].status.Inside? && !th.status.Inside? && th.fpos == c.threads[t].fpos
    ensures Inv(c')
  {
    assert FileOk(SerialRun(c.start, c.log), t, c.threads[t]);
    SerialStays(c, c', t, th);
    FilesStay(c, c', t, th);
  }

  /** A step outside the mutex that logs a job other than a call. */
  lemma LoggedKeepsInv(c: Config, c': Config, t: nat, th: Thread, item: Item)
    requires Inv(c) && Mutex(c') && t in c.threads && item.t == t && !item.Called?
    requires c'.threads == c.threads[t := th] && (c'.dev, c'.lock, c'.start) == (c.dev, c.lock, c.start)
    requires c'.log == c.log + [item]
    requires !c.threads[t].status.Inside? && !th.status.Inside?
    requires ResultOf(item) == SerialItem(SerialRun(c.start, c.log), item).1
    requires th.fpos == FileOf(SerialItem(SerialRun(c.start, c.log), item).0, t)
    ensures Inv(c')
  {
    FilesMove(c, c', t, th, item);
    SerialStays(c, c', t, th);
  }

  lemma ReopenKeepsInv(c: Config, a: Action)
    requires Inv(c) && Enabled(c, a) && a.Begin? && c.threads[a.t].program[c.threads[a.t].next].Reopen?
    ensures Inv(Take(c, a))
  {
    var c' := Take(c, a);
    MutexKeptIff(c, a);
    LoggedKeepsInv(c, c', a.t, c'.threads[a.t], Reopened(a.t));
  }

  lemma BeginKeepsInv(c: Config, a: Action)
    requires Inv(c) && Enabled(c, a) && a.Begin? && !c.threads[a.t].program[c.threads[a.t].next].Reopen?
    ensures Inv(Take(c, a))
  {
    var c' := Take(c, a);
    MutexKeptIff(c, a);
    QuietKeepsInv(c, c', a.t, c'.threads[a.t]);
  }

  lemma AcquireKeepsInv(c: Config, a: Action)
    requires Inv(c) && Enabled(c, a) && a.Acquire?
    ensures Inv(Take(c, a))
  {
    var c', th := Take(c, a), c.threads[a.t];
    MutexKeptIff(c, a);
    assert FileOk(SerialRun(c.start, c.log), a.t, th);
    StartsOnCourse(c.dev, th.fpos, th.status.call, a.env, a.past);
    FilesStay(c, c', a.t, c'.threads[a.t]);
  }

  lemma StepKeepsInv(c: Config, a: Action)
    requires Inv(c) && Enabled(c, a) && a.Step?
    ensures Inv(Take(c, a))
  {
    var c', st, w := Take(c, a), c.threads[a.t].status, SerialRun(c.start, c.log);
    MutexKeptIff(c, a);
    StaysOnCourse(InsideOf(c, a.t), w.abs, st.call, st.past, FileOf(w, a.t));
    FilesStay(c, c', a.t, c'.threads[a.t]);
  }

  /** At its end a call has done what it does in the serial run. */
  lemma AtUnlockAchieves(c: Config, t: nat)
    requires Inv(c) && t in c.threads && c.threads[t].status.Inside? && c.threads[t].status.pc.AtUnlock?
    ensures var w, st := SerialRun(c.start, c.log), c.threads[t].status;
            && DevInv(c.dev)
            && (Abstract(c.dev), st.pc.result, c.threads[t].fpos) ==
               SerialCall(w.abs, st.call, st.past, FileOf(w, t))
  {
    assert Finish(InsideOf(c, t)) == InsideOf(c, t);
  }

  lemma ReleaseKeepsInv(c: Config, a: Action)
    requires Inv(c) && Enabled(c, a) && a.Release?
    ensures Inv(Take(c, a))
  {
    var c' := Take(c, a);
    MutexKeptIff(c, a);
    AtUnlockAchieves(c, a.t);
    FilesMove(c, c', a.t, c'.threads[a.t], c'.log[|c.log|]);
  }

  lemma ScanEndKeepsInv(c: Config, a: Action)
    requires Inv(c) && Enabled(c, a) && a.ScanEnd?
    ensures Inv(Take(c, a))
  {
    var c' := Take(c, a);
    MutexKeptIff(c, a);
    assert FileOk(SerialRun(c.start, c.log), a.t, c.threads[a.t]);
    LoggedKeepsInv(c, c', a.t, c'.threads[a.t], c'.log[|c.log|]);
  }

  lemma OtherStepsKeepInv(c: Config, a: Action)
    requires Inv(c) && Enabled(c, a) && Polite(c, a)
    requires a.Interrupt? || a.StrayUnlock? || a.Leave? || a.ScanStep?
    ensures Inv(Take(c, a))
  {
    MutexKeptIff(c, a);
    var th := TakeIsLocal(c, a);
    QuietKeepsInv(c, Take(c, a), a.t, th);
  }

  lemma TakeKeepsInv(c: Config, a: Action)
    requires Inv(c) && Enabled(c, a) && Polite(c, a)
    ensures Inv(Take(c, a))
  {
    match a
    case Begin(t) =>
      if c.threads[t].program[c.threads[t].next].Reopen? {
        ReopenKeepsInv(c, a);
      } else {
        BeginKeepsInv(c, a);
      }
    case Acquire(_, _, _) => AcquireKeepsInv(c, a);
    case Step(_) => StepKeepsInv(c, a);
    case Release(_) => ReleaseKeepsInv(c, a);
    case ScanEnd(_) => ScanEndKeepsInv(c, a);
    case _ => OtherStepsKeepInv(c, a);
  }

  // ----- Whole runs

  lemma InitialInv(c: Config)
    requires Initial(c)
    ensures Inv(c)
  {
    FreshDevice();
    assert Abstract(c.dev) == FRESH_DEVICE;
    forall t | t in c.threads ensures FileOk(SerialRun(c.start, c.log), t, c.threads[t]) {
      assert FreshThread(c, t);
    }
  }

  lemma {:induction false} RunKeepsInv(c: Config, run: seq<Action>)
    requires Inv(c) && IsRun(c, run) && PoliteRun(c, run)
    ensures Inv(Last(c, run))
    decreases |run|
  {
    if run != [] {
      TakeKeepsInv(c, run[0]);
      RunKeepsInv(Take(c, run[0]), run[1..]);
    }
  }

  ghost predicate MutexAfter(c: Config, run: seq<Action>, n: nat) {
    n <= |run| && IsRun(c, run[..n]) && Mutex(Last(c, run[..n]))
  }

  lemma MutexAfterStep(c: Config, run: seq<Action>, n: nat)
    requires IsRun(c, run) && 1 <= n <= |run|
    ensures MutexAfter(c, run, n) <==> MutexAfter(Take(c, run[0]), run[1..], n - 1)
  {
    assert run[..n][0] == run[0] && run[..n][1..] == run[1..][..n - 1];
  }

  lemma {:induction false} MutexThroughout(c: Config, run: seq<Action>)
    requires IsRun(c, run) && Mutex(c)
    ensures PoliteRun(c, run) <==> forall n :: 0 <= n <= |run| ==> MutexAfter(c, run, n)
    decreases |run|
  {
    assert run[..0] == [] && MutexAfter(c, run, 0);
    if run != [] {
      var c', rest := Take(c, run[0]), run[1..];
      MutexKeptIff(c, run[0]);
      forall n | 1 <= n <= |run| ensures MutexAfter(c, run, n) <==> MutexAfter(c', rest, n - 1) {
        MutexAfterStep(c, run, n);
      }
      assert rest[..0] == [] && MutexAfter(c', rest, 0) == Mutex(c');
      if Mutex(c') {
        MutexThroughout(c', rest);
        if forall n :: 0 <= n <= |run| ==> MutexAfter(c, run, n) {
          forall m | 0 <= m <= |rest| ensures MutexAfter(c', rest, m) {
            assert MutexAfter(c, run, m + 1);
          }
        }
      } else {
        assert !MutexAfter(c, run, 1);
      }
    }
  }

  /** From the start, a run is polite if and only if at most one thread is inside after
      every one of its steps, the owner of the mutex. */
  lemma PoliteIffMutex(c: Config, run: seq<Action>)
    requires Initial(c) && IsRun(c, run)
    ensures PoliteRun(c, run) <==> forall n :: 0 <= n <= |run| ==> MutexAfter(c, run, n)
  {
    InitialInv(c);
    MutexThroughout(c, run);
  }

  lemma {:induction false} StartStays(c: Config, run: seq<Action>)
    requires IsRun(c, run)
    ensures Last(c, run).start == c.start && Last(c, run).threads.Keys == c.threads.Keys
    decreases |run|
  {
    if run != [] {
      StartStays(Take(c, run[0]), run[1..]);
    }
  }

  /** Serialisability: in every interleaving, each finished job returned what it
      returns when the jobs are done one by one, calls in the order in which they held
      the mutex, on a fresh device with every file at its starting position; outside
      the mutex every file stands where that run leaves it; and whenever the mutex is
      free the ring is in order and the device is what that run leaves. */
  lemma Serialisable(c: Config, run: seq<Action>)
    requires Initial(c) && IsRun(c, run) && PoliteRun(c, run)
    ensures var e := Last(c, run);
            && LogOk(c.start, e.log)
            && e.threads.Keys == c.threads.Keys
            && (forall t :: t in e.threads ==> FileOk(SerialRun(c.start, e.log), t, e.threads[t]))
            && (e.lock.None? ==>
                  RingInv(e.dev.ring) && DevInv(e.dev) && Abstract(e.dev) == SerialRun(c.start, e.log).abs)
  {
    InitialInv(c);
    RunKeepsInv(c, run);
    StartStays(c, run);
  }

  /** In every interleaving, a logged write has returned the number of its bytes, a read the
      number of bytes it delivered, and a seek command zero or the error. */
  lemma CallsReturn(c: Config, run: seq<Action>, n: nat)
    requires Initial(c) && IsRun(c, run) && PoliteRun(c, run)
    requires n < |Last(c, run).log| && Last(c, run).log[n].Called?
    ensures var Called(_, call, _, _, result) := Last(c, run).log[n];
            match call
            case ReadCall => result.retval == |result.bytes|
            case WriteCall(data) => result == Result(|data|, [])
            case SeekCall(_, _) => result.bytes == [] && (result.retval == 0 || result.retval == -EINVAL)
  {
    Serialisable(c, run);
    assert ItemOk(c.start, Last(c, run).log, n);
  }

  // ----- What the device holds after an interleaving

  /** The chunks written, with their writers, in the order of the log. */
  function WritesOf(log: seq<Item>): seq<(nat, seq<byte>)> {
    if log == [] then []
    else
      var last := log[|log| - 1];
      WritesOf(log[..|log| - 1]) + (if last.Called? && last.call.WriteCall? then [(last.t, last.call.data)] else [])
  }

  function Chunks(ws: seq<(nat, seq<byte>)>): (cs: seq<seq<byte>>)
    ensures |cs| == |ws|
    ensures forall i :: 0 <= i < |ws| ==> cs[i] == ws[i].1
  {
    seq(|ws|, i requires 0 <= i < |ws| => ws[i].1)
  }

  lemma {:induction false} SerialRunIsHistory(start: map<nat, int>, log: seq<Item>)
    ensures SerialRun(start, log).abs == AfterWrites(FRESH_DEVICE, Chunks(WritesOf(log)))
  {
    if log != [] {
      var before, last := log[..|log| - 1], log[|log| - 1];
      SerialRunIsHistory(start, before);
      if last.Called? && last.call.WriteCall? {
        var ws := Chunks(WritesOf(log));
        assert ws[..|ws| - 1] == Chunks(WritesOf(before));
      } else {
        assert WritesOf(log) == WritesOf(before);
      }
    }
  }

  /** In every interleaving, with the mutex free the slots hold the last ten packets of
      the chunks written, in the order of the log, and the pending block the rest. */
  lemma DeviceHoldsTheLog(c: Config, run: seq<Action>)
    requires Initial(c) && IsRun(c, run) && PoliteRun(c, run) && Last(c, run).lock.None?
    ensures var e := Last(c, run);
            && RingInv(e.dev.ring)
            && View(e.dev.ring, e.dev.heap) == LastTen(Packets(Chunks(WritesOf(e.log))))
            && TailOf(e.dev) == Join(Unfinished(Chunks(WritesOf(e.log))))
  {
    Serialisable(c, run);
    var e := Last(c, run);
    SerialRunIsHistory(c.start, e.log);
    HistoryIsView(Chunks(WritesOf(e.log)));
  }

  lemma MicroLosesNothing(s: Cs)
    requires CsOk(s)
    ensures Micro(s).dev.ledger.lost == s.dev.ledger.lost
  {
  }

  lemma {:induction false} NothingLost(c: Config, run: seq<Action>)
    requires IsRun(c, run)
    ensures Last(c, run).dev.ledger.lost == c.dev.ledger.lost
    decreases |run|
  {
    if run != [] {
      if run[0].Step? {
        MicroLosesNothing(InsideOf(c, run[0].t));
      }
      NothingLost(Take(c, run[0]), run[1..]);
    }
  }

  /** In every interleaving, with the mutex free every block of the heap has its one
      owner, and the blocks released are those of the packets that have left the
      ring, each once. */
  lemma OwnersInInterleavings(c: Config, run: seq<Action>)
    requires Initial(c) && IsRun(c, run) && PoliteRun(c, run) && Last(c, run).lock.None?
    ensures var e := Last(c, run);
            Shaped(e.dev.ring) && SoleOwners(e.dev, |Packets(Chunks(WritesOf(e.log)))|)
  {
    Serialisable(c, run);
    NothingLost(c, run);
    var e := Last(c, run);
    OwnedMeansSoleOwners(e.dev);
    SerialRunIsHistory(c.start, e.log);
    HistoryIsView(Chunks(WritesOf(e.log)));
  }
}
