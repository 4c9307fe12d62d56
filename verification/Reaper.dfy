/** The main thread's bookkeeping of its workers: each worker raises its flag once
    and exits; main walks the list after every accepted connection, joins whoever
    has the flag up, and lowers every flag it passes. */
module Reaper {

  /** A worker that served a seek command exits without raising its flag. */
  datatype Worker = Running | Flagged | Exited(raised: bool)

  /** Where main is: `Polling` is its look at the signal, `Accepting` the call that
      follows it; `Clearing` remembers whether the entry was joined just before. */
  datatype Main =
    | Polling
    | Accepting
    | Testing(i: nat)
    | Joining(i: nat)
    | Clearing(i: nat, joined: bool)
    | ShutTesting(i: nat)
    | ShutJoining(i: nat)
    | Finished
    | Aborted

  /** One list entry: the worker, its `thread_complete` flag, and how often main has
      joined it. */
  datatype Entry = Entry(worker: Worker, flag: bool, joins: nat)

  datatype State = State(list: seq<Entry>, main: Main, signalled: bool)

  /** `Retry`: nobody was waiting to be accepted.  `Abort`: accepting failed. */
  datatype Action =
    | Signal
    | Poll
    | Accept
    | Retry
    | Abort
    | Test
    | Join
    | Clear
    | ShutTest
    | ShutJoin
    | RaiseFlag(w: nat)
    | Exit(w: nat)
    | ExitAfterSeek(w: nat)

  const START: State := State([], Polling, false)

  predicate Enabled(s: State, a: Action) {
    match a
    case Signal => true
    case Poll => s.main.Polling?
    case Accept => s.main.Accepting?
    case Retry => s.main.Accepting?
    case Abort => s.main.Accepting?
    case Test => s.main.Testing? && s.main.i <= |s.list|
    case Join => s.main.Joining? && s.main.i < |s.list| && s.list[s.main.i].worker.Exited?
    case Clear => s.main.Clearing? && s.main.i < |s.list|
    case ShutTest => s.main.ShutTesting? && s.main.i <= |s.list|
    case ShutJoin => s.main.ShutJoining? && s.main.i < |s.list| && s.list[s.main.i].worker.Exited?
    case RaiseFlag(w) => w < |s.list| && s.list[w].worker.Running?
    case Exit(w) => w < |s.list| && s.list[w].worker.Flagged?
    case ExitAfterSeek(w) => w < |s.list| && s.list[w].worker.Running?
  }

  function Joined(s: State, i: nat): seq<Entry>
    requires i < |s.list|
  {
    s.list[i := s.list[i].(joins := s.list[i].joins + 1)]
  }

  function Take(s: State, a: Action): State
    requires Enabled(s, a)
  {
    match a
    case Signal => s.(signalled := true)
    case Poll => s.(main := if s.signalled then ShutTesting(0) else Accepting)
    case Accept => s.(list := s.list + [Entry(Running, false, 0)], main := Testing(0))
    case Retry => s.(main := Polling)
    case Abort => s.(main := Aborted)
    case Test =>
      var i := s.main.i;
      s.(main := if i == |s.list| then Polling else if s.list[i].flag then Joining(i) else Clearing(i, false))
    case Join => s.(main := Clearing(s.main.i, true), list := Joined(s, s.main.i))
    case Clear =>
      var i := s.main.i;
      s.(main := Testing(i + 1), list := s.list[i := s.list[i].(flag := false)])
    case ShutTest =>
      var i := s.main.i;
      s.(main := if i == |s.list| then Finished else if s.list[i].flag then ShutJoining(i) else ShutTesting(i + 1))
    case ShutJoin => s.(main := ShutTesting(s.main.i + 1), list := Joined(s, s.main.i))
    case RaiseFlag(w) => s.(list := s.list[w := s.list[w].(worker := Flagged, flag := true)])
    case Exit(w) => s.(list := s.list[w := s.list[w].(worker := Exited(true))])
    case ExitAfterSeek(w) => s.(list := s.list[w := s.list[w].(worker := Exited(false))])
  }

  // ----- Runs

  predicate IsRun(run: seq<Action>)
    decreases |run|, 0
  {
    run == [] || (IsRun(run[..|run| - 1]) && Enabled(End(run[..|run| - 1]), run[|run| - 1]))
  }

  /** Where a run from the start ends. */
  function End(run: seq<Action>): State
    requires IsRun(run)
    decreases |run|, 1
  {
    if run == [] then START else Take(End(run[..|run| - 1]), run[|run| - 1])
  }

  /** The state before step `n` of a run. */
  function Before(run: seq<Action>, n: nat): State
    requires IsRun(run) && n <= |run|
  {
    PrefixIsRun(run, n);
    End(run[..n])
  }

  lemma {:induction false} PrefixIsRun(run: seq<Action>, n: nat)
    requires IsRun(run) && n <= |run|
    ensures IsRun(run[..n])
  {
    if n < |run| {
      PrefixIsRun(run[..|run| - 1], n);
      assert run[..|run| - 1][..n] == run[..n];
    } else {
      assert run[..n] == run;
    }
  }

  lemma OneStep(run: seq<Action>, n: nat)
    requires IsRun(run) && n < |run|
    ensures Enabled(Before(run, n), run[n])
    ensures Before(run, n + 1) == Take(Before(run, n), run[n])
  {
    PrefixIsRun(run, n + 1);
    assert run[..n + 1][..n] == run[..n];
  }

  lemma BeforeAll(run: seq<Action>)
    requires IsRun(run)
    ensures Before(run, |run|) == End(run)
  {
    assert run[..|run|] == run;
  }

  // ----- What every step keeps

  /** Main has joined entry `k` and will not look at its flag again before it is
      lowered, or ever. */
  predicate Behind(main: Main, k: nat) {
    match main
    case Clearing(i, joined) => i == k && joined
    case ShutTesting(i) => k < i
    case ShutJoining(i) => k < i
    case Finished => true
    case _ => false
  }

  /** A worker that never raised its flag has not been joined; one that did has been
      joined at most once, after it exited, and if its flag is still up then main
      will not look at it again. */
  predicate EntryOk(main: Main, e: Entry, k: nat) {
    if e.worker.Running? || e.worker == Exited(false) then
      !e.flag && e.joins == 0
    else
      e.joins == 0 || (e.worker == Exited(true) && e.joins == 1 && (e.flag ==> Behind(main, k)))
  }

  /** What main knows about the entry it is dealing with. */
  predicate MainOk(s: State) {
    match s.main
    case Testing(i) => i <= |s.list|
    case ShutTesting(i) => i <= |s.list|
    case Joining(i) => i < |s.list| && s.list[i].flag && s.list[i].joins == 0
    case ShutJoining(i) => i < |s.list| && s.list[i].flag && s.list[i].joins == 0
    case Clearing(i, joined) => i < |s.list| && (joined <==> s.list[i].joins == 1 && s.list[i].flag)
    case _ => true
  }

  ghost predicate Inv(s: State) {
    && MainOk(s)
    && forall k :: 0 <= k < |s.list| ==> EntryOk(s.main, s.list[k], k)
  }

  lemma StepKeepsInv(s: State, a: Action)
    requires Inv(s) && Enabled(s, a)
    ensures Inv(Take(s, a))
  {
    var s' := Take(s, a);
    forall k | 0 <= k < |s'.list| ensures EntryOk(s'.main, s'.list[k], k) {
      if k < |s.list| {
        assert EntryOk(s.main, s.list[k], k);
      }
    }
  }

  lemma {:induction false} RunKeepsInv(run: seq<Action>)
    requires IsRun(run)
    ensures Inv(End(run))
  {
    if run != [] {
      RunKeepsInv(run[..|run| - 1]);
      StepKeepsInv(End(run[..|run| - 1]), run[|run| - 1]);
    }
  }

  /** In every interleaving of main with any number of workers, shutdown included, no
      worker is joined twice, and only workers that raised their flag and exited are
      joined. */
  lemma JoinedAtMostOnce(run: seq<Action>, k: nat)
    requires IsRun(run) && k < |End(run).list|
    ensures End(run).list[k].joins <= 1
    ensures End(run).list[k].joins == 1 ==> End(run).list[k].worker == Exited(true)
  {
    RunKeepsInv(run);
    assert EntryOk(End(run).main, End(run).list[k], k);
  }

  // ----- Lost completions

  predicate MainStep(a: Action) {
    !(a.Signal? || a.RaiseFlag? || a.Exit? || a.ExitAfterSeek?)
  }

  predicate Raised(e: Entry) {
    e.worker.Flagged? || e.worker == Exited(true)
  }

  /** Main's test at step `i` finds the flag of entry `k` down, the worker raises it at
      step `j`, and main's next step, `l`, lowers it. */
  ghost predicate LostAt(run: seq<Action>, k: nat, i: nat, j: nat, l: nat)
    requires IsRun(run)
  {
    && i < j < l < |run|
    && run[i] == Test && Before(run, i).main == Testing(k)
    && k < |Before(run, i).list| && !Before(run, i).list[k].flag
    && run[j] == RaiseFlag(k)
    && run[l] == Clear
    && forall m :: i < m < l ==> !MainStep(run[m])
  }

  ghost predicate Lost(run: seq<Action>, k: nat)
    requires IsRun(run)
  {
    exists i: nat, j: nat, l: nat :: LostAt(run, k, i, j, l)
  }

  lemma BeforePrefix(run: seq<Action>, n: nat, m: nat)
    requires IsRun(run) && m <= n <= |run|
    ensures IsRun(run[..n]) && Before(run[..n], m) == Before(run, m)
  {
    PrefixIsRun(run, n);
    assert run[..n][..m] == run[..m];
  }

  lemma LostStays(run: seq<Action>, n: nat, k: nat, i: nat, j: nat, l: nat)
    requires IsRun(run) && n <= |run| && IsRun(run[..n]) && LostAt(run[..n], k, i, j, l)
    ensures LostAt(run, k, i, j, l)
  {
    BeforePrefix(run, n, i);
    forall m | i < m < l ensures !MainStep(run[m]) {
      assert run[..n][m] == run[m];
    }
  }

  lemma ToClearing(s: State, a: Action, k: nat)
    requires Inv(s) && Enabled(s, a) && Take(s, a).main == Clearing(k, false)
    ensures MainStep(a) ==> a == Test && s.main == Testing(k) && k < |s.list| && !s.list[k].flag
    ensures !MainStep(a) ==> s.main == Clearing(k, false)
  {
  }

  lemma FlagStep(s: State, a: Action, k: nat)
    requires Enabled(s, a) && k < |s.list| && !s.list[k].flag && a != RaiseFlag(k)
    ensures k < |Take(s, a).list| && !Take(s, a).list[k].flag
  {
  }

  lemma ListGrows(s: State, a: Action)
    requires Enabled(s, a)
    ensures |s.list| <= |Take(s, a).list|
  {
  }

  lemma BeforeKeepsInv(run: seq<Action>, n: nat)
    requires IsRun(run) && n <= |run|
    ensures Inv(Before(run, n))
  {
    PrefixIsRun(run, n);
    RunKeepsInv(run[..n]);
  }

  lemma StepToClearing(run: seq<Action>, n: nat, k: nat)
    requires IsRun(run) && n <= |run| && Before(run, n).main == Clearing(k, false)
    ensures n > 0
    ensures var s, a := Before(run, n - 1), run[n - 1];
            && (MainStep(a) ==> a == Test && s.main == Testing(k) && k < |s.list| && !s.list[k].flag)
            && (!MainStep(a) ==> s.main == Clearing(k, false))
  {
    OneStep(run, n - 1);
    BeforeKeepsInv(run, n - 1);
    ToClearing(Before(run, n - 1), run[n - 1], k);
  }

  /** While main is about to lower a flag it has not joined for, its last step was the
      test of that entry, which found the flag down. */
  lemma {:induction false} SinceTest(run: seq<Action>, n: nat, k: nat) returns (i: nat)
    requires IsRun(run) && n <= |run| && Before(run, n).main == Clearing(k, false)
    ensures i < n && run[i] == Test && Before(run, i).main == Testing(k)
    ensures k < |Before(run, i).list| && !Before(run, i).list[k].flag
    ensures forall m :: i < m < n ==> !MainStep(run[m])
    decreases n
  {
    StepToClearing(run, n, k);
    i := n - 1;
    if !MainStep(run[i]) {
      i := SinceTest(run, n - 1, k);
    }
  }

  /** A flag that was down and is up has been raised in between. */
  lemma {:induction false} RaisedSince(run: seq<Action>, i: nat, n: nat, k: nat) returns (j: nat)
    requires IsRun(run) && i <= n <= |run| && k < |Before(run, i).list| && !Before(run, i).list[k].flag
    requires k < |Before(run, n).list| && Before(run, n).list[k].flag
    ensures i <= j < n && run[j] == RaiseFlag(k)
    decreases n
  {
    OneStep(run, n - 1);
    GrowsOnly(run, i, n - 1);
    if run[n - 1] == RaiseFlag(k) {
      j := n - 1;
    } else {
      if !Before(run, n - 1).list[k].flag {
        FlagStep(Before(run, n - 1), run[n - 1], k);
      }
      j := RaisedSince(run, i, n - 1, k);
    }
  }

  lemma {:induction false} GrowsOnly(run: seq<Action>, i: nat, n: nat)
    requires IsRun(run) && i <= n <= |run|
    ensures |Before(run, i).list| <= |Before(run, n).list|
  {
    if i < n {
      GrowsOnly(run, i, n - 1);
      OneStep(run, n - 1);
      ListGrows(Before(run, n - 1), run[n - 1]);
    }
  }

  /** Worker `k` has raised its flag, the flag is down, and nobody has joined it. */
  predicate Forsaken(s: State, k: nat) {
    k < |s.list| && Raised(s.list[k]) && s.list[k].joins == 0 && !s.list[k].flag
  }

  /** Only main's store makes a worker forsaken. */
  lemma Lowering(p: State, a: Action, k: nat)
    requires Inv(p) && Enabled(p, a) && Forsaken(Take(p, a), k)
    ensures k < |p.list|
    ensures Forsaken(p, k) || (a == Clear && p.main == Clearing(k, false) && p.list[k].flag)
  {
    assert EntryOk(p.main, p.list[k], k);
  }

  /** A flag that is down although its worker raised it and was not joined has been
      lost. */
  lemma {:induction false} UnjoinedIsLost(run: seq<Action>, k: nat) returns (i: nat, j: nat, l: nat)
    requires IsRun(run) && Forsaken(End(run), k)
    ensures LostAt(run, k, i, j, l)
    decreases |run|
  {
    var n := |run| - 1;
    var p, a := End(run[..n]), run[n];
    RunKeepsInv(run[..n]);
    Lowering(p, a, k);
    if Forsaken(p, k) {
      i, j, l := UnjoinedIsLost(run[..n], k);
      LostStays(run, n, k, i, j, l);
    } else {
      BeforeAll(run[..n]);
      i := SinceTest(run[..n], n, k);
      j := RaisedSince(run[..n], i, n, k);
      l := n;
      LostStarts(run, k, i, j);
    }
  }

  lemma LostStarts(run: seq<Action>, k: nat, i: nat, j: nat)
    requires IsRun(run) && |run| > 0 && run[|run| - 1] == Clear
    requires var r := run[..|run| - 1];
             && i <= j < |r| && r[i] == Test && r[j] == RaiseFlag(k)
             && Before(r, i).main == Testing(k) && k < |Before(r, i).list| && !Before(r, i).list[k].flag
             && forall m :: i < m < |r| ==> !MainStep(r[m])
    ensures LostAt(run, k, i, j, |run| - 1)
  {
    var n := |run| - 1;
    BeforePrefix(run, n, i);
    forall m | i < m < n ensures !MainStep(run[m]) {
      assert run[..n][m] == run[m];
    }
  }

  lemma ForsakenStays(s: State, a: Action, k: nat)
    requires Inv(s) && Enabled(s, a) && Forsaken(s, k)
    ensures Forsaken(Take(s, a), k)
  {
    assert EntryOk(s.main, s.list[k], k);
  }

  lemma {:induction false} ForsakenForGood(run: seq<Action>, n: nat, k: nat)
    requires IsRun(run) && n <= |run| && Forsaken(Before(run, n), k)
    ensures Forsaken(End(run), k)
    decreases |run| - n
  {
    if n == |run| {
      BeforeAll(run);
    } else {
      OneStep(run, n);
      PrefixIsRun(run, n);
      RunKeepsInv(run[..n]);
      ForsakenStays(Before(run, n), run[n], k);
      ForsakenForGood(run, n + 1, k);
    }
  }

  /** Between the test and the store main stays where it is. */
  lemma {:induction false} MainWaits(run: seq<Action>, k: nat, i: nat, m: nat, l: nat)
    requires IsRun(run) && i < m <= l <= |run| && run[i] == Test && Before(run, i).main == Testing(k)
    requires k < |Before(run, i).list| && !Before(run, i).list[k].flag
    requires forall x :: i < x < l ==> !MainStep(run[x])
    ensures Before(run, m).main == Clearing(k, false)
  {
    OneStep(run, m - 1);
    if i < m - 1 {
      MainWaits(run, k, i, m - 1, l);
    }
  }

  /** A raised flag stays up, and its worker unjoined, while main does nothing. */
  lemma {:induction false} FlagWaits(run: seq<Action>, k: nat, j: nat, m: nat)
    requires IsRun(run) && j < m <= |run| && run[j] == RaiseFlag(k)
    requires forall x :: j < x < m ==> !MainStep(run[x])
    ensures k < |Before(run, m).list|
    ensures var e := Before(run, m).list[k]; Raised(e) && e.flag && e.joins == 0
  {
    OneStep(run, m - 1);
    if j < m - 1 {
      FlagWaits(run, k, j, m - 1);
    } else {
      PrefixIsRun(run, j);
      RunKeepsInv(run[..j]);
      assert EntryOk(Before(run, j).main, Before(run, j).list[k], k);
    }
  }

  lemma LostIsForsaken(run: seq<Action>, k: nat, i: nat, j: nat, l: nat)
    requires IsRun(run) && LostAt(run, k, i, j, l)
    ensures Forsaken(End(run), k)
  {
    MainWaits(run, k, i, l, l);
    FlagWaits(run, k, j, l);
    OneStep(run, l);
    ForsakenForGood(run, l + 1, k);
  }

  /** In every interleaving, a worker that has raised its flag has it down again and is
      unjoined exactly if it raised it between main's test of its entry, which found
      the flag down, and main's store to it, the very next step of main. */
  lemma LostIff(run: seq<Action>, k: nat)
    requires IsRun(run) && k < |End(run).list|
    ensures Forsaken(End(run), k) <==> Lost(run, k)
  {
    if Forsaken(End(run), k) {
      var i, j, l := UnjoinedIsLost(run, k);
    }
    if Lost(run, k) {
      var i: nat, j: nat, l: nat :| LostAt(run, k, i, j, l);
      LostIsForsaken(run, k, i, j, l);
    }
  }

  /** Such a worker is never joined, however main goes on. */
  lemma LostIsNeverJoined(run: seq<Action>, n: nat, k: nat)
    requires IsRun(run) && n <= |run| && IsRun(run[..n]) && Lost(run[..n], k)
    ensures k < |End(run).list| && End(run).list[k].joins == 0
  {
    var i: nat, j: nat, l: nat :| LostAt(run[..n], k, i, j, l);
    LostStays(run, n, k, i, j, l);
    LostIsForsaken(run, k, i, j, l);
  }

  // ----- The fate of every worker at shutdown

  /** Worker `k` raises its flag before main's last look at it. */
  ghost predicate InTime(run: seq<Action>, k: nat)
    requires IsRun(run)
  {
    exists j: nat, m: nat :: InTimeAt(run, k, j, m)
  }

  ghost predicate InTimeAt(run: seq<Action>, k: nat, j: nat, m: nat)
    requires IsRun(run)
  {
    j < m < |run| && run[j] == RaiseFlag(k) && LastLook(run, k, m)
  }

  ghost predicate LastLook(run: seq<Action>, k: nat, m: nat)
    requires IsRun(run)
  {
    m < |run| && run[m] == ShutTest && Before(run, m).main == ShutTesting(k) && k < |Before(run, m).list|
  }

  predicate PastInShutdown(main: Main, k: nat) {
    match main
    case ShutTesting(i) => k < i
    case ShutJoining(i) => k < i
    case Finished => true
    case _ => false
  }

  lemma LastLookStays(run: seq<Action>, n: nat, k: nat, m: nat)
    requires IsRun(run) && n <= |run| && IsRun(run[..n]) && LastLook(run[..n], k, m)
    ensures LastLook(run, k, m) && Before(run[..n], m) == Before(run, m)
  {
    BeforePrefix(run, n, m);
  }

  lemma {:induction false} SinceLastLook(run: seq<Action>, k: nat) returns (m: nat)
    requires IsRun(run) && End(run).main == ShutJoining(k)
    ensures LastLook(run, k, m) && Before(run, m).list[k].flag
    decreases |run|
  {
    var n := |run| - 1;
    BeforeAll(run[..n]);
    BeforePrefix(run, n, n);
    if MainStep(run[n]) {
      m := n;
    } else {
      m := SinceLastLook(run[..n], k);
      LastLookStays(run, n, k, m);
    }
  }

  lemma PastStep(p: State, a: Action, k: nat)
    requires Inv(p) && Enabled(p, a) && k < |p.list| && PastInShutdown(Take(p, a).main, k)
    ensures PastInShutdown(p.main, k) ==> Take(p, a).list[k].joins == p.list[k].joins
    ensures !PastInShutdown(p.main, k) ==>
              || (p.main == ShutTesting(k) && a == ShutTest && !p.list[k].flag &&
                  Take(p, a).list[k].joins == p.list[k].joins)
              || (p.main == ShutJoining(k) && Take(p, a).list[k].joins == 1)
  {
  }

  /** Past its last look at an entry, main has joined it exactly if it had before or
      found the flag up. */
  lemma {:induction false} AfterLastLook(run: seq<Action>, k: nat) returns (m: nat)
    requires IsRun(run) && k < |End(run).list| && PastInShutdown(End(run).main, k)
    ensures LastLook(run, k, m)
    ensures End(run).list[k].joins == 1 <==>
            Before(run, m).list[k].flag || Before(run, m).list[k].joins == 1
    decreases |run|
  {
    var n := |run| - 1;
    var p := End(run[..n]);
    RunKeepsInv(run[..n]);
    BeforeAll(run[..n]);
    BeforePrefix(run, n, n);
    PastStep(p, run[n], k);
    if PastInShutdown(p.main, k) {
      m := AfterLastLook(run[..n], k);
      LastLookStays(run, n, k, m);
    } else if p.main == ShutTesting(k) {
      m := n;
    } else {
      m := SinceLastLook(run[..n], k);
      LastLookStays(run, n, k, m);
    }
  }

  /** A worker that has raised its flag did so at some step. */
  lemma {:induction false} RaisedAt(run: seq<Action>, k: nat) returns (j: nat)
    requires IsRun(run) && k < |End(run).list| && Raised(End(run).list[k])
    ensures j < |run| && run[j] == RaiseFlag(k)
    decreases |run|
  {
    var n := |run| - 1;
    if run[n] == RaiseFlag(k) {
      j := n;
    } else {
      j := RaisedAt(run[..n], k);
    }
  }

  lemma RaisedStep(s: State, a: Action, k: nat)
    requires Enabled(s, a) && k < |s.list| && Raised(s.list[k])
    ensures k < |Take(s, a).list| && Raised(Take(s, a).list[k])
  {
  }

  lemma {:induction false} RaisedStays(run: seq<Action>, k: nat, j: nat, m: nat)
    requires IsRun(run) && j < m <= |run| && run[j] == RaiseFlag(k)
    ensures k < |Before(run, m).list| && Raised(Before(run, m).list[k])
  {
    OneStep(run, m - 1);
    if j < m - 1 {
      RaisedStays(run, k, j, m - 1);
      RaisedStep(Before(run, m - 1), run[m - 1], k);
    }
  }

  /** There is one last look. */
  lemma LastLookOnce(run: seq<Action>, k: nat, m: nat, n: nat)
    requires IsRun(run) && LastLook(run, k, m) && m < n < |run|
    ensures !LastLook(run, k, n)
  {
    OneStep(run, m);
    LooksOn(run, k, m + 1, n);
  }

  lemma {:induction false} LooksOn(run: seq<Action>, k: nat, m: nat, n: nat)
    requires IsRun(run) && m <= n <= |run|
    requires PastInShutdown(Before(run, m).main, k) || Before(run, m).main == ShutJoining(k)
    ensures PastInShutdown(Before(run, n).main, k) || Before(run, n).main == ShutJoining(k)
  {
    if m < n {
      LooksOn(run, k, m, n - 1);
      OneStep(run, n - 1);
    }
  }

  /** The fate of every worker: when main has finished, a worker has been joined, and
      joined once, exactly if it raised its flag before main's last look at it and did
      not lose it. */
  lemma JoinedIff(run: seq<Action>, k: nat)
    requires IsRun(run) && End(run).main == Finished && k < |End(run).list|
    ensures End(run).list[k].joins == if InTime(run, k) && !Lost(run, k) then 1 else 0
  {
    JoinedAtMostOnce(run, k);
    var m := AfterLastLook(run, k);
    PrefixIsRun(run, m);
    RunKeepsInv(run[..m]);
    var e := Before(run, m).list[k];
    assert EntryOk(Before(run, m).main, e, k);
    if End(run).list[k].joins == 1 {
      var j := RaisedAt(run[..m], k);
      assert InTimeAt(run, k, j, m);
      LostIff(run, k);
    } else if InTime(run, k) {
      var j: nat, m': nat :| InTimeAt(run, k, j, m');
      if m < m' {
        LastLookOnce(run, k, m, m');
      } else if m' < m {
        LastLookOnce(run, k, m', m);
      }
      RaisedStays(run, k, j, m);
      var i, j', l := UnjoinedIsLost(run[..m], k);
      LostStays(run, m, k, i, j', l);
    }
  }

  // ----- Main's pass over the list

  /** Main looks at the flag of entry `k` in its pass over the list. */
  ghost predicate TestAt(run: seq<Action>, k: nat, m: nat)
    requires IsRun(run)
  {
    m < |run| && run[m] == Test && Before(run, m).main == Testing(k) && k < |Before(run, m).list|
  }

  /** What comes of an entry whose flag main found up: main is about to join it, or has
      joined it and is about to lower the flag, or has done both. */
  predicate Reaping(s: State, k: nat) {
    k < |s.list| &&
    match s.main
    case Joining(i) => if i == k then s.list[k].joins == 0 && s.list[k].flag else Reaped(s.list[k])
    case Clearing(i, joined) => if i == k && joined then s.list[k].joins == 1 else Reaped(s.list[k])
    case _ => Reaped(s.list[k])
  }

  predicate Reaped(e: Entry) {
    e.joins == 1 && !e.flag && e.worker == Exited(true)
  }

  lemma ReapingStep(s: State, a: Action, k: nat)
    requires Inv(s) && Enabled(s, a) && Reaping(s, k)
    ensures Reaping(Take(s, a), k)
  {
    assert EntryOk(s.main, s.list[k], k);
  }

  lemma FlagUpStep(s: State, k: nat)
    requires Inv(s) && s.main == Testing(k) && k < |s.list| && s.list[k].flag
    ensures Enabled(s, Test) && Take(s, Test).main == Joining(k) && Reaping(Take(s, Test), k)
  {
    assert EntryOk(s.main, s.list[k], k);
  }

  lemma JoiningStep(s: State, a: Action, k: nat)
    requires Enabled(s, a) && s.main == Joining(k)
    ensures if MainStep(a) then a == Join else Take(s, a).main == Joining(k)
  {
  }

  /** In every run, from when main finds a flag up in its pass the worker is being
      joined, and once main has gone on to the next entry it is joined, once, and its
      flag down. */
  lemma {:induction false} FlagUpIsReaped(run: seq<Action>, k: nat, m: nat, n: nat)
    requires IsRun(run) && TestAt(run, k, m) && Before(run, m).list[k].flag && m < n <= |run|
    ensures Reaping(Before(run, n), k)
    decreases n
  {
    BeforeKeepsInv(run, n - 1);
    OneStep(run, n - 1);
    if n - 1 == m {
      FlagUpStep(Before(run, m), k);
    } else {
      FlagUpIsReaped(run, k, m, n - 1);
      ReapingStep(Before(run, n - 1), run[n - 1], k);
    }
  }

  lemma {:induction false} JoiningWaits(run: seq<Action>, k: nat, m: nat, n: nat)
    requires IsRun(run) && TestAt(run, k, m) && Before(run, m).list[k].flag && m < n <= |run|
    requires forall p :: m < p < n ==> !MainStep(run[p])
    ensures Before(run, n).main == Joining(k)
    decreases n
  {
    OneStep(run, n - 1);
    if n - 1 == m {
      BeforeKeepsInv(run, m);
      FlagUpStep(Before(run, m), k);
    } else {
      JoiningWaits(run, k, m, n - 1);
      JoiningStep(Before(run, n - 1), run[n - 1], k);
    }
  }

  /** And main's next step is the join of that worker. */
  lemma FlagUpIsJoined(run: seq<Action>, k: nat, m: nat, n: nat)
    requires IsRun(run) && TestAt(run, k, m) && Before(run, m).list[k].flag && m < n < |run|
    requires MainStep(run[n]) && forall p :: m < p < n ==> !MainStep(run[p])
    ensures Before(run, n).main == Joining(k) && run[n] == Join
  {
    JoiningWaits(run, k, m, n);
    OneStep(run, n);
    JoiningStep(Before(run, n), run[n], k);
  }

  /** From the step after `i`, an accept, up to `n` main accepts nobody else. */
  ghost predicate PassSince(run: seq<Action>, i: nat, n: nat) {
    i < n <= |run| && run[i] == Accept && forall p :: i < p < n ==> run[p] != Accept
  }

  /** Main has looked at entry `k` since it began its pass. */
  predicate LookedAt(main: Main, k: nat) {
    match main
    case Testing(i) => k < i
    case Joining(i) => k <= i
    case Clearing(i, _) => k <= i
    case _ => true
  }

  lemma LookedAtStep(s: State, a: Action, k: nat)
    requires Enabled(s, a) && a != Accept && k < |Take(s, a).list| && LookedAt(Take(s, a).main, k)
    ensures k < |s.list|
    ensures LookedAt(s.main, k) || (a == Test && s.main == Testing(k))
  {
  }

  /** A pass looks at every entry of the list. */
  lemma {:induction false} PassLooksAt(run: seq<Action>, i: nat, n: nat, k: nat) returns (m: nat)
    requires IsRun(run) && PassSince(run, i, n)
    requires k < |Before(run, n).list| && LookedAt(Before(run, n).main, k)
    ensures i < m < n && TestAt(run, k, m)
    decreases n
  {
    OneStep(run, n - 1);
    LookedAtStep(Before(run, n - 1), run[n - 1], k);
    if LookedAt(Before(run, n - 1).main, k) {
      m := PassLooksAt(run, i, n - 1, k);
    } else {
      m := n - 1;
    }
  }

  lemma {:induction false} JoinsStay(run: seq<Action>, k: nat, m: nat, n: nat)
    requires IsRun(run) && m <= n <= |run| && k < |Before(run, m).list|
    ensures k < |Before(run, n).list| && Before(run, m).list[k].joins <= Before(run, n).list[k].joins
    decreases n
  {
    if m < n {
      JoinsStay(run, k, m, n - 1);
      OneStep(run, n - 1);
    }
  }

  /** A worker that main tests before it has raised its flag is not joined in that
      pass. */
  predicate Spared(main: Main, k: nat) {
    match main
    case Testing(i) => k < i
    case Joining(i) => k < i
    case Clearing(i, joined) => k < i || (k == i && !joined)
    case Polling => true
    case _ => false
  }

  lemma SparedStep(s: State, a: Action, k: nat)
    requires Inv(s) && Enabled(s, a) && k < |s.list| && Spared(s.main, k) && s.list[k].joins == 0
    ensures Take(s, a).list[k].joins == 0
    ensures Spared(Take(s, a).main, k) || a == Poll
  {
  }

  lemma {:induction false} SparedToTheEnd(run: seq<Action>, k: nat, m: nat, n: nat)
    requires IsRun(run) && m <= n <= |run| && k < |Before(run, m).list|
    requires Spared(Before(run, m).main, k) && Before(run, m).list[k].joins == 0
    requires forall p :: m <= p < n ==> run[p] != Poll
    ensures k < |Before(run, n).list| && Before(run, n).list[k].joins == 0 && Spared(Before(run, n).main, k)
    decreases n
  {
    if m < n {
      SparedToTheEnd(run, k, m, n - 1);
      BeforeKeepsInv(run, n - 1);
      OneStep(run, n - 1);
      ListGrows(Before(run, n - 1), run[n - 1]);
      SparedStep(Before(run, n - 1), run[n - 1], k);
    }
  }

  ghost predicate RaisedBefore(run: seq<Action>, k: nat, m: nat) {
    exists j :: 0 <= j < m && j < |run| && run[j] == RaiseFlag(k)
  }

  /** Whoever raised the flag before main's look is joined at the end of the pass, or has
      been lost. */
  lemma RaisedIsJoined(run: seq<Action>, k: nat, m: nat, n: nat)
    requires IsRun(run) && TestAt(run, k, m) && m < n <= |run| && Before(run, n).main == Polling
    requires RaisedBefore(run, k, m)
    ensures k < |Before(run, n).list|
    ensures IsRun(run[..n]) && (Before(run, n).list[k].joins == 1 || Lost(run[..n], k))
  {
    var j :| 0 <= j < m && j < |run| && run[j] == RaiseFlag(k);
    var e := Before(run, m).list[k];
    PrefixIsRun(run, n);
    JoinsStay(run, k, m, n);
    BeforeKeepsInv(run, m);
    BeforeKeepsInv(run, n);
    assert EntryOk(Before(run, m).main, e, k);
    assert EntryOk(Before(run, n).main, Before(run, n).list[k], k);
    RaisedStays(run, k, j, m);
    if e.flag {
      FlagUpIsReaped(run, k, m, n);
    } else if e.joins == 0 {
      ForsakenIsLost(run, k, m, n);
    }
  }

  lemma ForsakenIsLost(run: seq<Action>, k: nat, m: nat, n: nat)
    requires IsRun(run) && m <= n <= |run| && Forsaken(Before(run, m), k)
    ensures IsRun(run[..n]) && Lost(run[..n], k)
  {
    PrefixIsRun(run, m);
    PrefixIsRun(run, n);
    var i, j, l := UnjoinedIsLost(run[..m], k);
    assert run[..n][..m] == run[..m];
    LostStays(run[..n], m, k, i, j, l);
  }

  /** The fate of every worker at the end of main's pass: in every run, between accepting
      a connection and looking at the signal again main looks at every entry, and then a
      worker has been joined, and joined once, exactly if it raised its flag before that
      look and did not lose it. */
  lemma PassJoinsIff(run: seq<Action>, i: nat, n: nat, k: nat) returns (m: nat)
    requires IsRun(run) && PassSince(run, i, n) && Before(run, n).main == Polling
    requires (forall p :: i < p < n ==> run[p] != Poll) && k < |Before(run, n).list|
    ensures i < m < n && TestAt(run, k, m) && IsRun(run[..n])
    ensures Before(run, n).list[k].joins == if RaisedBefore(run, k, m) && !Lost(run[..n], k) then 1 else 0
  {
    PrefixIsRun(run, n);
    m := PassLooksAt(run, i, n, k);
    BeforeKeepsInv(run, m);
    BeforeKeepsInv(run, n);
    assert EntryOk(Before(run, n).main, Before(run, n).list[k], k);
    if RaisedBefore(run, k, m) {
      RaisedIsJoined(run, k, m, n);
      if Lost(run[..n], k) {
        BeforeAll(run[..n]);
        LostIff(run[..n], k);
      }
    } else {
      NotYetRaised(run, k, m);
      OneStep(run, m);
      SparedToTheEnd(run, k, m + 1, n);
    }
  }

  /** A worker that has not raised its flag has it down and is unjoined. */
  lemma NotYetRaised(run: seq<Action>, k: nat, m: nat)
    requires IsRun(run) && m <= |run| && k < |Before(run, m).list| && !RaisedBefore(run, k, m)
    ensures !Before(run, m).list[k].flag && Before(run, m).list[k].joins == 0
  {
    BeforeKeepsInv(run, m);
    var e := Before(run, m).list[k];
    assert EntryOk(Before(run, m).main, e, k);
    if Raised(e) {
      PrefixIsRun(run, m);
      var j := RaisedAt(run[..m], k);
    }
  }

  // ----- Main can finish

  function Distance(s: State): nat
    requires MainOk(s)
  {
    var n := |s.list|;
    match s.main
    case Finished => 0
    case Aborted => 0
    case ShutTesting(i) => 3 * (n - i) + 1
    case ShutJoining(i) => 3 * (n - i) - if s.list[i].worker.Exited? then 1 else 0
    case Polling => 3 * n + 2
    case Accepting => 3 * n + 3
    case Testing(i) => 3 * n + 3 + 5 * (n - i)
    case Joining(i) => 3 * n + 1 + 5 * (n - i) - if s.list[i].worker.Exited? then 1 else 0
    case Clearing(i, _) => 3 * n - 1 + 5 * (n - i)
  }

  /** A signalled main that has not ended has a step, its own or that of the worker it is
      waiting for, that brings it closer to its end. */
  lemma Onward(s: State) returns (a: Action)
    requires Inv(s) && s.signalled && !s.main.Finished? && !s.main.Aborted?
    ensures Enabled(s, a) && Inv(Take(s, a)) && Take(s, a).signalled && !Take(s, a).main.Aborted?
    ensures Distance(Take(s, a)) < Distance(s)
  {
    match s.main {
      case Polling => a := Poll;
      case Accepting => a := Retry;
      case Testing(_) => a := Test;
      case Clearing(_, _) => a := Clear;
      case ShutTesting(_) => a := ShutTest;
      case Joining(i) =>
        assert EntryOk(s.main, s.list[i], i);
        a := if s.list[i].worker.Exited? then Join else Exit(i);
      case ShutJoining(i) =>
        assert EntryOk(s.main, s.list[i], i);
        a := if s.list[i].worker.Exited? then ShutJoin else Exit(i);
    }
    StepKeepsInv(s, a);
  }

  lemma {:induction false} SignalledCanFinish(run: seq<Action>) returns (run': seq<Action>)
    requires IsRun(run) && Inv(End(run)) && End(run).signalled && !End(run).main.Aborted?
    ensures run <= run' && IsRun(run') && End(run').main == Finished
    decreases Distance(End(run))
  {
    if End(run).main.Finished? {
      run' := run;
    } else {
      var a := Onward(End(run));
      var next := Extend(run, a);
      run' := SignalledCanFinish(next);
    }
  }

  /** Every run in which main has not given up can be continued to one in which it has
      finished. */
  lemma MainCanFinish(run: seq<Action>) returns (run': seq<Action>)
    requires IsRun(run) && !End(run).main.Aborted?
    ensures run <= run' && IsRun(run') && End(run').main == Finished
  {
    var signalled := Extend(run, Signal);
    RunKeepsInv(signalled);
    run' := SignalledCanFinish(signalled);
  }

  // ----- Workers that serve a seek command

  lemma SilentStep(s: State, a: Action, k: nat)
    requires Inv(s) && Enabled(s, a) && k < |s.list| && s.list[k].worker == Exited(false)
    ensures k < |Take(s, a).list| && Take(s, a).list[k].worker == Exited(false)
  {
    assert EntryOk(s.main, s.list[k], k);
  }

  /** A worker that served a seek command leaves without a word: it is never joined,
      however main goes on. */
  lemma {:induction false} SilentIsNeverJoined(run: seq<Action>, k: nat, j: nat, n: nat)
    requires IsRun(run) && j < n <= |run| && run[j] == ExitAfterSeek(k)
    ensures k < |Before(run, n).list| && Before(run, n).list[k] == Entry(Exited(false), false, 0)
    decreases n
  {
    OneStep(run, n - 1);
    BeforeKeepsInv(run, n - 1);
    BeforeKeepsInv(run, n);
    if j < n - 1 {
      SilentIsNeverJoined(run, k, j, n - 1);
      SilentStep(Before(run, n - 1), run[n - 1], k);
    }
    assert EntryOk(Before(run, n).main, Before(run, n).list[k], k);
  }

  /** Whatever main is doing, a worker that is running may leave so. */
  lemma WorkersCanBeSilent(run: seq<Action>, k: nat) returns (run': seq<Action>)
    requires IsRun(run) && k < |End(run).list| && End(run).list[k].worker.Running?
    ensures run' == run + [ExitAfterSeek(k)] && IsRun(run')
  {
    run' := Extend(run, ExitAfterSeek(k));
  }

  /** And completions are lost: the first worker finishes between main's test and main's
      store. */
  lemma CompletionCanBeLost() returns (run: seq<Action>)
    ensures run == [Poll, Accept, Test, RaiseFlag(0), Exit(0), Clear]
    ensures IsRun(run) && Lost(run, 0)
  {
    run := FirstTested();
    run := Extend(run, RaiseFlag(0));
    run := Extend(run, Exit(0));
    run := Extend(run, Clear);
    assert Forsaken(End(run), 0);
    LostIff(run, 0);
  }

  lemma FirstTested() returns (run: seq<Action>)
    ensures run == [Poll, Accept, Test] && IsRun(run)
    ensures End(run) == State([Entry(Running, false, 0)], Clearing(0, false), false)
  {
    run := Extend([], Poll);
    run := Extend(run, Accept);
    run := Extend(run, Test);
  }

  lemma Extend(run: seq<Action>, a: Action) returns (run': seq<Action>)
    requires IsRun(run) && Enabled(End(run), a)
    ensures run' == run + [a] && IsRun(run') && End(run') == Take(End(run), a)
  {
    run' := run + [a];
    assert run'[..|run|] == run;
  }
}
