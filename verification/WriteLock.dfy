/** Whether `write_lock` can still be freed: exactly unless the thread that holds it is
    at a guarded call that never comes back. */
module WriteLock {
  import opened Bytes
  import opened Memory
  import opened CircularBuffer
  import opened PacketSpec
  import opened Driver
  import opened CriticalSection
  import opened Threads
  import opened Interleaving
  import opened Programs
  import opened LengthScan
  import opened Schedules

  /** Some continuation frees `write_lock`. */
  ghost predicate CanFree(c: Config) {
    exists more :: IsRun(c, more) && Last(c, more).wlock.None?
  }

  /** What all polite runs keep, of the owner of the driver's mutex. */
  lemma OwnerIsInside(c: Config) returns (u: nat)
    requires Good(c) && c.lock.Some?
    ensures c.lock == Some(u) && u in c.threads && c.threads[u].status.Inside? && CsOk(InsideOf(c, u))
  {
    u := c.lock.value;
  }

  /** Whoever is inside the driver finishes; nobody else moves. */
  lemma FreeMutex(c: Config) returns (run: seq<Action>)
    requires Good(c)
    ensures IsRun(c, run) && PoliteRun(c, run)
    ensures var e := Last(c, run);
            && e.lock.None? && Shaped(e.dev.ring) && e.wlock == c.wlock
            && e.threads.Keys == c.threads.Keys
            && forall t :: t in c.threads && c.lock != Some(t) ==> e.threads[t] == c.threads[t]
  {
    run := [];
    if c.lock.Some? {
      var u := OwnerIsInside(c);
      var item;
      run, item := SoloFinish(c, u);
    }
  }

  /** The last step: `write_lock` is released. */
  lemma LeaveFrees(c: Config, run: seq<Action>, t: nat) returns (run': seq<Action>)
    requires IsRun(c, run) && PoliteRun(c, run)
    requires t in Last(c, run).threads && Last(c, run).threads[t].status.Leaving?
    ensures IsRun(c, run') && PoliteRun(c, run') && Last(c, run').wlock.None?
  {
    RunSnoc(c, run, Leave(t));
    run' := run + [Leave(t)];
  }

  /** A guarded call that waits while the mutex is free goes through. */
  lemma WaiterFrees(c: Config, t: nat) returns (run: seq<Action>)
    requires Shaped(c.dev.ring) && c.lock.None? && t in c.threads
    requires c.threads[t].status.Waiting? && c.threads[t].status.guarded && !Doomed(c.threads[t].status)
    ensures IsRun(c, run) && PoliteRun(c, run) && Last(c, run).wlock.None?
  {
    var call := c.threads[t].status.call;
    if call.SeekCall? && call.cmd >= CAPACITY {
      run := RunAhead(c, StrayUnlock(t), []);
    } else {
      var env := EnvExists(c.dev, if call.WriteCall? then call.data else []);
      var item;
      run, item := SoloCall(c, t, env);
    }
    run := LeaveFrees(c, run, t);
  }

  /** Unless it is doomed, the holder of `write_lock` gets through and releases it. */
  lemma HolderFrees(c: Config, t: nat) returns (run: seq<Action>)
    requires Good(c) && t in c.threads && Holds(c.threads[t].status) && !Doomed(c.threads[t].status)
    ensures IsRun(c, run) && PoliteRun(c, run) && Last(c, run).wlock.None?
  {
    match c.threads[t].status
    case Leaving => run := LeaveFrees(c, [], t);
    case Inside(_, _, _, _) =>
      InsideIsOwner(c, t);
      var item;
      run, item := SoloFinish(c, t);
      run := LeaveFrees(c, run, t);
    case Waiting(_, _) =>
      WaiterIsOutside(c, t);
      var first := FreeMutex(c);
      var rest := WaiterFrees(Last(c, first), t);
      RunAppend(c, first, rest);
      run := first + rest;
  }

  lemma InsideIsOwner(c: Config, t: nat)
    requires Good(c) && t in c.threads && c.threads[t].status.Inside?
    ensures CsOk(InsideOf(c, t))
  {
    assert c.lock == Some(t);
    var u := OwnerIsInside(c);
  }

  lemma WaiterIsOutside(c: Config, t: nat)
    requires Good(c) && t in c.threads && c.threads[t].status.Waiting?
    ensures c.lock != Some(t)
  {
  }

  /** In every polite run, `write_lock` can still be freed if and only if the thread that
      holds it is not at a call that never comes back. */
  lemma WriteLockFreedIff(c: Config, run: seq<Action>, t: nat)
    requires Initial(c) && IsRun(c, run) && PoliteRun(c, run) && Last(c, run).wlock == Some(t)
    ensures t in Last(c, run).threads
    ensures CanFree(Last(c, run)) <==> !Doomed(Last(c, run).threads[t].status)
  {
    var e := Last(c, run);
    InitialInOrder(c);
    RunKeepsOrder(c, run);
    assert Holds(e.threads[t].status);
    if Doomed(e.threads[t].status) {
      forall more | IsRun(e, more) ensures !Last(e, more).wlock.None? {
        DoomedForever(e, more, t);
      }
    } else {
      InitialGood(c);
      RunKeepsGood(c, run);
      var more := HolderFrees(e, t);
    }
  }
}
