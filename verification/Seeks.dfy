/** `aesd_seek` in an interleaving: where every finished one has put its file, and what
    the thread reads from there. */
module Seeks {
  import opened Bytes
  import opened CircularBuffer
  import opened PacketSpec
  import opened CriticalSection
  import opened Threads
  import opened Interleaving
  import opened LengthScan
  import opened Replies

  // ----- Where a seek lands

  /** The position that a seek asks for. */
  function Asked(file: int, offset: int, whence: Whence, total: nat): int
    requires whence != OtherWhence
  {
    match whence
    case SeekSet => offset
    case SeekCur => file + offset
    case SeekEnd => total + offset
  }

  /** The position asked for, if that lies between zero and the total, and the error
      otherwise; for SEEK_CUR by zero the position the file had, and for an unknown whence
      the error. */
  predicate Landed(file: int, offset: int, whence: Whence, total: nat, position: int) {
    if whence == OtherWhence then position == -EINVAL
    else if whence == SeekCur && offset == 0 then position == file
    else if 0 <= Asked(file, offset, whence, total) <= total then position == Asked(file, offset, whence, total)
    else position == -EINVAL
  }

  lemma ItemLands(w: World, item: Item)
    requires item.Sought? && ResultOf(item) == SerialItem(w, item).1
    ensures Landed(FileOf(w, item.t), item.offset, item.whence, item.scan.total, item.position)
    ensures FileOf(SerialItem(w, item).0, item.t) == item.position
  {
  }

  /** In every interleaving, a finished seek has answered with where it was asked to go,
      by the total that its scan had found, and that is where its file stands from then
      on. */
  lemma SoughtLands(c: Config, run: seq<Action>, n: nat)
    requires Initial(c) && IsRun(c, run) && PoliteRun(c, run)
    requires n < |Last(c, run).log| && Last(c, run).log[n].Sought?
    ensures var log := Last(c, run).log;
            var w, w' := SerialRun(c.start, log[..n]), SerialRun(c.start, log[..n + 1]);
            && Landed(FileOf(w, log[n].t), log[n].offset, log[n].whence, log[n].scan.total, log[n].position)
            && FileOf(w', log[n].t) == log[n].position
  {
    Serialisable(c, run);
    LogLands(c.start, Last(c, run).log, n);
  }

  lemma LogLands(start: map<nat, int>, log: seq<Item>, n: nat)
    requires LogOk(start, log) && n < |log| && log[n].Sought?
    ensures var w, w' := SerialRun(start, log[..n]), SerialRun(start, log[..n + 1]);
            && Landed(FileOf(w, log[n].t), log[n].offset, log[n].whence, log[n].scan.total, log[n].position)
            && FileOf(w', log[n].t) == log[n].position
  {
    assert ItemOk(start, log, n);
    ItemLands(SerialRun(start, log[..n]), log[n]);
    assert log[..n + 1][..n] == log[..n];
  }

  // ----- Scans in the history of the log

  /** How many of the first `n` items finish a packet. */
  function CommitsIn(log: seq<Item>, n: nat): nat
    requires n <= |log|
  {
    if n == 0 then 0 else CommitsIn(log, n - 1) + if Commits(log[n - 1]) then 1 else 0
  }

  lemma {:induction false} CommitsAreCounted(log: seq<Item>, n: nat)
    requires n <= |log|
    ensures |LoggedPackets(log[..n])| == CommitsIn(log, n)
  {
    if n == 0 {
      NothingLogged(log[..0]);
    } else {
      CommitsAreCounted(log, n - 1);
      OneMoreCounts(log, n - 1);
    }
  }

  lemma NothingLogged(log: seq<Item>)
    requires log == []
    ensures LoggedPackets(log) == []
  {
  }

  lemma OneMoreCounts(log: seq<Item>, n: nat)
    requires n < |log|
    ensures |LoggedPackets(log[..n + 1])| == |LoggedPackets(log[..n])| + if Commits(log[n]) then 1 else 0
  {
    OneMoreItem(log, n);
  }

  lemma {:induction false} CommitsStay(log: seq<Item>, log': seq<Item>, n: nat)
    requires n <= |log| && log <= log'
    ensures CommitsIn(log', n) == CommitsIn(log, n)
  {
    if n > 0 {
      CommitsStay(log, log', n - 1);
    }
  }

  lemma {:induction false} QuietCommits(log: seq<Item>, a: nat, b: nat)
    requires a <= b <= |log| && NobodyCommits(log, a, b)
    ensures CommitsIn(log, b) == CommitsIn(log, a)
    decreases b
  {
    if a < b {
      QuietCommits(log, a, b - 1);
    }
  }

  /** When a seek was logged, its scan had seen at least the commits logged before. */
  ghost predicate SeekPlaced(log: seq<Item>, n: nat)
    requires n < |log|
  {
    log[n].Sought? ==> CommitsIn(log, n) <= log[n].scan.until
  }

  /** When a call was logged after it, all the commits that it had seen were logged. */
  ghost predicate CallPlaced(log: seq<Item>, n: nat, m: nat)
    requires n < m < |log|
  {
    log[n].Sought? && log[m].Called? ==> log[n].scan.until <= CommitsIn(log, m + 1)
  }

  ghost predicate InHistory(log: seq<Item>) {
    && (forall n :: 0 <= n < |log| ==> SeekPlaced(log, n))
    && (forall n, m :: 0 <= n < m < |log| ==> CallPlaced(log, n, m))
  }

  lemma SeeksGrow(log: seq<Item>, log': seq<Item>, item: Item, n: nat)
    requires InHistory(log) && log' == log + [item] && n < |log'|
    requires item.Sought? ==> CommitsIn(log, |log|) <= item.scan.until
    ensures SeekPlaced(log', n)
  {
    CommitsStay(log, log', n);
    if n < |log| {
      assert SeekPlaced(log, n);
    }
  }

  lemma CallsGrow(log: seq<Item>, log': seq<Item>, item: Item, n: nat, m: nat)
    requires InHistory(log) && log' == log + [item] && n < m < |log'|
    requires item.Called? && m == |log| && log[n].Sought? ==> log[n].scan.until <= CommitsIn(log', |log'|)
    ensures CallPlaced(log', n, m)
  {
    if m < |log| {
      assert CallPlaced(log, n, m);
      CommitsStay(log, log', m + 1);
    }
  }

  lemma HistoryGrows(log: seq<Item>, log': seq<Item>, item: Item)
    requires InHistory(log) && log' == log + [item]
    requires item.Sought? ==> CommitsIn(log, |log|) <= item.scan.until
    requires item.Called? ==> forall n :: 0 <= n < |log| && log[n].Sought? ==>
               log[n].scan.until <= CommitsIn(log', |log'|)
    ensures InHistory(log')
  {
    forall n | 0 <= n < |log'| ensures SeekPlaced(log', n) {
      SeeksGrow(log, log', item, n);
    }
    forall n, m | 0 <= n < m < |log'| ensures CallPlaced(log', n, m) {
      CallsGrow(log, log', item, n, m);
    }
  }

  lemma AllCounted(log: seq<Item>)
    ensures |LoggedPackets(log)| == CommitsIn(log, |log|)
  {
    CommitsAreCounted(log, |log|);
    assert log[..|log|] == log;
  }

  lemma SoughtIsPlaced(c: Config, a: Action)
    requires RealLengths(c.sizes, LoggedPackets(c.log)) && Enabled(c, a) && a.ScanEnd? && InHistory(c.log)
    ensures InHistory(Take(c, a).log)
  {
    AllCounted(c.log);
    HistoryGrows(c.log, Take(c, a).log, Take(c, a).log[|c.log|]);
  }

  lemma CalledIsPlaced(c: Config, c': Config, item: Item)
    requires Scans(c) && InHistory(c.log) && item.Called?
    requires c'.log == c.log + [item] && c'.sizes == c.sizes && |LoggedPackets(c'.log)| == |c'.sizes| - 1
    ensures InHistory(c'.log)
  {
    AllCounted(c'.log);
    forall n | 0 <= n < |c.log| && c.log[n].Sought?
      ensures c.log[n].scan.until <= CommitsIn(c'.log, |c'.log|)
    {
      assert ScanDone(c.sizes, c.log[n]);
    }
    HistoryGrows(c.log, c'.log, item);
  }

  lemma ReopenedIsPlaced(c: Config, a: Action)
    requires Enabled(c, a) && !a.ScanEnd? && !a.Release? && InHistory(c.log)
    ensures InHistory(Take(c, a).log)
  {
    if |Take(c, a).log| > |c.log| {
      HistoryGrows(c.log, Take(c, a).log, Take(c, a).log[|c.log|]);
    }
  }

  lemma TakeKeepsHistory(c: Config, a: Action)
    requires Good(c) && Enabled(c, a) && Good(Take(c, a)) && InHistory(c.log)
    ensures InHistory(Take(c, a).log)
  {
    if a.ScanEnd? {
      SoughtIsPlaced(c, a);
    } else if a.Release? {
      FreeIsCounted(Take(c, a));
      CalledIsPlaced(c, Take(c, a), Take(c, a).log[|c.log|]);
    } else {
      ReopenedIsPlaced(c, a);
    }
  }

  lemma {:induction false} RunKeepsHistory(c: Config, run: seq<Action>)
    requires Good(c) && InHistory(c.log) && IsRun(c, run) && PoliteRun(c, run)
    ensures InHistory(Last(c, run).log)
    decreases |run|
  {
    if run != [] {
      TakeKeepsGood(c, run[0]);
      TakeKeepsHistory(c, run[0]);
      RunKeepsHistory(Take(c, run[0]), run[1..]);
    }
  }

  // ----- Seek, then read

  lemma {:induction false} PacketsAreAPrefix(log: seq<Item>, n: nat)
    requires n <= |log|
    ensures LoggedPackets(log[..n]) <= LoggedPackets(log)
    decreases |log| - n
  {
    if n < |log| {
      PacketsAreAPrefix(log, n + 1);
      OneMoreItem(log, n);
    } else {
      assert log[..n] == log;
    }
  }

  lemma QuietSpan(log: seq<Item>, n: nat, m: nat)
    requires n < m < |log| && !Commits(log[n]) && !Commits(log[m]) && NobodyCommits(log, n + 1, m)
    ensures NobodyCommits(log, n, m + 1)
  {
  }

  /** The commits it had seen are those logged before it. */
  lemma SeenIsLogged(log: seq<Item>, n: nat, m: nat)
    requires n < m < |log| && log[n].Sought? && log[m].Called? && !Commits(log[m])
    requires InHistory(log) && NobodyCommits(log, n + 1, m)
    ensures log[n].scan.until == CommitsIn(log, n)
  {
    assert SeekPlaced(log, n) && CallPlaced(log, n, m);
    QuietSpan(log, n, m);
    QuietCommits(log, n, m + 1);
  }

  lemma LengthAtPrefix(sizes: seq<seq<nat>>, packets: seq<seq<byte>>, some: seq<seq<byte>>)
    requires RealLengths(sizes, packets) && some <= packets
    ensures Sum(sizes[|some|]) == |Flat(LastTen(some))|
  {
    assert LengthAt(sizes, packets, |some|);
    assert packets[..|some|] == some;
  }

  /** A scan that saw every slot as it was in the end, followed by a call before anybody
      commits, has found the length of the contents. */
  lemma SeenIsLength(sizes: seq<seq<nat>>, log: seq<Item>, n: nat, m: nat)
    requires n < m < |log| && log[n].Sought? && log[m].Called? && !Commits(log[m])
    requires InHistory(log) && NobodyCommits(log, n + 1, m)
    requires Whole(sizes, log[n].scan) && SeenAt(log[n].scan, log[n].scan.until)
    requires RealLengths(sizes, LoggedPackets(log))
    ensures log[n].scan.total == |Flat(ContentsAt(log, n))|
  {
    SeenIsLogged(log, n, m);
    CommitsAreCounted(log, n);
    PacketsAreAPrefix(log, n);
    LengthAtPrefix(sizes, LoggedPackets(log), LoggedPackets(log[..n]));
    ConsistentScan(sizes, log[n].scan, log[n].scan.until);
  }

  /** In items `a` to `b` thread `t` does nothing. */
  ghost predicate Rests(log: seq<Item>, a: nat, b: nat, t: nat) {
    forall n :: a <= n < b && n < |log| ==> log[n].t != t
  }

  /** The first read of `t` after item `n`, if nobody commits before it: what is left of
      the entry that its file stands in. */
  lemma NextRead(start: map<nat, int>, log: seq<Item>, n: nat, m: nat, t: nat)
    requires LogOk(start, log) && n < m < |log| && IsReadBy(log[m], t)
    requires NobodyCommits(log, n, m) && Rests(log, n + 1, m, t)
    requires |Flat(ContentsAt(log, n))| < SIZE_T
    requires FileOf(Worlds(start, log)[n + 1], t) < SIZE_T
    ensures var file := FileOf(Worlds(start, log)[n + 1], t);
            log[m].result.bytes == ReadAbs(ContentsAt(log, n), SizeT(file))
  {
    var worlds := Worlds(start, log);
    WorldsStep(start, log);
    WorldHolds(start, log, n);
    assert StepAt(worlds, log, n);
    ItemKeepsView(worlds[n], log[n]);
    RestKeepsWorld(worlds, log, n + 1, m, t);
    assert StepAt(worlds, log, m);
    ItemMovesFile(worlds[m], log[m], t);
  }

  /** While `t` rests and nobody commits, its file and the contents stay as they are. */
  lemma {:induction false} RestKeepsWorld(worlds: seq<World>, log: seq<Item>, a: nat, b: nat, t: nat)
    requires Steps(worlds, log) && a <= b <= |log| && NobodyCommits(log, a, b) && Rests(log, a, b, t)
    ensures worlds[b].abs.view == worlds[a].abs.view && FileOf(worlds[b], t) == FileOf(worlds[a], t)
    decreases b
  {
    if a < b {
      RestKeepsWorld(worlds, log, a, b - 1, t);
      assert StepAt(worlds, log, b - 1);
      ItemKeepsView(worlds[b - 1], log[b - 1]);
      ItemMovesFile(worlds[b - 1], log[b - 1], t);
    }
  }

  /** The scan of a seek saw the device as it was in the end, and the thread's next call is
      a read, before which nobody commits. */
  ghost predicate SeekThenReads(log: seq<Item>, n: nat, m: nat, t: nat) {
    && n < m < |log|
    && log[n].Sought? && log[n].t == t && SeenAt(log[n].scan, log[n].scan.until)
    && IsReadBy(log[m], t)
    && NobodyCommits(log, n + 1, m) && Rests(log, n + 1, m, t)
  }

  /** The seek went by the length of the contents, and the read delivered the contents
      from the position asked for to the end of the entry, or nothing after a refusal. */
  ghost predicate Delivers(start: map<nat, int>, log: seq<Item>, n: nat, m: nat)
    requires n < |log| && m < |log| && log[n].Sought? && log[n].whence != OtherWhence && log[m].Called?
  {
    var view, file := ContentsAt(log, n), FileOf(SerialRun(start, log[..n]), log[n].t);
    var asked := Asked(file, log[n].offset, log[n].whence, |Flat(view)|);
    if 0 <= asked <= |Flat(view)| then
      log[n].position == asked && log[m].result.bytes == RestOfEntry(view, asked)
    else
      log[n].position == -EINVAL && log[m].result.bytes == []
  }

  lemma ReadAfterLanding(start: map<nat, int>, log: seq<Item>, n: nat, m: nat, t: nat)
    requires LogOk(start, log) && SeekThenReads(log, n, m, t)
    requires log[n].whence != OtherWhence && (log[n].whence == SeekCur ==> log[n].offset != 0)
    requires log[n].scan.total == |Flat(ContentsAt(log, n))| <= SIZE_T - 22
    ensures Delivers(start, log, n, m)
  {
    LogLands(start, log, n);
    NextRead(start, log, n, m, t);
    var view := ContentsAt(log, n);
    if log[n].position == -EINVAL {
      RefusedSeekReadsNothing(view);
    } else {
      ReadIsRestOfEntry(view, log[n].position);
    }
  }

  /** In every interleaving, a seek whose scan saw every slot as it was in the end, as it
      does if no commit overlapped it, goes by the length of the contents; and if nobody
      commits until the thread's next read, that read delivers the contents from the
      position asked for to the end of the entry, and nothing after a refusal. */
  lemma SoughtThenRead(c: Config, run: seq<Action>, n: nat, m: nat, t: nat)
    requires Initial(c) && IsRun(c, run) && PoliteRun(c, run) && SeekThenReads(Last(c, run).log, n, m, t)
    requires Last(c, run).log[n].whence != OtherWhence
    requires Last(c, run).log[n].whence == SeekCur ==> Last(c, run).log[n].offset != 0
    requires |Flat(ContentsAt(Last(c, run).log, n))| <= SIZE_T - 22
    ensures Delivers(c.start, Last(c, run).log, n, m)
  {
    InitialGood(c);
    RunKeepsHistory(c, run);
    WholeScan(c, run, n);
    RunTotals(c, run);
    Serialisable(c, run);
    SeenIsLength(Last(c, run).sizes, Last(c, run).log, n, m);
    ReadAfterLanding(c.start, Last(c, run).log, n, m, t);
  }
}
