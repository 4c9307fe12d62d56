/** The length scan of `aesd_seek`, which adds up the slot sizes without the mutex while
    commits change them: what its answer is made of, in every interleaving. */
module LengthScan {
  import opened Bytes
  import opened CircularBuffer
  import opened PacketSpec
  import opened Driver
  import opened CriticalSection
  import opened Threads
  import opened Interleaving

  // ----- The history of the slot sizes

  /** Where the commits stand for a thread at `pc` when `v` sizes have been stored. */
  predicate Tallied(d: Dev, v: nat, pc: Local) {
    && v == d.commits + (if pc.AtIn? || pc.AtSettle? then 1 else 0)
    && d.ring.inOffs == InOf(d.commits + if pc.AtSettle? then 1 else 0)
  }

  /** A commit changes the size of one slot. */
  predicate OneCommit(before: seq<nat>, after: seq<nat>, k: nat) {
    |before| == |after| == CAPACITY && k < CAPACITY && after == before[k := after[k]]
  }

  /** Successive commits go to successive slots of the ring. */
  ghost predicate History(sizes: seq<seq<nat>>) {
    && (forall n :: 0 <= n < |sizes| ==> |sizes[n]| == CAPACITY)
    && (forall n :: 0 <= n < |sizes| - 1 ==> OneCommit(sizes[n], sizes[n + 1], InOf(n)))
  }

  ghost predicate Sizes(c: Config) {
    match c
    case Config(dev, _, _, _, _, _, _, sizes) =>
      && Shaped(dev.ring)
      && |sizes| >= 1
      && sizes[|sizes| - 1] == EntrySizes(dev.ring.entry)
      && History(sizes)
  }

  ghost predicate Track(c: Config)
    requires Mutex(c) && |c.sizes| >= 1
  {
    match c.lock
    case None => Tallied(c.dev, |c.sizes| - 1, AtUnlock(Result(0, [])))
    case Some(t) => Tallied(c.dev, |c.sizes| - 1, c.threads[t].status.pc)
  }

  /** Between commits the sizes do not change; a commit changes one of them. */
  lemma MicroSizes(s: Cs)
    requires CsOk(s) && !s.pc.AtUnlock?
    ensures var before, after := EntrySizes(s.dev.ring.entry), EntrySizes(Micro(s).dev.ring.entry);
            && (s.pc.AtSize? ==> OneCommit(before, after, s.dev.ring.inOffs))
            && (!s.pc.AtSize? ==> after == before)
  {
  }

  lemma MicroCounts(s: Cs, v: nat)
    requires CsOk(s) && !s.pc.AtUnlock? && Tallied(s.dev, v, s.pc)
    ensures Tallied(Micro(s).dev, if s.pc.AtSize? then v + 1 else v, Micro(s).pc)
  {
  }

  lemma SizesGrow(sizes: seq<seq<nat>>, more: seq<nat>)
    requires History(sizes) && |sizes| >= 1 && OneCommit(sizes[|sizes| - 1], more, InOf(|sizes| - 1))
    ensures History(sizes + [more])
  {
    var sizes' := sizes + [more];
    forall n | 0 <= n < |sizes'| - 1 ensures OneCommit(sizes'[n], sizes'[n + 1], InOf(n)) {
      if n < |sizes| - 1 {
        assert OneCommit(sizes[n], sizes[n + 1], InOf(n));
      }
    }
  }

  lemma StepKeepsSizes(c: Config, a: Action)
    requires Sizes(c) && Enabled(c, a) && a.Step?
    requires Tallied(c.dev, |c.sizes| - 1, c.threads[a.t].status.pc)
    ensures Sizes(Take(c, a)) && Tallied(Take(c, a).dev, |Take(c, a).sizes| - 1, Take(c, a).threads[a.t].status.pc)
  {
    var s := InsideOf(c, a.t);
    MicroSizes(s);
    MicroCounts(s, |c.sizes| - 1);
    if s.pc.AtSize? {
      SizesGrow(c.sizes, EntrySizes(Micro(s).dev.ring.entry));
    }
  }

  /** With the mutex free, or its owner at `pc`. */
  lemma TrackIs(c: Config, t: nat)
    requires Mutex(c) && |c.sizes| >= 1 && t in c.threads
    ensures c.threads[t].status.Inside? ==> (Track(c) <==> Tallied(c.dev, |c.sizes| - 1, c.threads[t].status.pc))
    ensures c.lock.None? ==> (Track(c) <==> Tallied(c.dev, |c.sizes| - 1, AtUnlock(Result(0, []))))
  {
  }

  lemma LockingKeepsTrack(c: Config, a: Action)
    requires Mutex(c) && Sizes(c) && Track(c) && Enabled(c, a) && (a.Acquire? || a.Release?) && Mutex(Take(c, a))
    ensures Track(Take(c, a))
  {
    TrackIs(c, a.t);
    TrackIs(Take(c, a), a.t);
  }

  /** Outside the mutex nothing is stored. */
  lemma OutsideKeepsTrack(c: Config, c': Config, t: nat, th: Thread)
    requires Mutex(c) && Sizes(c) && Track(c) && Mutex(c') && t in c.threads && !c.threads[t].status.Inside?
    requires c'.threads == c.threads[t := th] && (c'.dev, c'.lock, c'.sizes) == (c.dev, c.lock, c.sizes)
    ensures Track(c')
  {
  }

  lemma TakeKeepsSizes(c: Config, a: Action)
    requires Mutex(c) && Sizes(c) && Track(c) && Enabled(c, a) && Mutex(Take(c, a)) && Polite(c, a)
    ensures Sizes(Take(c, a)) && Track(Take(c, a))
  {
    if a.Step? {
      TrackIs(c, a.t);
      StepKeepsSizes(c, a);
      TrackIs(Take(c, a), a.t);
    } else if a.Acquire? || a.Release? {
      LockingKeepsTrack(c, a);
    } else {
      var th := TakeIsLocal(c, a);
      OutsideKeepsTrack(c, Take(c, a), a.t, th);
    }
  }

  // ----- Scans

  /** The size a scan took from slot `j`. */
  function SizeSeen(sizes: seq<seq<nat>>, seen: seq<nat>, j: nat): nat
    requires j < |seen|
  {
    if seen[j] < |sizes| && j < |sizes[seen[j]]| then sizes[seen[j]][j] else 0
  }

  function Picked(sizes: seq<seq<nat>>, seen: seq<nat>): (ns: seq<nat>)
    ensures |ns| == |seen|
    ensures forall j :: 0 <= j < |seen| ==> ns[j] == SizeSeen(sizes, seen, j)
  {
    seq(|seen|, j requires 0 <= j < |seen| => SizeSeen(sizes, seen, j))
  }

  /** A scan that began after `since` commits, `until` of which have been made now: what
      it has taken from each slot is the slot's size at some moment in between, later
      for later slots; and its total is the sum of these. */
  ghost predicate Mixed(sizes: seq<seq<nat>>, scan: Scan) {
    match scan
    case Scan(since, until, seen, total) =>
      && since <= until < |sizes|
      && |seen| <= CAPACITY
      && (forall j :: 0 <= j < |seen| ==> since <= seen[j] <= until)
      && (forall i, j :: 0 <= i < j < |seen| ==> seen[i] <= seen[j])
      && total == Sum(Picked(sizes, seen))
  }

  ghost predicate ScanGoing(sizes: seq<seq<nat>>, st: Status) {
    st.Scanning? ==> |sizes| >= 1 && Mixed(sizes, Scan(st.since, |sizes| - 1, st.seen, st.acc))
  }

  ghost predicate ScanDone(sizes: seq<seq<nat>>, item: Item) {
    item.Sought? ==> |item.scan.seen| == CAPACITY && Mixed(sizes, item.scan)
  }

  ghost predicate Scans(c: Config) {
    match c
    case Config(_, _, _, threads, _, log, _, sizes) =>
      && (forall t :: t in threads ==> ScanGoing(sizes, threads[t].status))
      && (forall n :: 0 <= n < |log| ==> ScanDone(sizes, log[n]))
  }

  lemma MixedGrows(sizes: seq<seq<nat>>, more: seq<nat>, scan: Scan, until: nat)
    requires Mixed(sizes, scan) && scan.until <= until <= |sizes|
    ensures Mixed(sizes + [more], scan.(until := until))
  {
    assert Picked(sizes + [more], scan.seen) == Picked(sizes, scan.seen);
  }

  lemma MixedStep(sizes: seq<seq<nat>>, scan: Scan)
    requires Mixed(sizes, scan) && scan.until == |sizes| - 1 && |scan.seen| < CAPACITY == |sizes[scan.until]|
    ensures Mixed(sizes, scan.(seen := scan.seen + [scan.until],
                               total := sizes[scan.until][|scan.seen|] + scan.total))
  {
    var seen' := scan.seen + [scan.until];
    SumSnoc(Picked(sizes, seen'), |scan.seen|);
    assert Picked(sizes, seen')[..|scan.seen|] == Picked(sizes, scan.seen);
    assert Picked(sizes, seen')[..|seen'|] == Picked(sizes, seen');
  }

  lemma CommitKeepsScans(c: Config, a: Action)
    requires Scans(c) && Enabled(c, a) && a.Step? && c.threads[a.t].status.pc.AtSize?
    ensures Scans(Take(c, a))
  {
    var c' := Take(c, a);
    var more := c'.sizes[|c.sizes|];
    forall t | t in c'.threads ensures ScanGoing(c'.sizes, c'.threads[t].status) {
      var st := c'.threads[t].status;
      if st.Scanning? {
        assert ScanGoing(c.sizes, c.threads[t].status);
        MixedGrows(c.sizes, more, Scan(st.since, |c.sizes| - 1, st.seen, st.acc), |c.sizes|);
      }
    }
    forall n | 0 <= n < |c'.log| ensures ScanDone(c'.sizes, c'.log[n]) {
      assert ScanDone(c.sizes, c.log[n]);
      if c.log[n].Sought? {
        MixedGrows(c.sizes, more, c.log[n].scan, c.log[n].scan.until);
      }
    }
  }

  /** The thread that acts has its scan in order. */
  lemma ActorKeepsScan(c: Config, a: Action)
    requires Scans(c) && Sizes(c) && Enabled(c, a)
    ensures ScanGoing(c.sizes, Take(c, a).threads[a.t].status)
  {
    var st := c.threads[a.t].status;
    assert ScanGoing(c.sizes, st);
    if a.ScanStep? {
      StepKeepsScan(c, a);
    } else if a.Begin? {
      BeginKeepsScan(c, a);
    }
  }

  lemma StepKeepsScan(c: Config, a: Action)
    requires Sizes(c) && Enabled(c, a) && a.ScanStep? && ScanGoing(c.sizes, c.threads[a.t].status)
    ensures ScanGoing(c.sizes, Take(c, a).threads[a.t].status)
  {
    var st := c.threads[a.t].status;
    MixedStep(c.sizes, Scan(st.since, |c.sizes| - 1, st.seen, st.acc));
  }

  lemma BeginKeepsScan(c: Config, a: Action)
    requires Sizes(c) && Enabled(c, a) && a.Begin?
    ensures ScanGoing(c.sizes, Take(c, a).threads[a.t].status)
  {
  }

  /** And so is what it logs. */
  lemma ActorLogsScan(c: Config, a: Action)
    requires Scans(c) && Sizes(c) && Enabled(c, a) && |Take(c, a).log| > |c.log|
    ensures ScanDone(c.sizes, Take(c, a).log[|c.log|])
  {
    assert ScanGoing(c.sizes, c.threads[a.t].status);
  }

  lemma OthersKeepScans(c: Config, c': Config, t: nat, th: Thread)
    requires Scans(c) && t in c.threads && c'.threads == c.threads[t := th] && c'.sizes == c.sizes
    requires c.log <= c'.log && |c'.log| <= |c.log| + 1
    requires ScanGoing(c.sizes, th.status)
    requires |c'.log| > |c.log| ==> ScanDone(c.sizes, c'.log[|c.log|])
    ensures Scans(c')
  {
  }

  lemma TakeKeepsScans(c: Config, a: Action)
    requires Scans(c) && Sizes(c) && Enabled(c, a)
    ensures Scans(Take(c, a))
  {
    if a.Step? && c.threads[a.t].status.pc.AtSize? {
      CommitKeepsScans(c, a);
    } else {
      ActorKeepsScan(c, a);
      if |Take(c, a).log| > |c.log| {
        ActorLogsScan(c, a);
      }
      OthersKeepScans(c, Take(c, a), a.t, Take(c, a).threads[a.t]);
    }
  }

  // ----- Real lengths

  ghost predicate LengthAt(sizes: seq<seq<nat>>, packets: seq<seq<byte>>, n: nat)
    requires n < |sizes| && n <= |packets|
  {
    Sum(sizes[n]) == |Flat(LastTen(packets[..n]))|
  }

  /** The total of the slot sizes after `n` commits is the length of what the device
      holds after `n` packets. */
  ghost predicate RealLengths(sizes: seq<seq<nat>>, packets: seq<seq<byte>>) {
    && |packets| < |sizes|
    && forall n :: 0 <= n <= |packets| ==> LengthAt(sizes, packets, n)
  }

  function LoggedPackets(log: seq<Item>): seq<seq<byte>> {
    Packets(Chunks(WritesOf(log)))
  }

  lemma SumIsLength(d: Dev)
    requires DevInv(d)
    ensures Sum(EntrySizes(d.ring.entry)) == |Flat(View(d.ring, d.heap))|
  {
    RotationKeepsSum(d.ring);
    LiveComesFirst(d.ring);
    FlatLengthIsTotal(d);
  }

  lemma PacketsGrow(log: seq<Item>, item: Item)
    ensures LoggedPackets(log) <= LoggedPackets(log + [item])
    ensures |LoggedPackets(log + [item])| <= |LoggedPackets(log)| + 1
  {
    assert (log + [item])[..|log|] == log;
    if item.Called? && item.call.WriteCall? {
      assert Chunks(WritesOf(log + [item])) == Chunks(WritesOf(log)) + [item.call.data];
      HistorySnoc(Chunks(WritesOf(log)), item.call.data);
    } else {
      assert WritesOf(log + [item]) == WritesOf(log);
    }
  }

  lemma LengthsGrow(sizes: seq<seq<nat>>, before: seq<seq<byte>>, after: seq<seq<byte>>)
    requires RealLengths(sizes, before) && before <= after && |after| <= |before| + 1
    requires |after| < |sizes| && Sum(sizes[|after|]) == |Flat(LastTen(after))|
    ensures RealLengths(sizes, after)
  {
    forall n | 0 <= n <= |after| ensures LengthAt(sizes, after, n) {
      if n <= |before| {
        assert LengthAt(sizes, before, n);
        assert after[..n] == before[..n];
      } else {
        assert after[..n] == after;
      }
    }
  }

  /** With the mutex free, all commits are in the log. */
  lemma FreeIsCounted(c: Config)
    requires Inv(c) && Sizes(c) && Track(c) && c.lock.None?
    ensures |LoggedPackets(c.log)| == |c.sizes| - 1
    ensures Sum(c.sizes[|c.sizes| - 1]) == |Flat(LastTen(LoggedPackets(c.log)))|
  {
    SerialRunIsHistory(c.start, c.log);
    HistoryIsView(Chunks(WritesOf(c.log)));
    SumIsLength(c.dev);
  }

  ghost predicate Good(c: Config) {
    Inv(c) && Sizes(c) && Track(c) && Scans(c) && RealLengths(c.sizes, LoggedPackets(c.log))
  }

  lemma ReleaseKeepsLengths(c: Config, log: seq<Item>, item: Item)
    requires Inv(c) && Sizes(c) && Track(c) && c.lock.None? && c.log == log + [item]
    requires RealLengths(c.sizes, LoggedPackets(log))
    ensures RealLengths(c.sizes, LoggedPackets(c.log))
  {
    PacketsGrow(log, item);
    FreeIsCounted(c);
    LengthsGrow(c.sizes, LoggedPackets(log), LoggedPackets(c.log));
  }

  lemma LengthsStay(sizes: seq<seq<nat>>, log: seq<Item>, item: Item)
    requires RealLengths(sizes, LoggedPackets(log)) && !item.Called?
    ensures RealLengths(sizes, LoggedPackets(log + [item]))
  {
    assert (log + [item])[..|log|] == log;
    assert WritesOf(log + [item]) == WritesOf(log);
  }

  lemma LengthsExtend(sizes: seq<seq<nat>>, more: seq<nat>, packets: seq<seq<byte>>)
    requires RealLengths(sizes, packets)
    ensures RealLengths(sizes + [more], packets)
  {
    forall n | 0 <= n <= |packets| ensures LengthAt(sizes + [more], packets, n) {
      assert LengthAt(sizes, packets, n);
    }
  }

  lemma OthersKeepLengths(c: Config, a: Action)
    requires RealLengths(c.sizes, LoggedPackets(c.log)) && Enabled(c, a) && !a.Release?
    ensures RealLengths(Take(c, a).sizes, LoggedPackets(Take(c, a).log))
  {
    var c' := Take(c, a);
    if |c'.log| > |c.log| {
      LengthsStay(c.sizes, c.log, c'.log[|c.log|]);
    } else if |c'.sizes| > |c.sizes| {
      LengthsExtend(c.sizes, c'.sizes[|c.sizes|], LoggedPackets(c.log));
    }
  }

  lemma TakeKeepsGood(c: Config, a: Action)
    requires Good(c) && Enabled(c, a) && Polite(c, a)
    ensures Good(Take(c, a))
  {
    TakeKeepsInv(c, a);
    TakeKeepsSizes(c, a);
    TakeKeepsScans(c, a);
    if a.Release? {
      ReleaseKeepsLengths(Take(c, a), c.log, Take(c, a).log[|c.log|]);
    } else {
      OthersKeepLengths(c, a);
    }
  }

  lemma InitialGood(c: Config)
    requires Initial(c)
    ensures Good(c)
  {
    InitialInv(c);
    forall t | t in c.threads ensures ScanGoing(c.sizes, c.threads[t].status) {
      assert FreshThread(c, t);
    }
    SumZeros(c.sizes[0]);
  }

  lemma {:induction false} RunKeepsGood(c: Config, run: seq<Action>)
    requires Good(c) && IsRun(c, run) && PoliteRun(c, run)
    ensures Good(Last(c, run))
    decreases |run|
  {
    if run != [] {
      TakeKeepsGood(c, run[0]);
      RunKeepsGood(Take(c, run[0]), run[1..]);
    }
  }

  // ----- What a scan answers

  /** A finished scan, over a history in which each commit changes one size. */
  ghost predicate Whole(sizes: seq<seq<nat>>, scan: Scan) {
    |scan.seen| == CAPACITY && Mixed(sizes, scan) && History(sizes)
  }

  /** In every interleaving the totals of the sizes are lengths the device has had, and
      with the mutex free all of them. */
  lemma RunTotals(c: Config, run: seq<Action>)
    requires Initial(c) && IsRun(c, run) && PoliteRun(c, run)
    ensures var e := Last(c, run);
            && RealLengths(e.sizes, LoggedPackets(e.log))
            && (e.lock.None? ==> |e.sizes| == |LoggedPackets(e.log)| + 1)
  {
    InitialGood(c);
    RunKeepsGood(c, run);
    if Last(c, run).lock.None? {
      FreeIsCounted(Last(c, run));
    }
  }

  /** In every interleaving, every finished scan is a mix of the sizes it found. */
  lemma WholeScan(c: Config, run: seq<Action>, n: nat)
    requires Initial(c) && IsRun(c, run) && PoliteRun(c, run)
    requires n < |Last(c, run).log| && Last(c, run).log[n].Sought?
    ensures Whole(Last(c, run).sizes, Last(c, run).log[n].scan)
  {
    InitialGood(c);
    RunKeepsGood(c, run);
    assert ScanDone(Last(c, run).sizes, Last(c, run).log[n]);
  }

  function Change(before: seq<nat>, after: seq<nat>, k: nat): int
    requires k < |before| && k < |after|
  {
    (after[k] as int) - (before[k] as int)
  }

  lemma SumUpdate(ns: seq<nat>, k: nat, n: nat)
    requires k < |ns|
    ensures Sum(ns[k := n]) == Sum(ns) - ns[k] + n
  {
    SumSplit(ns, k);
    SumSplit(ns[k := n], k);
    assert ns[k := n][..k] == ns[..k];
    assert ns[k..][1..] == ns[k := n][k..][1..];
  }

  /** The scan found every slot as it was after `v` commits: it came to the slots of
      earlier commits after them, and to those of later ones before. */
  predicate SeenAt(scan: Scan, v: nat) {
    && |scan.seen| == CAPACITY
    && forall i :: scan.since <= i < scan.until ==>
         if i < v then scan.seen[InOf(i)] > i else scan.seen[InOf(i)] <= i
  }

  lemma {:induction false} SlotStays(sizes: seq<seq<nat>>, j: nat, m: nat, n: nat)
    requires History(sizes) && m <= n < |sizes| && j < CAPACITY
    requires forall i :: m <= i < n ==> InOf(i) != j
    ensures sizes[m][j] == sizes[n][j]
  {
    if m < n {
      SlotStays(sizes, j, m, n - 1);
      assert OneCommit(sizes[n - 1], sizes[n], InOf(n - 1));
    }
  }

  /** Whatever the number of commits: a scan that found every slot as it was after `v` of
      them answers with the total at that time. */
  lemma ConsistentScan(sizes: seq<seq<nat>>, scan: Scan, v: nat)
    requires Whole(sizes, scan) && scan.since <= v <= scan.until && SeenAt(scan, v)
    ensures Picked(sizes, scan.seen) == sizes[v] && scan.total == Sum(sizes[v])
  {
    forall j | 0 <= j < CAPACITY ensures SizeSeen(sizes, scan.seen, j) == sizes[v][j] {
      var m := scan.seen[j];
      if m <= v {
        SlotStays(sizes, j, m, v);
      } else {
        SlotStays(sizes, j, v, m);
      }
    }
  }

  lemma OneCommitScan(sizes: seq<seq<nat>>, scan: Scan)
    requires Whole(sizes, scan) && scan.until == scan.since + 1
    ensures scan.total == Sum(sizes[if scan.seen[InOf(scan.since)] == scan.since then scan.since else scan.until])
  {
    ConsistentScan(sizes, scan, if scan.seen[InOf(scan.since)] == scan.since then scan.since else scan.until);
  }

  /** What two commits add to the totals: `dp` at the first one's slot, `dq` at the
      second one's. */
  lemma TwoCommitSums(sizes: seq<seq<nat>>, since: nat) returns (p: nat, q: nat, dp: int, dq: int)
    requires since + 2 < |sizes|
    requires OneCommit(sizes[since], sizes[since + 1], InOf(since))
    requires OneCommit(sizes[since + 1], sizes[since + 2], InOf(since + 1))
    ensures p == InOf(since) && q == InOf(since + 1) && p != q
    ensures dp == Change(sizes[since], sizes[since + 2], p) && dq == Change(sizes[since], sizes[since + 2], q)
    ensures Sum(sizes[since + 1]) == Sum(sizes[since]) + dp
    ensures Sum(sizes[since + 2]) == Sum(sizes[since]) + dp + dq
    ensures Sum(sizes[since][q := sizes[since + 2][q]]) == Sum(sizes[since]) + dq
  {
    p, q := InOf(since), InOf(since + 1);
    dp, dq := Change(sizes[since], sizes[since + 2], p), Change(sizes[since], sizes[since + 2], q);
    SumUpdate(sizes[since], p, sizes[since + 1][p]);
    SumUpdate(sizes[since + 1], q, sizes[since + 2][q]);
    SumUpdate(sizes[since], q, sizes[since + 2][q]);
  }

  /** The first commit's slot read before it, the second one's after it. */
  lemma SplitScan(sizes: seq<seq<nat>>, scan: Scan, p: nat, q: nat)
    requires Whole(sizes, scan) && scan.until == scan.since + 2
    requires p == InOf(scan.since) && q == InOf(scan.since + 1) && p != q
    requires scan.seen[p] == scan.since && scan.seen[q] == scan.until
    ensures Picked(sizes, scan.seen) == sizes[scan.since][q := sizes[scan.until][q]]
  {
    forall j | 0 <= j < CAPACITY && j != p && j != q
      ensures SizeSeen(sizes, scan.seen, j) == sizes[scan.since][j]
    {
      SlotStays(sizes, j, scan.since, scan.seen[j]);
    }
  }

  lemma TwoCommitTotal(sizes: seq<seq<nat>>, scan: Scan, p: nat, q: nat)
    requires Whole(sizes, scan) && scan.until == scan.since + 2
    requires p == InOf(scan.since) && q == InOf(scan.since + 1) && p != q
    ensures var before, after := sizes[scan.since], sizes[scan.until];
            scan.total ==
            if scan.seen[p] == scan.since && scan.seen[q] == scan.until then Sum(before[q := after[q]])
            else if scan.seen[p] == scan.since then Sum(before)
            else if scan.seen[q] == scan.until then Sum(after)
            else Sum(sizes[scan.since + 1])
  {
    if scan.seen[p] == scan.since && scan.seen[q] == scan.until {
      SplitScan(sizes, scan, p, q);
    } else {
      ConsistentScan(sizes, scan,
                     if scan.seen[p] == scan.since then scan.since
                     else if scan.seen[q] == scan.until then scan.until
                     else scan.since + 1);
    }
  }

  /** Two commits are one too many: the answer misses all three totals if and only if
      the scan has passed the first commit's slot before it and comes to the second
      one's after it, and both change their slot's size, by different amounts. */
  lemma TwoCommitScan(sizes: seq<seq<nat>>, scan: Scan)
    requires Whole(sizes, scan) && scan.until == scan.since + 2
    ensures var p, q := InOf(scan.since), InOf(scan.since + 1);
            var dp := Change(sizes[scan.since], sizes[scan.until], p);
            var dq := Change(sizes[scan.since], sizes[scan.until], q);
            scan.total !in {Sum(sizes[scan.since]), Sum(sizes[scan.since + 1]), Sum(sizes[scan.until])}
            <==>
            scan.seen[p] == scan.since && scan.seen[q] == scan.until && dp != 0 && dq != 0 && dp != dq
  {
    assert OneCommit(sizes[scan.since], sizes[scan.since + 1], InOf(scan.since));
    assert OneCommit(sizes[scan.since + 1], sizes[scan.since + 2], InOf(scan.since + 1));
    var p, q, dp, dq := TwoCommitSums(sizes, scan.since);
    TwoCommitTotal(sizes, scan, p, q);
  }

  ghost predicate Answers(sizes: seq<seq<nat>>, scan: Scan) {
    && |scan.seen| == CAPACITY
    && scan.since <= scan.until < |sizes|
    && (forall m :: 0 <= m < |sizes| ==> |sizes[m]| == CAPACITY)
    && var p, q := InOf(scan.since), InOf(scan.since + 1);
       var before, after := sizes[scan.since], sizes[scan.until];
       && (forall v :: scan.since <= v <= scan.until && SeenAt(scan, v) ==> scan.total == Sum(sizes[v]))
       && (scan.until == scan.since ==> scan.total == Sum(before))
       && (scan.until == scan.since + 1 ==>
             scan.total == if scan.seen[p] == scan.since then Sum(before) else Sum(after))
       && (scan.until == scan.since + 2 ==>
             (scan.total !in {Sum(before), Sum(sizes[scan.since + 1]), Sum(after)} <==>
                && scan.seen[p] == scan.since && scan.seen[q] == scan.until
                && Change(before, after, p) != 0 && Change(before, after, q) != 0
                && Change(before, after, p) != Change(before, after, q)))
  }

  lemma WholeAnswers(sizes: seq<seq<nat>>, scan: Scan)
    requires Whole(sizes, scan)
    ensures Answers(sizes, scan)
  {
    forall v | scan.since <= v <= scan.until && SeenAt(scan, v) ensures scan.total == Sum(sizes[v]) {
      ConsistentScan(sizes, scan, v);
    }
    if scan.until == scan.since {
      ConsistentScan(sizes, scan, scan.since);
    } else if scan.until == scan.since + 1 {
      OneCommitScan(sizes, scan);
    } else if scan.until == scan.since + 2 {
      TwoCommitScan(sizes, scan);
    }
  }

  /** In every interleaving, a finished scan that found every slot as it was after some
      number of commits answers with the total at that time, however many commits
      overlapped it.  So one that no commit overlapped answers with the total; one that
      a single commit overlapped with the total before it or after it, according to
      whether it read the slot before; and one that two commits overlapped misses all
      three totals exactly as `TwoCommitScan` says. */
  lemma ScanAnswers(c: Config, run: seq<Action>, n: nat)
    requires Initial(c) && IsRun(c, run) && PoliteRun(c, run)
    requires n < |Last(c, run).log| && Last(c, run).log[n].Sought?
    ensures Answers(Last(c, run).sizes, Last(c, run).log[n].scan)
  {
    WholeScan(c, run, n);
    WholeAnswers(Last(c, run).sizes, Last(c, run).log[n].scan);
  }
}
