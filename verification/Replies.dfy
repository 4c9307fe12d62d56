/** What a connection is sent in an interleaving: as long as nobody commits a packet
    during its reply, the device's contents, as if it had been alone. */
module Replies {
  import opened Bytes
  import opened Memory
  import opened CircularBuffer
  import opened PacketSpec
  import opened Driver
  import opened CriticalSection
  import opened Threads
  import opened Interleaving
  import opened Programs
  import opened Schedules
  import opened Server
  import opened ServerRuns

  predicate IsReadBy(item: Item, t: nat) {
    item.Called? && item.call.ReadCall? && item.t == t
  }

  predicate Commits(item: Item) {
    item.Called? && item.call.WriteCall? && HasNewline(item.call.data)
  }

  /** Items `a` to `b` of a log hold no write that finishes a packet. */
  ghost predicate NobodyCommits(log: seq<Item>, a: nat, b: nat) {
    forall n :: a <= n < b && n < |log| ==> !Commits(log[n])
  }

  /** In items `a` to `b` thread `t` does nothing but read. */
  ghost predicate OnlyReads(log: seq<Item>, a: nat, b: nat, t: nat) {
    forall n :: a <= n < b && n < |log| && log[n].t == t ==> IsReadBy(log[n], t)
  }

  /** A read of `t` among them has come back empty. */
  ghost predicate EndSeen(log: seq<Item>, a: nat, b: nat, t: nat) {
    exists n :: a <= n < b && n < |log| && IsReadBy(log[n], t) && log[n].result.bytes == []
  }

  /** All that thread `t` reads in items `a` to `b`, in order. */
  function BytesRead(log: seq<Item>, a: nat, b: nat, t: nat): seq<byte>
    requires b <= |log|
  {
    if b <= a then []
    else BytesRead(log, a, b - 1, t) + if IsReadBy(log[b - 1], t) then log[b - 1].result.bytes else []
  }

  /** The contents after the first `n` items. */
  function ContentsAt(log: seq<Item>, n: nat): seq<seq<byte>>
    requires n <= |log|
  {
    LastTen(Packets(Chunks(WritesOf(log[..n]))))
  }

  // ----- Reading on

  /** The worlds of a serial run: the one it starts from, and one after each item. */
  function Worlds(start: map<nat, int>, log: seq<Item>): (worlds: seq<World>)
    ensures |worlds| == |log| + 1
    ensures forall n :: 0 <= n <= |log| ==> worlds[n] == SerialRun(start, log[..n])
  {
    seq(|log| + 1, n requires 0 <= n <= |log| => SerialRun(start, log[..n]))
  }

  ghost predicate StepAt(worlds: seq<World>, log: seq<Item>, n: nat)
    requires |worlds| == |log| + 1 && n < |log|
  {
    (worlds[n + 1], ResultOf(log[n])) == SerialItem(worlds[n], log[n])
  }

  /** Each item does to its world, and returns, what it does and returns alone. */
  ghost predicate Steps(worlds: seq<World>, log: seq<Item>) {
    |worlds| == |log| + 1 && forall n :: 0 <= n < |log| ==> StepAt(worlds, log, n)
  }

  lemma WorldsStep(start: map<nat, int>, log: seq<Item>)
    requires LogOk(start, log)
    ensures Steps(Worlds(start, log), log)
  {
    forall n | 0 <= n < |log| ensures StepAt(Worlds(start, log), log, n) {
      assert log[..n + 1][..n] == log[..n];
      assert ItemOk(start, log, n);
    }
  }

  lemma WorldHolds(start: map<nat, int>, log: seq<Item>, n: nat)
    requires n <= |log|
    ensures Worlds(start, log)[n].abs.view == ContentsAt(log, n)
  {
    SerialRunIsHistory(start, log[..n]);
    HistoryIsView(Chunks(WritesOf(log[..n])));
  }

  /** A file at `p` has moved to `q` reading `r`, which is what lies between; past the end
      there is nothing to read. */
  ghost predicate ReadsOn(flat: seq<byte>, p: int, r: seq<byte>, q: int) {
    && |flat| < SIZE_T
    && 0 <= p && q == p + |r| < SIZE_T
    && if p <= |flat| then q <= |flat| && r == flat[p..q] else r == []
  }

  lemma ReadsCompose(flat: seq<byte>, p: int, r: seq<byte>, q: int, s: seq<byte>, q': int)
    requires ReadsOn(flat, p, r, q) && ReadsOn(flat, q, s, q')
    ensures ReadsOn(flat, p, r + s, q')
  {
  }

  lemma ReadIsOn(view: seq<seq<byte>>, pos: nat)
    requires pos < SIZE_T && |Flat(view)| < SIZE_T
    ensures ReadsOn(Flat(view), pos, ReadAbs(view, pos), pos + |ReadAbs(view, pos)|)
    ensures ReadAbs(view, pos) == [] <==> |Flat(view)| <= pos
  {
    ReadFacts(view, pos);
  }

  lemma ItemKeepsView(w: World, item: Item)
    requires !Commits(item)
    ensures SerialItem(w, item).0.abs.view == w.abs.view
  {
  }

  lemma ItemMovesFile(w: World, item: Item, t: nat)
    requires item.t == t ==> IsReadBy(item, t)
    requires ResultOf(item) == SerialItem(w, item).1
    ensures var r := if IsReadBy(item, t) then item.result.bytes else [];
            && FileOf(SerialItem(w, item).0, t) == FileOf(w, t) + |r|
            && (IsReadBy(item, t) ==> r == ReadAbs(w.abs.view, SizeT(FileOf(w, t))))
  {
  }

  /** One more item: `t` reads on, or its file stays where it is. */
  lemma ItemReads(worlds: seq<World>, log: seq<Item>, n: nat, t: nat, flat: seq<byte>) returns (r: seq<byte>)
    requires Steps(worlds, log) && n < |log| && !Commits(log[n]) && (log[n].t == t ==> IsReadBy(log[n], t))
    requires 0 <= FileOf(worlds[n], t) < SIZE_T && flat == Flat(worlds[n].abs.view) && |flat| < SIZE_T
    ensures r == if IsReadBy(log[n], t) then log[n].result.bytes else []
    ensures worlds[n + 1].abs.view == worlds[n].abs.view
    ensures ReadsOn(flat, FileOf(worlds[n], t), r, FileOf(worlds[n + 1], t))
    ensures IsReadBy(log[n], t) && r == [] ==> |flat| <= FileOf(worlds[n], t)
  {
    r := if IsReadBy(log[n], t) then log[n].result.bytes else [];
    assert StepAt(worlds, log, n);
    ItemKeepsView(worlds[n], log[n]);
    ItemMovesFile(worlds[n], log[n], t);
    ReadIsOn(worlds[n].abs.view, FileOf(worlds[n], t));
  }

  /** While nobody commits and `t` only reads, it reads on. */
  lemma {:induction false} QuietReads(worlds: seq<World>, log: seq<Item>, a: nat, b: nat, t: nat, flat: seq<byte>)
    requires Steps(worlds, log) && a <= b <= |log| && NobodyCommits(log, a, b) && OnlyReads(log, a, b, t)
    requires 0 <= FileOf(worlds[a], t) < SIZE_T && flat == Flat(worlds[a].abs.view) && |flat| < SIZE_T
    ensures worlds[b].abs.view == worlds[a].abs.view
    ensures ReadsOn(flat, FileOf(worlds[a], t), BytesRead(log, a, b, t), FileOf(worlds[b], t))
    decreases b
  {
    if a < b {
      QuietReads(worlds, log, a, b - 1, t, flat);
      var r := ItemReads(worlds, log, b - 1, t, flat);
      ReadsCompose(flat, FileOf(worlds[a], t), BytesRead(log, a, b - 1, t), FileOf(worlds[b - 1], t), r,
                   FileOf(worlds[b], t));
    }
  }

  /** Once a read has come back empty, all has been read. */
  lemma ReadToTheEnd(worlds: seq<World>, log: seq<Item>, a: nat, b: nat, t: nat, flat: seq<byte>)
    requires Steps(worlds, log) && a <= b <= |log| && NobodyCommits(log, a, b) && OnlyReads(log, a, b, t)
    requires EndSeen(log, a, b, t) && 0 <= FileOf(worlds[a], t) < SIZE_T
    requires flat == Flat(worlds[a].abs.view) && |flat| < SIZE_T
    ensures BytesRead(log, a, b, t) == From(flat, FileOf(worlds[a], t))
  {
    var n :| a <= n < b && n < |log| && IsReadBy(log[n], t) && log[n].result.bytes == [];
    QuietReads(worlds, log, a, n, t, flat);
    var r := ItemReads(worlds, log, n, t, flat);
    QuietReads(worlds, log, n, b, t, flat);
    QuietReads(worlds, log, a, b, t, flat);
  }

  // ----- Replies

  lemma ReopenedAt(start: map<nat, int>, log: seq<Item>, a: nat, t: nat)
    requires a < |log| && log[a] == Reopened(t) && LogOk(start, log)
    ensures var w := Worlds(start, log)[a + 1];
            FileOf(w, t) == 0 && w.abs.view == ContentsAt(log, a)
  {
    WorldsStep(start, log);
    assert StepAt(Worlds(start, log), log, a);
    WorldHolds(start, log, a);
  }

  /** A thread that opens the device afresh and then reads until there is no more gets
      exactly the contents, if nobody commits meanwhile. */
  lemma ReplyIsContents(c: Config, run: seq<Action>, a: nat, b: nat, t: nat)
    requires Initial(c) && IsRun(c, run) && PoliteRun(c, run)
    requires a < b <= |Last(c, run).log| && Last(c, run).log[a] == Reopened(t)
    requires NobodyCommits(Last(c, run).log, a + 1, b) && OnlyReads(Last(c, run).log, a + 1, b, t)
    requires EndSeen(Last(c, run).log, a + 1, b, t) && |Flat(ContentsAt(Last(c, run).log, a))| < SIZE_T
    ensures BytesRead(Last(c, run).log, a + 1, b, t) == Flat(ContentsAt(Last(c, run).log, a))
  {
    var log := Last(c, run).log;
    Serialisable(c, run);
    ContentsAreRead(c.start, log, a, b, t);
  }

  lemma ContentsAreRead(start: map<nat, int>, log: seq<Item>, a: nat, b: nat, t: nat)
    requires LogOk(start, log) && a < b <= |log| && log[a] == Reopened(t)
    requires NobodyCommits(log, a + 1, b) && OnlyReads(log, a + 1, b, t) && EndSeen(log, a + 1, b, t)
    requires |Flat(ContentsAt(log, a))| < SIZE_T
    ensures BytesRead(log, a + 1, b, t) == Flat(ContentsAt(log, a))
  {
    ReopenedAt(start, log, a, t);
    WorldsStep(start, log);
    ReadToTheEnd(Worlds(start, log), log, a + 1, b, t, Flat(ContentsAt(log, a)));
    assert From(Flat(ContentsAt(log, a)), 0) == Flat(ContentsAt(log, a));
  }

  // ----- Replies of the server

  lemma {:induction false} JobsAppend(log: seq<Item>, more: seq<Item>, t: nat)
    ensures JobsOf(log + more, t) == JobsOf(log, t) + JobsOf(more, t)
    decreases |more|
  {
    if more == [] {
      assert log + more == log;
    } else {
      var n := |more| - 1;
      JobsAppend(log, more[..n], t);
      assert log + more == log + more[..n] + [more[n]];
      JobsOfSnoc(log + more[..n], more[n], t);
    }
  }

  /** Where an item stands among its thread's jobs. */
  lemma JobIndex(log: seq<Item>, n: nat)
    requires n < |log|
    ensures var t, jobs, i := log[n].t, JobsOf(log, log[n].t), |JobsOf(log[..n], log[n].t)|;
            i < |jobs| && jobs[i] == JobOf(log[n]) && jobs[..i] == JobsOf(log[..n], t)
  {
    var t := log[n].t;
    JobsAppend(log[..n], log[n..], t);
    assert log[..n] + log[n..] == log;
    JobsAppend([log[n]], log[n + 1..], t);
    assert [log[n]] + log[n + 1..] == log[n..];
    assert JobsOf([log[n]], t) == [JobOf(log[n])];
  }

  predicate IsSeek(job: Job) {
    job.Do? && job.call.SeekCall?
  }

  /** Once a connection has begun its reply, it only reads. */
  predicate BeginsReply(job: Job) {
    job.Reopen? || IsSeek(job) || job == Do(ReadCall, false)
  }

  ghost predicate ReadsInTheEnd(jobs: seq<Job>) {
    forall i, j :: 0 <= i < j < |jobs| && BeginsReply(jobs[i]) ==> jobs[j] == Do(ReadCall, false)
  }

  lemma {:induction false} KeptFrom(program: seq<Job>, n: nat, dropped: set<nat>, i: nat) returns (k: nat)
    requires n <= |program| && i < |Kept(program, n, dropped)|
    ensures k < n && program[k] == Kept(program, n, dropped)[i]
  {
    if i < |Kept(program, n - 1, dropped)| {
      k := KeptFrom(program, n - 1, dropped, i);
    } else {
      k := n - 1;
    }
  }

  lemma {:induction false} KeptReadsInTheEnd(program: seq<Job>, n: nat, dropped: set<nat>)
    requires n <= |program| && ReadsInTheEnd(program)
    ensures ReadsInTheEnd(Kept(program, n, dropped))
  {
    if n > 0 {
      KeptReadsInTheEnd(program, n - 1, dropped);
      var before := Kept(program, n - 1, dropped);
      forall i | 0 <= i < |before| && BeginsReply(before[i]) ensures program[n - 1] == Do(ReadCall, false) {
        var k := KeptFrom(program, n - 1, dropped, i);
      }
    }
  }

  lemma ProgramReadsInTheEnd(client: Client)
    requires ClientOk(client)
    ensures ReadsInTheEnd(Program(client))
  {
    ReplyReadsInTheEnd(Sent(client), Got(client).outcome, client.seekto, client.rounds);
  }

  lemma ReplyReadsInTheEnd(ws: seq<seq<byte>>, outcome: Outcome, seekto: (nat, nat), rounds: nat)
    ensures ReadsInTheEnd(GuardedWrites(ws) + Reply(outcome, seekto, rounds))
  {
  }

  lemma ServerOnlyReads(clients: map<nat, Client>, c: Config, run: seq<Action>, a: nat, b: nat, t: nat)
    requires Serving(clients, c) && IsRun(c, run)
    requires a < b <= |Last(c, run).log| && Last(c, run).log[a].t == t && BeginsReply(JobOf(Last(c, run).log[a]))
    ensures OnlyReads(Last(c, run).log, a + 1, b, t)
  {
    var e := Last(c, run);
    ServerReadsInTheEnd(clients, c, run, a);
    forall n | a < n < b && e.log[n].t == t ensures IsReadBy(e.log[n], t) {
      LaterJob(e.log, a, n, t);
    }
  }

  lemma ServerReadsInTheEnd(clients: map<nat, Client>, c: Config, run: seq<Action>, n: nat)
    requires Serving(clients, c) && IsRun(c, run) && n < |Last(c, run).log|
    ensures Last(c, run).log[n].t in clients
    ensures ReadsInTheEnd(JobsOf(Last(c, run).log, Last(c, run).log[n].t))
  {
    var e, t := Last(c, run), Last(c, run).log[n].t;
    LogIsMerge(c, run);
    assert Serves(clients, c, t);
    ProgramReadsInTheEnd(clients[t]);
    KeptReadsInTheEnd(c.threads[t].program, e.threads[t].next, e.threads[t].dropped);
  }

  lemma LaterJob(log: seq<Item>, a: nat, n: nat, t: nat)
    requires a < n < |log| && log[a].t == t && log[n].t == t
    requires BeginsReply(JobOf(log[a])) && ReadsInTheEnd(JobsOf(log, t))
    ensures IsReadBy(log[n], t)
  {
    JobIndex(log, a);
    JobIndex(log, n);
    JobIndex(log[..n], a);
    assert log[..n][..a] == log[..a];
  }

  lemma OneMoreItem(log: seq<Item>, n: nat)
    requires n < |log|
    ensures Packets(Chunks(WritesOf(log[..n + 1]))) ==
            Packets(Chunks(WritesOf(log[..n]))) + if Commits(log[n]) then [PacketAt(log, n)] else []
  {
    assert log[..n + 1][..n] == log[..n];
    if log[n].Called? && log[n].call.WriteCall? {
      assert Chunks(WritesOf(log[..n + 1])) == Chunks(WritesOf(log[..n])) + [log[n].call.data];
      HistorySnoc(Chunks(WritesOf(log[..n])), log[n].call.data);
    } else {
      assert WritesOf(log[..n + 1]) == WritesOf(log[..n]);
    }
  }

  lemma {:induction false} QuietPackets(log: seq<Item>, a: nat, b: nat)
    requires a <= b <= |log| && NobodyCommits(log, a, b)
    ensures Packets(Chunks(WritesOf(log[..b]))) == Packets(Chunks(WritesOf(log[..a])))
    decreases b
  {
    if a < b {
      QuietPackets(log, a, b - 1);
      OneMoreItem(log, b - 1);
    }
  }

  lemma QuietContents(log: seq<Item>, a: nat, b: nat)
    requires a <= b <= |log| && NobodyCommits(log, a, b)
    ensures ContentsAt(log, b) == ContentsAt(log, a)
  {
    QuietPackets(log, a, b);
  }

  /** The packet that the write `log[w]` finishes. */
  function PacketAt(log: seq<Item>, w: nat): seq<byte>
    requires w < |log| && Commits(log[w])
  {
    Join(Unfinished(Chunks(WritesOf(log[..w])))) + CStr(log[w].call.data)
  }

  lemma EndsWithPacket(log: seq<Item>, w: nat)
    requires w < |log| && Commits(log[w])
    ensures var reply, packet := Flat(ContentsAt(log, w + 1)), PacketAt(log, w);
            EndsWith(reply, packet)
  {
    var packets := Packets(Chunks(WritesOf(log[..w])));
    OneMoreItem(log, w);
    PushLastTen(packets, PacketAt(log, w));
    PushEndsWith(LastTen(packets), PacketAt(log, w));
  }

  lemma EchoInLog(start: map<nat, int>, log: seq<Item>, w: nat, a: nat, b: nat, t: nat)
    requires LogOk(start, log) && w < a < b <= |log| && Commits(log[w]) && log[a] == Reopened(t)
    requires NobodyCommits(log, w + 1, b) && OnlyReads(log, a + 1, b, t) && EndSeen(log, a + 1, b, t)
    requires |Flat(ContentsAt(log, w + 1))| < SIZE_T
    ensures var reply, packet := BytesRead(log, a + 1, b, t), PacketAt(log, w);
            && reply == Flat(ContentsAt(log, w + 1))
            && EndsWith(reply, packet)
  {
    QuietContents(log, w + 1, a);
    EndsWithPacket(log, w);
    ContentsAreRead(start, log, a, b, t);
  }

  /** The echo, in an interleaving: if nobody commits between the write that finishes a
      connection's packet and the end of its reply, it is sent the last ten packets,
      the one it finished at the end. */
  lemma EchoInInterleaving(clients: map<nat, Client>, c: Config, run: seq<Action>, w: nat, a: nat, b: nat, t: nat)
    requires Serving(clients, c) && IsRun(c, run) && PoliteRun(c, run)
    requires w < a < b <= |Last(c, run).log|
    requires Commits(Last(c, run).log[w]) && Last(c, run).log[w].t == t && Last(c, run).log[a] == Reopened(t)
    requires NobodyCommits(Last(c, run).log, w + 1, b) && EndSeen(Last(c, run).log, a + 1, b, t)
    requires |Flat(ContentsAt(Last(c, run).log, w + 1))| < SIZE_T
    ensures var log := Last(c, run).log;
            var reply, packet := BytesRead(log, a + 1, b, t), PacketAt(log, w);
            && reply == Flat(ContentsAt(log, w + 1))
            && EndsWith(reply, packet)
  {
    ServerOnlyReads(clients, c, run, a, b, t);
    Serialisable(c, run);
    EchoInLog(c.start, Last(c, run).log, w, a, b, t);
  }

  // ----- Replies to seek commands

  /** In items up to `a` thread `t` does nothing that moves its file: it writes chunks
      without a newline, or has a seek refused. */
  ghost predicate FileUnmoved(log: seq<Item>, a: nat, t: nat) {
    forall n :: 0 <= n < a && n < |log| && log[n].t == t ==> KeepsFile(log[n])
  }

  predicate KeepsFile(item: Item) {
    item.Called? &&
    match item.call
    case ReadCall => false
    case WriteCall(data) => !HasNewline(data)
    case SeekCall(_, _) => item.result.retval != 0
  }

  lemma ItemKeepsFile(w: World, item: Item, t: nat)
    requires ResultOf(item) == SerialItem(w, item).1 && (item.t == t ==> KeepsFile(item))
    ensures FileOf(SerialItem(w, item).0, t) == FileOf(w, t)
  {
  }

  lemma {:induction false} FileStays(worlds: seq<World>, log: seq<Item>, a: nat, t: nat)
    requires Steps(worlds, log) && a <= |log| && FileUnmoved(log, a, t)
    ensures FileOf(worlds[a], t) == FileOf(worlds[0], t)
    decreases a
  {
    if a > 0 {
      FileStays(worlds, log, a - 1, t);
      assert StepAt(worlds, log, a - 1);
      ItemKeepsFile(worlds[a - 1], log[a - 1], t);
    }
  }

  /** The chunks before a seek command hold no newline: the loop would have been left. */
  lemma {:induction false} NoNewlineBeforeSeek(buffer: seq<byte>, events: seq<Recv>, i: nat)
    requires |buffer| == READ_WRITE_SIZE && Receivable(events) && Receive(buffer, events).outcome.SeekSeen?
    requires i < |Receive(buffer, events).written|
    ensures !HasNewline(Receive(buffer, events).written[i])
    decreases |events|
  {
    if events[0].Data? {
      ServerSeesNewlineIff(buffer, events[0].bytes, events[0].beyond);
      if i > 0 {
        NoNewlineBeforeSeek(Overwrite(buffer, events[0].bytes), events[1..], i - 1);
      }
    } else {
      NoNewlineBeforeSeek(buffer, events[1..], i);
    }
  }

  /** What a connection that is sent a seek command may do: write a chunk without a
      newline, seek where the command says, and read. */
  predicate SeekJob(client: Client, job: Job) {
    || (IsWrite(job) && !HasNewline(job.call.data))
    || job == Do(SeekCall(client.seekto.0, client.seekto.1), true)
    || job == Do(ReadCall, false)
  }

  lemma SeekProgram(client: Client, k: nat)
    requires ClientOk(client) && Got(client).outcome.SeekSeen? && k < |Program(client)|
    ensures SeekJob(client, Program(client)[k])
  {
    if k < |Sent(client)| {
      NoNewlineBeforeSeek(Zeros(READ_WRITE_SIZE), client.events, k);
    }
  }

  lemma SeekOnlyIfSeen(client: Client, k: nat)
    requires ClientOk(client) && k < |Program(client)| && IsSeek(Program(client)[k])
    ensures Got(client).outcome.SeekSeen?
  {
  }

  /** Every logged job of a connection is one of its program. */
  lemma LoggedFromProgram(clients: map<nat, Client>, c: Config, run: seq<Action>, n: nat) returns (k: nat)
    requires Serving(clients, c) && IsRun(c, run) && n < |Last(c, run).log|
    ensures var item := Last(c, run).log[n];
            && item.t in clients && ClientOk(clients[item.t])
            && k < |Program(clients[item.t])| && Program(clients[item.t])[k] == JobOf(item)
  {
    var e, t := Last(c, run), Last(c, run).log[n].t;
    LogIsMerge(c, run);
    assert Serves(clients, c, t);
    LoggedJob(e.log, n);
    KeptJob(c.threads[t].program, e.threads[t].next, e.threads[t].dropped, JobOf(e.log[n]));
    k :| 0 <= k < |Program(clients[t])| && Program(clients[t])[k] == JobOf(e.log[n]);
  }

  lemma LoggedSeekJob(clients: map<nat, Client>, c: Config, run: seq<Action>, n: nat)
    requires Serving(clients, c) && IsRun(c, run) && n < |Last(c, run).log|
    requires Last(c, run).log[n].t in clients && ClientOk(clients[Last(c, run).log[n].t])
    requires Got(clients[Last(c, run).log[n].t]).outcome.SeekSeen?
    ensures SeekJob(clients[Last(c, run).log[n].t], JobOf(Last(c, run).log[n]))
  {
    var k := LoggedFromProgram(clients, c, run, n);
    SeekProgram(clients[Last(c, run).log[n].t], k);
  }

  /** A logged seek command is the one that was sent, and until then its connection's file
      has not moved. */
  lemma SeekComesFirst(clients: map<nat, Client>, c: Config, run: seq<Action>, a: nat, t: nat)
    requires Serving(clients, c) && IsRun(c, run)
    requires a < |Last(c, run).log| && Last(c, run).log[a].t == t && IsSeek(JobOf(Last(c, run).log[a]))
    ensures t in clients && ClientOk(clients[t])
    ensures Last(c, run).log[a].call == SeekCall(clients[t].seekto.0, clients[t].seekto.1)
    ensures FileUnmoved(Last(c, run).log, a, t)
  {
    var log := Last(c, run).log;
    var k := LoggedFromProgram(clients, c, run, a);
    SeekOnlyIfSeen(clients[t], k);
    LoggedSeekJob(clients, c, run, a);
    ServerReadsInTheEnd(clients, c, run, a);
    forall n | 0 <= n < a && log[n].t == t ensures KeepsFile(log[n]) {
      LoggedSeekJob(clients, c, run, n);
      if BeginsReply(JobOf(log[n])) {
        LaterJob(log, n, a, t);
      }
    }
  }

  /** The abstract device after the first `n` items. */
  lemma DeviceAt(start: map<nat, int>, log: seq<Item>, n: nat)
    requires n <= |log|
    ensures var abs := Worlds(start, log)[n].abs;
            abs.view == ContentsAt(log, n) && abs.commits == |Packets(Chunks(WritesOf(log[..n])))|
  {
    SerialRunIsHistory(start, log[..n]);
    HistoryIsView(Chunks(WritesOf(log[..n])));
  }

  /** A seek from the start of a file, in the serial run. */
  lemma SeekMovesFile(w: World, item: Item, cmd: nat, off: nat)
    requires item.Called? && item.call == SeekCall(cmd, off) && ResultOf(item) == SerialItem(w, item).1
    requires |w.abs.view| <= CAPACITY && |Flat(w.abs.view)| < SIZE_T && FileOf(w, item.t) == 0
    requires cmd < |w.abs.view| && off <= |w.abs.view[cmd]| ==> OutOf(w.abs.commits) + cmd <= CAPACITY
    ensures var w' := SerialItem(w, item).0;
            && w'.abs == w.abs
            && 0 <= FileOf(w', item.t) <= |Flat(w.abs.view)|
            && From(Flat(w.abs.view), FileOf(w', item.t)) == FromCommand(w.abs.view, cmd, off)
    ensures item.result.retval == if cmd < |w.abs.view| && off <= |w.abs.view[cmd]| then 0 else -EINVAL
  {
    var view := w.abs.view;
    SeekAcceptedIff(w.abs, item.past, cmd, off, 0);
    if cmd < |view| && off <= |view[cmd]| {
      SeekExactIff(w.abs, cmd, off);
      assert SeekAbs(w.abs, item.past, cmd, off) == Some(|Flat(view[..cmd])| + off);
      AheadOfCommand(view, cmd, off);
    } else {
      assert From(Flat(view), 0) == Flat(view);
    }
  }

  /** A seek command in the log, from the start of its connection's file, and the reads that
      follow it. */
  lemma SeekReplyInLog(start: map<nat, int>, log: seq<Item>, a: nat, b: nat, t: nat, cmd: nat, off: nat)
    requires LogOk(start, log) && a < b <= |log| && FileUnmoved(log, a, t)
    requires FileOf(World(FRESH_DEVICE, start), t) == 0
    requires log[a].Called? && log[a].t == t && log[a].call == SeekCall(cmd, off)
    requires NobodyCommits(log, a + 1, b) && OnlyReads(log, a + 1, b, t) && EndSeen(log, a + 1, b, t)
    requires |Flat(ContentsAt(log, a))| < SIZE_T
    requires SeekStaysInside(log, a, cmd, off)
    ensures log[a].result.retval == if HasPlace(ContentsAt(log, a), cmd, off) then 0 else -EINVAL
    ensures BytesRead(log, a + 1, b, t) == FromCommand(ContentsAt(log, a), cmd, off)
  {
    var worlds := Worlds(start, log);
    WorldsStep(start, log);
    DeviceAt(start, log, a);
    StartOfFiles(start, log, t);
    FileStays(worlds, log, a, t);
    assert StepAt(worlds, log, a);
    SeekMovesFile(worlds[a], log[a], cmd, off);
    ReadToTheEnd(worlds, log, a + 1, b, t, Flat(ContentsAt(log, a)));
  }

  lemma StartOfFiles(start: map<nat, int>, log: seq<Item>, t: nat)
    ensures FileOf(Worlds(start, log)[0], t) == FileOf(World(FRESH_DEVICE, start), t)
  {
    assert log[..0] == [];
  }

  /** There is an offset `off` in a live command `cmd`. */
  predicate HasPlace(view: seq<seq<byte>>, cmd: nat, off: nat) {
    cmd < |view| && off <= |view[cmd]|
  }

  /** The loop that looks for it does not leave the array. */
  predicate SeekStaysInside(log: seq<Item>, a: nat, cmd: nat, off: nat)
    requires a <= |log|
  {
    HasPlace(ContentsAt(log, a), cmd, off) ==>
      OutOf(|Packets(Chunks(WritesOf(log[..a])))|) + cmd <= CAPACITY
  }

  lemma ServerFilesStart(clients: map<nat, Client>, c: Config, t: nat)
    requires Serving(clients, c) && t in clients
    ensures FileOf(World(FRESH_DEVICE, c.start), t) == 0
  {
    assert Serves(clients, c, t) && FreshThread(c, t);
  }

  /** The reply to a seek command, in an interleaving: the command that was sent is the one
      that is carried out; it is accepted exactly if it is live and the offset within
      it; and if nobody commits until the reply is through, the connection is sent the
      contents from there on, or all of them after a refusal. */
  lemma SeekReplyInInterleaving(clients: map<nat, Client>, c: Config, run: seq<Action>, a: nat, b: nat, t: nat)
    requires Serving(clients, c) && IsRun(c, run) && PoliteRun(c, run) && t in clients
    requires a < b <= |Last(c, run).log| && Last(c, run).log[a].t == t && IsSeek(JobOf(Last(c, run).log[a]))
    requires NobodyCommits(Last(c, run).log, a + 1, b) && EndSeen(Last(c, run).log, a + 1, b, t)
    requires |Flat(ContentsAt(Last(c, run).log, a))| < SIZE_T
    requires SeekStaysInside(Last(c, run).log, a, clients[t].seekto.0, clients[t].seekto.1)
    ensures var log, cmd, off := Last(c, run).log, clients[t].seekto.0, clients[t].seekto.1;
            && log[a].call == SeekCall(cmd, off)
            && log[a].result.retval == (if HasPlace(ContentsAt(log, a), cmd, off) then 0 else -EINVAL)
            && BytesRead(log, a + 1, b, t) == FromCommand(ContentsAt(log, a), cmd, off)
  {
    SeekComesFirst(clients, c, run, a, t);
    ServerOnlyReads(clients, c, run, a, b, t);
    ServerFilesStart(clients, c, t);
    Serialisable(c, run);
    SeekReplyInLog(c.start, Last(c, run).log, a, b, t, clients[t].seekto.0, clients[t].seekto.1);
  }

  /** A connection whose seek command came back without having taken the mutex, as it does
      for a command number of ten or more, is sent all the contents. */
  lemma DroppedSeekReply(clients: map<nat, Client>, c: Config, run: seq<Action>, a: nat, b: nat, t: nat)
    requires Serving(clients, c) && IsRun(c, run) && PoliteRun(c, run) && t in clients
    requires ClientOk(clients[t]) && Got(clients[t]).outcome.SeekSeen?
    requires a <= b <= |Last(c, run).log| && OnlyWrites(Last(c, run).log, a, t) && OnlyReads(Last(c, run).log, a, b, t)
    requires NobodyCommits(Last(c, run).log, a, b) && EndSeen(Last(c, run).log, a, b, t)
    requires |Flat(ContentsAt(Last(c, run).log, a))| < SIZE_T
    ensures BytesRead(Last(c, run).log, a, b, t) == Flat(ContentsAt(Last(c, run).log, a))
  {
    var log := Last(c, run).log;
    forall n | 0 <= n < a && log[n].t == t ensures KeepsFile(log[n]) {
      LoggedSeekJob(clients, c, run, n);
    }
    ServerFilesStart(clients, c, t);
    Serialisable(c, run);
    AllIsRead(c.start, log, a, b, t);
  }

  ghost predicate OnlyWrites(log: seq<Item>, a: nat, t: nat) {
    forall n :: 0 <= n < a && n < |log| && log[n].t == t ==> IsWrite(JobOf(log[n]))
  }

  lemma AllIsRead(start: map<nat, int>, log: seq<Item>, a: nat, b: nat, t: nat)
    requires LogOk(start, log) && a <= b <= |log| && FileUnmoved(log, a, t)
    requires FileOf(World(FRESH_DEVICE, start), t) == 0
    requires NobodyCommits(log, a, b) && OnlyReads(log, a, b, t) && EndSeen(log, a, b, t)
    requires |Flat(ContentsAt(log, a))| < SIZE_T
    ensures BytesRead(log, a, b, t) == Flat(ContentsAt(log, a))
  {
    var worlds := Worlds(start, log);
    WorldsStep(start, log);
    WorldHolds(start, log, a);
    StartOfFiles(start, log, t);
    FileStays(worlds, log, a, t);
    ReadToTheEnd(worlds, log, a, b, t, Flat(ContentsAt(log, a)));
    assert From(Flat(ContentsAt(log, a)), 0) == Flat(ContentsAt(log, a));
  }

  // ----- An echo

  function LineTwice(): Client {
    Client([Data(LINE, [])], (0, 0), 2)
  }

  function OneConnection(): Config {
    Config(FRESH_DEV, None, None, map[0 := Thread(0, Idle, Program0(), 0, {})], map[0 := 0],
           [], [], [EntrySizes(EMPTY_RING.entry)])
  }

  function Program0(): seq<Job> {
    [Do(WriteCall(LINE), true), Reopen, Do(ReadCall, false), Do(ReadCall, false)]
  }

  lemma OneConnectionServes()
    ensures Serving(map[0 := LineTwice()], OneConnection())
  {
    var events := [Data(LINE, [])];
    assert LINE[1] == NEWLINE && LINE[0] as int != COMMAND[0] as int;
    assert events + [] == events && DataOf(events) == [LINE] + DataOf([]);
    CleanPacketProgram(LineTwice(), events, []);
    assert Program(LineTwice()) == Program0();
  }

  /** A read from beginning to end. */
  lemma SoloRead(c: Config, t: nat) returns (run: seq<Action>, item: Item)
    requires Shaped(c.dev.ring) && c.lock.None? && t in c.threads && MayBegin(c.threads[t], c.wlock)
    requires c.threads[t].program[c.threads[t].next] == Do(ReadCall, false)
    ensures IsRun(c, run) && PoliteRun(c, run) && AfterCall(c, t, false, item, Last(c, run))
    ensures IsReadBy(item, t)
  {
    BeginsToWait(c, t, ReadCall);
    var c' := Take(c, Begin(t));
    run, item := SoloCall(c', t, Env(NULL, [], NULL, []));
    var th := Last(c', run).threads[t];
    assert c'.threads[t := th] == c.threads[t := th];
    run := RunAhead(c, Begin(t), run);
  }

  /** Thread 0 is at job `next` of its program, nobody else is there. */
  ghost predicate Alone(c: Config, next: nat) {
    && Shaped(c.dev.ring) && c.lock.None? && c.wlock.None?
    && 0 in c.threads && c.threads[0].status.Idle? && c.threads[0].next == next
    && c.threads[0].program == Program0()
  }

  lemma ReadsTwice(c: Config) returns (run: seq<Action>, first: Item, second: Item)
    requires Alone(c, 2)
    ensures IsRun(c, run) && PoliteRun(c, run) && IsReadBy(first, 0) && IsReadBy(second, 0)
    ensures Last(c, run).log == c.log + [first] + [second]
  {
    var read1, read2;
    read1, first := SoloRead(c, 0);
    read2, second := SoloRead(Last(c, read1), 0);
    RunAppend(c, read1, read2);
    run := read1 + read2;
  }

  lemma ReopensAndReads(c: Config) returns (run: seq<Action>, first: Item, second: Item)
    requires Alone(c, 1)
    ensures IsRun(c, run) && PoliteRun(c, run) && IsReadBy(first, 0) && IsReadBy(second, 0)
    ensures Last(c, run).log == c.log + [Reopened(0)] + [first] + [second]
  {
    Reopens(c, 0);
    run, first, second := ReadsTwice(Take(c, Begin(0)));
    run := RunAhead(c, Begin(0), run);
  }

  /** The connection writes its line, opens the device afresh and reads twice. */
  lemma WriteAndReadTwice(c: Config) returns (run: seq<Action>)
    requires Alone(c, 0) && c.log == []
    ensures IsRun(c, run) && PoliteRun(c, run) && EchoLog(Last(c, run).log)
  {
    var write, item := SoloGuardedWrite(c, 0, LINE);
    var rest, first, second := ReopensAndReads(Last(c, write));
    RunAppend(c, write, rest);
    run := write + rest;
    assert Last(c, run).log == [item, Reopened(0), first, second];
  }

  ghost predicate EchoLog(log: seq<Item>) {
    && |log| == 4
    && log[0].Called? && log[0].t == 0 && log[0].call == WriteCall(LINE)
    && log[1] == Reopened(0) && IsReadBy(log[2], 0) && IsReadBy(log[3], 0)
  }

  lemma ReadsOfOneLine(line: seq<byte>)
    ensures ReadAbs([line], 0) == line && ReadAbs([line], |line|) == [] && Flat([line]) == line
  {
    FlatSnoc([], line);
    assert [] + [line] == [line];
    ReadFacts([line], 0);
    ReadFacts([line], |line|);
    if line != [] {
      ReadAt([line], 0, 0, 0);
    }
  }

  /** The second of two reads of a single line finds nothing more. */
  lemma SecondReadIsEmpty(worlds: seq<World>, log: seq<Item>, line: seq<byte>)
    requires Steps(worlds, log) && |log| == 4 && |line| < SIZE_T
    requires worlds[2].abs.view == [line] && FileOf(worlds[2], 0) == 0
    requires IsReadBy(log[2], 0) && IsReadBy(log[3], 0)
    ensures log[3].result.bytes == []
  {
    ReadsOfOneLine(line);
    assert StepAt(worlds, log, 2) && StepAt(worlds, log, 3);
    ItemKeepsView(worlds[2], log[2]);
    ItemMovesFile(worlds[2], log[2], 0);
    ItemMovesFile(worlds[3], log[3], 0);
  }

  lemma EndIsSeen(start: map<nat, int>, log: seq<Item>)
    requires LogOk(start, log) && EchoLog(log)
    ensures Commits(log[0]) && ContentsAt(log, 1) == [LINE] && EndSeen(log, 2, 4, 0)
  {
    assert LINE[1] == NEWLINE;
    CStrOfClean(LINE);
    assert log[..1][..0] == [];
    assert WritesOf(log[..1]) == [(log[0].t, LINE)];
    assert Chunks(WritesOf(log[..1])) == [LINE];
    WholePackets([LINE]);
    assert CStrs([LINE]) == [LINE];
    WorldsStep(start, log);
    WorldHolds(start, log, 1);
    assert StepAt(Worlds(start, log), log, 1);
    SecondReadIsEmpty(Worlds(start, log), log, LINE);
  }

  lemma LineIsEchoed(start: map<nat, int>, log: seq<Item>)
    requires LogOk(start, log) && EchoLog(log)
    ensures BytesRead(log, 2, 4, 0) == LINE
  {
    EndIsSeen(start, log);
    ReadsOfOneLine(LINE);
    ContentsAreRead(start, log, 1, 4, 0);
  }

  /** There are echoes: a connection that sends a line and reads until there is no more has
      read its line. */
  lemma EchoHappens() returns (clients: map<nat, Client>, c: Config, run: seq<Action>)
    ensures Serving(clients, c) && IsRun(c, run) && PoliteRun(c, run)
    ensures EchoLog(Last(c, run).log) && BytesRead(Last(c, run).log, 2, 4, 0) == LINE
  {
    clients, c := map[0 := LineTwice()], OneConnection();
    OneConnectionServes();
    run := WriteAndReadTwice(c);
    Serialisable(c, run);
    LineIsEchoed(c.start, Last(c, run).log);
  }
}
