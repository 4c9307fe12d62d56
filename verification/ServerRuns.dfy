/** The socket server at work: any number of connections, each on a thread of its own,
    over one device. */
module ServerRuns {
  import opened Bytes
  import opened Memory
  import opened CircularBuffer
  import opened PacketSpec
  import opened Driver
  import opened CriticalSection
  import opened Threads
  import opened Interleaving
  import opened Programs
  import opened Schedules
  import opened WriteLock
  import opened Server

  // ----- What the server's threads do

  /** A connection: what its socket delivers, what a seek command on it parses to, and how
      many reads its reply takes. */
  datatype Client = Client(events: seq<Recv>, seekto: (nat, nat), rounds: nat)

  predicate ClientOk(client: Client) {
    Receivable(client.events)
  }

  function Got(client: Client): Received
    requires ClientOk(client)
  {
    Receive(Zeros(READ_WRITE_SIZE), client.events)
  }

  /** The chunks a connection hands to the device. */
  function Sent(client: Client): seq<seq<byte>>
    requires ClientOk(client)
  {
    Got(client).written
  }

  function GuardedWrites(ws: seq<seq<byte>>): (jobs: seq<Job>)
    ensures |jobs| == |ws|
    ensures forall i :: 0 <= i < |ws| ==> jobs[i] == Do(WriteCall(ws[i]), true)
  {
    seq(|ws|, i requires 0 <= i < |ws| => Do(WriteCall(ws[i]), true))
  }

  function Reads(n: nat): (jobs: seq<Job>)
    ensures |jobs| == n
    ensures forall i :: 0 <= i < n ==> jobs[i] == Do(ReadCall, false)
  {
    seq(n, _ => Do(ReadCall, false))
  }

  /** After its writes, a connection reads: from where a seek command puts its file, or
      from the start of a file opened afresh. */
  function Reply(outcome: Outcome, seekto: (nat, nat), rounds: nat): seq<Job> {
    match outcome
    case Receiving => []
    case SeekSeen(_) => [Do(SeekCall(seekto.0, seekto.1), true)] + Reads(rounds)
    case _ => [Reopen] + Reads(rounds)
  }

  function Program(client: Client): seq<Job>
    requires ClientOk(client)
  {
    GuardedWrites(Sent(client)) + Reply(Got(client).outcome, client.seekto, client.rounds)
  }

  ghost predicate Serves(clients: map<nat, Client>, c: Config, t: nat)
    requires t in clients && t in c.threads
  {
    ClientOk(clients[t]) && c.threads[t].program == Program(clients[t]) && c.threads[t].fpos == 0
  }

  /** The server before any of its threads has done anything. */
  ghost predicate Serving(clients: map<nat, Client>, c: Config) {
    && Initial(c)
    && clients.Keys == c.threads.Keys
    && forall t :: t in clients ==> Serves(clients, c, t)
  }

  lemma {:induction false} WritesInAppend(jobs: seq<Job>, more: seq<Job>)
    ensures WritesIn(jobs + more) == WritesIn(jobs) + WritesIn(more)
  {
    if more == [] {
      assert jobs + more == jobs;
    } else {
      var n := |more| - 1;
      WritesInAppend(jobs, more[..n]);
      assert jobs + more == jobs + more[..n] + [more[n]];
      WritesInSnoc(jobs + more[..n], more[n]);
    }
  }

  lemma {:induction false} WritesInGuarded(ws: seq<seq<byte>>)
    ensures WritesIn(GuardedWrites(ws)) == ws
  {
    if ws != [] {
      var n := |ws| - 1;
      WritesInGuarded(ws[..n]);
      assert GuardedWrites(ws) == GuardedWrites(ws[..n]) + [Do(WriteCall(ws[n]), true)];
      WritesInSnoc(GuardedWrites(ws[..n]), Do(WriteCall(ws[n]), true));
    }
  }

  lemma {:induction false} WritesInOthers(jobs: seq<Job>)
    requires forall i :: 0 <= i < |jobs| ==> !IsWrite(jobs[i])
    ensures WritesIn(jobs) == []
  {
    if jobs != [] {
      WritesInOthers(jobs[..|jobs| - 1]);
    }
  }

  lemma ReplyWritesNothing(outcome: Outcome, seekto: (nat, nat), rounds: nat)
    ensures WritesIn(Reply(outcome, seekto, rounds)) == [] && WritesGuarded(Reply(outcome, seekto, rounds))
  {
    WritesInOthers(Reply(outcome, seekto, rounds));
  }

  lemma GuardedThenOthers(ws: seq<seq<byte>>, reply: seq<Job>)
    requires WritesIn(reply) == [] && WritesGuarded(reply)
    ensures WritesIn(GuardedWrites(ws) + reply) == ws && WritesGuarded(GuardedWrites(ws) + reply)
  {
    WritesInAppend(GuardedWrites(ws), reply);
    WritesInGuarded(ws);
  }

  lemma ProgramWrites(client: Client)
    requires ClientOk(client)
    ensures WritesIn(Program(client)) == Sent(client) && WritesGuarded(Program(client))
  {
    ReplyWritesNothing(Got(client).outcome, client.seekto, client.rounds);
    GuardedThenOthers(Sent(client), Reply(Got(client).outcome, client.seekto, client.rounds));
  }

  // ----- Programs, by what the clients send

  /** A connection that sends one clean packet of plain text writes its chunks, opens the
      device afresh and reads. */
  lemma CleanPacketProgram(client: Client, events: seq<Recv>, more: seq<Recv>)
    requires client.events == events + more && Receivable(events + more)
    requires CleanPacket(events) && PlainText(events)
    ensures ClientOk(client)
    ensures Program(client) == GuardedWrites(DataOf(events)) + ([Reopen] + Reads(client.rounds))
  {
    PrefixIsReceivable(events, more);
    PlainTextNeverSeeks(Zeros(READ_WRITE_SIZE), events);
    CleanPacketIsReceived(Zeros(READ_WRITE_SIZE), events, more);
  }

  /** One whose socket fails before a packet ends does the same. */
  lemma FailedProgram(client: Client, events: seq<Recv>, more: seq<Recv>)
    requires client.events == events + [Failed] + more && Receivable(events + [Failed] + more)
    requires CleanStretch(events) && PlainText(events)
    ensures ClientOk(client)
    ensures Program(client) == GuardedWrites(DataOf(events)) + ([Reopen] + Reads(client.rounds))
  {
    assert events + [Failed] + more == events + ([Failed] + more);
    PrefixIsReceivable(events, [Failed] + more);
    PlainTextNeverSeeks(Zeros(READ_WRITE_SIZE), events);
    FailureEndsReceiving(Zeros(READ_WRITE_SIZE), events, more);
  }

  /** One whose first chunk spells a seek command writes nothing, seeks and reads. */
  lemma CommandProgram(client: Client, events: seq<Recv>, command: Recv, more: seq<Recv>)
    requires client.events == events + [command] + more && Receivable(events + [command] + more) && Silent(events)
    requires command.Data? && Spells(command.bytes, "AESDCHAR_IOCSEEKTO:") && |command.bytes| <= READ_WRITE_SIZE
    ensures ClientOk(client)
    ensures Program(client) == [Do(SeekCall(client.seekto.0, client.seekto.1), true)] + Reads(client.rounds)
  {
    CommandIsSeen(Zeros(READ_WRITE_SIZE), events, command, more);
    assert GuardedWrites([]) == [];
  }

  /** One on which nothing but plain text without a newline has arrived only writes. */
  lemma UnfinishedProgram(client: Client)
    requires CleanStretch(client.events) && PlainText(client.events) && Receivable(client.events)
    ensures Program(client) == GuardedWrites(DataOf(client.events))
  {
    PlainTextNeverSeeks(Zeros(READ_WRITE_SIZE), client.events);
    NoNewlineNoEnd(Zeros(READ_WRITE_SIZE), client.events);
  }

  // ----- All writes of the server are guarded

  lemma {:induction false} LoggedJob(log: seq<Item>, n: nat)
    requires n < |log|
    ensures JobOf(log[n]) in JobsOf(log, log[n].t)
    decreases |log|
  {
    if n < |log| - 1 {
      LoggedJob(log[..|log| - 1], n);
    }
  }

  lemma {:induction false} KeptJob(program: seq<Job>, n: nat, dropped: set<nat>, job: Job)
    requires n <= |program| && job in Kept(program, n, dropped)
    ensures job in program
  {
    if job in Kept(program, n - 1, dropped) {
      KeptJob(program, n - 1, dropped, job);
    }
  }

  lemma {:induction false} GuardedIsAll(log: seq<Item>)
    requires forall n :: 0 <= n < |log| && IsWrite(JobOf(log[n])) ==> IsGuardedWrite(JobOf(log[n]))
    ensures WritesOf(log) == GuardedOf(log)
  {
    if log != [] {
      var n := |log| - 1;
      GuardedIsAll(log[..n]);
      assert IsWrite(JobOf(log[n])) ==> IsGuardedWrite(JobOf(log[n]));
    }
  }

  lemma ServerWritesGuarded(clients: map<nat, Client>, c: Config, run: seq<Action>)
    requires Serving(clients, c) && IsRun(c, run)
    ensures WritesOf(Last(c, run).log) == GuardedOf(Last(c, run).log)
  {
    LogIsMerge(c, run);
    var e := Last(c, run);
    forall n | 0 <= n < |e.log| && IsWrite(JobOf(e.log[n])) ensures IsGuardedWrite(JobOf(e.log[n])) {
      var t := e.log[n].t;
      LoggedJob(e.log, n);
      assert Serves(clients, c, t);
      KeptJob(c.threads[t].program, e.threads[t].next, e.threads[t].dropped, JobOf(e.log[n]));
      ProgramWrites(clients[t]);
    }
    GuardedIsAll(e.log);
  }

  // ----- The merge

  /** What has reached the device is a merge of what the clients sent: in the order of
      `write_lock`, all that took it but at most the last; of each client the first of
      its chunks, in its order; and all of them once the thread is through. */
  ghost predicate IsMerge(clients: map<nat, Client>, e: Config, ws: seq<(nat, seq<byte>)>) {
    && ws <= e.wlog
    && |e.wlog| <= |ws| + 1
    && (e.wlock.None? ==> ws == e.wlog)
    && (forall i :: 0 <= i < |ws| ==> ws[i].0 in clients)
    && (forall t :: t in clients ==> Arrived(clients[t], e, t, ChunksBy(ws, t)))
  }

  ghost predicate Arrived(client: Client, e: Config, t: nat, chunks: seq<seq<byte>>) {
    && ClientOk(client)
    && chunks <= Sent(client)
    && t in e.threads
    && (e.threads[t].next == |Program(client)| && !e.threads[t].status.Stalled? ==> chunks == Sent(client))
  }

  lemma {:induction false} WritersLogged(log: seq<Item>, i: nat) returns (n: nat)
    requires i < |WritesOf(log)|
    ensures n < |log| && WritesOf(log)[i].0 == log[n].t
    decreases |log|
  {
    n := |log| - 1;
    if i < |WritesOf(log[..n])| {
      n := WritersLogged(log[..n], i);
    }
  }

  /** In every interleaving of the server's threads the writes in the log are a merge of
      what the clients sent; and with the driver's mutex free the slots hold the last
      ten packets of that merge, and the pending block the rest. */
  lemma ServerMerge(clients: map<nat, Client>, c: Config, run: seq<Action>)
    requires Serving(clients, c) && IsRun(c, run)
    ensures IsMerge(clients, Last(c, run), WritesOf(Last(c, run).log))
    ensures PoliteRun(c, run) && Last(c, run).lock.None? ==>
              var e := Last(c, run);
              && RingInv(e.dev.ring)
              && View(e.dev.ring, e.dev.heap) == LastTen(Packets(Chunks(WritesOf(e.log))))
              && TailOf(e.dev) == Join(Unfinished(Chunks(WritesOf(e.log))))
  {
    var e := Last(c, run);
    var ws := WritesOf(e.log);
    WriteLockOrder(c, run);
    ServerWritesGuarded(clients, c, run);
    LogIsMerge(c, run);
    forall i | 0 <= i < |ws| ensures ws[i].0 in clients {
      var n := WritersLogged(e.log, i);
    }
    forall t | t in clients ensures Arrived(clients[t], e, t, ChunksBy(ws, t)) {
      assert Serves(clients, c, t);
      ProgramWrites(clients[t]);
      WritesArePrefix(c, run, t);
    }
    if PoliteRun(c, run) && e.lock.None? {
      DeviceHoldsTheLog(c, run);
    }
  }

  /** The connection is not sent a seek command. */
  predicate SeeksNot(client: Client) {
    ClientOk(client) && !Got(client).outcome.SeekSeen?
  }

  lemma SeekFreeReply(ws: seq<seq<byte>>, outcome: Outcome, seekto: (nat, nat), rounds: nat)
    requires !outcome.SeekSeen?
    ensures SeekFree(GuardedWrites(ws) + Reply(outcome, seekto, rounds))
  {
  }

  /** Without seek commands on its connections, all the server's interleavings are
      polite. */
  lemma ServerIsPolite(clients: map<nat, Client>, c: Config, run: seq<Action>)
    requires Serving(clients, c) && IsRun(c, run)
    requires forall t :: t in clients ==> SeeksNot(clients[t])
    ensures PoliteRun(c, run)
  {
    InitialInOrder(c);
    forall t | t in c.threads ensures SeekFree(c.threads[t].program) {
      assert Serves(clients, c, t) && SeeksNot(clients[t]);
      SeekFreeReply(Sent(clients[t]), Got(clients[t]).outcome, clients[t].seekto, clients[t].rounds);
    }
    SeekFreeIsPolite(c, run);
  }

  // ----- `write_lock`

  lemma {:induction false} ChunksHaveBytes(buffer: seq<byte>, events: seq<Recv>, i: nat)
    requires |buffer| == READ_WRITE_SIZE && Receivable(events) && i < |Receive(buffer, events).written|
    ensures |Receive(buffer, events).written[i]| >= 1
    decreases |events|
  {
    if events[0].Data? {
      if i > 0 {
        ChunksHaveBytes(Overwrite(buffer, events[0].bytes), events[1..], i - 1);
      }
    } else {
      ChunksHaveBytes(buffer, events[1..], i);
    }
  }

  lemma ServerWritesBytes(client: Client, k: nat)
    requires ClientOk(client) && k < |Program(client)| && IsWrite(Program(client)[k])
    ensures |Program(client)[k].call.data| >= 1
  {
    ReplyHasNoWrite(Got(client).outcome, client.seekto, client.rounds);
    if k < |Sent(client)| {
      ChunksHaveBytes(Zeros(READ_WRITE_SIZE), client.events, k);
    }
  }

  lemma ReplyHasNoWrite(outcome: Outcome, seekto: (nat, nat), rounds: nat)
    ensures forall k :: 0 <= k < |Reply(outcome, seekto, rounds)| ==> !IsWrite(Reply(outcome, seekto, rounds)[k])
  {
  }

  /** In every polite run of the server, `write_lock` can still be freed if and only if
      the thread that holds it has not been interrupted in its write. */
  lemma ServerWriteLockIff(clients: map<nat, Client>, c: Config, run: seq<Action>, t: nat)
    requires Serving(clients, c) && IsRun(c, run) && PoliteRun(c, run) && Last(c, run).wlock == Some(t)
    ensures t in Last(c, run).threads
    ensures CanFree(Last(c, run)) <==> !Last(c, run).threads[t].status.Stalled?
  {
    WriteLockFreedIff(c, run, t);
    StartStays(c, run);
    ProgramsStay(c, run, t);
    InitialInOrder(c);
    RunKeepsOrder(c, run);
    var th := Last(c, run).threads[t];
    assert Serves(clients, c, t) && ThreadOk(Last(c, run).log, t, th);
    if th.status == Waiting(WriteCall([]), true) {
      ServerWritesBytes(clients[t], th.next);
    }
  }

  // ----- Whose packets they are

  /** The writes that make up each packet. */
  function Groups(ws: seq<(nat, seq<byte>)>): seq<seq<(nat, seq<byte>)>>
    decreases |ws|
  {
    var k := FirstEnd(Chunks(ws));
    if k == |ws| then [] else [ws[..k + 1]] + Groups(ws[k + 1..])
  }

  /** The writes after the last packet. */
  function Rest(ws: seq<(nat, seq<byte>)>): seq<(nat, seq<byte>)>
    decreases |ws|
  {
    var k := FirstEnd(Chunks(ws));
    if k == |ws| then ws else Rest(ws[k + 1..])
  }

  function Joins(groups: seq<seq<(nat, seq<byte>)>>): (packets: seq<seq<byte>>)
    ensures |packets| == |groups|
    ensures forall i :: 0 <= i < |groups| ==> packets[i] == Join(Chunks(groups[i]))
  {
    seq(|groups|, i requires 0 <= i < |groups| => Join(Chunks(groups[i])))
  }

  lemma FirstGroup(ws: seq<(nat, seq<byte>)>, k: nat, g: seq<(nat, seq<byte>)>, rest: seq<(nat, seq<byte>)>)
    requires FirstEnd(Chunks(ws)) == k < |ws| && g == ws[..k + 1] && rest == ws[k + 1..]
    ensures Packets(Chunks(ws)) == [Join(Chunks(g))] + Packets(Chunks(rest))
    ensures Unfinished(Chunks(ws)) == Unfinished(Chunks(rest))
  {
    assert Chunks(ws)[..k + 1] == Chunks(g) && Chunks(ws)[k + 1..] == Chunks(rest);
    FirstPacket(Chunks(ws), k, Chunks(g), Chunks(rest));
  }

  lemma NoGroup(ws: seq<(nat, seq<byte>)>)
    requires FirstEnd(Chunks(ws)) == |ws|
    ensures Packets(Chunks(ws)) == [] == Joins(Groups(ws)) && Unfinished(Chunks(ws)) == Chunks(Rest(ws))
  {
  }

  lemma {:induction false} GroupsArePackets(ws: seq<(nat, seq<byte>)>)
    ensures Packets(Chunks(ws)) == Joins(Groups(ws)) && Unfinished(Chunks(ws)) == Chunks(Rest(ws))
    decreases |ws|
  {
    var k := FirstEnd(Chunks(ws));
    if k == |ws| {
      NoGroup(ws);
    } else {
      var g, rest := ws[..k + 1], ws[k + 1..];
      FirstGroup(ws, k, g, rest);
      GroupsArePackets(rest);
      JoinsCons(g, Groups(rest));
    }
  }

  lemma JoinsCons(g: seq<(nat, seq<byte>)>, groups: seq<seq<(nat, seq<byte>)>>)
    ensures Joins([g] + groups) == [Join(Chunks(g))] + Joins(groups)
  {
  }

  ghost predicate OneWriter(g: seq<(nat, seq<byte>)>) {
    forall i :: 0 <= i < |g| ==> g[i].0 == g[0].0
  }

  ghost predicate OneWriterEach(groups: seq<seq<(nat, seq<byte>)>>) {
    forall i :: 0 <= i < |groups| ==> OneWriter(groups[i])
  }

  /** No packet, finished or not, is made of two clients' chunks. */
  ghost predicate Unmixed(ws: seq<(nat, seq<byte>)>) {
    OneWriterEach(Groups(ws)) && OneWriter(Rest(ws))
  }

  /** The write after `ws[i]` is another client's, though `ws[i]` ends no packet. */
  predicate CutsIn(ws: seq<(nat, seq<byte>)>, i: nat) {
    i + 1 < |ws| && !HasNewline(ws[i].1) && ws[i + 1].0 != ws[i].0
  }

  ghost predicate NobodyCutsIn(ws: seq<(nat, seq<byte>)>) {
    forall i: nat :: !CutsIn(ws, i)
  }

  lemma {:induction false} Chain(g: seq<(nat, seq<byte>)>, i: nat)
    requires NobodyCutsIn(g) && i < |g|
    requires forall j :: 0 <= j < |g| - 1 ==> !HasNewline(g[j].1)
    ensures g[i].0 == g[0].0
  {
    if i > 0 {
      Chain(g, i - 1);
      assert !CutsIn(g, i - 1);
    }
  }

  lemma ChainIff(g: seq<(nat, seq<byte>)>)
    requires forall j :: 0 <= j < |g| - 1 ==> !HasNewline(g[j].1)
    ensures OneWriter(g) <==> NobodyCutsIn(g)
  {
    if NobodyCutsIn(g) {
      forall i | 0 <= i < |g| ensures g[i].0 == g[0].0 {
        Chain(g, i);
      }
    }
  }

  lemma CutsSplit(ws: seq<(nat, seq<byte>)>, k: nat)
    requires k < |ws| && HasNewline(ws[k].1)
    ensures NobodyCutsIn(ws) <==> NobodyCutsIn(ws[..k + 1]) && NobodyCutsIn(ws[k + 1..])
  {
    var g, rest := ws[..k + 1], ws[k + 1..];
    forall i: nat ensures CutsIn(g, i) ==> CutsIn(ws, i) {
    }
    forall i: nat ensures CutsIn(rest, i) ==> CutsIn(ws, k + 1 + i) {
    }
    forall i: nat ensures CutsIn(ws, i) ==> CutsIn(g, i) || (i > k && CutsIn(rest, i - k - 1)) {
    }
  }

  lemma OneWriterCons(g: seq<(nat, seq<byte>)>, groups: seq<seq<(nat, seq<byte>)>>)
    ensures OneWriterEach([g] + groups) <==> OneWriter(g) && OneWriterEach(groups)
  {
    var all := [g] + groups;
    if OneWriterEach(all) {
      assert all[0] == g;
      forall i | 0 <= i < |groups| ensures OneWriter(groups[i]) {
        assert all[i + 1] == groups[i];
      }
    }
  }

  lemma UnmixedSplit(ws: seq<(nat, seq<byte>)>, k: nat, g: seq<(nat, seq<byte>)>, rest: seq<(nat, seq<byte>)>)
    requires FirstEnd(Chunks(ws)) == k < |ws| && g == ws[..k + 1] && rest == ws[k + 1..]
    ensures Unmixed(ws) <==> OneWriter(g) && Unmixed(rest)
  {
    OneWriterCons(g, Groups(rest));
  }

  lemma FirstEndOf(ws: seq<(nat, seq<byte>)>) returns (k: nat)
    ensures k == FirstEnd(Chunks(ws)) <= |ws|
    ensures forall i :: 0 <= i < k ==> !HasNewline(ws[i].1)
    ensures k < |ws| ==> HasNewline(ws[k].1)
  {
    k := FirstEnd(Chunks(ws));
    forall i | 0 <= i < k ensures !HasNewline(ws[i].1) {
      assert Chunks(ws)[i] == ws[i].1;
    }
  }

  /** Packets stay apart if and only if nobody cuts in. */
  lemma {:induction false} UnmixedIff(ws: seq<(nat, seq<byte>)>)
    ensures Unmixed(ws) <==> NobodyCutsIn(ws)
    decreases |ws|
  {
    var k := FirstEndOf(ws);
    if k == |ws| {
      ChainIff(ws);
    } else {
      var g, rest := ws[..k + 1], ws[k + 1..];
      CutsSplit(ws, k);
      ChainIff(g);
      UnmixedIff(rest);
      UnmixedSplit(ws, k, g, rest);
    }
  }

  /** In every interleaving of the server's threads, with the driver's mutex free each
      slot holds one group of the writes, and no packet is made of two clients' chunks
      if and only if nobody's write came directly after another client's chunk without
      a newline. */
  lemma PacketsMixIff(clients: map<nat, Client>, c: Config, run: seq<Action>)
    requires Serving(clients, c) && IsRun(c, run) && PoliteRun(c, run) && Last(c, run).lock.None?
    ensures var e := Last(c, run);
            && RingInv(e.dev.ring)
            && IsMerge(clients, e, WritesOf(e.log))
            && View(e.dev.ring, e.dev.heap) == LastTen(Joins(Groups(WritesOf(e.log))))
            && (Unmixed(WritesOf(e.log)) <==> NobodyCutsIn(WritesOf(e.log)))
  {
    ServerMerge(clients, c, run);
    GroupsArePackets(WritesOf(Last(c, run).log));
    UnmixedIff(WritesOf(Last(c, run).log));
  }

  lemma {:induction false} ChunkIsBy(ws: seq<(nat, seq<byte>)>, i: nat)
    requires i < |ws|
    ensures ws[i].1 in ChunksBy(ws, ws[i].0)
    decreases |ws|
  {
    if i < |ws| - 1 {
      ChunkIsBy(ws[..|ws| - 1], i);
    }
  }

  ghost predicate WholeChunks(client: Client) {
    ClientOk(client) && forall i :: 0 <= i < |Sent(client)| ==> HasNewline(Sent(client)[i])
  }

  /** When every client's chunks are whole packets, packets never mix: the slots hold the
      last ten of the chunks, each one client's, in the order of `write_lock`. */
  lemma WholePacketsNeverMix(clients: map<nat, Client>, c: Config, run: seq<Action>)
    requires Serving(clients, c) && IsRun(c, run) && PoliteRun(c, run) && Last(c, run).lock.None?
    requires forall t :: t in clients ==> WholeChunks(clients[t])
    ensures var e := Last(c, run);
            && RingInv(e.dev.ring)
            && IsMerge(clients, e, WritesOf(e.log))
            && View(e.dev.ring, e.dev.heap) == LastTen(CStrs(Chunks(WritesOf(e.log))))
            && TailOf(e.dev) == []
            && Unmixed(WritesOf(e.log))
  {
    ServerMerge(clients, c, run);
    var e := Last(c, run);
    var ws := WritesOf(e.log);
    forall i | 0 <= i < |ws| ensures HasNewline(ws[i].1) {
      ChunkIsBy(ws, i);
      assert WholeChunks(clients[ws[i].0]) && Arrived(clients[ws[i].0], e, ws[i].0, ChunksBy(ws, ws[i].0));
    }
    WholePackets(Chunks(ws));
    UnmixedIff(ws);
  }

  // ----- Two clients

  const CHUNK: seq<byte> := [97]
  const LINE: seq<byte> := [98, NEWLINE]

  /** One connection that has sent a whole line, and one that has sent a chunk without a
      newline. */
  function LineAndChunk(): map<nat, Client> {
    map[0 := Client([Data(LINE, [])], (0, 0), 1), 1 := Client([Data(CHUNK, [])], (0, 0), 1)]
  }

  lemma NoSeek(bytes: seq<byte>)
    requires 1 <= |bytes| < READ_WRITE_SIZE && bytes[0] != 65
    ensures Receivable([Data(bytes, [])]) && NeverSeeks(Zeros(READ_WRITE_SIZE), [Data(bytes, [])])
  {
    assert Overwrite(Zeros(READ_WRITE_SIZE), bytes)[0] == bytes[0] && SEEK_PREFIX[0] == 65;
    assert [Data(bytes, [])][1..] == [];
  }

  lemma ChunkIsSent(client: Client)
    requires client == Client([Data(CHUNK, [])], (0, 0), 1)
    ensures ClientOk(client) && Program(client) == [Do(WriteCall(CHUNK), true)]
  {
    NoSeek(CHUNK);
    NoNewlineNoEnd(Zeros(READ_WRITE_SIZE), client.events);
    assert DataOf(client.events) == [CHUNK] + DataOf([]);
  }

  lemma LineIsSent(client: Client)
    requires client == Client([Data(LINE, [])], (0, 0), 1)
    ensures ClientOk(client) && Program(client) == [Do(WriteCall(LINE), true), Reopen, Do(ReadCall, false)]
  {
    NoSeek(LINE);
    assert LINE[1] == NEWLINE;
    CleanPacketIsReceived(Zeros(READ_WRITE_SIZE), client.events, []);
    assert client.events + [] == client.events && DataOf(client.events) == [LINE] + DataOf([]);
  }

  function FreshServer(): Config {
    Config(FRESH_DEV, None, None,
           map[0 := Thread(0, Idle, [Do(WriteCall(LINE), true), Reopen, Do(ReadCall, false)], 0, {}),
               1 := Thread(0, Idle, [Do(WriteCall(CHUNK), true)], 0, {})],
           map[0 := 0, 1 := 0], [], [], [EntrySizes(EMPTY_RING.entry)])
  }

  lemma FreshServerServes()
    ensures Serving(LineAndChunk(), FreshServer())
  {
    LineIsSent(LineAndChunk()[0]);
    ChunkIsSent(LineAndChunk()[1]);
  }

  /** The two before any step. */
  ghost predicate BothReady(c: Config) {
    && Shaped(c.dev.ring) && c.lock.None? && c.wlock.None? && c.log == []
    && c.threads == FreshServer().threads
  }

  // ----- Two clients in one packet

  /** The chunk, then the line. */
  lemma LineCutsIn(c: Config) returns (run: seq<Action>)
    requires BothReady(c)
    ensures IsRun(c, run) && PoliteRun(c, run) && Last(c, run).lock.None?
    ensures WritesOf(Last(c, run).log) == [(1, CHUNK), (0, LINE)]
  {
    var first, item0 := SoloGuardedWrite(c, 1, CHUNK);
    var c1 := Last(c, first);
    var second, item1 := SoloGuardedWrite(c1, 0, LINE);
    RunAppend(c, first, second);
    run := first + second;
    TwoWrites(Last(c, run).log, item0, item1);
  }

  lemma TwoWrites(log: seq<Item>, first: Item, second: Item)
    requires log == [first, second] && first.Called? && second.Called?
    requires first.call.WriteCall? && second.call.WriteCall?
    ensures WritesOf(log) == [(first.t, first.call.data), (second.t, second.call.data)]
  {
    assert log[..1] == [first] && [first][..0] == [];
    assert WritesOf([first]) == [(first.t, first.call.data)];
  }

  lemma TwoChunks(x: seq<byte>, y: seq<byte>)
    requires !HasNewline(x) && HasNewline(y)
    ensures Packets([x] + [y]) == [CStr(x) + CStr(y)]
  {
    FirstEndIs([x], 1);
    FirstPacketEnds([x], y);
    JoinSnoc([], x);
    assert [] + [x] == [x] && Join([]) == [] && [] + CStr(x) == CStr(x);
  }

  lemma MixedPacket(ws: seq<(nat, seq<byte>)>)
    requires ws == [(1, CHUNK), (0, LINE)]
    ensures Packets(Chunks(ws)) == [CHUNK + LINE] && !NobodyCutsIn(ws)
  {
    CStrOfClean(CHUNK);
    CStrOfClean(LINE);
    assert CutsIn(ws, 0);
    assert Chunks(ws) == [CHUNK] + [LINE];
    TwoChunks(CHUNK, LINE);
  }

  /** Packets can mix: one connection has sent the first chunk of a packet when the other
      sends its line, and the slot ends up with both. */
  lemma PacketsCanMix() returns (clients: map<nat, Client>, c: Config, run: seq<Action>)
    ensures Serving(clients, c) && IsRun(c, run) && PoliteRun(c, run)
    ensures var e := Last(c, run);
            && RingInv(e.dev.ring)
            && View(e.dev.ring, e.dev.heap) == [CHUNK + LINE]
            && !Unmixed(WritesOf(e.log))
  {
    clients, c := LineAndChunk(), FreshServer();
    FreshServerServes();
    run := LineCutsIn(c);
    ServerMerge(clients, c, run);
    MixedPacket(WritesOf(Last(c, run).log));
    UnmixedIff(WritesOf(Last(c, run).log));
  }

  // ----- A writer that stalls

  lemma Reopens(c: Config, t: nat)
    requires t in c.threads && c.threads[t].status.Idle? && c.threads[t].next < |c.threads[t].program|
    requires c.threads[t].program[c.threads[t].next].Reopen?
    ensures Enabled(c, Begin(t))
    ensures Take(c, Begin(t)) == c.(threads := c.threads[t := c.threads[t].(fpos := 0, next := c.threads[t].next + 1)],
                                    log := c.log + [Reopened(t)])
  {
  }

  /** The first connection has sent its line and is reading its reply: it has the mutex. */
  lemma ReplyBegins(c: Config) returns (run: seq<Action>)
    requires c.lock.None? && 0 in c.threads && c.threads[0].status.Idle? && c.threads[0].next == 1
    requires c.threads[0].program == [Do(WriteCall(LINE), true), Reopen, Do(ReadCall, false)]
    ensures IsRun(c, run) && PoliteRun(c, run)
    ensures var e := Last(c, run);
            && e.lock == Some(0) && e.wlock == c.wlock
            && e.threads.Keys == c.threads.Keys
            && forall t :: t in c.threads && t != 0 ==> e.threads[t] == c.threads[t]
  {
    var env := Env(NULL, [], NULL, []);
    Reopens(c, 0);
    var c1 := Take(c, Begin(0));
    BeginsToWait(c1, 0, ReadCall);
    var c2 := Take(c1, Begin(0));
    ReaderGetsIn(c2, 0, env);
    run := RunAhead(c2, Acquire(0, env, []), []);
    run := RunAhead(c1, Begin(0), run);
    run := RunAhead(c, Begin(0), run);
  }

  /** The other one takes `write_lock`, waits for the mutex, and is interrupted. */
  lemma WriterIsInterrupted(c: Config) returns (run: seq<Action>)
    requires c.lock.Some? && c.wlock.None? && 1 in c.threads && MayBegin(c.threads[1], c.wlock)
    requires c.threads[1].program[c.threads[1].next] == Do(WriteCall(CHUNK), true)
    ensures IsRun(c, run) && PoliteRun(c, run)
    ensures var e := Last(c, run);
            && e.lock == c.lock && e.wlock == Some(1)
            && 1 in e.threads && e.threads[1].status == Stalled(WriteCall(CHUNK))
  {
    var c1 := Take(c, Begin(1));
    run := RunAhead(c1, Interrupt(1), []);
    run := RunAhead(c, Begin(1), run);
  }

  /** A writer can stall: it holds `write_lock` and waits for the mutex, which another
      connection has for a read, when a signal ends its wait.  From then on nothing
      frees `write_lock`. */
  lemma WriterCanStall() returns (clients: map<nat, Client>, c: Config, run: seq<Action>)
    ensures Serving(clients, c) && IsRun(c, run) && PoliteRun(c, run)
    ensures var e := Last(c, run);
            && e.lock == Some(0) && e.wlock == Some(1)
            && 1 in e.threads && e.threads[1].status.Stalled?
            && !CanFree(e)
  {
    clients, c := LineAndChunk(), FreshServer();
    FreshServerServes();
    var write, item := SoloGuardedWrite(c, 0, LINE);
    var reply := ReplyBegins(Last(c, write));
    RunAppend(c, write, reply);
    var stall := WriterIsInterrupted(Last(c, write + reply));
    RunAppend(c, write + reply, stall);
    run := write + reply + stall;
    ServerWriteLockIff(clients, c, run, 1);
  }
}
