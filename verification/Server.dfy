/** One connection of the socket server: the receive loop with its reused buffer,
    the send loop, and the reply a client gets. */
module Server {
  import opened Bytes
  import opened CircularBuffer
  import opened PacketSpec
  import D = Device

  const READ_WRITE_SIZE: nat := 1024

  /** "AESDCHAR_IOCSEEKTO:" */
  const SEEK_PREFIX: seq<byte> :=
    [65, 69, 83, 68, 67, 72, 65, 82, 95, 73, 79, 67, 83, 69, 69, 75, 84, 79, 58]

  /** What `recv` answers.  `beyond` is what memory holds after the buffer at that time:
      the string functions read on into it when the buffer has no terminator. */
  datatype Recv = Data(bytes: seq<byte>, beyond: seq<byte>) | Closed | Interrupted | Failed

  /** How the receive loop is left, if it is: `Receiving` means it still waits. */
  datatype Outcome = Receiving | PacketEnded | RecvFailed | SeekSeen(buffer: seq<byte>)

  /** The chunks handed to the device, and how the loop was left. */
  datatype Received = Received(written: seq<seq<byte>>, outcome: Outcome)

  /** The buffer after `recv`: what lay beyond the new bytes is still there. */
  function Overwrite(buffer: seq<byte>, bytes: seq<byte>): (b: seq<byte>)
    requires |bytes| <= |buffer|
    ensures |b| == |buffer|
  {
    bytes + buffer[|bytes|..]
  }

  /** `strncmp` with the command prefix finds no difference. */
  predicate IsSeekRequest(buffer: seq<byte>) {
    SEEK_PREFIX <= buffer
  }

  /** `recv` delivers at least one byte and no more than it was asked for. */
  predicate Receivable(events: seq<Recv>) {
    forall i :: 0 <= i < |events| && events[i].Data? ==> 1 <= |events[i].bytes| <= READ_WRITE_SIZE
  }

  function Prepend(chunks: seq<seq<byte>>, r: Received): Received {
    Received(chunks + r.written, r.outcome)
  }

  /** The receive loop: which chunks it hands on, and how it ends. */
  function Receive(buffer: seq<byte>, events: seq<Recv>): Received
    requires |buffer| == READ_WRITE_SIZE && Receivable(events)
    decreases |events|
  {
    if events == [] then Received([], Receiving)
    else match events[0]
      case Closed => Receive(buffer, events[1..])
      case Interrupted => Receive(buffer, events[1..])
      case Failed => Received([], RecvFailed)
      case Data(bytes, beyond) =>
        var b := Overwrite(buffer, bytes);
        if IsSeekRequest(b) then Received([], SeekSeen(b))
        else if HasNewline(b + beyond) then Received([bytes], PacketEnded)
        else Prepend([bytes], Receive(b, events[1..]))
  }

  // ----- Seek commands

  /** The bytes begin with the characters of `text`. */
  predicate Spells(bytes: seq<byte>, text: string) {
    |text| <= |bytes| && forall i :: 0 <= i < |text| ==> bytes[i] as int == text[i] as int
  }

  /** The bytes and the text differ at a position that both have. */
  ghost predicate Unlike(bytes: seq<byte>, text: string) {
    exists i :: 0 <= i < |text| && i < |bytes| && bytes[i] as int != text[i] as int
  }

  const COMMAND: string := "AESDCHAR_IOCSEEKTO:"

  lemma SeekRequestIff(buffer: seq<byte>)
    ensures IsSeekRequest(buffer) <==> Spells(buffer, "AESDCHAR_IOCSEEKTO:")
  {
    assert |SEEK_PREFIX| == |COMMAND| == 19;
    assert forall i :: 0 <= i < 19 ==> SEEK_PREFIX[i] as int == COMMAND[i] as int;
    if Spells(buffer, COMMAND) {
      assert buffer[..19] == SEEK_PREFIX;
    }
  }

  /** What the loop makes of a chunk: with the buffer spelling a command it is left at
      once, the chunk not handed on; otherwise the chunk is handed on, and the loop is
      left exactly if the chunk's own string has a newline, or the chunk has no
      terminator and what lies behind it, in the buffer and past its end, brings one
      in. */
  lemma ChunkDecides(buffer: seq<byte>, bytes: seq<byte>, beyond: seq<byte>, more: seq<Recv>)
    requires |buffer| == 1024 && 1 <= |bytes| <= 1024 && Receivable([Data(bytes, beyond)] + more)
    ensures var b, r := bytes + buffer[|bytes|..], Receive(buffer, [Data(bytes, beyond)] + more);
            if Spells(b, "AESDCHAR_IOCSEEKTO:") then r == Received([], SeekSeen(b))
            else if HasNewline(bytes) || (NUL !in bytes && HasNewline(buffer[|bytes|..] + beyond)) then
              r == Received([bytes], PacketEnded)
            else Receivable(more) && r == Prepend([bytes], Receive(b, more))
  {
    var events, b := [Data(bytes, beyond)] + more, Overwrite(buffer, bytes);
    assert events[0] == Data(bytes, beyond) && events[1..] == more;
    SeekRequestIff(b);
    ServerSeesNewlineIff(buffer, bytes, beyond);
  }

  /** A line is unlike the command exactly if it does not begin with it: a line too short
      for that has its newline where the command has none. */
  lemma LineIsUnlikeIff(line: seq<byte>)
    requires NEWLINE in line
    ensures Unlike(line, COMMAND) <==> !Spells(line, COMMAND)
  {
    if |line| < |COMMAND| {
      var i :| 0 <= i < |line| && line[i] == NEWLINE;
      assert COMMAND[i] as int != NEWLINE as int;
    }
  }

  // ----- The reused buffer

  /** The server sees a newline exactly if the chunk's own string has one, or the chunk
      has no terminator and what lies behind it, in the buffer and past its end,
      brings one in. */
  lemma ServerSeesNewlineIff(buffer: seq<byte>, bytes: seq<byte>, beyond: seq<byte>)
    requires |bytes| <= |buffer|
    ensures HasNewline(Overwrite(buffer, bytes) + beyond) <==>
            HasNewline(bytes) || (NUL !in bytes && HasNewline(buffer[|bytes|..] + beyond))
  {
    var behind := buffer[|bytes|..] + beyond;
    assert Overwrite(buffer, bytes) + beyond == bytes + behind;
    CStrAppend(bytes, behind);
    if NUL !in bytes {
      CStrOfClean(bytes);
    } else {
      assert Terminated(bytes);
    }
  }

  /** The buffer as every short chunk leaves it: the last byte is the terminator it was
      at the start. */
  predicate Sealed(buffer: seq<byte>) {
    |buffer| == READ_WRITE_SIZE && buffer[READ_WRITE_SIZE - 1] == NUL
  }

  /** Short chunks without NULs never leave a newline behind, so that the leftovers
      cannot end a packet, and what lies past the buffer is never reached. */
  lemma LeftoversAreSilent(buffer: seq<byte>, bytes: seq<byte>, beyond: seq<byte>)
    requires Sealed(buffer) && |bytes| < READ_WRITE_SIZE && NEWLINE !in buffer && NUL !in bytes
    ensures HasNewline(Overwrite(buffer, bytes) + beyond) <==> NEWLINE in bytes
    ensures Sealed(Overwrite(buffer, bytes))
    ensures NEWLINE !in bytes ==> NEWLINE !in Overwrite(buffer, bytes)
  {
    var rest := buffer[|bytes|..];
    ServerSeesNewlineIff(buffer, bytes, beyond);
    CStrOfClean(bytes);
    CStrAppend(rest, beyond);
    assert rest[|rest| - 1] == NUL;
    assert Terminated(rest);
  }

  /** With a NUL in a chunk they can: the second chunk holds no newline, and neither
      does any string the driver was given, and yet the packet ends. */
  lemma LeftoversCanEndAPacket()
    ensures var events := [Data([97, NUL, NEWLINE], []), Data([98, 98], [])];
            && Receivable(events)
            && Receive(Zeros(READ_WRITE_SIZE), events).outcome == PacketEnded
            && (forall w :: w in Receive(Zeros(READ_WRITE_SIZE), events).written ==> !HasNewline(w))
  {
    var first, second: seq<byte> := [97, NUL, NEWLINE], [98, 98];
    var b0 := Zeros(READ_WRITE_SIZE);
    var b1 := Overwrite(b0, first);
    var events := [Data(first, []), Data(second, [])];
    FirstChunkIsSilent(b0, first);
    SecondChunkEnds(b1, second);
    assert events[1..] == [Data(second, [])];
    assert Receive(b0, events) == Received([first, second], PacketEnded);
  }

  lemma FirstChunkIsSilent(buffer: seq<byte>, first: seq<byte>)
    requires buffer == Zeros(READ_WRITE_SIZE) && first == [97, NUL, NEWLINE]
    ensures var b := Overwrite(buffer, first);
            !HasNewline(first) && !HasNewline(b + []) && !IsSeekRequest(b)
  {
    StrLenIs(first, 1);
    ServerSeesNewlineIff(buffer, first, []);
    assert Overwrite(buffer, first)[0] != SEEK_PREFIX[0];
  }

  lemma SecondChunkEnds(buffer: seq<byte>, second: seq<byte>)
    requires |buffer| == READ_WRITE_SIZE && buffer[2] == NEWLINE && buffer[3] == NUL && second == [98, 98]
    ensures !HasNewline(second)
    ensures Receive(buffer, [Data(second, [])]) == Received([second], PacketEnded)
  {
    var behind := buffer[2..] + [];
    StrLenIs(second, 2);
    StrLenIs(behind, 1);
    assert behind[0] == NEWLINE && CStr(behind)[0] == NEWLINE;
    ServerSeesNewlineIff(buffer, second, []);
    assert Overwrite(buffer, second)[0] != SEEK_PREFIX[0];
  }

  // ----- A clean connection

  /** The chunks among the events. */
  function DataOf(events: seq<Recv>): seq<seq<byte>> {
    if events == [] then []
    else (if events[0].Data? then [events[0].bytes] else []) + DataOf(events[1..])
  }

  predicate CleanEvent(e: Recv) {
    !e.Failed? && (e.Data? ==> 1 <= |e.bytes| < READ_WRITE_SIZE && NUL !in e.bytes)
  }

  predicate HoldsNewline(e: Recv) {
    e.Data? && NEWLINE in e.bytes
  }

  /** Nothing fails, chunks are short and free of NULs, and none holds a newline; a
      `recv` may be interrupted or find nothing at any time. */
  ghost predicate CleanStretch(events: seq<Recv>) {
    forall i :: 0 <= i < |events| ==> CleanEvent(events[i]) && !HoldsNewline(events[i])
  }

  /** The same, up to a last chunk that does hold a newline. */
  ghost predicate CleanPacket(events: seq<Recv>) {
    && events != []
    && CleanStretch(events[..|events| - 1])
    && CleanEvent(events[|events| - 1]) && HoldsNewline(events[|events| - 1])
  }

  /** No buffer the loop looks at begins like a seek command. */
  ghost predicate NeverSeeks(buffer: seq<byte>, events: seq<Recv>)
    requires |buffer| == READ_WRITE_SIZE && Receivable(events)
    decreases |events|
  {
    events == [] ||
    match events[0]
    case Data(bytes, _) =>
      !IsSeekRequest(Overwrite(buffer, bytes)) && NeverSeeks(Overwrite(buffer, bytes), events[1..])
    case Failed => true
    case _ => NeverSeeks(buffer, events[1..])
  }

  /** Every chunk is unlike a seek command. */
  ghost predicate PlainText(events: seq<Recv>) {
    forall i :: 0 <= i < |events| && events[i].Data? ==> Unlike(events[i].bytes, COMMAND)
  }

  lemma UnlikeIsNoRequest(buffer: seq<byte>, bytes: seq<byte>)
    requires |bytes| <= |buffer| && Unlike(bytes, COMMAND)
    ensures !IsSeekRequest(Overwrite(buffer, bytes))
  {
    var b := Overwrite(buffer, bytes);
    var i :| 0 <= i < |COMMAND| && i < |bytes| && bytes[i] as int != COMMAND[i] as int;
    assert b[i] == bytes[i];
    SeekRequestIff(b);
  }

  /** Whatever is left in the buffer, chunks unlike a command never make one. */
  lemma {:induction false} PlainTextNeverSeeks(buffer: seq<byte>, events: seq<Recv>)
    requires |buffer| == READ_WRITE_SIZE && Receivable(events) && PlainText(events)
    ensures NeverSeeks(buffer, events)
    decreases |events|
  {
    if events != [] {
      var e, rest := events[0], events[1..];
      if e.Data? {
        UnlikeIsNoRequest(buffer, e.bytes);
        PlainTextNeverSeeks(Overwrite(buffer, e.bytes), rest);
      } else {
        PlainTextNeverSeeks(buffer, rest);
      }
    }
  }

  /** Without a newline the loop hands every chunk on and goes on receiving: a connection
      on which no newline arrives is never answered. */
  lemma {:induction false} NoNewlineNoEnd(buffer: seq<byte>, events: seq<Recv>)
    requires Sealed(buffer) && NEWLINE !in buffer
    requires CleanStretch(events) && Receivable(events) && NeverSeeks(buffer, events)
    ensures Receive(buffer, events) == Received(DataOf(events), Receiving)
    decreases |events|
  {
    if events != [] {
      var e, rest := events[0], events[1..];
      assert CleanEvent(e) && !HoldsNewline(e);
      if e.Data? {
        LeftoversAreSilent(buffer, e.bytes, e.beyond);
        NoNewlineNoEnd(Overwrite(buffer, e.bytes), rest);
      } else {
        NoNewlineNoEnd(buffer, rest);
        assert DataOf(events) == DataOf(rest);
      }
    }
  }

  /** A `recv` that fails ends the loop, with what was handed on before. */
  lemma {:induction false} FailureEndsReceiving(buffer: seq<byte>, events: seq<Recv>, more: seq<Recv>)
    requires Sealed(buffer) && NEWLINE !in buffer
    requires CleanStretch(events) && Receivable(events + [Failed] + more) && Receivable(events)
    requires NeverSeeks(buffer, events)
    ensures Receive(buffer, events + [Failed] + more) == Received(DataOf(events), RecvFailed)
    decreases |events|
  {
    var all := events + [Failed] + more;
    if events == [] {
      assert all[0] == Failed;
    } else {
      var e, rest := events[0], events[1..];
      assert all[0] == e && all[1..] == rest + [Failed] + more;
      assert CleanEvent(e) && !HoldsNewline(e);
      if e.Data? {
        LeftoversAreSilent(buffer, e.bytes, e.beyond);
        FailureEndsReceiving(Overwrite(buffer, e.bytes), rest, more);
      } else {
        FailureEndsReceiving(buffer, rest, more);
        assert DataOf(events) == DataOf(rest);
      }
    }
  }

  /** Nothing has arrived yet. */
  ghost predicate Silent(events: seq<Recv>) {
    forall i :: 0 <= i < |events| ==> events[i].Closed? || events[i].Interrupted?
  }

  /** A first chunk that spells a command ends the loop, with nothing handed on. */
  lemma {:induction false} CommandIsSeen(buffer: seq<byte>, events: seq<Recv>, command: Recv, more: seq<Recv>)
    requires |buffer| == READ_WRITE_SIZE && Silent(events)
    requires command.Data? && Spells(command.bytes, COMMAND) && |command.bytes| <= READ_WRITE_SIZE
    requires Receivable(events + [command] + more)
    ensures Receive(buffer, events + [command] + more) ==
            Received([], SeekSeen(Overwrite(buffer, command.bytes)))
    decreases |events|
  {
    var all := events + [command] + more;
    if events == [] {
      assert all == [command] + more;
      assert Spells(Overwrite(buffer, command.bytes), COMMAND);
      ChunkDecides(buffer, command.bytes, command.beyond, more);
    } else {
      assert all[0] == events[0] && all[1..] == events[1..] + [command] + more;
      CommandIsSeen(buffer, events[1..], command, more);
    }
  }

  /** The loop ends exactly at the chunk with the newline, having handed on every
      chunk up to it, whatever follows on the socket. */
  lemma {:induction false} CleanPacketIsReceived(buffer: seq<byte>, events: seq<Recv>, more: seq<Recv>)
    requires Sealed(buffer) && NEWLINE !in buffer
    requires CleanPacket(events) && Receivable(events) && Receivable(events + more) && NeverSeeks(buffer, events)
    ensures Receive(buffer, events + more) == Received(DataOf(events), PacketEnded)
    decreases |events|
  {
    var e, rest := events[0], events[1..];
    assert (events + more)[0] == e && (events + more)[1..] == rest + more;
    if rest == [] {
      LeftoversAreSilent(buffer, e.bytes, e.beyond);
      assert DataOf(events) == [e.bytes] + DataOf([]);
    } else {
      assert e == events[..|events| - 1][0] && events[..|events| - 1][1..] == rest[..|rest| - 1];
      assert CleanEvent(e) && !HoldsNewline(e);
      if e.Data? {
        LeftoversAreSilent(buffer, e.bytes, e.beyond);
        CleanPacketIsReceived(Overwrite(buffer, e.bytes), rest, more);
      } else {
        CleanPacketIsReceived(buffer, rest, more);
        assert DataOf(events) == DataOf(rest);
      }
    }
  }

  ghost predicate NulFree(ws: seq<seq<byte>>) {
    forall i :: 0 <= i < |ws| ==> NUL !in ws[i]
  }

  /** The chunks of a clean packet are one packet to the driver. */
  lemma {:induction false} CleanPacketIsOnePacket(events: seq<Recv>)
    requires CleanPacket(events)
    ensures OnePacket(DataOf(events)) && NulFree(DataOf(events))
    decreases |events|
  {
    var e, rest := events[0], events[1..];
    if rest == [] {
      CStrOfClean(e.bytes);
      assert DataOf(events) == [e.bytes] + DataOf([]);
    } else {
      assert e == events[..|events| - 1][0] && events[..|events| - 1][1..] == rest[..|rest| - 1];
      assert CleanEvent(e) && !HoldsNewline(e);
      CleanPacketIsOnePacket(rest);
      if e.Data? {
        CStrOfClean(e.bytes);
        OnePacketFront(e.bytes, DataOf(rest));
        assert DataOf(events) == [e.bytes] + DataOf(rest);
      } else {
        assert DataOf(events) == DataOf(rest);
      }
    }
  }

  lemma OnePacketFront(w: seq<byte>, ws: seq<seq<byte>>)
    requires OnePacket(ws) && NulFree(ws) && NUL !in w && !HasNewline(w)
    ensures OnePacket([w] + ws) && NulFree([w] + ws)
  {
  }

  lemma OneCleanPacket(a: Abs, ws: seq<seq<byte>>)
    requires OnePacket(ws) && NulFree(ws)
    ensures AfterWrites(a, ws).view == Push(a.view, a.tail + Flat(ws)) && AfterWrites(a, ws).tail == []
  {
    JoinOfClean(ws);
    OnePacketCommits(a, ws);
  }

  /** What a clean packet makes of the device. */
  lemma CleanPacketCommits(a: Abs, events: seq<Recv>, more: seq<Recv>)
    requires CleanPacket(events) && Receivable(events) && Receivable(events + more)
    requires NeverSeeks(Zeros(READ_WRITE_SIZE), events)
    ensures var r, packet := Receive(Zeros(READ_WRITE_SIZE), events + more), a.tail + Flat(DataOf(events));
            && r == Received(DataOf(events), PacketEnded)
            && AfterWrites(a, r.written).view == Push(a.view, packet)
            && AfterWrites(a, r.written).tail == []
  {
    CleanPacketIsReceived(Zeros(READ_WRITE_SIZE), events, more);
    CleanPacketIsOnePacket(events);
    OneCleanPacket(a, DataOf(events));
  }

  lemma {:induction false} StretchIsGathered(events: seq<Recv>)
    requires CleanStretch(events)
    ensures NulFree(DataOf(events))
    ensures forall i :: 0 <= i < |DataOf(events)| ==> !HasNewline(DataOf(events)[i])
  {
    if events != [] {
      var e, rest := events[0], events[1..];
      assert CleanEvent(e) && !HoldsNewline(e);
      StretchIsGathered(rest);
      if e.Data? {
        CStrOfClean(e.bytes);
        assert DataOf(events) == [e.bytes] + DataOf(rest);
      } else {
        assert DataOf(events) == DataOf(rest);
      }
    }
  }

  /** Chunks without a newline only add to the tail. */
  lemma StretchAddsToTail(a: Abs, events: seq<Recv>)
    requires CleanStretch(events)
    ensures var a' := AfterWrites(a, DataOf(events));
            (a'.commits, a'.view, a'.tail) == (a.commits, a.view, a.tail + Flat(DataOf(events)))
  {
    StretchIsGathered(events);
    GatherOnly(a, DataOf(events));
    JoinOfClean(DataOf(events));
  }

  // ----- Sizes

  /** Every packet, with the terminator the driver copies after it, fits the server's
      send buffer. */
  ghost predicate Fits(view: seq<seq<byte>>) {
    forall i :: 0 <= i < |view| ==> PacketFits(view[i], READ_WRITE_SIZE)
  }

  /** The contents never outgrow what was there and what was written. */
  lemma {:induction false} ContentsBound(a: Abs, ws: seq<seq<byte>>)
    ensures var a' := AfterWrites(a, ws);
            |Flat(a'.view)| + |a'.tail| <= |Flat(a.view)| + |a.tail| + |Flat(ws)|
  {
    if ws != [] {
      var n := |ws| - 1;
      ContentsBound(a, ws[..n]);
      assert ws[..n] + [ws[n]] == ws;
      FlatSnoc(ws[..n], ws[n]);
      var b := AfterWrites(a, ws[..n]);
      if HasNewline(ws[n]) {
        PushBound(b.view, b.tail + CStr(ws[n]));
      }
    }
  }

  lemma PushBound(view: seq<seq<byte>>, packet: seq<byte>)
    ensures |Flat(Push(view, packet))| <= |Flat(view)| + |packet|
  {
    FlatSnoc(view, packet);
    if |view| == CAPACITY {
      FlatSnoc(view[1..], packet);
    }
  }

  lemma {:induction false} FitsBound(view: seq<seq<byte>>)
    requires Fits(view)
    ensures |Flat(view)| <= |view| * READ_WRITE_SIZE
  {
    if view != [] {
      assert PacketFits(view[0], READ_WRITE_SIZE);
      FitsBound(view[1..]);
    }
  }

  // ----- The loops

  /** `read_file_and_send`, one read: into the send buffer, of which as many bytes as
      were announced are passed on.  When the driver copies more than the buffer
      holds, `overrun` says so, and what follows is not described. */
  method ReadChunk(dev: D.Device, file: D.File, writeBuffer: array<byte>) returns (chunk: seq<byte>, overrun: bool)
    requires dev.Valid() && !dev.locked && writeBuffer.Length == READ_WRITE_SIZE
    modifies dev`locked, dev`readEntry, dev.buffer`outOffs, file, writeBuffer
    ensures dev.Valid() && !dev.locked && dev.Value() == old(dev.Value())
    ensures overrun == !ReadFits(dev.Abs().view, SizeT(old(file.fpos)), READ_WRITE_SIZE)
    ensures !overrun ==> chunk == ReadAbs(dev.Abs().view, SizeT(old(file.fpos)))
    ensures !overrun ==> file.fpos == old(file.fpos) + |chunk|
  {
    var bytesRead, copied := dev.Read(file, READ_WRITE_SIZE, D.Fine);
    overrun := |copied| > writeBuffer.Length;
    if overrun {
      return [], true;
    }
    forall j | 0 <= j < |copied| {
      writeBuffer[j] := copied[j];
    }
    chunk := writeBuffer[..bytesRead];
  }

  /** How a send loop over the drain `all` ends: with all of it sent, every piece of it
      fitting the buffer, or before the first piece that does not. */
  ghost predicate SentOf(all: seq<seq<byte>>, sends: seq<seq<byte>>, overrun: bool) {
    && (forall i :: 0 <= i < |sends| ==> PacketFits(sends[i], READ_WRITE_SIZE))
    && if overrun then sends < all && !PacketFits(all[|sends|], READ_WRITE_SIZE) else sends == all
  }

  /** The buffer is overrun exactly if some piece does not fit it, and what was sent then
      is what comes before the first such piece. */
  lemma OverrunIff(all: seq<seq<byte>>, sends: seq<seq<byte>>, overrun: bool)
    requires SentOf(all, sends, overrun)
    ensures overrun <==> exists i :: 0 <= i < |all| && !PacketFits(all[i], READ_WRITE_SIZE)
    ensures sends <= all && (forall i :: 0 <= i < |sends| ==> PacketFits(all[i], READ_WRITE_SIZE))
    ensures |sends| < |all| <==> overrun
  {
    forall i | 0 <= i < |sends| ensures PacketFits(all[i], READ_WRITE_SIZE) {
      assert all[i] == sends[i];
    }
  }

  /** The send loop at file position `fpos`, after `sends`. */
  ghost predicate Sending(view: seq<seq<byte>>, start: nat, sends: seq<seq<byte>>, fpos: int) {
    && Drain(view, start) == sends + Drain(view, SizeT(fpos))
    && (forall i :: 0 <= i < |sends| ==> PacketFits(sends[i], READ_WRITE_SIZE))
  }

  /** One read of the send loop, seen from the whole drain. */
  lemma DrainGoesOn(view: seq<seq<byte>>, start: nat, sends: seq<seq<byte>>, pos: nat) returns (chunk: seq<byte>)
    requires Drain(view, start) == sends + Drain(view, pos) && ReadAbs(view, pos) != []
    ensures chunk == ReadAbs(view, pos) && pos + |chunk| <= |Flat(view)|
    ensures Drain(view, start) == sends + [chunk] + Drain(view, pos + |chunk|)
  {
    chunk := ReadAbs(view, pos);
    ReadFacts(view, pos);
    DrainUnfolds(view, pos);
    assert sends + [chunk] + Drain(view, pos + |chunk|) == sends + ([chunk] + Drain(view, pos + |chunk|));
  }

  lemma SendGoesOn(view: seq<seq<byte>>, start: nat, sends: seq<seq<byte>>, fpos: int)
    requires |Flat(view)| < SIZE_T && Sending(view, start, sends, fpos)
    requires ReadFits(view, SizeT(fpos), READ_WRITE_SIZE) && ReadAbs(view, SizeT(fpos)) != []
    ensures var chunk := ReadAbs(view, SizeT(fpos));
            && Sending(view, start, sends + [chunk], fpos + |chunk|)
            && SizeT(fpos) < SizeT(fpos + |chunk|) <= |Flat(view)|
  {
    var chunk := DrainGoesOn(view, start, sends, SizeT(fpos));
    SizeTAdd(fpos, |chunk|);
  }

  lemma SendEnds(view: seq<seq<byte>>, start: nat, sends: seq<seq<byte>>, fpos: int)
    requires Sending(view, start, sends, fpos)
    ensures !ReadFits(view, SizeT(fpos), READ_WRITE_SIZE) ==> SentOf(Drain(view, start), sends, true)
    ensures ReadAbs(view, SizeT(fpos)) == [] ==> SentOf(Drain(view, start), sends, false)
  {
    ReadFacts(view, SizeT(fpos));
    if ReadAbs(view, SizeT(fpos)) != [] {
      DrainUnfolds(view, SizeT(fpos));
    }
    assert sends + [] == sends;
  }

  lemma SendStep(view: seq<seq<byte>>, start: nat, sent: seq<seq<byte>>, fpos: int, chunk: seq<byte>, overrun: bool)
    requires |Flat(view)| < SIZE_T && Sending(view, start, sent, fpos)
    requires overrun == !ReadFits(view, SizeT(fpos), READ_WRITE_SIZE)
    requires !overrun ==> chunk == ReadAbs(view, SizeT(fpos))
    ensures overrun || chunk == [] ==> SentOf(Drain(view, start), sent, overrun)
    ensures !overrun && chunk != [] ==>
              && Sending(view, start, sent + [chunk], fpos + |chunk|)
              && SizeT(fpos) < SizeT(fpos + |chunk|) <= |Flat(view)|
  {
    SendEnds(view, start, sent, fpos);
    if !overrun && chunk != [] {
      SendGoesOn(view, start, sent, fpos);
    }
  }

  /** `read_file_and_send`, one round: a read, and unless it found nothing or overran the
      buffer, a write to the socket. */
  method SendRound(dev: D.Device, file: D.File, writeBuffer: array<byte>, sent: seq<seq<byte>>, ghost start: nat)
    returns (sends: seq<seq<byte>>, done: bool, overrun: bool)
    requires dev.Valid() && !dev.locked && writeBuffer.Length == READ_WRITE_SIZE
    requires |Flat(dev.Abs().view)| < SIZE_T && Sending(dev.Abs().view, start, sent, file.fpos)
    modifies dev`locked, dev`readEntry, dev.buffer`outOffs, file, writeBuffer
    ensures dev.Valid() && !dev.locked && dev.Value() == old(dev.Value())
    ensures done ==> SentOf(Drain(dev.Abs().view, start), sends, overrun)
    ensures !done ==>
              && Sending(dev.Abs().view, start, sends, file.fpos)
              && SizeT(old(file.fpos)) < SizeT(file.fpos) <= |Flat(dev.Abs().view)|
  {
    ghost var view, fpos := dev.Abs().view, file.fpos;
    var chunk;
    chunk, overrun := ReadChunk(dev, file, writeBuffer);
    SendStep(view, start, sent, fpos, chunk, overrun);
    if overrun || chunk == [] {
      return sent, true, overrun;
    }
    return sent + [chunk], false, overrun;
  }

  /** `read_file_and_send`, no call failing and no write to the socket cut short: the
      writes to the socket are the drain of the device from the file's position, up
      to a piece that overruns the send buffer, if there is one. */
  method ReadFileAndSend(dev: D.Device, file: D.File) returns (sends: seq<seq<byte>>, overrun: bool)
    requires dev.Valid() && !dev.locked && |Flat(dev.Abs().view)| < SIZE_T
    modifies dev`locked, dev`readEntry, dev.buffer`outOffs, file
    ensures dev.Valid() && !dev.locked && dev.Value() == old(dev.Value())
    ensures SentOf(Drain(dev.Abs().view, SizeT(old(file.fpos))), sends, overrun)
  {
    ghost var d, start, length := dev.Value(), SizeT(file.fpos), |Flat(dev.Abs().view)|;
    var writeBuffer := new byte[READ_WRITE_SIZE](_ => NUL);
    sends, overrun := [], false;
    var done := false;
    while !done
      invariant dev.Valid() && !dev.locked && dev.Value() == d
      invariant !done ==> Sending(dev.Abs().view, start, sends, file.fpos)
      invariant done ==> SentOf(Drain(dev.Abs().view, start), sends, overrun)
      decreases !done, length - SizeT(file.fpos)
    {
      sends, done, overrun := SendRound(dev, file, writeBuffer, sends, start);
    }
  }

  /** If every packet fits the buffer, nothing overruns it. */
  lemma FittingDrain(view: seq<seq<byte>>, pos: nat, sends: seq<seq<byte>>, overrun: bool)
    requires Fits(view) && SentOf(Drain(view, pos), sends, overrun)
    ensures !overrun && Flat(sends) == From(Flat(view), pos) && |sends| <= |view|
  {
    if overrun {
      DrainFits(view, pos, |sends|);
    }
    DrainIsSuffix(view, pos);
    DrainIsShort(view, pos);
  }

  lemma {:induction false} DrainFits(view: seq<seq<byte>>, pos: nat, k: nat)
    requires Fits(view) && k < |Drain(view, pos)|
    ensures PacketFits(Drain(view, pos)[k], READ_WRITE_SIZE)
    decreases k
  {
    ReadFitsIfPacketsDo(view, pos, READ_WRITE_SIZE);
    DrainUnfolds(view, pos);
    if k > 0 {
      DrainFits(view, pos + |ReadAbs(view, pos)|, k - 1);
    }
  }

  lemma AfterOneMore(a: Abs, ws: seq<seq<byte>>, w: seq<byte>)
    ensures AfterWrites(a, ws + [w]) == WriteAbs(AfterWrites(a, ws), w)
  {
    assert (ws + [w])[..|ws|] == ws;
  }

  /** One round of the receive loop, seen from the whole. */
  lemma ReceiveUnfolds(written: seq<seq<byte>>, buffer: seq<byte>, events: seq<Recv>)
    requires |buffer| == READ_WRITE_SIZE && Receivable(events) && events != []
    ensures events[0].Failed? ==>
              Prepend(written, Receive(buffer, events)) == Received(written, RecvFailed)
    ensures events[0].Closed? || events[0].Interrupted? ==>
              Prepend(written, Receive(buffer, events)) == Prepend(written, Receive(buffer, events[1..]))
    ensures events[0].Data? ==>
              var b, written' := Overwrite(buffer, events[0].bytes), written + [events[0].bytes];
              Prepend(written, Receive(buffer, events)) ==
              if IsSeekRequest(b) then Received(written, SeekSeen(b))
              else if HasNewline(b + events[0].beyond) then Received(written', PacketEnded)
              else Prepend(written', Receive(b, events[1..]))
  {
    if events[0].Data? {
      var r := Receive(Overwrite(buffer, events[0].bytes), events[1..]);
      assert written + ([events[0].bytes] + r.written) == written + [events[0].bytes] + r.written;
    }
    assert written + [] == written;
  }

  /** `receive_and_write_to_file`, one chunk: the buffer is overwritten from its
      start, searched for a newline and compared with the command prefix; if it is
      no command the chunk goes to the device. */
  method HandleChunk(dev: D.Device, file: D.File, readBuffer: array<byte>, bytes: seq<byte>, beyond: seq<byte>)
    returns (ended: bool, seek: bool)
    requires dev.Valid() && !dev.locked && readBuffer.Length == READ_WRITE_SIZE
    requires 1 <= |bytes| <= READ_WRITE_SIZE
    modifies dev, dev.buffer, dev.buffer.entry, dev.slab, file, readBuffer
    ensures dev.Valid() && !dev.locked
    ensures readBuffer[..] == Overwrite(old(readBuffer[..]), bytes)
    ensures ended == HasNewline(readBuffer[..] + beyond) && seek == IsSeekRequest(readBuffer[..])
    ensures dev.Abs() == if seek then old(dev.Abs()) else WriteAbs(old(dev.Abs()), bytes)
    ensures seek || !ended ==> file.fpos == old(file.fpos)
  {
    ghost var before := readBuffer[..];
    forall j | 0 <= j < |bytes| {
      readBuffer[j] := bytes[j];
    }
    assert readBuffer[..] == Overwrite(before, bytes);
    ended := NEWLINE in CStr(readBuffer[..] + beyond);
    seek := SEEK_PREFIX <= readBuffer[..];
    if !seek {
      ServerSeesNewlineIff(before, bytes, beyond);
      ghost var bytesWritten, crashed, env;
      bytesWritten, crashed, env := dev.Write(file, bytes, D.Fine);
    }
  }

  /** `receive_and_write_to_file` up to its return, no write to the device failing:
      the device has gone through exactly the writes of `Receive`, and the file has
      moved only if one of them finished a packet. */
  method ReceiveAndWriteToFile(dev: D.Device, file: D.File, events: seq<Recv>) returns (outcome: Outcome)
    requires dev.Valid() && !dev.locked && file.fpos == 0 && Receivable(events)
    modifies dev, dev.buffer, dev.buffer.entry, dev.slab, file
    ensures dev.Valid() && !dev.locked
    ensures var r := Receive(Zeros(READ_WRITE_SIZE), events);
            && outcome == r.outcome
            && dev.Abs() == AfterWrites(old(dev.Abs()), r.written)
            && (outcome != PacketEnded ==> file.fpos == 0)
  {
    ghost var a, total := dev.Abs(), Receive(Zeros(READ_WRITE_SIZE), events);
    ghost var written: seq<seq<byte>> := [];
    var readBuffer := new byte[READ_WRITE_SIZE](_ => NUL);
    assert readBuffer[..] == Zeros(READ_WRITE_SIZE);
    for i := 0 to |events|
      invariant dev.Valid() && !dev.locked && file.fpos == 0
      invariant dev.Abs() == AfterWrites(a, written)
      invariant total == Prepend(written, Receive(readBuffer[..], events[i..]))
    {
      ReceiveUnfolds(written, readBuffer[..], events[i..]);
      assert events[i..][1..] == events[i + 1..];
      if events[i].Failed? {
        return RecvFailed;
      }
      if events[i].Data? {
        var ended, seek := HandleChunk(dev, file, readBuffer, events[i].bytes, events[i].beyond);
        if seek {
          return SeekSeen(readBuffer[..]);
        }
        AfterOneMore(a, written, events[i].bytes);
        written := written + [events[i].bytes];
        if ended {
          return PacketEnded;
        }
      }
    }
    assert events[|events|..] == [] && written + [] == written;
    assert total == Received(written, Receiving);
    outcome := Receiving;
  }

  /** Where a connection's reading starts: a seek command moves its file, which no
      commit has moved before; otherwise the device is opened afresh. */
  function ReplyFrom(a: Abs, outcome: Outcome, parse: seq<byte> -> (nat, nat), past: seq<nat>): nat {
    if outcome.SeekSeen? then
      var (cmd, off) := parse(outcome.buffer);
      SizeT(SeekReply(a, past, cmd, off, 0).1)
    else 0
  }

  /** What a connection that has left the receive loop as `outcome` says sends of the
      device `a`, and whether it reports completion. */
  ghost predicate Answered(a: Abs, outcome: Outcome, from: nat, sends: seq<seq<byte>>, overrun: bool, complete: bool) {
    if outcome.Receiving? then sends == [] && !overrun && !complete
    else
      && SentOf(Drain(a.view, from), sends, overrun)
      && (!overrun ==> complete == !outcome.SeekSeen?)
  }

  /** What a connection on its own makes of the device `a`: it becomes `a'`, by exactly
      the writes of `Receive`, and unless the connection is still receiving its drain
      from where `ReplyFrom` says is sent. */
  ghost predicate Served(a: Abs, events: seq<Recv>, parse: seq<byte> -> (nat, nat), past: seq<nat>,
                         a': Abs, sends: seq<seq<byte>>, overrun: bool, complete: bool)
    requires Receivable(events)
  {
    var r := Receive(Zeros(READ_WRITE_SIZE), events);
    && a' == AfterWrites(a, r.written)
    && Answered(a', r.outcome, ReplyFrom(a', r.outcome, parse, past), sends, overrun, complete)
  }

  /** `data_processor`, the reply. */
  method Answer(dev: D.Device, outcome: Outcome, writerFd: D.File, parse: seq<byte> -> (nat, nat), past: seq<nat>)
    returns (sends: seq<seq<byte>>, overrun: bool, complete: bool)
    requires dev.Valid() && !dev.locked && |Flat(dev.Abs().view)| < SIZE_T
    requires outcome.SeekSeen? ==> writerFd.fpos == 0
    modifies dev`locked, dev`readEntry, dev.buffer`outOffs, writerFd
    ensures dev.Valid() && !dev.locked && dev.Value() == old(dev.Value())
    ensures Answered(dev.Abs(), outcome, ReplyFrom(dev.Abs(), outcome, parse, past), sends, overrun, complete)
  {
    sends, overrun, complete := [], false, false;
    match outcome {
      case Receiving =>
      case SeekSeen(buffer) =>
        var (cmd, off) := parse(buffer);
        var ioctlResult := dev.AdjustFileOffset(writerFd, cmd, off, false, past);
        sends, overrun := ReadFileAndSend(dev, writerFd);
      case _ =>
        var readerFd := new D.File();
        sends, overrun := ReadFileAndSend(dev, readerFd);
        complete := !overrun;
    }
  }

  /** `data_processor`: one connection on its own.  `parse` reads command and offset
      off a buffer that holds a seek command.  Completion is reported exactly when
      the connection served no seek command. */
  method DataProcessor(dev: D.Device, events: seq<Recv>, parse: seq<byte> -> (nat, nat), past: seq<nat>)
    returns (sends: seq<seq<byte>>, overrun: bool, complete: bool)
    requires dev.Valid() && !dev.locked && Receivable(events)
    requires |Flat(dev.Abs().view)| + |dev.Abs().tail| +
             |Flat(Receive(Zeros(READ_WRITE_SIZE), events).written)| < SIZE_T
    modifies dev, dev.buffer, dev.buffer.entry, dev.slab
    ensures dev.Valid() && !dev.locked
    ensures Served(old(dev.Abs()), events, parse, past, dev.Abs(), sends, overrun, complete)
  {
    ContentsBound(dev.Abs(), Receive(Zeros(READ_WRITE_SIZE), events).written);
    var writerFd := new D.File();
    var outcome := ReceiveAndWriteToFile(dev, writerFd, events);
    sends, overrun, complete := Answer(dev, outcome, writerFd, parse, past);
  }

  /** The reply is the concatenation of the packets, which are the old ones, ten at most,
      with `packet` added; it ends with that packet, and no tail is left. */
  ghost predicate Echoed(a: Abs, packet: seq<byte>, a': Abs, reply: seq<byte>) {
    && a'.view == Push(a.view, packet)
    && a'.tail == []
    && reply == Flat(a'.view)
    && EndsWith(reply, packet)
  }

  /** One clean packet arrives, and every packet fits the send buffer, the new one
      included. */
  ghost predicate EchoReady(a: Abs, events: seq<Recv>, more: seq<Recv>) {
    && CleanPacket(events) && Receivable(events) && Receivable(events + more)
    && NeverSeeks(Zeros(READ_WRITE_SIZE), events)
    && Fits(a.view)
    && |a.tail| + |Flat(DataOf(events))| < READ_WRITE_SIZE
  }

  /** The sizes of an echo stay far from overflow. */
  lemma EchoFits(a: Abs, events: seq<Recv>, more: seq<Recv>)
    requires |a.view| <= CAPACITY && EchoReady(a, events, more)
    ensures |Flat(a.view)| + |a.tail| + |Flat(Receive(Zeros(READ_WRITE_SIZE), events + more).written)| < SIZE_T
  {
    CleanPacketIsReceived(Zeros(READ_WRITE_SIZE), events, more);
    FitsBound(a.view);
  }

  lemma PushFits(view: seq<seq<byte>>, packet: seq<byte>)
    requires Fits(view) && PacketFits(packet, READ_WRITE_SIZE)
    ensures Fits(Push(view, packet))
  {
  }

  lemma EchoSends(view: seq<seq<byte>>, sends: seq<seq<byte>>, overrun: bool)
    requires Fits(view) && SentOf(Drain(view, 0), sends, overrun)
    ensures !overrun && Flat(sends) == Flat(view)
  {
    FittingDrain(view, 0, sends, overrun);
    assert From(Flat(view), 0) == Flat(view);
  }

  lemma EchoIsServed(a: Abs, events: seq<Recv>, more: seq<Recv>, parse: seq<byte> -> (nat, nat), past: seq<nat>,
                     a': Abs, sends: seq<seq<byte>>, overrun: bool, complete: bool)
    requires |a.view| <= CAPACITY && EchoReady(a, events, more)
    requires Served(a, events + more, parse, past, a', sends, overrun, complete)
    ensures !overrun && complete && Echoed(a, a.tail + Flat(DataOf(events)), a', Flat(sends))
  {
    CleanPacketCommits(a, events, more);
    PushFits(a.view, a.tail + Flat(DataOf(events)));
    PushEndsWith(a.view, a.tail + Flat(DataOf(events)));
    EchoSends(a'.view, sends, overrun);
  }

  /** The echo: a connection that sends one clean packet gets as its reply the last at
      most ten packets, its own at the end, and completion is reported. */
  method Echo(dev: D.Device, events: seq<Recv>, more: seq<Recv>, parse: seq<byte> -> (nat, nat), past: seq<nat>)
    returns (reply: seq<byte>, complete: bool)
    requires dev.Valid() && !dev.locked && EchoReady(dev.Abs(), events, more)
    modifies dev, dev.buffer, dev.buffer.entry, dev.slab
    ensures dev.Valid() && !dev.locked && complete
    ensures Echoed(old(dev.Abs()), old(dev.Abs()).tail + Flat(DataOf(events)), dev.Abs(), reply)
  {
    ghost var a := dev.Abs();
    EchoFits(a, events, more);
    var sends, overrun;
    sends, overrun, complete := DataProcessor(dev, events + more, parse, past);
    EchoIsServed(a, events, more, parse, past, dev.Abs(), sends, overrun, complete);
    reply := Flat(sends);
  }

  /** The echo again, by what the client sends: chunks that are unlike a seek command. */
  method EchoOfPlainText(dev: D.Device, events: seq<Recv>, more: seq<Recv>,
                         parse: seq<byte> -> (nat, nat), past: seq<nat>)
    returns (reply: seq<byte>, complete: bool)
    requires dev.Valid() && !dev.locked
    requires CleanPacket(events) && PlainText(events) && Receivable(events + more)
    requires Fits(dev.Abs().view) && |dev.Abs().tail| + |Flat(DataOf(events))| < READ_WRITE_SIZE
    modifies dev, dev.buffer, dev.buffer.entry, dev.slab
    ensures dev.Valid() && !dev.locked && complete
    ensures Echoed(old(dev.Abs()), old(dev.Abs()).tail + Flat(DataOf(events)), dev.Abs(), reply)
  {
    PrefixIsReceivable(events, more);
    PlainTextNeverSeeks(Zeros(READ_WRITE_SIZE), events);
    reply, complete := Echo(dev, events, more, parse, past);
  }

  lemma PrefixIsReceivable(events: seq<Recv>, more: seq<Recv>)
    requires Receivable(events + more)
    ensures Receivable(events) && Receivable(more)
  {
    forall i | 0 <= i < |events| && events[i].Data? ensures 1 <= |events[i].bytes| <= READ_WRITE_SIZE {
      assert (events + more)[i] == events[i];
    }
    forall i | 0 <= i < |more| && more[i].Data? ensures 1 <= |more[i].bytes| <= READ_WRITE_SIZE {
      assert (events + more)[|events| + i] == more[i];
    }
  }

  // ----- Connections that send no whole packet

  /** A connection on which no newline arrives is sent nothing and reports nothing. */
  lemma UnansweredIsServed(a: Abs, events: seq<Recv>, parse: seq<byte> -> (nat, nat), past: seq<nat>,
                           a': Abs, sends: seq<seq<byte>>, overrun: bool, complete: bool)
    requires CleanStretch(events) && PlainText(events) && Receivable(events)
    requires Served(a, events, parse, past, a', sends, overrun, complete)
    ensures sends == [] && !complete
    ensures (a'.commits, a'.view, a'.tail) == (a.commits, a.view, a.tail + Flat(DataOf(events)))
  {
    PlainTextNeverSeeks(Zeros(READ_WRITE_SIZE), events);
    NoNewlineNoEnd(Zeros(READ_WRITE_SIZE), events);
    StretchAddsToTail(a, events);
  }

  /** One on which `recv` fails is sent all the packets there are, and reports completion;
      what it had sent stays unfinished in the device. */
  lemma FailureIsServed(a: Abs, events: seq<Recv>, more: seq<Recv>, parse: seq<byte> -> (nat, nat), past: seq<nat>,
                        a': Abs, sends: seq<seq<byte>>, overrun: bool, complete: bool)
    requires CleanStretch(events) && PlainText(events) && Fits(a.view)
    requires Receivable(events + [Failed] + more)
    requires Served(a, events + [Failed] + more, parse, past, a', sends, overrun, complete)
    ensures !overrun && complete && Flat(sends) == Flat(a.view)
    ensures (a'.commits, a'.view, a'.tail) == (a.commits, a.view, a.tail + Flat(DataOf(events)))
  {
    assert events + [Failed] + more == events + ([Failed] + more);
    PrefixIsReceivable(events, [Failed] + more);
    PlainTextNeverSeeks(Zeros(READ_WRITE_SIZE), events);
    FailureEndsReceiving(Zeros(READ_WRITE_SIZE), events, more);
    StretchAddsToTail(a, events);
    EchoSends(a.view, sends, overrun);
  }

  // ----- The reply to a seek command

  /** What is sent from offset `off` of command `cmd` on; everything, if there is no such
      place. */
  function FromCommand(view: seq<seq<byte>>, cmd: nat, off: nat): seq<byte> {
    if cmd < |view| && off <= |view[cmd]| then view[cmd][off..] + Flat(view[cmd + 1..]) else Flat(view)
  }

  lemma ReplyStartsAtCommand(a: Abs, outcome: Outcome, parse: seq<byte> -> (nat, nat), past: seq<nat>, cmd: nat, off: nat)
    requires |a.view| <= CAPACITY && |Flat(a.view)| < SIZE_T
    requires outcome.SeekSeen? && parse(outcome.buffer) == (cmd, off)
    requires cmd < |a.view| && off <= |a.view[cmd]| ==> OutOf(a.commits) + cmd <= CAPACITY
    ensures From(Flat(a.view), ReplyFrom(a, outcome, parse, past)) == FromCommand(a.view, cmd, off)
  {
    SeekAcceptedIff(a, past, cmd, off, 0);
    if cmd < |a.view| && off <= |a.view[cmd]| {
      SeekExactIff(a, cmd, off);
      assert SeekAbs(a, past, cmd, off) == Some(|Flat(a.view[..cmd])| + off);
      AheadOfCommand(a.view, cmd, off);
    } else {
      assert From(Flat(a.view), 0) == Flat(a.view);
    }
  }

  lemma CommandIsServed(a: Abs, events: seq<Recv>, command: Recv, more: seq<Recv>,
                        parse: seq<byte> -> (nat, nat), past: seq<nat>, cmd: nat, off: nat,
                        a': Abs, sends: seq<seq<byte>>, overrun: bool, complete: bool)
    requires |a.view| <= CAPACITY && Fits(a.view) && CommandReady(a, events, command, more, parse, cmd, off)
    requires Served(a, events + [command] + more, parse, past, a', sends, overrun, complete)
    ensures a' == a && !overrun && !complete && Flat(sends) == FromCommand(a.view, cmd, off)
  {
    var buffer := Zeros(READ_WRITE_SIZE);
    var outcome := SeekSeen(Overwrite(buffer, command.bytes));
    CommandIsSeen(buffer, events, command, more);
    FitsBound(a.view);
    ReplyStartsAtCommand(a, outcome, parse, past, cmd, off);
    FittingDrain(a.view, ReplyFrom(a, outcome, parse, past), sends, overrun);
  }

  /** The first chunk spells a seek command, and reads as command `cmd` and offset `off`;
      if there is such a place, the loop that looks for it stays inside the array. */
  ghost predicate CommandReady(a: Abs, events: seq<Recv>, command: Recv, more: seq<Recv>,
                               parse: seq<byte> -> (nat, nat), cmd: nat, off: nat) {
    && Silent(events)
    && command.Data? && Spells(command.bytes, "AESDCHAR_IOCSEEKTO:") && |command.bytes| <= READ_WRITE_SIZE
    && Receivable(events + [command] + more)
    && parse(command.bytes + Zeros(READ_WRITE_SIZE)[|command.bytes|..]) == (cmd, off)
    && (cmd < |a.view| && off <= |a.view[cmd]| ==> OutOf(a.commits) + cmd <= CAPACITY)
  }

  /** The reply to a seek command: the contents from the offset in the command on; all of
      them, if the command is not live or the offset beyond its end.  The device is left
      as it was, and completion is not reported. */
  method SeekEcho(dev: D.Device, events: seq<Recv>, command: Recv, more: seq<Recv>,
                  parse: seq<byte> -> (nat, nat), past: seq<nat>, ghost cmd: nat, ghost off: nat)
    returns (reply: seq<byte>, complete: bool)
    requires dev.Valid() && !dev.locked && Fits(dev.Abs().view)
    requires |Flat(dev.Abs().view)| + |dev.Abs().tail| < SIZE_T
    requires CommandReady(dev.Abs(), events, command, more, parse, cmd, off)
    modifies dev, dev.buffer, dev.buffer.entry, dev.slab
    ensures dev.Valid() && !dev.locked && !complete
    ensures dev.Abs() == old(dev.Abs())
    ensures reply == FromCommand(dev.Abs().view, cmd, off)
  {
    ghost var a := dev.Abs();
    CommandIsSeen(Zeros(READ_WRITE_SIZE), events, command, more);
    var sends, overrun;
    sends, overrun, complete := DataProcessor(dev, events + [command] + more, parse, past);
    CommandIsServed(a, events, command, more, parse, past, cmd, off, dev.Abs(), sends, overrun, complete);
    reply := Flat(sends);
  }
}
