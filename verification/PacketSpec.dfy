/** What the driver is for, without rings, pointers or flags: the device keeps
    the last ten packets and the unfinished tail of the next one.  Two accounts
    are given, one call at a time (`WriteAbs` and its companions) and over a whole
    history of writes (`Packets`, `Unfinished`), and they are proved to agree. */
module PacketSpec {
  import opened Bytes
  import opened CircularBuffer

  /** `commits` counts all packets ever finished, `chunks` the writes gathered in
      the unfinished one. */
  datatype Abs = Abs(commits: nat, view: seq<seq<byte>>, tail: seq<byte>, chunks: nat)

  const FRESH_DEVICE: Abs := Abs(0, [], [], 0)

  ghost predicate AbsInv(a: Abs) {
    && |a.view| == (if a.commits < CAPACITY then a.commits else CAPACITY)
    && (forall i :: 0 <= i < |a.view| ==> NEWLINE in a.view[i])
    && NEWLINE !in a.tail
    && (a.chunks == 0 ==> a.tail == [])
  }

  // ----- One call at a time

  function Push(view: seq<seq<byte>>, packet: seq<byte>): seq<seq<byte>> {
    (if |view| == CAPACITY then view[1..] else view) + [packet]
  }

  function WriteAbs(a: Abs, data: seq<byte>): Abs {
    var tail := a.tail + CStr(data);
    if HasNewline(data) then Abs(a.commits + 1, Push(a.view, tail), [], 0)
    else a.(tail := tail, chunks := a.chunks + 1)
  }

  /** How far a write moves the file position: only a commit moves it, and by one
      more than the packet's length for every chunk gathered. */
  function WriteAdvance(a: Abs, data: seq<byte>): nat {
    if HasNewline(data) then |a.tail| + StrLen(data) + a.chunks + 1 else 0
  }

  /** A read delivers the rest of the entry the position falls into. */
  function ReadAbs(view: seq<seq<byte>>, pos: nat): seq<byte> {
    if view == [] then []
    else if pos < |view[0]| then view[0][pos..]
    else ReadAbs(view[1..], pos - |view[0]|)
  }

  lemma WriteKeepsAbsInv(a: Abs, data: seq<byte>)
    requires AbsInv(a)
    ensures AbsInv(WriteAbs(a, data))
  {
    if HasNewline(data) {
      var k :| 0 <= k < |CStr(data)| && CStr(data)[k] == NEWLINE;
      assert (a.tail + CStr(data))[|a.tail| + k] == NEWLINE;
    }
  }

  /** Eviction: the flat contents lose exactly the oldest packet, when ten were
      live, and gain the new one at the end; every byte that survives is found
      earlier by the length of what was dropped. */
  lemma Eviction(view: seq<seq<byte>>, packet: seq<byte>)
    requires |view| <= CAPACITY
    ensures var dropped := if |view| == CAPACITY then |view[0]| else 0;
            && dropped <= |Flat(view)|
            && Flat(Push(view, packet)) == Flat(view)[dropped..] + packet
            && (forall p: nat :: p + dropped < |Flat(view)| ==>
                  Flat(Push(view, packet))[p] == Flat(view)[p + dropped])
  {
    if |view| == CAPACITY {
      FlatSnoc(view[1..], packet);
      assert Flat(view)[|view[0]|..] == Flat(view[1..]);
    } else {
      FlatSnoc(view, packet);
      assert Flat(view)[0..] == Flat(view);
    }
  }

  /** The new packet is at the end. */
  lemma PushEndsWith(view: seq<seq<byte>>, packet: seq<byte>)
    requires |view| <= CAPACITY
    ensures EndsWith(Flat(Push(view, packet)), packet)
  {
    Eviction(view, packet);
  }

  // ----- Reading

  /** Where entry `i` starts in the flat contents, and the last one ends. */
  function Boundary(view: seq<seq<byte>>, i: nat): nat
    requires i <= |view|
  {
    |Flat(view[..i])|
  }

  lemma {:induction false} ReadAt(view: seq<seq<byte>>, pos: nat, i: nat, inner: nat)
    requires At(view, pos, i, inner)
    ensures ReadAbs(view, pos) == view[i][inner..]
  {
    if i > 0 {
      assert view[..i][1..] == view[1..][..i - 1];
      ReadAt(view[1..], pos - |view[0]|, i - 1, inner);
    }
  }

  lemma {:induction false} ReadPastEnd(view: seq<seq<byte>>, pos: nat)
    requires |Flat(view)| <= pos
    ensures ReadAbs(view, pos) == []
  {
    if view != [] {
      ReadPastEnd(view[1..], pos - |view[0]|);
    }
  }

  /** A non-empty read starts at the position, stays inside one entry and ends on
      its boundary; a read is empty exactly at and past the end. */
  lemma ReadFacts(view: seq<seq<byte>>, pos: nat)
    ensures ReadAbs(view, pos) == [] <==> |Flat(view)| <= pos
    ensures pos < |Flat(view)| ==>
              var i := PartAt(view, pos);
              && i < |view|
              && pos + |ReadAbs(view, pos)| == Boundary(view, i + 1) <= |Flat(view)|
              && ReadAbs(view, pos) == Flat(view)[pos..Boundary(view, i + 1)]
  {
    if pos < |Flat(view)| {
      PartAtFacts(view, pos);
      var i := PartAt(view, pos);
      var inner := pos - |Flat(view[..i])|;
      AtFacts(view, pos, i, inner);
      ReadAt(view, pos, i, inner);
    } else {
      ReadPastEnd(view, pos);
    }
  }

  /** A read copies what it delivers and one byte more, whatever room it was given. */
  predicate ReadFits(view: seq<seq<byte>>, pos: nat, count: nat) {
    ReadAbs(view, pos) == [] || |ReadAbs(view, pos)| + 1 <= count
  }

  predicate PacketFits(packet: seq<byte>, count: nat) {
    packet == [] || |packet| + 1 <= count
  }

  lemma PacketFitsIfReadsDo(view: seq<seq<byte>>, i: nat, count: nat)
    requires i < |view| && ReadFits(view, |Flat(view[..i])|, count)
    ensures PacketFits(view[i], count)
  {
    if view[i] != [] {
      ReadAt(view, |Flat(view[..i])|, i, 0);
    }
  }

  lemma ReadFitsIfPacketsDo(view: seq<seq<byte>>, pos: nat, count: nat)
    requires forall i :: 0 <= i < |view| ==> PacketFits(view[i], count)
    ensures ReadFits(view, pos, count)
  {
    ReadFacts(view, pos);
    if pos < |Flat(view)| {
      PartAtFacts(view, pos);
      var i := PartAt(view, pos);
      assert PacketFits(view[i], count);
      ReadAt(view, pos, i, pos - |Flat(view[..i])|);
    }
  }

  /** All reads stay within `count` bytes exactly when every packet leaves room for the
      byte after it. */
  lemma ReadsFitIff(view: seq<seq<byte>>, count: nat)
    ensures (forall pos: nat :: ReadFits(view, pos, count)) <==>
            (forall i :: 0 <= i < |view| ==> PacketFits(view[i], count))
  {
    if forall pos: nat :: ReadFits(view, pos, count) {
      forall i | 0 <= i < |view| ensures PacketFits(view[i], count) {
        PacketFitsIfReadsDo(view, i, count);
      }
    } else if forall i :: 0 <= i < |view| ==> PacketFits(view[i], count) {
      forall pos: nat ensures ReadFits(view, pos, count) {
        ReadFitsIfPacketsDo(view, pos, count);
      }
    }
  }

  /** For every count there is a single write after which the first read copies more. */
  lemma EveryCountIsOverrun(count: nat) returns (data: seq<byte>)
    ensures |data| >= 1 && NUL !in data
    ensures AfterWrites(FRESH_DEVICE, [data]).view == [data]
    ensures ReadAbs([data], 0) == data && !ReadFits([data], 0, count)
  {
    data := seq(if count == 0 then 1 else count, _ => NEWLINE);
    CStrOfClean(data);
    assert data[0] == NEWLINE;
    assert [data][..0] == [];
    assert AfterWrites(FRESH_DEVICE, [data][..0]) == FRESH_DEVICE;
    assert [] + data == data;
    assert AfterWrites(FRESH_DEVICE, [data]) == WriteAbs(FRESH_DEVICE, data);
  }

  /** The next read falls into a later entry, or past the end. */
  lemma ReadMovesOn(view: seq<seq<byte>>, pos: nat)
    requires pos < |Flat(view)|
    ensures PartAt(view, pos) < PartAt(view, pos + |ReadAbs(view, pos)|)
  {
    ReadFacts(view, pos);
    var i, next := PartAt(view, pos), pos + |ReadAbs(view, pos)|;
    PartAtFacts(view, next);
    var j := PartAt(view, next);
    if j <= i {
      AtFacts(view, next, j, next - |Flat(view[..j])|);
      FlatMonotone(view, j + 1, i + 1);
    }
  }

  /** The reads that follow one another until one comes back empty. */
  function Drain(view: seq<seq<byte>>, pos: nat): seq<seq<byte>>
    decreases |Flat(view)| - pos
  {
    if pos >= |Flat(view)| then []
    else
      ReadFacts(view, pos);
      [ReadAbs(view, pos)] + Drain(view, pos + |ReadAbs(view, pos)|)
  }

  lemma DrainUnfolds(view: seq<seq<byte>>, pos: nat)
    requires pos < |Flat(view)|
    ensures pos < pos + |ReadAbs(view, pos)| <= |Flat(view)|
    ensures Drain(view, pos) == [ReadAbs(view, pos)] + Drain(view, pos + |ReadAbs(view, pos)|)
  {
    ReadFacts(view, pos);
  }

  /** The contents from `pos` on. */
  function From(s: seq<byte>, pos: nat): seq<byte> {
    if pos < |s| then s[pos..] else []
  }

  lemma SuffixGlue(flat: seq<byte>, pos: nat, r: seq<byte>, rest: seq<seq<byte>>)
    requires pos + |r| <= |flat| && r == flat[pos..pos + |r|]
    requires Flat(rest) == From(flat, pos + |r|)
    ensures Flat([r] + rest) == From(flat, pos)
  {
    assert ([r] + rest)[1..] == rest;
  }

  /** Draining from `pos` delivers the flat contents from `pos` on. */
  lemma {:induction false} DrainIsSuffix(view: seq<seq<byte>>, pos: nat)
    ensures Flat(Drain(view, pos)) == From(Flat(view), pos)
    decreases |Flat(view)| - pos
  {
    var flat := Flat(view);
    if pos < |flat| {
      DrainUnfolds(view, pos);
      var r := ReadAbs(view, pos);
      DrainIsSuffix(view, pos + |r|);
      assert r == flat[pos..pos + |r|] by {
        ReadFacts(view, pos);
      }
      SuffixGlue(flat, pos, r, Drain(view, pos + |r|));
    }
  }

  /** A drain takes no more non-empty reads than there are entries from the one
      holding the position on. */
  lemma {:induction false} DrainIsShort(view: seq<seq<byte>>, pos: nat)
    ensures |Drain(view, pos)| <= |view| - PartAt(view, pos)
    decreases |Flat(view)| - pos
  {
    if pos < |Flat(view)| {
      DrainUnfolds(view, pos);
      DrainIsShort(view, pos + |ReadAbs(view, pos)|);
      ReadMovesOn(view, pos);
    }
  }

  /** Every read of a drain is non-empty and ends on an entry boundary. */
  lemma {:induction false} DrainStepsOnBoundaries(view: seq<seq<byte>>, pos: nat, k: nat) returns (i: nat)
    requires k < |Drain(view, pos)|
    ensures Drain(view, pos)[k] != []
    ensures i < |view| && pos + |Flat(Drain(view, pos)[..k + 1])| == Boundary(view, i + 1)
    decreases k
  {
    ReadFacts(view, pos);
    var r := ReadAbs(view, pos);
    var rest := Drain(view, pos + |r|);
    assert Drain(view, pos)[..k + 1] == [r] + rest[..k];
    assert ([r] + rest[..k])[1..] == rest[..k];
    if k == 0 {
      i := PartAt(view, pos);
    } else {
      i := DrainStepsOnBoundaries(view, pos + |r|, k - 1);
    }
  }

  // ----- Seeking to a position

  const EINVAL: int := 22

  datatype Whence = SeekSet | SeekCur | SeekEnd | OtherWhence

  /** The kernel's `fixed_size_llseek`: the new position, or a negative error. */
  function FixedSizeLlseek(fpos: int, offset: int, whence: Whence, size: nat): (r: int)
    ensures r == -EINVAL || 0 <= r <= size || (whence == SeekCur && offset == 0 && r == fpos)
  {
    match whence
    case OtherWhence => -EINVAL
    case SeekSet => if 0 <= offset <= size then offset else -EINVAL
    case SeekEnd => if 0 <= size + offset <= size then size + offset else -EINVAL
    case SeekCur =>
      if offset == 0 then fpos
      else if 0 <= fpos + offset <= size then fpos + offset else -EINVAL
  }

  /** What is left of the entry that position `pos` falls into. */
  function RestOfEntry(view: seq<seq<byte>>, pos: nat): (r: seq<byte>)
    ensures pos >= |Flat(view)| ==> r == []
  {
    if pos < |Flat(view)| then
      ReadFacts(view, pos);
      Flat(view)[pos..Boundary(view, PartAt(view, pos) + 1)]
    else []
  }

  lemma ReadIsRestOfEntry(view: seq<seq<byte>>, pos: nat)
    ensures ReadAbs(view, pos) == RestOfEntry(view, pos)
  {
    ReadFacts(view, pos);
  }

  /** From every position, SEEK_CUR by other than zero is SEEK_SET to that much further on,
      SEEK_END is SEEK_SET to that much past the end, SEEK_CUR by zero tells the
      position and leaves it, and any other whence is refused. */
  lemma SeekIsSeekSet(fpos: int, offset: int, size: nat)
    ensures offset != 0 ==>
              FixedSizeLlseek(fpos, offset, SeekCur, size) == FixedSizeLlseek(fpos, fpos + offset, SeekSet, size)
    ensures FixedSizeLlseek(fpos, 0, SeekCur, size) == fpos
    ensures FixedSizeLlseek(fpos, offset, SeekEnd, size) == FixedSizeLlseek(fpos, size + offset, SeekSet, size)
    ensures FixedSizeLlseek(fpos, offset, OtherWhence, size) == -EINVAL
  {
  }

  /** SEEK_CUR by `m` after SEEK_SET to `n` answers and leaves the file as SEEK_SET to
      `n + m` does, refusal included; a read after it delivers the contents from there
      to the end of the entry. */
  lemma SeekSetThenCur(view: seq<seq<byte>>, fpos: int, n: nat, m: int)
    requires n <= |Flat(view)| < SIZE_T
    ensures var size := |Flat(view)|;
            var r := FixedSizeLlseek(FixedSizeLlseek(fpos, n, SeekSet, size), m, SeekCur, size);
            && r == FixedSizeLlseek(fpos, n + m, SeekSet, size)
            && if 0 <= n + m <= size then r == n + m && ReadAbs(view, SizeT(r)) == RestOfEntry(view, n + m)
               else r == -EINVAL
  {
    if 0 <= n + m <= |Flat(view)| {
      ReadIsRestOfEntry(view, n + m);
    }
  }

  /** A successful SEEK_SET or SEEK_END lands within the contents, and a read from
      there delivers something exactly when it landed before their end. */
  lemma SeekLands(view: seq<seq<byte>>, fpos: int, offset: int, whence: Whence)
    requires |Flat(view)| < SIZE_T && (whence == SeekSet || whence == SeekEnd)
    ensures var r, asked := FixedSizeLlseek(fpos, offset, whence, |Flat(view)|),
                            if whence == SeekSet then offset else |Flat(view)| + offset;
            if 0 <= asked <= |Flat(view)|
            then
              && r == asked
              && ReadAbs(view, SizeT(r)) == RestOfEntry(view, asked)
              && (ReadAbs(view, SizeT(r)) != [] <==> r < |Flat(view)|)
            else r == -EINVAL
  {
    var r := FixedSizeLlseek(fpos, offset, whence, |Flat(view)|);
    if r >= 0 {
      ReadFacts(view, r);
      ReadIsRestOfEntry(view, r);
    }
  }

  /** A refused seek stores its error as the position; a read from there delivers
      nothing exactly if the contents are at most 2^64 - 22 bytes. */
  lemma RefusedSeekReadsNothing(view: seq<seq<byte>>)
    ensures ReadAbs(view, SizeT(-EINVAL)) == [] <==> |Flat(view)| <= SIZE_T - 22
  {
    ReadFacts(view, SIZE_T - EINVAL);
  }

  // ----- Seeking to (command, offset)

  /** The input and output positions after `commits` packets. */
  function InOf(commits: nat): (k: nat)
    ensures k < CAPACITY
  {
    if commits == 0 then 0 else Next(InOf(commits - 1))
  }

  function OutOf(commits: nat): nat {
    if commits < CAPACITY then 0 else InOf(commits)
  }

  lemma ModuloStep(n: nat)
    ensures (n + 1) % 10 == Next(n % 10)
  {
  }

  lemma {:induction false} InOfIsModulo(commits: nat)
    ensures InOf(commits) == commits % 10
    ensures commits < CAPACITY ==> InOf(commits) == commits
  {
    if commits > 0 {
      InOfIsModulo(commits - 1);
      ModuloStep(commits - 1);
    }
  }

  /** What the prefix loop has added up before it meets `cmd`.  It runs on from the
      output position without wrapping around, into `past` beyond the array. */
  function ScanBefore(a: Abs, past: seq<nat>, cmd: nat): nat
    requires cmd <= |a.view|
  {
    if cmd == 0 then 0
    else ScanBefore(a, past, cmd - 1) +
         (if OutOf(a.commits) + cmd - 1 < CAPACITY then |a.view[cmd - 1]|
          else PastSize(past, OutOf(a.commits) + cmd - 1 - CAPACITY))
  }

  /** The position a seek sets, or None when it is refused. */
  function SeekAbs(a: Abs, past: seq<nat>, cmd: nat, off: nat): Option<nat> {
    if cmd >= CAPACITY || cmd >= |a.view| || |a.view[cmd]| < off then None
    else Some(ScanBefore(a, past, cmd) + off)
  }

  /** What a seek answers, and where it leaves the file. */
  function SeekReply(a: Abs, past: seq<nat>, cmd: nat, off: nat, fpos: int): (int, int) {
    match SeekAbs(a, past, cmd, off)
    case None => (-EINVAL, fpos)
    case Some(pos) => (0, pos)
  }

  /** A seek is accepted exactly for a live command and an offset within it, its end
      included; refused, it leaves the file where it is. */
  lemma SeekAcceptedIff(a: Abs, past: seq<nat>, cmd: nat, off: nat, fpos: int)
    requires |a.view| <= CAPACITY
    ensures var (retval, pos) := SeekReply(a, past, cmd, off, fpos);
            if cmd < |a.view| && off <= |a.view[cmd]| then retval == 0 else retval == -EINVAL && pos == fpos
  {
  }

  /** What lies ahead of offset `off` in command `cmd`. */
  lemma AheadOfCommand(view: seq<seq<byte>>, cmd: nat, off: nat)
    requires cmd < |view| && off <= |view[cmd]|
    ensures |Flat(view[..cmd])| + off <= |Flat(view)|
    ensures Flat(view)[|Flat(view[..cmd])| + off..] == view[cmd][off..] + Flat(view[cmd + 1..])
  {
    var before, rest := Flat(view[..cmd]), Flat(view[cmd + 1..]);
    assert view == view[..cmd] + ([view[cmd]] + view[cmd + 1..]);
    FlatAppend(view[..cmd], [view[cmd]] + view[cmd + 1..]);
    assert Flat([view[cmd]] + view[cmd + 1..]) == view[cmd] + rest;
    assert Flat(view) == before + (view[cmd] + rest);
  }

  lemma {:induction false} ScanIsPrefix(a: Abs, past: seq<nat>, cmd: nat)
    requires cmd <= |a.view| && OutOf(a.commits) + cmd <= CAPACITY
    ensures ScanBefore(a, past, cmd) == |Flat(a.view[..cmd])|
  {
    if cmd > 0 {
      ScanIsPrefix(a, past, cmd - 1);
      FlatSplit(a.view, cmd - 1);
    }
  }

  lemma {:induction false} ScanReadsPast(a: Abs, past: seq<nat>, cmd: nat)
    requires cmd <= |a.view| && OutOf(a.commits) + cmd > CAPACITY
    requires |past| > 0
    ensures ScanBefore(a, past, cmd) >= past[0]
  {
    if OutOf(a.commits) + cmd - 1 > CAPACITY {
      ScanReadsPast(a, past, cmd - 1);
    }
  }

  /** An accepted seek sets the documented position, whatever lies in memory past
      the array, exactly when the unwrapped loop stays inside the array. */
  lemma SeekExactIff(a: Abs, cmd: nat, off: nat)
    requires |a.view| <= CAPACITY && cmd < |a.view| && off <= |a.view[cmd]|
    ensures (forall past :: SeekAbs(a, past, cmd, off) == Some(|Flat(a.view[..cmd])| + off))
            <==> OutOf(a.commits) + cmd <= CAPACITY
  {
    if OutOf(a.commits) + cmd <= CAPACITY {
      forall past {
        ScanIsPrefix(a, past, cmd);
      }
    } else {
      var past := [|Flat(a.view[..cmd])| + 1];
      ScanReadsPast(a, past, cmd);
      assert SeekAbs(a, past, cmd, off) != Some(|Flat(a.view[..cmd])| + off);
    }
  }

  /** Up to eleven packets every accepted seek is exact. */
  lemma SeekExactEarly(a: Abs, past: seq<nat>, cmd: nat, off: nat)
    requires AbsInv(a) && a.commits < 12 && cmd < |a.view| && off <= |a.view[cmd]|
    ensures SeekAbs(a, past, cmd, off) == Some(|Flat(a.view[..cmd])| + off)
  {
    InOfIsModulo(a.commits);
    ScanIsPrefix(a, past, cmd);
  }

  /** With twelve, a seek to the tenth live command can go astray. */
  lemma SeekAstray(a: Abs, off: nat)
    requires AbsInv(a) && a.commits == 12 && off <= |a.view[9]|
    ensures exists past :: SeekAbs(a, past, 9, off) != Some(|Flat(a.view[..9])| + off)
  {
    InOfIsModulo(12);
    SeekExactIff(a, 9, off);
  }

  /** Seek, then read: the read delivers the command from the offset on; with the
      offset at the command's end it delivers the next command, or nothing. */
  lemma SeekThenRead(a: Abs, past: seq<nat>, cmd: nat, off: nat)
    requires AbsInv(a) && SeekAbs(a, past, cmd, off).Some?
    requires OutOf(a.commits) + cmd <= CAPACITY
    ensures var pos := SeekAbs(a, past, cmd, off).value;
            ReadAbs(a.view, pos) ==
            if off < |a.view[cmd]| then a.view[cmd][off..]
            else if cmd + 1 < |a.view| then a.view[cmd + 1]
            else []
  {
    var pos := SeekAbs(a, past, cmd, off).value;
    ScanIsPrefix(a, past, cmd);
    FlatSplit(a.view, cmd);
    if off < |a.view[cmd]| {
      ReadAt(a.view, pos, cmd, off);
    } else if cmd + 1 < |a.view| {
      assert a.view[cmd + 1] != [];
      assert At(a.view, pos, cmd + 1, 0);
      ReadAt(a.view, pos, cmd + 1, 0);
    } else {
      assert a.view[..cmd + 1] == a.view;
      ReadPastEnd(a.view, pos);
    }
  }

  // ----- Whole histories of writes

  function CStrs(ws: seq<seq<byte>>): (cs: seq<seq<byte>>)
    ensures |cs| == |ws|
    ensures forall i :: 0 <= i < |ws| ==> cs[i] == CStr(ws[i])
  {
    seq(|ws|, i requires 0 <= i < |ws| => CStr(ws[i]))
  }

  /** The C strings of a run of writes, joined. */
  function Join(ws: seq<seq<byte>>): seq<byte> {
    Flat(CStrs(ws))
  }

  function FirstEnd(ws: seq<seq<byte>>): (k: nat)
    ensures k <= |ws|
    ensures forall i :: 0 <= i < k ==> !HasNewline(ws[i])
    ensures k < |ws| ==> HasNewline(ws[k])
  {
    if ws == [] || HasNewline(ws[0]) then 0 else 1 + FirstEnd(ws[1..])
  }

  /** The packets of a history: each runs up to and including the first write that
      holds a newline. */
  function Packets(ws: seq<seq<byte>>): seq<seq<byte>>
    decreases |ws|
  {
    var k := FirstEnd(ws);
    if k == |ws| then [] else [Join(ws[..k + 1])] + Packets(ws[k + 1..])
  }

  /** The writes after the last packet. */
  function Unfinished(ws: seq<seq<byte>>): seq<seq<byte>>
    decreases |ws|
  {
    var k := FirstEnd(ws);
    if k == |ws| then ws else Unfinished(ws[k + 1..])
  }

  function LastTen(packets: seq<seq<byte>>): seq<seq<byte>> {
    if |packets| <= CAPACITY then packets else packets[|packets| - CAPACITY..]
  }

  function AfterWrites(a: Abs, ws: seq<seq<byte>>): Abs {
    if ws == [] then a else WriteAbs(AfterWrites(a, ws[..|ws| - 1]), ws[|ws| - 1])
  }

  lemma JoinSnoc(ws: seq<seq<byte>>, w: seq<byte>)
    ensures Join(ws + [w]) == Join(ws) + CStr(w)
  {
    FlatSnoc(CStrs(ws), CStr(w));
    assert CStrs(ws + [w]) == CStrs(ws) + [CStr(w)];
  }

  lemma FirstEndIs(ws: seq<seq<byte>>, k: nat)
    requires k <= |ws|
    requires forall i :: 0 <= i < k ==> !HasNewline(ws[i])
    requires k < |ws| ==> HasNewline(ws[k])
    ensures FirstEnd(ws) == k
  {
  }

  lemma {:induction false} FirstPacket(ws: seq<seq<byte>>, k: nat, packet: seq<seq<byte>>, rest: seq<seq<byte>>)
    requires FirstEnd(ws) == k < |ws|
    requires packet == ws[..k + 1] && rest == ws[k + 1..]
    ensures Packets(ws) == [Join(packet)] + Packets(rest)
    ensures Unfinished(ws) == Unfinished(rest)
  {
    assert Packets(ws) == [Join(ws[..k + 1])] + Packets(ws[k + 1..]);
  }

  lemma {:induction false} FirstPacketStays(ws: seq<seq<byte>>, w: seq<byte>, k: nat)
    requires FirstEnd(ws) == k < |ws|
    ensures Packets(ws + [w]) == [Join(ws[..k + 1])] + Packets(ws[k + 1..] + [w])
    ensures Unfinished(ws + [w]) == Unfinished(ws[k + 1..] + [w])
  {
    FirstEndIs(ws + [w], k);
    FirstPacket(ws + [w], k, ws[..k + 1], ws[k + 1..] + [w]);
  }

  lemma {:induction false} FirstPacketEnds(ws: seq<seq<byte>>, w: seq<byte>)
    requires FirstEnd(ws) == |ws|
    ensures HasNewline(w) ==> Packets(ws + [w]) == [Join(ws) + CStr(w)] && Unfinished(ws + [w]) == []
    ensures !HasNewline(w) ==> Packets(ws + [w]) == [] && Unfinished(ws + [w]) == ws + [w]
  {
    if HasNewline(w) {
      FirstEndIs(ws + [w], |ws|);
      FirstPacket(ws + [w], |ws|, ws + [w], []);
      JoinSnoc(ws, w);
    } else {
      FirstEndIs(ws + [w], |ws| + 1);
    }
  }

  /** One more write extends the unfinished packet, or finishes it. */
  lemma {:induction false} HistorySnoc(ws: seq<seq<byte>>, w: seq<byte>)
    ensures Packets(ws + [w]) ==
            if HasNewline(w) then Packets(ws) + [Join(Unfinished(ws)) + CStr(w)] else Packets(ws)
    ensures Unfinished(ws + [w]) == if HasNewline(w) then [] else Unfinished(ws) + [w]
    decreases |ws|
  {
    var k := FirstEnd(ws);
    if k < |ws| {
      FirstPacket(ws, k, ws[..k + 1], ws[k + 1..]);
      FirstPacketStays(ws, w, k);
      HistorySnoc(ws[k + 1..], w);
    } else {
      FirstPacketEnds(ws, w);
    }
  }

  lemma PushLastTen(packets: seq<seq<byte>>, packet: seq<byte>)
    ensures Push(LastTen(packets), packet) == LastTen(packets + [packet])
  {
  }

  /** The two accounts agree on every history. */
  lemma {:induction false} HistoryIsView(ws: seq<seq<byte>>)
    ensures AfterWrites(FRESH_DEVICE, ws) ==
            Abs(|Packets(ws)|, LastTen(Packets(ws)), Join(Unfinished(ws)), |Unfinished(ws)|)
  {
    if ws != [] {
      var before, w := ws[..|ws| - 1], ws[|ws| - 1];
      HistoryIsView(before);
      assert before + [w] == ws;
      HistorySnoc(before, w);
      assert AfterWrites(FRESH_DEVICE, ws) == WriteAbs(AfterWrites(FRESH_DEVICE, before), w);
      if HasNewline(w) {
        PushLastTen(Packets(before), Join(Unfinished(before)) + CStr(w));
      } else {
        JoinSnoc(Unfinished(before), w);
      }
    }
  }

  /** When every write is a whole packet, the packets are the writes. */
  lemma {:induction false} WholePackets(ws: seq<seq<byte>>)
    requires forall i :: 0 <= i < |ws| ==> HasNewline(ws[i])
    ensures Packets(ws) == CStrs(ws) && Unfinished(ws) == []
  {
    if ws != [] {
      FirstEndIs(ws, 0);
      FirstPacket(ws, 0, ws[..1], ws[1..]);
      WholePackets(ws[1..]);
      assert CStrs(ws[..1]) == [CStr(ws[0])];
      FlatSnoc([], CStr(ws[0]));
      assert [] + [CStr(ws[0])] == [CStr(ws[0])];
      assert Join(ws[..1]) == CStr(ws[0]);
      assert CStrs(ws) == [CStr(ws[0])] + CStrs(ws[1..]);
    }
  }

  // ----- Chunking

  lemma {:induction false} GatherOnly(a: Abs, ws: seq<seq<byte>>)
    requires forall i :: 0 <= i < |ws| ==> !HasNewline(ws[i])
    ensures AfterWrites(a, ws) == a.(tail := a.tail + Join(ws), chunks := a.chunks + |ws|)
  {
    if ws != [] {
      var before, w := ws[..|ws| - 1], ws[|ws| - 1];
      GatherOnly(a, before);
      JoinSnoc(before, w);
      assert before + [w] == ws;
    }
  }

  /** A packet cut into writes of which only the last holds a newline. */
  ghost predicate OnePacket(ws: seq<seq<byte>>) {
    && ws != []
    && HasNewline(ws[|ws| - 1])
    && forall i :: 0 <= i < |ws| - 1 ==> !HasNewline(ws[i])
  }

  lemma OnePacketCommits(a: Abs, ws: seq<seq<byte>>)
    requires OnePacket(ws)
    ensures AfterWrites(a, ws) == Abs(a.commits + 1, Push(a.view, a.tail + Join(ws)), [], 0)
    ensures WriteAdvance(AfterWrites(a, ws[..|ws| - 1]), ws[|ws| - 1]) ==
            |a.tail| + |Join(ws)| + a.chunks + |ws|
  {
    var before, w := ws[..|ws| - 1], ws[|ws| - 1];
    assert AfterWrites(a, before) == a.(tail := a.tail + Join(before), chunks := a.chunks + |before|) by {
      GatherOnly(a, before);
    }
    assert Join(ws) == Join(before) + CStr(w) by {
      JoinSnoc(before, w);
      assert before + [w] == ws;
    }
    assert a.tail + Join(before) + CStr(w) == a.tail + Join(ws);
  }

  lemma JoinOfClean(ws: seq<seq<byte>>)
    requires forall i :: 0 <= i < |ws| ==> NUL !in ws[i]
    ensures Join(ws) == Flat(ws)
  {
    forall i | 0 <= i < |ws| ensures CStrs(ws)[i] == ws[i] {
      CStrOfClean(ws[i]);
    }
    assert CStrs(ws) == ws;
  }

  /** How a packet is cut into writes leaves no trace in the device.  It does show
      in the file position, which the two cuts move by amounts that differ by
      exactly the difference in the number of writes. */
  lemma ChunkingLeavesNoTrace(a: Abs, ws: seq<seq<byte>>, vs: seq<seq<byte>>)
    requires OnePacket(ws) && OnePacket(vs) && Flat(ws) == Flat(vs)
    requires forall i :: 0 <= i < |ws| ==> NUL !in ws[i]
    requires forall i :: 0 <= i < |vs| ==> NUL !in vs[i]
    ensures AfterWrites(a, ws) == AfterWrites(a, vs)
    ensures WriteAdvance(AfterWrites(a, ws[..|ws| - 1]), ws[|ws| - 1]) - |ws| ==
            WriteAdvance(AfterWrites(a, vs[..|vs| - 1]), vs[|vs| - 1]) - |vs|
  {
    OnePacketCommits(a, ws);
    OnePacketCommits(a, vs);
    JoinOfClean(ws);
    JoinOfClean(vs);
  }
}
