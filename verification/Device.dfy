/** The character device: the operations of `aesd-char-driver/main.c` as they
    update the device in place, each proved against the packet specification. */
module Device {
  import opened Bytes
  import opened Memory
  import opened CircularBuffer
  import opened PacketSpec
  import opened Driver

  const EFAULT: int := 14
  const ENOMEM: int := 12
  const ERESTARTSYS: int := 512

  /** What can go wrong with a call: the wait for the mutex is interrupted, the call's
      own buffer cannot be had, the copy between kernel and user memory faults, or a
      write gets no block for its packet or no scratch block for the ring. */
  datatype Fault = Fine | Interrupted | NoBuffer | CopyFault | NoBlock | NoScratch

  /** An open file: its position. */
  class File {
    var fpos: int

    constructor ()
      ensures fpos == 0
    {
      fpos := 0;
    }
  }

  /** What a write that has the mutex makes of device `d`, and by how much the file
      moves. */
  ghost predicate WriteOutcome(d: Dev, data: seq<byte>, fault: Fault, retval: int, crashed: bool, env: Env,
                               d': Dev, advance: int)
    requires DevInv(d)
  {
    if fault == NoBuffer || fault == CopyFault then
      !crashed && d' == d && advance == 0 && retval == if fault == NoBuffer then -ENOMEM else -EFAULT
    else if data == [] then
      crashed && d' == d && advance == 0
    else if fault == NoBlock then
      && d' == Refused(d, data) && advance == 0
      && crashed == !d.firstPacket && (!crashed ==> retval == -ENOMEM)
    else
      && !crashed && retval == |data| && advance == WriteAdvance(Abstract(d), data)
      && if fault == NoScratch && HasNewline(data) then
           DevInv(d') && Abstract(d') == Abstract(d).(tail := [], chunks := 0)
         else Wrote(d, data, env, d')
  }

  class Device {
    const buffer: Buffer
    const slab: Slab
    var bufferEntry: Entry
    var readEntry: Option<nat>
    var endOfPacket: bool
    var firstPacket: bool
    var locked: bool
    ghost var commits: nat
    ghost var ledger: Ledger
    ghost var leaked: set<Ptr>

    ghost function Value(): Dev
      reads this, buffer, buffer.entry, slab
    {
      Dev(buffer.Value(), slab.blocks, bufferEntry, endOfPacket, firstPacket, commits, ledger, leaked)
    }

    ghost predicate Valid()
      reads this, buffer, buffer.entry, slab
    {
      buffer.entry.Length == CAPACITY && DevInv(Value())
    }

    ghost function Abs(): Abs
      requires Valid()
      reads this, buffer, buffer.entry, slab
    {
      Abstract(Value())
    }

    /** The device set up by `aesd_init_module` */
    constructor ()
      ensures Valid() && !locked
      ensures fresh(buffer) && fresh(buffer.entry) && fresh(slab)
      ensures Value() == FRESH_DEV && Abs() == FRESH_DEVICE
    {
      buffer := new Buffer();
      slab := new Slab();
      bufferEntry := EMPTY;
      readEntry := None;
      endOfPacket, firstPacket, locked := false, false, false;
      commits, ledger, leaked := 0, EMPTY_LEDGER, {};
      new;
      FreshDevice();
    }

    /** `aesd_write`, the allocation: a cleared block for a new packet, or the pending
        block grown. */
    method Reserve(writeBuffer: seq<byte>, ghost data: seq<byte>) returns (newLength: nat, ghost env: Env)
      requires NULL !in slab.blocks
      requires firstPacket ==> bufferEntry.buffptr in slab.blocks
      requires firstPacket ==> |slab.blocks[bufferEntry.buffptr]| == bufferEntry.size
      requires CStr(writeBuffer) == CStr(data)
      modifies this`bufferEntry, this`ledger, slab
      ensures newLength == NewLength(old(Value()), data)
      ensures BlockOk(old(Value()), data, env)
      ensures Value() == Grow(old(Value()), data, env)
    {
      if !firstPacket {
        newLength := StrLen(writeBuffer) + 1;
        var p := slab.Kmalloc(newLength);
        bufferEntry := bufferEntry.(buffptr := p);
        slab.Clear(p);
        env := Env(p, [], NULL, []);
        ledger := Renumbered(old(Value()), p);
        assert slab.blocks == (old(slab.blocks) - {})[p := Zeros(newLength)];
      } else {
        newLength := bufferEntry.size + StrLen(writeBuffer) + 1;
        var q; ghost var junk;
        q, junk := slab.Krealloc(bufferEntry.buffptr, newLength);
        bufferEntry := bufferEntry.(buffptr := q);
        env := Env(q, junk, NULL, []);
        ledger := Renumbered(old(Value()), q);
      }
    }

    /** `aesd_write`, allocation and append.  That the string fits its block is a
        precondition of `Strcat`. */
    method Gather(writeBuffer: seq<byte>, ghost data: seq<byte>) returns (ghost env: Env)
      requires PendingString(Value()) && NULL !in slab.blocks
      requires CStr(writeBuffer) == CStr(data)
      modifies this`bufferEntry, this`firstPacket, this`ledger, slab
      ensures BlockOk(old(Value()), data, env)
      ensures Value() == Append(Grow(old(Value()), data, env), data)
    {
      ghost var d := Value();
      var newLength;
      newLength, env := Reserve(writeBuffer, data);
      AppendBound(d, data, env);
      SameStringSameCat(slab.blocks[env.block], data, writeBuffer);
      slab.Strcat(bufferEntry.buffptr, writeBuffer);
      bufferEntry := bufferEntry.(size := newLength);
      firstPacket := true;
    }

    /** `aesd_write`, the commit: the entry goes into the ring, the file moves by the
        pending size, and the displaced buffer is released. */
    method Commit(file: File) returns (ghost scratch: Ptr, ghost junk: seq<byte>)
      requires buffer.Valid() && bufferEntry.buffptr != NULL && bufferEntry.buffptr in slab.blocks
      requires Displaced(buffer.Value()) != NULL ==> Displaced(buffer.Value()) in slab.blocks
      modifies this`bufferEntry, this`firstPacket, this`endOfPacket, this`commits, this`ledger, this`leaked,
               buffer, buffer.entry, slab, file
      ensures buffer.Valid()
      ensures scratch != NULL && scratch !in old(slab.blocks)
      ensures Value() == Moved(old(Value()), scratch, junk)
      ensures file.fpos == old(file.fpos) + old(bufferEntry.size)
    {
      var bufferToFree;
      bufferToFree, scratch := buffer.AddEntry(slab, bufferEntry, false);
      junk := slab.blocks[scratch];
      file.fpos := file.fpos + bufferEntry.size;
      if bufferToFree != NULL {
        ledger := Released(ledger, old(slab.blocks), bufferToFree);
        slab.Kfree(bufferToFree);
      }
      firstPacket := false;
      endOfPacket := false;
      commits, leaked := commits + 1, leaked + {scratch};
    }

    /** `aesd_write`, the commit when the ring gets no scratch block: it refuses the
        entry, and the rest goes on as if it had not. */
    method CommitRefused(file: File)
      requires buffer.Valid() && bufferEntry.buffptr != NULL && bufferEntry.buffptr in slab.blocks
      modifies this`bufferEntry, this`firstPacket, this`endOfPacket, this`commits, this`ledger, this`leaked,
               buffer, buffer.entry, slab, file
      ensures buffer.Valid()
      ensures Value() == Lose(old(Value()))
      ensures file.fpos == old(file.fpos) + old(bufferEntry.size)
    {
      ghost var scratch;
      var bufferToFree;
      bufferToFree, scratch := buffer.AddEntry(slab, bufferEntry, true);
      file.fpos := file.fpos + bufferEntry.size;
      firstPacket := false;
      endOfPacket := false;
      leaked := leaked + {bufferEntry.buffptr};
      ledger := ledger.(lost := ledger.lost + 1, packetOf := ledger.packetOf - {bufferEntry.buffptr});
    }

    /** `aesd_write`, search and gathering */
    method Take(writeBuffer: seq<byte>, ghost data: seq<byte>) returns (ghost env: Env)
      requires PendingString(Value()) && NULL !in slab.blocks
      requires CStr(writeBuffer) == CStr(data)
      modifies this`bufferEntry, this`firstPacket, this`endOfPacket, this`ledger, slab
      ensures BlockOk(old(Value()), data, env)
      ensures Value() == Gathered(old(Value()), data, env)
    {
      ghost var d := Value();
      if NEWLINE in CStr(writeBuffer) {
        endOfPacket := true;
      }
      assert Value() == MarkEnd(d, data);
      env := Gather(writeBuffer, data);
    }

    /** `aesd_write` with the mutex held, the chunk copied in and a block to be had. */
    method Store(file: File, writeBuffer: seq<byte>, ghost data: seq<byte>, noScratch: bool) returns (ghost env: Env)
      requires Valid() && CStr(writeBuffer) == CStr(data)
      modifies this`bufferEntry, this`firstPacket, this`endOfPacket, this`commits, this`ledger, this`leaked,
               buffer, buffer.entry, slab, file
      ensures Valid()
      ensures noScratch && HasNewline(data) ==>
                Abstract(Value()) == Abstract(old(Value())).(tail := [], chunks := 0)
      ensures !(noScratch && HasNewline(data)) ==> Wrote(old(Value()), data, env, Value())
      ensures file.fpos == old(file.fpos) + WriteAdvance(Abstract(old(Value())), data)
    {
      ghost var d := Value();
      env := Take(writeBuffer, data);
      GatheredEnds(d, data, env);
      if endOfPacket {
        env := Seal(file, noScratch, d, data, env);
      } else {
        env := GatherOutcome(d, data, env);
      }
    }

    /** `aesd_write`, the commit, seen from the start of the call. */
    method Seal(file: File, noScratch: bool, ghost d: Dev, ghost data: seq<byte>, ghost env: Env)
      returns (ghost env': Env)
      requires DevInv(d) && BlockOk(d, data, env) && HasNewline(data)
      requires buffer.entry.Length == CAPACITY && Value() == Gathered(d, data, env)
      modifies this`bufferEntry, this`firstPacket, this`endOfPacket, this`commits, this`ledger, this`leaked,
               buffer, buffer.entry, slab, file
      ensures Valid()
      ensures noScratch ==> Abstract(Value()) == Abstract(d).(tail := [], chunks := 0)
      ensures !noScratch ==> Wrote(d, data, env', Value())
      ensures file.fpos == old(file.fpos) + WriteAdvance(Abstract(d), data)
    {
      GatherRefines(d, data, env);
      DisplacedIsAllocated(Value());
      env' := env;
      if noScratch {
        CommitRefused(file);
        LoseOutcome(d, data, env);
      } else {
        ghost var scratch, junk;
        scratch, junk := Commit(file);
        env' := CommitOutcome(d, data, env, scratch, junk);
      }
    }

    /** `aesd_write`.  A fault before the chunk is copied leaves device and file as they
        were.  A write of no bytes is searched all the same and brings the thread down
        with the mutex held; so does a new packet that gets no block.  A continued
        packet that gets no block answers -ENOMEM and loses its pointer.  A packet
        that gets no scratch block is dropped without a word.  Otherwise the device
        does what the packet specification says. */
    method Write(file: File, data: seq<byte>, fault: Fault) returns (retval: int, crashed: bool, ghost env: Env)
      requires Valid() && !locked
      modifies this, buffer, buffer.entry, slab, file
      ensures locked == crashed
      ensures Valid() || fault == NoBlock
      ensures fault in {Interrupted, NoBuffer, CopyFault} ==>
                && !crashed && Value() == old(Value()) && file.fpos == old(file.fpos)
                && retval == (match fault case Interrupted => -ERESTARTSYS case NoBuffer => -ENOMEM case _ => -EFAULT)
      ensures fault in {Fine, NoBlock, NoScratch} && data == [] ==>
                crashed && Value() == old(Value()) && file.fpos == old(file.fpos)
      ensures fault == NoBlock && data != [] ==>
                && Value() == Refused(old(Value()), data) && file.fpos == old(file.fpos)
                && crashed == !old(firstPacket) && (!crashed ==> retval == -ENOMEM)
      ensures fault == NoScratch && data != [] && HasNewline(data) ==>
                && !crashed && retval == |data|
                && Abs() == old(Abs()).(tail := [], chunks := 0)
                && file.fpos == old(file.fpos) + WriteAdvance(old(Abs()), data)
      ensures (fault == Fine || (fault == NoScratch && !HasNewline(data))) && data != [] ==>
                && !crashed && retval == |data|
                && Wrote(old(Value()), data, env, Value())
                && Abs() == WriteAbs(old(Abs()), data)
                && file.fpos == old(file.fpos) + WriteAdvance(old(Abs()), data)
    {
      if fault == Interrupted {
        return -ERESTARTSYS, false, Env(NULL, [], NULL, []);
      }
      locked := true;
      retval, crashed, env := WriteLocked(file, data, fault);
      ghost var d := Value();
      locked := crashed;
      assert Value() == d;
    }

    /** `aesd_write` with the mutex held, which is not released if the thread comes down. */
    method WriteLocked(file: File, data: seq<byte>, fault: Fault) returns (retval: int, crashed: bool, ghost env: Env)
      requires Valid() && fault != Interrupted
      modifies this`bufferEntry, this`firstPacket, this`endOfPacket, this`commits, this`ledger, this`leaked,
               buffer, buffer.entry, slab, file
      ensures Valid() || fault == NoBlock
      ensures WriteOutcome(old(Value()), data, fault, retval, crashed, env, Value(), file.fpos - old(file.fpos))
    {
      env, crashed, retval := Env(NULL, [], NULL, []), false, -ENOMEM;
      if fault == CopyFault {
        retval := -EFAULT;
      } else if fault != NoBuffer {
        if data == [] {
          return 0, true, env;
        }
        var writeBuffer := CopyIn(data);
        if fault == NoBlock {
          crashed := Refuse(writeBuffer, data);
        } else {
          env := Store(file, writeBuffer, data, fault == NoScratch);
          retval := |data|;
        }
      }
    }

    /** `aesd_write`, the local buffer: cleared, and the chunk copied to its start. */
    static method CopyIn(data: seq<byte>) returns (writeBuffer: seq<byte>)
      ensures CStr(writeBuffer) == CStr(data) && |writeBuffer| == 8 * |data|
    {
      writeBuffer := Zeros(8 * |data|);
      writeBuffer := data + writeBuffer[|data|..];
      assert writeBuffer == data + Zeros(7 * |data|);
      ZeroPadding(data, 7 * |data|);
    }

    /** `aesd_write` with the mutex held, the chunk copied in and no block to be had: the
        result of a failed `kmalloc` is cleared through, that of `krealloc` is tested. */
    method Refuse(writeBuffer: seq<byte>, ghost data: seq<byte>) returns (crashed: bool)
      requires CStr(writeBuffer) == CStr(data)
      modifies this`endOfPacket, this`bufferEntry
      ensures Value() == Refused(old(Value()), data)
      ensures crashed == !firstPacket
    {
      if NEWLINE in CStr(writeBuffer) {
        endOfPacket := true;
      }
      crashed := !firstPacket;
      bufferEntry := bufferEntry.(buffptr := NULL);
    }

    /** `aesd_read`.  The device is left as it was; what is delivered is the rest of
        the entry the position falls into, with a terminator copied after it,
        whatever `count` says.  The file moves even if the bytes do not arrive. */
    method Read(file: File, count: nat, fault: Fault) returns (retval: int, copied: seq<byte>)
      requires Valid() && !locked
      modifies this`locked, this`readEntry, buffer`outOffs, file
      ensures Valid() && !locked && Value() == old(Value())
      ensures fault == Interrupted ==>
                retval == -ERESTARTSYS && copied == [] && file.fpos == old(file.fpos)
      ensures fault != Interrupted ==>
                var r := ReadAbs(Abs().view, SizeT(old(file.fpos)));
                && file.fpos == old(file.fpos) + |r|
                && (r == [] ==> retval == 0 && copied == [])
                && (r != [] && fault == NoBuffer ==> retval == |r| && copied == [])
                && (r != [] && fault == CopyFault ==> retval == -EFAULT)
                && (r != [] && Undisturbed(fault) ==> retval == |r| && copied == r + [NUL])
                && (Undisturbed(fault) ==> (|copied| <= count <==> r == [] || |r| + 1 <= count))
    {
      if fault == Interrupted {
        return -ERESTARTSYS, [];
      }
      locked := true;
      retval, copied := Fetch(file, fault);
      locked := false;
    }

    /** `aesd_read`, the lookup, in terms of the packets. */
    method Locate(charOffset: nat) returns (found: Option<nat>, rtnByte: nat)
      requires Valid()
      modifies this`readEntry, buffer`outOffs
      ensures Value() == old(Value())
      ensures found.None? ==> ReadAbs(Abstract(Value()).view, charOffset) == []
      ensures found.Some? ==>
                && found.value < CAPACITY
                && var e := buffer.entry[found.value];
                && e.buffptr in slab.blocks
                && rtnByte < e.size == StrLen(slab.blocks[e.buffptr])
                && ReadAbs(Abstract(Value()).view, charOffset) == CStr(slab.blocks[e.buffptr])[rtnByte..]
    {
      ghost var d := Value();
      ghost var i;
      found, rtnByte, i := buffer.FindEntryOffsetForFpos(charOffset, 0);
      readEntry := found;
      assert Value() == d;
      if found.Some? {
        FoundIsRead(d, charOffset, i, rtnByte);
      } else {
        MissedIsEmpty(d, charOffset);
      }
    }

    /** `aesd_read` with the mutex held */
    method Fetch(file: File, fault: Fault) returns (retval: int, copied: seq<byte>)
      requires Valid() && fault != Interrupted
      modifies this`readEntry, buffer`outOffs, file
      ensures Value() == old(Value())
      ensures var r := ReadAbs(Abstract(Value()).view, SizeT(old(file.fpos)));
              file.fpos == old(file.fpos) + |r| && Delivered(r, fault, retval, copied)
    {
      retval, copied := 0, [];
      var found, rtnByte := Locate(SizeT(file.fpos));
      if found.Some? {
        var entry := buffer.entry[found.value];
        file.fpos := file.fpos + entry.size - rtnByte;
        retval := entry.size - rtnByte;
        if fault == CopyFault {
          retval := -EFAULT;
        } else if fault != NoBuffer {
          copied := CopyOut(entry, rtnByte);
        }
      }
    }

    /** `aesd_read`, the way of the bytes: into a cleared buffer of eight bytes for
        each one wanted, and from there to the user with one byte more. */
    method CopyOut(entry: Entry, rtnByte: nat) returns (copied: seq<byte>)
      requires entry.buffptr in slab.blocks && rtnByte < entry.size == StrLen(slab.blocks[entry.buffptr])
      ensures copied == CStr(slab.blocks[entry.buffptr])[rtnByte..] + [NUL]
    {
      var n := entry.size - rtnByte;
      var readBuffer := Zeros(n * 8);
      readBuffer := StrNCpy(slab.blocks[entry.buffptr][rtnByte..], n) + readBuffer[n..];
      CopyOfString(slab.blocks[entry.buffptr], rtnByte);
      copied := readBuffer[..n + 1];
    }

    /** `aesd_seek`: the total is the length of the flat contents, and the position
        becomes whatever the kernel answers, errors included. */
    method Seek(file: File, offset: int, whence: Whence) returns (location: int)
      requires Valid()
      modifies file
      ensures location == FixedSizeLlseek(old(file.fpos), offset, whence, |Flat(Abs().view)|)
      ensures file.fpos == location
    {
      FlatLengthIsTotal(Value());
      var size := buffer.Length();
      location := FixedSizeLlseek(file.fpos, offset, whence, size);
      file.fpos := location;
    }

    /** `aesd_adjust_file_offset`.  The prefix loop indexes from the output position
        without wrapping; `past` is what memory holds beyond the array.  The mutex
        is free at the end even when it was not this call that had taken it. */
    method AdjustFileOffset(file: File, writeCmd: nat, writeCmdOffset: nat, interrupted: bool, past: seq<nat>)
      returns (retval: int)
      requires Valid()
      requires writeCmd < CAPACITY && !interrupted ==> !locked
      modifies this`locked, file
      ensures !locked
      ensures writeCmd < CAPACITY && interrupted ==> retval == -ERESTARTSYS && file.fpos == old(file.fpos)
      ensures !(writeCmd < CAPACITY && interrupted) ==>
                (retval, file.fpos) == SeekReply(old(Abs()), past, writeCmd, writeCmdOffset, old(file.fpos))
    {
      if writeCmd >= CAPACITY {
        retval := -EINVAL;
      } else if interrupted {
        retval := -ERESTARTSYS;
      } else {
        locked := true;
        ghost var d := Value();
        retval := SeekLocked(file, writeCmd, writeCmdOffset, past);
        SeekDecides(d, past, writeCmd, writeCmdOffset, old(file.fpos));
      }
      locked := false;
    }

    /** `aesd_adjust_file_offset` with the mutex held */
    method SeekLocked(file: File, writeCmd: nat, writeCmdOffset: nat, past: seq<nat>) returns (retval: int)
      requires buffer.entry.Length == CAPACITY && Shaped(buffer.Value()) && writeCmd < CAPACITY
      modifies file
      ensures (retval, file.fpos) == SeekInRing(buffer.Value(), past, writeCmd, writeCmdOffset, old(file.fpos))
    {
      var ok := SeekChecks(writeCmd, writeCmdOffset);
      if !ok {
        return -EINVAL;
      }
      file.fpos := SeekPosition(writeCmd, writeCmdOffset, past);
      retval := 0;
    }

    /** `aesd_adjust_file_offset`, the two checks */
    method SeekChecks(writeCmd: nat, writeCmdOffset: nat) returns (ok: bool)
      requires buffer.entry.Length == CAPACITY && Shaped(buffer.Value()) && writeCmd < CAPACITY
      ensures var e := buffer.entry[Slot(buffer.Value(), writeCmd)];
              ok <==> e.buffptr != NULL && e.size >= writeCmdOffset
    {
      SlotIsModulo(buffer.Value(), writeCmd);
      var seekedOutOffs := (buffer.outOffs + writeCmd) % 10;
      if buffer.entry[seekedOutOffs].buffptr == NULL {
        return false;
      }
      if buffer.entry[seekedOutOffs].size < writeCmdOffset {
        return false;
      }
      return true;
    }

    /** `aesd_adjust_file_offset`, the prefix loop */
    method SeekPosition(writeCmd: nat, writeCmdOffset: nat, past: seq<nat>) returns (totalSize: nat)
      requires buffer.entry.Length == CAPACITY && Shaped(buffer.Value()) && writeCmd < CAPACITY
      ensures totalSize == ScanFrom(buffer.Value(), past, writeCmd) + writeCmdOffset
    {
      ghost var r := buffer.Value();
      totalSize := 0;
      var i := 0;
      while i <= CAPACITY
        invariant 0 <= i <= writeCmd
        invariant totalSize == ScanFrom(r, past, i)
        decreases CAPACITY - i
      {
        var currentOutOffs := buffer.outOffs + i;
        if i == writeCmd {
          totalSize := totalSize + writeCmdOffset;
          break;
        }
        var size := if currentOutOffs < CAPACITY then buffer.entry[currentOutOffs].size
                    else PastSize(past, currentOutOffs - CAPACITY);
        totalSize := size + totalSize;
        i := i + 1;
      }
    }
  }

  /** Nothing goes wrong with a read: it asks for no packet block and no scratch block. */
  predicate Undisturbed(fault: Fault) {
    fault == Fine || fault == NoBlock || fault == NoScratch
  }

  /** What a read that was not interrupted hands over of the `r` bytes it found:
      their number and the bytes with a terminator; the number alone when there is
      no buffer to carry them; an error when the copy faults. */
  ghost predicate Delivered(r: seq<byte>, fault: Fault, retval: int, copied: seq<byte>) {
    && (r == [] ==> retval == 0 && copied == [])
    && (r != [] && Undisturbed(fault) ==> retval == |r| && copied == r + [NUL])
    && (r != [] && fault == NoBuffer ==> retval == |r| && copied == [])
    && (r != [] && fault == CopyFault ==> retval == -EFAULT)
  }

  lemma CopyOfString(block: seq<byte>, k: nat)
    requires k <= StrLen(block)
    ensures StrNCpy(block[k..], StrLen(block) - k) == CStr(block)[k..]
  {
    StrLenIs(block[k..], StrLen(block) - k);
  }

  lemma FoundIsRead(d: Dev, pos: nat, i: nat, inner: nat)
    requires Owned(d) && i < Live(d.ring) && Hit(d.ring, pos, i, inner)
    ensures var e := d.ring.entry[Slot(d.ring, i)];
            && e.buffptr in d.heap
            && inner < e.size == StrLen(d.heap[e.buffptr])
            && ReadAbs(View(d.ring, d.heap), pos) == CStr(d.heap[e.buffptr])[inner..]
  {
    HitIsAt(d, pos, i, inner);
    ReadAt(View(d.ring, d.heap), pos, i, inner);
  }

  lemma MissedIsEmpty(d: Dev, pos: nat)
    requires Owned(d) && Sum(EntrySizes(Logical(d.ring))) <= pos
    ensures ReadAbs(View(d.ring, d.heap), pos) == []
  {
    FlatLengthIsTotal(d);
    ReadPastEnd(View(d.ring, d.heap), pos);
  }

  /** The slot check of a seek finds an entry exactly for live commands. */
  lemma PacketSlot(d: Dev, i: nat)
    requires Owned(d) && i < CAPACITY
    ensures d.ring.outOffs == OutOf(d.commits)
    ensures var e := d.ring.entry[Slot(d.ring, i)];
            && (e.buffptr != NULL <==> i < |View(d.ring, d.heap)|)
            && (i < |View(d.ring, d.heap)| ==> e.size == |View(d.ring, d.heap)[i]|)
  {
    OutIsOutOf(d);
    if i < Live(d.ring) {
      SizesAreLengths(d);
      assert EntrySizes(Logical(d.ring))[i] == Lengths(View(d.ring, d.heap))[i];
    }
  }

  lemma {:induction false} ScanFromIsScanBefore(r: Ring, a: Abs, past: seq<nat>, n: nat)
    requires Shaped(r) && n <= |a.view| <= CAPACITY && r.outOffs == OutOf(a.commits)
    requires forall i :: 0 <= i < |a.view| ==> r.entry[Slot(r, i)].size == |a.view[i]|
    ensures ScanFrom(r, past, n) == ScanBefore(a, past, n)
  {
    if n > 0 {
      assert r.entry[Slot(r, n - 1)].size == |a.view[n - 1]|;
      ScanFromIsScanBefore(r, a, past, n - 1);
    }
  }

  /** What a seek that has the mutex returns, and where it puts the file, by slots and
      sizes. */
  function SeekInRing(r: Ring, past: seq<nat>, cmd: nat, off: nat, fpos: int): (int, int)
    requires Shaped(r) && cmd < CAPACITY
  {
    var e := r.entry[Slot(r, cmd)];
    if e.buffptr == NULL || e.size < off then (-EINVAL, fpos) else (0, ScanFrom(r, past, cmd) + off)
  }

  /** Slot `i` as the check of a seek sees it. */
  predicate SlotIs(r: Ring, view: seq<seq<byte>>, i: nat)
    requires Shaped(r) && i < CAPACITY
  {
    var e := r.entry[Slot(r, i)];
    (e.buffptr != NULL <==> i < |view|) && (i < |view| ==> e.size == |view[i]|)
  }

  lemma AllSlots(d: Dev)
    requires Owned(d)
    ensures |View(d.ring, d.heap)| <= CAPACITY && d.ring.outOffs == OutOf(d.commits)
    ensures forall i :: 0 <= i < CAPACITY ==> SlotIs(d.ring, View(d.ring, d.heap), i)
  {
    OutIsOutOf(d);
    forall i | 0 <= i < CAPACITY ensures SlotIs(d.ring, View(d.ring, d.heap), i) {
      PacketSlot(d, i);
    }
  }

  lemma SeekByValues(r: Ring, a: Abs, past: seq<nat>, cmd: nat, off: nat)
    requires Shaped(r) && |a.view| <= CAPACITY && r.outOffs == OutOf(a.commits) && cmd < CAPACITY
    requires forall i :: 0 <= i < CAPACITY ==> SlotIs(r, a.view, i)
    ensures var e := r.entry[Slot(r, cmd)];
            SeekAbs(a, past, cmd, off) ==
            if e.buffptr == NULL || e.size < off then None
            else Some(ScanFrom(r, past, cmd) + off)
  {
    assert SlotIs(r, a.view, cmd);
    if cmd < |a.view| {
      forall i | 0 <= i < |a.view| ensures r.entry[Slot(r, i)].size == |a.view[i]| {
        assert SlotIs(r, a.view, i);
      }
      ScanFromIsScanBefore(r, a, past, cmd);
    }
  }

  /** The checks of a seek against slot and size, and the position it sets, are those
      of the packet specification. */
  lemma SeekOutcome(d: Dev, past: seq<nat>, cmd: nat, off: nat)
    requires Owned(d) && cmd < CAPACITY
    ensures var e := d.ring.entry[Slot(d.ring, cmd)];
            SeekAbs(Abstract(d), past, cmd, off) ==
            if e.buffptr == NULL || e.size < off then None
            else Some(ScanFrom(d.ring, past, cmd) + off)
  {
    AllSlots(d);
    SeekByValues(d.ring, Abstract(d), past, cmd, off);
  }

  lemma SeekDecides(d: Dev, past: seq<nat>, cmd: nat, off: nat, fpos: int)
    requires Owned(d) && cmd < CAPACITY
    ensures SeekInRing(d.ring, past, cmd, off, fpos) == SeekReply(Abstract(d), past, cmd, off, fpos)
  {
    SeekOutcome(d, past, cmd, off);
  }
}
