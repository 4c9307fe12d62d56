/** The bodies that `aesd_read`, `aesd_write` and `aesd_adjust_file_offset` run while
    they hold the mutex, cut into steps, the lookup's walk of the output position
    included; and the proof that from start to end each does what the call does alone.

    Sizes, which the unlocked length scan looks at, are stored by a step of their own.
    What nobody outside the mutex looks at may share a step: a lookup step reads an
    entry and moves the output position, without the value ten that this has for a
    moment before it wraps; `AtGrow` and `AtSettle` make several stores. */
module CriticalSection {
  import opened Bytes
  import opened Memory
  import opened CircularBuffer
  import opened PacketSpec
  import opened Driver
  import opened Device

  datatype Call =
    | ReadCall
    | WriteCall(data: seq<byte>)
    | SeekCall(cmd: nat, off: nat)

  /** What a call returns, and the bytes a read delivers. */
  datatype Result = Result(retval: int, bytes: seq<byte>)

  /** Where a thread that holds the mutex is, with its local variables. */
  datatype Local =
    | AtLookup(restoreOutOffs: nat, loopCount: nat, totalEndEntry: nat)
    | AtFound(slot: nat, inner: nat)
    | AtMark(data: seq<byte>, env: Env)
    | AtGrow(data: seq<byte>, env: Env)
    | AtAppend(data: seq<byte>, env: Env)
    | AtScratch(data: seq<byte>, env: Env)
    | AtOut(data: seq<byte>)
    | AtPtr(data: seq<byte>, displaced: Ptr)
    | AtSize(data: seq<byte>, displaced: Ptr)
    | AtIn(data: seq<byte>, displaced: Ptr)
    | AtSettle(data: seq<byte>, displaced: Ptr)
    | AtCheck(cmd: nat, off: nat, past: seq<nat>)
    | AtScan(cmd: nat, off: nat, past: seq<nat>, i: nat, totalSize: nat)
    | AtUnlock(result: Result)

  /** The driver as the thread inside sees it, with its file position. */
  datatype Cs = Cs(dev: Dev, fpos: int, pc: Local)

  predicate CsOk(s: Cs) {
    && Shaped(s.dev.ring)
    && match s.pc
       case AtLookup(restore, count, _) => restore < CAPACITY && count < CAPACITY
       case AtFound(slot, _) => slot < CAPACITY
       case AtCheck(cmd, _, _) => cmd < CAPACITY
       case AtScan(cmd, _, _, i, _) => i <= cmd
       case _ => true
  }

  /** One step of the thread inside. */
  function Micro(s: Cs): (s': Cs)
    requires CsOk(s)
    ensures CsOk(s')
  {
    var d := s.dev;
    match s.pc
    case AtLookup(restore, count, begin) =>
      var end := d.ring.entry[d.ring.outOffs].size + begin;
      if SizeT(s.fpos) >= end then
        if count + 1 >= CAPACITY
        then Cs(d.(ring := d.ring.(outOffs := restore)), s.fpos, AtUnlock(Result(0, [])))
        else Cs(d.(ring := d.ring.(outOffs := Next(d.ring.outOffs))), s.fpos, AtLookup(restore, count + 1, end))
      else
        Cs(d.(ring := d.ring.(outOffs := restore)), s.fpos,
           AtFound(d.ring.outOffs, if SizeT(s.fpos) >= begin then SizeT(s.fpos) - begin else 0))
    case AtFound(slot, inner) =>
      var e := d.ring.entry[slot];
      var block := Load(d.heap, e.buffptr);
      var n := if inner <= e.size then e.size - inner else 0;
      Cs(d, s.fpos + n,
         AtUnlock(Result(n, if inner <= |block| then StrNCpy(block[inner..], n) else [])))
    case AtMark(data, env) => Cs(MarkEnd(d, data), s.fpos, AtGrow(data, env))
    case AtGrow(data, env) => Cs(Grow(d, data, env), s.fpos, AtAppend(data, env))
    case AtAppend(data, env) =>
      var d' := Append(d, data);
      Cs(d', s.fpos, if d'.endOfPacket then AtScratch(data, env) else AtUnlock(Result(|data|, [])))
    case AtScratch(data, env) => Cs(Scratch(d, env), s.fpos, AtOut(data))
    case AtOut(data) => Cs(d.(ring := AdvanceOut(d.ring)), s.fpos, AtPtr(data, Displaced(d.ring)))
    case AtPtr(data, out) => Cs(d.(ring := StorePtr(d.ring, d.pending.buffptr)), s.fpos, AtSize(data, out))
    case AtSize(data, out) =>
      Cs(d.(ring := StoreSize(d.ring, StrLen(Load(d.heap, d.pending.buffptr)))), s.fpos, AtIn(data, out))
    case AtIn(data, out) => Cs(d.(ring := AdvanceIn(d.ring)), s.fpos, AtSettle(data, out))
    case AtSettle(data, out) =>
      Cs(Settle(d, out), s.fpos + d.pending.size, AtUnlock(Result(|data|, [])))
    case AtCheck(cmd, off, past) =>
      var e := d.ring.entry[Slot(d.ring, cmd)];
      Cs(d, s.fpos,
         if e.buffptr == NULL || e.size < off then AtUnlock(Result(-EINVAL, []))
         else AtScan(cmd, off, past, 0, 0))
    case AtScan(cmd, off, past, i, total) =>
      if i == cmd then Cs(d, total + off, AtUnlock(Result(0, [])))
      else
        var size := if d.ring.outOffs + i < CAPACITY then d.ring.entry[d.ring.outOffs + i].size
                    else PastSize(past, d.ring.outOffs + i - CAPACITY);
        Cs(d, s.fpos, AtScan(cmd, off, past, i + 1, size + total))
    case AtUnlock(_) => s
  }

  function Rank(pc: Local): nat {
    match pc
    case AtLookup(_, count, _) => if count < CAPACITY then CAPACITY - count + 1 else 0
    case AtFound(_, _) => 1
    case AtMark(_, _) => 9
    case AtGrow(_, _) => 8
    case AtAppend(_, _) => 7
    case AtScratch(_, _) => 6
    case AtOut(_) => 5
    case AtPtr(_, _) => 4
    case AtSize(_, _) => 3
    case AtIn(_, _) => 2
    case AtSettle(_, _) => 1
    case AtCheck(cmd, _, _) => cmd + 2
    case AtScan(cmd, _, _, i, _) => if i <= cmd then cmd - i + 1 else 0
    case AtUnlock(_) => 0
  }

  lemma MicroDescends(s: Cs)
    requires CsOk(s) && !s.pc.AtUnlock?
    ensures Rank(Micro(s).pc) < Rank(s.pc)
  {
  }

  /** Where the thread inside will be when it is ready to unlock. */
  function Finish(s: Cs): (s': Cs)
    requires CsOk(s)
    ensures CsOk(s') && s'.pc.AtUnlock?
    decreases Rank(s.pc)
  {
    if s.pc.AtUnlock? then s
    else
      MicroDescends(s);
      Finish(Micro(s))
  }

  // ----- The calls one at a time

  /** A call carried out alone on the abstract device. */
  function SerialCall(a: Abs, call: Call, past: seq<nat>, fpos: int): (Abs, Result, int) {
    match call
    case ReadCall =>
      var r := ReadAbs(a.view, SizeT(fpos));
      (a, Result(|r|, r), fpos + |r|)
    case WriteCall(data) => (WriteAbs(a, data), Result(|data|, []), fpos + WriteAdvance(a, data))
    case SeekCall(cmd, off) =>
      var (retval, pos) := SeekReply(a, past, cmd, off, fpos);
      (a, Result(retval, []), pos)
  }

  /** The first position of a call that has just been given the mutex. */
  function Start(call: Call, env: Env, past: seq<nat>, d: Dev): Local {
    match call
    case ReadCall => AtLookup(d.ring.outOffs, 0, 0)
    case WriteCall(data) => AtMark(data, env)
    case SeekCall(cmd, off) => AtCheck(cmd, off, past)
  }

  /** What a call may assume when it is given the mutex. */
  predicate MayStart(call: Call, env: Env, d: Dev) {
    match call
    case ReadCall => true
    case WriteCall(data) => |data| >= 1 && EnvOk(d, data, env)
    case SeekCall(cmd, _) => cmd < CAPACITY
  }

  // The lookup, from any point of its walk

  lemma LookupStep(d: Dev, s: Cs, k: nat)
    requires Shaped(d.ring) && k < CAPACITY
    requires Sum(Rotated(d.ring)[..k]) <= SizeT(s.fpos)
    requires s.dev == d.(ring := d.ring.(outOffs := Slot(d.ring, k)))
    requires s.pc == AtLookup(d.ring.outOffs, k, Sum(Rotated(d.ring)[..k]))
    ensures var sizes, pos := Rotated(d.ring), SizeT(s.fpos);
            Micro(s) ==
            if pos < Sum(sizes[..k + 1]) then Cs(d, s.fpos, AtFound(Slot(d.ring, k), pos - Sum(sizes[..k])))
            else if k + 1 == CAPACITY then Cs(d, s.fpos, AtUnlock(Result(0, [])))
            else Cs(d.(ring := d.ring.(outOffs := Slot(d.ring, k + 1))), s.fpos,
                    AtLookup(d.ring.outOffs, k + 1, Sum(sizes[..k + 1])))
  {
    SumSnoc(Rotated(d.ring), k);
  }

  /** The walk ends on the entry that is hit, or gives up after the tenth; either
      way the output position is back where it was. */
  lemma {:induction false} LookupWalks(d: Dev, s: Cs, k: nat) returns (i: nat, inner: nat)
    requires Shaped(d.ring) && k < CAPACITY
    requires Sum(Rotated(d.ring)[..k]) <= SizeT(s.fpos)
    requires s.dev == d.(ring := d.ring.(outOffs := Slot(d.ring, k)))
    requires s.pc == AtLookup(d.ring.outOffs, k, Sum(Rotated(d.ring)[..k]))
    ensures Sum(Rotated(d.ring)) <= SizeT(s.fpos) ==>
              Finish(s) == Cs(d, s.fpos, AtUnlock(Result(0, [])))
    ensures SizeT(s.fpos) < Sum(Rotated(d.ring)) ==>
              && Hit(d.ring, SizeT(s.fpos), i, inner)
              && Finish(s) == Micro(Cs(d, s.fpos, AtFound(Slot(d.ring, i), inner)))
    decreases CAPACITY - k
  {
    var sizes, pos := Rotated(d.ring), SizeT(s.fpos);
    LookupStep(d, s, k);
    SumSnoc(sizes, k);
    SumSplit(sizes, k + 1);
    i, inner := k, 0;
    if pos < Sum(sizes[..k + 1]) {
      inner := pos - Sum(sizes[..k]);
      assert Finish(s) == Finish(Micro(s)) == Finish(Micro(Micro(s)));
    } else if k + 1 == CAPACITY {
      assert sizes[..CAPACITY] == sizes;
      assert Finish(s) == Finish(Micro(s));
    } else {
      i, inner := LookupWalks(d, Micro(s), k + 1);
      assert Finish(s) == Finish(Micro(s));
    }
  }

  lemma HitIsLive(r: Ring, pos: nat, i: nat, inner: nat)
    requires RingInv(r) && Hit(r, pos, i, inner)
    ensures i < Live(r)
  {
    LiveComesFirst(r);
  }

  lemma FoundDelivers(d: Dev, fpos: int, slot: nat, inner: nat)
    requires Shaped(d.ring) && slot < CAPACITY && d.ring.entry[slot].buffptr in d.heap
    requires inner < d.ring.entry[slot].size == StrLen(d.heap[d.ring.entry[slot].buffptr])
    ensures var r := CStr(d.heap[d.ring.entry[slot].buffptr])[inner..];
            Micro(Cs(d, fpos, AtFound(slot, inner))) == Cs(d, fpos + |r|, AtUnlock(Result(|r|, r)))
  {
    CopyOfString(d.heap[d.ring.entry[slot].buffptr], inner);
  }

  lemma FoundFinishes(d: Dev, fpos: int, i: nat, inner: nat)
    requires Owned(d) && Hit(d.ring, SizeT(fpos), i, inner)
    ensures var r := ReadAbs(View(d.ring, d.heap), SizeT(fpos));
            Micro(Cs(d, fpos, AtFound(Slot(d.ring, i), inner))) == Cs(d, fpos + |r|, AtUnlock(Result(|r|, r)))
  {
    HitIsLive(d.ring, SizeT(fpos), i, inner);
    FoundIsRead(d, SizeT(fpos), i, inner);
    FoundDelivers(d, fpos, Slot(d.ring, i), inner);
  }

  /** A read inside the mutex is the read of the packet specification. */
  lemma ReadFinishes(d: Dev, fpos: int)
    requires Owned(d)
    ensures var r := ReadAbs(View(d.ring, d.heap), SizeT(fpos));
            Finish(Cs(d, fpos, AtLookup(d.ring.outOffs, 0, 0))) ==
            Cs(d, fpos + |r|, AtUnlock(Result(|r|, r)))
  {
    var s := Cs(d, fpos, AtLookup(d.ring.outOffs, 0, 0));
    assert Rotated(d.ring)[..0] == [];
    var i, inner := LookupWalks(d, s, 0);
    if SizeT(fpos) < Sum(Rotated(d.ring)) {
      FoundFinishes(d, fpos, i, inner);
    } else {
      LiveComesFirst(d.ring);
      MissedIsEmpty(d, SizeT(fpos));
    }
  }

  // The stores of a write

  lemma {:induction false} StoresFinish(d: Dev, fpos: int, data: seq<byte>, out: Ptr)
    requires Shaped(d.ring)
    ensures var n := StrLen(Load(d.heap, d.pending.buffptr));
            Finish(Cs(d, fpos, AtPtr(data, out))) ==
            Cs(Settle(d.(ring := AdvanceIn(StoreSize(StorePtr(d.ring, d.pending.buffptr), n))), out),
               fpos + d.pending.size, AtUnlock(Result(|data|, [])))
  {
    var s3 := Cs(d, fpos, AtPtr(data, out));
    var s4 := Micro(s3);
    var s5 := Micro(s4);
    var s6 := Micro(s5);
    assert Finish(s6) == Micro(s6);
    assert Finish(s5) == Finish(s6);
    assert Finish(s4) == Finish(s5);
    assert Finish(s3) == Finish(s4);
  }

  lemma CommitFinishes(d: Dev, fpos: int, data: seq<byte>, env: Env)
    requires Shaped(d.ring)
    ensures Finish(Cs(d, fpos, AtScratch(data, env))) ==
            Cs(Committed(d, env), fpos + d.pending.size, AtUnlock(Result(|data|, [])))
  {
    var s0 := Cs(d, fpos, AtScratch(data, env));
    var s1 := Micro(s0);
    var s2 := Micro(s1);
    StoresFinish(s2.dev, fpos, data, Displaced(d.ring));
    assert Finish(s1) == Finish(s2);
    assert Finish(s0) == Finish(s1);
  }

  lemma GatherFinishes(d: Dev, fpos: int, data: seq<byte>, env: Env)
    requires Shaped(d.ring)
    ensures var g := Gathered(d, data, env);
            Finish(Cs(d, fpos, AtMark(data, env))) ==
            if g.endOfPacket then Finish(Cs(g, fpos, AtScratch(data, env)))
            else Cs(g, fpos, AtUnlock(Result(|data|, [])))
  {
    var s0 := Cs(d, fpos, AtMark(data, env));
    var s1 := Micro(s0);
    var s2 := Micro(s1);
    var s3 := Micro(s2);
    assert s3.dev == Gathered(d, data, env);
    assert Finish(s2) == Finish(s3);
    assert Finish(s1) == Finish(s2);
    assert Finish(s0) == Finish(s1);
  }

  /** A write inside the mutex is the write of the packet specification. */
  lemma WriteFinishes(d: Dev, fpos: int, data: seq<byte>, env: Env) returns (w: Dev)
    requires DevInv(d) && EnvOk(d, data, env)
    ensures DevInv(w) && Abstract(w) == WriteAbs(Abstract(d), data)
    ensures Finish(Cs(d, fpos, AtMark(data, env))) ==
            Cs(w, fpos + WriteAdvance(Abstract(d), data), AtUnlock(Result(|data|, [])))
  {
    w := WriteDev(d, data, env);
    GatherFinishes(d, fpos, data, env);
    WriteRefines(d, data, env);
    GatherRefines(d, data, env);
    if HasNewline(data) {
      CommitFinishes(Gathered(d, data, env), fpos, data, env);
    }
  }

  // The prefix loop of a seek

  lemma {:induction false} ScanFinishes(s: Cs)
    requires CsOk(s) && s.pc.AtScan?
    requires s.pc.totalSize == ScanFrom(s.dev.ring, s.pc.past, s.pc.i)
    ensures Finish(s) ==
            Cs(s.dev, ScanFrom(s.dev.ring, s.pc.past, s.pc.cmd) + s.pc.off, AtUnlock(Result(0, [])))
    decreases Rank(s.pc)
  {
    if s.pc.i == s.pc.cmd {
      assert Finish(s) == Micro(s);
    } else {
      ScanFinishes(Micro(s));
      assert Finish(s) == Finish(Micro(s));
    }
  }

  lemma SeekFinishes(d: Dev, fpos: int, cmd: nat, off: nat, past: seq<nat>)
    requires Owned(d) && cmd < CAPACITY
    ensures Finish(Cs(d, fpos, AtCheck(cmd, off, past))) ==
            match SeekAbs(Abstract(d), past, cmd, off)
            case None => Cs(d, fpos, AtUnlock(Result(-EINVAL, [])))
            case Some(pos) => Cs(d, pos, AtUnlock(Result(0, [])))
  {
    var s := Cs(d, fpos, AtCheck(cmd, off, past));
    SeekOutcome(d, past, cmd, off);
    assert Finish(s) == Finish(Micro(s));
    if Micro(s).pc.AtScan? {
      ScanFinishes(Micro(s));
    }
  }

  /** A call ready to unlock has done what it would have done alone. */
  ghost predicate Achieves(f: Cs, a: Abs, call: Call, past: seq<nat>, fpos: int) {
    && DevInv(f.dev)
    && f.pc.AtUnlock?
    && (Abstract(f.dev), f.pc.result, f.fpos) == SerialCall(a, call, past, fpos)
  }

  /** A call in progress is going to do so. */
  ghost predicate OnCourse(s: Cs, a: Abs, call: Call, past: seq<nat>, fpos: int)
    requires CsOk(s)
  {
    Achieves(Finish(s), a, call, past, fpos)
  }

  lemma WriteAchieves(w: Dev, a: Abs, data: seq<byte>, past: seq<nat>, fpos: int)
    requires DevInv(w) && Abstract(w) == WriteAbs(a, data)
    ensures Achieves(Cs(w, fpos + WriteAdvance(a, data), AtUnlock(Result(|data|, []))),
                     a, WriteCall(data), past, fpos)
  {
  }

  lemma ReadAchieves(d: Dev, past: seq<nat>, fpos: int)
    requires DevInv(d)
    ensures var r := ReadAbs(View(d.ring, d.heap), SizeT(fpos));
            Achieves(Cs(d, fpos + |r|, AtUnlock(Result(|r|, r))), Abstract(d), ReadCall, past, fpos)
  {
  }

  lemma ReadStartsOnCourse(d: Dev, fpos: int, past: seq<nat>)
    requires DevInv(d)
    ensures OnCourse(Cs(d, fpos, AtLookup(d.ring.outOffs, 0, 0)), Abstract(d), ReadCall, past, fpos)
  {
    ReadFinishes(d, fpos);
    ReadAchieves(d, past, fpos);
  }

  lemma WriteStartsOnCourse(d: Dev, fpos: int, data: seq<byte>, env: Env, past: seq<nat>)
    requires DevInv(d) && EnvOk(d, data, env)
    ensures OnCourse(Cs(d, fpos, AtMark(data, env)), Abstract(d), WriteCall(data), past, fpos)
  {
    var w := WriteFinishes(d, fpos, data, env);
    WriteAchieves(w, Abstract(d), data, past, fpos);
  }

  lemma SeekStartsOnCourse(d: Dev, fpos: int, cmd: nat, off: nat, past: seq<nat>)
    requires DevInv(d) && cmd < CAPACITY
    ensures OnCourse(Cs(d, fpos, AtCheck(cmd, off, past)), Abstract(d), SeekCall(cmd, off), past, fpos)
  {
    SeekFinishes(d, fpos, cmd, off, past);
  }

  /** Every call that is given the mutex is on course for its serial result. */
  lemma StartsOnCourse(d: Dev, fpos: int, call: Call, env: Env, past: seq<nat>)
    requires DevInv(d) && MayStart(call, env, d)
    ensures CsOk(Cs(d, fpos, Start(call, env, past, d)))
    ensures OnCourse(Cs(d, fpos, Start(call, env, past, d)), Abstract(d), call, past, fpos)
  {
    match call
    case ReadCall => ReadStartsOnCourse(d, fpos, past);
    case WriteCall(data) => WriteStartsOnCourse(d, fpos, data, env, past);
    case SeekCall(cmd, off) => SeekStartsOnCourse(d, fpos, cmd, off, past);
  }

  lemma StaysOnCourse(s: Cs, a: Abs, call: Call, past: seq<nat>, fpos: int)
    requires CsOk(s) && OnCourse(s, a, call, past, fpos)
    ensures OnCourse(Micro(s), a, call, past, fpos)
  {
    assert Finish(s) == Finish(Micro(s));
  }
}
