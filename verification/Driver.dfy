/** The state of the driver as a value, the stores of `aesd_write` one by one, and
    the proof that they keep the ownership discipline and implement the packet
    specification on every run. */
module Driver {
  import opened Bytes
  import opened Memory
  import opened CircularBuffer
  import opened PacketSpec

  /** History of the entry buffers: the number of the packet each block was allocated
      for, the numbers of the blocks released by `kfree`, in order, how often `kfree`
      was given a pointer to no block, and how many packets found no scratch block. */
  datatype Ledger = Ledger(packetOf: map<Ptr, nat>, freed: seq<nat>, strayFrees: nat, lost: nat)

  const EMPTY_LEDGER: Ledger := Ledger(map[], [], 0, 0)

  function NumberOf(l: Ledger, p: Ptr): nat {
    if p in l.packetOf then l.packetOf[p] else 0
  }

  /** `struct aesd_dev` with the kernel heap it points into.  `commits`, `ledger` and
      `leaked` only record history: packets finished, what became of the entry
      buffers, and the blocks that nobody will release. */
  datatype Dev = Dev(
    ring: Ring,
    heap: Heap,
    pending: Entry,
    endOfPacket: bool,
    firstPacket: bool,
    commits: nat,
    ledger: Ledger,
    leaked: set<Ptr>)

  const FRESH_DEV: Dev := Dev(EMPTY_RING, map[], EMPTY, false, false, 0, EMPTY_LEDGER, {})

  /** What the allocator hands out to one call: the address and new bytes of the
      pending block, and the scratch block. */
  datatype Env = Env(block: Ptr, junk: seq<byte>, scratch: Ptr, scratchJunk: seq<byte>)

  // ----- Invariants

  /** The pointers held by some entries. */
  function PtrsOf(es: seq<Entry>): set<Ptr> {
    if es == [] then {}
    else PtrsOf(es[..|es| - 1]) + (if es[|es| - 1].buffptr == NULL then {} else {es[|es| - 1].buffptr})
  }

  lemma {:induction false} PtrsOfHas(es: seq<Entry>, k: nat)
    requires k < |es| && es[k].buffptr != NULL
    ensures es[k].buffptr in PtrsOf(es)
  {
    if k < |es| - 1 {
      PtrsOfHas(es[..|es| - 1], k);
    }
  }

  lemma {:induction false} PtrsOfFinds(es: seq<Entry>, p: Ptr) returns (k: nat)
    requires p in PtrsOf(es)
    ensures k < |es| && es[k].buffptr == p != NULL
  {
    if es[|es| - 1].buffptr == p && p != NULL {
      k := |es| - 1;
    } else {
      k := PtrsOfFinds(es[..|es| - 1], p);
    }
  }

  function PendingPtrs(d: Dev): set<Ptr> {
    if d.firstPacket then {d.pending.buffptr} else {}
  }

  /** A block that holds a string and is in use by nobody else. */
  predicate HoldsString(heap: Heap, leaked: set<Ptr>, p: Ptr) {
    p in heap && p !in leaked && Terminated(heap[p])
  }

  predicate Apart(r: Ring, j: nat, k: nat)
    requires Shaped(r) && j < CAPACITY && k < CAPACITY
  {
    r.entry[j].buffptr != r.entry[k].buffptr
  }

  ghost predicate Distinct(r: Ring)
    requires Shaped(r)
  {
    forall j, k :: 0 <= j < k < CAPACITY && r.entry[k].buffptr != NULL ==> Apart(r, j, k)
  }

  predicate SlotHolds(d: Dev, k: nat)
    requires Shaped(d.ring) && k < CAPACITY
  {
    d.ring.entry[k].buffptr != NULL ==>
      && HoldsString(d.heap, d.leaked, d.ring.entry[k].buffptr)
      && d.ring.entry[k].size == StrLen(d.heap[d.ring.entry[k].buffptr])
  }

  ghost predicate SlotsHold(d: Dev)
    requires Shaped(d.ring)
  {
    forall k :: 0 <= k < CAPACITY ==> SlotHolds(d, k)
  }

  /** The pending block holds a string and is as long as recorded. */
  predicate PendingString(d: Dev) {
    d.firstPacket ==>
      && d.pending.buffptr in d.heap
      && Terminated(d.heap[d.pending.buffptr])
      && |d.heap[d.pending.buffptr]| == d.pending.size
  }

  ghost predicate PendingHolds(d: Dev)
    requires Shaped(d.ring)
  {
    d.firstPacket ==>
      && HoldsString(d.heap, d.leaked, d.pending.buffptr)
      && d.pending.buffptr !in PtrsOf(d.ring.entry)
      && |d.heap[d.pending.buffptr]| == d.pending.size
  }

  /** A block has an owner: the scratch leak, the pending packet or a slot. */
  predicate Accounted(d: Dev, p: Ptr) {
    p in d.leaked || p in PendingPtrs(d) || p in PtrsOf(d.ring.entry)
  }

  ghost predicate HeapSplit(d: Dev) {
    && NULL !in d.heap
    && d.leaked <= d.heap.Keys
    && forall p {:trigger Accounted(d, p)} :: p in d.heap ==> Accounted(d, p)
  }

  ghost predicate Counted(d: Dev)
    requires Shaped(d.ring)
  {
    && d.ring.inOffs == InOf(d.commits)
    && (Full(d.ring) <==> d.commits >= CAPACITY)
    && |d.leaked| == d.commits + d.ledger.lost
  }

  /** 0, 1, ..., n - 1 */
  function Iota(n: nat): seq<nat> {
    if n == 0 then [] else Iota(n - 1) + [n - 1]
  }

  predicate LiveNumber(d: Dev, i: nat)
    requires Shaped(d.ring) && i < Live(d.ring)
  {
    var p := Logical(d.ring)[i].buffptr;
    p in d.ledger.packetOf && d.ledger.packetOf[p] == d.commits - Live(d.ring) + i
  }

  /** Slot by slot the live blocks are those of the last packets, the pending block is
      that of the next one, and the blocks released are those of all packets before
      the live ones, each once and in order. */
  ghost predicate Numbered(d: Dev)
    requires Shaped(d.ring)
  {
    && Live(d.ring) <= d.commits
    && d.ledger.strayFrees == 0
    && d.ledger.freed == Iota(d.commits - Live(d.ring))
    && (d.firstPacket ==> d.pending.buffptr in d.ledger.packetOf && d.ledger.packetOf[d.pending.buffptr] == d.commits)
    && forall i :: 0 <= i < Live(d.ring) ==> LiveNumber(d, i)
  }

  /** Who owns which block: live slots, the pending packet and the scratch leak
      split the heap between them, with nothing shared, lost or dangling. */
  ghost predicate Owned(d: Dev) {
    match d
    case Dev(ring, _, _, _, _, _, _, _) =>
      && RingInv(ring)
      && Distinct(ring)
      && SlotsHold(d)
      && PendingHolds(d)
      && HeapSplit(d)
      && Counted(d)
      && Numbered(d)
  }

  function View(r: Ring, heap: Heap): (v: seq<seq<byte>>)
    requires Shaped(r)
    ensures |v| == Live(r)
    ensures forall i :: 0 <= i < Live(r) ==> v[i] == CStr(Load(heap, Logical(r)[i].buffptr))
  {
    seq(Live(r), i requires 0 <= i < Live(r) => CStr(Load(heap, Logical(r)[i].buffptr)))
  }

  function TailOf(d: Dev): seq<byte> {
    if d.firstPacket then CStr(Load(d.heap, d.pending.buffptr)) else []
  }

  /** The pending size exceeds the pending string by one for every chunk. */
  function ChunksOf(d: Dev): nat {
    if d.firstPacket && |TailOf(d)| <= d.pending.size then d.pending.size - |TailOf(d)| else 0
  }

  function Abstract(d: Dev): Abs
    requires Shaped(d.ring)
  {
    Abs(d.commits, View(d.ring, d.heap), TailOf(d), ChunksOf(d))
  }

  /** What holds between calls. */
  ghost predicate DevInv(d: Dev) {
    match d
    case Dev(_, _, _, endOfPacket, _, _, _, _) =>
      Owned(d) && !endOfPacket && AbsInv(Abstract(d))
  }

  // ----- The stores of `aesd_write`

  function MarkEnd(d: Dev, data: seq<byte>): Dev {
    if HasNewline(data) then d.(endOfPacket := true) else d
  }

  function NewLength(d: Dev, data: seq<byte>): nat {
    (if d.firstPacket then d.pending.size else 0) + StrLen(data) + 1
  }

  /** A cleared block for a new packet; the old block, grown, for a continued one. */
  function Grow(d: Dev, data: seq<byte>, env: Env): Dev {
    var block := if d.firstPacket then Load(d.heap, d.pending.buffptr) + env.junk
                 else Zeros(NewLength(d, data));
    d.(pending := d.pending.(buffptr := env.block),
       heap := (d.heap - PendingPtrs(d))[env.block := block],
       ledger := Renumbered(d, env.block))
  }

  /** A grown block keeps its packet's number, a new one gets the next. */
  function Renumbered(d: Dev, p: Ptr): Ledger {
    var n := if d.firstPacket then NumberOf(d.ledger, d.pending.buffptr) else d.commits;
    d.ledger.(packetOf := (d.ledger.packetOf - PendingPtrs(d))[p := n])
  }

  function Append(d: Dev, data: seq<byte>): Dev {
    var block := Load(d.heap, d.pending.buffptr);
    if Terminated(block) && StrLen(block) + StrLen(data) + 1 <= |block| then
      d.(heap := d.heap[d.pending.buffptr := StrCat(block, data)],
         pending := d.pending.(size := NewLength(d, data)),
         firstPacket := true)
    else d
  }

  function Gathered(d: Dev, data: seq<byte>, env: Env): (d': Dev)
    ensures d'.ring == d.ring
  {
    Append(Grow(MarkEnd(d, data), data, env), data)
  }

  function Scratch(d: Dev, env: Env): Dev {
    d.(heap := d.heap[env.scratch := env.scratchJunk], leaked := d.leaked + {env.scratch})
  }

  function Enter(d: Dev): (d': Dev)
    requires Shaped(d.ring)
    ensures Shaped(d'.ring)
  {
    d.(ring := Pushed(d.ring, d.pending.buffptr, StrLen(Load(d.heap, d.pending.buffptr))))
  }

  /** `kfree(p)` as the ledger sees it. */
  function Released(l: Ledger, heap: Heap, p: Ptr): Ledger {
    if p in heap then l.(packetOf := l.packetOf - {p}, freed := l.freed + [NumberOf(l, p)])
    else l.(strayFrees := l.strayFrees + 1)
  }

  /** The displaced buffer is released and the flags are reset. */
  function Settle(d: Dev, displaced: Ptr): Dev {
    var d' := d.(firstPacket := false, endOfPacket := false, commits := d.commits + 1);
    if displaced == NULL then d'
    else d'.(heap := d.heap - {displaced}, ledger := Released(d.ledger, d.heap, displaced))
  }

  function Committed(d: Dev, env: Env): (d': Dev)
    requires Shaped(d.ring)
    ensures Shaped(d'.ring)
  {
    Settle(Enter(Scratch(d, env)), Displaced(d.ring))
  }

  function WriteDev(d: Dev, data: seq<byte>, env: Env): (d': Dev)
    requires Shaped(d.ring)
    ensures Shaped(d'.ring)
  {
    var g := Gathered(d, data, env);
    if g.endOfPacket then Committed(g, env) else g
  }

  /** The allocator succeeds, hands out addresses that are not in use (a grown
      block may stay where it is), and as many new bytes as were asked for. */
  predicate BlockOk(d: Dev, data: seq<byte>, env: Env) {
    && env.block != NULL
    && (env.block !in d.heap || env.block in PendingPtrs(d))
    && (d.firstPacket ==> |env.junk| == StrLen(data) + 1)
  }

  predicate EnvOk(d: Dev, data: seq<byte>, env: Env) {
    && BlockOk(d, data, env)
    && env.scratch != NULL
    && env.scratch !in Gathered(d, data, env).heap
  }

  // ----- Gathering a chunk

  /** The append bound: the block has room for the string so far, the new chunk and
      the terminator, and its capacity is the size about to be recorded. */
  lemma AppendBound(d: Dev, data: seq<byte>, env: Env)
    requires PendingString(d)
    requires d.firstPacket ==> |env.junk| == StrLen(data) + 1
    ensures var block := Load(Grow(d, data, env).heap, env.block);
            && Terminated(block)
            && CStr(block) == TailOf(d)
            && StrLen(block) + StrLen(data) + 1 <= |block| == NewLength(d, data)
  {
    var block := Load(Grow(d, data, env).heap, env.block);
    if d.firstPacket {
      CStrAppend(d.heap[d.pending.buffptr], env.junk);
    } else {
      StrLenIs(block, 0);
    }
  }

  /** The pending block replaced by block `p` with the given contents. */
  function Held(d: Dev, p: Ptr, contents: seq<byte>): Dev {
    d.(pending := Entry(p, |contents|),
       firstPacket := true,
       heap := (d.heap - PendingPtrs(d))[p := contents],
       ledger := Renumbered(d, p))
  }

  lemma AppendIsHeld(d: Dev, data: seq<byte>, env: Env) returns (contents: seq<byte>)
    requires PendingString(d)
    requires d.firstPacket ==> |env.junk| == StrLen(data) + 1
    ensures Append(Grow(d, data, env), data) == Held(d, env.block, contents)
    ensures Terminated(contents) && CStr(contents) == TailOf(d) + CStr(data)
    ensures |contents| == NewLength(d, data)
  {
    AppendBound(d, data, env);
    var grown := Grow(d, data, env);
    contents := StrCat(grown.heap[env.block], data);
    assert grown.heap[env.block := contents] == (d.heap - PendingPtrs(d))[env.block := contents];
  }

  lemma HeldFrame(d: Dev, p: Ptr, contents: seq<byte>, k: nat)
    requires Owned(d) && (p !in d.heap || p in PendingPtrs(d))
    requires k < CAPACITY && d.ring.entry[k].buffptr != NULL
    ensures var h, q := Held(d, p, contents), d.ring.entry[k].buffptr;
            p != q && q in h.heap && h.heap[q] == d.heap[q] && SlotHolds(h, k)
  {
    assert SlotHolds(d, k);
    PtrsOfHas(d.ring.entry, k);
  }

  lemma HeldSplitsHeap(d: Dev, p: Ptr, contents: seq<byte>)
    requires Shaped(d.ring) && HeapSplit(d) && PendingHolds(d)
    requires p != NULL && (p !in d.heap || p in PendingPtrs(d))
    ensures HeapSplit(Held(d, p, contents))
  {
    var h := Held(d, p, contents);
    forall q | q in h.heap ensures Accounted(h, q) {
      if q != p {
        assert Accounted(d, q);
      }
    }
  }

  lemma HeldKeepsNumbers(d: Dev, p: Ptr, contents: seq<byte>)
    requires Owned(d) && (p !in d.heap || p in PendingPtrs(d))
    ensures Numbered(Held(d, p, contents))
  {
    var h := Held(d, p, contents);
    forall i | 0 <= i < Live(d.ring) ensures LiveNumber(h, i) {
      assert LiveNumber(d, i);
      HeldFrame(d, p, contents, Slot(d.ring, i));
      PtrsOfHas(d.ring.entry, Slot(d.ring, i));
    }
  }

  lemma HeldKeepsOwned(d: Dev, p: Ptr, contents: seq<byte>)
    requires Owned(d) && p != NULL && (p !in d.heap || p in PendingPtrs(d))
    requires Terminated(contents)
    ensures Owned(Held(d, p, contents))
  {
    var h := Held(d, p, contents);
    forall k | 0 <= k < CAPACITY ensures SlotHolds(h, k) {
      if d.ring.entry[k].buffptr != NULL {
        HeldFrame(d, p, contents, k);
      }
    }
    if p in PtrsOf(d.ring.entry) {
      var k := PtrsOfFinds(d.ring.entry, p);
      HeldFrame(d, p, contents, k);
    }
    HeldSplitsHeap(d, p, contents);
    HeldKeepsNumbers(d, p, contents);
  }

  lemma HeldKeepsView(d: Dev, p: Ptr, contents: seq<byte>)
    requires Owned(d) && (p !in d.heap || p in PendingPtrs(d))
    ensures View(d.ring, Held(d, p, contents).heap) == View(d.ring, d.heap)
  {
    var h := Held(d, p, contents);
    forall i | 0 <= i < Live(d.ring)
      ensures View(d.ring, h.heap)[i] == View(d.ring, d.heap)[i]
    {
      HeldFrame(d, p, contents, Slot(d.ring, i));
    }
  }

  lemma HeldRefines(d: Dev, p: Ptr, contents: seq<byte>)
    requires Owned(d) && p != NULL && (p !in d.heap || p in PendingPtrs(d))
    requires Terminated(contents)
    ensures Owned(Held(d, p, contents))
    ensures Abstract(Held(d, p, contents)) ==
            Abstract(d).(tail := CStr(contents), chunks := |contents| - StrLen(contents))
  {
    HeldKeepsOwned(d, p, contents);
    HeldKeepsView(d, p, contents);
  }

  lemma MarkKeepsOwned(d: Dev, data: seq<byte>)
    requires Owned(d)
    ensures Owned(MarkEnd(d, data))
    ensures Abstract(MarkEnd(d, data)) == Abstract(d)
  {
    var m := MarkEnd(d, data);
    forall k | 0 <= k < CAPACITY ensures SlotHolds(m, k) {
      assert SlotHolds(d, k);
    }
    forall p | p in m.heap ensures Accounted(m, p) {
      assert Accounted(d, p);
    }
    forall i | 0 <= i < Live(m.ring) ensures LiveNumber(m, i) {
      assert LiveNumber(d, i);
    }
  }

  lemma ChunkCount(d: Dev, data: seq<byte>)
    requires PendingString(d)
    ensures NewLength(d, data) == |TailOf(d)| + StrLen(data) + ChunksOf(d) + 1
  {
  }

  lemma AppendRefines(d: Dev, data: seq<byte>, env: Env)
    requires Owned(d) && BlockOk(d, data, env)
    ensures var g := Append(Grow(d, data, env), data);
            && Owned(g)
            && Abstract(g) == Abstract(d).(tail := TailOf(d) + CStr(data), chunks := ChunksOf(d) + 1)
            && g.firstPacket
            && g.endOfPacket == d.endOfPacket
            && g.pending.size == NewLength(d, data)
  {
    var contents := AppendIsHeld(d, data, env);
    HeldRefines(d, env.block, contents);
    ChunkCount(d, data);
  }

  /** Gathering keeps the ownership discipline and adds the chunk to the tail. */
  lemma GatherRefines(d: Dev, data: seq<byte>, env: Env)
    requires Owned(d) && !d.endOfPacket && BlockOk(d, data, env)
    ensures var g := Gathered(d, data, env);
            && Owned(g)
            && Abstract(g) == Abstract(d).(tail := TailOf(d) + CStr(data), chunks := ChunksOf(d) + 1)
            && g.firstPacket
            && g.endOfPacket == HasNewline(data)
            && g.pending.size == NewLength(d, data)
  {
    MarkKeepsOwned(d, data);
    AppendRefines(MarkEnd(d, data), data, env);
  }

  lemma GatheredEnds(d: Dev, data: seq<byte>, env: Env)
    requires !d.endOfPacket
    ensures Gathered(d, data, env).endOfPacket == HasNewline(data)
  {
  }

  // ----- Committing a packet

  /** The pending block entered into the ring, block `s` leaked, `out` released. */
  function Moved(d: Dev, s: Ptr, junk: seq<byte>): Dev
    requires Shaped(d.ring)
  {
    var out := Displaced(d.ring);
    Dev(Pushed(d.ring, d.pending.buffptr, StrLen(Load(d.heap, d.pending.buffptr))),
        if out != NULL then d.heap[s := junk] - {out} else d.heap[s := junk],
        d.pending, false, false,
        d.commits + 1,
        if out != NULL then Released(d.ledger, d.heap, out) else d.ledger,
        d.leaked + {s})
  }

  lemma CommitIsMoved(d: Dev, env: Env)
    requires Owned(d) && d.firstPacket && env.scratch !in d.heap
    ensures Committed(d, env) == Moved(d, env.scratch, env.scratchJunk)
  {
    DisplacedIsAllocated(d);
  }

  /** A slot other than the one written keeps its block. */
  lemma MovedFrame(d: Dev, s: Ptr, junk: seq<byte>, k: nat)
    requires Owned(d) && s !in d.heap
    requires k < CAPACITY && k != d.ring.inOffs && d.ring.entry[k].buffptr != NULL
    ensures var m, q := Moved(d, s, junk), d.ring.entry[k].buffptr;
            && q != Displaced(d.ring) && q in d.heap && q in m.heap
            && m.heap[q] == d.heap[q] && HoldsString(m.heap, m.leaked, q)
            && d.ring.entry[k].size == StrLen(d.heap[q])
  {
    assert SlotHolds(d, k);
    if k < d.ring.inOffs {
      assert Displaced(d.ring) != NULL ==> Apart(d.ring, k, d.ring.inOffs);
    } else {
      assert Apart(d.ring, d.ring.inOffs, k);
    }
  }

  lemma MovedPending(d: Dev, s: Ptr, junk: seq<byte>)
    requires Owned(d) && d.firstPacket && s !in d.heap
    ensures var m, p := Moved(d, s, junk), d.pending.buffptr;
            && p != NULL && p != Displaced(d.ring) && p in m.heap
            && m.heap[p] == d.heap[p] && HoldsString(m.heap, m.leaked, p)
  {
    if Displaced(d.ring) != NULL {
      PtrsOfHas(d.ring.entry, d.ring.inOffs);
    }
  }

  lemma MovedKeepsSlots(d: Dev, s: Ptr, junk: seq<byte>)
    requires Owned(d) && d.firstPacket && s !in d.heap
    ensures SlotsHold(Moved(d, s, junk))
  {
    var m, p := Moved(d, s, junk), d.pending.buffptr;
    PushedIsQueue(d.ring, p, StrLen(d.heap[p]));
    MovedPending(d, s, junk);
    forall k | 0 <= k < CAPACITY ensures SlotHolds(m, k) {
      if k != d.ring.inOffs && m.ring.entry[k].buffptr != NULL {
        MovedFrame(d, s, junk, k);
      }
    }
  }

  lemma PushedKeepsDistinct(r: Ring, p: Ptr, n: nat)
    requires RingInv(r) && Distinct(r) && p != NULL && p !in PtrsOf(r.entry)
    ensures Distinct(Pushed(r, p, n))
  {
    PushedIsQueue(r, p, n);
    var r' := Pushed(r, p, n);
    forall j, k | 0 <= j < k < CAPACITY && r'.entry[k].buffptr != NULL ensures Apart(r', j, k) {
      if k == r.inOffs {
        if r.entry[j].buffptr != NULL {
          PtrsOfHas(r.entry, j);
        }
      } else {
        PtrsOfHas(r.entry, k);
        assert Apart(r, j, k);
      }
    }
  }

  lemma MovedSplitsHeap(d: Dev, s: Ptr, junk: seq<byte>)
    requires Owned(d) && d.firstPacket && s !in d.heap && s != NULL
    ensures HeapSplit(Moved(d, s, junk))
  {
    var m, p := Moved(d, s, junk), d.pending.buffptr;
    PushedIsQueue(d.ring, p, StrLen(d.heap[p]));
    forall q | q in m.heap ensures Accounted(m, q) {
      if q == p {
        PtrsOfHas(m.ring.entry, d.ring.inOffs);
      } else if q != s && q !in d.leaked {
        assert Accounted(d, q);
        var k := PtrsOfFinds(d.ring.entry, q);
        PtrsOfHas(m.ring.entry, k);
      }
    }
    if Displaced(d.ring) != NULL {
      assert SlotHolds(d, d.ring.inOffs);
    }
  }

  lemma MovedCounts(d: Dev, s: Ptr, junk: seq<byte>)
    requires RingInv(d.ring) && Counted(d) && d.pending.buffptr != NULL && s !in d.leaked
    ensures Counted(Moved(d, s, junk))
  {
    PushedIsQueue(d.ring, d.pending.buffptr, StrLen(Load(d.heap, d.pending.buffptr)));
    InOfIsModulo(d.commits);
  }

  /** The release takes exactly the number of the oldest live packet. */
  lemma MovedReleases(d: Dev)
    requires Owned(d) && Displaced(d.ring) != NULL
    ensures Displaced(d.ring) == Logical(d.ring)[0].buffptr && Displaced(d.ring) in d.heap
    ensures d.commits >= CAPACITY
    ensures NumberOf(d.ledger, Displaced(d.ring)) == d.commits - CAPACITY
  {
    assert LiveNumber(d, 0);
    DisplacedIsAllocated(d);
    PushedIsQueue(d.ring, 1, 0);
  }

  lemma MovedKeepsNumber(d: Dev, s: Ptr, junk: seq<byte>, i: nat)
    requires Owned(d) && d.firstPacket && s !in d.heap && i < Live(Moved(d, s, junk).ring)
    ensures LiveNumber(Moved(d, s, junk), i)
  {
    var m, p := Moved(d, s, junk), d.pending.buffptr;
    PushedIsQueue(d.ring, p, StrLen(d.heap[p]));
    OutIsOutOf(d);
    if i < Live(m.ring) - 1 {
      var j := if Full(d.ring) then i + 1 else i;
      assert Logical(m.ring)[i] == Logical(d.ring)[j];
      assert LiveNumber(d, j);
      MovedFrame(d, s, junk, Slot(d.ring, j));
    } else {
      MovedPending(d, s, junk);
    }
  }

  lemma MovedKeepsNumbers(d: Dev, s: Ptr, junk: seq<byte>)
    requires Owned(d) && d.firstPacket && s !in d.heap
    ensures Numbered(Moved(d, s, junk))
  {
    var m, p := Moved(d, s, junk), d.pending.buffptr;
    PushedIsQueue(d.ring, p, StrLen(d.heap[p]));
    OutIsOutOf(d);
    if Displaced(d.ring) != NULL {
      MovedReleases(d);
    }
    forall i | 0 <= i < Live(m.ring) ensures LiveNumber(m, i) {
      MovedKeepsNumber(d, s, junk, i);
    }
  }

  lemma MovedKeepsOwned(d: Dev, s: Ptr, junk: seq<byte>)
    requires Owned(d) && d.firstPacket && s !in d.heap && s != NULL
    ensures Owned(Moved(d, s, junk))
  {
    MovedKeepsNumbers(d, s, junk);
    PushedIsQueue(d.ring, d.pending.buffptr, StrLen(d.heap[d.pending.buffptr]));
    PushedKeepsDistinct(d.ring, d.pending.buffptr, StrLen(d.heap[d.pending.buffptr]));
    MovedKeepsSlots(d, s, junk);
    MovedSplitsHeap(d, s, junk);
    MovedCounts(d, s, junk);
  }

  lemma MovedViewAt(d: Dev, s: Ptr, junk: seq<byte>, i: nat)
    requires Owned(d) && d.firstPacket && s !in d.heap
    requires i < |View(Moved(d, s, junk).ring, Moved(d, s, junk).heap)|
    requires |View(Moved(d, s, junk).ring, Moved(d, s, junk).heap)| == |Push(View(d.ring, d.heap), TailOf(d))|
    ensures View(Moved(d, s, junk).ring, Moved(d, s, junk).heap)[i] == Push(View(d.ring, d.heap), TailOf(d))[i]
  {
    var m, p := Moved(d, s, junk), d.pending.buffptr;
    PushedIsQueue(d.ring, p, StrLen(d.heap[p]));
    if i < Live(m.ring) - 1 {
      var j := if Full(d.ring) then i + 1 else i;
      assert Logical(m.ring)[i] == Logical(d.ring)[j];
      MovedFrame(d, s, junk, Slot(d.ring, j));
    } else {
      MovedPending(d, s, junk);
    }
  }

  lemma MovedView(d: Dev, s: Ptr, junk: seq<byte>)
    requires Owned(d) && d.firstPacket && s !in d.heap
    ensures var m := Moved(d, s, junk);
            View(m.ring, m.heap) == Push(View(d.ring, d.heap), TailOf(d))
  {
    var m := Moved(d, s, junk);
    PushedIsQueue(d.ring, d.pending.buffptr, StrLen(d.heap[d.pending.buffptr]));
    var before, after := View(d.ring, d.heap), View(m.ring, m.heap);
    forall i | 0 <= i < |after| ensures after[i] == Push(before, TailOf(d))[i] {
      MovedViewAt(d, s, junk, i);
    }
  }

  /** A commit keeps the ownership discipline and appends the gathered packet to the
      view, dropping the oldest packet exactly when ten were live. */
  lemma CommitRefines(d: Dev, env: Env)
    requires Owned(d) && d.firstPacket && env.scratch != NULL && env.scratch !in d.heap
    ensures Owned(Committed(d, env)) && !Committed(d, env).endOfPacket
    ensures Abstract(Committed(d, env)) ==
            Abs(d.commits + 1, Push(View(d.ring, d.heap), TailOf(d)), [], 0)
  {
    CommitIsMoved(d, env);
    MovedKeepsOwned(d, env.scratch, env.scratchJunk);
    MovedView(d, env.scratch, env.scratchJunk);
  }

  // ----- When memory runs out

  /** No scratch block: the packet is dropped and its block is nobody's. */
  function Lose(d: Dev): Dev {
    d.(firstPacket := false, endOfPacket := false, leaked := d.leaked + {d.pending.buffptr},
       ledger := d.ledger.(lost := d.ledger.lost + 1, packetOf := d.ledger.packetOf - {d.pending.buffptr}))
  }

  /** A dropped packet leaves a device in order, with the packets it had. */
  lemma LoseRefines(d: Dev)
    requires Owned(d) && d.firstPacket
    ensures Owned(Lose(d)) && !Lose(d).endOfPacket
    ensures Abstract(Lose(d)) == Abstract(d).(tail := [], chunks := 0)
  {
    var m, p := Lose(d), d.pending.buffptr;
    forall k | 0 <= k < CAPACITY ensures SlotHolds(m, k) {
      assert SlotHolds(d, k);
      if d.ring.entry[k].buffptr != NULL {
        PtrsOfHas(d.ring.entry, k);
      }
    }
    forall q | q in m.heap ensures Accounted(m, q) {
      assert Accounted(d, q);
    }
    forall i | 0 <= i < Live(m.ring) ensures LiveNumber(m, i) {
      assert LiveNumber(d, i);
      PtrsOfHas(d.ring.entry, Slot(d.ring, i));
    }
  }

  /** No pending block: the pointer is lost and nothing else is put right. */
  function Refused(d: Dev, data: seq<byte>): Dev {
    var m := MarkEnd(d, data);
    m.(pending := m.pending.(buffptr := NULL))
  }

  /** For a packet already begun that leaves a device out of order, always; for a new
      one the device stays in order unless the chunk had announced the packet's end. */
  lemma RefusedKeepsInvIff(d: Dev, data: seq<byte>)
    requires DevInv(d)
    ensures DevInv(Refused(d, data)) <==> !d.firstPacket && !HasNewline(data)
  {
    var m := Refused(d, data);
    if !d.firstPacket && !HasNewline(data) {
      forall k | 0 <= k < CAPACITY ensures SlotHolds(m, k) {
        assert SlotHolds(d, k);
      }
      forall q | q in m.heap ensures Accounted(m, q) {
        assert Accounted(d, q);
      }
      forall i | 0 <= i < Live(m.ring) ensures LiveNumber(m, i) {
        assert LiveNumber(d, i);
      }
      assert Abstract(m) == Abstract(d);
    }
  }

  // ----- One write, and every run of writes

  lemma WriteGathers(d: Dev, data: seq<byte>, env: Env)
    requires Owned(d) && !d.endOfPacket && EnvOk(d, data, env) && !HasNewline(data)
    ensures Owned(WriteDev(d, data, env)) && !WriteDev(d, data, env).endOfPacket
    ensures Abstract(WriteDev(d, data, env)) == WriteAbs(Abstract(d), data)
  {
    GatherRefines(d, data, env);
  }

  lemma WriteCommits(d: Dev, data: seq<byte>, env: Env)
    requires Owned(d) && !d.endOfPacket && EnvOk(d, data, env) && HasNewline(data)
    ensures Owned(WriteDev(d, data, env)) && !WriteDev(d, data, env).endOfPacket
    ensures Abstract(WriteDev(d, data, env)) == WriteAbs(Abstract(d), data)
    ensures Gathered(d, data, env).pending.size == WriteAdvance(Abstract(d), data)
  {
    GatherRefines(d, data, env);
    ChunkCount(d, data);
    CommitRefines(Gathered(d, data, env), env);
  }

  /** A write keeps the device invariant, does to the abstract device what the
      packet specification says, and finds the file's advance in the pending size. */
  lemma WriteRefines(d: Dev, data: seq<byte>, env: Env)
    requires DevInv(d) && EnvOk(d, data, env)
    ensures DevInv(WriteDev(d, data, env))
    ensures Abstract(WriteDev(d, data, env)) == WriteAbs(Abstract(d), data)
    ensures HasNewline(data) ==> Gathered(d, data, env).pending.size == WriteAdvance(Abstract(d), data)
  {
    if HasNewline(data) {
      WriteCommits(d, data, env);
    } else {
      WriteGathers(d, data, env);
    }
    WriteKeepsAbsInv(Abstract(d), data);
  }

  lemma DisplacedIsAllocated(d: Dev)
    requires Owned(d)
    ensures Displaced(d.ring) != NULL ==> Displaced(d.ring) in d.heap
  {
    assert SlotHolds(d, d.ring.inOffs);
  }

  /** One write, from the invariant to the invariant, seen at all three levels. */
  ghost predicate Wrote(d: Dev, data: seq<byte>, env: Env, d': Dev)
    requires DevInv(d)
  {
    match d'
    case Dev(_, _, _, _, _, _, _, _) =>
      && EnvOk(d, data, env)
      && d' == WriteDev(d, data, env)
      && DevInv(d')
      && Abstract(d') == WriteAbs(Abstract(d), data)
  }

  /** What a write with a newline amounts to, once its scratch block is known. */
  lemma CommitOutcome(d: Dev, data: seq<byte>, env: Env, s: Ptr, junk: seq<byte>) returns (env': Env)
    requires DevInv(d) && BlockOk(d, data, env) && HasNewline(data)
    requires s != NULL && s !in Gathered(d, data, env).heap
    ensures Wrote(d, data, env', Moved(Gathered(d, data, env), s, junk))
    ensures Gathered(d, data, env).pending.size == WriteAdvance(Abstract(d), data)
  {
    env' := Env(env.block, env.junk, s, junk);
    GatherRefines(d, data, env);
    CommitIsMoved(Gathered(d, data, env'), env');
    WriteRefines(d, data, env');
  }

  lemma LoseOutcome(d: Dev, data: seq<byte>, env: Env)
    requires DevInv(d) && BlockOk(d, data, env) && HasNewline(data)
    ensures DevInv(Lose(Gathered(d, data, env)))
    ensures Abstract(Lose(Gathered(d, data, env))) == Abstract(d).(tail := [], chunks := 0)
    ensures Gathered(d, data, env).pending.size == WriteAdvance(Abstract(d), data)
  {
    GatherRefines(d, data, env);
    ChunkCount(d, data);
    LoseRefines(Gathered(d, data, env));
  }

  lemma GatherOutcome(d: Dev, data: seq<byte>, env: Env) returns (env': Env)
    requires DevInv(d) && BlockOk(d, data, env) && !HasNewline(data)
    ensures Wrote(d, data, env', Gathered(d, data, env))
  {
    env' := WithScratch(d, data, env);
    GatherRefines(d, data, env);
    WriteRefines(d, data, env');
  }

  /** A scratch address for a call that will not ask for one. */
  lemma WithScratch(d: Dev, data: seq<byte>, env: Env) returns (env': Env)
    requires BlockOk(d, data, env)
    ensures EnvOk(d, data, env')
    ensures env' == env.(scratch := env'.scratch)
    ensures Gathered(d, data, env') == Gathered(d, data, env)
  {
    var s := FreshExists(Gathered(d, data, env).heap.Keys);
    env' := env.(scratch := s);
  }

  /** The allocator can always answer so: every write can go ahead. */
  lemma EnvExists(d: Dev, data: seq<byte>) returns (env: Env)
    ensures EnvOk(d, data, env)
  {
    var p := FreshExists(d.heap.Keys);
    env := WithScratch(d, data, Env(p, Zeros(StrLen(data) + 1), NULL, []));
  }

  /** The state after writes `ws`, the allocator answering as `envs` says. */
  function RunWrites(ws: seq<seq<byte>>, envs: seq<Env>): (d: Dev)
    requires |envs| == |ws|
    ensures Shaped(d.ring)
  {
    if ws == [] then FRESH_DEV
    else
      var n := |ws| - 1;
      WriteDev(RunWrites(ws[..n], envs[..n]), ws[n], envs[n])
  }

  /** Every write has at least one byte, and the allocator answers as it may. */
  predicate RunOk(ws: seq<seq<byte>>, envs: seq<Env>) {
    && |envs| == |ws|
    && (ws == [] ||
        var n := |ws| - 1;
        RunOk(ws[..n], envs[..n]) && |ws[n]| >= 1 && EnvOk(RunWrites(ws[..n], envs[..n]), ws[n], envs[n]))
  }

  lemma FreshDevice()
    ensures DevInv(FRESH_DEV) && Abstract(FRESH_DEV) == FRESH_DEVICE
  {
  }

  lemma {:induction false} RunRefines(ws: seq<seq<byte>>, envs: seq<Env>)
    requires RunOk(ws, envs)
    ensures DevInv(RunWrites(ws, envs)) && RunWrites(ws, envs).ledger.lost == 0
    ensures Abstract(RunWrites(ws, envs)) == AfterWrites(FRESH_DEVICE, ws)
  {
    if ws == [] {
      FreshDevice();
    } else {
      var n := |ws| - 1;
      RunRefines(ws[..n], envs[..n]);
      WriteRefines(RunWrites(ws[..n], envs[..n]), ws[n], envs[n]);
    }
  }

  /** Trace refinement: after any writes, read from the output position, the slots
      hold exactly the last ten (or fewer) packets of the history; the pending
      block holds exactly the unfinished tail, in a block of as many bytes as the
      tail has, plus one for each chunk; and the offsets are functions of the
      number of packets. */
  lemma TraceRefinement(ws: seq<seq<byte>>, envs: seq<Env>)
    requires RunOk(ws, envs)
    ensures var d := RunWrites(ws, envs);
            && RingInv(d.ring)
            && View(d.ring, d.heap) == LastTen(Packets(ws))
            && (d.firstPacket <==> Unfinished(ws) != [])
            && TailOf(d) == Join(Unfinished(ws))
            && (d.firstPacket ==>
                  && d.pending.buffptr in d.heap
                  && |d.heap[d.pending.buffptr]| == d.pending.size
                  && d.pending.size == |Join(Unfinished(ws))| + |Unfinished(ws)|)
            && EntrySizes(Logical(d.ring)) == Lengths(LastTen(Packets(ws)))
            && d.ring.inOffs == |Packets(ws)| % 10
            && d.ring.outOffs == (if |Packets(ws)| < CAPACITY then 0 else |Packets(ws)| % 10)
  {
    InOfIsModulo(|Packets(ws)|);
    RunRefines(ws, envs);
    HistoryIsView(ws);
    var d := RunWrites(ws, envs);
    SizesAreLengths(d);
    if d.firstPacket {
      assert ChunksOf(d) == d.pending.size - |TailOf(d)| >= 1;
    }
  }

  /** The recorded sizes are the lengths of the packets. */
  lemma SizesAreLengths(d: Dev)
    requires Owned(d)
    ensures EntrySizes(Logical(d.ring)) == Lengths(View(d.ring, d.heap))
  {
    forall i | 0 <= i < Live(d.ring)
      ensures Logical(d.ring)[i].size == |View(d.ring, d.heap)[i]|
    {
      assert SlotHolds(d, Slot(d.ring, i));
    }
  }

  // ----- What the ring's sizes and offsets say about the packets

  lemma FlatLengthIsTotal(d: Dev)
    requires Owned(d)
    ensures Sum(EntrySizes(Logical(d.ring))) == |Flat(View(d.ring, d.heap))|
  {
    SizesAreLengths(d);
    FlatLength(View(d.ring, d.heap));
  }

  /** Lookup refines flat indexing: an entry found by its sizes is the packet that
      holds the byte at that position of the flat contents. */
  lemma HitIsAt(d: Dev, off: nat, i: nat, inner: nat)
    requires Owned(d) && i < Live(d.ring) && Hit(d.ring, off, i, inner)
    ensures At(View(d.ring, d.heap), off, i, inner)
    ensures Logical(d.ring)[i].buffptr in d.heap
    ensures CStr(d.heap[Logical(d.ring)[i].buffptr]) == View(d.ring, d.heap)[i]
    ensures Logical(d.ring)[i].size == |View(d.ring, d.heap)[i]|
  {
    var view := View(d.ring, d.heap);
    LiveComesFirst(d.ring);
    SizesAreLengths(d);
    assert Rotated(d.ring)[..i] == Lengths(view[..i]) by {
      assert Rotated(d.ring)[..Live(d.ring)] == Lengths(view);
      assert Rotated(d.ring)[..i] == Rotated(d.ring)[..Live(d.ring)][..i];
    }
    FlatLength(view[..i]);
    assert Rotated(d.ring)[i] == Rotated(d.ring)[..Live(d.ring)][i];
    LiveIsOwned(d, i);
  }

  lemma OutIsOutOf(d: Dev)
    requires Owned(d)
    ensures d.ring.outOffs == OutOf(d.commits)
    ensures Live(d.ring) == if d.commits < CAPACITY then d.commits else CAPACITY
  {
    InOfIsModulo(d.commits);
  }

  // ----- Ownership over all runs

  /** Live slots and the pending packet have distinct blocks, all of them
      allocated; beyond these the heap holds exactly one scratch block for each of
      the `n` packets ever finished.  The blocks carry the numbers of the packets they
      were allocated for: the live ones are those of the last packets, in order, and
      the blocks released are those of all packets before, each exactly once; `kfree`
      was never given anything else. */
  ghost predicate SoleOwners(d: Dev, n: nat)
    requires Shaped(d.ring)
  {
    var live := Logical(d.ring);
    && (forall i, j :: 0 <= i < j < |live| ==> live[i].buffptr != live[j].buffptr)
    && (forall i :: 0 <= i < |live| ==> live[i].buffptr in d.heap && live[i].buffptr !in d.leaked)
    && (d.firstPacket ==>
          && d.pending.buffptr in d.heap && d.pending.buffptr !in d.leaked
          && forall i :: 0 <= i < |live| ==> live[i].buffptr != d.pending.buffptr)
    && (forall p :: p in d.heap && p !in d.leaked && p !in PendingPtrs(d) ==>
          exists i :: 0 <= i < |live| && live[i].buffptr == p)
    && d.leaked <= d.heap.Keys && |d.leaked| == n
    && |live| <= n
    && (forall i :: 0 <= i < |live| ==> NumberOf(d.ledger, live[i].buffptr) == n - |live| + i)
    && (d.firstPacket ==> NumberOf(d.ledger, d.pending.buffptr) == n)
    && |d.ledger.freed| == n - |live|
    && (forall i :: 0 <= i < n - |live| ==> d.ledger.freed[i] == i)
    && d.ledger.strayFrees == 0
  }

  lemma {:induction false} IotaAt(n: nat, i: nat)
    requires i < n
    ensures |Iota(n)| == n && Iota(n)[i] == i
  {
    if i < n - 1 {
      IotaAt(n - 1, i);
    } else if n > 1 {
      IotaAt(n - 1, 0);
    }
  }

  lemma LogicalOfSlot(r: Ring, k: nat) returns (i: nat)
    requires RingInv(r) && k < CAPACITY && r.entry[k].buffptr != NULL
    ensures i < Live(r) && Logical(r)[i] == r.entry[k]
  {
    i := if k >= r.outOffs then k - r.outOffs else k + CAPACITY - r.outOffs;
    assert Slot(r, i) == k;
  }

  lemma LiveIsOwned(d: Dev, i: nat)
    requires Owned(d) && i < Live(d.ring)
    ensures var p := Logical(d.ring)[i].buffptr;
            p in d.heap && p !in d.leaked && p in PtrsOf(d.ring.entry)
  {
    assert SlotHolds(d, Slot(d.ring, i));
    PtrsOfHas(d.ring.entry, Slot(d.ring, i));
  }

  lemma LiveIsDistinct(r: Ring, i: nat, j: nat)
    requires RingInv(r) && Distinct(r) && i < j < Live(r)
    ensures Logical(r)[i].buffptr != Logical(r)[j].buffptr
  {
    var a, b := Slot(r, i), Slot(r, j);
    assert if a < b then Apart(r, a, b) else Apart(r, b, a);
  }

  lemma OwnedMeansSoleOwners(d: Dev)
    requires Owned(d) && d.ledger.lost == 0
    ensures SoleOwners(d, d.commits)
  {
    var live := Logical(d.ring);
    if d.commits > |live| {
      IotaAt(d.commits - |live|, 0);
    }
    forall i | 0 <= i < d.commits - |live| ensures d.ledger.freed[i] == i {
      IotaAt(d.commits - |live|, i);
    }
    forall i | 0 <= i < |live| ensures NumberOf(d.ledger, live[i].buffptr) == d.commits - |live| + i {
      assert LiveNumber(d, i);
    }
    forall i | 0 <= i < |live|
      ensures live[i].buffptr in d.heap && live[i].buffptr !in d.leaked
      ensures live[i].buffptr in PtrsOf(d.ring.entry)
    {
      LiveIsOwned(d, i);
    }
    forall i, j | 0 <= i < j < |live| ensures live[i].buffptr != live[j].buffptr {
      LiveIsDistinct(d.ring, i, j);
    }
    forall p | p in d.heap && p !in d.leaked && p !in PendingPtrs(d)
      ensures exists i :: 0 <= i < |live| && live[i].buffptr == p
    {
      assert Accounted(d, p);
      var k := PtrsOfFinds(d.ring.entry, p);
      var i := LogicalOfSlot(d.ring, k);
    }
  }

  /** Ownership over all runs. */
  lemma OwnershipOverRuns(ws: seq<seq<byte>>, envs: seq<Env>)
    requires RunOk(ws, envs)
    ensures SoleOwners(RunWrites(ws, envs), |Packets(ws)|)
  {
    RunRefines(ws, envs);
    HistoryIsView(ws);
    OwnedMeansSoleOwners(RunWrites(ws, envs));
  }
}
