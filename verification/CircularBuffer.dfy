/** The ring of the ten most recent write commands.  There is no count: a slot
    with a non-NULL pointer at the input position is what "full" means. */
module CircularBuffer {
  import opened Bytes
  import opened Memory

  const CAPACITY: nat := 10

  datatype Option<+T> = None | Some(value: T)

  datatype Entry = Entry(buffptr: Ptr, size: nat)

  /** The value of `struct aesd_circular_buffer` (its `full` field is never used). */
  datatype Ring = Ring(entry: seq<Entry>, inOffs: nat, outOffs: nat)

  const EMPTY: Entry := Entry(NULL, 0)
  const EMPTY_RING: Ring :=
    Ring([EMPTY, EMPTY, EMPTY, EMPTY, EMPTY, EMPTY, EMPTY, EMPTY, EMPTY, EMPTY], 0, 0)

  predicate Shaped(r: Ring) {
    |r.entry| == CAPACITY && r.inOffs < CAPACITY && r.outOffs < CAPACITY
  }

  predicate Full(r: Ring)
    requires Shaped(r)
  {
    r.entry[r.inOffs].buffptr != NULL
  }

  /** The representation invariant of the ring. */
  ghost predicate RingInv(r: Ring) {
    && Shaped(r)
    && (Full(r) ==>
          && r.outOffs == r.inOffs
          && forall k :: 0 <= k < CAPACITY ==> r.entry[k].buffptr != NULL)
    && (!Full(r) ==>
          && r.outOffs == 0
          && (forall k :: 0 <= k < r.inOffs ==> r.entry[k].buffptr != NULL)
          && (forall k :: r.inOffs <= k < CAPACITY ==> r.entry[k] == EMPTY))
  }

  function Live(r: Ring): (n: nat)
    requires Shaped(r)
    ensures n <= CAPACITY
  {
    if Full(r) then CAPACITY else r.inOffs
  }

  /** The physical slot of logical entry `i`. */
  function Slot(r: Ring, i: nat): (k: nat)
    requires Shaped(r) && i < CAPACITY
    ensures k < CAPACITY
  {
    if r.outOffs + i < CAPACITY then r.outOffs + i else r.outOffs + i - CAPACITY
  }

  lemma SlotIsModulo(r: Ring, i: nat)
    requires Shaped(r) && i < CAPACITY
    ensures Slot(r, i) == (r.outOffs + i) % 10
  {
  }

  /** The live entries, oldest first. */
  function Logical(r: Ring): (es: seq<Entry>)
    requires Shaped(r)
    ensures |es| == Live(r)
    ensures forall i :: 0 <= i < Live(r) ==> es[i] == r.entry[Slot(r, i)]
  {
    seq(Live(r), i requires 0 <= i < Live(r) => r.entry[Slot(r, i)])
  }

  function EntrySizes(es: seq<Entry>): (ns: seq<nat>)
    ensures |ns| == |es|
    ensures forall i :: 0 <= i < |es| ==> ns[i] == es[i].size
  {
    seq(|es|, i requires 0 <= i < |es| => es[i].size)
  }

  /** All ten sizes in the order in which the lookup visits them. */
  function Rotated(r: Ring): (ns: seq<nat>)
    requires Shaped(r)
    ensures |ns| == CAPACITY
    ensures forall i :: 0 <= i < CAPACITY ==> ns[i] == r.entry[Slot(r, i)].size
  {
    seq(CAPACITY, i requires 0 <= i < CAPACITY => r.entry[Slot(r, i)].size)
  }

  /** Summing over slots 0..9 gives the same total for every rotation. */
  lemma RotationKeepsSum(r: Ring)
    requires Shaped(r)
    ensures Sum(Rotated(r)) == Sum(EntrySizes(r.entry))
  {
    var sizes := EntrySizes(r.entry);
    assert Rotated(r) == sizes[r.outOffs..] + sizes[..r.outOffs];
    SumAppend(sizes[r.outOffs..], sizes[..r.outOffs]);
    SumSplit(sizes, r.outOffs);
  }

  /** In the lookup's order the live entries come first and only zeros follow. */
  lemma LiveComesFirst(r: Ring)
    requires RingInv(r)
    ensures Rotated(r)[..Live(r)] == EntrySizes(Logical(r))
    ensures forall i :: Live(r) <= i < CAPACITY ==> Rotated(r)[i] == 0
    ensures Sum(Rotated(r)) == Sum(EntrySizes(Logical(r)))
  {
    SumSplit(Rotated(r), Live(r));
    SumZeros(Rotated(r)[Live(r)..]);
  }

  // ----- Adding an entry, store by store

  function Next(k: nat): nat {
    if k + 1 >= CAPACITY then 0 else k + 1
  }

  function AdvanceOut(r: Ring): (r': Ring)
    requires Shaped(r)
    ensures Shaped(r')
  {
    if Full(r) then r.(outOffs := Next(r.outOffs)) else r
  }

  function StorePtr(r: Ring, p: Ptr): (r': Ring)
    requires Shaped(r)
    ensures Shaped(r')
  {
    r.(entry := r.entry[r.inOffs := r.entry[r.inOffs].(buffptr := p)])
  }

  function StoreSize(r: Ring, n: nat): (r': Ring)
    requires Shaped(r)
    ensures Shaped(r')
  {
    r.(entry := r.entry[r.inOffs := r.entry[r.inOffs].(size := n)])
  }

  function AdvanceIn(r: Ring): (r': Ring)
    requires Shaped(r)
    ensures Shaped(r')
  {
    r.(inOffs := Next(r.inOffs))
  }

  function Pushed(r: Ring, p: Ptr, n: nat): (r': Ring)
    requires Shaped(r)
    ensures Shaped(r')
  {
    AdvanceIn(StoreSize(StorePtr(AdvanceOut(r), p), n))
  }

  /** The pointer that adding an entry displaces. */
  function Displaced(r: Ring): Ptr
    requires Shaped(r)
  {
    r.entry[r.inOffs].buffptr
  }

  /** A commit keeps the invariant, drops the oldest entry exactly when ten were
      live, and appends the new one. */
  lemma PushedIsQueue(r: Ring, p: Ptr, n: nat)
    requires RingInv(r) && p != NULL
    ensures RingInv(Pushed(r, p, n))
    ensures Logical(Pushed(r, p, n)) ==
            (if Full(r) then Logical(r)[1..] else Logical(r)) + [Entry(p, n)]
    ensures Full(r) ==> Displaced(r) == Logical(r)[0].buffptr
    ensures Pushed(r, p, n).entry == r.entry[r.inOffs := Entry(p, n)]
    ensures Pushed(r, p, n).inOffs == Next(r.inOffs)
    ensures Full(Pushed(r, p, n)) <==> Full(r) || r.inOffs == CAPACITY - 1
  {
    var q := Pushed(r, p, n);
    assert q.entry == r.entry[r.inOffs := Entry(p, n)];
    assert RingInv(q);
  }

  /** `Hit(r, off, i, inner)`: offset `off` of the concatenation falls on byte
      `inner` of the `i`-th entry counted from the output position. */
  ghost predicate Hit(r: Ring, off: nat, i: nat, inner: nat)
    requires Shaped(r)
  {
    && i < CAPACITY
    && inner < Rotated(r)[i]
    && off == Sum(Rotated(r)[..i]) + inner
  }

  /** The size the prefix loop of a seek reads beyond the array. */
  function PastSize(past: seq<nat>, k: nat): nat {
    if k < |past| then past[k] else 0
  }

  /** What the prefix loop has added up after `n` rounds.  It indexes on from the
      output position without wrapping around; `past` is what memory holds beyond
      the array. */
  function ScanFrom(r: Ring, past: seq<nat>, n: nat): nat
    requires Shaped(r)
  {
    if n == 0 then 0
    else ScanFrom(r, past, n - 1) +
         (if r.outOffs + n - 1 < CAPACITY then r.entry[r.outOffs + n - 1].size
          else PastSize(past, r.outOffs + n - 1 - CAPACITY))
  }

  // ----- The ring as the driver keeps it

  class Buffer {
    const entry: array<Entry>
    var inOffs: nat
    var outOffs: nat

    ghost predicate Valid()
      reads this, entry
    {
      entry.Length == CAPACITY && RingInv(Value())
    }

    ghost function Value(): Ring
      reads this, entry
    {
      Ring(entry[..], inOffs, outOffs)
    }

    /** `aesd_circular_buffer_init` */
    constructor ()
      ensures Valid() && fresh(entry)
      ensures Value() == EMPTY_RING
    {
      entry := new Entry[CAPACITY](_ => EMPTY);
      inOffs, outOffs := 0, 0;
      new;
      assert Value().entry == EMPTY_RING.entry;
    }

    /** `aesd_circular_buffer_find_entry_offset_for_fpos`: the search walks
        `outOffs` along the ring and puts it back before it returns. */
    method FindEntryOffsetForFpos(charOffset: nat, rtnByte: nat)
      returns (found: Option<nat>, inner: nat, ghost i: nat)
      requires Valid()
      modifies this`outOffs
      ensures Value() == old(Value())
      ensures found.None? <==> Sum(EntrySizes(Logical(Value()))) <= charOffset
      ensures found.None? ==> inner == rtnByte
      ensures found.Some? ==>
                && i < Live(Value())
                && found.value == Slot(Value(), i)
                && Hit(Value(), charOffset, i, inner)
    {
      ghost var r := Value();
      ghost var sizes := Rotated(r);
      LiveComesFirst(r);
      var totalEndEntry, totalBeginningEntry := 0, 0;
      var loopCount := 0;
      var restoreOutOffs := outOffs;
      i, inner := 0, rtnByte;
      while true
        invariant outOffs < CAPACITY && 0 <= loopCount < CAPACITY
        invariant i == loopCount && outOffs == Slot(r, i)
        invariant totalEndEntry == Sum(sizes[..i]) <= charOffset
        invariant r == Value().(outOffs := restoreOutOffs) && inner == rtnByte
        decreases CAPACITY - loopCount
      {
        loopCount := loopCount + 1;
        var entrySize := entry[outOffs].size;
        totalBeginningEntry := totalEndEntry;
        totalEndEntry := entrySize + totalBeginningEntry;
        SumSnoc(sizes, i);
        if charOffset >= totalEndEntry {
          outOffs := outOffs + 1;
          if outOffs >= 10 {
            outOffs := 0;
          }
          if loopCount >= CAPACITY {
            assert sizes[..CAPACITY] == sizes;
            outOffs := restoreOutOffs;
            return None, inner, i;
          }
          i := i + 1;
        } else {
          // Here charOffset >= totalBeginningEntry, by the loop invariant.
          inner := charOffset - totalBeginningEntry;
          found := Some(outOffs);
          outOffs := restoreOutOffs;
          SumSplit(sizes, i + 1);
          return;
        }
      }
    }

    /** `aesd_circular_buffer_add_entry`.  The scratch block is requested first,
        never used and never released; when it cannot be had (`noMemory`), nothing
        is stored.  The size stored is measured again, not taken from `add`. */
    method AddEntry(slab: Slab, add: Entry, noMemory: bool)
      returns (displaced: Ptr, ghost scratch: Ptr)
      requires Valid()
      requires add.buffptr != NULL && add.buffptr in slab.blocks
      modifies this, entry, slab
      ensures Valid()
      ensures noMemory ==> displaced == NULL && Value() == old(Value()) && slab.blocks == old(slab.blocks)
      ensures !noMemory ==>
                && scratch != NULL && scratch !in old(slab.blocks)
                && scratch in slab.blocks
                && slab.blocks == old(slab.blocks)[scratch := slab.blocks[scratch]]
                && |slab.blocks[scratch]| == StrLen(slab.blocks[add.buffptr])
                && displaced == old(Displaced(Value()))
                && Value() == Pushed(old(Value()), add.buffptr, StrLen(slab.blocks[add.buffptr]))
                && Logical(Value()) ==
                   (if old(Full(Value())) then old(Logical(Value()))[1..] else old(Logical(Value())))
                   + [Entry(add.buffptr, StrLen(slab.blocks[add.buffptr]))]
    {
      ghost var r := Value();
      if noMemory {
        scratch := NULL;
        return NULL, scratch;
      }
      var returnBuffer := slab.Kmalloc(StrLen(slab.blocks[add.buffptr]));
      scratch := returnBuffer;
      if entry[inOffs].buffptr != NULL {
        returnBuffer := entry[inOffs].buffptr;
        outOffs := outOffs + 1;
        if outOffs >= CAPACITY {
          outOffs := 0;
        }
      } else {
        returnBuffer := NULL;
      }
      entry[inOffs] := entry[inOffs].(buffptr := add.buffptr);
      entry[inOffs] := entry[inOffs].(size := StrLen(slab.blocks[add.buffptr]));
      inOffs := inOffs + 1;
      if inOffs >= CAPACITY {
        inOffs := 0;
      }
      displaced := returnBuffer;
      PushedIsQueue(r, add.buffptr, StrLen(slab.blocks[add.buffptr]));
      assert Value().entry == Pushed(r, add.buffptr, StrLen(slab.blocks[add.buffptr])).entry;
    }

    /** `get_aesd_buffer_length` */
    method Length() returns (size: nat)
      requires Valid()
      ensures size == Sum(EntrySizes(Logical(Value())))
    {
      ghost var sizes := EntrySizes(entry[..]);
      size := 0;
      for i := 0 to CAPACITY
        invariant size == Sum(sizes[..i])
      {
        size := entry[i].size + size;
        SumSnoc(sizes, i);
      }
      assert sizes[..CAPACITY] == sizes;
      RotationKeepsSum(Value());
      LiveComesFirst(Value());
    }
  }
}
