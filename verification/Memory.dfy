/** Kernel memory: a map from addresses to byte blocks, with the allocator and
    the string functions the driver calls.  The allocator is free to return any
    address that is not in use, including one that was released earlier, and
    leaves arbitrary bytes in what it hands out. */
module Memory {
  import opened Bytes

  type Ptr = nat
  const NULL: Ptr := 0

  type Heap = map<Ptr, seq<byte>>

  function Load(heap: Heap, p: Ptr): seq<byte> {
    if p in heap then heap[p] else []
  }

  /** An address above every address in use. */
  lemma {:induction false} FreshExists(keys: set<Ptr>) returns (p: Ptr)
    ensures p != NULL && p !in keys
    ensures forall k :: k in keys ==> k < p
  {
    if keys == {} {
      p := 1;
    } else {
      var k :| k in keys;
      var q := FreshExists(keys - {k});
      p := if k < q then q else k + 1;
      assert forall x :: x in keys ==> x == k || x in keys - {k};
    }
  }

  class Slab {
    var blocks: Heap

    constructor ()
      ensures blocks == map[]
    {
      blocks := map[];
    }

    method Junk(n: nat) returns (bytes: seq<byte>)
      ensures |bytes| == n
    {
      bytes := *;
      if |bytes| != n {
        bytes := Zeros(n);
      }
    }

    method FreshAddress() returns (p: Ptr)
      ensures p != NULL && p !in blocks
    {
      ghost var above := FreshExists(blocks.Keys);
      p :| p != NULL && p !in blocks;
    }

    /** `kmalloc` that succeeds */
    method Kmalloc(n: nat) returns (p: Ptr)
      modifies this
      ensures p != NULL && p !in old(blocks)
      ensures blocks.Keys == old(blocks).Keys + {p}
      ensures |blocks[p]| == n
      ensures blocks == old(blocks)[p := blocks[p]]
    {
      p := FreshAddress();
      var bytes := Junk(n);
      blocks := blocks[p := bytes];
    }

    /** `krealloc` that succeeds: in place or moved, the old contents kept. */
    method Krealloc(p: Ptr, n: nat) returns (q: Ptr, ghost junk: seq<byte>)
      requires p in blocks && |blocks[p]| <= n
      modifies this
      ensures q != NULL ==> (q == p || q !in old(blocks))
      ensures p != NULL ==> q != NULL
      ensures |junk| == n - |old(blocks)[p]|
      ensures blocks == (old(blocks) - {p})[q := old(blocks)[p] + junk]
    {
      var tail := Junk(n - |blocks[p]|);
      var contents := blocks[p] + tail;
      var stay: bool := *;
      if stay {
        q := p;
      } else {
        q := FreshAddress();
      }
      blocks := (blocks - {p})[q := contents];
      junk := tail;
    }

    /** `memset(p, 0, n)` over a whole block */
    method Clear(p: Ptr)
      requires p in blocks
      modifies this
      ensures blocks == old(blocks)[p := Zeros(|old(blocks)[p]|)]
    {
      blocks := blocks[p := Zeros(|blocks[p]|)];
    }

    /** `strcat(p, src)`: the precondition is that the result fits in the block. */
    method Strcat(p: Ptr, src: seq<byte>)
      requires p in blocks && Terminated(blocks[p])
      requires StrLen(blocks[p]) + StrLen(src) + 1 <= |blocks[p]|
      modifies this
      ensures blocks == old(blocks)[p := StrCat(old(blocks)[p], src)]
    {
      blocks := blocks[p := StrCat(blocks[p], src)];
    }

    /** `kfree(p)`: only a block that is allocated may be released. */
    method Kfree(p: Ptr)
      requires p in blocks
      modifies this
      ensures blocks == old(blocks) - {p}
    {
      blocks := blocks - {p};
    }
  }
}
