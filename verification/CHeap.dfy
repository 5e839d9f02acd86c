/** The process C heap, as libvirt and the binding see it through malloc, calloc and free. */
module CHeap {
  import opened Bytes

  type Addr = u64
  const NULL: Addr := 0
  const POINTER_SIZE: nat := 8

  function PointerAt(b: Bytes, off: nat): Addr
    requires off + POINTER_SIZE <= |b|
  {
    FromLEBound(b[off..off + POINTER_SIZE]);
    Widths();
    FromLE(b[off..off + POINTER_SIZE])
  }

  // What the heap holds: each live allocation with its bytes.
  type Blocks = map<Addr, Bytes>

  class Heap {
    var blocks: Blocks

    // How often memory was refused, by malloc and calloc or inside a libvirt helper.
    ghost var failures: nat

    ghost predicate Valid()
      reads this
    {
      NULL !in blocks
    }

    /** malloc: fails at will; otherwise any unused address and arbitrary contents. */
    method Malloc(n: nat) returns (p: Addr)
      requires Valid()
      modifies this
      ensures Valid() && failures == old(failures) + if p == NULL then 1 else 0
      ensures p == NULL ==> blocks == old(blocks)
      ensures p != NULL ==> p !in old(blocks)
      ensures p != NULL ==> exists bytes: Bytes :: |bytes| == n && blocks == old(blocks)[p := bytes]
    {
      p := NULL;
      if * {
        if a: Addr :| a != NULL && a !in blocks {
          var bytes: Bytes :| |bytes| == n by { assert |Zeros(n)| == n; }
          p := a;
          blocks := blocks[a := bytes];
        }
      }
      if p == NULL {
        failures := failures + 1;
      }
    }

    /** calloc: fails at will; otherwise an unused address and zeroed contents. */
    method Calloc(count: nat, size: nat) returns (p: Addr)
      requires Valid()
      modifies this
      ensures Valid() && failures == old(failures) + if p == NULL then 1 else 0
      ensures p == NULL ==> blocks == old(blocks)
      ensures p != NULL ==> p !in old(blocks) && blocks == old(blocks)[p := Zeros(count * size)]
    {
      p := NULL;
      if * {
        if a: Addr :| a != NULL && a !in blocks {
          p := a;
          blocks := blocks[a := Zeros(count * size)];
        }
      }
      if p == NULL {
        failures := failures + 1;
      }
    }

    /** free: only a live allocation may be freed, so a double free does not verify. */
    method Free(p: Addr)
      requires Valid()
      requires p in blocks
      modifies this
      ensures Valid() && failures == old(failures)
      ensures blocks == old(blocks) - {p}
    {
      blocks := blocks - {p};
    }

    /** A store of x at p + off, inside the allocation. */
    method Store(p: Addr, off: nat, x: Bytes)
      requires Valid()
      requires p in blocks && off + |x| <= |blocks[p]|
      modifies this
      ensures Valid() && failures == old(failures)
      ensures blocks == old(blocks)[p := Splice(old(blocks)[p], off, x)]
    {
      blocks := blocks[p := Splice(blocks[p], off, x)];
    }
  }
}
