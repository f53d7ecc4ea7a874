/** Small value types shared by the whole model. */
module Common {

  /** A pointer that may be null, or a result that may be absent. */
  datatype Option<+T> = None | Some(value: T)

  /** One byte of a frame buffer, a texture or the session description. */
  type Byte = bv8

  /** `n` zero bytes: the contents given to a freshly (re)allocated buffer. */
  function Zeros(n: nat): (r: seq<Byte>)
    ensures |r| == n
    ensures forall i :: 0 <= i < n ==> r[i] == 0
  {
    if n == 0 then [] else Zeros(n - 1) + [0]
  }
}

/**
 * The allocator seen by the video path (`av_malloc` / `av_free`). Blocks are
 * values that carry an identity; the heap keeps the set of identities that
 * are allocated and not yet freed, so "freed exactly once" and "no leak"
 * become statements about that set.
 */
module Memory {
  import opened Common

  /** An allocated buffer: its identity and its current contents. */
  datatype Block = Block(id: nat, bytes: seq<Byte>)

  class Heap {
    /** Identities of the blocks allocated and not yet freed. */
    var live: set<nat>
    /** The identity the next allocation receives. */
    var next: nat

    ghost predicate Valid()
      reads this
    {
      forall i :: i in live ==> i < next
    }

    constructor ()
      ensures Valid() && live == {}
    {
      live := {};
      next := 0;
    }

    /** `av_malloc` that succeeded; the caller decides whether it fails. */
    method Malloc(contents: seq<Byte>) returns (b: Block)
      requires Valid()
      modifies this
      ensures Valid()
      ensures b.bytes == contents
      ensures b.id !in old(live)
      ensures live == old(live) + {b.id}
    {
      b := Block(next, contents);
      live := live + {next};
      next := next + 1;
    }

    /** `av_free`: the block must be live, so no block is freed twice. */
    method Free(b: Block)
      requires Valid()
      requires b.id in live
      modifies this
      ensures Valid()
      ensures live == old(live) - {b.id}
    {
      live := live - {b.id};
    }
  }
}
