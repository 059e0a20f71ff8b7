/** malloc, calloc and free: which blocks are live, and what they hold. */
module CHeap {
  import opened Bytes

  type Ptr = nat
  const NULL: Ptr := 0

  class Heap {
    var store: map<Ptr, seq<byte>>
    var top: Ptr
    ghost var refused: nat   // how often there was no memory to be had

    ghost predicate Valid()
      reads this
    {
      forall p :: p in store ==> NULL < p <= top
    }

    constructor ()
      ensures Valid() && store == map[] && refused == 0
    {
      store, top, refused := map[], 0, 0;
    }

    // Any allocation may be refused, and every refusal is counted.
    method Room() returns (ok: bool)
      modifies `refused
      ensures refused == old(refused) + if ok then 0 else 1
    {
      if * {
        refused := refused + 1;
        return false;
      }
      return true;
    }

    // A block's first contents are zero here, as calloc makes them.
    method Alloc(size: nat) returns (p: Ptr)
      requires Valid()
      modifies this
      ensures Valid()
      ensures refused == old(refused) + if p == NULL then 1 else 0
      ensures p == NULL ==> store == old(store)
      ensures p != NULL ==> p !in old(store) && store == old(store)[p := seq(size, _ => 0)]
    {
      var ok := Room();
      if !ok {
        return NULL;
      }
      top := top + 1;
      p := top;
      store := store[p := seq(size, _ => 0)];
    }

    // malloc(n + 1), memcpy of n bytes, terminating NUL.
    method CopyString(data: array<byte>, at: nat, n: nat) returns (p: Ptr)
      requires Valid() && at + n <= data.Length
      modifies this
      ensures Valid()
      ensures refused == old(refused) + if p == NULL then 1 else 0
      ensures p == NULL ==> store == old(store)
      ensures p != NULL ==> p !in old(store) && store == old(store)[p := data[..][at..at + n] + [0]]
    {
      p := Alloc(n + 1);
      if p != NULL {
        assert data[..][at..at + n] == data[at..at + n];
        store := store[p := data[at..at + n] + [0]];
      }
    }

    // The precondition is what C demands: nothing is freed twice.
    method Free(p: Ptr)
      requires Valid() && (p == NULL || p in store)
      modifies this
      ensures Valid() && store == old(store) - {p} && refused == old(refused)
    {
      store := store - {p};
    }
  }
}
