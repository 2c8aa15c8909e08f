/**
 * The counter behaviour of the intrusive smart pointer `ref<T>` and its base
 * class `RefCounted`. Memory is not modelled: "delete this" becomes the
 * `deleted` flag of the counted object, which no holder may touch afterwards.
 */
module RefCounting {

  class RefCounted {
    var refCount: int
    /** Set when removeRef brought the count to zero and the object destroyed itself. */
    var deleted: bool

    /** A new object starts unreferenced. */
    constructor ()
      ensures refCount == 0 && !deleted
    {
      refCount := 0;
      deleted := false;
    }

    /** Copy construction does not copy the count: the copy starts unreferenced too. */
    constructor Copy(other: RefCounted)
      ensures refCount == 0 && !deleted
      ensures other.refCount == old(other.refCount)
    {
      refCount := 0;
      deleted := false;
    }

    /** Copy assignment and swap leave the receiver's count alone. */
    method AssignFrom(other: RefCounted)
      modifies this
      ensures refCount == old(refCount) && deleted == old(deleted)
    {
    }

    method AddRef()
      requires !deleted
      modifies this
      ensures refCount == old(refCount) + 1 && !deleted
    {
      refCount := refCount + 1;
    }

    /** removeRef: decrements, and destroys the object exactly when the count reaches 0. */
    method RemoveRef() returns (destroyed: bool)
      requires !deleted
      modifies this
      ensures refCount == old(refCount) - 1
      ensures destroyed <==> refCount == 0
      ensures deleted == destroyed
    {
      refCount := refCount - 1;
      destroyed := refCount == 0;
      deleted := destroyed;
    }
  }

  /** A `ref<T>` holding `ptr`, or nothing when `ptr` is null. */
  class Ref {
    var ptr: RefCounted?

    /** A held object is alive and counts this holder. */
    ghost predicate Valid()
      reads this, ptr
    {
      ptr != null ==> !ptr.deleted && 1 <= ptr.refCount
    }

    constructor Empty()
      ensures ptr == null && Valid()
    {
      ptr := null;
    }

    /** ref(T*): takes a reference on a non-null pointer. */
    constructor FromPointer(p: RefCounted?)
      requires p != null ==> !p.deleted && 0 <= p.refCount
      modifies p
      ensures ptr == p && Valid()
      ensures p != null ==> p.refCount == old(p.refCount) + 1
    {
      if p != null {
        p.AddRef();
      }
      ptr := p;
    }

    /** ref(const ref&): shares the other holder's object. */
    constructor Copy(other: Ref)
      requires other.Valid()
      modifies other.ptr
      ensures ptr == other.ptr && Valid()
      ensures ptr != null ==> ptr.refCount == old(other.ptr.refCount) + 1
    {
      var p := other.ptr;
      if p != null {
        p.AddRef();
      }
      ptr := p;
    }

    /**
     * operator=(T*): references the new object before releasing the old one, so
     * assigning the held object to itself leaves its count unchanged and never
     * destroys it.
     */
    method Assign(other: RefCounted?) returns (destroyedOld: bool)
      requires Valid()
      requires other != null ==> !other.deleted && 0 <= other.refCount
      modifies this, ptr, other
      ensures ptr == other && Valid()
      ensures other == old(ptr) ==> !destroyedOld && (other != null ==> other.refCount == old(other.refCount))
      ensures other != old(ptr) && other != null ==> other.refCount == old(other.refCount) + 1
      ensures other != old(ptr) && old(ptr) != null ==>
        old(ptr).refCount == old(ptr.refCount) - 1 &&
        (destroyedOld <==> old(ptr).refCount == 0) && old(ptr).deleted == destroyedOld
      ensures old(ptr) == null ==> !destroyedOld
    {
      destroyedOld := false;
      if other != null {
        other.AddRef();
      }
      if ptr != null {
        destroyedOld := ptr.RemoveRef();
      }
      ptr := other;
    }

    /** ~ref(): releases the held object, if any. */
    method Release() returns (destroyed: bool)
      requires Valid()
      modifies ptr
      ensures ptr == old(ptr)
      ensures ptr != null ==> ptr.refCount == old(ptr.refCount) - 1 && (destroyed <==> ptr.refCount == 0) && ptr.deleted == destroyed
      ensures ptr == null ==> !destroyed
    {
      destroyed := false;
      if ptr != null {
        destroyed := ptr.RemoveRef();
      }
    }
  }
}
