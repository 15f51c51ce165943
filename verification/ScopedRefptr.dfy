/**
 Classes RefCountedBase (api/ref_counted_base.h) and scoped_refptr (api/scoped_refptr.h) on the Dafny
 heap. A ghost `World` knows all handles and objects; every operation is the one of `RefModel`.
 Calling a method of a deleted object is ruled out by `requires !deleted`.
 */
module ScopedRefptrs {
  import opened Common
  import M = RefModel

  datatype RefCountReleaseStatus = DroppedLastRef | OtherRefsRemained

  function Raw(p: RefCountedBase?): Option<RefCountedBase> {
    if p == null then None else Some(p)
  }

  class World {
    ghost var handles: set<ScopedRefptr>
    ghost var objects: set<RefCountedBase>
    ghost var owed: multiset<RefCountedBase>

    ghost function Memory(): M.Memory<ScopedRefptr, RefCountedBase>
      reads this, handles, objects
    {
      M.Memory(map h | h in handles :: Raw(h.ptr), map o | o in objects :: o.refCount,
               (set o | o in objects && o.deleted), owed)
    }

    ghost predicate Valid()
      reads this, handles, objects
    {
      M.Valid(Memory())
    }

    constructor ()
      ensures Memory() == M.Memory(map[], map[], {}, multiset{})
    {
      handles, objects, owed := {}, {}, multiset{};
    }

    ghost method Enter(h: ScopedRefptr)
      modifies this`handles
      ensures handles == old(handles) + {h} && Memory() == M.PointAt(old(Memory()), h, Raw(h.ptr))
    {
      handles := handles + {h};
    }

    ghost method SetOwed(refs: multiset<RefCountedBase>)
      modifies this`owed
      ensures owed == refs && Memory() == old(Memory()).(owed := refs)
    {
      owed := refs;
    }

    ghost method Leave(h: ScopedRefptr)
      modifies this`handles
      ensures handles == old(handles) - {h} && Memory() == old(Memory()).(ptr := old(Memory()).ptr - {h})
    {
      handles := handles - {h};
    }

    /** An object enters the world with a count of zero. */
    method Create() returns (o: RefCountedBase)
      requires Valid()
      modifies this`objects
      ensures fresh(o) && objects == old(objects) + {o}
      ensures Valid() && Memory() == old(Memory()).(count := old(Memory()).count[o := 0])
    {
      o := new RefCountedBase();
      Add(o);
      ScopedRefptr.Kept(old(Memory()), M.NewObject(o), this);
    }

    ghost method Add(o: RefCountedBase)
      requires o !in objects && o.refCount == 0 && !o.deleted
      modifies this`objects
      ensures objects == old(objects) + {o}
      ensures Memory() == old(Memory()).(count := old(Memory()).count[o := 0])
    {
      objects := objects + {o};
    }
  }

  class RefCountedBase {
    var refCount: int
    ghost var deleted: bool

    constructor ()
      ensures refCount == 0 && !deleted
    {
      refCount, deleted := 0, false;
    }

    method AddRef(ghost w: World)
      requires this in w.objects && !deleted
      modifies this
      ensures refCount == old(refCount) + 1 && deleted == old(deleted)
      ensures Some(w.Memory()) == M.AddRef(old(w.Memory()), this)
    {
      refCount := refCount + 1;
      ghost var m := old(w.Memory());
      assert w.Memory().ptr == m.ptr && w.Memory().deleted == m.deleted;
      assert w.Memory().count == m.count[this := refCount];
    }

    method Release(ghost w: World) returns (status: RefCountReleaseStatus)
      requires this in w.objects && !deleted
      modifies this
      ensures refCount == old(refCount) - 1 && (deleted <==> refCount == 0)
      ensures Some(w.Memory()) == M.Release(old(w.Memory()), this)
      ensures status == if refCount == 0 then DroppedLastRef else OtherRefsRemained
    {
      refCount := refCount - 1;
      ghost var m := old(w.Memory());
      assert w.Memory().ptr == m.ptr && w.Memory().deleted == m.deleted;
      assert w.Memory().count == m.count[this := refCount];
      if refCount == 0 {
        deleted := true;
        assert w.Memory().ptr == m.ptr && w.Memory().deleted == m.deleted + {this};
        assert w.Memory().count == m.count[this := refCount];
        return DroppedLastRef;
      }
      return OtherRefsRemained;
    }
  }

  class ScopedRefptr {
    var ptr: RefCountedBase?

    constructor (p: RefCountedBase?, ghost w: World)
      requires w.Valid() && (p != null ==> p in w.objects && !p.deleted)
      modifies w`handles, w.objects
      ensures fresh(this) && w.handles == old(w.handles) + {this} && ptr == p
      ensures w.Valid() && Some(w.Memory()) == M.DoFromRaw(old(w.Memory()), this, Raw(p))
    {
      ptr := p;
      new;
      ghost var m := w.Memory();
      w.Enter(this);
      if ptr != null {
        ptr.AddRef(w);
      }
      Kept(m, M.FromRaw(this, Raw(p)), w);
    }

    constructor Copy(r: ScopedRefptr, ghost w: World)
      requires r in w.handles && w.Valid()
      modifies w`handles, w.objects
      ensures fresh(this) && w.handles == old(w.handles) + {this} && ptr == r.ptr
      ensures w.Valid() && Some(w.Memory()) == M.DoFromRaw(old(w.Memory()), this, Raw(old(r.ptr)))
    {
      ptr := r.ptr;
      new;
      ghost var m := w.Memory();
      Borrowed(r, w);
      w.Enter(this);
      if ptr != null {
        ptr.AddRef(w);
      }
      Kept(m, M.CopyConstruct(this, r), w);
    }

    constructor Move(r: ScopedRefptr, ghost w: World)
      requires r in w.handles && w.Valid()
      modifies w`handles, r
      ensures fresh(this) && w.handles == old(w.handles) + {this} && ptr == old(r.ptr) && r.ptr == null
      ensures w.Valid() && w.Memory() == M.DoMoveConstruct(old(w.Memory()), this, r)
    {
      ptr := r.ptr;
      new;
      ghost var m := w.Memory();
      r.PointTo(null, w);
      w.Enter(this);
      Kept(m, M.MoveConstruct(this, r), w);
    }

    method PointTo(p: RefCountedBase?, ghost w: World)
      requires this in w.handles
      modifies this
      ensures ptr == p && w.Memory() == M.PointAt(old(w.Memory()), this, Raw(p))
    {
      ptr := p;
      assert w.Memory().ptr == old(w.Memory()).ptr[this := Raw(p)];
      assert w.Memory().count == old(w.Memory()).count && w.Memory().deleted == old(w.Memory()).deleted;
    }

    /** The destructor. */
    method Destroy(ghost w: World)
      requires this in w.handles && w.Valid()
      modifies w`handles, w.objects
      ensures w.handles == old(w.handles) - {this}
      ensures w.Valid() && Some(w.Memory()) == M.DoDestroy(old(w.Memory()), this)
    {
      ghost var m := w.Memory();
      Borrowed(this, w);
      if ptr != null {
        var _ := ptr.Release(w);
      }
      w.Leave(this);
      Kept(m, M.Destroy(this), w);
    }

    /** The caller now owns one reference to the object. */
    method Release(ghost w: World) returns (p: RefCountedBase?)
      requires this in w.handles && w.Valid()
      modifies this, w`owed
      ensures p == old(ptr) && ptr == null
      ensures w.owed == old(w.owed) + if p != null then multiset{p} else multiset{}
      ensures w.Valid() && w.Memory() == M.DoGiveUp(old(w.Memory()), this)
    {
      ghost var m := w.Memory();
      p := ptr;
      PointTo(null, w);
      w.SetOwed(if p != null then w.owed + multiset{p} else w.owed);
      Kept(m, M.GiveUp(this), w);
    }

    /** The owner of a reference handed out by Release gives it back. */
    static method ReturnOwed(o: RefCountedBase, ghost w: World)
      requires o in w.owed && w.Valid()
      modifies w.objects, w`owed
      ensures w.owed == old(w.owed) - multiset{o} && o.refCount == old(o.refCount) - 1
      ensures w.Valid() && Some(w.Memory()) == M.DoReturnOwed(old(w.Memory()), o)
    {
      ghost var m := w.Memory();
      OwedIsAlive(o, w);
      var _ := o.Release(w);
      w.SetOwed(w.owed - multiset{o});
      Kept(m, M.ReturnOwed(o), w);
    }

    method AssignRaw(p: RefCountedBase?, ghost w: World)
      requires this in w.handles && w.Valid() && (p != null ==> p in w.objects && !p.deleted)
      modifies this, w.objects
      ensures ptr == p
      ensures w.Valid() && Some(w.Memory()) == M.DoAssignRaw(old(w.Memory()), this, Raw(p))
    {
      ghost var m := w.Memory();
      M.StepSafe(m, M.AssignRaw(this, Raw(p)));
      Borrowed(this, w);
      if p != null {
        p.AddRef(w);
      }
      if ptr != null {
        var _ := ptr.Release(w);
      }
      PointTo(p, w);
      Kept(m, M.AssignRaw(this, Raw(p)), w);
    }

    method CopyAssign(r: ScopedRefptr, ghost w: World)
      requires this in w.handles && r in w.handles && w.Valid()
      modifies this, w.objects
      ensures ptr == old(r.ptr)
      ensures w.Valid() && Some(w.Memory()) == M.DoAssignRaw(old(w.Memory()), this, Raw(old(r.ptr)))
    {
      Borrowed(r, w);
      AssignRaw(r.ptr, w);
    }

    /** The overload on a raw pointer: the caller gives away the reference it owns to `p` and owns the handle's. */
    method SwapRaw(p: RefCountedBase?, ghost w: World) returns (q: RefCountedBase?)
      requires this in w.handles && w.Valid() && (p != null ==> p in w.owed)
      modifies this, w`owed
      ensures q == old(ptr) && ptr == p
      ensures w.Valid() && w.Memory() == M.DoSwapRaw(old(w.Memory()), this, Raw(p))
    {
      ghost var m := w.Memory();
      q := ptr;
      PointTo(p, w);
      w.SetOwed(M.Owed(w.owed, Raw(p), Raw(q)));
      Kept(m, M.SwapRaw(this, Raw(p)), w);
    }

    method Swap(r: ScopedRefptr, ghost w: World)
      requires this in w.handles && r in w.handles && w.Valid()
      modifies this, r
      ensures ptr == old(r.ptr) && r.ptr == old(ptr)
      ensures w.Valid() && w.Memory() == M.DoSwap(old(w.Memory()), this, r)
    {
      ghost var m := w.Memory();
      var p := ptr;
      PointTo(r.ptr, w);
      r.PointTo(p, w);
      Kept(m, M.Swap(this, r), w);
    }

    method MoveAssign(r: ScopedRefptr, ghost w: World)
      requires this in w.handles && r in w.handles && w.Valid()
      modifies this, r, w`handles, w.objects
      ensures w.handles == old(w.handles) && w.Valid()
      ensures M.Moved(old(w.Memory()), w.Memory(), this, r)
    {
      ghost var m := w.Memory();
      ghost var temporary := MoveThroughTemporary(r, w);
      M.MoveAssignMoves(m, this, r, temporary);
    }

    method MoveThroughTemporary(r: ScopedRefptr, ghost w: World) returns (ghost gone: ScopedRefptr)
      requires this in w.handles && r in w.handles && w.Valid()
      modifies this, r, w`handles, w.objects
      ensures gone !in old(w.handles) && w.handles == old(w.handles) && w.Valid()
      ensures Some(w.Memory()) == M.DoMoveAssign(old(w.Memory()), this, r, gone)
    {
      var temporary := new ScopedRefptr.Move(r, w);
      temporary.Swap(this, w);
      temporary.Destroy(w);
      gone := temporary;
    }

    /** What a handle points at can be used. */
    static lemma {:induction false} Borrowed(h: ScopedRefptr, w: World)
      requires h in w.handles && w.Valid()
      ensures h.ptr != null ==> h.ptr in w.objects && !h.ptr.deleted
    {
      if h.ptr != null {
        M.PointingAtIsOwner(w.Memory(), h);
      }
    }

    static lemma {:induction false} OwedIsAlive(o: RefCountedBase, w: World)
      requires o in w.owed && w.Valid()
      ensures o in w.objects && !o.deleted
    {
    }

    static lemma {:induction false} Kept(
      m: M.Memory<ScopedRefptr, RefCountedBase>, op: M.Operation<ScopedRefptr, RefCountedBase>, w: World)
      requires M.Valid(m) && M.Allowed(m, op) && Some(w.Memory()) == M.Step(m, op)
      ensures w.Valid()
    {
      M.StepSafe(m, op);
    }
  }
}
