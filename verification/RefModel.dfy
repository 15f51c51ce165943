/**
 Intrusive reference counting on an explicit memory: what each operation of api/scoped_refptr.h does to
 the pointers of the handles and to the counters of the objects, statement by statement.
 Touching an object that has been deleted is a fault (None). Classes `RefCountedBase` and
 `ScopedRefptr` perform these operations on the Dafny heap.
 */
module RefModel {
  import opened Common

  /** H identifies handles and O objects. `owed` are the references handed out by release(). */
  datatype Memory<!H(==), !O(==)> = Memory(
    ptr: map<H, Option<O>>,
    count: map<O, int>,
    deleted: set<O>,
    owed: multiset<O>)

  predicate Alive<H, O>(m: Memory<H, O>, o: O) {
    o in m.count && o !in m.deleted
  }

  function AddRef<H, O>(m: Memory<H, O>, o: O): Option<Memory<H, O>> {
    if Alive(m, o) then Some(m.(count := m.count[o := m.count[o] + 1])) else None
  }

  function Release<H, O>(m: Memory<H, O>, o: O): Option<Memory<H, O>> {
    if !Alive(m, o) then None
    else
      var n := m.count[o] - 1;
      Some(m.(count := m.count[o := n], deleted := if n == 0 then m.deleted + {o} else m.deleted))
  }

  function AddRefIfAny<H, O>(m: Memory<H, O>, p: Option<O>): Option<Memory<H, O>> {
    if p.Some? then AddRef(m, p.value) else Some(m)
  }

  function ReleaseIfAny<H, O>(m: Memory<H, O>, p: Option<O>): Option<Memory<H, O>> {
    if p.Some? then Release(m, p.value) else Some(m)
  }

  datatype Operation<!H(==), !O(==)> =
    | NewObject(obj: O)
    | FromRaw(handle: H, raw: Option<O>)
    | CopyConstruct(handle: H, other: H)
    | MoveConstruct(handle: H, other: H)
    | Destroy(handle: H)
    | GiveUp(handle: H)
    | AssignRaw(handle: H, raw: Option<O>)
    | CopyAssign(handle: H, other: H)
    | MoveAssign(handle: H, other: H, temporary: H)
    | Swap(handle: H, other: H)
    | SwapRaw(handle: H, raw: Option<O>)
    | ReturnOwed(obj: O)

  function PointAt<H, O>(m: Memory<H, O>, h: H, p: Option<O>): Memory<H, O> {
    m.(ptr := m.ptr[h := p])
  }

  function DoFromRaw<H, O>(m: Memory<H, O>, h: H, p: Option<O>): Option<Memory<H, O>> {
    AddRefIfAny(PointAt(m, h, p), p)
  }

  /** The converting and the copying assignment. The order matters when both pointers are the same. */
  function DoAssignRaw<H, O>(m: Memory<H, O>, h: H, p: Option<O>): Option<Memory<H, O>>
    requires h in m.ptr
  {
    var added := AddRefIfAny(m, p);
    if added.None? then None
    else
      var released := ReleaseIfAny(added.value, m.ptr[h]);
      if released.None? then None else Some(PointAt(released.value, h, p))
  }

  function DoMoveConstruct<H, O>(m: Memory<H, O>, h: H, r: H): Memory<H, O>
    requires r in m.ptr
  {
    PointAt(PointAt(m, r, None), h, m.ptr[r])
  }

  function DoSwap<H, O>(m: Memory<H, O>, h: H, r: H): Memory<H, O>
    requires h in m.ptr && r in m.ptr
  {
    PointAt(PointAt(m, h, m.ptr[r]), r, m.ptr[h])
  }

  function DoDestroy<H, O>(m: Memory<H, O>, h: H): Option<Memory<H, O>>
    requires h in m.ptr
  {
    var released := ReleaseIfAny(m, m.ptr[h]);
    if released.None? then None else Some(released.value.(ptr := released.value.ptr - {h}))
  }

  /** A temporary is moved from the source, swapped with the target and destroyed. */
  function DoMoveAssign<H, O>(m: Memory<H, O>, h: H, r: H, temporary: H): Option<Memory<H, O>>
    requires h in m.ptr && r in m.ptr && temporary !in m.ptr
  {
    DoDestroy(DoSwap(DoMoveConstruct(m, temporary, r), temporary, h), temporary)
  }

  function DoGiveUp<H, O>(m: Memory<H, O>, h: H): Memory<H, O>
    requires h in m.ptr
  {
    var owed := if m.ptr[h].Some? then m.owed + multiset{m.ptr[h].value} else m.owed;
    PointAt(m, h, None).(owed := owed)
  }

  /** The references that the caller owes once it has given `spent` away and been handed `gained`. */
  function Owed<O>(owed: multiset<O>, spent: Option<O>, gained: Option<O>): multiset<O> {
    owed - (if spent.Some? then multiset{spent.value} else multiset{})
         + (if gained.Some? then multiset{gained.value} else multiset{})
  }

  /** The handle and the caller exchange pointers, and with them one reference each. */
  function DoSwapRaw<H, O>(m: Memory<H, O>, h: H, p: Option<O>): Memory<H, O>
    requires h in m.ptr
  {
    PointAt(m, h, p).(owed := Owed(m.owed, p, m.ptr[h]))
  }

  function DoReturnOwed<H, O>(m: Memory<H, O>, o: O): Option<Memory<H, O>> {
    var released := Release(m, o);
    if released.None? then None else Some(released.value.(owed := m.owed - multiset{o}))
  }

  /** What the language and the reference-counting contract demand of the caller. */
  predicate Allowed<H, O>(m: Memory<H, O>, op: Operation<H, O>) {
    match op
    case NewObject(o) => o !in m.count
    case FromRaw(h, p) => h !in m.ptr && (p.Some? ==> Alive(m, p.value))
    case CopyConstruct(h, r) => h !in m.ptr && r in m.ptr
    case MoveConstruct(h, r) => h !in m.ptr && r in m.ptr
    case Destroy(h) => h in m.ptr
    case GiveUp(h) => h in m.ptr
    case AssignRaw(h, p) => h in m.ptr && (p.Some? ==> Alive(m, p.value))
    case CopyAssign(h, r) => h in m.ptr && r in m.ptr
    case MoveAssign(h, r, t) => h in m.ptr && r in m.ptr && t !in m.ptr
    case Swap(h, r) => h in m.ptr && r in m.ptr
    case SwapRaw(h, p) => h in m.ptr && (p.Some? ==> p.value in m.owed)
    case ReturnOwed(o) => o in m.owed
  }

  function Step<H, O>(m: Memory<H, O>, op: Operation<H, O>): Option<Memory<H, O>>
    requires Allowed(m, op)
  {
    match op
    case NewObject(o) => Some(m.(count := m.count[o := 0]))
    case FromRaw(h, p) => DoFromRaw(m, h, p)
    case CopyConstruct(h, r) => DoFromRaw(m, h, m.ptr[r])
    case MoveConstruct(h, r) => Some(DoMoveConstruct(m, h, r))
    case Destroy(h) => DoDestroy(m, h)
    case GiveUp(h) => Some(DoGiveUp(m, h))
    case AssignRaw(h, p) => DoAssignRaw(m, h, p)
    case CopyAssign(h, r) => DoAssignRaw(m, h, m.ptr[r])
    case MoveAssign(h, r, t) => DoMoveAssign(m, h, r, t)
    case Swap(h, r) => Some(DoSwap(m, h, r))
    case SwapRaw(h, p) => Some(DoSwapRaw(m, h, p))
    case ReturnOwed(o) => DoReturnOwed(m, o)
  }

  // ---- The ownership invariant ----

  ghost function Pointing<H, O>(ptr: map<H, Option<O>>, o: O): set<H> {
    set h | h in ptr && ptr[h] == Some(o)
  }

  /** Everything that keeps the object alive: handles that point at it and references not yet returned. */
  ghost function Owners<H, O>(m: Memory<H, O>, o: O): nat {
    |Pointing(m.ptr, o)| + m.owed[o]
  }

  ghost predicate Valid<H, O>(m: Memory<H, O>) {
    && m.deleted <= m.count.Keys
    && (forall o :: o in m.count && o !in m.deleted ==> m.count[o] == Owners(m, o))
    && (forall o :: o in m.deleted ==> Owners(m, o) == 0)
    && (forall h :: h in m.ptr && m.ptr[h].Some? ==> m.ptr[h].value in m.count)
    && (forall o :: o in m.owed ==> o in m.count)
  }

  /** The objects deleted in a step are those whose last owner went away in it. */
  ghost predicate DeletesExactly<H, O>(m: Memory<H, O>, m': Memory<H, O>) {
    forall o :: o in m.count ==>
                  (o in m'.deleted <==> o in m.deleted || (Owners(m, o) > 0 && Owners(m', o) == 0))
  }

  lemma {:induction false} PointingAtIsOwner<H, O>(m: Memory<H, O>, h: H)
    requires Valid(m) && h in m.ptr && m.ptr[h].Some?
    ensures Alive(m, m.ptr[h].value) && m.count[m.ptr[h].value] > 0
  {
    assert h in Pointing(m.ptr, m.ptr[h].value);
  }

  ghost function One(b: bool): nat {
    if b then 1 else 0
  }

  lemma {:induction false} CountUpdate<H, O>(ptr: map<H, Option<O>>, h: H, p: Option<O>, o: O)
    ensures |Pointing(ptr[h := p], o)| == |Pointing(ptr, o)| - One(h in ptr && ptr[h] == Some(o)) + One(p == Some(o))
  {
    var before, after := Pointing(ptr, o), Pointing(ptr[h := p], o);
    assert after == if p == Some(o) then (before - {h}) + {h} else before - {h};
    assert h in before <==> h in ptr && ptr[h] == Some(o);
  }

  lemma {:induction false} CountErase<H, O>(ptr: map<H, Option<O>>, h: H, o: O)
    requires h in ptr
    ensures |Pointing(ptr - {h}, o)| == |Pointing(ptr, o)| - One(ptr[h] == Some(o))
  {
    assert Pointing(ptr - {h}, o) == Pointing(ptr, o) - {h};
    assert h in Pointing(ptr, o) <==> ptr[h] == Some(o);
  }

  // ---- Every operation keeps it ----

  /** Counters and owners moved together, and an object is deleted when its counter reaches zero. */
  ghost predicate Balanced<H, O>(m: Memory<H, O>, m': Memory<H, O>) {
    && m'.count.Keys == m.count.Keys
    && (forall o :: o in m.count && o !in m.deleted ==> m'.count[o] - m.count[o] == Owners(m', o) - Owners(m, o))
    && (forall o :: o in m.deleted ==> Owners(m', o) == 0)
    && m'.deleted == m.deleted + (set o | o in m.count && o !in m.deleted && m.count[o] > 0 && m'.count[o] == 0)
    && (forall h :: h in m'.ptr && m'.ptr[h].Some? ==> m'.ptr[h].value in m'.count)
    && (forall o :: o in m'.owed ==> o in m'.count)
  }

  lemma {:induction false} BalancedIsSafe<H, O>(m: Memory<H, O>, m': Memory<H, O>)
    requires Valid(m) && Balanced(m, m')
    ensures Valid(m') && DeletesExactly(m, m')
  {
  }

  /** The memory after one reference is added to `gained` and one taken from `lost`, in closed form. */
  ghost predicate Transfers<H, O>(m: Memory<H, O>, m': Memory<H, O>, gained: Option<O>, lost: Option<O>) {
    && m'.count.Keys == m.count.Keys
    && (forall o :: o in m.count ==> m'.count[o] == m.count[o] + One(gained == Some(o)) - One(lost == Some(o)))
    && m'.deleted == m.deleted + (set o | o in m.count && lost == Some(o) && m'.count[o] == 0)
  }

  lemma {:induction false} AddRefTransfers<H, O>(m: Memory<H, O>, p: Option<O>)
    requires p.Some? ==> Alive(m, p.value)
    ensures AddRefIfAny(m, p).Some? && Transfers(m, AddRefIfAny(m, p).value, p, None)
  {
  }

  lemma {:induction false} ReleaseTransfers<H, O>(m: Memory<H, O>, p: Option<O>)
    requires p.Some? ==> Alive(m, p.value)
    ensures ReleaseIfAny(m, p).Some? && Transfers(m, ReleaseIfAny(m, p).value, None, p)
  {
  }

  lemma {:induction false} AssignTransfers<H, O>(m: Memory<H, O>, h: H, p: Option<O>)
    requires Valid(m) && h in m.ptr && (p.Some? ==> Alive(m, p.value))
    ensures DoAssignRaw(m, h, p).Some?
    ensures DoAssignRaw(m, h, p).value.ptr == m.ptr[h := p] && DoAssignRaw(m, h, p).value.owed == m.owed
    ensures Transfers(m, DoAssignRaw(m, h, p).value, p, m.ptr[h])
  {
    if m.ptr[h].Some? {
      PointingAtIsOwner(m, h);
    }
    AddRefTransfers(m, p);
    ReleaseTransfers(AddRefIfAny(m, p).value, m.ptr[h]);
  }

  ghost predicate OwnersTransfer<H, O>(m: Memory<H, O>, m': Memory<H, O>, gained: Option<O>, lost: Option<O>) {
    forall o :: o in m.count ==> Owners(m', o) == Owners(m, o) + One(gained == Some(o)) - One(lost == Some(o))
  }

  lemma {:induction false} TransfersBalanced<H, O>(
    m: Memory<H, O>, m': Memory<H, O>, gained: Option<O>, lost: Option<O>)
    requires Valid(m) && Transfers(m, m', gained, lost) && OwnersTransfer(m, m', gained, lost)
    requires gained.Some? ==> Alive(m, gained.value)
    requires lost.Some? ==> Alive(m, lost.value) && m.count[lost.value] > 0
    requires forall h :: h in m'.ptr && m'.ptr[h].Some? ==> m'.ptr[h].value in m'.count
    requires forall o :: o in m'.owed ==> o in m'.count
    ensures Balanced(m, m')
  {
    DeletionsTransfer(m, m', gained, lost);
    forall o | o in m.deleted ensures Owners(m', o) == 0 {
      assert Owners(m, o) == 0;
    }
  }

  lemma {:induction false} DeletionsTransfer<H, O>(
    m: Memory<H, O>, m': Memory<H, O>, gained: Option<O>, lost: Option<O>)
    requires Transfers(m, m', gained, lost)
    requires gained.Some? ==> gained.value in m.count && m.count[gained.value] >= 0
    requires lost.Some? ==> Alive(m, lost.value) && m.count[lost.value] > 0
    ensures m'.deleted == m.deleted + (set o | o in m.count && o !in m.deleted && m.count[o] > 0 && m'.count[o] == 0)
  {
  }

  lemma {:induction false} AssignBalanced<H, O>(m: Memory<H, O>, h: H, p: Option<O>)
    requires Valid(m) && h in m.ptr && (p.Some? ==> Alive(m, p.value))
    ensures DoAssignRaw(m, h, p).Some? && Balanced(m, DoAssignRaw(m, h, p).value)
  {
    AssignTransfers(m, h, p);
    var m' := DoAssignRaw(m, h, p).value;
    assert OwnersTransfer(m, m', p, m.ptr[h]) by {
      forall o ensures Owners(m', o) == Owners(m, o) + One(p == Some(o)) - One(m.ptr[h] == Some(o)) {
        CountUpdate(m.ptr, h, p, o);
      }
    }
    if m.ptr[h].Some? {
      PointingAtIsOwner(m, h);
    }
    TransfersBalanced(m, m', p, m.ptr[h]);
  }

  lemma {:induction false} FromRawBalanced<H, O>(m: Memory<H, O>, h: H, p: Option<O>)
    requires Valid(m) && h !in m.ptr && (p.Some? ==> Alive(m, p.value))
    ensures DoFromRaw(m, h, p).Some? && Balanced(m, DoFromRaw(m, h, p).value)
  {
    AddRefTransfers(PointAt(m, h, p), p);
    var m' := DoFromRaw(m, h, p).value;
    assert OwnersTransfer(m, m', p, None) by {
      forall o ensures Owners(m', o) == Owners(m, o) + One(p == Some(o)) {
        CountUpdate(m.ptr, h, p, o);
      }
    }
    TransfersBalanced(m, m', p, None);
  }

  lemma {:induction false} DestroyBalanced<H, O>(m: Memory<H, O>, h: H)
    requires Valid(m) && h in m.ptr
    ensures DoDestroy(m, h).Some? && Balanced(m, DoDestroy(m, h).value)
  {
    if m.ptr[h].Some? {
      PointingAtIsOwner(m, h);
    }
    ReleaseTransfers(m, m.ptr[h]);
    var m' := DoDestroy(m, h).value;
    assert OwnersTransfer(m, m', None, m.ptr[h]) by {
      forall o ensures Owners(m', o) == Owners(m, o) - One(m.ptr[h] == Some(o)) {
        CountErase(m.ptr, h, o);
      }
    }
    TransfersBalanced(m, m', None, m.ptr[h]);
  }

  /** Whatever has an owner has been created. */
  lemma {:induction false} OwnedIsCreated<H, O>(m: Memory<H, O>, o: O)
    requires Valid(m) && Owners(m, o) > 0
    ensures o in m.count
  {
    if o !in m.owed {
      var h :| h in Pointing(m.ptr, o);
    }
  }

  /** References that only change hands. */
  lemma {:induction false} SameOwnersBalanced<H, O>(m: Memory<H, O>, m': Memory<H, O>)
    requires Valid(m) && m'.count == m.count && m'.deleted == m.deleted
    requires forall o :: Owners(m', o) == Owners(m, o)
    ensures Balanced(m, m')
  {
    forall h | h in m'.ptr && m'.ptr[h].Some? ensures m'.ptr[h].value in m'.count {
      assert h in Pointing(m'.ptr, m'.ptr[h].value);
      OwnedIsCreated(m, m'.ptr[h].value);
    }
    forall o | o in m'.owed ensures o in m'.count {
      assert Owners(m', o) > 0;
      OwnedIsCreated(m, o);
    }
  }

  lemma {:induction false} MoveConstructBalanced<H, O>(m: Memory<H, O>, h: H, r: H)
    requires Valid(m) && h !in m.ptr && r in m.ptr
    ensures Balanced(m, DoMoveConstruct(m, h, r))
  {
    forall o ensures Owners(DoMoveConstruct(m, h, r), o) == Owners(m, o) {
      CountUpdate(m.ptr, r, None, o);
      CountUpdate(m.ptr[r := None], h, m.ptr[r], o);
    }
    SameOwnersBalanced(m, DoMoveConstruct(m, h, r));
  }

  lemma {:induction false} SwapBalanced<H, O>(m: Memory<H, O>, h: H, r: H)
    requires Valid(m) && h in m.ptr && r in m.ptr
    ensures Balanced(m, DoSwap(m, h, r))
  {
    forall o ensures Owners(DoSwap(m, h, r), o) == Owners(m, o) {
      CountUpdate(m.ptr, h, m.ptr[r], o);
      CountUpdate(m.ptr[h := m.ptr[r]], r, m.ptr[h], o);
    }
    SameOwnersBalanced(m, DoSwap(m, h, r));
  }

  lemma {:induction false} OwedCount<O>(owed: multiset<O>, spent: Option<O>, gained: Option<O>, o: O)
    requires spent.Some? ==> spent.value in owed
    ensures Owed(owed, spent, gained)[o] == owed[o] - One(spent == Some(o)) + One(gained == Some(o))
  {
    assert spent.Some? ==> owed[spent.value] > 0;
  }

  lemma {:induction false} SwapRawBalanced<H, O>(m: Memory<H, O>, h: H, p: Option<O>)
    requires Valid(m) && h in m.ptr && (p.Some? ==> p.value in m.owed)
    ensures Balanced(m, DoSwapRaw(m, h, p))
  {
    forall o ensures Owners(DoSwapRaw(m, h, p), o) == Owners(m, o) {
      CountUpdate(m.ptr, h, p, o);
      OwedCount(m.owed, p, m.ptr[h], o);
    }
    SameOwnersBalanced(m, DoSwapRaw(m, h, p));
  }

  lemma {:induction false} GiveUpBalanced<H, O>(m: Memory<H, O>, h: H)
    requires Valid(m) && h in m.ptr
    ensures Balanced(m, DoGiveUp(m, h))
  {
    forall o ensures Owners(DoGiveUp(m, h), o) == Owners(m, o) {
      CountUpdate(m.ptr, h, None, o);
    }
    SameOwnersBalanced(m, DoGiveUp(m, h));
  }

  lemma {:induction false} ReturnOwedBalanced<H, O>(m: Memory<H, O>, o: O)
    requires Valid(m) && o in m.owed
    ensures DoReturnOwed(m, o).Some? && Balanced(m, DoReturnOwed(m, o).value)
  {
    assert m.owed[o] > 0;
    assert Alive(m, o) && m.count[o] > 0;
    ReleaseTransfers(m, Some(o));
    TransfersBalanced(m, DoReturnOwed(m, o).value, None, Some(o));
  }

  lemma {:induction false} MoveAssignSafe<H, O>(m: Memory<H, O>, h: H, r: H, t: H)
    requires Valid(m) && Allowed(m, MoveAssign(h, r, t))
    ensures DoMoveAssign(m, h, r, t).Some?
    ensures Valid(DoMoveAssign(m, h, r, t).value) && DeletesExactly(m, DoMoveAssign(m, h, r, t).value)
  {
    var m1 := DoMoveConstruct(m, t, r);
    MoveConstructBalanced(m, t, r);
    BalancedIsSafe(m, m1);
    var m2 := DoSwap(m1, t, h);
    SwapBalanced(m1, t, h);
    BalancedIsSafe(m1, m2);
    DestroyBalanced(m2, t);
    BalancedIsSafe(m2, DoDestroy(m2, t).value);
    forall o | o in m.count && o !in m.deleted ensures Owners(m2, o) == Owners(m, o) {
    }
  }

  /** Nothing deleted is touched, the counters stay exact, and deletion happens with the last owner. */
  lemma {:induction false} StepSafe<H, O>(m: Memory<H, O>, op: Operation<H, O>)
    requires Valid(m) && Allowed(m, op)
    ensures Step(m, op).Some? && Valid(Step(m, op).value) && DeletesExactly(m, Step(m, op).value)
  {
    match op {
      case NewObject(o) =>
        forall h | h in Pointing(m.ptr, o) ensures false {
        }
        assert Owners(m, o) == 0;
        forall x ensures Owners(Step(m, op).value, x) == Owners(m, x) {
        }
      case FromRaw(h, p) => FromRawBalanced(m, h, p); BalancedIsSafe(m, Step(m, op).value);
      case CopyConstruct(h, r) =>
        if m.ptr[r].Some? {
          PointingAtIsOwner(m, r);
        }
        FromRawBalanced(m, h, m.ptr[r]);
        BalancedIsSafe(m, Step(m, op).value);
      case MoveConstruct(h, r) => MoveConstructBalanced(m, h, r); BalancedIsSafe(m, Step(m, op).value);
      case Destroy(h) => DestroyBalanced(m, h); BalancedIsSafe(m, Step(m, op).value);
      case GiveUp(h) => GiveUpBalanced(m, h); BalancedIsSafe(m, Step(m, op).value);
      case AssignRaw(h, p) => AssignBalanced(m, h, p); BalancedIsSafe(m, Step(m, op).value);
      case CopyAssign(h, r) =>
        if m.ptr[r].Some? {
          PointingAtIsOwner(m, r);
        }
        AssignBalanced(m, h, m.ptr[r]);
        BalancedIsSafe(m, Step(m, op).value);
      case MoveAssign(h, r, t) => MoveAssignSafe(m, h, r, t);
      case Swap(h, r) => SwapBalanced(m, h, r); BalancedIsSafe(m, Step(m, op).value);
      case SwapRaw(h, p) => SwapRawBalanced(m, h, p); BalancedIsSafe(m, Step(m, op).value);
      case ReturnOwed(o) => ReturnOwedBalanced(m, o); BalancedIsSafe(m, Step(m, op).value);
    }
  }

  /** What an operation does to the pointers alone. */
  function Pointers<H, O>(ptr: map<H, Option<O>>, op: Operation<H, O>): map<H, Option<O>>
    requires op.CopyConstruct? || op.MoveConstruct? || op.CopyAssign? || op.MoveAssign? || op.Swap? ==> op.other in ptr
    requires op.Swap? ==> op.handle in ptr
  {
    match op
    case NewObject(_) => ptr
    case FromRaw(h, p) => ptr[h := p]
    case CopyConstruct(h, r) => ptr[h := ptr[r]]
    case MoveConstruct(h, r) => ptr[r := None][h := ptr[r]]
    case Destroy(h) => ptr - {h}
    case GiveUp(h) => ptr[h := None]
    case AssignRaw(h, p) => ptr[h := p]
    case CopyAssign(h, r) => ptr[h := ptr[r]]
    case MoveAssign(h, r, _) => if h == r then ptr else ptr[h := ptr[r]][r := None]
    case Swap(h, r) => ptr[h := ptr[r]][r := ptr[h]]
    case SwapRaw(h, p) => ptr[h := p]
    case ReturnOwed(_) => ptr
  }

  /** Just before the temporary is destroyed, it holds what the target held. */
  lemma {:induction false} MoveAssignShape<H, O>(m: Memory<H, O>, h: H, r: H, t: H)
    requires Allowed(m, MoveAssign(h, r, t))
    ensures var swapped := DoSwap(DoMoveConstruct(m, t, r), t, h);
            && t in swapped.ptr && swapped.ptr[t] == (if h == r then None else m.ptr[h])
            && swapped.ptr - {t} == Pointers(m.ptr, MoveAssign(h, r, t))
            && swapped == m.(ptr := swapped.ptr)
  {
  }

  lemma {:induction false} MoveAssignPoints<H, O>(m: Memory<H, O>, h: H, r: H, t: H)
    requires Allowed(m, MoveAssign(h, r, t)) && DoMoveAssign(m, h, r, t).Some?
    ensures DoMoveAssign(m, h, r, t).value.ptr == Pointers(m.ptr, MoveAssign(h, r, t))
    ensures DoMoveAssign(m, h, r, t).value.count.Keys == m.count.Keys
  {
  }

  lemma {:induction false} DestroyPoints<H, O>(m: Memory<H, O>, h: H)
    requires h in m.ptr && DoDestroy(m, h).Some?
    ensures DoDestroy(m, h).value.ptr == m.ptr - {h} && DoDestroy(m, h).value.count.Keys == m.count.Keys
  {
  }

  lemma {:induction false} AssignPoints<H, O>(m: Memory<H, O>, h: H, p: Option<O>)
    requires h in m.ptr && DoAssignRaw(m, h, p).Some?
    ensures DoAssignRaw(m, h, p).value.ptr == m.ptr[h := p] && DoAssignRaw(m, h, p).value.count.Keys == m.count.Keys
  {
  }

  lemma {:induction false} CreationPoints<H, O>(m: Memory<H, O>, op: Operation<H, O>)
    requires op.NewObject? || op.FromRaw? || op.CopyConstruct? || op.MoveConstruct?
    requires Allowed(m, op) && Step(m, op).Some?
    ensures Step(m, op).value.ptr == Pointers(m.ptr, op)
    ensures Step(m, op).value.count.Keys == if op.NewObject? then m.count.Keys + {op.obj} else m.count.Keys
  {
  }

  lemma {:induction false} SwapPoints<H, O>(m: Memory<H, O>, op: Operation<H, O>)
    requires op.Swap? || op.SwapRaw?
    requires Allowed(m, op) && Step(m, op).Some?
    ensures Step(m, op).value.ptr == Pointers(m.ptr, op) && Step(m, op).value.count == m.count
  {
  }

  lemma {:induction false} OwedPoints<H, O>(m: Memory<H, O>, op: Operation<H, O>)
    requires op.GiveUp? || op.ReturnOwed?
    requires Allowed(m, op) && Step(m, op).Some?
    ensures Step(m, op).value.ptr == Pointers(m.ptr, op) && Step(m, op).value.count.Keys == m.count.Keys
  {
  }

  lemma {:induction false} StepPoints<H, O>(m: Memory<H, O>, op: Operation<H, O>)
    requires Allowed(m, op) && Step(m, op).Some?
    ensures Step(m, op).value.ptr == Pointers(m.ptr, op)
    ensures Step(m, op).value.count.Keys == if op.NewObject? then m.count.Keys + {op.obj} else m.count.Keys
  {
    match op {
      case MoveAssign(h, r, t) => MoveAssignPoints(m, h, r, t);
      case Destroy(h) => DestroyPoints(m, h);
      case AssignRaw(h, p) => AssignPoints(m, h, p);
      case CopyAssign(h, r) => AssignPoints(m, h, m.ptr[r]);
      case GiveUp(_) => OwedPoints(m, op);
      case Swap(_, _) => SwapPoints(m, op);
      case SwapRaw(_, _) => SwapPoints(m, op);
      case ReturnOwed(_) => OwedPoints(m, op);
      case _ => CreationPoints(m, op);
    }
  }

  /** A run whose every call keeps to the caller's side of the contract as long as nothing has faulted. */
  ghost predicate AllowedRun<H, O>(m: Memory<H, O>, ops: seq<Operation<H, O>>)
    decreases |ops|
  {
    ops == [] || (Allowed(m, ops[0]) && (Step(m, ops[0]).Some? ==> AllowedRun(Step(m, ops[0]).value, ops[1..])))
  }

  function Run<H, O>(m: Memory<H, O>, ops: seq<Operation<H, O>>): Option<Memory<H, O>>
    requires AllowedRun(m, ops)
    decreases |ops|
  {
    if ops == [] then Some(m)
    else
      var m' := Step(m, ops[0]);
      if m'.None? then None else Run(m'.value, ops[1..])
  }

  /** In every run each live object's counter is the number of its owners, and no step touches a deleted object. */
  lemma {:induction false} RunSafe<H, O>(m: Memory<H, O>, ops: seq<Operation<H, O>>)
    requires Valid(m) && AllowedRun(m, ops)
    ensures Run(m, ops).Some? && Valid(Run(m, ops).value)
    decreases |ops|
  {
    if ops != [] {
      StepSafe(m, ops[0]);
      RunSafe(Step(m, ops[0]).value, ops[1..]);
    }
  }

  // ---- Moving and copying ----

  lemma {:induction false} MoveAssignTransfers<H, O>(m: Memory<H, O>, h: H, r: H, t: H)
    requires Valid(m) && Allowed(m, MoveAssign(h, r, t)) && h != r
    ensures DoMoveAssign(m, h, r, t).Some?
    ensures DoMoveAssign(m, h, r, t).value.ptr == m.ptr[h := m.ptr[r]][r := None]
    ensures DoMoveAssign(m, h, r, t).value.owed == m.owed
    ensures Transfers(m, DoMoveAssign(m, h, r, t).value, None, m.ptr[h])
  {
    if m.ptr[h].Some? {
      PointingAtIsOwner(m, h);
    }
    MoveAssignShape(m, h, r, t);
    ReleaseTransfers(m, m.ptr[h]);
    ReleaseTransfers(DoSwap(DoMoveConstruct(m, t, r), t, h), m.ptr[h]);
  }

  /** For all aliasing of the pointers, moving is copying and then clearing the source. */
  lemma {:induction false} MoveAssignIsCopyThenClear<H, O>(m: Memory<H, O>, h: H, r: H, t: H)
    requires Valid(m) && Allowed(m, MoveAssign(h, r, t)) && h != r
    ensures Step(m, CopyAssign(h, r)).Some? && Step(m, MoveAssign(h, r, t)).Some?
    ensures Step(Step(m, CopyAssign(h, r)).value, AssignRaw(r, None)) == Step(m, MoveAssign(h, r, t))
  {
    MoveAssignTransfers(m, h, r, t);
    StepSafe(m, CopyAssign(h, r));
    if m.ptr[r].Some? {
      PointingAtIsOwner(m, r);
    }
    AssignTransfers(m, h, m.ptr[r]);
    var copied := Step(m, CopyAssign(h, r)).value;
    AssignTransfers(copied, r, None);
    var cleared, moved := Step(copied, AssignRaw(r, None)).value, Step(m, MoveAssign(h, r, t)).value;
    StepSafe(copied, AssignRaw(r, None));
    if m.ptr[r].Some? {
      PointingAtIsOwner(cleared, h);
    }
    SameMemory(m, copied, cleared, moved, m.ptr[r], m.ptr[h]);
  }

  lemma {:induction false} SameMemory<H, O>(
    m: Memory<H, O>, copied: Memory<H, O>, cleared: Memory<H, O>, moved: Memory<H, O>,
    source: Option<O>, target: Option<O>)
    requires Transfers(m, copied, source, target) && Transfers(copied, cleared, None, source)
    requires Transfers(m, moved, None, target) && cleared.ptr == moved.ptr && cleared.owed == moved.owed
    requires source.Some? ==> source.value in m.count && cleared.count[source.value] > 0
    ensures cleared == moved
  {
  }

  lemma {:induction false} SelfAssignmentIsHarmless<H, O>(m: Memory<H, O>, h: H, t: H)
    requires Valid(m) && h in m.ptr && t !in m.ptr
    ensures Step(m, CopyAssign(h, h)) == Some(m)
    ensures Step(m, MoveAssign(h, h, t)) == Some(m)
  {
    if m.ptr[h].Some? {
      PointingAtIsOwner(m, h);
      AssignTransfers(m, h, m.ptr[h]);
    }
    assert m.ptr[h := m.ptr[h]] == m.ptr;
    assert Step(m, CopyAssign(h, h)).value.count == m.count;
    MoveAssignShape(m, h, h, t);
  }

  /** The target takes the source's reference, the source becomes null, and only the target's old object loses one. */
  ghost predicate Moved<H, O>(m: Memory<H, O>, m': Memory<H, O>, h: H, r: H)
    requires h in m.ptr && r in m.ptr
  {
    if h == r then m' == m
    else m'.ptr == m.ptr[h := m.ptr[r]][r := None] && m'.owed == m.owed && Transfers(m, m', None, m.ptr[h])
  }

  lemma {:induction false} MoveAssignMoves<H, O>(m: Memory<H, O>, h: H, r: H, t: H)
    requires Valid(m) && Allowed(m, MoveAssign(h, r, t))
    ensures DoMoveAssign(m, h, r, t).Some? && Moved(m, DoMoveAssign(m, h, r, t).value, h, r)
  {
    if h == r {
      SelfAssignmentIsHarmless(m, h, t);
    } else {
      MoveAssignTransfers(m, h, r, t);
    }
  }
}
