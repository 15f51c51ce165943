/**
 RtpPacketInfos (api/rtp_packet_infos.h): a vector shared behind a counted pointer. Its defaulted copies
 and moves are those of scoped_refptr, so they are stated on the memory of `RefModel`. Over every run
 the shared form reads like a plain vector held by value.
 */
module RtpPacketInfosModel {
  import opened Common
  import M = RefModel

  /** `entries` is the constant vector of each Data object ever made. */
  datatype Shared<!H(==), !O(==), E> = Shared(memory: M.Memory<H, O>, entries: map<O, seq<E>>)

  /** entries(): a null pointer stands for the empty vector. */
  function Entries<H, O, E>(s: Shared<H, O, E>, h: H): seq<E>
    requires h in s.memory.ptr
    requires s.memory.ptr[h].Some? ==> s.memory.ptr[h].value in s.entries
  {
    if s.memory.ptr[h].Some? then s.entries[s.memory.ptr[h].value] else []
  }

  datatype Operation<!H(==), !O(==), E> =
    | Empty(handle: H)
    | Build(handle: H, list: seq<E>, obj: O, temporary: H)
    | Copy(handle: H, other: H)
    | Move(handle: H, other: H)
    | CopyAssign(handle: H, other: H)
    | MoveAssign(handle: H, other: H, temporary: H)
    | Drop(handle: H)

  /** New handles and objects get fresh addresses; the others exist. */
  predicate Allowed<H, O, E>(m: M.Memory<H, O>, op: Operation<H, O, E>) {
    match op
    case Empty(h) => h !in m.ptr
    case Build(h, _, o, t) => h !in m.ptr && o !in m.count && t !in m.ptr && h != t
    case Copy(h, r) => h !in m.ptr && r in m.ptr
    case Move(h, r) => h !in m.ptr && r in m.ptr
    case CopyAssign(h, r) => h in m.ptr && r in m.ptr
    case MoveAssign(h, r, t) => h in m.ptr && r in m.ptr && t !in m.ptr
    case Drop(h) => h in m.ptr
  }

  /** Data::Create returns a temporary handle to the new object, or to null, from which the member is moved. */
  function Hold<H, O>(m: M.Memory<H, O>, h: H, p: Option<O>, t: H): Option<M.Memory<H, O>>
    requires t !in m.ptr && h != t
  {
    var made := M.DoFromRaw(m, t, p);
    if made.None? then None else M.DoDestroy(M.DoMoveConstruct(made.value, h, t), t)
  }

  function StepMemory<H, O, E>(m: M.Memory<H, O>, op: Operation<H, O, E>): Option<M.Memory<H, O>>
    requires Allowed(m, op)
  {
    match op
    case Empty(h) => M.Step(m, M.FromRaw(h, None))
    case Build(h, list, o, t) =>
      if list == [] then Hold(m, h, None, t) else Hold(m.(count := m.count[o := 0]), h, Some(o), t)
    case Copy(h, r) => M.Step(m, M.CopyConstruct(h, r))
    case Move(h, r) => M.Step(m, M.MoveConstruct(h, r))
    case CopyAssign(h, r) => M.Step(m, M.CopyAssign(h, r))
    case MoveAssign(h, r, t) => M.Step(m, M.MoveAssign(h, r, t))
    case Drop(h) => M.Step(m, M.Destroy(h))
  }

  function Step<H, O, E>(s: Shared<H, O, E>, op: Operation<H, O, E>): Option<Shared<H, O, E>>
    requires Allowed(s.memory, op)
  {
    var m := StepMemory(s.memory, op);
    if m.None? then None
    else Some(Shared(m.value, if op.Build? && op.list != [] then s.entries[op.obj := op.list] else s.entries))
  }

  /** The same operation on vectors held by value. */
  function StepByValue<H, O, E>(v: map<H, seq<E>>, op: Operation<H, O, E>): map<H, seq<E>>
    requires op.Copy? || op.Move? || op.CopyAssign? || op.MoveAssign? ==> op.other in v
  {
    match op
    case Empty(h) => v[h := []]
    case Build(h, list, _, _) => v[h := list]
    case Copy(h, r) => v[h := v[r]]
    case Move(h, r) => v[r := []][h := v[r]]
    case CopyAssign(h, r) => v[h := v[r]]
    case MoveAssign(h, r, _) => if h == r then v else v[h := v[r]][r := []]
    case Drop(h) => v - {h}
  }

  /** The pointers and the objects' vectors read like the by-value vectors. */
  ghost predicate Reads<H, O, E>(ptr: map<H, Option<O>>, entries: map<O, seq<E>>, v: map<H, seq<E>>) {
    && ptr.Keys == v.Keys
    && (forall o :: o in entries ==> entries[o] != [])
    && (forall h :: h in ptr && ptr[h].Some? ==> ptr[h].value in entries && entries[ptr[h].value] == v[h])
    && (forall h :: h in ptr && ptr[h].None? ==> v[h] == [])
  }

  ghost predicate Agrees<H, O, E>(s: Shared<H, O, E>, v: map<H, seq<E>>) {
    M.Valid(s.memory) && s.entries.Keys <= s.memory.count.Keys && Reads(s.memory.ptr, s.entries, v)
  }

  /** What the operation does to the pointers alone. */
  function Pointers<H, O, E>(ptr: map<H, Option<O>>, op: Operation<H, O, E>): map<H, Option<O>>
    requires op.Copy? || op.Move? || op.CopyAssign? || op.MoveAssign? ==> op.other in ptr
  {
    match op
    case Empty(h) => ptr[h := None]
    case Build(h, list, o, _) => ptr[h := if list == [] then None else Some(o)]
    case Copy(h, r) => M.Pointers(ptr, M.CopyConstruct(h, r))
    case Move(h, r) => M.Pointers(ptr, M.MoveConstruct(h, r))
    case CopyAssign(h, r) => M.Pointers(ptr, M.CopyAssign(h, r))
    case MoveAssign(h, r, t) => M.Pointers(ptr, M.MoveAssign(h, r, t))
    case Drop(h) => M.Pointers(ptr, M.Destroy(h))
  }

  lemma {:induction false} HoldSafe<H, O>(m: M.Memory<H, O>, h: H, p: Option<O>, t: H)
    requires M.Valid(m) && h !in m.ptr && t !in m.ptr && h != t && (p.Some? ==> M.Alive(m, p.value))
    ensures Hold(m, h, p, t).Some? && M.Valid(Hold(m, h, p, t).value)
  {
    M.StepSafe(m, M.FromRaw(t, p));
    var m1 := M.DoFromRaw(m, t, p).value;
    M.StepSafe(m1, M.MoveConstruct(h, t));
    M.StepSafe(M.DoMoveConstruct(m1, h, t), M.Destroy(t));
  }

  lemma {:induction false} HoldPoints<H, O>(m: M.Memory<H, O>, h: H, p: Option<O>, t: H)
    requires h !in m.ptr && t !in m.ptr && h != t && Hold(m, h, p, t).Some?
    ensures Hold(m, h, p, t).value.ptr == m.ptr[h := p] && Hold(m, h, p, t).value.count.Keys == m.count.Keys
  {
  }

  /** Every operation but Build is one of scoped_refptr's. */
  lemma {:induction false} OneStep<H, O>(m: M.Memory<H, O>, op: M.Operation<H, O>)
    requires M.Valid(m) && M.Allowed(m, op) && !op.NewObject?
    ensures M.Step(m, op).Some? && M.Valid(M.Step(m, op).value)
    ensures M.Step(m, op).value.ptr == M.Pointers(m.ptr, op) && M.Step(m, op).value.count.Keys == m.count.Keys
  {
    M.StepSafe(m, op);
    M.StepPoints(m, op);
  }

  lemma {:induction false} BuildSafe<H, O, E>(m: M.Memory<H, O>, op: Operation<H, O, E>)
    requires M.Valid(m) && Allowed(m, op) && op.Build?
    ensures StepMemory(m, op).Some? && M.Valid(StepMemory(m, op).value)
    ensures StepMemory(m, op).value.ptr == Pointers(m.ptr, op)
    ensures StepMemory(m, op).value.count.Keys == if op.list == [] then m.count.Keys else m.count.Keys + {op.obj}
  {
    if op.list == [] {
      HoldSafe(m, op.handle, None, op.temporary);
      HoldPoints(m, op.handle, None, op.temporary);
    } else {
      M.StepSafe(m, M.NewObject(op.obj));
      var made := m.(count := m.count[op.obj := 0]);
      HoldSafe(made, op.handle, Some(op.obj), op.temporary);
      HoldPoints(made, op.handle, Some(op.obj), op.temporary);
    }
  }

  lemma {:induction false} StepMemorySafe<H, O, E>(m: M.Memory<H, O>, op: Operation<H, O, E>)
    requires M.Valid(m) && Allowed(m, op)
    ensures StepMemory(m, op).Some? && M.Valid(StepMemory(m, op).value)
    ensures StepMemory(m, op).value.ptr == Pointers(m.ptr, op)
    ensures StepMemory(m, op).value.count.Keys
         == if op.Build? && op.list != [] then m.count.Keys + {op.obj} else m.count.Keys
  {
    match op {
      case Empty(h) => OneStep(m, M.FromRaw(h, None));
      case Build(_, _, _, _) => BuildSafe(m, op);
      case Copy(h, r) => OneStep(m, M.CopyConstruct(h, r));
      case Move(h, r) => OneStep(m, M.MoveConstruct(h, r));
      case CopyAssign(h, r) => OneStep(m, M.CopyAssign(h, r));
      case MoveAssign(h, r, t) => OneStep(m, M.MoveAssign(h, r, t));
      case Drop(h) => OneStep(m, M.Destroy(h));
    }
  }

  lemma {:induction false} PointersAgree<H, O, E>(
    ptr: map<H, Option<O>>, entries: map<O, seq<E>>, v: map<H, seq<E>>, op: Operation<H, O, E>)
    requires Reads(ptr, entries, v)
    requires op.Copy? || op.Move? || op.CopyAssign? || op.MoveAssign? ==> op.other in ptr
    requires op.Build? ==> op.obj !in entries
    ensures Reads(Pointers(ptr, op),
                  if op.Build? && op.list != [] then entries[op.obj := op.list] else entries, StepByValue(v, op))
  {
  }

  lemma {:induction false} StepAgrees<H, O, E>(s: Shared<H, O, E>, v: map<H, seq<E>>, op: Operation<H, O, E>)
    requires Agrees(s, v) && Allowed(s.memory, op)
    ensures Step(s, op).Some? && Agrees(Step(s, op).value, StepByValue(v, op))
  {
    StepMemorySafe(s.memory, op);
    PointersAgree(s.memory.ptr, s.entries, v, op);
  }

  ghost predicate AllowedRun<H, O, E>(s: Shared<H, O, E>, ops: seq<Operation<H, O, E>>)
    decreases |ops|
  {
    ops == [] || (Allowed(s.memory, ops[0]) && (Step(s, ops[0]).Some? ==> AllowedRun(Step(s, ops[0]).value, ops[1..])))
  }

  function Run<H, O, E>(s: Shared<H, O, E>, ops: seq<Operation<H, O, E>>): Option<Shared<H, O, E>>
    requires AllowedRun(s, ops)
    decreases |ops|
  {
    if ops == [] then Some(s)
    else
      var s' := Step(s, ops[0]);
      if s'.None? then None else Run(s'.value, ops[1..])
  }

  ghost function RunByValue<H, O, E>(
    s: Shared<H, O, E>, v: map<H, seq<E>>, ops: seq<Operation<H, O, E>>): map<H, seq<E>>
    requires Agrees(s, v) && AllowedRun(s, ops)
    decreases |ops|
  {
    if ops == [] then v
    else
      StepAgrees(s, v, ops[0]);
      RunByValue(Step(s, ops[0]).value, StepByValue(v, ops[0]), ops[1..])
  }

  lemma {:induction false} RunAgrees<H, O, E>(s: Shared<H, O, E>, v: map<H, seq<E>>, ops: seq<Operation<H, O, E>>)
    requires Agrees(s, v) && AllowedRun(s, ops)
    ensures Run(s, ops).Some? && Agrees(Run(s, ops).value, RunByValue(s, v, ops))
    decreases |ops|
  {
    if ops != [] {
      StepAgrees(s, v, ops[0]);
      RunAgrees(Step(s, ops[0]).value, StepByValue(v, ops[0]), ops[1..]);
    }
  }

  function Nothing<H, O, E>(): Shared<H, O, E> {
    Shared(M.Memory(map[], map[], {}, multiset{}), map[])
  }

  /**
   Over every run: nothing faults; each handle reads the entries its by-value twin holds; a null pointer
   is exactly the empty vector; and the data that a handle reads has not been freed.
   */
  lemma {:induction false} SharedRefinesByValue<H, O, E>(ops: seq<Operation<H, O, E>>, h: H)
    requires AllowedRun(Nothing<H, O, E>(), ops)
    ensures Run(Nothing<H, O, E>(), ops).Some?
    ensures var s, v := Run(Nothing<H, O, E>(), ops).value, RunByValue(Nothing<H, O, E>(), map[], ops);
            && s.memory.ptr.Keys == v.Keys
            && (h in v ==>
                  && (s.memory.ptr[h].Some? ==>
                        s.memory.ptr[h].value in s.entries && M.Alive(s.memory, s.memory.ptr[h].value))
                  && Entries(s, h) == v[h]
                  && (s.memory.ptr[h].None? <==> v[h] == []))
  {
    RunAgrees(Nothing<H, O, E>(), map[], ops);
    var s := Run(Nothing<H, O, E>(), ops).value;
    if h in s.memory.ptr && s.memory.ptr[h].Some? {
      M.PointingAtIsOwner(s.memory, h);
    }
  }
}
