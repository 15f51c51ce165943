/** Variable-size ArrayView (api/array_view.h): a pointer and a size over an array; subview clips. */
module ArrayViews {
  import opened Common

  /** `data` is the offset into the viewed array that the pointer stands for; None is a null pointer. */
  datatype ArrayView = ArrayView(data: Option<nat>, size: nat)

  function MakeView(data: Option<nat>, size: nat): ArrayView {
    ArrayView(if size == 0 then None else data, size)
  }

  const EmptyView := MakeView(None, 0)

  function Subview(v: ArrayView, offset: nat, size: nat): ArrayView
    requires v.size > 0 ==> v.data.Some?
  {
    if offset < v.size
    then MakeView(Some(v.data.value + offset), if size < v.size - offset then size else v.size - offset)
    else EmptyView
  }

  function SubviewFrom(v: ArrayView, offset: nat): ArrayView
    requires v.size > 0 ==> v.data.Some?
  {
    Subview(v, offset, v.size)
  }

  /** The pointer is null exactly when the size is zero, and the view stays inside the array. */
  predicate Valid(v: ArrayView, backing: seq<int>) {
    (v.data.None? <==> v.size == 0) && (v.data.Some? ==> v.data.value + v.size <= |backing|)
  }

  /** The elements that indexing and iterating the view yield. */
  function Elements(v: ArrayView, backing: seq<int>): seq<int>
    requires Valid(v, backing)
  {
    if v.data.Some? then backing[v.data.value..v.data.value + v.size] else []
  }

  /** A cut of a plain sequence, clipped to its end. */
  function Clip(s: seq<int>, offset: nat, size: nat): seq<int> {
    if offset >= |s| then [] else if size < |s| - offset then s[offset..offset + size] else s[offset..]
  }

  /** A call of subview, with or without a size. */
  datatype Cut = Cut(offset: nat, size: nat) | From(offset: nat)

  function CutView(v: ArrayView, c: Cut): ArrayView
    requires v.size > 0 ==> v.data.Some?
  {
    match c
    case Cut(offset, size) => Subview(v, offset, size)
    case From(offset) => SubviewFrom(v, offset)
  }

  function CutSeq(s: seq<int>, c: Cut): seq<int> {
    match c
    case Cut(offset, size) => Clip(s, offset, size)
    case From(offset) => s[Min(offset, |s|)..]
  }

  function SubviewAll(v: ArrayView, cuts: seq<Cut>, backing: seq<int>): (r: ArrayView)
    requires Valid(v, backing)
    ensures Valid(r, backing)
  {
    if cuts == [] then v
    else
      var before := SubviewAll(v, cuts[..|cuts| - 1], backing);
      CutView(before, cuts[|cuts| - 1])
  }

  function ClipAll(s: seq<int>, cuts: seq<Cut>): seq<int> {
    if cuts == [] then s else CutSeq(ClipAll(s, cuts[..|cuts| - 1]), cuts[|cuts| - 1])
  }

  /** Any chain of subviews denotes the same cuts of the plain sequence. */
  lemma {:induction false} SubviewsClip(v: ArrayView, cuts: seq<Cut>, backing: seq<int>)
    requires Valid(v, backing)
    ensures Elements(SubviewAll(v, cuts, backing), backing) == ClipAll(Elements(v, backing), cuts)
  {
    if cuts != [] {
      SubviewsClip(v, cuts[..|cuts| - 1], backing);
      CutViewClips(SubviewAll(v, cuts[..|cuts| - 1], backing), cuts[|cuts| - 1], backing);
    }
  }

  lemma {:induction false} CutViewClips(v: ArrayView, c: Cut, backing: seq<int>)
    requires Valid(v, backing)
    ensures Valid(CutView(v, c), backing)
    ensures Elements(CutView(v, c), backing) == CutSeq(Elements(v, backing), c)
  {
    match c {
      case Cut(offset, size) => SubviewClips(v, offset, size, backing);
      case From(offset) => SubviewClips(v, offset, v.size, backing);
    }
  }

  lemma {:induction false} SubviewClips(v: ArrayView, offset: nat, size: nat, backing: seq<int>)
    requires Valid(v, backing)
    ensures Valid(Subview(v, offset, size), backing)
    ensures Elements(Subview(v, offset, size), backing) == Clip(Elements(v, backing), offset, size)
  {
    if offset < v.size {
      SliceOfSlice(backing, v.data.value, v.data.value + v.size, offset, Min(size, v.size - offset));
    }
  }

  lemma {:induction false} SliceOfSlice(s: seq<int>, lo: nat, hi: nat, offset: nat, n: nat)
    requires lo <= hi <= |s| && offset + n <= hi - lo
    ensures s[lo..hi][offset..offset + n] == s[lo + offset..lo + offset + n]
  {
    var twice, once := s[lo..hi][offset..offset + n], s[lo + offset..lo + offset + n];
    assert forall i :: 0 <= i < n ==> twice[i] == once[i];
  }

  function Min(a: nat, b: nat): nat {
    if a < b then a else b
  }

  /** Two subviews in a row are one: offsets add up, and the second cut is limited by the first. */
  lemma {:induction false} SubviewsCompose(v: ArrayView, a: Cut, b: Cut)
    requires a.Cut? && (v.data.None? <==> v.size == 0)
    ensures var inner := Subview(v, a.offset, a.size);
            && (inner.data.None? <==> inner.size == 0)
            && CutView(inner, b) == Subview(v, Compose(a, b).offset, Compose(a, b).size)
  {
  }

  function Compose(a: Cut, b: Cut): (r: Cut)
    requires a.Cut?
    ensures r.Cut?
  {
    var left := if b.offset < a.size then a.size - b.offset else 0;
    Cut(a.offset + b.offset, if b.From? then left else Min(b.size, left))
  }

  /** The whole chain as one cut of a view of the given size. */
  function ComposeAll(size: nat, cuts: seq<Cut>): (r: Cut)
    ensures r.Cut?
  {
    if cuts == [] then Cut(0, size) else Compose(ComposeAll(size, cuts[..|cuts| - 1]), cuts[|cuts| - 1])
  }

  /** However long a chain of subviews, one subview of the original view gives the same pointer and size. */
  lemma {:induction false} ChainIsOneSubview(v: ArrayView, cuts: seq<Cut>, backing: seq<int>)
    requires Valid(v, backing)
    ensures var all := ComposeAll(v.size, cuts); SubviewAll(v, cuts, backing) == Subview(v, all.offset, all.size)
  {
    if cuts != [] {
      ChainIsOneSubview(v, cuts[..|cuts| - 1], backing);
      SubviewsCompose(v, ComposeAll(v.size, cuts[..|cuts| - 1]), cuts[|cuts| - 1]);
    }
  }
}
