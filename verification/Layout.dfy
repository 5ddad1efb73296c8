// Type descriptors and the layout of structures: initialize_aggregate of libffi, and newStruct and
// newArray of the Java binding, which must come to the same sizes.

module Layout {
  import opened Words
  import opened Align

  const FFI_TYPE_FLOAT: nat := 2
  const FFI_TYPE_DOUBLE: nat := 3
  const FFI_TYPE_LONGDOUBLE: nat := 4

  // A complex type has one element, of which it holds two; a structure lists its elements. A
  // size of 0 says that the layout is yet to be computed.
  datatype Type =
    | Scalar(code: nat, size: nat, alignment: nat)
    | Complex(part: nat, size: nat, alignment: nat)
    | Struct(elements: seq<Type>, size: nat, alignment: nat)

  datatype Option<T> = None | Some(value: T)

  function Max(a: nat, b: nat): nat { if a > b then a else b }

  // ---- Layout by definition -------------------------------------------------------------

  predicate Sized(ty: Type) { ty.size > 0 && ty.alignment > 0 }

  ghost predicate AllSized(elements: seq<Type>) { forall i :: 0 <= i < |elements| ==> Sized(elements[i]) }

  // One after the other, each at the next multiple of its alignment
  function EndOf(elements: seq<Type>, k: nat): nat
    requires k <= |elements| && forall i :: 0 <= i < |elements| ==> elements[i].alignment > 0
  {
    if k == 0 then 0 else AlignUp(EndOf(elements, k - 1), elements[k - 1].alignment) + elements[k - 1].size
  }

  function AlignmentOf(elements: seq<Type>, k: nat): (a: nat)
    requires k <= |elements|
    ensures forall i :: 0 <= i < k ==> elements[i].alignment <= a
  {
    if k == 0 then 0 else Max(AlignmentOf(elements, k - 1), elements[k - 1].alignment)
  }

  // With tail padding
  function SizeOf(elements: seq<Type>): nat
    requires elements != [] && forall i :: 0 <= i < |elements| ==> elements[i].alignment > 0
  {
    assert elements[0].alignment <= AlignmentOf(elements, |elements|);
    AlignUp(EndOf(elements, |elements|), AlignmentOf(elements, |elements|))
  }

  function StructOf(elements: seq<Type>): Type
    requires elements != [] && forall i :: 0 <= i < |elements| ==> elements[i].alignment > 0
  {
    Struct(elements, SizeOf(elements), AlignmentOf(elements, |elements|))
  }

  lemma {:induction false} EndGrows(elements: seq<Type>, k: nat)
    requires AllSized(elements) && 0 < k <= |elements|
    ensures EndOf(elements, k) > 0
  {
    Aligned(EndOf(elements, k - 1), elements[k - 1].alignment);
  }

  lemma StructSized(elements: seq<Type>)
    requires elements != [] && AllSized(elements)
    ensures Sized(StructOf(elements))
  {
    EndGrows(elements, |elements|);
    assert elements[0].alignment <= AlignmentOf(elements, |elements|);
    Aligned(EndOf(elements, |elements|), AlignmentOf(elements, |elements|));
  }

  // ---- initialize_aggregate -------------------------------------------------------------

  // A descriptor someone may pass: what has a size has a layout, all scalars have.
  ghost predicate Valid(ty: Type) {
    match ty
    case Scalar(_, size, alignment) => alignment > 0
    case Complex(_, size, alignment) => size > 0 && alignment > 0
    case Struct(elements, size, alignment) =>
      if size > 0 then LaidOut(ty) else forall i :: 0 <= i < |elements| ==> Valid(elements[i])
  }

  // Every structure in ty has the size and alignment of its elements.
  ghost predicate LaidOut(ty: Type) {
    match ty
    case Scalar(_, _, _) => Sized(ty)
    case Complex(_, _, _) => Sized(ty)
    case Struct(elements, size, alignment) =>
      && elements != [] && (forall i :: 0 <= i < |elements| ==> LaidOut(elements[i]) && elements[i].alignment > 0)
      && size == SizeOf(elements) && alignment == AlignmentOf(elements, |elements|)
  }

  lemma {:induction false} LaidOutSized(ty: Type)
    requires LaidOut(ty)
    ensures Sized(ty)
  {
    if ty.Struct? {
      forall i | 0 <= i < |ty.elements| ensures Sized(ty.elements[i]) {
        LaidOutSized(ty.elements[i]);
      }
      StructSized(ty.elements);
    }
  }

  ghost predicate AllLaidOut(es: seq<Type>) { forall j :: 0 <= j < |es| ==> LaidOut(es[j]) && es[j].alignment > 0 }

  // r is ty with nothing but sizes and alignments filled in, and those only where there were none.
  ghost predicate SameShape(ty: Type, r: Type) {
    if ty.Struct? && ty.size == 0 then
      && r.Struct? && |r.elements| == |ty.elements|
      && forall i :: 0 <= i < |ty.elements| ==> SameShape(ty.elements[i], r.elements[i])
    else r == ty
  }

  // There is only one layout of a type.
  lemma {:induction false} OneLayout(ty: Type, r: Type, q: Type)
    requires SameShape(ty, r) && LaidOut(r) && SameShape(ty, q) && LaidOut(q)
    ensures r == q
  {
    if ty.Struct? && ty.size == 0 {
      forall i | 0 <= i < |ty.elements| ensures r.elements[i] == q.elements[i] {
        OneLayout(ty.elements[i], r.elements[i], q.elements[i]);
      }
      assert r.elements == q.elements;
    }
  }

  // What initialize_aggregate makes of ty, None for FFI_BAD_TYPEDEF.
  function Initialized(ty: Type): (r: Option<Type>)
    requires Valid(ty) && (ty.Struct? ==> ty.size == 0)
    ensures r.Some? ==> LaidOut(r.value) && SameShape(ty, r.value)
    decreases ty, if ty.Struct? then |ty.elements| + 1 else 0
  {
    if !ty.Struct? || ty.elements == [] then None
    else
      var es := InitializedAll(ty, |ty.elements|);
      if es.None? then None else Some(StructOf(es.value))
  }

  // The first k elements, with those of size 0 initialized.
  function InitializedAll(ty: Type, k: nat): (r: Option<seq<Type>>)
    requires ty.Struct? && Valid(ty) && ty.size == 0 && k <= |ty.elements|
    ensures r.Some? ==> |r.value| == k && AllLaidOut(r.value)
    ensures r.Some? ==> forall j :: 0 <= j < k ==> SameShape(ty.elements[j], r.value[j])
    decreases ty, k
  {
    if k == 0 then Some([])
    else
      var rest := InitializedAll(ty, k - 1);
      var d := InitializedOne(ty.elements[k - 1]);
      if rest.None? || d.None? then None else Some(rest.value + [d.value])
  }

  function InitializedOne(e: Type): (r: Option<Type>)
    requires Valid(e)
    ensures r.Some? ==> LaidOut(r.value) && r.value.alignment > 0 && SameShape(e, r.value)
    decreases e, if e.Struct? then |e.elements| + 2 else 1
  {
    var r := if e.size == 0 then Initialized(e) else Some(e);
    if r.None? then None else
      LaidOutSized(r.value);
      r
  }

  // What nobody can lay out: a scalar of size 0, and a structure not yet laid out that has no
  // members or one that nobody can lay out.
  ghost predicate Bad(ty: Type) {
    ty.size == 0 && (ty.Struct? ==> ty.elements == [] || exists i :: 0 <= i < |ty.elements| && Bad(ty.elements[i]))
  }

  lemma {:induction false} FailsIff(ty: Type)
    requires Valid(ty) && ty.Struct? && ty.size == 0
    ensures Initialized(ty).None? <==> Bad(ty)
    decreases ty, |ty.elements| + 1
  {
    if ty.elements != [] {
      AllFailIff(ty, |ty.elements|);
    }
  }

  lemma {:induction false} AllFailIff(ty: Type, k: nat)
    requires ty.Struct? && Valid(ty) && ty.size == 0 && k <= |ty.elements|
    ensures InitializedAll(ty, k).None? <==> exists i :: 0 <= i < k && Bad(ty.elements[i])
    decreases ty, k
  {
    if k > 0 {
      hide Initialized, LaidOut;
      AllFailIff(ty, k - 1);
      OneFailsIff(ty.elements[k - 1]);
      assert Bad(ty.elements[k - 1]) <==> InitializedOne(ty.elements[k - 1]).None?;
    }
  }

  lemma {:induction false} OneFailsIff(e: Type)
    requires Valid(e)
    ensures InitializedOne(e).None? <==> Bad(e)
    decreases e, if e.Struct? then |e.elements| + 2 else 0
  {
    if e.Struct? && e.size == 0 {
      FailsIff(e);
    }
  }

  method InitializeAggregate(ty: Type) returns (r: Option<Type>)
    requires Valid(ty) && (ty.Struct? ==> ty.size == 0)
    ensures r == Initialized(ty)
    ensures r.None? <==> !ty.Struct? || Bad(ty)
    ensures r.Some? ==> LaidOut(r.value) && SameShape(ty, r.value)
    decreases ty
  {
    hide AlignUp, Valid, LaidOut, Bad, SameShape;
    if !ty.Struct? {
      return None;
    }
    FailsIff(ty);
    ElementsValid(ty);
    var size: nat, alignment: nat := 0, 0;
    var done: seq<Type> := [];
    for i := 0 to |ty.elements|
      invariant InitializedAll(ty, i) == Some(done) && |done| == i && AllLaidOut(done)
      invariant size == EndOf(done, i) && alignment == AlignmentOf(done, i)
    {
      var e := ty.elements[i];
      if e.size == 0 {
        var d := InitializeAggregate(e);
        if d.None? {
          Fails(ty, i + 1);
          return None;
        }
        e := d.value;
      }
      assert InitializedOne(ty.elements[i]) == Some(e);
      Extend(done, e);
      size := AlignUp(size, e.alignment) + e.size;
      alignment := Max(alignment, e.alignment);
      done := done + [e];
    }
    if done == [] {
      return None;
    }
    assert done[0].alignment <= alignment;
    size := AlignUp(size, alignment);
    r := Some(Struct(done, size, alignment));
  }

  lemma ElementsValid(ty: Type)
    requires ty.Struct? && Valid(ty) && ty.size == 0
    ensures forall i :: 0 <= i < |ty.elements| ==> Valid(ty.elements[i])
  {
  }

  // One more element leaves what is known of the first ones.
  lemma Extend(es: seq<Type>, e: Type)
    requires (forall j :: 0 <= j < |es| ==> es[j].alignment > 0) && e.alignment > 0
    ensures EndOf(es + [e], |es| + 1) == AlignUp(EndOf(es, |es|), e.alignment) + e.size
    ensures AlignmentOf(es + [e], |es| + 1) == Max(AlignmentOf(es, |es|), e.alignment)
  {
    Prefix(es, e, |es|);
  }

  lemma {:induction false} Prefix(es: seq<Type>, e: Type, k: nat)
    requires k <= |es| && (forall j :: 0 <= j < |es| ==> es[j].alignment > 0) && e.alignment > 0
    ensures EndOf(es + [e], k) == EndOf(es, k) && AlignmentOf(es + [e], k) == AlignmentOf(es, k)
  {
    if k > 0 {
      Prefix(es, e, k - 1);
    }
  }

  lemma {:induction false} Fails(ty: Type, k: nat)
    requires ty.Struct? && Valid(ty) && ty.size == 0 && k <= |ty.elements| && InitializedAll(ty, k).None?
    ensures InitializedAll(ty, |ty.elements|).None?
    decreases |ty.elements| - k
  {
    if k < |ty.elements| {
      Fails(ty, k + 1);
    }
  }

  // ---- The Java binding -----------------------------------------------------------------

  // Foreign.newStruct for a structure, None where it throws
  method NewStruct(fields: seq<Type>) returns (r: Option<Type>)
    requires forall i :: 0 <= i < |fields| ==> Valid(fields[i])
    ensures r.None? <==> fields == [] || exists i :: 0 <= i < |fields| && fields[i].size == 0
    ensures r.Some? ==> LaidOut(r.value) && r.value.Struct? && r.value.elements == fields
    ensures r.Some? ==> r == Initialized(Struct(fields, 0, 0))
  {
    hide AlignUp, Valid, LaidOut;
    if fields == [] {
      return None;
    }
    var size: nat, alignment: nat := 0, 0;
    for i := 0 to |fields|
      invariant (forall j :: 0 <= j < i ==> fields[j].size > 0 && fields[j].alignment > 0)
      invariant SizesTo(fields, i, size, alignment)
    {
      var elem := fields[i];
      if elem.size == 0 {
        return None;
      }
      ValidAlignment(elem);
      NextSizes(fields, i, size, alignment);
      size := AlignUp(size, elem.alignment) + elem.size;
      alignment := Max(alignment, elem.alignment);
    }
    AllFields(fields);
    EndGrows(fields, |fields|);
    assert fields[0].alignment <= alignment;
    size := AlignUp(size, alignment);
    r := Some(Struct(fields, size, alignment));
  }

  // size and alignment are those of the first k fields.
  ghost predicate SizesTo(fields: seq<Type>, k: nat, size: nat, alignment: nat) {
    && k <= |fields| && (forall j :: 0 <= j < k ==> fields[j].alignment > 0)
    && size == EndOf(fields[..k], k) && alignment == AlignmentOf(fields[..k], k)
  }

  lemma NextSizes(fields: seq<Type>, k: nat, size: nat, alignment: nat)
    requires k < |fields| && SizesTo(fields, k, size, alignment) && fields[k].alignment > 0
    ensures var e := fields[k]; SizesTo(fields, k + 1, AlignUp(size, e.alignment) + e.size, Max(alignment, e.alignment))
  {
    assert fields[..k + 1] == fields[..k] + [fields[k]];
    Extend(fields[..k], fields[k]);
  }

  lemma ValidAlignment(ty: Type)
    requires Valid(ty) && ty.size > 0
    ensures ty.alignment > 0 && LaidOut(ty)
  {
    if ty.Struct? {
      LaidOutSized(ty);
    }
  }

  // initialize_aggregate does the same to the fields as newStruct.
  lemma AllFields(fields: seq<Type>)
    requires fields != []
    requires forall i :: 0 <= i < |fields| ==>
               Valid(fields[i]) && fields[i].size > 0 && fields[i].alignment > 0
    ensures fields[..|fields|] == fields && AllSized(fields)
    ensures Valid(Struct(fields, 0, 0)) && Initialized(Struct(fields, 0, 0)) == Some(StructOf(fields))
    ensures LaidOut(StructOf(fields))
  {
    var ty := Struct(fields, 0, 0);
    forall i | 0 <= i < |fields| ensures LaidOut(fields[i]) {
      ValidAlignment(fields[i]);
    }
    Unchanged(ty, |fields|);
  }

  lemma {:induction false} Unchanged(ty: Type, k: nat)
    requires ty.Struct? && Valid(ty) && ty.size == 0 && k <= |ty.elements|
    requires forall i :: 0 <= i < |ty.elements| ==> ty.elements[i].size > 0
    ensures InitializedAll(ty, k) == Some(ty.elements[..k])
  {
    if k > 0 {
      Unchanged(ty, k - 1);
      assert ty.elements[..k] == ty.elements[..k - 1] + [ty.elements[k - 1]];
    }
  }

  // Foreign.newArray, None where it throws
  method NewArray(elem: Type, length: int) returns (r: Option<Type>)
    ensures r.None? <==> elem.size == 0 || length < 1
    ensures r.Some? ==> r.value == ArrayOf(elem, length)
  {
    if elem.size == 0 || length < 1 {
      return None;
    }
    var elements: seq<Type> := [];
    for i := 0 to length
      invariant elements == seq(i, j => elem)
    {
      elements := elements + [elem];
    }
    r := Some(Struct(elements, length * elem.size, elem.alignment));
  }

  function ArrayOf(elem: Type, length: nat): Type { Struct(seq(length, j => elem), length * elem.size, elem.alignment) }

  // An array has the layout of a structure with as many elements exactly if the element's size is
  // a multiple of its alignment; otherwise newArray leaves out the padding between them.
  lemma ArrayAgreesIff(elem: Type, length: nat)
    requires LaidOut(elem) && length > 0
    ensures LaidOut(ArrayOf(elem, length)) <==> elem.size % elem.alignment == 0
  {
    hide AlignUp;
    LaidOutSized(elem);
    var ty := ArrayOf(elem, length);
    SameElements(elem, length, length);
    var a, s := elem.alignment, elem.size;
    Aligned(s, a);
    ArrayEnd(elem, length, length);
    assert LaidOut(ty) <==> ty.size == SizeOf(ty.elements);
    if s % a == 0 {
      AlignedIs(s, a, s);
    } else {
      assert AlignUp(s, a) > s;
      MoreTimes(length, AlignUp(s, a), s);
    }
  }

  lemma MoreTimes(n: nat, a: nat, b: nat)
    requires n > 0 && a > b
    ensures n * a > n * b
  {
    AtLeastOnce(n, a - b);
    assert n * a == n * b + n * (a - b);
  }

  lemma {:induction false} SameElements(elem: Type, length: nat, k: nat)
    requires k <= length && length > 0
    ensures var es := ArrayOf(elem, length).elements;
            AlignmentOf(es, k) == if k == 0 then 0 else elem.alignment
  {
    if k > 0 {
      SameElements(elem, length, k - 1);
    }
  }

  lemma {:induction false} ArrayEnd(elem: Type, length: nat, k: nat)
    requires Sized(elem) && 0 < k <= length
    ensures var es := ArrayOf(elem, length).elements;
            AlignUp(EndOf(es, k), elem.alignment) == k * AlignUp(elem.size, elem.alignment)
  {
    hide AlignUp;
    var es, a, s := ArrayOf(elem, length).elements, elem.alignment, elem.size;
    Aligned(s, a);
    if k > 1 {
      ArrayEnd(elem, length, k - 1);
      Times(k - 1, AlignUp(s, a), a);
      AlignShift(s, (k - 1) * AlignUp(s, a), a);
      assert k * AlignUp(s, a) == (k - 1) * AlignUp(s, a) + AlignUp(s, a);
    } else {
      AlignedIs(0, a, 0);
    }
  }

  lemma Times(k: nat, m: nat, a: nat)
    requires a > 0 && m % a == 0
    ensures k * m % a == 0
  {
    var q := m / a;
    assert m == a * q;
    assert k * m == a * (k * q);
    QuotientUnique(k * m, a, k * q, 0);
  }
}
