/**
 * The visitor that flattens the value of the StaticFactoryMethods container
 * annotation into the StaticFactoryMethod occurrences it holds, adding each one
 * to a collection the caller passes in.
 */
module ResolveVisitor {
  import opened Elements

  /**
   * The annotation occurrences a value holds, left to right: an annotation
   * leaf stands for itself (its own members are not entered), an array
   * contributes the occurrences of its elements in order, and every other
   * value contributes nothing.
   */
  function Leaves(av: AnnotationValue): seq<AnnotationMirror>
  {
    match av
    case Annotation(a) => [a]
    case ArrayValue(vals) => LeavesOf(vals)
    case _ => []
  }

  /** The occurrences held by a list of values, in list order. */
  function LeavesOf(vals: seq<AnnotationValue>): seq<AnnotationMirror>
  {
    if vals == [] then [] else LeavesOf(vals[..|vals| - 1]) + Leaves(vals[|vals| - 1])
  }

  /** `a` is reached from `av` by entering arrays only. */
  predicate Reaches(av: AnnotationValue, a: AnnotationMirror)
  {
    match av
    case Annotation(b) => b == a
    case ArrayValue(vals) => exists i :: 0 <= i < |vals| && Reaches(vals[i], a)
    case _ => false
  }

  /** Some annotation is reached from `av` by entering arrays only. */
  predicate HoldsAnnotation(av: AnnotationValue)
  {
    match av
    case Annotation(_) => true
    case ArrayValue(vals) => exists i :: 0 <= i < |vals| && HoldsAnnotation(vals[i])
    case _ => false
  }

  /** Flattening a concatenation of lists keeps the two lists' occurrences in order. */
  lemma {:induction false} LeavesOfAppend(xs: seq<AnnotationValue>, ys: seq<AnnotationValue>)
    ensures LeavesOf(xs + ys) == LeavesOf(xs) + LeavesOf(ys)
    decreases |ys|
  {
    if ys == [] {
      assert xs + ys == xs;
    } else {
      var last := |ys| - 1;
      assert (xs + ys)[..|xs + ys| - 1] == xs + ys[..last];
      assert (xs + ys)[|xs + ys| - 1] == ys[last];
      LeavesOfAppend(xs, ys[..last]);
    }
  }

  /** The occurrences collected from a value are exactly the annotations it reaches. */
  lemma {:induction false} LeavesAreReached(av: AnnotationValue, a: AnnotationMirror)
    ensures a in Leaves(av) <==> Reaches(av, a)
    decreases av, 1
  {
    match av
    case Annotation(b) =>
    case ArrayValue(vals) => LeavesOfReached(vals, a);
    case _ =>
  }

  lemma {:induction false} LeavesOfReached(vals: seq<AnnotationValue>, a: AnnotationMirror)
    ensures a in LeavesOf(vals) <==> exists i :: 0 <= i < |vals| && Reaches(vals[i], a)
    decreases vals, 0
  {
    if vals != [] {
      var last := |vals| - 1;
      var init := vals[..last];
      LeavesOfReached(init, a);
      LeavesAreReached(vals[last], a);
      if a in LeavesOf(vals) {
        if a in LeavesOf(init) {
          var i :| 0 <= i < |init| && Reaches(init[i], a);
          assert vals[i] == init[i];
        }
      }
      if exists i :: 0 <= i < |vals| && Reaches(vals[i], a) {
        var i :| 0 <= i < |vals| && Reaches(vals[i], a);
        if i < last {
          assert init[i] == vals[i];
        }
      }
    }
  }

  /** A value yields no occurrence exactly when it holds no annotation. */
  lemma {:induction false} NoLeavesWithoutAnnotation(av: AnnotationValue)
    ensures Leaves(av) == [] <==> !HoldsAnnotation(av)
    decreases av, 1
  {
    match av
    case Annotation(_) =>
    case ArrayValue(vals) => NoLeavesOfWithoutAnnotation(vals);
    case _ =>
  }

  lemma {:induction false} NoLeavesOfWithoutAnnotation(vals: seq<AnnotationValue>)
    ensures LeavesOf(vals) == [] <==> forall i :: 0 <= i < |vals| ==> !HoldsAnnotation(vals[i])
    decreases vals, 0
  {
    if vals != [] {
      var last := |vals| - 1;
      var init := vals[..last];
      NoLeavesOfWithoutAnnotation(init);
      NoLeavesWithoutAnnotation(vals[last]);
      if forall i :: 0 <= i < |vals| ==> !HoldsAnnotation(vals[i]) {
        forall i | 0 <= i < |init| ensures !HoldsAnnotation(init[i]) {
          assert init[i] == vals[i];
        }
      }
      if LeavesOf(vals) == [] {
        forall i | 0 <= i < |vals| ensures !HoldsAnnotation(vals[i]) {
          if i < last {
            assert vals[i] == init[i];
          }
        }
      }
    }
  }

  /**
   * The collection the visitor fills, java.util.Collection<AnnotationMirror>,
   * as the sequence of mirrors added to it.
   */
  class MirrorCollection {
    var items: seq<AnnotationMirror>

    constructor ()
      ensures items == []
    {
      items := [];
    }

    method Add(a: AnnotationMirror)
      modifies this
      ensures items == old(items) + [a]
    {
      items := items + [a];
    }
  }

  /** What a visit returns; every caller ignores it. */
  datatype VisitResult =
    | NullResult
    | CollectionResult                       // the collection p itself
    | ValueResult(value: AnnotationValue)
    | MirrorResult(mirror: AnnotationMirror)
    | ValuesResult(values: seq<AnnotationValue>)
    | StringResult(s: string)
    | TypeResult(t: TypeElement)
    | EnumResult(constant: string)

  /**
   * The visitor.  It has no state of its own: only the annotation and array
   * visits touch the collection `p`; the scalar visits have no `modifies`
   * clause, so `p` is unchanged by them.
   */
  class AnnotationMirrorResolveVisitor {

    constructor ()
    {
    }

    /** The generic entry point returns the value and leaves `p` alone. */
    method Visit(av: AnnotationValue, p: MirrorCollection) returns (r: VisitResult)
      ensures r == ValueResult(av)
    {
      r := ValueResult(av);
    }

    /** The entry point without a collection returns the value. */
    method VisitAlone(av: AnnotationValue) returns (r: VisitResult)
      ensures r == ValueResult(av)
    {
      r := ValueResult(av);
    }

    /** The eight primitive visits: boolean returns null, the others return `p`. */
    method VisitPrimitive(kind: PrimitiveKind, literal: string, p: MirrorCollection) returns (r: VisitResult)
      ensures r.NullResult? <==> kind == BOOLEAN
      ensures r.NullResult? || r.CollectionResult?
    {
      if kind == BOOLEAN {
        r := NullResult;
      } else {
        r := CollectionResult;
      }
    }

    method VisitString(s: string, p: MirrorCollection) returns (r: VisitResult)
      ensures r == StringResult(s)
    {
      r := StringResult(s);
    }

    method VisitType(t: TypeElement, p: MirrorCollection) returns (r: VisitResult)
      ensures r == TypeResult(t)
    {
      r := TypeResult(t);
    }

    method VisitEnumConstant(c: string, p: MirrorCollection) returns (r: VisitResult)
      ensures r == EnumResult(c)
    {
      r := EnumResult(c);
    }

    method VisitUnknown(av: AnnotationValue, p: MirrorCollection) returns (r: VisitResult)
      ensures r == ValueResult(av)
    {
      r := ValueResult(av);
    }

    /** An annotation leaf is added to `p` and returned. */
    method VisitAnnotation(a: AnnotationMirror, p: MirrorCollection) returns (r: VisitResult)
      modifies p
      ensures p.items == old(p.items) + [a]
      ensures r == MirrorResult(a)
    {
      p.Add(a);
      r := MirrorResult(a);
    }

    /** Every element of an array is visited in order with this visitor and the same `p`. */
    method VisitArray(vals: seq<AnnotationValue>, p: MirrorCollection) returns (r: VisitResult)
      modifies p
      ensures p.items == old(p.items) + LeavesOf(vals)
      ensures r == ValuesResult(vals)
      decreases vals
    {
      var i := 0;
      while i < |vals|
        invariant 0 <= i <= |vals|
        invariant p.items == old(p.items) + LeavesOf(vals[..i])
      {
        var _ := Accept(vals[i], p);
        assert vals[..i + 1][..i] == vals[..i];
        i := i + 1;
      }
      assert vals[..i] == vals;
      r := ValuesResult(vals);
    }

    /**
     * AnnotationValue.accept: dispatch on the kind of the value.  After it,
     * `p` has grown by exactly the value's annotation leaves, in order.
     */
    method Accept(av: AnnotationValue, p: MirrorCollection) returns (r: VisitResult)
      modifies p
      ensures p.items == old(p.items) + Leaves(av)
      decreases av
    {
      match av
      case PrimitiveValue(kind, literal) => r := VisitPrimitive(kind, literal, p);
      case StringValue(s) => r := VisitString(s, p);
      case TypeValue(t) => r := VisitType(t, p);
      case EnumConstant(c) => r := VisitEnumConstant(c, p);
      case Annotation(a) => r := VisitAnnotation(a, p);
      case ArrayValue(vals) => r := VisitArray(vals, p);
      case UnknownValue => r := VisitUnknown(av, p);
    }
  }
}
