/**
 * The rules the StaticFactoryMethod annotation processor enforces, as
 * functions from the checked elements to the diagnostics they produce, and
 * the properties of those rules.  The processor class in module Processor
 * appends exactly these diagnostics to its Messager.
 */
module ProcessorRules {
  import opened Wrappers
  import opened Elements
  import opened Annotation
  import opened ResolveVisitor
  import opened Sequences

  /** The rule a diagnostic reports; the message text is not modelled. */
  datatype Rule =
    | MethodNotPublic
    | MethodNotStatic
    | MethodReturnsVoid
    | ClassAbstract
    | ClassNotPublicInner
    | ReturnsNotSubtype
    | PredicateNotStaticInner
    | PredicateAbstract
    | PredicateInterface
    | PredicateNoDefaultConstructor

  /**
   * A message handed to the compiler's Messager: its kind, the element it is
   * attached to, the rule it reports and the names its text quotes, in order.
   */
  datatype Diagnostic = Diagnostic(kind: Kind, target: Element, rule: Rule, quoted: seq<string>)

  /** Types.isSubtype, which the model takes as given. */
  type SubtypeOracle = (TypeMirror, TypeMirror) -> bool

  /** The rules the messages of `d` report, in order. */
  function RulesOf(d: seq<Diagnostic>): seq<Rule>
  {
    seq(|d|, i requires 0 <= i < |d| => d[i].rule)
  }

  /** How many messages of `d` report rule `r`. */
  function Reported(d: seq<Diagnostic>, r: Rule): nat
  {
    multiset(RulesOf(d))[r]
  }

  lemma ReportedAppend(a: seq<Diagnostic>, b: seq<Diagnostic>, r: Rule)
    ensures Reported(a + b, r) == Reported(a, r) + Reported(b, r)
  {
    assert RulesOf(a + b) == RulesOf(a) + RulesOf(b);
  }


  /** The messages of the first `i` entries of a member list, extended by one entry. */
  lemma ValuesDiagnosticsStep(m: ExecutableElement, ms: seq<AnnotationMirror>, i: nat, isSubtype: SubtypeOracle)
    requires i < |ms|
    ensures ValuesDiagnostics(m, ms[..i + 1], isSubtype) ==
      ValuesDiagnostics(m, ms[..i], isSubtype) + EntriesDiagnostics(m, ms[i].elementValues, isSubtype)
  {
    assert ms[..i + 1][..i] == ms[..i];
  }

  /** The ERROR for rule `r` on `target` when the rule is broken, and nothing otherwise. */
  function Report(broken: bool, target: Element, r: Rule, quoted: seq<string>): seq<Diagnostic>
  {
    if broken then [Diagnostic(ERROR, target, r, quoted)] else []
  }

  /** A list of at most one message reports `r` once if its message does. */
  lemma ReportedShort(d: seq<Diagnostic>, r: Rule)
    requires |d| <= 1
    ensures Reported(d, r) == if d != [] && d[0].rule == r then 1 else 0
  {
    if d != [] {
      assert RulesOf(d) == [d[0].rule];
    }
  }

  /** Null-safe test that the element enclosing `t` is of the given kind. */
  predicate IsEnclosedByKind(t: TypeElement, kind: ElementKind): (r: bool)
    ensures r <==> t.enclosingKind == Some(kind)
  {
    t.enclosingKind == Some(kind)
  }

  // ---------------------------------------------------------------------
  // The method's signature

  /** A static factory method is public, static and returns a value. */
  predicate SignatureOk(m: ExecutableElement)
  {
    PUBLIC in m.modifiers && STATIC in m.modifiers && m.returnType.kind != VOID
  }

  /** Whether `m` breaks signature rule `r`. */
  predicate BreaksSignatureRule(m: ExecutableElement, r: Rule)
  {
    match r
    case MethodNotPublic => PUBLIC !in m.modifiers
    case MethodNotStatic => STATIC !in m.modifiers
    case MethodReturnsVoid => m.returnType.kind == VOID
    case _ => false
  }

  /** The messages of checkMethodSignature: one ERROR on the method per broken rule. */
  function SignatureDiagnostics(m: ExecutableElement): (d: seq<Diagnostic>)
    ensures forall i :: 0 <= i < |d| ==> d[i].kind == ERROR && d[i].target == MethodElement(m)
    ensures forall i :: 0 <= i < |d| && d[i].rule != MethodReturnsVoid ==> d[i].quoted == [m.simpleName]
    ensures d == [] <==> SignatureOk(m)
  {
    Report(BreaksSignatureRule(m, MethodNotPublic), MethodElement(m), MethodNotPublic, [m.simpleName]) +
    Report(BreaksSignatureRule(m, MethodNotStatic), MethodElement(m), MethodNotStatic, [m.simpleName]) +
    Report(BreaksSignatureRule(m, MethodReturnsVoid), MethodElement(m), MethodReturnsVoid, [])
  }

  /** checkMethodSignature reports each broken rule exactly once and no other rule. */
  lemma SignatureReportsEachBrokenRuleOnce(m: ExecutableElement, r: Rule)
    ensures Reported(SignatureDiagnostics(m), r) == if BreaksSignatureRule(m, r) then 1 else 0
  {
    var notPublic := Report(BreaksSignatureRule(m, MethodNotPublic), MethodElement(m), MethodNotPublic, [m.simpleName]);
    var notStatic := Report(BreaksSignatureRule(m, MethodNotStatic), MethodElement(m), MethodNotStatic, [m.simpleName]);
    var void := Report(BreaksSignatureRule(m, MethodReturnsVoid), MethodElement(m), MethodReturnsVoid, []);
    ReportedAppend(notPublic + notStatic, void, r);
    ReportedAppend(notPublic, notStatic, r);
    ReportedShort(notPublic, r);
    ReportedShort(notStatic, r);
    ReportedShort(void, r);
  }

  // ---------------------------------------------------------------------
  // The class enclosing the method

  /** The enclosing class is concrete and, when nested in a class, public. */
  predicate EnclosingClassOk(c: TypeElement)
  {
    ABSTRACT !in c.modifiers && (!IsEnclosedByKind(c, CLASS) || PUBLIC in c.modifiers)
  }

  /** Whether `c` breaks enclosing-class rule `r`. */
  predicate BreaksEnclosingClassRule(c: TypeElement, r: Rule)
  {
    match r
    case ClassAbstract => ABSTRACT in c.modifiers
    case ClassNotPublicInner => IsEnclosedByKind(c, CLASS) && PUBLIC !in c.modifiers
    case _ => false
  }

  /** The messages of checkEnclosingClass: ERRORs on the class that name the method. */
  function EnclosingClassDiagnostics(c: TypeElement, m: ExecutableElement): (d: seq<Diagnostic>)
    ensures forall i :: 0 <= i < |d| ==> d[i].kind == ERROR && d[i].target == ClassElement(c)
    ensures forall i :: 0 <= i < |d| ==> d[i].quoted == [m.simpleName]
    ensures d == [] <==> EnclosingClassOk(c)
  {
    Report(BreaksEnclosingClassRule(c, ClassAbstract), ClassElement(c), ClassAbstract, [m.simpleName]) +
    Report(BreaksEnclosingClassRule(c, ClassNotPublicInner), ClassElement(c), ClassNotPublicInner, [m.simpleName])
  }

  /** checkEnclosingClass reports each broken rule exactly once and no other rule. */
  lemma EnclosingClassReportsEachBrokenRuleOnce(c: TypeElement, m: ExecutableElement, r: Rule)
    ensures Reported(EnclosingClassDiagnostics(c, m), r) == if BreaksEnclosingClassRule(c, r) then 1 else 0
  {
    var isAbstract := Report(BreaksEnclosingClassRule(c, ClassAbstract), ClassElement(c), ClassAbstract, [m.simpleName]);
    var inner := Report(BreaksEnclosingClassRule(c, ClassNotPublicInner), ClassElement(c), ClassNotPublicInner, [m.simpleName]);
    ReportedAppend(isAbstract, inner, r);
    ReportedShort(isAbstract, r);
    ReportedShort(inner, r);
  }

  // ---------------------------------------------------------------------
  // The predicate class named in the annotation

  /** Some declared constructor takes no argument; its visibility is not looked at. */
  predicate HasNoArgumentConstructor(p: TypeElement)
  {
    exists k :: 0 <= k < |p.constructors| && p.constructors[k].parameterCount == 0
  }

  /** The predicate class can be instantiated reflectively as the processor understands it. */
  predicate PredicateOk(p: TypeElement)
  {
    (!IsEnclosedByKind(p, CLASS) || STATIC in p.modifiers) &&
    ABSTRACT !in p.modifiers &&
    p.kind != INTERFACE &&
    HasNoArgumentConstructor(p)
  }

  /** Whether `p` breaks predicate rule `r`. */
  predicate BreaksPredicateRule(p: TypeElement, r: Rule)
  {
    match r
    case PredicateNotStaticInner => IsEnclosedByKind(p, CLASS) && STATIC !in p.modifiers
    case PredicateAbstract => ABSTRACT in p.modifiers
    case PredicateInterface => p.kind == INTERFACE
    case PredicateNoDefaultConstructor => !HasNoArgumentConstructor(p)
    case _ => false
  }

  function PredicateReport(m: ExecutableElement, p: TypeElement, r: Rule): seq<Diagnostic>
  {
    Report(BreaksPredicateRule(p, r), MethodElement(m), r, [p.simpleName, m.simpleName])
  }

  /** A predicate-class check prints its message only when its rule is broken, extending the log by the rule's report. */
  lemma PredicateReportAppended(log: seq<Diagnostic>, before: seq<Diagnostic>, m: ExecutableElement, p: TypeElement, r: Rule)
    ensures log + (before + PredicateReport(m, p, r)) ==
      if BreaksPredicateRule(p, r) then log + before + [Diagnostic(ERROR, MethodElement(m), r, [p.simpleName, m.simpleName])]
      else log + before
  {
    AppendAssociative(log, before, PredicateReport(m, p, r));
    AppendNothing(log + before);
  }

  /** The messages of checkPredicate: ERRORs on the method that name the predicate and the method. */
  function PredicateDiagnostics(m: ExecutableElement, p: TypeElement): (d: seq<Diagnostic>)
    ensures forall i :: 0 <= i < |d| ==> d[i].kind == ERROR && d[i].target == MethodElement(m)
    ensures forall i :: 0 <= i < |d| ==> d[i].quoted == [p.simpleName, m.simpleName]
    ensures d == [] <==> PredicateOk(p)
  {
    PredicateReport(m, p, PredicateNotStaticInner) +
    PredicateReport(m, p, PredicateAbstract) +
    PredicateReport(m, p, PredicateInterface) +
    PredicateReport(m, p, PredicateNoDefaultConstructor)
  }

  /** checkPredicate reports each broken rule exactly once, independently of the others, and no other rule. */
  lemma PredicateReportsEachBrokenRuleOnce(m: ExecutableElement, p: TypeElement, r: Rule)
    ensures Reported(PredicateDiagnostics(m, p), r) == if BreaksPredicateRule(p, r) then 1 else 0
  {
    var inner := PredicateReport(m, p, PredicateNotStaticInner);
    var isAbstract := PredicateReport(m, p, PredicateAbstract);
    var iface := PredicateReport(m, p, PredicateInterface);
    var noDefault := PredicateReport(m, p, PredicateNoDefaultConstructor);
    ReportedAppend(inner + isAbstract + iface, noDefault, r);
    ReportedAppend(inner + isAbstract, iface, r);
    ReportedAppend(inner, isAbstract, r);
    PredicateReportReported(m, p, PredicateNotStaticInner, r);
    PredicateReportReported(m, p, PredicateAbstract, r);
    PredicateReportReported(m, p, PredicateInterface, r);
    PredicateReportReported(m, p, PredicateNoDefaultConstructor, r);
  }

  lemma PredicateReportReported(m: ExecutableElement, p: TypeElement, q: Rule, r: Rule)
    ensures Reported(PredicateReport(m, p, q), r) == if q == r && BreaksPredicateRule(p, q) then 1 else 0
  {
    ReportedShort(PredicateReport(m, p, q), r);
  }

  /** Only the parameter counts of the constructors matter, not their modifiers. */
  lemma PredicateConstructorVisibilityIgnored(m: ExecutableElement, p: TypeElement, q: TypeElement)
    requires q == p.(constructors := q.constructors)
    requires |q.constructors| == |p.constructors|
    requires forall k :: 0 <= k < |p.constructors| ==> q.constructors[k].parameterCount == p.constructors[k].parameterCount
    ensures PredicateDiagnostics(m, q) == PredicateDiagnostics(m, p)
  {
    if HasNoArgumentConstructor(p) {
      var k :| 0 <= k < |p.constructors| && p.constructors[k].parameterCount == 0;
      assert q.constructors[k].parameterCount == 0;
    }
    if HasNoArgumentConstructor(q) {
      var k :| 0 <= k < |q.constructors| && q.constructors[k].parameterCount == 0;
      assert p.constructors[k].parameterCount == 0;
    }
  }

  // ---------------------------------------------------------------------
  // The values written in one annotation occurrence

  /** The message `returns` produces when its class is not a subtype of the method's return type. */
  function ReturnsWarning(m: ExecutableElement, t: TypeElement): Diagnostic
  {
    Diagnostic(MANDATORY_WARNING, MethodElement(m), ReturnsNotSubtype, [AsType(t).name, m.returnType.name])
  }

  /** The messages one member of an occurrence produces. */
  function EntryDiagnostics(m: ExecutableElement, e: ElementValue, isSubtype: SubtypeOracle): seq<Diagnostic>
  {
    match e.value
    case TypeValue(t) =>
      (if e.key == RETURNS_MEMBER && !isSubtype(AsType(t), m.returnType) then [ReturnsWarning(m, t)] else []) +
      (if e.key == PREDICATE_MEMBER then PredicateDiagnostics(m, t) else [])
    case _ => []
  }

  /** A member passes: `returns` names a subtype of the return type, `predicate` a usable class. */
  predicate EntryOk(m: ExecutableElement, e: ElementValue, isSubtype: SubtypeOracle)
  {
    e.value.TypeValue? ==>
      (e.key == RETURNS_MEMBER ==> isSubtype(AsType(e.value.t), m.returnType)) &&
      (e.key == PREDICATE_MEMBER ==> PredicateOk(e.value.t))
  }

  /** The messages of processAnnotationMirror: every member is checked, in order. */
  function EntriesDiagnostics(m: ExecutableElement, es: seq<ElementValue>, isSubtype: SubtypeOracle): seq<Diagnostic>
  {
    if es == [] then []
    else EntriesDiagnostics(m, es[..|es| - 1], isSubtype) + EntryDiagnostics(m, es[|es| - 1], isSubtype)
  }

  predicate MirrorOk(m: ExecutableElement, a: AnnotationMirror, isSubtype: SubtypeOracle)
  {
    forall i :: 0 <= i < |a.elementValues| ==> EntryOk(m, a.elementValues[i], isSubtype)
  }

  lemma {:induction false} EntriesDiagnosticsEmptyIff(m: ExecutableElement, es: seq<ElementValue>, isSubtype: SubtypeOracle)
    ensures EntriesDiagnostics(m, es, isSubtype) == [] <==> forall i :: 0 <= i < |es| ==> EntryOk(m, es[i], isSubtype)
  {
    if es != [] {
      var init := es[..|es| - 1];
      EntriesDiagnosticsEmptyIff(m, init, isSubtype);
      assert forall i :: 0 <= i < |init| ==> init[i] == es[i];
    }
  }

  /** An occurrence produces no message exactly when each of its members passes. */
  lemma MirrorDiagnosticsEmptyIff(m: ExecutableElement, a: AnnotationMirror, isSubtype: SubtypeOracle)
    ensures EntriesDiagnostics(m, a.elementValues, isSubtype) == [] <==> MirrorOk(m, a, isSubtype)
  {
    EntriesDiagnosticsEmptyIff(m, a.elementValues, isSubtype);
  }

  /** The `returns` check does not stop the `predicate` check: each member's messages all appear. */
  lemma {:induction false} EveryEntryIsChecked(m: ExecutableElement, es: seq<ElementValue>, i: nat, isSubtype: SubtypeOracle)
    requires i < |es|
    ensures multiset(EntryDiagnostics(m, es[i], isSubtype)) <= multiset(EntriesDiagnostics(m, es, isSubtype))
  {
    var init := es[..|es| - 1];
    if i < |es| - 1 {
      EveryEntryIsChecked(m, init, i, isSubtype);
      assert init[i] == es[i];
    }
  }

  /**
   * A `returns` class that is not a subtype of the method's return type
   * produces a MANDATORY_WARNING on the method and fails the occurrence.
   */
  lemma ReturnsMismatchWarnsAndFails(m: ExecutableElement, a: AnnotationMirror, i: nat, isSubtype: SubtypeOracle)
    requires i < |a.elementValues|
    requires a.elementValues[i].key == RETURNS_MEMBER && a.elementValues[i].value.TypeValue?
    requires !isSubtype(AsType(a.elementValues[i].value.t), m.returnType)
    ensures ReturnsWarning(m, a.elementValues[i].value.t) in EntriesDiagnostics(m, a.elementValues, isSubtype)
    ensures !MirrorOk(m, a, isSubtype)
  {
    var e := a.elementValues[i];
    assert EntryDiagnostics(m, e, isSubtype)[0] == ReturnsWarning(m, e.value.t);
    EveryEntryIsChecked(m, a.elementValues, i, isSubtype);
    assert ReturnsWarning(m, e.value.t) in multiset(EntriesDiagnostics(m, a.elementValues, isSubtype));
  }

  // ---------------------------------------------------------------------
  // All occurrences of the annotation on a method

  /**
   * The StaticFactoryMethod occurrences a written annotation stands for: the
   * annotation itself, the leaves of the container's values, or nothing.
   */
  function MirrorsFrom(a: AnnotationMirror): seq<AnnotationMirror>
  {
    if a.annotationType == CONTAINER_ANNOTATION_NAME then ValueLeaves(a.elementValues)
    else if a.annotationType == SINGLE_ANNOTATION_NAME then [a]
    else []
  }

  /** The leaves of the members' values, member after member. */
  function ValueLeaves(es: seq<ElementValue>): seq<AnnotationMirror>
  {
    if es == [] then [] else ValueLeaves(es[..|es| - 1]) + Leaves(es[|es| - 1].value)
  }

  /** What getAnnotationMirrors collects from the annotations written on a method, in order. */
  function AnnotationMirrorsOf(ms: seq<AnnotationMirror>): seq<AnnotationMirror>
  {
    if ms == [] then [] else AnnotationMirrorsOf(ms[..|ms| - 1]) + MirrorsFrom(ms[|ms| - 1])
  }

  /** `a` is the annotation `x` written directly, or is reached inside one of the values of the container `x`. */
  predicate DeclaredBy(x: AnnotationMirror, a: AnnotationMirror)
  {
    (x.annotationType == SINGLE_ANNOTATION_NAME && x == a) ||
    (x.annotationType == CONTAINER_ANNOTATION_NAME &&
     exists j :: 0 <= j < |x.elementValues| && Reaches(x.elementValues[j].value, a))
  }

  /** `a` is written on the method, or reached inside one of the container's values. */
  predicate Declares(ms: seq<AnnotationMirror>, a: AnnotationMirror)
  {
    exists i :: 0 <= i < |ms| && DeclaredBy(ms[i], a)
  }

  lemma {:induction false} ValueLeavesReached(es: seq<ElementValue>, a: AnnotationMirror)
    ensures a in ValueLeaves(es) <==> exists j :: 0 <= j < |es| && Reaches(es[j].value, a)
  {
    if es != [] {
      var last := |es| - 1;
      var init := es[..last];
      ValueLeavesReached(init, a);
      LeavesAreReached(es[last].value, a);
      if a in ValueLeaves(init) {
        var j :| 0 <= j < |init| && Reaches(init[j].value, a);
        assert es[j] == init[j];
      }
      if exists j :: 0 <= j < |es| && Reaches(es[j].value, a) {
        var j :| 0 <= j < |es| && Reaches(es[j].value, a);
        if j < last {
          assert init[j] == es[j];
        }
      }
    }
  }

  /** getAnnotationMirrors collects exactly the occurrences the method declares, directly or in the container. */
  lemma {:induction false} AnnotationMirrorsOfDeclared(ms: seq<AnnotationMirror>, a: AnnotationMirror)
    ensures a in AnnotationMirrorsOf(ms) <==> Declares(ms, a)
  {
    if ms != [] {
      var last := |ms| - 1;
      var init := ms[..last];
      AnnotationMirrorsOfDeclared(init, a);
      MirrorsFromDeclared(ms[last], a);
      DeclaresStep(ms, a);
    }
  }

  /** The occurrences one written annotation contributes are exactly those it declares. */
  lemma MirrorsFromDeclared(x: AnnotationMirror, a: AnnotationMirror)
    ensures a in MirrorsFrom(x) <==> DeclaredBy(x, a)
  {
    ValueLeavesReached(x.elementValues, a);
  }

  /** Declaring over a non-empty list splits into the list without its last annotation, and the last one. */
  lemma DeclaresStep(ms: seq<AnnotationMirror>, a: AnnotationMirror)
    requires ms != []
    ensures Declares(ms, a) <==> Declares(ms[..|ms| - 1], a) || DeclaredBy(ms[|ms| - 1], a)
  {
    var init := ms[..|ms| - 1];
    if Declares(init, a) {
      var i :| 0 <= i < |init| && DeclaredBy(init[i], a);
      assert ms[i] == init[i];
    }
    if Declares(ms, a) {
      var i :| 0 <= i < |ms| && DeclaredBy(ms[i], a);
      if i < |init| {
        assert init[i] == ms[i];
      }
    }
  }

  /** A container whose values hold no annotation contributes no occurrence. */
  lemma {:induction false} ContainerWithoutAnnotationsYieldsNothing(es: seq<ElementValue>)
    requires forall j :: 0 <= j < |es| ==> !HoldsAnnotation(es[j].value)
    ensures ValueLeaves(es) == []
  {
    if es != [] {
      var init := es[..|es| - 1];
      assert forall j :: 0 <= j < |init| ==> init[j] == es[j];
      ContainerWithoutAnnotationsYieldsNothing(init);
      NoLeavesWithoutAnnotation(es[|es| - 1].value);
    }
  }

  /** The messages of checkAnnotationValues: every occurrence is processed (non-short-circuit `&`). */
  function ValuesDiagnostics(m: ExecutableElement, ms: seq<AnnotationMirror>, isSubtype: SubtypeOracle): seq<Diagnostic>
  {
    if ms == [] then []
    else ValuesDiagnostics(m, ms[..|ms| - 1], isSubtype) + EntriesDiagnostics(m, ms[|ms| - 1].elementValues, isSubtype)
  }

  predicate ValuesOk(m: ExecutableElement, ms: seq<AnnotationMirror>, isSubtype: SubtypeOracle)
  {
    forall i :: 0 <= i < |ms| ==> MirrorOk(m, ms[i], isSubtype)
  }

  /** Extending the checked prefix by one member adds that member's verdict. */
  lemma EntriesOkStep(m: ExecutableElement, es: seq<ElementValue>, i: nat, isSubtype: SubtypeOracle)
    requires i < |es|
    ensures (forall k :: 0 <= k < i + 1 ==> EntryOk(m, es[k], isSubtype)) <==>
      (forall k :: 0 <= k < i ==> EntryOk(m, es[k], isSubtype)) && EntryOk(m, es[i], isSubtype)
  {
  }

  /** Extending the checked prefix by one occurrence adds that occurrence's verdict. */
  lemma ValuesOkStep(m: ExecutableElement, ms: seq<AnnotationMirror>, i: nat, isSubtype: SubtypeOracle)
    requires i < |ms|
    ensures ValuesOk(m, ms[..i + 1], isSubtype) <==> ValuesOk(m, ms[..i], isSubtype) && MirrorOk(m, ms[i], isSubtype)
  {
    assert forall k :: 0 <= k < i ==> ms[..i + 1][k] == ms[..i][k];
    assert ms[..i + 1][i] == ms[i];
  }

  lemma {:induction false} ValuesDiagnosticsEmptyIff(m: ExecutableElement, ms: seq<AnnotationMirror>, isSubtype: SubtypeOracle)
    ensures ValuesDiagnostics(m, ms, isSubtype) == [] <==> ValuesOk(m, ms, isSubtype)
  {
    if ms != [] {
      var init := ms[..|ms| - 1];
      ValuesDiagnosticsEmptyIff(m, init, isSubtype);
      MirrorDiagnosticsEmptyIff(m, ms[|ms| - 1], isSubtype);
      assert forall i :: 0 <= i < |init| ==> init[i] == ms[i];
    }
  }

  /** A failing occurrence does not stop the later ones: each occurrence's messages all appear. */
  lemma {:induction false} EveryMirrorIsChecked(m: ExecutableElement, ms: seq<AnnotationMirror>, i: nat, isSubtype: SubtypeOracle)
    requires i < |ms|
    ensures multiset(EntriesDiagnostics(m, ms[i].elementValues, isSubtype)) <= multiset(ValuesDiagnostics(m, ms, isSubtype))
  {
    var init := ms[..|ms| - 1];
    if i < |ms| - 1 {
      EveryMirrorIsChecked(m, init, i, isSubtype);
      assert init[i] == ms[i];
    }
  }

  // ---------------------------------------------------------------------
  // One annotated method

  /** The three checks of handleProcess all pass. */
  predicate Accepts(m: ExecutableElement, isSubtype: SubtypeOracle)
  {
    SignatureOk(m) && EnclosingClassOk(m.enclosing) &&
    ValuesOk(m, AnnotationMirrorsOf(m.annotationMirrors), isSubtype)
  }

  /** The messages of the three checks joined by `&&`: a failing check stops the later ones. */
  function MethodDiagnostics(m: ExecutableElement, isSubtype: SubtypeOracle): seq<Diagnostic>
  {
    if !SignatureOk(m) then SignatureDiagnostics(m)
    else if !EnclosingClassOk(m.enclosing) then EnclosingClassDiagnostics(m.enclosing, m)
    else ValuesDiagnostics(m, AnnotationMirrorsOf(m.annotationMirrors), isSubtype)
  }

  /** A method is accepted exactly when checking it produces no message at all. */
  lemma MethodDiagnosticsEmptyIff(m: ExecutableElement, isSubtype: SubtypeOracle)
    ensures MethodDiagnostics(m, isSubtype) == [] <==> Accepts(m, isSubtype)
  {
    ValuesDiagnosticsEmptyIff(m, AnnotationMirrorsOf(m.annotationMirrors), isSubtype);
  }

  /** After a signature failure only signature ERRORs on the method are reported. */
  lemma SignatureFailureStopsChecks(m: ExecutableElement, isSubtype: SubtypeOracle)
    requires !SignatureOk(m)
    ensures var d := MethodDiagnostics(m, isSubtype);
      d != [] &&
      forall i :: 0 <= i < |d| ==>
        d[i].kind == ERROR && d[i].target == MethodElement(m) &&
        d[i].rule in {MethodNotPublic, MethodNotStatic, MethodReturnsVoid}
  {
  }

  /** After an enclosing-class failure only ERRORs on that class are reported, and no value is checked. */
  lemma EnclosingFailureStopsChecks(m: ExecutableElement, isSubtype: SubtypeOracle)
    requires SignatureOk(m) && !EnclosingClassOk(m.enclosing)
    ensures var d := MethodDiagnostics(m, isSubtype);
      d != [] && forall i :: 0 <= i < |d| ==> d[i].kind == ERROR && d[i].target == ClassElement(m.enclosing)
  {
  }

  /**
   * A `returns` mismatch in any occurrence keeps the method out, although its
   * message is only a MANDATORY_WARNING; the warning is reported when the
   * signature and enclosing-class checks pass.
   */
  lemma ReturnsMismatchRejectsMethod(m: ExecutableElement, k: nat, i: nat, isSubtype: SubtypeOracle)
    requires k < |AnnotationMirrorsOf(m.annotationMirrors)|
    requires var a := AnnotationMirrorsOf(m.annotationMirrors)[k];
      i < |a.elementValues| && a.elementValues[i].key == RETURNS_MEMBER && a.elementValues[i].value.TypeValue? &&
      !isSubtype(AsType(a.elementValues[i].value.t), m.returnType)
    ensures !Accepts(m, isSubtype)
    ensures SignatureOk(m) && EnclosingClassOk(m.enclosing) ==>
      var t := AnnotationMirrorsOf(m.annotationMirrors)[k].elementValues[i].value.t;
      ReturnsWarning(m, t) in MethodDiagnostics(m, isSubtype) && ReturnsWarning(m, t).kind == MANDATORY_WARNING
  {
    var ms := AnnotationMirrorsOf(m.annotationMirrors);
    ReturnsMismatchWarnsAndFails(m, ms[k], i, isSubtype);
    var t := ms[k].elementValues[i].value.t;
    EveryMirrorIsChecked(m, ms, k, isSubtype);
    assert ReturnsWarning(m, t) in multiset(ValuesDiagnostics(m, ms, isSubtype));
  }

  // ---------------------------------------------------------------------
  // One processing round

  /** A method handleProcess registers: it carries an annotation instance and is accepted. */
  predicate Passes(m: ExecutableElement, isSubtype: SubtypeOracle)
  {
    m.annotationsByType > 0 && Accepts(m, isSubtype)
  }

  /** The messages for one element of the round; one with no annotation instance is skipped. */
  function HandledDiagnostics(m: ExecutableElement, isSubtype: SubtypeOracle): seq<Diagnostic>
  {
    if m.annotationsByType == 0 then [] else MethodDiagnostics(m, isSubtype)
  }

  /** The four ways handling one element can go: skipped, or stopped by one of the three checks in turn. */
  lemma HandledDiagnosticsCases(m: ExecutableElement, isSubtype: SubtypeOracle)
    ensures m.annotationsByType == 0 ==>
      HandledDiagnostics(m, isSubtype) == [] && !Passes(m, isSubtype)
    ensures m.annotationsByType > 0 && !SignatureOk(m) ==>
      HandledDiagnostics(m, isSubtype) == SignatureDiagnostics(m) && !Passes(m, isSubtype)
    ensures m.annotationsByType > 0 && SignatureOk(m) && !EnclosingClassOk(m.enclosing) ==>
      HandledDiagnostics(m, isSubtype) == EnclosingClassDiagnostics(m.enclosing, m) && !Passes(m, isSubtype)
    ensures m.annotationsByType > 0 && SignatureOk(m) && EnclosingClassOk(m.enclosing) ==>
      HandledDiagnostics(m, isSubtype) == ValuesDiagnostics(m, AnnotationMirrorsOf(m.annotationMirrors), isSubtype) &&
      (Passes(m, isSubtype) <==> ValuesOk(m, AnnotationMirrorsOf(m.annotationMirrors), isSubtype))
  {
  }

  /** The messages of a round, the elements taken in the given order. */
  function RoundDiagnostics(order: seq<ExecutableElement>, isSubtype: SubtypeOracle): seq<Diagnostic>
  {
    if order == [] then []
    else RoundDiagnostics(order[..|order| - 1], isSubtype) + HandledDiagnostics(order[|order| - 1], isSubtype)
  }

  /** The binary names of the classes enclosing the passing methods of `ms`. */
  function AcceptedClasses(ms: set<ExecutableElement>, isSubtype: SubtypeOracle): set<string>
  {
    set m | m in ms && Passes(m, isSubtype) :: m.enclosing.binaryName
  }

  /** Adding one method to those already handled adds its class exactly when it passes. */
  lemma AcceptedClassesAdd(ms: set<ExecutableElement>, m: ExecutableElement, isSubtype: SubtypeOracle)
    ensures AcceptedClasses(ms + {m}, isSubtype) ==
      AcceptedClasses(ms, isSubtype) + (if Passes(m, isSubtype) then {m.enclosing.binaryName} else {})
  {
  }

  /** Some method of `ms` passes: what handleProcess returns. */
  predicate SomePasses(ms: set<ExecutableElement>, isSubtype: SubtypeOracle)
  {
    exists m :: m in ms && Passes(m, isSubtype)
  }

  /** Handling one more method makes the result true exactly when that method passes. */
  lemma SomePassesAdd(ms: set<ExecutableElement>, m: ExecutableElement, isSubtype: SubtypeOracle)
    ensures SomePasses(ms + {m}, isSubtype) <==> SomePasses(ms, isSubtype) || Passes(m, isSubtype)
  {
    if SomePasses(ms + {m}, isSubtype) && !Passes(m, isSubtype) {
      var x :| x in ms + {m} && Passes(x, isSubtype);
      assert x in ms;
    }
  }

  /** `order` lists every element of `s` once and nothing else. */
  predicate Enumerates(order: seq<ExecutableElement>, s: set<ExecutableElement>)
  {
    (forall x :: x in order ==> x in s) && (forall x :: x in s ==> x in order) &&
    (forall i, j :: 0 <= i < j < |order| ==> order[i] != order[j])
  }

  /** Appending an element not yet listed keeps the enumeration exact. */
  lemma EnumeratesAdd(order: seq<ExecutableElement>, s: set<ExecutableElement>, m: ExecutableElement)
    requires Enumerates(order, s) && m !in s
    ensures Enumerates(order + [m], s + {m})
  {
    var next := order + [m];
    forall i, j | 0 <= i < j < |next|
      ensures next[i] != next[j]
    {
      if j < |order| {
        assert next[i] == order[i] && next[j] == order[j];
      } else {
        assert next[i] == order[i] && order[i] in s;
      }
    }
  }

  /**
   * What the loop of handleProcess keeps: `done` are the elements handled,
   * listed once each by `order`; the log and the class set have grown by
   * their messages and their passing classes; the result tells whether one
   * of them passed.
   */
  ghost predicate RoundInvariant(coll: set<ExecutableElement>, remaining: set<ExecutableElement>,
                                 done: set<ExecutableElement>, order: seq<ExecutableElement>,
                                 log0: seq<Diagnostic>, log: seq<Diagnostic>,
                                 classes0: set<string>, classes: set<string>, ret: bool, isSubtype: SubtypeOracle)
  {
    done <= coll && remaining == coll - done && Enumerates(order, done) &&
    log == log0 + RoundDiagnostics(order, isSubtype) &&
    classes == classes0 + AcceptedClasses(done, isSubtype) &&
    (ret <==> SomePasses(done, isSubtype))
  }

  /** Handling one remaining element as handleProcess does keeps RoundInvariant. */
  lemma RoundInvariantStep(coll: set<ExecutableElement>, remaining: set<ExecutableElement>,
                           done: set<ExecutableElement>, order: seq<ExecutableElement>,
                           log0: seq<Diagnostic>, log: seq<Diagnostic>,
                           classes0: set<string>, classes: set<string>, ret: bool, isSubtype: SubtypeOracle,
                           m: ExecutableElement, ok: bool, nextLog: seq<Diagnostic>, nextClasses: set<string>)
    requires RoundInvariant(coll, remaining, done, order, log0, log, classes0, classes, ret, isSubtype)
    requires m in remaining
    requires ok <==> Passes(m, isSubtype)
    requires nextLog == log + HandledDiagnostics(m, isSubtype)
    requires nextClasses == classes + (if ok then {m.enclosing.binaryName} else {})
    ensures RoundInvariant(coll, remaining - {m}, done + {m}, order + [m], log0, nextLog,
                           classes0, nextClasses, ret || ok, isSubtype)
  {
    EnumeratesAdd(order, done, m);
    SomePassesAdd(done, m, isSubtype);
    ClassesStep(classes0, done, m, isSubtype);
    LogStep(log0, order, m, isSubtype);
    assert done + {m} <= coll && remaining - {m} == coll - (done + {m});
  }

  lemma LogStep(log0: seq<Diagnostic>, order: seq<ExecutableElement>, m: ExecutableElement, isSubtype: SubtypeOracle)
    ensures log0 + RoundDiagnostics(order + [m], isSubtype) ==
      log0 + RoundDiagnostics(order, isSubtype) + HandledDiagnostics(m, isSubtype)
  {
    assert (order + [m])[..|order|] == order;
    AppendAssociative(log0, RoundDiagnostics(order, isSubtype), HandledDiagnostics(m, isSubtype));
  }

  lemma ClassesStep(classes0: set<string>, done: set<ExecutableElement>, m: ExecutableElement, isSubtype: SubtypeOracle)
    ensures classes0 + AcceptedClasses(done + {m}, isSubtype) ==
      classes0 + AcceptedClasses(done, isSubtype) + (if Passes(m, isSubtype) then {m.enclosing.binaryName} else {})
  {
    AcceptedClassesAdd(done, m, isSubtype);
  }
}
