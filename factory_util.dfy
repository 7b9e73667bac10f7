/**
 * The runtime half of the library: the registry of static factory methods
 * read from the services resource, and the rule by which `getObject`
 * picks one of them and invokes it.
 *
 * Java reflection is replaced by records: a loaded class is a `ClassInfo`,
 * a `java.lang.reflect.Method` is a `ReflectMethod`, and the calls whose
 * behaviour lies outside the library (`Class.isAssignableFrom`,
 * `Predicate.test`, `Method.invoke`) are functions held by a `Runtime`.
 */
module FactoryUtil {
  import opened Wrappers
  import opened Annotation
  import opened Sequences

  /** A Java reference: `null` or an object of some class. */
  datatype Value = Null | Ref(cls: ClassName, id: nat)

  /** How a method carries StaticFactoryMethod in its class file. */
  datatype AnnotationUse =
    | NotAnnotated
      /** Written once: stored as the annotation itself. */
    | Direct(annotation: StaticFactoryMethod)
      /** Written several times: stored inside the StaticFactoryMethods container. */
    | Repeated(occurrences: seq<StaticFactoryMethod>)

  datatype ReflectMethod = ReflectMethod(
    name: string,
    isPublic: bool,
    isStatic: bool,
    synthetic: bool,
    returnType: ClassName,
    parameterTypes: seq<ClassName>,
    annotations: AnnotationUse)

  /**
   * What reflection reveals about a loaded class: its declared methods,
   * its public methods (`getMethods`), whether `newInstance` succeeds and
   * whether `getDeclaredMethods` is refused by a security manager.
   */
  datatype ClassInfo = ClassInfo(
    declaredMethods: seq<ReflectMethod>,
    publicMethods: seq<ReflectMethod>,
    instantiable: bool,
    securityRestricted: bool)

  /** A method together with the class declaring it. */
  datatype MethodRef = MethodRef(declaringClass: ClassName, member: ReflectMethod)

  /** The outcome of `Method.invoke`. */
  datatype Invocation = Returned(value: Value) | IllegalAccess | IllegalArgument | InvocationTarget

  /**
   * The unchecked exceptions that end getObject: those canUsePredicate
   * raises itself, and ClassCastException, which a predicate's `test` bridge
   * throws when an overload accepted an input its declared type does not.
   */
  datatype Exception = NullPointerException | ArrayIndexOutOfBoundsException | ClassCastException

  /**
   * The environment at run time. `servicesResource` is None when the
   * services file is absent, otherwise the keys read from it. Those are
   * the key set of a `Properties` object, so they hold no duplicates; the
   * model does not require this, and a repeated key registers its class
   * again. `classes` holds the classes `Class.forName` can load. `test`
   * is `Predicate.test`, which may throw.
   */
  datatype Runtime = Runtime(
    servicesResource: Option<seq<ClassName>>,
    classes: map<ClassName, ClassInfo>,
    isAssignableFrom: (ClassName, ClassName) -> bool,
    test: (ClassName, Value) -> Result<bool, Exception>,
    invoke: (MethodRef, seq<Value>) -> Invocation)

  /** A created predicate: its class and that class's public methods. */
  datatype PredicateObject = PredicateObject(cls: ClassName, methods: seq<ReflectMethod>)

  /** One registered use of a factory method, one per annotation occurrence. */
  datatype MethodMetaData = MethodMetaData(
    reflected: MethodRef,
    methodReturnType: ClassName,
    annotatedReturnType: Option<ClassName>,
    checkPredicate: Option<PredicateObject>)

  /*
   * Reading annotations reflectively
   */

  /** `getAnnotation(StaticFactoryMethod.class)`: does not look inside the container. */
  function GetAnnotation(m: ReflectMethod): Option<StaticFactoryMethod>
  {
    if m.annotations.Direct? then Some(m.annotations.annotation) else None
  }

  /** `getAnnotationsByType(StaticFactoryMethod.class)`: looks inside the container. */
  function AnnotationsByType(m: ReflectMethod): seq<StaticFactoryMethod>
  {
    match m.annotations
    case NotAnnotated => []
    case Direct(a) => [a]
    case Repeated(occurrences) => occurrences
  }

  /** Whatever its form, an annotated method has occurrences, and only an annotated one. */
  lemma AnnotatedHasOccurrences(m: ReflectMethod)
    requires !m.annotations.Repeated? || m.annotations.occurrences != []
    ensures AnnotationsByType(m) != [] <==> !m.annotations.NotAnnotated?
    ensures GetAnnotation(m).Some? ==> AnnotationsByType(m) == [GetAnnotation(m).value]
  {
  }

  /*
   * Predicates
   */

  /** `getPredicate`: None for the default `Predicate.class` and for a class `newInstance` fails on. */
  function GetPredicate(annotation: StaticFactoryMethod, rt: Runtime): (r: Option<PredicateObject>)
    ensures r.None? <==>
      annotation.predicateClass == PREDICATE_CLASS ||
      annotation.predicateClass !in rt.classes || !rt.classes[annotation.predicateClass].instantiable
    ensures r.Some? ==>
      r.value.cls == annotation.predicateClass &&
      r.value.methods == rt.classes[annotation.predicateClass].publicMethods
  {
    var cls := annotation.predicateClass;
    if cls != PREDICATE_CLASS && cls in rt.classes && rt.classes[cls].instantiable then
      Some(PredicateObject(cls, rt.classes[cls].publicMethods))
    else
      None
  }

  predicate IsTestMethodPredicate(m: ReflectMethod)
  {
    m.name == "test"
  }

  predicate IsNotSyntheticTestMethod(m: ReflectMethod)
  {
    !m.synthetic
  }

  /** PREDICATE_METHOD_SELECTOR: the two selectors joined by `and`; it never takes a synthetic bridge method. */
  predicate PredicateMethodSelector(m: ReflectMethod): (r: bool)
    ensures r <==> m.name == "test" && !m.synthetic
  {
    IsTestMethodPredicate(m) && IsNotSyntheticTestMethod(m)
  }

  /**
   * `canUsePredicate`: the public methods are searched in order for the
   * first one the selector takes whose first parameter type is assignable
   * from the input's class.  For a selected method the first parameter is
   * read before the input's class, so a selected method without
   * parameters throws ArrayIndexOutOfBounds and a null input throws
   * NullPointerException.
   */
  function CanUsePredicate(methods: seq<ReflectMethod>, input: Value, rt: Runtime): (r: Result<bool, Exception>)
    ensures r == Success(true) ==>
      input.Ref? && exists i :: 0 <= i < |methods| && Accepting(methods[i], input, rt)
    ensures r.Failure? ==>
      (r.error == ArrayIndexOutOfBoundsException || (r.error == NullPointerException && input.Null?)) &&
      exists i :: 0 <= i < |methods| && PredicateMethodSelector(methods[i])
    ensures r == Failure(ArrayIndexOutOfBoundsException) ==>
      exists i :: 0 <= i < |methods| && PredicateMethodSelector(methods[i]) && |methods[i].parameterTypes| == 0
    ensures r == Failure(NullPointerException) ==>
      input.Null? && exists i :: 0 <= i < |methods| && PredicateMethodSelector(methods[i]) && |methods[i].parameterTypes| > 0
  {
    if methods == [] then Success(false)
    else
      var m := methods[0];
      assert forall i :: 1 <= i < |methods| ==> methods[i] == methods[1..][i - 1];
      if !PredicateMethodSelector(m) then CanUsePredicate(methods[1..], input, rt)
      else if |m.parameterTypes| == 0 then Failure(ArrayIndexOutOfBoundsException)
      else if input.Null? then Failure(NullPointerException)
      else if rt.isAssignableFrom(m.parameterTypes[0], input.cls) then Success(true)
      else CanUsePredicate(methods[1..], input, rt)
  }

  /** A selected method accepting the input's class. */
  predicate Accepting(m: ReflectMethod, input: Value, rt: Runtime)
    requires input.Ref?
  {
    PredicateMethodSelector(m) && |m.parameterTypes| > 0 && rt.isAssignableFrom(m.parameterTypes[0], input.cls)
  }

  /**
   * For a non-null input, and when every selected method has a parameter,
   * the predicate is usable exactly when some selected method accepts the
   * input's class.
   */
  lemma {:induction false} CanUsePredicateIff(methods: seq<ReflectMethod>, input: Value, rt: Runtime)
    requires input.Ref?
    requires forall i :: 0 <= i < |methods| && PredicateMethodSelector(methods[i]) ==> |methods[i].parameterTypes| > 0
    ensures CanUsePredicate(methods, input, rt) ==
      Success(exists i :: 0 <= i < |methods| && Accepting(methods[i], input, rt))
  {
    if methods != [] {
      CanUsePredicateIff(methods[1..], input, rt);
      if !Accepting(methods[0], input, rt) {
        assert forall i :: 1 <= i < |methods| ==> methods[i] == methods[1..][i - 1];
        if exists i :: 0 <= i < |methods| && Accepting(methods[i], input, rt) {
          var i :| 0 <= i < |methods| && Accepting(methods[i], input, rt);
          assert Accepting(methods[1..][i - 1], input, rt);
        }
      }
    }
  }

  /**
   * With a null input the predicate is never usable: the search ends in an
   * exception as soon as it meets a selected method, and finds nothing
   * when there is none.
   */
  lemma {:induction false} CanUsePredicateNullInput(methods: seq<ReflectMethod>, rt: Runtime)
    ensures CanUsePredicate(methods, Null, rt) != Success(true)
    ensures CanUsePredicate(methods, Null, rt) == Success(false) <==>
      forall i :: 0 <= i < |methods| ==> !PredicateMethodSelector(methods[i])
  {
    if methods != [] {
      CanUsePredicateNullInput(methods[1..], rt);
      assert forall i :: 1 <= i < |methods| ==> methods[i] == methods[1..][i - 1];
      if !PredicateMethodSelector(methods[0]) {
        if forall i :: 1 <= i < |methods| ==> !PredicateMethodSelector(methods[i]) {
          assert forall i :: 0 <= i < |methods[1..]| ==> methods[1..][i] == methods[i + 1];
        }
      }
    }
  }

  /*
   * Selection in getObject
   */

  /** The first filter: exact equality with the requested class, when one is requested. */
  predicate TypeMatches(m: MethodMetaData, requestedClass: Option<ClassName>)
  {
    requestedClass.Some? ==>
      m.annotatedReturnType == Some(requestedClass.value) || m.methodReturnType == requestedClass.value
  }

  function TypeFilter(ms: seq<MethodMetaData>, requestedClass: Option<ClassName>): (r: seq<MethodMetaData>)
    ensures |r| <= |ms|
    ensures forall x :: x in r <==> x in ms && TypeMatches(x, requestedClass)
  {
    if ms == [] then []
    else (if TypeMatches(ms[0], requestedClass) then [ms[0]] else []) + TypeFilter(ms[1..], requestedClass)
  }

  /** The second filter, for one candidate: a predicate that is present, usable and true. */
  function Usable(m: MethodMetaData, input: Value, rt: Runtime): Result<bool, Exception>
  {
    match m.checkPredicate
    case None => Success(false)
    case Some(p) =>
      match CanUsePredicate(p.methods, input, rt)
      case Failure(e) => Failure(e)
      case Success(usable) => if usable then rt.test(p.cls, input) else Success(false)
  }

  /** The second filter over all candidates; an exception in any candidate ends getObject. */
  function PredicateFilter(ms: seq<MethodMetaData>, input: Value, rt: Runtime): (r: Result<seq<MethodMetaData>, Exception>)
    ensures r.Failure? <==> exists i :: 0 <= i < |ms| && Usable(ms[i], input, rt).Failure?
    ensures r.Success? ==> forall x :: x in r.value <==> x in ms && Usable(x, input, rt) == Success(true)
  {
    if ms == [] then Success([])
    else
      assert forall i :: 1 <= i < |ms| ==> ms[i] == ms[1..][i - 1];
      match Usable(ms[0], input, rt)
      case Failure(e) => Failure(e)
      case Success(keep) =>
        match PredicateFilter(ms[1..], input, rt)
        case Failure(e) => Failure(e)
        case Success(rest) => Success(if keep then [ms[0]] + rest else rest)
  }

  /** `createObject`: the value the factory returns, or null when invoking it fails. */
  function CreateObject(data: MethodMetaData, factoryInput: seq<Value>, rt: Runtime): (r: Value)
    ensures !rt.invoke(data.reflected, factoryInput).Returned? ==> r == Null
    ensures r != Null ==> rt.invoke(data.reflected, factoryInput) == Returned(r)
    ensures rt.invoke(data.reflected, factoryInput).Returned? ==> r == rt.invoke(data.reflected, factoryInput).value
  {
    match rt.invoke(data.reflected, factoryInput)
    case Returned(v) => v
    case _ => Null
  }

  /** The first non-null object the candidates create, in order; null if there is none. */
  function FirstNonNull(allLeft: seq<MethodMetaData>, factoryInput: seq<Value>, rt: Runtime): Value
  {
    if allLeft == [] then Null
    else if CreateObject(allLeft[0], factoryInput, rt) != Null then CreateObject(allLeft[0], factoryInput, rt)
    else FirstNonNull(allLeft[1..], factoryInput, rt)
  }

  /**
   * A candidate whose invocation fails, like one that returns null, is
   * passed over: the search goes on with the candidates after it.
   */
  lemma {:induction false} NullPrefixSkipped(allLeft: seq<MethodMetaData>, k: nat, factoryInput: seq<Value>, rt: Runtime)
    requires k <= |allLeft|
    requires forall j :: 0 <= j < k ==>
      !rt.invoke(allLeft[j].reflected, factoryInput).Returned? || rt.invoke(allLeft[j].reflected, factoryInput) == Returned(Null)
    ensures FirstNonNull(allLeft, factoryInput, rt) == FirstNonNull(allLeft[k..], factoryInput, rt)
  {
    if k > 0 {
      assert CreateObject(allLeft[0], factoryInput, rt) == Null;
      assert forall j :: 0 <= j < k - 1 ==> allLeft[1..][j] == allLeft[j + 1];
      NullPrefixSkipped(allLeft[1..], k - 1, factoryInput, rt);
      assert allLeft[1..][k - 1..] == allLeft[k..];
    }
  }

  /** FirstNonNull is null exactly when every candidate yields null, and otherwise the object of the first one that does not. */
  lemma {:induction false} FirstNonNullIsFirst(allLeft: seq<MethodMetaData>, factoryInput: seq<Value>, rt: Runtime)
    ensures var r := FirstNonNull(allLeft, factoryInput, rt);
      (r == Null <==> forall i :: 0 <= i < |allLeft| ==> CreateObject(allLeft[i], factoryInput, rt) == Null) &&
      (r != Null ==> exists i :: (0 <= i < |allLeft| && r == CreateObject(allLeft[i], factoryInput, rt) &&
        forall j :: 0 <= j < i ==> CreateObject(allLeft[j], factoryInput, rt) == Null))
  {
    if allLeft != [] {
      FirstNonNullIsFirst(allLeft[1..], factoryInput, rt);
      assert forall i :: 1 <= i < |allLeft| ==> allLeft[i] == allLeft[1..][i - 1];
      var r := FirstNonNull(allLeft, factoryInput, rt);
      if CreateObject(allLeft[0], factoryInput, rt) == Null && r != Null {
        var k :| 0 <= k < |allLeft[1..]| && r == CreateObject(allLeft[1..][k], factoryInput, rt) &&
          forall j :: 0 <= j < k ==> CreateObject(allLeft[1..][j], factoryInput, rt) == Null;
        assert r == CreateObject(allLeft[k + 1], factoryInput, rt);
      }
    }
  }

  /** The whole selection of `getObject` over the registered candidates `ms`. */
  function Select(ms: seq<MethodMetaData>, requestedClass: Option<ClassName>, predicateInput: Value,
                  factoryInput: seq<Value>, rt: Runtime): Result<Value, Exception>
  {
    match PredicateFilter(TypeFilter(ms, requestedClass), predicateInput, rt)
    case Failure(e) => Failure(e)
    case Success(allLeft) => Success(FirstNonNull(allLeft, factoryInput, rt))
  }

  /**
   * An object getObject returns was created by a registered candidate
   * that matches the requested class exactly, carries a predicate usable
   * for the input, and whose predicate holds on the input.
   */
  lemma SelectedObjectIsEligible(ms: seq<MethodMetaData>, requestedClass: Option<ClassName>, predicateInput: Value,
                                 factoryInput: seq<Value>, rt: Runtime)
    requires Select(ms, requestedClass, predicateInput, factoryInput, rt).Success?
    requires Select(ms, requestedClass, predicateInput, factoryInput, rt).value != Null
    ensures exists m :: (m in ms && TypeMatches(m, requestedClass) &&
      m.checkPredicate.Some? &&
      CanUsePredicate(m.checkPredicate.value.methods, predicateInput, rt) == Success(true) &&
      rt.test(m.checkPredicate.value.cls, predicateInput) == Success(true) &&
      CreateObject(m, factoryInput, rt) == Select(ms, requestedClass, predicateInput, factoryInput, rt).value)
  {
    var typed := TypeFilter(ms, requestedClass);
    var allLeft := PredicateFilter(typed, predicateInput, rt).value;
    var r := FirstNonNull(allLeft, factoryInput, rt);
    assert r == Select(ms, requestedClass, predicateInput, factoryInput, rt).value;
    FirstNonNullIsFirst(allLeft, factoryInput, rt);
    var i :| 0 <= i < |allLeft| && r == CreateObject(allLeft[i], factoryInput, rt);
    var m := allLeft[i];
    assert m in typed && Usable(m, predicateInput, rt) == Success(true);
    assert m in ms && TypeMatches(m, requestedClass);
  }

  /** A candidate without a predicate never survives the second filter. */
  lemma NoPredicateNeverSelected(ms: seq<MethodMetaData>, predicateInput: Value, rt: Runtime, m: MethodMetaData)
    requires m.checkPredicate.None?
    requires PredicateFilter(ms, predicateInput, rt).Success?
    ensures m !in PredicateFilter(ms, predicateInput, rt).value
  {
  }

  /**
   * Omitting the predicate input (passing null) never yields an object:
   * getObject either throws or returns null.
   */
  lemma NullInputYieldsNoObject(ms: seq<MethodMetaData>, requestedClass: Option<ClassName>,
                                factoryInput: seq<Value>, rt: Runtime)
    ensures Select(ms, requestedClass, Null, factoryInput, rt).Success? ==>
      Select(ms, requestedClass, Null, factoryInput, rt).value == Null
  {
    NullInputKeepsNothing(TypeFilter(ms, requestedClass), rt);
  }

  /** With a null input no candidate survives the second filter. */
  lemma {:induction false} NullInputKeepsNothing(ms: seq<MethodMetaData>, rt: Runtime)
    ensures PredicateFilter(ms, Null, rt).Success? ==> PredicateFilter(ms, Null, rt).value == []
  {
    if ms != [] {
      NullInputKeepsNothing(ms[1..], rt);
      match ms[0].checkPredicate {
        case None =>
        case Some(p) => CanUsePredicateNullInput(p.methods, rt);
      }
    }
  }

  /*
   * Building the registry
   */

  /** The record `resolveAnnotation` makes for one occurrence; the sentinel `Class.class` means "not declared". */
  function Record(cls: ClassName, m: ReflectMethod, annotation: StaticFactoryMethod, rt: Runtime): MethodMetaData
  {
    MethodMetaData(
      MethodRef(cls, m),
      m.returnType,
      if annotation.returnsClass != CLASS_CLASS then Some(annotation.returnsClass) else None,
      GetPredicate(annotation, rt))
  }

  /** The records for the given occurrences, in order. */
  function OccurrenceRecords(cls: ClassName, m: ReflectMethod, occurrences: seq<StaticFactoryMethod>, rt: Runtime): seq<MethodMetaData>
  {
    if occurrences == [] then []
    else OccurrenceRecords(cls, m, occurrences[..|occurrences| - 1], rt) + [Record(cls, m, occurrences[|occurrences| - 1], rt)]
  }

  /** `resolveAnnotation` adds exactly one record per occurrence, the i-th made from the i-th occurrence. */
  lemma {:induction false} OneRecordPerOccurrence(cls: ClassName, m: ReflectMethod, occurrences: seq<StaticFactoryMethod>, rt: Runtime)
    ensures |OccurrenceRecords(cls, m, occurrences, rt)| == |occurrences|
    ensures forall i :: 0 <= i < |occurrences| ==>
      OccurrenceRecords(cls, m, occurrences, rt)[i] == Record(cls, m, occurrences[i], rt)
  {
    if occurrences != [] {
      var n := |occurrences| - 1;
      OneRecordPerOccurrence(cls, m, occurrences[..n], rt);
    }
  }

  /**
   * The default `returns` value, Object.class, is not the sentinel, so a
   * method with the default annotation is recorded as returning Object and
   * is found by a request for Object whatever its own return type.
   */
  lemma DefaultReturnsMatchesObjectRequest(cls: ClassName, m: ReflectMethod, rt: Runtime)
    ensures Record(cls, m, DEFAULT, rt).annotatedReturnType == Some(OBJECT_CLASS)
    ensures Record(cls, m, DEFAULT, rt).checkPredicate.None?
    ensures TypeMatches(Record(cls, m, DEFAULT, rt), Some(OBJECT_CLASS))
  {
  }

  /** The filter of `loadClasses` as written: public, static and `getAnnotation` non-null. */
  predicate SelectedAsWritten(m: ReflectMethod)
  {
    m.isPublic && m.isStatic && GetAnnotation(m).Some?
  }

  /** The filter as intended: public, static and annotated once or several times. */
  predicate Selected(m: ReflectMethod)
  {
    m.isPublic && m.isStatic && AnnotationsByType(m) != []
  }

  /** What `loadClasses` registers for one declared method, with the filter as written. */
  function RegisteredAsWritten(cls: ClassName, m: ReflectMethod, rt: Runtime): seq<MethodMetaData>
  {
    if SelectedAsWritten(m) then OccurrenceRecords(cls, m, AnnotationsByType(m), rt) else []
  }

  /** What `loadClasses` registers for one declared method, with the intended filter. */
  function Registered(cls: ClassName, m: ReflectMethod, rt: Runtime): seq<MethodMetaData>
  {
    if Selected(m) then OccurrenceRecords(cls, m, AnnotationsByType(m), rt) else []
  }

  /**
   * As written, a public static method annotated several times is never
   * registered: its annotations sit in the container, `getAnnotation`
   * returns null for it, and the loop of `resolveAnnotation` over the
   * occurrences is never reached.
   */
  lemma RepeatedAnnotationLostAsWritten(cls: ClassName, m: ReflectMethod, rt: Runtime)
    requires m.annotations.Repeated? && |m.annotations.occurrences| >= 2
    ensures RegisteredAsWritten(cls, m, rt) == [] && |AnnotationsByType(m)| >= 2
    ensures m.isPublic && m.isStatic ==> |Registered(cls, m, rt)| == |AnnotationsByType(m)|
  {
    OneRecordPerOccurrence(cls, m, AnnotationsByType(m), rt);
  }

  /**
   * With the intended filter every public static annotated method is
   * registered once per occurrence, however the occurrences are stored,
   * and nothing else is registered.
   */
  lemma RegisteredOncePerOccurrence(cls: ClassName, m: ReflectMethod, rt: Runtime)
    ensures |Registered(cls, m, rt)| == if m.isPublic && m.isStatic then |AnnotationsByType(m)| else 0
    ensures forall i :: 0 <= i < |Registered(cls, m, rt)| ==>
      Registered(cls, m, rt)[i] == Record(cls, m, AnnotationsByType(m)[i], rt)
  {
    OneRecordPerOccurrence(cls, m, AnnotationsByType(m), rt);
  }

  /** The two filters agree on every method that is not annotated several times. */
  lemma RegisteredAgreesUnlessRepeated(cls: ClassName, m: ReflectMethod, rt: Runtime)
    requires !m.annotations.Repeated?
    ensures Registered(cls, m, rt) == RegisteredAsWritten(cls, m, rt)
  {
  }

  /** The records for the declared methods of one class, in order. */
  function MethodRecords(cls: ClassName, methods: seq<ReflectMethod>, rt: Runtime): seq<MethodMetaData>
  {
    if methods == [] then []
    else MethodRecords(cls, methods[..|methods| - 1], rt) + Registered(cls, methods[|methods| - 1], rt)
  }

  /** The records for one services key: none when the class cannot be loaded or its methods cannot be read. */
  function ClassRecords(name: ClassName, rt: Runtime): seq<MethodMetaData>
  {
    if name in rt.classes && !rt.classes[name].securityRestricted then
      MethodRecords(name, rt.classes[name].declaredMethods, rt)
    else
      []
  }

  function KeyRecords(keys: seq<ClassName>, rt: Runtime): seq<MethodMetaData>
  {
    if keys == [] then []
    else KeyRecords(keys[..|keys| - 1], rt) + ClassRecords(keys[|keys| - 1], rt)
  }

  /** The registry after `reload`: empty when the services resource is missing. */
  function Registrations(rt: Runtime): seq<MethodMetaData>
  {
    match rt.servicesResource
    case None => []
    case Some(keys) => KeyRecords(keys, rt)
  }

  lemma {:induction false} KeyRecordsAppend(a: seq<ClassName>, b: seq<ClassName>, rt: Runtime)
    ensures KeyRecords(a + b, rt) == KeyRecords(a, rt) + KeyRecords(b, rt)
  {
    if b == [] {
      assert a + b == a;
      AppendNothing(KeyRecords(a, rt));
    } else {
      var n := |b| - 1;
      assert (a + b)[..|a + b| - 1] == a + b[..n];
      assert (a + b)[|a + b| - 1] == b[n];
      assert KeyRecords(a + b, rt) == KeyRecords(a + b[..n], rt) + ClassRecords(b[n], rt);
      assert KeyRecords(b, rt) == KeyRecords(b[..n], rt) + ClassRecords(b[n], rt);
      KeyRecordsAppend(a, b[..n], rt);
      AppendAssociative(KeyRecords(a, rt), KeyRecords(b[..n], rt), ClassRecords(b[n], rt));
    }
  }

  /** A services entry naming no loadable class is skipped and leaves the other entries' records as they are. */
  lemma UnresolvableNameSkipped(a: seq<ClassName>, name: ClassName, b: seq<ClassName>, rt: Runtime)
    requires name !in rt.classes
    ensures KeyRecords(a + [name] + b, rt) == KeyRecords(a + b, rt)
  {
    KeyRecordsAppend(a + [name], b, rt);
    KeyRecordsAppend(a, [name], rt);
    KeyRecordsAppend(a, b, rt);
    assert [name][..0] == [];
    assert KeyRecords([name], rt) == [];
    AppendNothing(KeyRecords(a, rt));
  }

  lemma {:induction false} OccurrenceRecordsOfMethod(cls: ClassName, m: ReflectMethod, occurrences: seq<StaticFactoryMethod>, rt: Runtime)
    ensures forall d :: d in OccurrenceRecords(cls, m, occurrences, rt) ==>
      d.reflected == MethodRef(cls, m) && d.methodReturnType == m.returnType
  {
    if occurrences != [] {
      OccurrenceRecordsOfMethod(cls, m, occurrences[..|occurrences| - 1], rt);
    }
  }

  lemma {:induction false} MethodRecordsQualify(cls: ClassName, methods: seq<ReflectMethod>, rt: Runtime)
    ensures forall d :: d in MethodRecords(cls, methods, rt) ==>
      d.reflected.declaringClass == cls && d.reflected.member in methods && Selected(d.reflected.member)
  {
    if methods != [] {
      var n := |methods| - 1;
      MethodRecordsQualify(cls, methods[..n], rt);
      OccurrenceRecordsOfMethod(cls, methods[n], AnnotationsByType(methods[n]), rt);
    }
  }

  /**
   * Every registered record belongs to a public static annotated method
   * declared by a loadable class named in the services resource.
   */
  lemma {:induction false} RegisteredMethodsQualify(keys: seq<ClassName>, rt: Runtime)
    ensures forall d :: d in KeyRecords(keys, rt) ==>
      var cls := d.reflected.declaringClass;
      cls in keys && cls in rt.classes &&
      d.reflected.member in rt.classes[cls].declaredMethods &&
      d.reflected.member.isPublic && d.reflected.member.isStatic && AnnotationsByType(d.reflected.member) != []
  {
    if keys != [] {
      var n := |keys| - 1;
      RegisteredMethodsQualify(keys[..n], rt);
      if keys[n] in rt.classes && !rt.classes[keys[n]].securityRestricted {
        MethodRecordsQualify(keys[n], rt.classes[keys[n]].declaredMethods, rt);
      }
    }
  }


  /*
   * The registry and getObject
   */

  /** The static collection FACTORY_METHODS and the operations on it. */
  class StaticFactoryUtil {
    var factoryMethods: seq<MethodMetaData>

    constructor()
      ensures factoryMethods == []
    {
      factoryMethods := [];
    }

    /** `reload`: the registry is emptied, then refilled from the services resource if there is one. */
    method Reload(rt: Runtime)
      modifies this
      ensures factoryMethods == Registrations(rt)
    {
      factoryMethods := [];
      match rt.servicesResource {
        case None =>
        case Some(keys) =>
          LoadClasses(keys, rt);
      }
    }

    /** `loadClasses`: every key is handled in turn; one that cannot be loaded or read is skipped. */
    method LoadClasses(keys: seq<ClassName>, rt: Runtime)
      modifies this
      ensures factoryMethods == old(factoryMethods) + KeyRecords(keys, rt)
    {
      var i := 0;
      while i < |keys|
        invariant 0 <= i <= |keys|
        invariant factoryMethods == old(factoryMethods) + KeyRecords(keys[..i], rt)
      {
        ghost var before := KeyRecords(keys[..i], rt);
        LoadClass(keys[i], rt);
        assert keys[..i + 1][..i] == keys[..i];
        assert KeyRecords(keys[..i + 1], rt) == before + ClassRecords(keys[i], rt);
        AppendAssociative(old(factoryMethods), before, ClassRecords(keys[i], rt));
        i := i + 1;
      }
      assert keys[..i] == keys;
    }

    /**
     * The body of the loop of `loadClasses` for one key: the class is
     * loaded and each of its declared methods that passes the filter is
     * resolved; a class that cannot be loaded, or whose methods cannot be
     * read, adds nothing.
     */
    method LoadClass(name: ClassName, rt: Runtime)
      modifies this
      ensures factoryMethods == old(factoryMethods) + ClassRecords(name, rt)
    {
      if name in rt.classes && !rt.classes[name].securityRestricted {
        var declared := rt.classes[name].declaredMethods;
        var j := 0;
        while j < |declared|
          invariant 0 <= j <= |declared|
          invariant factoryMethods == old(factoryMethods) + MethodRecords(name, declared[..j], rt)
        {
          var m := declared[j];
          ghost var before := MethodRecords(name, declared[..j], rt);
          if Selected(m) {
            ResolveAnnotation(name, m, rt);
          } else {
            AppendNothing(factoryMethods);
          }
          AppendAssociative(old(factoryMethods), before, Registered(name, m, rt));
          assert declared[..j + 1][..j] == declared[..j];
          assert MethodRecords(name, declared[..j + 1], rt) == before + Registered(name, m, rt);
          j := j + 1;
        }
        assert declared[..j] == declared;
        assert ClassRecords(name, rt) == MethodRecords(name, declared, rt);
      } else {
        assert ClassRecords(name, rt) == [];
        AppendNothing(factoryMethods);
      }
    }

    /** `resolveAnnotation`: one record per occurrence of the annotation on the method. */
    method ResolveAnnotation(cls: ClassName, m: ReflectMethod, rt: Runtime)
      modifies this
      ensures factoryMethods == old(factoryMethods) + OccurrenceRecords(cls, m, AnnotationsByType(m), rt)
    {
      var occurrences := AnnotationsByType(m);
      var i := 0;
      while i < |occurrences|
        invariant 0 <= i <= |occurrences|
        invariant factoryMethods == old(factoryMethods) + OccurrenceRecords(cls, m, occurrences[..i], rt)
      {
        var annotation := occurrences[i];
        var annotatedReturnType := None;
        if annotation.returnsClass != CLASS_CLASS {
          annotatedReturnType := Some(annotation.returnsClass);
        }
        var data := MethodMetaData(MethodRef(cls, m), m.returnType, annotatedReturnType, GetPredicate(annotation, rt));
        factoryMethods := factoryMethods + [data];
        assert occurrences[..i + 1][..i] == occurrences[..i];
        i := i + 1;
      }
      assert occurrences[..i] == occurrences;
    }

    /**
     * `getObject`: reload, filter by the requested class and by the
     * predicates, then invoke the candidates left until one creates an
     * object.
     */
    method GetObject(requestedClass: Option<ClassName>, predicateInput: Value, factoryInput: seq<Value>, rt: Runtime)
      returns (r: Result<Value, Exception>)
      modifies this
      ensures factoryMethods == Registrations(rt)
      ensures r == Select(factoryMethods, requestedClass, predicateInput, factoryInput, rt)
    {
      Reload(rt);
      var methods := TypeFilter(factoryMethods, requestedClass);
      var filtered := PredicateFilter(methods, predicateInput, rt);
      if filtered.Failure? {
        return Failure(filtered.error);
      }
      var allLeft := filtered.value;
      var ret, _ := InvokeFirst(allLeft, factoryInput, rt);
      r := Success(ret);
    }
  }

  /**
   * The loop of `getObject`: candidates are invoked in order while the
   * result is null; the loop stops at the first non-null object.
   * `invoked` counts the invocations.
   */
  method InvokeFirst(allLeft: seq<MethodMetaData>, factoryInput: seq<Value>, rt: Runtime)
    returns (ret: Value, ghost invoked: nat)
    ensures ret == FirstNonNull(allLeft, factoryInput, rt)
    ensures invoked <= |allLeft|
    ensures forall j :: 0 <= j < invoked - 1 ==> CreateObject(allLeft[j], factoryInput, rt) == Null
    ensures ret == Null ==> invoked == |allLeft|
    ensures ret != Null ==> 0 < invoked && ret == CreateObject(allLeft[invoked - 1], factoryInput, rt)
  {
    ret := Null;
    var i := 0;
    while i < |allLeft| && ret == Null
      invariant 0 <= i <= |allLeft|
      invariant ret == Null ==> FirstNonNull(allLeft, factoryInput, rt) == FirstNonNull(allLeft[i..], factoryInput, rt)
      invariant ret == Null ==> forall j :: 0 <= j < i ==> CreateObject(allLeft[j], factoryInput, rt) == Null
      invariant ret != Null ==>
        0 < i && ret == CreateObject(allLeft[i - 1], factoryInput, rt) &&
        ret == FirstNonNull(allLeft, factoryInput, rt) &&
        forall j :: 0 <= j < i - 1 ==> CreateObject(allLeft[j], factoryInput, rt) == Null
    {
      assert allLeft[i..][1..] == allLeft[i + 1..];
      ret := CreateObject(allLeft[i], factoryInput, rt);
      i := i + 1;
    }
    invoked := i;
  }
}
