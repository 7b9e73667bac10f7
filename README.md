# Static factory methods: a Dafny model

The library lets a developer mark public static factory methods with the
repeatable annotation `@StaticFactoryMethod(returns = …, predicate = …)`.
It has two halves, and this project models both:

* **Compile time.** An annotation processor, `StaticFactoryProcessor`, checks every annotated method.
  * The method must be public, static and not void.
  * Its enclosing class must not be abstract, and a class nested in a class must be public.
  * A `returns` class must be a subtype of the method's return type.
  * A `predicate` class must not be an inner non-static class, abstract or an interface, and must have a no-argument constructor.

  Each broken rule becomes a diagnostic on the offending element. The binary names of the classes whose methods pass are collected over the rounds. When processing is over they are written to the services resource `META-INF/services/de.cp.staticfactories.method.StaticFactoryMethod`.
* **Run time.** `StaticFactoryUtil.getObject(requestedClass, predicateInput, factoryInput…)` does the following:
  1. It reloads the registry of annotated methods from that resource. The model registers one record per annotation occurrence, which is the corrected filter described under Findings; as written, a method annotated more than once gets no record.
  2. It keeps the records whose declared or annotated return type is exactly the requested class.
  3. It then keeps those whose predicate exists, has a `test` method that accepts the input's class, and holds on the input. An exception thrown while checking a predicate ends `getObject`.
  4. It invokes the records that remain until one returns a non-null object.

The `AnnotationMirrorResolveVisitor` used by the processor flattens the `@StaticFactoryMethods` container into the single occurrences it holds.

Modules, one per file:

| file | module | contents |
|---|---|---|
| `wrappers.dfy` | `Wrappers` | `Option`, `Result` |
| `sequences.dfy` | `Sequences` | two facts about appending sequences, shared by the proofs |
| `elements.dfy` | `Elements` | the compile-time program elements: modifiers, kinds, type elements, executable elements, annotation mirrors and values, diagnostic kinds |
| `annotation.dfy` | `Annotation` | the `StaticFactoryMethod` record, its defaults (`returns` = `java.lang.Object`, `predicate` = `java.util.function.Predicate`) and the fixed names |
| `resolve_visitor.dfy` | `ResolveVisitor` | the visitor as a class, plus the functions `Leaves`/`LeavesOf` that say which annotations it collects |
| `processor_rules.dfy` | `ProcessorRules` | the rules as functions from an element to the diagnostics it produces, plus the lemmas about them |
| `processor.dfy` | `Processor` | the processor as a class holding `enclosingClasses`, a `Messager` log and the emitted sets; each method is proved against the functions in `ProcessorRules` |
| `factory_util.dfy` | `FactoryUtil` | reflection as records and oracle functions; the selection of `getObject` as functions; the registry as a class whose `Reload` and `GetObject` are proved against those functions |

Where the source depends on things outside the library, the model takes them as inputs:

* **Type system.** `Types.isSubtype` is a function the processor is given. `Class.isAssignableFrom` is a field of the `Runtime` record.
* **Reflection.** `Class.forName`, `getDeclaredMethods`, `getMethods`, `newInstance` and `Method.invoke` are fields of `Runtime`, a record value the methods take as a parameter. So are `Predicate.test` and the contents of the services resource.
* **Iteration order.** The order of a Java `HashSet` is not visible. `handleProcess` picks the round's elements one at a time with `:|`. A ghost `order` records the sequence it used, and the contracts are stated over that order.
  * The other hash sets (collected mirrors, the registry, the candidates left) keep insertion order in the model.

Two places where the class comment of StaticFactoryProcessor (StaticFactoryProcessor.java:63, :66) and the code disagree; the model follows the code:

* **A `returns` mismatch fails the method.** The mismatch is reported only as a MANDATORY_WARNING. Yet `processAnnotationMirror` sets its result to false (StaticFactoryProcessor.java:213), so the class is not registered (`ReturnsMismatchRejectsMethod`). The class comment at StaticFactoryProcessor.java:66 describes it as a warning only.
* **Constructor visibility is not checked.** The class comment at StaticFactoryProcessor.java:63 asks the predicate class for a public no-argument constructor. The code looks only at parameter counts (StaticFactoryProcessor.java:258-260); see `PredicateConstructorVisibilityIgnored`.

## Model

| member | source | states |
|---|---|---|
| ResolveVisitor.AnnotationMirrorResolveVisitor.Visit | src/main/java/de/cp/staticfactories/method/AnnotationMirrorResolveVisitor.java:38-40 | returns the visited value itself and leaves the collection unchanged |
| ResolveVisitor.AnnotationMirrorResolveVisitor.VisitAlone | src/main/java/de/cp/staticfactories/method/AnnotationMirrorResolveVisitor.java:43-45 | returns the visited value itself |
| ResolveVisitor.AnnotationMirrorResolveVisitor.VisitPrimitive | src/main/java/de/cp/staticfactories/method/AnnotationMirrorResolveVisitor.java:48-85 | a primitive constant adds nothing to the collection; the result is null exactly for a boolean, and is the collection itself for the other seven primitive kinds |
| ResolveVisitor.AnnotationMirrorResolveVisitor.VisitString | src/main/java/de/cp/staticfactories/method/AnnotationMirrorResolveVisitor.java:88-90 | returns the string and adds nothing |
| ResolveVisitor.AnnotationMirrorResolveVisitor.VisitType | src/main/java/de/cp/staticfactories/method/AnnotationMirrorResolveVisitor.java:93-95 | returns the type and adds nothing |
| ResolveVisitor.AnnotationMirrorResolveVisitor.VisitEnumConstant | src/main/java/de/cp/staticfactories/method/AnnotationMirrorResolveVisitor.java:98-100 | returns the constant and adds nothing |
| ResolveVisitor.AnnotationMirrorResolveVisitor.VisitAnnotation | src/main/java/de/cp/staticfactories/method/AnnotationMirrorResolveVisitor.java:103-106 | appends exactly the visited annotation to the collection and returns it |
| ResolveVisitor.AnnotationMirrorResolveVisitor.VisitArray | src/main/java/de/cp/staticfactories/method/AnnotationMirrorResolveVisitor.java:109-114 | visits the elements in order with the same collection, which grows by exactly the annotation leaves of the array, left to right; returns the array |
| ResolveVisitor.AnnotationMirrorResolveVisitor.Accept | src/main/java/de/cp/staticfactories/method/AnnotationMirrorResolveVisitor.java:112 | the double dispatch of `accept`: after visiting any value, the collection has grown by exactly its annotation leaves |
| ResolveVisitor.AnnotationMirrorResolveVisitor.VisitUnknown | src/main/java/de/cp/staticfactories/method/AnnotationMirrorResolveVisitor.java:117-119 | returns the value and adds nothing |
| ResolveVisitor.MirrorCollection.Add | src/main/java/de/cp/staticfactories/method/AnnotationMirrorResolveVisitor.java:104 | `p.add(a)` appends `a` to the collection |
| ResolveVisitor.LeavesAreReached | src/main/java/de/cp/staticfactories/method/AnnotationMirrorResolveVisitor.java:109-114 | an annotation is collected from a value iff it is reachable through nested arrays from that value |
| ResolveVisitor.NoLeavesWithoutAnnotation | src/main/java/de/cp/staticfactories/method/AnnotationMirrorResolveVisitor.java:109-114 | visiting a value adds nothing iff the value holds no annotation at any depth |
| ProcessorRules.IsEnclosedByKind | src/main/java/de/cp/staticfactories/method/StaticFactoryProcessor.java:305-307 | true exactly when the element has an enclosing element and it is of the given kind; when the compiler reports no enclosing element the null test makes it false |
| ProcessorRules.SignatureDiagnostics | src/main/java/de/cp/staticfactories/method/StaticFactoryProcessor.java:126-150 | every message is an ERROR on the method; the public and static messages name the method; there are none iff the method is public, static and not void |
| ProcessorRules.SignatureReportsEachBrokenRuleOnce | src/main/java/de/cp/staticfactories/method/StaticFactoryProcessor.java:126-150 | each signature rule is reported exactly once when broken and never when kept |
| ProcessorRules.EnclosingClassDiagnostics | src/main/java/de/cp/staticfactories/method/StaticFactoryProcessor.java:159-178 | every message is an ERROR on the enclosing class naming the method; there are none iff the class is not abstract and, when nested in a class, is public |
| ProcessorRules.EnclosingClassReportsEachBrokenRuleOnce | src/main/java/de/cp/staticfactories/method/StaticFactoryProcessor.java:159-178 | the abstract rule and the non-public-nested rule are each reported exactly once when broken, independently |
| ProcessorRules.PredicateDiagnostics | src/main/java/de/cp/staticfactories/method/StaticFactoryProcessor.java:232-268 | every message is an ERROR on the method naming the predicate class and the method; there are none iff the predicate class passes all four rules |
| ProcessorRules.PredicateReportsEachBrokenRuleOnce | src/main/java/de/cp/staticfactories/method/StaticFactoryProcessor.java:232-268 | non-static inner, abstract, interface and no no-argument constructor are each reported exactly once when broken, independently of one another |
| ProcessorRules.PredicateConstructorVisibilityIgnored | src/main/java/de/cp/staticfactories/method/StaticFactoryProcessor.java:258-260 | two predicate classes whose constructors differ only in modifiers get the same messages: constructor visibility is not checked |
| ProcessorRules.EntriesDiagnosticsEmptyIff | src/main/java/de/cp/staticfactories/method/StaticFactoryProcessor.java:198-223 | the members of one occurrence produce no message iff every member passes |
| ProcessorRules.MirrorDiagnosticsEmptyIff | src/main/java/de/cp/staticfactories/method/StaticFactoryProcessor.java:198-223 | one annotation occurrence produces no message iff it passes |
| ProcessorRules.EveryEntryIsChecked | src/main/java/de/cp/staticfactories/method/StaticFactoryProcessor.java:201-221 | a failing member does not stop the later members: every member's messages appear among the occurrence's messages |
| ProcessorRules.ReturnsMismatchWarnsAndFails | src/main/java/de/cp/staticfactories/method/StaticFactoryProcessor.java:204-215 | a `returns` class that is not a subtype of the return type yields a MANDATORY_WARNING on the method and fails the occurrence |
| ProcessorRules.ValueLeavesReached | src/main/java/de/cp/staticfactories/method/StaticFactoryProcessor.java:284-289 | the occurrences drawn from a container are exactly the annotations reachable from its values |
| ProcessorRules.AnnotationMirrorsOfDeclared | src/main/java/de/cp/staticfactories/method/StaticFactoryProcessor.java:276-296 | an occurrence is collected iff the method carries it directly or inside the container; other annotations are ignored |
| ProcessorRules.ContainerWithoutAnnotationsYieldsNothing | src/main/java/de/cp/staticfactories/method/StaticFactoryProcessor.java:284-289 | a container whose values hold no annotation contributes no occurrence |
| ProcessorRules.ValuesDiagnosticsEmptyIff | src/main/java/de/cp/staticfactories/method/StaticFactoryProcessor.java:186-196 | the value check produces no message iff every occurrence passes |
| ProcessorRules.EveryMirrorIsChecked | src/main/java/de/cp/staticfactories/method/StaticFactoryProcessor.java:193-195 | the occurrences are joined by the non-short-circuit `&`: every occurrence's messages appear, failing or not |
| ProcessorRules.MethodDiagnosticsEmptyIff | src/main/java/de/cp/staticfactories/method/StaticFactoryProcessor.java:113 | a method is accepted by the three checks iff checking it produces no message at all |
| ProcessorRules.SignatureFailureStopsChecks | src/main/java/de/cp/staticfactories/method/StaticFactoryProcessor.java:113 | by the short-circuit `&&`, a method failing the signature check gets only signature ERRORs on itself |
| ProcessorRules.EnclosingFailureStopsChecks | src/main/java/de/cp/staticfactories/method/StaticFactoryProcessor.java:113 | after an enclosing-class failure only ERRORs on that class appear; no annotation value is checked |
| ProcessorRules.ReturnsMismatchRejectsMethod | src/main/java/de/cp/staticfactories/method/StaticFactoryProcessor.java:113-116 | a `returns` mismatch in any occurrence keeps the method from being accepted, and its MANDATORY_WARNING is reported once the first two checks pass |
| ProcessorRules.AcceptedClassesAdd | src/main/java/de/cp/staticfactories/method/StaticFactoryProcessor.java:113-115 | handling one more method adds its class name exactly when the method passes |
| Processor.Messager.PrintMessage | src/main/java/de/cp/staticfactories/method/StaticFactoryProcessor.java:131 | a diagnostic is appended to the log |
| Processor.StaticFactoryProcessor.constructor | src/main/java/de/cp/staticfactories/method/StaticFactoryProcessor.java:76 | the class-name set starts empty |
| Processor.StaticFactoryProcessor.Process | src/main/java/de/cp/staticfactories/method/StaticFactoryProcessor.java:79-90 | an error round returns false and changes neither the set, the log nor the output; the last round emits the set, clears it and returns true without logging; any other round is handled by HandleProcess |
| Processor.StaticFactoryProcessor.HandleProcess | src/main/java/de/cp/staticfactories/method/StaticFactoryProcessor.java:92-119 | the union of the singly and repeatedly annotated elements is handled once each in some order; the log grows by the messages of that order; the set grows by exactly the classes of the passing methods; the result is true iff some method passed |
| Processor.StaticFactoryProcessor.HandleElement | src/main/java/de/cp/staticfactories/method/StaticFactoryProcessor.java:100-117 | a method without annotation instances is skipped silently; otherwise the three checks run in turn, stopping at the first failure, and its class is added iff all pass |
| Processor.StaticFactoryProcessor.CheckMethodSignature | src/main/java/de/cp/staticfactories/method/StaticFactoryProcessor.java:126-150 | logs exactly the signature messages and passes iff the method is public, static and not void |
| Processor.StaticFactoryProcessor.CheckEnclosingClass | src/main/java/de/cp/staticfactories/method/StaticFactoryProcessor.java:159-178 | logs exactly the enclosing-class messages and passes iff the class rule holds |
| Processor.StaticFactoryProcessor.CheckAnnotationValues | src/main/java/de/cp/staticfactories/method/StaticFactoryProcessor.java:186-196 | processes every collected occurrence, logs all their messages, and passes iff every occurrence passes |
| Processor.StaticFactoryProcessor.ProcessAnnotationMirror | src/main/java/de/cp/staticfactories/method/StaticFactoryProcessor.java:198-223 | checks every member of the occurrence in order, logs all their messages, and passes iff every member passes |
| Processor.StaticFactoryProcessor.CheckEntry | src/main/java/de/cp/staticfactories/method/StaticFactoryProcessor.java:202-220 | one member: `returns` is checked against the return type, `predicate` by CheckPredicate, and any other member adds nothing |
| Processor.StaticFactoryProcessor.CheckPredicate | src/main/java/de/cp/staticfactories/method/StaticFactoryProcessor.java:232-268 | logs exactly the predicate messages and passes iff the predicate class satisfies all four rules |
| Processor.StaticFactoryProcessor.GetAnnotationMirrors | src/main/java/de/cp/staticfactories/method/StaticFactoryProcessor.java:276-296 | returns the direct occurrences and, via the visitor, those inside the container, in declaration order |
| Processor.StaticFactoryProcessor.WriteServices | src/main/java/de/cp/staticfactories/method/StaticFactoryProcessor.java:312-326 | the current class-name set is emitted |
| FactoryUtil.AnnotatedHasOccurrences | src/main/java/de/cp/staticfactories/method/StaticFactoryUtil.java:211 | `getAnnotationsByType` sees a method's occurrences whether stored directly or in the container, and agrees with `getAnnotation` when that finds one |
| FactoryUtil.GetPredicate | src/main/java/de/cp/staticfactories/method/StaticFactoryUtil.java:228-238 | there is no predicate iff the annotation keeps the default `Predicate.class` or the class cannot be instantiated; otherwise it is an instance of the named class |
| FactoryUtil.PredicateMethodSelector | src/main/java/de/cp/staticfactories/method/StaticFactoryUtil.java:62 | the selector takes exactly the methods named `test` that are not synthetic, so the `test(Object)` bridge is never taken |
| FactoryUtil.CanUsePredicate | src/main/java/de/cp/staticfactories/method/StaticFactoryUtil.java:131-142 | the search yields true only for a non-null input and a selected method whose first parameter type is assignable from the input's class; it throws only when it meets a selected method, ArrayIndexOutOfBounds only when a selected method has no parameters, and NullPointerException only for a null input once a selected method with a parameter is met |
| FactoryUtil.CanUsePredicateIff | src/main/java/de/cp/staticfactories/method/StaticFactoryUtil.java:131-142 | for a non-null input, and when every selected `test` method has at least one parameter, the predicate is usable iff some public non-synthetic method named `test` has a first parameter type assignable from the input's class (a selected `test()` without parameters makes the search throw, see CanUsePredicate) |
| FactoryUtil.CanUsePredicateNullInput | src/main/java/de/cp/staticfactories/method/StaticFactoryUtil.java:137-138 | with a null input the predicate is never usable; the search throws as soon as it meets a selected `test` method and finds nothing otherwise |
| FactoryUtil.TypeFilter | src/main/java/de/cp/staticfactories/method/StaticFactoryUtil.java:100-104 | with a requested class, a record is kept iff its annotated or its declared return type equals that class (no subtype widening); without one every record is kept |
| FactoryUtil.PredicateFilter | src/main/java/de/cp/staticfactories/method/StaticFactoryUtil.java:107 | a record is kept iff it has a predicate that is usable for the input and holds on it; the filter throws iff checking some record throws |
| FactoryUtil.NoPredicateNeverSelected | src/main/java/de/cp/staticfactories/method/StaticFactoryUtil.java:107 | a record without a predicate is never kept |
| FactoryUtil.CreateObject | src/main/java/de/cp/staticfactories/method/StaticFactoryUtil.java:145-158 | a successful invocation yields exactly the object the method returned; a failed one (illegal access, illegal argument, exception in the target) yields null instead of propagating |
| FactoryUtil.NullPrefixSkipped | src/main/java/de/cp/staticfactories/method/StaticFactoryUtil.java:145-158 | candidates whose invocation fails or returns null are passed over: the selection is the one over the candidates after them |
| FactoryUtil.FirstNonNullIsFirst | src/main/java/de/cp/staticfactories/method/StaticFactoryUtil.java:115-118 | the selected object is null iff every candidate yields null, and otherwise is the object of the first candidate that does not |
| FactoryUtil.SelectedObjectIsEligible | src/main/java/de/cp/staticfactories/method/StaticFactoryUtil.java:92-121 | a non-null result was created by a registered record whose type matches exactly, whose predicate is usable for the input and holds on it |
| FactoryUtil.NullInputYieldsNoObject | src/main/java/de/cp/staticfactories/method/StaticFactoryUtil.java:92-121 | with a null predicate input `getObject` either throws or returns null, never an object |
| FactoryUtil.OneRecordPerOccurrence | src/main/java/de/cp/staticfactories/method/StaticFactoryUtil.java:210-225 | one record per occurrence, the i-th made from the i-th occurrence |
| FactoryUtil.DefaultReturnsMatchesObjectRequest | src/main/java/de/cp/staticfactories/method/StaticFactoryUtil.java:217-219 | the default `returns` (Object.class) is not the `Class.class` sentinel, so it is recorded and a request for Object matches the method; the default predicate is recorded as absent |
| FactoryUtil.RepeatedAnnotationLostAsWritten | src/main/java/de/cp/staticfactories/method/StaticFactoryUtil.java:193-195 | as written, any method whose two or more occurrences sit in the container registers no record at all, while the corrected filter registers one record per occurrence when the method is public and static |
| FactoryUtil.RegisteredOncePerOccurrence | src/main/java/de/cp/staticfactories/method/StaticFactoryUtil.java:193-196 | with the corrected filter, a public static method registers one record per occurrence and any other method none |
| FactoryUtil.RegisteredAgreesUnlessRepeated | src/main/java/de/cp/staticfactories/method/StaticFactoryUtil.java:193-195 | the written and corrected filters differ only on methods annotated through the container |
| FactoryUtil.UnresolvableNameSkipped | src/main/java/de/cp/staticfactories/method/StaticFactoryUtil.java:188-208 | a services entry naming no loadable class is skipped and leaves the records of the other entries unchanged |
| FactoryUtil.RegisteredMethodsQualify | src/main/java/de/cp/staticfactories/method/StaticFactoryUtil.java:188-208 | every registered record belongs to a public static annotated method declared by a loadable class named in the services resource |
| FactoryUtil.StaticFactoryUtil.constructor | src/main/java/de/cp/staticfactories/method/StaticFactoryUtil.java:60 | the registry starts empty |
| FactoryUtil.StaticFactoryUtil.Reload | src/main/java/de/cp/staticfactories/method/StaticFactoryUtil.java:163-172 | the registry is replaced by the records of the services resource, and is empty when the resource is missing |
| FactoryUtil.StaticFactoryUtil.LoadClasses | src/main/java/de/cp/staticfactories/method/StaticFactoryUtil.java:188-208 | appends the records of every services entry, in order |
| FactoryUtil.StaticFactoryUtil.LoadClass | src/main/java/de/cp/staticfactories/method/StaticFactoryUtil.java:190-206 | appends the records of one class; one that cannot be loaded, or whose methods cannot be read, adds nothing |
| FactoryUtil.StaticFactoryUtil.ResolveAnnotation | src/main/java/de/cp/staticfactories/method/StaticFactoryUtil.java:210-225 | appends one record per occurrence of the annotation on the method |
| FactoryUtil.StaticFactoryUtil.GetObject | src/main/java/de/cp/staticfactories/method/StaticFactoryUtil.java:92-121 | reloads the registry, then returns the selection of the two filters and the invocation loop over it, or the exception the predicate filter throws |
| FactoryUtil.InvokeFirst | src/main/java/de/cp/staticfactories/method/StaticFactoryUtil.java:115-118 | invokes the candidates in order while the result is null and stops at the first non-null object; every candidate before it yielded null, and all were invoked when the result is null |

## Left out

- Writing the services file through `Filer` and `PrintWriter` is I/O and is not modelled. The emitted set is recorded in `written`. The ERROR logged when the write fails (StaticFactoryProcessor.java:323-325) is not modelled.
- Locating and parsing the services resource (`ClassLoader.getSystemResource`, `URL.openStream`, `Properties.load`) is I/O. The resource is an `Option` of its keys in `Runtime`. An IOException while loading leaves whatever keys were read.
- Reflection and the compile-time type utilities are foreign calls, so their answers are inputs: `isSubtype`, `isAssignableFrom`, `getBinaryName`, `forName`, `getDeclaredMethods`, `getMethods`, `newInstance`, `invoke` and `Predicate.test`.
  - A predicate class that is not in `classes` is treated as not instantiable, so the record gets no predicate. In the source a predicate class missing at run time makes reading the `predicate()` member throw TypeNotPresentException; that exception is not modelled.
  - Exceptions that `newInstance` or `invoke` let through unchecked (errors, exceptions of a constructor) are not modelled.
  - `Predicate.test` may throw. Its exception ends `getObject` (`Usable` passes it on), but only ClassCastException, the one its bridge method throws, is named; other exception types thrown by `test` are not distinguished.
  - Linkage errors from `Class.forName` are not modelled.
- Hash-set order is not visible in the source. The round's elements are taken in an order left open by `:|`. The collected mirrors, the registry and the candidates left keep insertion order.
  - The proved properties hold for the order chosen.
  - Which order the JVM would pick is not modelled.
- The `.parallel()` candidate stream and races between concurrent calls to `reload` are concurrency, so they are not modelled. The filters are sequential. When several candidates throw, the first one's exception is the one reported.
- Logging (log4j and the informational "Fitting methods found" message) is output only and is not modelled. Diagnostic texts are reduced to a rule tag plus the names they quote.
- Annotation members whose value is not a class literal produce no diagnostic. The `StaticFactoryMethod` members are both class literals.
  - A primitive class literal such as `int.class` would make `getTypeElement` return null in the source, and then `asType` fails with a NullPointerException. That failure is not modelled.
- The services keys are a sequence in `Runtime`. The `Properties` key set they come from holds no duplicates, and the model does not require this: a repeated key would register its class twice.
- Classes are identified by their names. Several class loaders defining the same name are not modelled.
- The factory and predicate oracles are functions. A factory or `test` method whose result depends on state or on the instance is not modelled.
- FactoryUtil.StaticFactoryUtil.LoadClasses: appends the records of the corrected method filter, so a public static method annotated more than once gets one record per occurrence, where StaticFactoryUtil.java:193-195 registers none; see Findings.
- FactoryUtil.StaticFactoryUtil.LoadClass: selects methods with the corrected filter `Selected` rather than the `getAnnotation` test at StaticFactoryUtil.java:195, with the same consequence as for LoadClasses.
- FactoryUtil.StaticFactoryUtil.GetObject: selects from `Registrations`, built with the corrected filter, so it can return an object made by a method annotated more than once, which the code as written never registers.
- FactoryUtil.StaticFactoryUtil.Reload: registers with the corrected method filter rather than the one at StaticFactoryUtil.java:195. The filter as written is `FactoryUtil.RegisteredAsWritten`; see Findings.

## Findings

| source | as written | input that shows it | evidently intended | confidence | as-written member | corrected member |
|---|---|---|---|---|---|---|
| src/main/java/de/cp/staticfactories/method/StaticFactoryUtil.java:195 | the method filter of `loadClasses` tests `method.getAnnotation(StaticFactoryMethod.class) != null`. That call does not look inside the `@StaticFactoryMethods` container, where a repeated annotation is stored | a public static method annotated twice with `@StaticFactoryMethod`; the processor accepts it and registers its class, but at run time it yields no record | every occurrence is registered, as the loop over `getAnnotationsByType` in `resolveAnnotation` (StaticFactoryUtil.java:211) and the processor's handling of the container (StaticFactoryProcessor.java:95-97) expect | high; not executed | FactoryUtil.RepeatedAnnotationLostAsWritten | FactoryUtil.RegisteredOncePerOccurrence |
