/**
 * The StaticFactoryMethod annotation processor: a compiler plugin that checks
 * every method carrying the annotation, reports what is wrong to the
 * compiler's Messager, collects the binary names of the classes whose methods
 * pass, and writes that set as the services registry on the last round.
 */
module Processor {
  import opened Elements
  import opened Annotation
  import opened ResolveVisitor
  import opened ProcessorRules
  import opened Sequences

  /** What the compiler tells the processor about one round. */
  datatype RoundEnvironment = RoundEnvironment(
    errorRaised: bool,
    processingOver: bool,
    annotatedWithSingle: set<ExecutableElement>,
    annotatedWithContainer: set<ExecutableElement>)

  /** The compiler's Messager, as the list of messages given to it. */
  class Messager {
    var messages: seq<Diagnostic>

    constructor ()
      ensures messages == []
    {
      messages := [];
    }

    method PrintMessage(d: Diagnostic)
      modifies this
      ensures messages == old(messages) + [d]
    {
      messages := messages + [d];
    }
  }

  class StaticFactoryProcessor {
    /** Binary names of the classes whose annotated methods passed, over all rounds so far. */
    var enclosingClasses: set<string>
    /** The contents of every services registry written, oldest first. */
    var written: seq<set<string>>
    /** Taken from the processing environment: its Messager and Types.isSubtype. */
    const messager: Messager
    const isSubtype: SubtypeOracle

    constructor (messager: Messager, isSubtype: SubtypeOracle)
      ensures enclosingClasses == {} && written == []
      ensures this.messager == messager && this.isSubtype == isSubtype
    {
      enclosingClasses := {};
      written := [];
      this.messager := messager;
      this.isSubtype := isSubtype;
    }

    /**
     * One round.  A round in which an error was raised changes nothing and
     * returns false; the last round writes the collected names, empties the
     * set and returns true; any other round is handled by HandleProcess.
     */
    method Process(round: RoundEnvironment) returns (r: bool, ghost order: seq<ExecutableElement>)
      modifies this, messager
      ensures round.errorRaised ==>
        !r && enclosingClasses == old(enclosingClasses) && written == old(written) &&
        messager.messages == old(messager.messages)
      ensures !round.errorRaised && round.processingOver ==>
        r && written == old(written) + [old(enclosingClasses)] && enclosingClasses == {} &&
        messager.messages == old(messager.messages)
      ensures !round.errorRaised && !round.processingOver ==>
        var coll := round.annotatedWithSingle + round.annotatedWithContainer;
        Enumerates(order, coll) &&
        messager.messages == old(messager.messages) + RoundDiagnostics(order, isSubtype) &&
        enclosingClasses == old(enclosingClasses) + AcceptedClasses(coll, isSubtype) &&
        written == old(written) &&
        (r <==> SomePasses(coll, isSubtype))
    {
      order := [];
      if round.errorRaised {
        return false, order;
      }
      if round.processingOver {
        WriteServices();
        enclosingClasses := {};
        return true, order;
      }
      r, order := HandleProcess(round);
    }

    /**
     * Every element annotated singly or repeatedly is handled once, in an
     * order the model leaves open (`order`); an element with no annotation
     * instance is skipped; the class of a method that passes all three
     * checks is added.  The result tells whether some method passed.
     */
    method HandleProcess(round: RoundEnvironment) returns (ret: bool, ghost order: seq<ExecutableElement>)
      modifies this`enclosingClasses, messager
      ensures var coll := round.annotatedWithSingle + round.annotatedWithContainer;
        Enumerates(order, coll) &&
        messager.messages == old(messager.messages) + RoundDiagnostics(order, isSubtype) &&
        enclosingClasses == old(enclosingClasses) + AcceptedClasses(coll, isSubtype) &&
        (ret <==> SomePasses(coll, isSubtype))
    {
      ret := false;
      var coll := round.annotatedWithSingle + round.annotatedWithContainer;
      var remaining := coll;
      ghost var done: set<ExecutableElement> := {};
      order := [];
      while remaining != {}
        invariant RoundInvariant(coll, remaining, done, order, old(messager.messages), messager.messages,
                                 old(enclosingClasses), enclosingClasses, ret, isSubtype)
        decreases remaining
      {
        var annotated :| annotated in remaining;
        ghost var log := messager.messages;
        ghost var classes := enclosingClasses;
        var ok := HandleElement(annotated);
        RoundInvariantStep(coll, remaining, done, order, old(messager.messages), log,
                           old(enclosingClasses), classes, ret, isSubtype,
                           annotated, ok, messager.messages, enclosingClasses);
        if ok {
          ret := true;
        }
        remaining := remaining - {annotated};
        done := done + {annotated};
        order := order + [annotated];
      }
    }

    /**
     * The body of the loop of HandleProcess for one element: skipped when it
     * carries no annotation instance, otherwise checked by the three checks
     * in turn, each only when the previous one passed; the class of a method
     * that passes is added.
     */
    method HandleElement(annotated: ExecutableElement) returns (ok: bool)
      modifies this`enclosingClasses, messager
      ensures messager.messages == old(messager.messages) + HandledDiagnostics(annotated, isSubtype)
      ensures ok <==> Passes(annotated, isSubtype)
      ensures enclosingClasses == old(enclosingClasses) + (if ok then {annotated.enclosing.binaryName} else {})
    {
      HandledDiagnosticsCases(annotated, isSubtype);
      if annotated.annotationsByType == 0 {
        return false;
      }
      var enclosingClazz := annotated.enclosing;
      ghost var log := messager.messages;
      AppendNothing(log);
      ok := CheckMethodSignature(annotated);
      if !ok {
        return;
      }
      assert messager.messages == log;
      ok := CheckEnclosingClass(enclosingClazz, annotated);
      if !ok {
        return;
      }
      assert messager.messages == log;
      ok := CheckAnnotationValues(annotated);
      if ok {
        enclosingClasses := enclosingClasses + {enclosingClazz.binaryName};
      }
    }

    /** One ERROR on the method for each of: not public, not static, returns void. */
    method CheckMethodSignature(annotated: ExecutableElement) returns (ok: bool)
      modifies messager
      ensures messager.messages == old(messager.messages) + SignatureDiagnostics(annotated)
      ensures ok <==> SignatureOk(annotated)
    {
      ok := true;
      if PUBLIC !in annotated.modifiers {
        messager.PrintMessage(Diagnostic(ERROR, MethodElement(annotated), MethodNotPublic, [annotated.simpleName]));
        ok := false;
      }
      if STATIC !in annotated.modifiers {
        messager.PrintMessage(Diagnostic(ERROR, MethodElement(annotated), MethodNotStatic, [annotated.simpleName]));
        ok := false;
      }
      if annotated.returnType.kind == VOID {
        messager.PrintMessage(Diagnostic(ERROR, MethodElement(annotated), MethodReturnsVoid, []));
        ok := false;
      }
    }

    /** One ERROR on the class, naming the method, for each of: abstract, a non-public class nested in a class. */
    method CheckEnclosingClass(enclosingClazz: TypeElement, annotated: ExecutableElement) returns (ok: bool)
      modifies messager
      ensures messager.messages == old(messager.messages) + EnclosingClassDiagnostics(enclosingClazz, annotated)
      ensures ok <==> EnclosingClassOk(enclosingClazz)
    {
      ok := true;
      if ABSTRACT in enclosingClazz.modifiers {
        messager.PrintMessage(Diagnostic(ERROR, ClassElement(enclosingClazz), ClassAbstract, [annotated.simpleName]));
        ok := false;
      }
      if IsEnclosedByKind(enclosingClazz, CLASS) && PUBLIC !in enclosingClazz.modifiers {
        messager.PrintMessage(Diagnostic(ERROR, ClassElement(enclosingClazz), ClassNotPublicInner, [annotated.simpleName]));
        ok := false;
      }
    }

    /** Every occurrence of the annotation on the method is processed, and the results are joined by `&`. */
    method CheckAnnotationValues(annotated: ExecutableElement) returns (ok: bool)
      modifies messager
      ensures messager.messages ==
        old(messager.messages) + ValuesDiagnostics(annotated, AnnotationMirrorsOf(annotated.annotationMirrors), isSubtype)
      ensures ok <==> ValuesOk(annotated, AnnotationMirrorsOf(annotated.annotationMirrors), isSubtype)
    {
      var annotationMirrors := GetAnnotationMirrors(annotated);
      ok := true;
      var i := 0;
      while i < |annotationMirrors|
        invariant 0 <= i <= |annotationMirrors|
        invariant messager.messages == old(messager.messages) + ValuesDiagnostics(annotated, annotationMirrors[..i], isSubtype)
        invariant ok <==> ValuesOk(annotated, annotationMirrors[..i], isSubtype)
      {
        ghost var before := ValuesDiagnostics(annotated, annotationMirrors[..i], isSubtype);
        var item := ProcessAnnotationMirror(annotationMirrors[i], annotated);
        ok := ok && item;
        ValuesOkStep(annotated, annotationMirrors, i, isSubtype);
        ValuesDiagnosticsStep(annotated, annotationMirrors, i, isSubtype);
        AppendAssociative(old(messager.messages), before, EntriesDiagnostics(annotated, annotationMirrors[i].elementValues, isSubtype));
        i := i + 1;
      }
      assert annotationMirrors[..i] == annotationMirrors;
    }

    /** Each member of one occurrence is checked: `returns` against the return type, `predicate` by CheckPredicate. */
    method ProcessAnnotationMirror(annotationMirror: AnnotationMirror, annotated: ExecutableElement) returns (ok: bool)
      modifies messager
      ensures messager.messages ==
        old(messager.messages) + EntriesDiagnostics(annotated, annotationMirror.elementValues, isSubtype)
      ensures ok <==> MirrorOk(annotated, annotationMirror, isSubtype)
    {
      var entries := annotationMirror.elementValues;
      ok := true;
      var i := 0;
      while i < |entries|
        invariant 0 <= i <= |entries|
        invariant messager.messages == old(messager.messages) + EntriesDiagnostics(annotated, entries[..i], isSubtype)
        invariant ok <==> forall k :: 0 <= k < i ==> EntryOk(annotated, entries[k], isSubtype)
      {
        ghost var before := EntriesDiagnostics(annotated, entries[..i], isSubtype);
        var entryOk := CheckEntry(entries[i], annotated);
        ok := ok && entryOk;
        EntriesOkStep(annotated, entries, i, isSubtype);
        assert entries[..i + 1][..i] == entries[..i];
        assert EntriesDiagnostics(annotated, entries[..i + 1], isSubtype) == before + EntryDiagnostics(annotated, entries[i], isSubtype);
        AppendAssociative(old(messager.messages), before, EntryDiagnostics(annotated, entries[i], isSubtype));
        i := i + 1;
      }
      assert entries[..i] == entries;
    }

    /** The body of the member loop of ProcessAnnotationMirror, for one member. */
    method CheckEntry(entry: ElementValue, annotated: ExecutableElement) returns (ok: bool)
      modifies messager
      ensures messager.messages == old(messager.messages) + EntryDiagnostics(annotated, entry, isSubtype)
      ensures ok <==> EntryOk(annotated, entry, isSubtype)
    {
      ok := true;
      match entry.value {
        case TypeValue(valueAsElement) =>
          var mismatch := entry.key == RETURNS_MEMBER && !isSubtype(AsType(valueAsElement), annotated.returnType);
          ghost var warning := if mismatch then [ReturnsWarning(annotated, valueAsElement)] else [];
          if mismatch {
            messager.PrintMessage(ReturnsWarning(annotated, valueAsElement));
            ok := false;
          }
          assert messager.messages == old(messager.messages) + warning;
          if entry.key == PREDICATE_MEMBER {
            var predicateOk := CheckPredicate(annotated, valueAsElement);
            ok := ok && predicateOk;
            AppendAssociative(old(messager.messages), warning, PredicateDiagnostics(annotated, valueAsElement));
          }
        case _ =>
      }
    }

    /** One ERROR on the method for each of: non-static nested class, abstract, interface, no no-argument constructor. */
    method CheckPredicate(annotated: ExecutableElement, predicatesElement: TypeElement) returns (ok: bool)
      modifies messager
      ensures messager.messages == old(messager.messages) + PredicateDiagnostics(annotated, predicatesElement)
      ensures ok <==> PredicateOk(predicatesElement)
    {
      ok := true;
      var quoted := [predicatesElement.simpleName, annotated.simpleName];
      ghost var log := messager.messages;
      AppendNothing(log);
      if IsEnclosedByKind(predicatesElement, CLASS) && STATIC !in predicatesElement.modifiers {
        messager.PrintMessage(Diagnostic(ERROR, MethodElement(annotated), PredicateNotStaticInner, quoted));
        ok := false;
      }
      ghost var reported := PredicateReport(annotated, predicatesElement, PredicateNotStaticInner);
      assert messager.messages == log + reported;
      PredicateReportAppended(log, reported, annotated, predicatesElement, PredicateAbstract);
      if ABSTRACT in predicatesElement.modifiers {
        messager.PrintMessage(Diagnostic(ERROR, MethodElement(annotated), PredicateAbstract, quoted));
        ok := false;
      }
      reported := reported + PredicateReport(annotated, predicatesElement, PredicateAbstract);
      PredicateReportAppended(log, reported, annotated, predicatesElement, PredicateInterface);
      if predicatesElement.kind == INTERFACE {
        messager.PrintMessage(Diagnostic(ERROR, MethodElement(annotated), PredicateInterface, quoted));
        ok := false;
      }
      reported := reported + PredicateReport(annotated, predicatesElement, PredicateInterface);
      PredicateReportAppended(log, reported, annotated, predicatesElement, PredicateNoDefaultConstructor);
      var noDefaultConstructor := !HasNoArgumentConstructor(predicatesElement);
      if noDefaultConstructor {
        messager.PrintMessage(Diagnostic(ERROR, MethodElement(annotated), PredicateNoDefaultConstructor, quoted));
        ok := false;
      }
    }

    /**
     * The StaticFactoryMethod occurrences on a method: each one written
     * directly, and for the container each annotation its values hold,
     * found by the resolve visitor.
     */
    method GetAnnotationMirrors(annotated: ExecutableElement) returns (mirrors: seq<AnnotationMirror>)
      ensures mirrors == AnnotationMirrorsOf(annotated.annotationMirrors)
    {
      var written := annotated.annotationMirrors;
      var singleMirrors := new MirrorCollection();
      var i := 0;
      while i < |written|
        invariant 0 <= i <= |written|
        invariant singleMirrors.items == AnnotationMirrorsOf(written[..i])
      {
        var annotationMirror := written[i];
        if annotationMirror.annotationType == CONTAINER_ANNOTATION_NAME {
          var avVisit := new AnnotationMirrorResolveVisitor();
          var values := annotationMirror.elementValues;
          var j := 0;
          AppendNothing(singleMirrors.items);
          while j < |values|
            invariant 0 <= j <= |values|
            invariant singleMirrors.items == AnnotationMirrorsOf(written[..i]) + ValueLeaves(values[..j])
          {
            ghost var before := ValueLeaves(values[..j]);
            var _ := avVisit.Accept(values[j].value, singleMirrors);
            assert values[..j + 1][..j] == values[..j];
            assert ValueLeaves(values[..j + 1]) == before + Leaves(values[j].value);
            AppendAssociative(AnnotationMirrorsOf(written[..i]), before, Leaves(values[j].value));
            j := j + 1;
          }
          assert values[..j] == values;
        } else if annotationMirror.annotationType == SINGLE_ANNOTATION_NAME {
          singleMirrors.Add(annotationMirror);
        } else {
          AppendNothing(singleMirrors.items);
        }
        assert written[..i + 1][..i] == written[..i];
        assert AnnotationMirrorsOf(written[..i + 1]) == AnnotationMirrorsOf(written[..i]) + MirrorsFrom(annotationMirror);
        i := i + 1;
      }
      assert written[..i] == written;
      mirrors := singleMirrors.items;
    }

    /** The services registry is written with the names collected so far; the IOException path is not modelled. */
    method WriteServices()
      modifies this`written
      ensures written == old(written) + [enclosingClasses]
    {
      written := written + [enclosingClasses];
    }
  }
}
