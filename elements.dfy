/**
 * Records standing for the javax.lang.model elements, types and annotation
 * values that the annotation processor inspects.  Every record keeps only the
 * facts the processor asks of the compiler's element.
 */
module Elements {
  import opened Wrappers

  /** The modifiers a declaration may carry. */
  datatype Modifier = PUBLIC | PROTECTED | PRIVATE | STATIC | ABSTRACT | FINAL

  /** The kinds of element that may declare or enclose a type. */
  datatype ElementKind = PACKAGE | CLASS | INTERFACE | ENUM | ANNOTATION_TYPE | METHOD

  /** The kinds of a method's return type; only VOID is told apart by the processor. */
  datatype TypeKind = VOID | DECLARED | PRIMITIVE | ARRAY | OTHER

  /** A type as the compiler sees it: its kind and its printed name. */
  datatype TypeMirror = TypeMirror(kind: TypeKind, name: string)

  /** A declared constructor: the number of its parameters and its modifiers. */
  datatype Constructor = Constructor(parameterCount: nat, modifiers: set<Modifier>)

  /**
   * A class or interface declaration.  `enclosingKind` is the kind of the
   * element that encloses it (None when the compiler reports no enclosing
   * element); `constructors` lists its declared constructors in order.
   */
  datatype TypeElement = TypeElement(
    simpleName: string,
    binaryName: string,
    kind: ElementKind,
    modifiers: set<Modifier>,
    enclosingKind: Option<ElementKind>,
    constructors: seq<Constructor>)

  /** The declared type of a type element. */
  function AsType(t: TypeElement): TypeMirror
  {
    TypeMirror(DECLARED, t.binaryName)
  }

  /** The primitive kinds an annotation value may have. */
  datatype PrimitiveKind = BOOLEAN | BYTE | CHAR | DOUBLE | FLOAT | INT | LONG | SHORT

  /**
   * An annotation value: a tree whose inner nodes are arrays and whose leaves
   * are constants, class literals, enum constants or nested annotations.
   * A class literal is given by the type element it names.
   */
  datatype AnnotationValue =
    | PrimitiveValue(primitive: PrimitiveKind, literal: string)
    | StringValue(s: string)
    | TypeValue(t: TypeElement)
    | EnumConstant(constant: string)
    | Annotation(mirror: AnnotationMirror)
    | ArrayValue(values: seq<AnnotationValue>)
    | UnknownValue

  /** One explicitly given member of an annotation: the member's name and its value. */
  datatype ElementValue = ElementValue(key: string, value: AnnotationValue)

  /**
   * An annotation occurrence: the binary name of its annotation type and the
   * members written out in the source, in declaration order.
   */
  datatype AnnotationMirror = AnnotationMirror(annotationType: string, elementValues: seq<ElementValue>)

  /**
   * A method declaration.  `annotationsByType` is the number of
   * StaticFactoryMethod instances the compiler resolves on it (direct or
   * inside the container); `annotationMirrors` are its annotations as written.
   */
  datatype ExecutableElement = ExecutableElement(
    simpleName: string,
    parameterTypes: seq<string>,
    modifiers: set<Modifier>,
    returnType: TypeMirror,
    enclosing: TypeElement,
    annotationsByType: nat,
    annotationMirrors: seq<AnnotationMirror>)

  /** The kinds of compiler diagnostic. */
  datatype Kind = ERROR | WARNING | MANDATORY_WARNING | NOTE | OTHER

  /** The source element a diagnostic is attached to. */
  datatype Element = MethodElement(executable: ExecutableElement) | ClassElement(clazz: TypeElement)
}
