/**
 * The StaticFactoryMethod annotation: a repeatable method annotation with two
 * class-valued members, and the names the processor and the runtime look for.
 */
module Annotation {

  /** A fully qualified class name; class identity at run time is name identity. */
  type ClassName = string

  const OBJECT_CLASS: ClassName := "java.lang.Object"
  const CLASS_CLASS: ClassName := "java.lang.Class"
  const PREDICATE_CLASS: ClassName := "java.util.function.Predicate"

  /** Binary names of the annotation and of its repeatable container. */
  const SINGLE_ANNOTATION_NAME: string := "de.cp.staticfactories.method.StaticFactoryMethod"
  const CONTAINER_ANNOTATION_NAME: string := "de.cp.staticfactories.method.StaticFactoryMethods"

  /** Where the processor writes the registry and the runtime reads it. */
  const SERVICES_FILE: string := "META-INF/services/de.cp.staticfactories.method.StaticFactoryMethod"

  /** Names of the two annotation members as they appear in an annotation mirror. */
  const RETURNS_MEMBER: string := "returns"
  const PREDICATE_MEMBER: string := "predicate"

  /** One occurrence of the annotation: the values of its members `returns` and `predicate`. */
  datatype StaticFactoryMethod = StaticFactoryMethod(returnsClass: ClassName, predicateClass: ClassName)

  /** The values of an occurrence that writes neither member. */
  const DEFAULT: StaticFactoryMethod := StaticFactoryMethod(OBJECT_CLASS, PREDICATE_CLASS)
}
