/**
 * The reflective facts the interceptor manager reads, as plain data.
 *
 * Java reflection (annotations on classes and executables, the superclass
 * chain, the @Interceptors value, the @Priority of an interceptor class) is
 * replaced by fields of the datatypes below, so that the manager's rules can
 * be stated over values.
 */
module Reflection {

  datatype Option<+T> = None | Some(value: T)

  /** The one exception the modelled code can raise on its own. */
  datatype Fault = NullPointerException

  datatype Result<+T> = Success(value: T) | Failure(error: Fault)

  /**
   * An annotation type. `interceptorBindingMeta` says whether the type is
   * meta-annotated with @InterceptorBinding (what the meta-annotation check
   * of the annotation utilities answers for it).
   */
  datatype AnnotationType = AnnotationType(name: string, interceptorBindingMeta: bool)

  /**
   * An annotation on an element. Two annotations are equal when their type
   * and all their member values are, so all member values take part in the
   * equality of binding sets. The class list of @Interceptors, the one
   * member value the manager interprets, is kept in `classes` ([] for other
   * types); every other member value is kept, uninterpreted, in
   * `memberValues` as name-value pairs in declaration order.
   */
  datatype Annotation = Annotation(annotationType: AnnotationType, classes: seq<InterceptorClass>, memberValues: seq<(string, string)>)

  /**
   * An interceptor class: its name, the integer priority the priority
   * comparator reads from it, and the interceptor bindings that the
   * interceptor metadata derives from it.
   */
  datatype InterceptorClass = InterceptorClass(name: string, priority: int, bindings: set<Annotation>)

  /** An interceptor instance: the object registered or invoked. */
  datatype Interceptor = Interceptor(interceptorClass: InterceptorClass, instance: nat)

  /**
   * A component class: its annotations in declaration order and its
   * superclass (None for java.lang.Object itself and for interfaces).
   */
  datatype ComponentClass = ComponentClass(name: string, annotations: seq<Annotation>, superclass: Option<ComponentClass>)

  /** A method or a constructor, with its declaring class and annotations. */
  datatype Executable =
    | Method(declaringClass: ComponentClass, name: string, parameterTypes: seq<string>, annotations: seq<Annotation>)
    | Constructor(declaringClass: ComponentClass, parameterTypes: seq<string>, annotations: seq<Annotation>)

  const ObjectClass := ComponentClass("java.lang.Object", [], None)

  type MethodExecutable = e: Executable | e.Method? witness Method(ObjectClass, "hashCode", [], [])

  type ConstructorExecutable = e: Executable | e.Constructor? witness Constructor(ObjectClass, [], [])

  const PostConstructType := AnnotationType("javax.annotation.PostConstruct", false)
  const PreDestroyType := AnnotationType("javax.annotation.PreDestroy", false)
  const InterceptorsType := AnnotationType("javax.interceptor.Interceptors", false)
  const ExcludeDefaultInterceptorsType := AnnotationType("javax.interceptor.ExcludeDefaultInterceptors", false)
  const ExcludeClassInterceptorsType := AnnotationType("javax.interceptor.ExcludeClassInterceptors", false)

  /** The set of interceptor-binding annotations that keys the binding map. */
  datatype InterceptorBindings = InterceptorBindings(annotations: set<Annotation>)

  /** The metadata kept for a registered interceptor class. */
  datatype InterceptorInfo = InterceptorInfo(interceptorClass: InterceptorClass, interceptorBindings: InterceptorBindings)

  /** Building the metadata of an interceptor class. */
  function NewInterceptorInfo(c: InterceptorClass): InterceptorInfo
  {
    InterceptorInfo(c, InterceptorBindings(c.bindings))
  }

  /** The first annotation of type `t` among `annotations`, if any. */
  function FindAnnotation(annotations: seq<Annotation>, t: AnnotationType): (r: Option<Annotation>)
    ensures r.Some? ==> r.value in annotations && r.value.annotationType == t
    ensures r.None? ==> forall a :: a in annotations ==> a.annotationType != t
  {
    if annotations == [] then None
    else if annotations[0].annotationType == t then Some(annotations[0])
    else FindAnnotation(annotations[1..], t)
  }

  /** The interceptor instance obtained from an interceptor class. */
  function Unwrap(c: InterceptorClass): (i: Interceptor)
    ensures i.interceptorClass == c
  {
    Interceptor(c, 0)
  }

  /** The set of annotations held by a sequence. */
  function ToSet(s: seq<Annotation>): (r: set<Annotation>)
    ensures forall a :: a in r <==> a in s
  {
    set a | a in s
  }
}
