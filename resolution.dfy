/**
 * The rules by which an interceptor chain is resolved for a method or a
 * constructor, as functions of the registered binding types and the binding
 * registry. The manager's methods are proved to compute these.
 *
 * The chain follows the interceptor ordering rules of section 5.2 of the
 * Interceptors 1.2 specification (JSR 318): default interceptors, then
 * class-level @Interceptors, then method- or constructor-level
 * @Interceptors, then interceptors matched through interceptor bindings;
 * section 5.2.1 then orders the whole by priority.
 */
module Resolution {
  import opened Reflection
  import opened PriorityOrder
  import opened Registration

  /** An annotation type is a binding type when meta-annotated or registered. */
  predicate IsBindingType(registered: seq<AnnotationType>, t: AnnotationType) {
    t.interceptorBindingMeta || t in registered
  }

  predicate NoDuplicates<T(==)>(s: seq<T>) {
    forall i, j :: 0 <= i < j < |s| ==> s[i] != s[j]
  }

  /**
   * The binding annotations of an element: its annotations, in declaration
   * order, that are of a binding type, each kept once.
   */
  function BindingAnnotations(registered: seq<AnnotationType>, annotations: seq<Annotation>): seq<Annotation>
    decreases |annotations|
  {
    if annotations == [] then []
    else
      var kept := BindingAnnotations(registered, annotations[..|annotations| - 1]);
      var a := annotations[|annotations| - 1];
      if IsBindingType(registered, a.annotationType) && a !in kept then kept + [a] else kept
  }

  /** An annotation is kept exactly when it is present and of a binding type. */
  lemma {:induction false} BindingAnnotationsMembers(registered: seq<AnnotationType>, annotations: seq<Annotation>)
    ensures forall a :: a in BindingAnnotations(registered, annotations) <==> a in annotations && IsBindingType(registered, a.annotationType)
    decreases |annotations|
  {
    if annotations != [] {
      var front := annotations[..|annotations| - 1];
      BindingAnnotationsMembers(registered, front);
      assert annotations == front + [annotations[|annotations| - 1]];
    }
  }

  /** No binding annotation is kept twice. */
  lemma {:induction false} BindingAnnotationsDistinct(registered: seq<AnnotationType>, annotations: seq<Annotation>)
    ensures NoDuplicates(BindingAnnotations(registered, annotations))
    decreases |annotations|
  {
    if annotations != [] {
      BindingAnnotationsDistinct(registered, annotations[..|annotations| - 1]);
    }
  }

  /** The position of the first occurrence of `x` in `s`. */
  function IndexOf<T(==)>(s: seq<T>, x: T): (k: nat)
    requires x in s
    ensures k < |s| && s[k] == x && x !in s[..k]
  {
    if s[0] == x then 0 else 1 + IndexOf(s[1..], x)
  }

  lemma {:induction false} IndexOfAppend<T>(s: seq<T>, y: T, x: T)
    requires x in s
    ensures IndexOf(s + [y], x) == IndexOf(s, x)
  {
    if s[0] != x {
      IndexOfAppend(s[1..], y, x);
      assert (s + [y])[1..] == s[1..] + [y];
    }
  }

  /** The elements of `kept` occur in `annotations`, in the same order. */
  predicate InDeclarationOrder(kept: seq<Annotation>, annotations: seq<Annotation>) {
    forall i, j :: 0 <= i < j < |kept| ==> kept[i] in annotations && kept[j] in annotations && IndexOf(annotations, kept[i]) < IndexOf(annotations, kept[j])
  }

  /** The kept annotations follow the order in which they are declared. */
  lemma {:induction false} BindingAnnotationsInDeclarationOrder(registered: seq<AnnotationType>, annotations: seq<Annotation>)
    ensures InDeclarationOrder(BindingAnnotations(registered, annotations), annotations)
    decreases |annotations|
  {
    var r := BindingAnnotations(registered, annotations);
    BindingAnnotationsMembers(registered, annotations);
    if annotations != [] {
      var front := annotations[..|annotations| - 1];
      var a := annotations[|annotations| - 1];
      var kept := BindingAnnotations(registered, front);
      BindingAnnotationsInDeclarationOrder(registered, front);
      BindingAnnotationsMembers(registered, front);
      assert annotations == front + [a];
      forall i, j | 0 <= i < j < |r|
        ensures IndexOf(annotations, r[i]) < IndexOf(annotations, r[j])
      {
        assert r[i] == kept[i] && r[i] in front;
        IndexOfAppend(front, a, r[i]);
        if j < |kept| {
          assert r[j] == kept[j];
          IndexOfAppend(front, a, r[j]);
        } else {
          assert r[j] == a && a !in front;
        }
      }
    }
  }

  /**
   * The classes a hierarchy walk examines: the class itself and then its
   * superclasses, stopping before java.lang.Object or a missing superclass.
   */
  function Ancestors(c: ComponentClass): (r: seq<ComponentClass>)
    ensures |r| >= 1 && r[0] == c
    decreases c
  {
    [c] + match c.superclass
      case None => []
      case Some(s) => if s == ObjectClass then [] else Ancestors(s)
  }

  /**
   * The class-level bindings as the documentation describes them: those of
   * the class, or else inherited from the nearest superclass below
   * java.lang.Object that has any.
   */
  function InheritedBindings(registered: seq<AnnotationType>, c: ComponentClass): seq<Annotation>
    decreases c
  {
    var own := BindingAnnotations(registered, c.annotations);
    if own != [] then own else InheritedFrom(registered, c.superclass)
  }

  /** The inherited bindings starting at a superclass, if it is not java.lang.Object. */
  function InheritedFrom(registered: seq<AnnotationType>, t: Option<ComponentClass>): seq<Annotation>
    decreases t
  {
    match t
    case None => []
    case Some(s) => if s == ObjectClass then [] else InheritedBindings(registered, s)
  }

  /** No class of `walk` has a binding annotation. */
  predicate NoneBound(registered: seq<AnnotationType>, walk: seq<ComponentClass>) {
    forall k :: 0 <= k < |walk| ==> BindingAnnotations(registered, walk[k].annotations) == []
  }

  /** `walk[k]` is the first class of `walk` with a binding annotation. */
  predicate FirstBoundAt(registered: seq<AnnotationType>, walk: seq<ComponentClass>, k: int) {
    && 0 <= k < |walk|
    && BindingAnnotations(registered, walk[k].annotations) != []
    && forall j :: 0 <= j < k ==> BindingAnnotations(registered, walk[j].annotations) == []
  }

  /**
   * The inherited bindings are those of the nearest class of the walk that
   * has any, and are empty exactly when no class of the walk has any.
   */
  lemma {:induction false} InheritedBindingsIsNearest(registered: seq<AnnotationType>, c: ComponentClass)
    ensures InheritedBindings(registered, c) == [] <==> NoneBound(registered, Ancestors(c))
    ensures InheritedBindings(registered, c) != [] ==>
      exists k :: FirstBoundAt(registered, Ancestors(c), k) && InheritedBindings(registered, c) == BindingAnnotations(registered, Ancestors(c)[k].annotations)
    decreases c
  {
    var r := InheritedBindings(registered, c);
    var walk := Ancestors(c);
    var own := BindingAnnotations(registered, c.annotations);
    if own != [] {
      assert FirstBoundAt(registered, walk, 0);
    } else if c.superclass.None? || c.superclass.value == ObjectClass {
      assert walk == [c];
    } else {
      var s := c.superclass.value;
      InheritedBindingsIsNearest(registered, s);
      var rest := Ancestors(s);
      assert walk == [c] + rest;
      assert InheritedFrom(registered, c.superclass) == InheritedBindings(registered, s);
      if NoneBound(registered, rest) {
        forall k | 0 <= k < |walk| ensures BindingAnnotations(registered, walk[k].annotations) == [] {
          if k > 0 { assert walk[k] == rest[k - 1]; }
        }
      } else {
        var k :| FirstBoundAt(registered, rest, k) && r == BindingAnnotations(registered, rest[k].annotations);
        assert walk[k + 1] == rest[k];
        forall j | 0 <= j < k + 1 ensures BindingAnnotations(registered, walk[j].annotations) == [] {
          if j > 0 { assert walk[j] == rest[j - 1]; }
        }
        assert FirstBoundAt(registered, walk, k + 1);
        assert !NoneBound(registered, walk);
      }
    }
  }

  /** Every inherited binding is a binding annotation, and none repeats. */
  lemma {:induction false} InheritedBindingsAreBindings(registered: seq<AnnotationType>, c: ComponentClass)
    ensures forall a :: a in InheritedBindings(registered, c) ==> IsBindingType(registered, a.annotationType)
    ensures NoDuplicates(InheritedBindings(registered, c))
    decreases c
  {
    BindingAnnotationsMembers(registered, c.annotations);
    BindingAnnotationsDistinct(registered, c.annotations);
    if BindingAnnotations(registered, c.annotations) == [] && c.superclass.Some? && c.superclass.value != ObjectClass {
      InheritedBindingsAreBindings(registered, c.superclass.value);
    }
  }

  // ---------------------------------------------------------------------
  // The class-level walk as the source writes it. Its loop examines the
  // class, then assigns the class's direct superclass on every pass, so it
  // never moves past the direct superclass.
  // ---------------------------------------------------------------------

  /** The local state of the walk's loop: the class to examine next and the bindings found. */
  datatype WalkState = WalkState(next: Option<ComponentClass>, bindings: seq<Annotation>)

  /** One pass of the loop body, examining `t` inside the walk started at `c`. */
  function WalkPass(registered: seq<AnnotationType>, c: ComponentClass, t: ComponentClass): WalkState {
    WalkState(c.superclass, BindingAnnotations(registered, t.annotations))
  }

  /** The loop condition: go on while the next class is not java.lang.Object and nothing was found. */
  predicate WalkContinues(st: WalkState) {
    st.next != Some(ObjectClass) && st.bindings == []
  }

  /**
   * The walk never ends: neither the class nor its direct superclass, which
   * is not java.lang.Object, has a binding annotation.
   */
  predicate WalkDiverges(registered: seq<AnnotationType>, c: ComponentClass) {
    && BindingAnnotations(registered, c.annotations) == []
    && c.superclass.Some?
    && c.superclass.value != ObjectClass
    && BindingAnnotations(registered, c.superclass.value.annotations) == []
  }

  /**
   * The outcome of the walk as written when it ends: the bindings of the
   * class, or of its direct superclass, or a NullPointerException when the
   * class has no superclass and no bindings (the loop goes on to examine a
   * null class).
   */
  function AsWrittenClassBindings(registered: seq<AnnotationType>, c: ComponentClass): Result<seq<Annotation>>
    requires !WalkDiverges(registered, c)
  {
    var own := BindingAnnotations(registered, c.annotations);
    match c.superclass
    case None => if own == [] then Failure(NullPointerException) else Success(own)
    case Some(s) =>
      if own != [] || s == ObjectClass then Success(own)
      else Success(BindingAnnotations(registered, s.annotations))
  }

  /**
   * When the walk diverges, its second pass reaches a state that the loop
   * condition keeps and that every further pass reproduces.
   */
  lemma DivergentWalkRepeats(registered: seq<AnnotationType>, c: ComponentClass)
    requires WalkDiverges(registered, c)
    ensures var first := WalkPass(registered, c, c);
      && WalkContinues(first)
      && var second := WalkPass(registered, c, first.next.value);
      && WalkContinues(second)
      && second.next.Some?
      && WalkPass(registered, c, second.next.value) == second
  {
  }

  /**
   * Wherever the walk as written returns, it returns what the documented
   * inheritance gives; it throws exactly for a class without superclass and
   * without bindings.
   */
  lemma AsWrittenAgreesWithInherited(registered: seq<AnnotationType>, c: ComponentClass)
    requires !WalkDiverges(registered, c)
    ensures AsWrittenClassBindings(registered, c).Success? ==> AsWrittenClassBindings(registered, c).value == InheritedBindings(registered, c)
    ensures AsWrittenClassBindings(registered, c).Failure? <==> c.superclass.None? && BindingAnnotations(registered, c.annotations) == []
  {
  }

  /** The binding types a new manager registers. */
  const DefaultBindingTypes := [PostConstructType, PreDestroyType]

  /**
   * A class without bindings whose superclass has none either: the walk as
   * written never ends, though the documented inheritance gives no bindings.
   */
  lemma UnboundSubclassNeverLeavesLoop()
    ensures var base := ComponentClass("Base", [], Some(ObjectClass));
      var service := ComponentClass("Service", [], Some(base));
      && WalkDiverges(DefaultBindingTypes, service)
      && InheritedBindings(DefaultBindingTypes, service) == []
  {
  }

  /**
   * A binding declared two levels up, of a type that is not @Inherited, is
   * documented as inherited, but the walk as written never reaches it and
   * never ends.
   */
  lemma GrandparentBindingNeverReached()
    ensures var logged := Annotation(AnnotationType("Logged", true), [], []);
      var a := ComponentClass("A", [logged], Some(ObjectClass));
      var b := ComponentClass("B", [], Some(a));
      var c := ComponentClass("C", [], Some(b));
      && WalkDiverges(DefaultBindingTypes, c)
      && InheritedBindings(DefaultBindingTypes, c) == [logged]
  {
    var logged := Annotation(AnnotationType("Logged", true), [], []);
    var a := ComponentClass("A", [logged], Some(ObjectClass));
    var b := ComponentClass("B", [], Some(a));
    assert BindingAnnotations(DefaultBindingTypes, [logged]) == [logged];
    assert InheritedBindings(DefaultBindingTypes, a) == [logged];
    assert InheritedBindings(DefaultBindingTypes, b) == [logged];
  }

  /**
   * An interface without bindings (a default method's declaring class): the
   * walk as written examines a null superclass and throws.
   */
  lemma UnboundInterfaceThrows()
    ensures var repository := ComponentClass("Repository", [], None);
      && AsWrittenClassBindings(DefaultBindingTypes, repository) == Failure(NullPointerException)
      && InheritedBindings(DefaultBindingTypes, repository) == []
  {
  }

  /** How a call of the source's binding resolution ends. */
  datatype Outcome = Returned(bindings: seq<Annotation>) | Threw(fault: Fault) | NeverReturns

  /** The outcome of the class-level walk as written, for every class. */
  function AsWrittenClassOutcome(registered: seq<AnnotationType>, c: ComponentClass): Outcome {
    if WalkDiverges(registered, c) then NeverReturns
    else match AsWrittenClassBindings(registered, c)
      case Success(b) => Returned(b)
      case Failure(f) => Threw(f)
  }

  /**
   * The outcome of resolving an executable's bindings as written: its own
   * binding annotations, or else the class-level walk as written.
   */
  function AsWrittenExecutableOutcome(registered: seq<AnnotationType>, e: Executable): Outcome {
    var own := BindingAnnotations(registered, e.annotations);
    if own != [] then Returned(own) else AsWrittenClassOutcome(registered, e.declaringClass)
  }

  /**
   * Wherever the source's resolution returns, it returns the bindings the
   * model resolves; it throws exactly for an unbound executable of an unbound
   * class without superclass, and never returns exactly when the class walk
   * diverges.
   */
  lemma AsWrittenExecutableAgrees(registered: seq<AnnotationType>, e: Executable)
    ensures AsWrittenExecutableOutcome(registered, e).Returned? ==>
      AsWrittenExecutableOutcome(registered, e).bindings == ExecutableBindings(registered, e)
    ensures AsWrittenExecutableOutcome(registered, e).Threw? <==>
      BindingAnnotations(registered, e.annotations) == [] && e.declaringClass.superclass.None?
      && BindingAnnotations(registered, e.declaringClass.annotations) == []
    ensures AsWrittenExecutableOutcome(registered, e) == NeverReturns <==>
      BindingAnnotations(registered, e.annotations) == [] && WalkDiverges(registered, e.declaringClass)
  {
    if BindingAnnotations(registered, e.annotations) == [] && !WalkDiverges(registered, e.declaringClass) {
      AsWrittenAgreesWithInherited(registered, e.declaringClass);
    }
  }

  // ---------------------------------------------------------------------
  // The chain.
  // ---------------------------------------------------------------------

  /**
   * The bindings of a method or constructor: its own binding annotations if
   * it has any, otherwise those of its declaring class (with inheritance).
   */
  function ExecutableBindings(registered: seq<AnnotationType>, e: Executable): seq<Annotation> {
    var own := BindingAnnotations(registered, e.annotations);
    if own != [] then own else InheritedBindings(registered, e.declaringClass)
  }

  /**
   * Executable-level bindings take precedence over class-level ones; either
   * way only binding annotations are kept, once each.
   */
  lemma ExecutableBindingsPrecedence(registered: seq<AnnotationType>, e: Executable)
    ensures var own := BindingAnnotations(registered, e.annotations);
      && (own != [] ==> ExecutableBindings(registered, e) == own)
      && (own == [] ==> ExecutableBindings(registered, e) == InheritedBindings(registered, e.declaringClass))
      && (forall a :: a in ExecutableBindings(registered, e) ==> IsBindingType(registered, a.annotationType))
      && NoDuplicates(ExecutableBindings(registered, e))
  {
    BindingAnnotationsMembers(registered, e.annotations);
    BindingAnnotationsDistinct(registered, e.annotations);
    InheritedBindingsAreBindings(registered, e.declaringClass);
  }

  /**
   * The bindings of an executable as its documentation describes them: those
   * of the class (with inheritance) combined with its own, each once.
   */
  function CombinedBindings(registered: seq<AnnotationType>, e: Executable): seq<Annotation>
  {
    BindingAnnotations(registered, InheritedBindings(registered, e.declaringClass) + e.annotations)
  }

  /**
   * An annotation is among the combined bindings exactly when it is among
   * the class-level or the executable-level ones, and each is a binding.
   */
  lemma CombinedBindingsHasBoth(registered: seq<AnnotationType>, e: Executable)
    ensures forall a :: a in CombinedBindings(registered, e) <==>
      a in InheritedBindings(registered, e.declaringClass) || a in BindingAnnotations(registered, e.annotations)
    ensures forall a :: a in CombinedBindings(registered, e) ==> IsBindingType(registered, a.annotationType)
    ensures NoDuplicates(CombinedBindings(registered, e))
  {
    BindingAnnotationsMembers(registered, e.annotations);
    BindingAnnotationsMembers(registered, InheritedBindings(registered, e.declaringClass) + e.annotations);
    BindingAnnotationsDistinct(registered, InheritedBindings(registered, e.declaringClass) + e.annotations);
    InheritedBindingsAreBindings(registered, e.declaringClass);
  }

  /**
   * A method with its own binding on a class with another: the documentation
   * combines both, the code keeps the method's alone.
   */
  lemma MethodBindingsHideClassBindings()
    ensures var logged := Annotation(AnnotationType("Logged", true), [], []);
      var timed := Annotation(AnnotationType("Timed", true), [], []);
      var service := ComponentClass("Service", [logged], Some(ObjectClass));
      var m := Method(service, "handle", [], [timed]);
      && ExecutableBindings(DefaultBindingTypes, m) == [timed]
      && logged in CombinedBindings(DefaultBindingTypes, m)
      && logged !in ExecutableBindings(DefaultBindingTypes, m)
  {
    var logged := Annotation(AnnotationType("Logged", true), [], []);
    var timed := Annotation(AnnotationType("Timed", true), [], []);
    assert BindingAnnotations(DefaultBindingTypes, [logged]) == [logged];
    assert BindingAnnotations(DefaultBindingTypes, [timed]) == [timed];
  }

  /** The key under which the binding interceptors of `e` are looked up. */
  function BindingsKey(registered: seq<AnnotationType>, e: Executable): InterceptorBindings {
    InterceptorBindings(ToSet(ExecutableBindings(registered, e)))
  }

  /** Default interceptors are excluded when the executable carries @ExcludeDefaultInterceptors. */
  predicate ExcludesDefaultInterceptors(e: Executable): (r: bool)
    ensures r <==> exists a :: a in e.annotations && a.annotationType == ExcludeDefaultInterceptorsType
  {
    FindAnnotation(e.annotations, ExcludeDefaultInterceptorsType).Some?
  }

  /** Class-level @Interceptors are excluded when the executable carries @ExcludeClassInterceptors. */
  predicate ExcludesClassInterceptors(e: Executable): (r: bool)
    ensures r <==> exists a :: a in e.annotations && a.annotationType == ExcludeClassInterceptorsType
  {
    FindAnnotation(e.annotations, ExcludeClassInterceptorsType).Some?
  }

  /** The classes listed by the @Interceptors annotation among `annotations`, if any. */
  function InterceptorsValue(annotations: seq<Annotation>): seq<InterceptorClass> {
    match FindAnnotation(annotations, InterceptorsType)
    case None => []
    case Some(a) => a.classes
  }

  /** The class-level @Interceptors classes that apply to `e`. */
  function ClassLevelInterceptorClasses(e: Executable): seq<InterceptorClass> {
    if ExcludesClassInterceptors(e) then [] else InterceptorsValue(e.declaringClass.annotations)
  }

  /** Class-level @Interceptors (unless excluded), then the executable's own. */
  function AnnotatedInterceptorClasses(e: Executable): seq<InterceptorClass> {
    ClassLevelInterceptorClasses(e) + InterceptorsValue(e.annotations)
  }

  function UnwrapAll(classes: seq<InterceptorClass>): (r: seq<Interceptor>)
    ensures |r| == |classes|
    ensures forall k :: 0 <= k < |r| ==> r[k] == Unwrap(classes[k])
  {
    if classes == [] then [] else [Unwrap(classes[0])] + UnwrapAll(classes[1..])
  }

  /** The interceptors resolved through @Interceptors, in order. */
  function AnnotatedInterceptors(e: Executable): seq<Interceptor> {
    UnwrapAll(AnnotatedInterceptorClasses(e))
  }

  /** The interceptors resolved through interceptor bindings. */
  function BindingInterceptors(registered: seq<AnnotationType>, bindingInterceptors: map<InterceptorBindings, seq<Interceptor>>, e: Executable): seq<Interceptor> {
    InterceptorsUnder(bindingInterceptors, BindingsKey(registered, e))
  }

  /** The default interceptors that apply to `e`. */
  function DefaultsFor(e: Executable, defaultInterceptors: seq<Interceptor>): seq<Interceptor> {
    if ExcludesDefaultInterceptors(e) then [] else defaultInterceptors
  }

  /** The four groups of the chain, in rule order, before priority sorting. */
  function UnsortedChain(registered: seq<AnnotationType>, bindingInterceptors: map<InterceptorBindings, seq<Interceptor>>,
                         e: Executable, defaultInterceptors: seq<Interceptor>): seq<Interceptor>
  {
    DefaultsFor(e, defaultInterceptors) + AnnotatedInterceptors(e) + BindingInterceptors(registered, bindingInterceptors, e)
  }

  lemma {:induction false} UnwrapAllAppend(xs: seq<InterceptorClass>, ys: seq<InterceptorClass>)
    ensures UnwrapAll(xs + ys) == UnwrapAll(xs) + UnwrapAll(ys)
  {
  }

  /**
   * The unsorted chain lays the groups end to end, every occurrence of every
   * group kept (no deduplication across groups): the applicable defaults,
   * class-level @Interceptors unless excluded, the executable's own
   * @Interceptors, then the binding interceptors.
   */
  lemma UnsortedChainGroups(registered: seq<AnnotationType>, bindingInterceptors: map<InterceptorBindings, seq<Interceptor>>,
                            e: Executable, defaultInterceptors: seq<Interceptor>)
    ensures UnsortedChain(registered, bindingInterceptors, e, defaultInterceptors)
      == DefaultsFor(e, defaultInterceptors)
       + UnwrapAll(ClassLevelInterceptorClasses(e))
       + UnwrapAll(InterceptorsValue(e.annotations))
       + BindingInterceptors(registered, bindingInterceptors, e)
  {
    var classes := ClassLevelInterceptorClasses(e);
    var own := InterceptorsValue(e.annotations);
    UnwrapAllAppend(classes, own);
    Regroup(DefaultsFor(e, defaultInterceptors), UnwrapAll(classes), UnwrapAll(own), BindingInterceptors(registered, bindingInterceptors, e));
  }

  lemma Regroup<T>(a: seq<T>, b: seq<T>, c: seq<T>, d: seq<T>)
    ensures a + (b + c) + d == a + b + c + d
  {
  }

  /** A binding interceptor is found exactly when registered under the executable's exact binding set. */
  lemma BindingInterceptorsLookup(registered: seq<AnnotationType>, bindingInterceptors: map<InterceptorBindings, seq<Interceptor>>, e: Executable)
    ensures BindingsKey(registered, e) !in bindingInterceptors ==> BindingInterceptors(registered, bindingInterceptors, e) == []
    ensures forall i :: i in BindingInterceptors(registered, bindingInterceptors, e) <==>
      BindingsKey(registered, e) in bindingInterceptors && i in bindingInterceptors[BindingsKey(registered, e)]
  {
  }
}
