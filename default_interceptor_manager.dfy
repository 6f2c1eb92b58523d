/**
 * The default interceptor manager: a registry of interceptor-binding types,
 * interceptor metadata and interceptors filed by binding set, together with
 * a per-executable cache of resolved, priority-ordered interceptor chains.
 *
 * The two interface defaults that the manager calls on itself
 * (the bindings of an interceptor class, and whether an annotation is a
 * binding) are members of the class here.
 */
module DefaultInterceptorManager {
  import opened Reflection
  import opened PriorityOrder
  import opened Registration
  import opened Resolution

  class DefaultInterceptorManager {
    /** The annotation types registered as interceptor bindings, in registration order. */
    var interceptorBindingTypes: seq<AnnotationType>
    /** The metadata of every registered interceptor class. */
    var interceptorInfoRepository: map<InterceptorClass, InterceptorInfo>
    /** Binding set to the priority-ordered set of interceptors filed under it. */
    var bindingInterceptors: map<InterceptorBindings, seq<Interceptor>>
    /** Method or constructor to its resolved chain. */
    var interceptorsCache: map<Executable, seq<Interceptor>>

    /** The two registries as a value. */
    function State(): RegistryState
      reads this
    {
      RegistryState(interceptorInfoRepository, bindingInterceptors)
    }

    ghost predicate Valid()
      reads this
    {
      && NoDuplicates(interceptorBindingTypes)
      && PostConstructType in interceptorBindingTypes
      && PreDestroyType in interceptorBindingTypes
      && WellFormed(State())
      && (forall e :: e in interceptorsCache ==> Sorted(interceptorsCache[e]))
    }

    constructor ()
      ensures Valid()
      ensures interceptorBindingTypes == DefaultBindingTypes
      ensures interceptorInfoRepository == map[] && bindingInterceptors == map[] && interceptorsCache == map[]
      ensures IsInterceptorBindingType(PostConstructType) && IsInterceptorBindingType(PreDestroyType)
    {
      interceptorBindingTypes := [];
      interceptorInfoRepository := map[];
      bindingInterceptors := map[];
      interceptorsCache := map[];
      new;
      RegisterDefaultInterceptorBindingType();
    }

    /** Adds an annotation type to the binding types, keeping each type once. */
    method RegisterInterceptorBindingType(interceptorBindingType: AnnotationType)
      modifies this`interceptorBindingTypes
      ensures interceptorBindingTypes ==
        if interceptorBindingType in old(interceptorBindingTypes) then old(interceptorBindingTypes)
        else old(interceptorBindingTypes) + [interceptorBindingType]
      ensures IsInterceptorBindingType(interceptorBindingType)
      ensures forall t :: t != interceptorBindingType ==> (IsInterceptorBindingType(t) <==> old(IsInterceptorBindingType(t)))
      ensures old(Valid()) ==> Valid()
      ensures old(NoDuplicates(interceptorBindingTypes)) ==> NoDuplicates(interceptorBindingTypes)
    {
      if interceptorBindingType !in interceptorBindingTypes {
        interceptorBindingTypes := interceptorBindingTypes + [interceptorBindingType];
      }
    }

    method RegisterDefaultInterceptorBindingType()
      requires interceptorBindingTypes == []
      modifies this`interceptorBindingTypes
      ensures interceptorBindingTypes == DefaultBindingTypes
    {
      RegisterInterceptorBindingType(PostConstructType);
      RegisterInterceptorBindingType(PreDestroyType);
    }

    /** A binding type is meta-annotated with @InterceptorBinding or registered. */
    function IsInterceptorBindingType(annotationType: AnnotationType): (r: bool)
      reads this
      ensures annotationType.interceptorBindingMeta ==> r
      ensures Valid() && annotationType in DefaultBindingTypes ==> r
      ensures r && !annotationType.interceptorBindingMeta ==> annotationType in GetInterceptorBindingTypes()
    {
      IsBindingType(interceptorBindingTypes, annotationType)
    }

    /** An annotation is a binding when its type is a binding type. */
    function IsInterceptorBinding(annotation: Annotation): (r: bool)
      reads this
      ensures annotation.annotationType.interceptorBindingMeta ==> r
      ensures Valid() && annotation.annotationType in DefaultBindingTypes ==> r
      ensures r && !annotation.annotationType.interceptorBindingMeta ==> annotation.annotationType in GetInterceptorBindingTypes()
    {
      IsInterceptorBindingType(annotation.annotationType)
    }

    /** The read-only view of the registered binding types. */
    function GetInterceptorBindingTypes(): seq<AnnotationType>
      reads this
    {
      interceptorBindingTypes
    }

    /** The metadata of a registered class; None stands for null. */
    function GetInterceptorInfo(interceptorClass: InterceptorClass): (r: Option<InterceptorInfo>)
      reads this
      ensures r.None? <==> interceptorClass !in interceptorInfoRepository
      ensures Valid() && r.Some? ==> r.value == NewInterceptorInfo(interceptorClass) == InterceptorInfoOf(interceptorInfoRepository, interceptorClass)
      ensures Valid() && r.Some? ==> r.value.interceptorClass == interceptorClass && r.value.interceptorBindings.annotations == interceptorClass.bindings
    {
      LookupInfo(interceptorInfoRepository, interceptorClass)
    }

    /**
     * The bindings held in the class's metadata; dereferencing the missing
     * metadata of an unregistered class throws.
     */
    function GetInterceptorBindings(interceptorClass: InterceptorClass): (r: Result<InterceptorBindings>)
      reads this
      ensures r.Failure? <==> GetInterceptorInfo(interceptorClass).None?
      ensures r.Success? ==> r.value == GetInterceptorInfo(interceptorClass).value.interceptorBindings
      ensures Valid() && r.Success? ==> r.value.annotations == interceptorClass.bindings
    {
      match GetInterceptorInfo(interceptorClass)
      case None => Failure(NullPointerException)
      case Some(info) => Success(info.interceptorBindings)
    }

    /** Registers a class's metadata unless the class is already present. */
    method RegisterInterceptorClass(interceptorClass: InterceptorClass)
      requires Valid()
      modifies this`interceptorInfoRepository
      ensures Valid()
      ensures interceptorInfoRepository == RegisterClass(old(interceptorInfoRepository), interceptorClass)
      ensures old(interceptorClass in interceptorInfoRepository) ==> interceptorInfoRepository == old(interceptorInfoRepository)
      ensures interceptorInfoRepository.Keys == old(interceptorInfoRepository.Keys) + {interceptorClass}
      ensures GetInterceptorInfo(interceptorClass) == Some(NewInterceptorInfo(interceptorClass))
    {
      if interceptorClass !in interceptorInfoRepository {
        interceptorInfoRepository := interceptorInfoRepository[interceptorClass := NewInterceptorInfo(interceptorClass)];
      }
    }

    /**
     * Registers the interceptor's class, then files the interceptor in the
     * priority-ordered set under its class's bindings. The cache is left as
     * it is.
     */
    method RegisterInterceptor(interceptor: Interceptor)
      requires Valid()
      modifies this`interceptorInfoRepository, this`bindingInterceptors
      ensures Valid()
      ensures State() == Registration.RegisterInterceptor(old(State()), interceptor)
      ensures interceptor.interceptorClass in interceptorInfoRepository
      ensures BindingsOf(interceptor) in bindingInterceptors
      ensures HasPeer(bindingInterceptors[BindingsOf(interceptor)], interceptor)
      ensures !HasPeer(InterceptorsUnder(old(bindingInterceptors), BindingsOf(interceptor)), interceptor) ==>
        interceptor in bindingInterceptors[BindingsOf(interceptor)]
      ensures forall k :: k != BindingsOf(interceptor) ==> InterceptorsUnder(bindingInterceptors, k) == InterceptorsUnder(old(bindingInterceptors), k)
    {
      var interceptorClass := interceptor.interceptorClass;
      RegisterInterceptorClass(interceptorClass);
      var interceptorBindings := GetInterceptorBindings(interceptorClass).value;
      var interceptors := if interceptorBindings in bindingInterceptors then bindingInterceptors[interceptorBindings] else [];
      bindingInterceptors := bindingInterceptors[interceptorBindings := SortedSetAdd(interceptors, interceptor)];
      RegisterInterceptorEffect(old(State()), interceptor);
    }

    /**
     * The binding annotations among `annotations`: those of a binding type,
     * in declaration order, each once.
     */
    method DoGetInterceptorBindings(annotations: seq<Annotation>) returns (interceptorBindings: seq<Annotation>)
      ensures interceptorBindings == BindingAnnotations(interceptorBindingTypes, annotations)
      ensures forall a :: a in interceptorBindings <==> a in annotations && IsInterceptorBinding(a)
      ensures NoDuplicates(interceptorBindings)
      ensures InDeclarationOrder(interceptorBindings, annotations)
    {
      interceptorBindings := [];
      for i := 0 to |annotations|
        invariant interceptorBindings == BindingAnnotations(interceptorBindingTypes, annotations[..i])
      {
        var annotation := annotations[i];
        assert annotations[..i + 1][..i] == annotations[..i];
        if IsInterceptorBinding(annotation) && annotation !in interceptorBindings {
          interceptorBindings := interceptorBindings + [annotation];
        }
      }
      assert annotations[..|annotations|] == annotations;
      BindingAnnotationsMembers(interceptorBindingTypes, annotations);
      BindingAnnotationsDistinct(interceptorBindingTypes, annotations);
      BindingAnnotationsInDeclarationOrder(interceptorBindingTypes, annotations);
    }

    /**
     * The class-level walk as written: it examines the class, then its
     * direct superclass, and stays there. It is only called where it ends.
     */
    method ResolveClassInterceptorBindingsAsWritten(componentClass: ComponentClass) returns (r: Result<InterceptorBindings>)
      requires !WalkDiverges(interceptorBindingTypes, componentClass)
      ensures AsWrittenClassBindings(interceptorBindingTypes, componentClass).Failure? ==> r == Failure(NullPointerException)
      ensures AsWrittenClassBindings(interceptorBindingTypes, componentClass).Success? ==>
        r == Success(InterceptorBindings(ToSet(AsWrittenClassBindings(interceptorBindingTypes, componentClass).value)))
    {
      var interceptorBindings := DoGetInterceptorBindings(componentClass.annotations);
      var t := componentClass.superclass;
      ghost var passes := 1;
      while WalkContinues(WalkState(t, interceptorBindings))
        invariant 1 <= passes <= 2
        invariant passes == 1 ==> WalkState(t, interceptorBindings) == WalkPass(interceptorBindingTypes, componentClass, componentClass)
        invariant passes == 2 ==>
          && WalkContinues(WalkPass(interceptorBindingTypes, componentClass, componentClass))
          && componentClass.superclass.Some?
          && WalkState(t, interceptorBindings) == WalkPass(interceptorBindingTypes, componentClass, componentClass.superclass.value)
          && !WalkContinues(WalkState(t, interceptorBindings))
        decreases 2 - passes
      {
        if t.None? {
          return Failure(NullPointerException);
        }
        interceptorBindings := DoGetInterceptorBindings(t.value.annotations);
        t := componentClass.superclass;
        passes := passes + 1;
      }
      r := Success(InterceptorBindings(ToSet(interceptorBindings)));
    }

    /**
     * The class-level bindings: those of the class, else of the nearest
     * superclass below java.lang.Object that has any.
     */
    method ResolveClassInterceptorBindings(componentClass: ComponentClass) returns (bindings: InterceptorBindings)
      ensures bindings == InterceptorBindings(ToSet(InheritedBindings(interceptorBindingTypes, componentClass)))
      ensures forall a :: a in bindings.annotations ==> IsInterceptorBinding(a)
    {
      var interceptorBindings := DoGetInterceptorBindings(componentClass.annotations);
      var t := componentClass.superclass;
      while t.Some? && t.value != ObjectClass && interceptorBindings == []
        invariant InheritedBindings(interceptorBindingTypes, componentClass) ==
          if interceptorBindings != [] then interceptorBindings else InheritedFrom(interceptorBindingTypes, t)
        decreases t
      {
        interceptorBindings := DoGetInterceptorBindings(t.value.annotations);
        t := t.value.superclass;
      }
      bindings := InterceptorBindings(ToSet(interceptorBindings));
      InheritedBindingsAreBindings(interceptorBindingTypes, componentClass);
    }

    /**
     * The bindings of a method or constructor: its own binding annotations,
     * or the class-level ones when it has none.
     */
    method ResolveInterceptorBindings(executable: Executable) returns (bindings: InterceptorBindings)
      ensures bindings == BindingsKey(interceptorBindingTypes, executable)
      ensures forall a :: a in bindings.annotations ==> IsInterceptorBinding(a)
      ensures AsWrittenExecutableOutcome(interceptorBindingTypes, executable).Returned? ==>
        bindings == InterceptorBindings(ToSet(AsWrittenExecutableOutcome(interceptorBindingTypes, executable).bindings))
    {
      AsWrittenExecutableAgrees(interceptorBindingTypes, executable);
      var interceptorBindings := DoGetInterceptorBindings(executable.annotations);
      if interceptorBindings == [] {
        bindings := ResolveClassInterceptorBindings(executable.declaringClass);
        return;
      }
      bindings := InterceptorBindings(ToSet(interceptorBindings));
    }

    /** The interceptors filed under the executable's exact binding set, or none. */
    method ResolveBindingInterceptors(executable: Executable) returns (interceptors: seq<Interceptor>)
      ensures interceptors == BindingInterceptors(interceptorBindingTypes, bindingInterceptors, executable)
      ensures BindingsKey(interceptorBindingTypes, executable) !in bindingInterceptors ==> interceptors == []
      ensures Valid() ==> StrictlySorted(interceptors)
      ensures AsWrittenExecutableOutcome(interceptorBindingTypes, executable).Returned? ==>
        interceptors == InterceptorsUnder(bindingInterceptors, InterceptorBindings(ToSet(AsWrittenExecutableOutcome(interceptorBindingTypes, executable).bindings)))
    {
      var interceptorBindings := ResolveInterceptorBindings(executable);
      interceptors := if interceptorBindings in bindingInterceptors then bindingInterceptors[interceptorBindings] else [];
    }

    /**
     * The interceptors named by @Interceptors: on the declaring class unless
     * the executable excludes class interceptors, then on the executable.
     */
    method ResolveAnnotatedInterceptors(executable: Executable) returns (interceptors: seq<Interceptor>)
      ensures interceptors == AnnotatedInterceptors(executable)
      ensures |interceptors| == |AnnotatedInterceptorClasses(executable)|
      ensures forall k :: 0 <= k < |interceptors| ==> interceptors[k].interceptorClass == AnnotatedInterceptorClasses(executable)[k]
    {
      var componentClass := executable.declaringClass;
      var interceptorClasses: seq<InterceptorClass> := [];
      if !ExcludesClassInterceptors(executable) {
        var classInterceptors := FindAnnotation(componentClass.annotations, InterceptorsType);
        if classInterceptors.Some? {
          var value := classInterceptors.value.classes;
          for i := 0 to |value|
            invariant interceptorClasses == value[..i]
          {
            interceptorClasses := interceptorClasses + [value[i]];
          }
        }
      }
      assert interceptorClasses == ClassLevelInterceptorClasses(executable);
      var executableInterceptors := FindAnnotation(executable.annotations, InterceptorsType);
      if executableInterceptors.Some? {
        var value := executableInterceptors.value.classes;
        ghost var classLevel := interceptorClasses;
        for i := 0 to |value|
          invariant interceptorClasses == classLevel + value[..i]
        {
          interceptorClasses := interceptorClasses + [value[i]];
        }
      }
      assert interceptorClasses == AnnotatedInterceptorClasses(executable);
      interceptors := UnwrapAll(interceptorClasses);
    }

    /**
     * The interceptor chain of a method or constructor. A cached chain is
     * returned as it is, whatever the default interceptors passed. Otherwise
     * the chain is the defaults (unless excluded), the class-level and then
     * the executable's @Interceptors, then the binding interceptors, sorted
     * by priority, and it is cached.
     */
    method ResolveInterceptors(executable: Executable, defaultInterceptors: seq<Interceptor>) returns (interceptors: seq<Interceptor>)
      requires Valid()
      modifies this`interceptorsCache
      ensures Valid()
      ensures Sorted(interceptors)
      ensures executable in old(interceptorsCache) ==>
        interceptors == old(interceptorsCache)[executable] && interceptorsCache == old(interceptorsCache)
      ensures executable !in old(interceptorsCache) ==>
        && multiset(interceptors) == multiset(UnsortedChain(interceptorBindingTypes, bindingInterceptors, executable, defaultInterceptors))
        && interceptorsCache == old(interceptorsCache)[executable := interceptors]
      ensures executable !in old(interceptorsCache) && AsWrittenExecutableOutcome(interceptorBindingTypes, executable).Returned? ==>
        multiset(interceptors) == multiset(
          DefaultsFor(executable, defaultInterceptors) + AnnotatedInterceptors(executable)
          + InterceptorsUnder(bindingInterceptors, InterceptorBindings(ToSet(AsWrittenExecutableOutcome(interceptorBindingTypes, executable).bindings))))
    {
      AsWrittenExecutableAgrees(interceptorBindingTypes, executable);
      if executable in interceptorsCache {
        return interceptorsCache[executable];
      }
      var collected: seq<Interceptor> := [];
      if !ExcludesDefaultInterceptors(executable) {
        collected := collected + defaultInterceptors;
      }
      var annotatedInterceptors := ResolveAnnotatedInterceptors(executable);
      collected := collected + annotatedInterceptors;
      var bindingInterceptorSet := ResolveBindingInterceptors(executable);
      collected := collected + bindingInterceptorSet;
      assert collected == UnsortedChain(interceptorBindingTypes, bindingInterceptors, executable, defaultInterceptors);
      interceptors := SortInterceptors(collected);
      interceptorsCache := interceptorsCache[executable := interceptors];
    }
  }
}
