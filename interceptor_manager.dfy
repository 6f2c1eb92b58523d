/**
 * The convenience operations of the interceptor-manager interface, written
 * over the default manager: registering several classes or interceptors
 * (a first one plus the rest, an array, a sequence) and resolving the chain
 * of a method or of a constructor.
 */
module InterceptorManager {
  import opened Reflection
  import opened PriorityOrder
  import Registration
  import opened Resolution
  import opened DefaultInterceptorManager

  /** Registering each class of a sequence in order, one at a time. */
  method RegisterInterceptorClassesFromIterable(manager: DefaultInterceptorManager, interceptorClasses: seq<InterceptorClass>)
    requires manager.Valid()
    modifies manager`interceptorInfoRepository
    ensures manager.Valid()
    ensures manager.interceptorInfoRepository == Registration.RegisterClasses(old(manager.interceptorInfoRepository), interceptorClasses)
  {
    for k := 0 to |interceptorClasses|
      invariant manager.Valid()
      invariant manager.interceptorInfoRepository == Registration.RegisterClasses(old(manager.interceptorInfoRepository), interceptorClasses[..k])
    {
      manager.RegisterInterceptorClass(interceptorClasses[k]);
      assert interceptorClasses[..k + 1][..k] == interceptorClasses[..k];
    }
    assert interceptorClasses[..|interceptorClasses|] == interceptorClasses;
  }

  /** Registering the classes of an array, as a list view of it. */
  method RegisterInterceptorClassesFromArray(manager: DefaultInterceptorManager, interceptorClasses: array<InterceptorClass>)
    requires manager.Valid()
    modifies manager`interceptorInfoRepository
    ensures manager.Valid()
    ensures manager.interceptorInfoRepository == Registration.RegisterClasses(old(manager.interceptorInfoRepository), interceptorClasses[..])
  {
    RegisterInterceptorClassesFromIterable(manager, interceptorClasses[..]);
  }

  /** Registering a first class, then the others (the variable-arity array) in order. */
  method RegisterInterceptorClasses(manager: DefaultInterceptorManager, interceptorClass: InterceptorClass, otherInterceptorClasses: array<InterceptorClass>)
    requires manager.Valid()
    modifies manager`interceptorInfoRepository
    ensures manager.Valid()
    ensures manager.interceptorInfoRepository == Registration.RegisterClasses(old(manager.interceptorInfoRepository), [interceptorClass] + otherInterceptorClasses[..])
  {
    manager.RegisterInterceptorClass(interceptorClass);
    assert [interceptorClass][..0] == [];
    RegisterInterceptorClassesFromArray(manager, otherInterceptorClasses);
    Registration.RegisterClassesAppend(old(manager.interceptorInfoRepository), [interceptorClass], otherInterceptorClasses[..]);
  }

  /** Registering each interceptor of a sequence in order, one at a time. */
  method RegisterInterceptorsFromIterable(manager: DefaultInterceptorManager, interceptors: seq<Interceptor>)
    requires manager.Valid()
    modifies manager`interceptorInfoRepository, manager`bindingInterceptors
    ensures manager.Valid()
    ensures manager.State() == Registration.RegisterInterceptors(old(manager.State()), interceptors)
  {
    for k := 0 to |interceptors|
      invariant manager.Valid()
      invariant manager.State() == Registration.RegisterInterceptors(old(manager.State()), interceptors[..k])
    {
      manager.RegisterInterceptor(interceptors[k]);
      assert interceptors[..k + 1][..k] == interceptors[..k];
    }
    assert interceptors[..|interceptors|] == interceptors;
  }

  /** Registering the interceptors of an array, as a list view of it. */
  method RegisterInterceptorsFromArray(manager: DefaultInterceptorManager, interceptors: array<Interceptor>)
    requires manager.Valid()
    modifies manager`interceptorInfoRepository, manager`bindingInterceptors
    ensures manager.Valid()
    ensures manager.State() == Registration.RegisterInterceptors(old(manager.State()), interceptors[..])
  {
    RegisterInterceptorsFromIterable(manager, interceptors[..]);
  }

  /** Registering a first interceptor, then the others (the variable-arity array) in order. */
  method RegisterInterceptors(manager: DefaultInterceptorManager, interceptor: Interceptor, otherInterceptors: array<Interceptor>)
    requires manager.Valid()
    modifies manager`interceptorInfoRepository, manager`bindingInterceptors
    ensures manager.Valid()
    ensures manager.State() == Registration.RegisterInterceptors(old(manager.State()), [interceptor] + otherInterceptors[..])
  {
    manager.RegisterInterceptor(interceptor);
    assert [interceptor][..0] == [];
    RegisterInterceptorsFromArray(manager, otherInterceptors);
    Registration.RegisterInterceptorsAppend(old(manager.State()), [interceptor], otherInterceptors[..]);
  }

  /** The chain of a method: the chain of it as an executable. */
  method ResolveMethodInterceptors(manager: DefaultInterceptorManager, m: MethodExecutable, defaultInterceptors: seq<Interceptor>) returns (interceptors: seq<Interceptor>)
    requires manager.Valid()
    modifies manager`interceptorsCache
    ensures manager.Valid()
    ensures Sorted(interceptors)
    ensures m in old(manager.interceptorsCache) ==>
      interceptors == old(manager.interceptorsCache)[m] && manager.interceptorsCache == old(manager.interceptorsCache)
    ensures m !in old(manager.interceptorsCache) ==>
      && multiset(interceptors) == multiset(UnsortedChain(manager.interceptorBindingTypes, manager.bindingInterceptors, m, defaultInterceptors))
      && manager.interceptorsCache == old(manager.interceptorsCache)[m := interceptors]
  {
    interceptors := manager.ResolveInterceptors(m, defaultInterceptors);
  }

  /** The chain of a constructor: the chain of it as an executable. */
  method ResolveConstructorInterceptors(manager: DefaultInterceptorManager, c: ConstructorExecutable, defaultInterceptors: seq<Interceptor>) returns (interceptors: seq<Interceptor>)
    requires manager.Valid()
    modifies manager`interceptorsCache
    ensures manager.Valid()
    ensures Sorted(interceptors)
    ensures c in old(manager.interceptorsCache) ==>
      interceptors == old(manager.interceptorsCache)[c] && manager.interceptorsCache == old(manager.interceptorsCache)
    ensures c !in old(manager.interceptorsCache) ==>
      && multiset(interceptors) == multiset(UnsortedChain(manager.interceptorBindingTypes, manager.bindingInterceptors, c, defaultInterceptors))
      && manager.interceptorsCache == old(manager.interceptorsCache)[c := interceptors]
  {
    interceptors := manager.ResolveInterceptors(c, defaultInterceptors);
  }
}
