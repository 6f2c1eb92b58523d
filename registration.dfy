/**
 * The two registries of the interceptor manager as values, and what
 * registering one or several interceptor classes or interceptors does to them.
 *
 * `repository` maps each interceptor class to its metadata; entries are
 * added only when absent. `bindingInterceptors` maps an interceptor-binding
 * set to the priority-ordered set of interceptors registered under it.
 */
module Registration {
  import opened Reflection
  import opened PriorityOrder

  datatype RegistryState = RegistryState(
    repository: map<InterceptorClass, InterceptorInfo>,
    bindingInterceptors: map<InterceptorBindings, seq<Interceptor>>)

  /** What the manager keeps true of its registries. */
  predicate WellFormed(st: RegistryState) {
    && (forall c :: c in st.repository ==> st.repository[c] == NewInterceptorInfo(c))
    && (forall k :: k in st.bindingInterceptors ==> StrictlySorted(st.bindingInterceptors[k]))
  }

  /** The interceptors registered under `key`, or none. */
  function InterceptorsUnder(bindingInterceptors: map<InterceptorBindings, seq<Interceptor>>, key: InterceptorBindings): seq<Interceptor> {
    if key in bindingInterceptors then bindingInterceptors[key] else []
  }

  /** Registering one interceptor class: compute the metadata only if absent. */
  function RegisterClass(repository: map<InterceptorClass, InterceptorInfo>, c: InterceptorClass): map<InterceptorClass, InterceptorInfo> {
    if c in repository then repository else repository[c := NewInterceptorInfo(c)]
  }

  /** Registering each class of `cs` in order. */
  function RegisterClasses(repository: map<InterceptorClass, InterceptorInfo>, cs: seq<InterceptorClass>): map<InterceptorClass, InterceptorInfo>
    decreases |cs|
  {
    if cs == [] then repository
    else RegisterClass(RegisterClasses(repository, cs[..|cs| - 1]), cs[|cs| - 1])
  }

  /** Registering an interceptor: its class first, then the interceptor under its class's bindings. */
  function RegisterInterceptor(st: RegistryState, i: Interceptor): RegistryState {
    var repository := RegisterClass(st.repository, i.interceptorClass);
    var key := repository[i.interceptorClass].interceptorBindings;
    var interceptors := InterceptorsUnder(st.bindingInterceptors, key);
    RegistryState(repository, st.bindingInterceptors[key := SortedSetAdd(interceptors, i)])
  }

  /** Registering each interceptor of `interceptors` in order. */
  function RegisterInterceptors(st: RegistryState, interceptors: seq<Interceptor>): RegistryState
    decreases |interceptors|
  {
    if interceptors == [] then st
    else RegisterInterceptor(RegisterInterceptors(st, interceptors[..|interceptors| - 1]), interceptors[|interceptors| - 1])
  }

  /** Looking up a class's metadata as the code does: None (null) unless the class was registered. */
  function LookupInfo(repository: map<InterceptorClass, InterceptorInfo>, c: InterceptorClass): Option<InterceptorInfo> {
    if c in repository then Some(repository[c]) else None
  }

  /**
   * The metadata the interface documents for every interceptor class: the
   * registered metadata, or else metadata computed from the class.
   */
  function InterceptorInfoOf(repository: map<InterceptorClass, InterceptorInfo>, c: InterceptorClass): InterceptorInfo {
    match LookupInfo(repository, c)
    case Some(info) => info
    case None => NewInterceptorInfo(c)
  }

  /**
   * Under the invariant the documented lookup always yields the class's own
   * metadata, agrees with the code's lookup wherever that finds something,
   * and the two agree on every class just registered.
   */
  lemma InterceptorInfoOfIsComputed(st: RegistryState, c: InterceptorClass)
    requires WellFormed(st)
    ensures InterceptorInfoOf(st.repository, c) == NewInterceptorInfo(c)
    ensures InterceptorInfoOf(st.repository, c).interceptorBindings.annotations == c.bindings
    ensures LookupInfo(st.repository, c).Some? ==> LookupInfo(st.repository, c).value == InterceptorInfoOf(st.repository, c)
    ensures LookupInfo(RegisterClass(st.repository, c), c) == Some(InterceptorInfoOf(st.repository, c))
  {
  }

  /**
   * An interceptor class not yet registered: the code's lookup finds
   * nothing, though the documented lookup gives its metadata.
   */
  lemma UnregisteredClassHasNoInfo()
    ensures var logging := InterceptorClass("LoggingInterceptor", 1, {});
      && LookupInfo(map[], logging) == None
      && InterceptorInfoOf(map[], logging) == InterceptorInfo(logging, InterceptorBindings({}))
  {
  }

  /** The key an interceptor is filed under. */
  function BindingsOf(i: Interceptor): InterceptorBindings {
    NewInterceptorInfo(i.interceptorClass).interceptorBindings
  }

  /**
   * Registering a class that is already present changes nothing; otherwise
   * exactly that class gains its metadata and every other entry stays.
   */
  lemma RegisterClassEffect(repository: map<InterceptorClass, InterceptorInfo>, c: InterceptorClass)
    ensures c in repository ==> RegisterClass(repository, c) == repository
    ensures RegisterClass(repository, c).Keys == repository.Keys + {c}
    ensures c !in repository ==> RegisterClass(repository, c)[c] == NewInterceptorInfo(c)
    ensures forall d :: d in repository ==> RegisterClass(repository, c)[d] == repository[d]
  {
  }

  /** Registering `xs` and then `ys` is registering `xs + ys`. */
  lemma {:induction false} RegisterClassesAppend(repository: map<InterceptorClass, InterceptorInfo>, xs: seq<InterceptorClass>, ys: seq<InterceptorClass>)
    ensures RegisterClasses(RegisterClasses(repository, xs), ys) == RegisterClasses(repository, xs + ys)
    decreases |ys|
  {
    if ys == [] {
      assert xs + ys == xs;
    } else {
      RegisterClassesAppend(repository, xs, ys[..|ys| - 1]);
      assert (xs + ys)[..|xs + ys| - 1] == xs + ys[..|ys| - 1];
    }
  }

  /**
   * After registering `cs` the repository holds exactly the old classes and
   * those of `cs`; old entries keep their metadata and new ones get fresh
   * metadata.
   */
  lemma {:induction false} RegisterClassesEffect(repository: map<InterceptorClass, InterceptorInfo>, cs: seq<InterceptorClass>)
    ensures RegisterClasses(repository, cs).Keys == repository.Keys + (set c | c in cs)
    ensures forall d :: d in repository ==> RegisterClasses(repository, cs)[d] == repository[d]
    ensures forall d :: d in cs && d !in repository ==> RegisterClasses(repository, cs)[d] == NewInterceptorInfo(d)
    decreases |cs|
  {
    if cs != [] {
      var front := cs[..|cs| - 1];
      RegisterClassesEffect(repository, front);
      assert cs == front + [cs[|cs| - 1]];
      assert (set c | c in cs) == (set c | c in front) + {cs[|cs| - 1]};
    }
  }

  /** Registering `xs` and then `ys` is registering `xs + ys`. */
  lemma {:induction false} RegisterInterceptorsAppend(st: RegistryState, xs: seq<Interceptor>, ys: seq<Interceptor>)
    ensures RegisterInterceptors(RegisterInterceptors(st, xs), ys) == RegisterInterceptors(st, xs + ys)
    decreases |ys|
  {
    if ys == [] {
      assert xs + ys == xs;
    } else {
      RegisterInterceptorsAppend(st, xs, ys[..|ys| - 1]);
      assert (xs + ys)[..|xs + ys| - 1] == xs + ys[..|ys| - 1];
    }
  }

  /**
   * After registering `i`: its class is in the repository; the set filed
   * under its class's bindings holds an interceptor of its priority, and
   * holds `i` itself unless one of equal priority was there already; the
   * sets under every other key are unchanged; the invariant is kept.
   */
  lemma {:induction false} RegisterInterceptorEffect(st: RegistryState, i: Interceptor)
    requires WellFormed(st)
    ensures var st' := RegisterInterceptor(st, i);
      && WellFormed(st')
      && st'.repository == RegisterClass(st.repository, i.interceptorClass)
      && BindingsOf(i) in st'.bindingInterceptors
      && HasPeer(st'.bindingInterceptors[BindingsOf(i)], i)
      && (!HasPeer(InterceptorsUnder(st.bindingInterceptors, BindingsOf(i)), i) ==> i in st'.bindingInterceptors[BindingsOf(i)])
      && (forall y :: y in InterceptorsUnder(st.bindingInterceptors, BindingsOf(i)) ==> y in st'.bindingInterceptors[BindingsOf(i)])
      && (forall k :: k != BindingsOf(i) ==> InterceptorsUnder(st'.bindingInterceptors, k) == InterceptorsUnder(st.bindingInterceptors, k))
  {
    var key := BindingsOf(i);
    var before := InterceptorsUnder(st.bindingInterceptors, key);
    assert RegisterClass(st.repository, i.interceptorClass)[i.interceptorClass].interceptorBindings == key;
    SortedSetAddKeepsOrder(before, i);
    SortedSetAddMembers(before, i);
  }

  /** Registering several interceptors keeps the invariant. */
  lemma {:induction false} RegisterInterceptorsWellFormed(st: RegistryState, interceptors: seq<Interceptor>)
    requires WellFormed(st)
    ensures WellFormed(RegisterInterceptors(st, interceptors))
    decreases |interceptors|
  {
    if interceptors != [] {
      RegisterInterceptorsWellFormed(st, interceptors[..|interceptors| - 1]);
      RegisterInterceptorEffect(RegisterInterceptors(st, interceptors[..|interceptors| - 1]), interceptors[|interceptors| - 1]);
    }
  }

  /**
   * After registering `interceptors` in order: every class of `interceptors` is in the
   * repository; for every interceptor of `interceptors`, the set under its bindings
   * holds an interceptor of its priority; sets under keys that no
   * interceptor of `interceptors` is filed under are unchanged.
   */
  lemma RegisterInterceptorsEffect(st: RegistryState, interceptors: seq<Interceptor>)
    requires WellFormed(st)
    ensures var st' := RegisterInterceptors(st, interceptors);
      && (forall i :: i in interceptors ==> i.interceptorClass in st'.repository)
      && (forall i :: i in interceptors ==> BindingsOf(i) in st'.bindingInterceptors && HasPeer(st'.bindingInterceptors[BindingsOf(i)], i))
      && (forall k :: (forall i :: i in interceptors ==> BindingsOf(i) != k) ==> InterceptorsUnder(st'.bindingInterceptors, k) == InterceptorsUnder(st.bindingInterceptors, k))
  {
    RegisterInterceptorsRegistersClasses(st, interceptors);
    RegisterInterceptorsFilesPeers(st, interceptors);
    RegisterInterceptorsLeavesOtherKeys(st, interceptors);
  }

  lemma {:induction false} RegisterInterceptorsRegistersClasses(st: RegistryState, interceptors: seq<Interceptor>)
    requires WellFormed(st)
    ensures forall i :: i in interceptors ==> i.interceptorClass in RegisterInterceptors(st, interceptors).repository
    decreases |interceptors|
  {
    if interceptors != [] {
      var front := interceptors[..|interceptors| - 1];
      var last := interceptors[|interceptors| - 1];
      RegisterInterceptorsRegistersClasses(st, front);
      RegisterInterceptorsWellFormed(st, front);
      RegisterInterceptorEffect(RegisterInterceptors(st, front), last);
      assert interceptors == front + [last];
    }
  }

  lemma {:induction false} RegisterInterceptorsFilesPeers(st: RegistryState, interceptors: seq<Interceptor>)
    requires WellFormed(st)
    ensures var st' := RegisterInterceptors(st, interceptors);
      forall i :: i in interceptors ==> BindingsOf(i) in st'.bindingInterceptors && HasPeer(st'.bindingInterceptors[BindingsOf(i)], i)
    decreases |interceptors|
  {
    if interceptors != [] {
      var front := interceptors[..|interceptors| - 1];
      var last := interceptors[|interceptors| - 1];
      var mid := RegisterInterceptors(st, front);
      RegisterInterceptorsFilesPeers(st, front);
      RegisterInterceptorsWellFormed(st, front);
      RegisterInterceptorEffect(mid, last);
      var st' := RegisterInterceptor(mid, last);
      assert interceptors == front + [last];
      forall i | i in interceptors
        ensures BindingsOf(i) in st'.bindingInterceptors && HasPeer(st'.bindingInterceptors[BindingsOf(i)], i)
      {
        if i != last {
          assert i in front;
          PeerSurvivesRegistration(mid, last, i);
        }
      }
    }
  }

  lemma {:induction false} RegisterInterceptorsLeavesOtherKeys(st: RegistryState, interceptors: seq<Interceptor>)
    requires WellFormed(st)
    ensures forall k :: (forall i :: i in interceptors ==> BindingsOf(i) != k) ==>
      InterceptorsUnder(RegisterInterceptors(st, interceptors).bindingInterceptors, k) == InterceptorsUnder(st.bindingInterceptors, k)
    decreases |interceptors|
  {
    if interceptors != [] {
      var front := interceptors[..|interceptors| - 1];
      var last := interceptors[|interceptors| - 1];
      RegisterInterceptorsLeavesOtherKeys(st, front);
      RegisterInterceptorsWellFormed(st, front);
      RegisterInterceptorEffect(RegisterInterceptors(st, front), last);
      assert interceptors == front + [last];
    }
  }

  /** An interceptor that has a peer under its bindings keeps one when another is registered. */
  lemma PeerSurvivesRegistration(st: RegistryState, next: Interceptor, i: Interceptor)
    requires WellFormed(st)
    requires BindingsOf(i) in st.bindingInterceptors && HasPeer(st.bindingInterceptors[BindingsOf(i)], i)
    ensures var st' := RegisterInterceptor(st, next);
      BindingsOf(i) in st'.bindingInterceptors && HasPeer(st'.bindingInterceptors[BindingsOf(i)], i)
  {
    RegisterInterceptorEffect(st, next);
    var st' := RegisterInterceptor(st, next);
    var y :| y in st.bindingInterceptors[BindingsOf(i)] && Priority(y) == Priority(i);
    assert y in InterceptorsUnder(st.bindingInterceptors, BindingsOf(i));
    assert y in InterceptorsUnder(st'.bindingInterceptors, BindingsOf(i));
  }
}
