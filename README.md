# Interceptor manager

A Dafny model of the interceptor manager of the `my-interceptor` module: the
default manager (`DefaultInterceptorManager`) and the default methods of the
`InterceptorManager` interface. The manager keeps:

- the annotation types registered as interceptor bindings, in registration order;
- a repository of interceptor metadata, one entry per registered interceptor class;
- a map from a set of interceptor bindings to the interceptors registered under it,
  each set ordered by priority and holding at most one interceptor per priority;
- a cache from a method or constructor to its resolved interceptor chain.

For a method or constructor, it resolves the interceptor chain. The chain follows
section 5.2 of the Interceptors 1.2 specification (JSR 318):

1. the default interceptors, unless `@ExcludeDefaultInterceptors` is present;
2. the class-level `@Interceptors`, unless `@ExcludeClassInterceptors` is present;
3. the method- or constructor-level `@Interceptors`;
4. the interceptors registered under the executable's interceptor bindings.

The whole chain is then sorted by priority (section 5.2.1) and cached.

Files and modules:

| file | module | what it holds |
|---|---|---|
| `reflection.dfy` | `Reflection` | annotations, classes, executables and interceptors as plain data, in place of Java reflection |
| `priority.dfy` | `PriorityOrder` | the priority order, the priority-ordered set, and the sort |
| `registration.dfy` | `Registration` | the two registries as a value, and what registration does to them |
| `resolution.dfy` | `Resolution` | the resolution rules as functions, and both class-level walks (the one written and the one documented) |
| `default_interceptor_manager.dfy` | `DefaultInterceptorManager` | the manager class; its fields are updated in place, and each method is proved against the functions above |
| `interceptor_manager.dfy` | `InterceptorManager` | the interface's convenience overloads, over the manager class |

Modelling choices:

- **Reflection as data.** An annotation type carries whether it is meta-annotated with `@InterceptorBinding`.
  - A component class carries its annotations in declaration order and its superclass. The superclass is None for `java.lang.Object` and for interfaces.
  - An interceptor class carries its priority and its interceptor bindings.
  - An interceptor is its class plus an instance number.
  - An annotation carries its type, the classes of an @Interceptors value, and its other member values, which take part in equality only.
- **Priority comparator.** It compares priority only, so two interceptors of equal priority compare as equal.
  - Adding to a priority-ordered set therefore does nothing when an interceptor of that priority is already present.
  - Sorting orders the chain by priority and says nothing of how ties fall.
- **Exceptions.** A null dereference becomes `Failure(NullPointerException)`.

## Model

| member | source | states |
|---|---|---|
| DefaultInterceptorManager.DefaultInterceptorManager.constructor | projects/stage-1/middleware-frameworks/my-interceptor/src/main/java/org/geektimes/interceptor/DefaultInterceptorManager.java:69-75 | A new manager has an empty repository, binding map and cache. Its binding types are exactly @PostConstruct then @PreDestroy, and both are binding types. |
| DefaultInterceptorManager.DefaultInterceptorManager.RegisterDefaultInterceptorBindingType | projects/stage-1/middleware-frameworks/my-interceptor/src/main/java/org/geektimes/interceptor/DefaultInterceptorManager.java:143-146 | From no binding types, the registered types become @PostConstruct followed by @PreDestroy. |
| DefaultInterceptorManager.DefaultInterceptorManager.RegisterInterceptorBindingType | projects/stage-1/middleware-frameworks/my-interceptor/src/main/java/org/geektimes/interceptor/DefaultInterceptorManager.java:128-131 | Insertion-ordered set add: the type is appended only when absent. Afterwards it is a binding type, no other type's status changes, no type is listed twice, and the manager invariant is kept. |
| DefaultInterceptorManager.DefaultInterceptorManager.IsInterceptorBindingType | projects/stage-1/middleware-frameworks/my-interceptor/src/main/java/org/geektimes/interceptor/DefaultInterceptorManager.java:133-137 | A type meta-annotated with @InterceptorBinding is always a binding type. Under the manager invariant, @PostConstruct and @PreDestroy are binding types for the manager's whole life. Any other binding type must be among the registered ones. |
| DefaultInterceptorManager.DefaultInterceptorManager.IsInterceptorBinding | projects/stage-1/middleware-frameworks/my-interceptor/src/main/java/org/geektimes/interceptor/InterceptorManager.java:148-150 | An annotation whose type is meta-annotated is a binding. Under the invariant, annotations of the two default types are bindings. Any other binding annotation has a registered type. |
| DefaultInterceptorManager.DefaultInterceptorManager.GetInterceptorInfo | projects/stage-1/middleware-frameworks/my-interceptor/src/main/java/org/geektimes/interceptor/DefaultInterceptorManager.java:91-94 | Null (None) exactly for a class not registered. Under the invariant, a found entry is the metadata computed from that class: it names the class and carries its own binding set. |
| DefaultInterceptorManager.DefaultInterceptorManager.GetInterceptorBindings | projects/stage-1/middleware-frameworks/my-interceptor/src/main/java/org/geektimes/interceptor/InterceptorManager.java:82-84 | Fails with a null dereference iff the class is unregistered. Otherwise it is the metadata's bindings, which under the manager invariant are the class's own bindings. |
| DefaultInterceptorManager.DefaultInterceptorManager.RegisterInterceptorClass | projects/stage-1/middleware-frameworks/my-interceptor/src/main/java/org/geektimes/interceptor/DefaultInterceptorManager.java:77-80 | Computes metadata only if absent. A registered class keeps its entry, the key set gains exactly the class, and the invariant is kept. |
| DefaultInterceptorManager.DefaultInterceptorManager.RegisterInterceptor | projects/stage-1/middleware-frameworks/my-interceptor/src/main/java/org/geektimes/interceptor/DefaultInterceptorManager.java:82-89 | Registers the interceptor's class, then adds the interceptor to the priority-ordered set under its bindings. An interceptor of its priority is present afterwards, and it is the interceptor itself unless one of that priority was already there. Every other key's set is unchanged, the cache is untouched, and the invariant is kept. |
| DefaultInterceptorManager.DefaultInterceptorManager.DoGetInterceptorBindings | projects/stage-1/middleware-frameworks/my-interceptor/src/main/java/org/geektimes/interceptor/DefaultInterceptorManager.java:223-231 | Returns the binding annotations of the element. An annotation is kept iff present and a binding. None repeats, and they come in declaration order. |
| DefaultInterceptorManager.DefaultInterceptorManager.ResolveClassInterceptorBindingsAsWritten | projects/stage-1/middleware-frameworks/my-interceptor/src/main/java/org/geektimes/interceptor/DefaultInterceptorManager.java:212-221 | The loop as written, stepping through the same pass function and loop condition that Resolution.DivergentWalkRepeats reasons about. Where it ends, it yields the class's own bindings, else its direct superclass's, or a null dereference for a class without superclass or bindings. |
| DefaultInterceptorManager.DefaultInterceptorManager.ResolveClassInterceptorBindings | projects/stage-1/middleware-frameworks/my-interceptor/src/main/java/org/geektimes/interceptor/DefaultInterceptorManager.java:195-221 | Corrected walk: the bindings of the nearest class in the superclass chain below java.lang.Object that has any. They are all bindings. |
| DefaultInterceptorManager.DefaultInterceptorManager.ResolveInterceptorBindings | projects/stage-1/middleware-frameworks/my-interceptor/src/main/java/org/geektimes/interceptor/DefaultInterceptorManager.java:204-210 | Executable-level bindings if any, else the class-level ones (corrected walk). Every member is a binding. Wherever the source's resolution returns, the result is the set it returns. |
| DefaultInterceptorManager.DefaultInterceptorManager.ResolveBindingInterceptors | projects/stage-1/middleware-frameworks/my-interceptor/src/main/java/org/geektimes/interceptor/DefaultInterceptorManager.java:152-155 | The set registered under exactly the executable's binding set, or empty when none is. It is strictly ordered by priority under the invariant. Wherever the source's resolution returns, it is the set filed under the source's key. |
| DefaultInterceptorManager.DefaultInterceptorManager.ResolveAnnotatedInterceptors | projects/stage-1/middleware-frameworks/my-interceptor/src/main/java/org/geektimes/interceptor/DefaultInterceptorManager.java:168-192 | Class-level @Interceptors classes, unless excluded, then the executable's, each unwrapped to an interceptor of that class, in that order. |
| DefaultInterceptorManager.DefaultInterceptorManager.ResolveInterceptors | projects/stage-1/middleware-frameworks/my-interceptor/src/main/java/org/geektimes/interceptor/DefaultInterceptorManager.java:96-125 | A cache hit returns the cached chain and leaves the cache as it was, whatever defaults are passed. A miss returns a priority-sorted permutation of defaults (unless excluded), then annotated, then binding interceptors, and caches exactly that entry. Every cached chain stays sorted. Wherever the source's binding resolution returns, the chain is a permutation of the one the source sorts. |
| InterceptorManager.RegisterInterceptorClasses | projects/stage-1/middleware-frameworks/my-interceptor/src/main/java/org/geektimes/interceptor/InterceptorManager.java:44-47 | Registering a first class then the variable-arity array of others is registering the whole sequence in order. |
| InterceptorManager.RegisterInterceptorClassesFromArray | projects/stage-1/middleware-frameworks/my-interceptor/src/main/java/org/geektimes/interceptor/InterceptorManager.java:49-51 | Registering an array is registering its contents in order. |
| InterceptorManager.RegisterInterceptorClassesFromIterable | projects/stage-1/middleware-frameworks/my-interceptor/src/main/java/org/geektimes/interceptor/InterceptorManager.java:53-55 | Registering each class of a sequence one at a time gives the in-order fold, and keeps the invariant. |
| InterceptorManager.RegisterInterceptors | projects/stage-1/middleware-frameworks/my-interceptor/src/main/java/org/geektimes/interceptor/InterceptorManager.java:59-62 | Registering a first interceptor then the variable-arity array of others is registering the whole sequence in order. |
| InterceptorManager.RegisterInterceptorsFromArray | projects/stage-1/middleware-frameworks/my-interceptor/src/main/java/org/geektimes/interceptor/InterceptorManager.java:64-66 | Registering an array is registering its contents in order. |
| InterceptorManager.RegisterInterceptorsFromIterable | projects/stage-1/middleware-frameworks/my-interceptor/src/main/java/org/geektimes/interceptor/InterceptorManager.java:68-70 | Registering each interceptor one at a time gives the in-order fold, and keeps the invariant. |
| InterceptorManager.ResolveMethodInterceptors | projects/stage-1/middleware-frameworks/my-interceptor/src/main/java/org/geektimes/interceptor/InterceptorManager.java:104-106 | A method's chain is its chain as an executable, with the same cache behaviour and ordering. |
| InterceptorManager.ResolveConstructorInterceptors | projects/stage-1/middleware-frameworks/my-interceptor/src/main/java/org/geektimes/interceptor/InterceptorManager.java:117-119 | A constructor's chain is its chain as an executable, with the same cache behaviour and ordering. |
| Reflection.Unwrap | projects/stage-1/middleware-frameworks/my-interceptor/src/main/java/org/geektimes/interceptor/DefaultInterceptorManager.java:189-191 | The interceptor obtained from a class is of that class. |
| PriorityOrder.SortedSetAddMembers | projects/stage-1/middleware-frameworks/my-interceptor/src/main/java/org/geektimes/interceptor/DefaultInterceptorManager.java:87-88 | After adding to a priority-ordered set, an element is present iff it was before, or it is the added one and no element of its priority was present. An element of its priority is present afterwards. |
| PriorityOrder.SortedSetAddKeepsOrder | projects/stage-1/middleware-frameworks/my-interceptor/src/main/java/org/geektimes/interceptor/DefaultInterceptorManager.java:87-88 | Adding keeps the set strictly ordered by priority. |
| PriorityOrder.SortedSetAddContents | projects/stage-1/middleware-frameworks/my-interceptor/src/main/java/org/geektimes/interceptor/DefaultInterceptorManager.java:87-88 | Adding an element whose priority is present changes nothing. Otherwise exactly that element is added. |
| PriorityOrder.InsertByPriorityKeepsElements | projects/stage-1/middleware-frameworks/my-interceptor/src/main/java/org/geektimes/interceptor/DefaultInterceptorManager.java:121 | One insertion step of the sort adds exactly the inserted interceptor. |
| PriorityOrder.InsertByPriorityKeepsOrder | projects/stage-1/middleware-frameworks/my-interceptor/src/main/java/org/geektimes/interceptor/DefaultInterceptorManager.java:121 | One insertion step keeps a priority-sorted list sorted. |
| PriorityOrder.SortInterceptors | projects/stage-1/middleware-frameworks/my-interceptor/src/main/java/org/geektimes/interceptor/DefaultInterceptorManager.java:121 | Sorting yields a list in non-decreasing priority with the same interceptors, duplicates included. |
| Registration.RegisterClassEffect | projects/stage-1/middleware-frameworks/my-interceptor/src/main/java/org/geektimes/interceptor/DefaultInterceptorManager.java:77-80 | Registering a present class changes nothing. Otherwise only that class gains fresh metadata, and every other entry stays. |
| Registration.RegisterClassesAppend | projects/stage-1/middleware-frameworks/my-interceptor/src/main/java/org/geektimes/interceptor/InterceptorManager.java:44-47 | Registering xs then ys is registering xs + ys. |
| Registration.RegisterClassesEffect | projects/stage-1/middleware-frameworks/my-interceptor/src/main/java/org/geektimes/interceptor/InterceptorManager.java:53-55 | After registering a sequence the keys are the old ones plus its classes. Old entries are kept, and new ones get fresh metadata. |
| Registration.RegisterInterceptorsAppend | projects/stage-1/middleware-frameworks/my-interceptor/src/main/java/org/geektimes/interceptor/InterceptorManager.java:59-62 | Registering xs then ys is registering xs + ys. |
| Registration.RegisterInterceptorEffect | projects/stage-1/middleware-frameworks/my-interceptor/src/main/java/org/geektimes/interceptor/DefaultInterceptorManager.java:82-89 | Registering an interceptor keeps the invariant and registers its class. The set under its bindings keeps its old members and gains an interceptor of its priority (itself, if none was there). Every other key's set is unchanged. |
| Registration.RegisterInterceptorsWellFormed | projects/stage-1/middleware-frameworks/my-interceptor/src/main/java/org/geektimes/interceptor/InterceptorManager.java:68-70 | Registering a sequence of interceptors keeps the invariant. |
| Registration.RegisterInterceptorsEffect | projects/stage-1/middleware-frameworks/my-interceptor/src/main/java/org/geektimes/interceptor/InterceptorManager.java:68-70 | After registering a sequence, every interceptor's class is registered, and an interceptor of its priority is under its bindings. Keys that none is filed under are unchanged. |
| Registration.InterceptorInfoOfIsComputed | projects/stage-1/middleware-frameworks/my-interceptor/src/main/java/org/geektimes/interceptor/InterceptorManager.java:86-93 | Under the invariant, the documented lookup gives every class its own metadata. It agrees with the code's lookup wherever that finds an entry, and on every class just registered. |
| Registration.UnregisteredClassHasNoInfo | projects/stage-1/middleware-frameworks/my-interceptor/src/main/java/org/geektimes/interceptor/DefaultInterceptorManager.java:91-94 | An interceptor class not yet registered: the code's lookup gives null, while the documented lookup gives its metadata. |
| Resolution.BindingAnnotationsMembers | projects/stage-1/middleware-frameworks/my-interceptor/src/main/java/org/geektimes/interceptor/DefaultInterceptorManager.java:223-231 | An annotation is among the binding annotations iff present and of a binding type. |
| Resolution.BindingAnnotationsDistinct | projects/stage-1/middleware-frameworks/my-interceptor/src/main/java/org/geektimes/interceptor/DefaultInterceptorManager.java:223-231 | No binding annotation is kept twice. |
| Resolution.BindingAnnotationsInDeclarationOrder | projects/stage-1/middleware-frameworks/my-interceptor/src/main/java/org/geektimes/interceptor/DefaultInterceptorManager.java:223-231 | Binding annotations come in declaration order. |
| Resolution.InheritedBindingsIsNearest | projects/stage-1/middleware-frameworks/my-interceptor/src/main/java/org/geektimes/interceptor/DefaultInterceptorManager.java:195-199 | Class-level bindings are empty iff no class of the superclass chain below java.lang.Object has any. Otherwise they are those of the first class in the chain that does. |
| Resolution.InheritedBindingsAreBindings | projects/stage-1/middleware-frameworks/my-interceptor/src/main/java/org/geektimes/interceptor/DefaultInterceptorManager.java:195-199 | Every inherited binding is of a binding type, and none repeats. |
| Resolution.DivergentWalkRepeats | projects/stage-1/middleware-frameworks/my-interceptor/src/main/java/org/geektimes/interceptor/DefaultInterceptorManager.java:215-218 | When neither the class nor its direct superclass has bindings, the second pass of the loop reaches a state that its condition keeps and that every further pass reproduces. |
| Resolution.AsWrittenAgreesWithInherited | projects/stage-1/middleware-frameworks/my-interceptor/src/main/java/org/geektimes/interceptor/DefaultInterceptorManager.java:212-221 | Where the loop as written ends without error, it agrees with the documented inheritance. It fails exactly for a class without superclass and without bindings. |
| Resolution.UnboundSubclassNeverLeavesLoop | projects/stage-1/middleware-frameworks/my-interceptor/src/main/java/org/geektimes/interceptor/DefaultInterceptorManager.java:215-218 | A concrete class and superclass, both unbound: the loop as written never ends, while the documented result is empty. |
| Resolution.GrandparentBindingNeverReached | projects/stage-1/middleware-frameworks/my-interceptor/src/main/java/org/geektimes/interceptor/DefaultInterceptorManager.java:215-218 | A binding two levels up: the documented result is that binding, while the loop as written never ends. |
| Resolution.UnboundInterfaceThrows | projects/stage-1/middleware-frameworks/my-interceptor/src/main/java/org/geektimes/interceptor/DefaultInterceptorManager.java:215-218 | An unbound interface: the loop as written fails with a null dereference, while the documented result is empty. |
| Resolution.ExecutableBindingsPrecedence | projects/stage-1/middleware-frameworks/my-interceptor/src/main/java/org/geektimes/interceptor/DefaultInterceptorManager.java:204-210 | Executable-level bindings win over class-level ones. The result holds only binding annotations, once each. |
| Resolution.AsWrittenExecutableAgrees | projects/stage-1/middleware-frameworks/my-interceptor/src/main/java/org/geektimes/interceptor/DefaultInterceptorManager.java:204-221 | Where the source's executable-level resolution returns, it returns the model's bindings. It throws exactly for an unbound executable of an unbound class without superclass. It never returns exactly when the class walk diverges. |
| Resolution.CombinedBindingsHasBoth | projects/stage-1/middleware-frameworks/my-interceptor/src/main/java/org/geektimes/interceptor/DefaultInterceptorManager.java:195-199 | The documented combination holds an annotation iff it is among the class-level or the executable-level bindings. Each is a binding, and none repeats. |
| Resolution.MethodBindingsHideClassBindings | projects/stage-1/middleware-frameworks/my-interceptor/src/main/java/org/geektimes/interceptor/DefaultInterceptorManager.java:196-209 | A method with its own binding on a class with another: the code keeps the method's binding alone, while the documented combination also holds the class's. |
| Resolution.ExcludesDefaultInterceptors | projects/stage-1/middleware-frameworks/my-interceptor/src/main/java/org/geektimes/interceptor/DefaultInterceptorManager.java:148-150 | Default interceptors are excluded iff the executable carries an @ExcludeDefaultInterceptors annotation. |
| Resolution.ExcludesClassInterceptors | projects/stage-1/middleware-frameworks/my-interceptor/src/main/java/org/geektimes/interceptor/DefaultInterceptorManager.java:173 | Class-level @Interceptors are excluded iff the executable carries an @ExcludeClassInterceptors annotation. |
| Resolution.UnwrapAllAppend | projects/stage-1/middleware-frameworks/my-interceptor/src/main/java/org/geektimes/interceptor/DefaultInterceptorManager.java:189-191 | Unwrapping a concatenation is concatenating the unwrapped parts. |
| Resolution.UnsortedChainGroups | projects/stage-1/middleware-frameworks/my-interceptor/src/main/java/org/geektimes/interceptor/DefaultInterceptorManager.java:97-119 | The unsorted chain is the applicable defaults, class-level @Interceptors unless excluded, the executable's @Interceptors, then the binding interceptors, end to end. |
| Resolution.BindingInterceptorsLookup | projects/stage-1/middleware-frameworks/my-interceptor/src/main/java/org/geektimes/interceptor/DefaultInterceptorManager.java:152-155 | An interceptor is among the binding interceptors iff it is registered under exactly the executable's binding set. |

## Left out

- Service loading is left out: `registerDiscoveredInterceptors` (projects/stage-1/middleware-frameworks/my-interceptor/src/main/java/org/geektimes/interceptor/InterceptorManager.java:72-74) and `getInstance` (projects/stage-1/middleware-frameworks/my-interceptor/src/main/java/org/geektimes/interceptor/InterceptorManager.java:154-160) depend on the class path.
- Annotation utilities are not part of this model, and the rules for them are assumed:
  - the meta-annotation check is a flag on the annotation type;
  - `findAnnotation` and `searchAnnotation` give the element's own first annotation of the type, with no search through meta-annotations or superclasses;
  - `getAnnotations()` is the element's declared annotations, without `@Inherited` ones from superclasses.
- InterceptorInfo construction is not part of this model. It is total here and derives the bindings from the class; its IllegalStateException for a class that is not an interceptor is not modelled.
- InterceptorUtils is not part of this model. `unwrap` yields an interceptor of the class, and a fresh instance is not distinguished from another (instance 0).
- PriorityComparator is not part of this model. It is assumed to compare the priority alone.
- PriorityOrder.SortInterceptors: does not state how interceptors of equal priority are ordered, because the sort routine is not part of this model. It works on a sequence rather than sorting the linked list in place.
- DefaultInterceptorManager.DefaultInterceptorManager.ResolveClassInterceptorBindingsAsWritten: requires that the loop ends. The endless case is stated instead by `Resolution.DivergentWalkRepeats` and the counterexample lemmas.
- Read-only views (`unmodifiableList`, `unmodifiableSet`, `unmodifiableSortedSet`) are immutable sequences here.
- `getInterceptorBindingTypes` is a plain read of the field and carries no contract.
- DefaultInterceptorManager.DefaultInterceptorManager.ResolveInterceptorBindings: uses the corrected class-level walk. Where the source throws (an unbound executable of an unbound interface) or never returns (the walk diverges), the model still returns the documented bindings. By Resolution.AsWrittenExecutableAgrees, it agrees with the source wherever the source returns, and its contract states that agreement.
- DefaultInterceptorManager.DefaultInterceptorManager.ResolveBindingInterceptors: looks up the key of the corrected walk, so it returns where the source throws or never returns. Wherever the source returns, it looks up the same key.
- DefaultInterceptorManager.DefaultInterceptorManager.ResolveInterceptors: on a cache miss it builds and caches a chain where the source throws a NullPointerException (nothing is cached then) or never returns. Wherever the source's binding resolution returns, the chain agrees with the source's.
- InterceptorManager.ResolveMethodInterceptors and InterceptorManager.ResolveConstructorInterceptors inherit that gap from DefaultInterceptorManager.DefaultInterceptorManager.ResolveInterceptors.
- The executable-level bindings follow the code's precedence rule, not the combination the documentation describes (see Findings). Resolution.CombinedBindings is proved about, but the chain does not use it.
- Concurrency is not modelled. The maps are unsynchronised, and a call is taken to run alone.
- Hash and equality semantics of Java objects become value equality of the datatypes. Binding sets are equal when they hold the same annotations. Annotations are equal when their type, their @Interceptors classes and all their other member values are equal. The other member values are kept uninterpreted.

## Findings

| source | as written | input that shows it | evidently intended | confidence | as-written member | corrected member |
|---|---|---|---|---|---|---|
| projects/stage-1/middleware-frameworks/my-interceptor/src/main/java/org/geektimes/interceptor/DefaultInterceptorManager.java:215-218 | The loop sets the next class to the original class's superclass on every pass, so it examines the direct superclass at most and never climbs further. | A class C with no bindings, extending B with no bindings, which extends A annotated with a binding whose type is not @Inherited. The loop re-examines B forever, while the documentation promises A's binding. An unbound C extending an unbound B directly under java.lang.Object also never ends. | Advance to the examined class's own superclass each pass, stopping below java.lang.Object. | high; not executed | DefaultInterceptorManager.DefaultInterceptorManager.ResolveClassInterceptorBindingsAsWritten, Resolution.GrandparentBindingNeverReached, Resolution.UnboundSubclassNeverLeavesLoop | DefaultInterceptorManager.DefaultInterceptorManager.ResolveClassInterceptorBindings, Resolution.InheritedBindingsIsNearest |
| projects/stage-1/middleware-frameworks/my-interceptor/src/main/java/org/geektimes/interceptor/DefaultInterceptorManager.java:215-218 | When the class has no superclass (an interface declaring a default method) and no bindings, the loop continues with a null class. | An interface with no binding annotations. | Stop when there is no superclass, yielding no bindings. | high; not executed | Resolution.UnboundInterfaceThrows | DefaultInterceptorManager.DefaultInterceptorManager.ResolveClassInterceptorBindings, Resolution.AsWrittenAgreesWithInherited |
| projects/stage-1/middleware-frameworks/my-interceptor/src/main/java/org/geektimes/interceptor/DefaultInterceptorManager.java:196-209 | The documentation says an executable's bindings combine those of the target class with its own. The code uses the executable's own bindings alone whenever it has any. | A method annotated with binding Timed in a class annotated with binding Logged: the key is Timed alone, so interceptors bound to both are not found. | The class's bindings combined with the executable's. | medium (the code's rule may be deliberate); not executed | Resolution.ExecutableBindingsPrecedence, Resolution.MethodBindingsHideClassBindings | Resolution.CombinedBindings, Resolution.CombinedBindingsHasBoth |
| projects/stage-1/middleware-frameworks/my-interceptor/src/main/java/org/geektimes/interceptor/DefaultInterceptorManager.java:91-94 | The interface documents non-null metadata for every valid interceptor class, and IllegalStateException otherwise. The code returns null for any class not yet registered, so the bindings of such a class throw a NullPointerException. | An interceptor class never registered, asked of a new manager. | Compute the metadata of a valid interceptor class on demand. | medium; not executed | DefaultInterceptorManager.DefaultInterceptorManager.GetInterceptorBindings, Registration.UnregisteredClassHasNoInfo | Registration.InterceptorInfoOf, Registration.InterceptorInfoOfIsComputed |
