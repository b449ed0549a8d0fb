# Rendering core of a template-composition engine, in Dafny

This project models the rendering core of a small Go static-site tool. Components are
templates loaded from files. A template can `include` other components with arguments.

- A **render scope** resolves include names relative to the including file. It fetches
  components through a resolver and keeps a render stack of component instances, which it
  uses to detect include cycles.
- The **resolver chain** is a cache that parses each path once and always hands out the same
  instance, plus a tracking wrapper that records every path resolved successfully. A chain
  can also end in a resolver without memoisation, which parses again and builds a new
  instance on every call, as the test files' `staticResolver` does.
- **`VariableMap.MergeFrom`** deep-merges variable maps. The receiver wins, and conflicting
  nested map types are fatal.
- **`ResourceConfig.Is`** is the structural equality of resource configurations.

The model is functional: immutable datatypes and pure functions, with the scope, the cache
and the hit set threaded through as values.

- Go's `reflect` views of variables become a tagged value tree, `Str | Int | Map(keyTy,
  elemTy, entries)`, with explicit Go types (`values.dfy`).
- `path/filepath` becomes an algebra on element lists (`paths.dfy`). The elements of
  `filepath.Clean` are proved clean and idempotent. `filepath.Rel` is proved to join back to
  its target.
- A component is an id, a file path and a body of items: literal text, a field reference
  (`.Arg0`, `.Vars.v`) and `include "name" args...` (`components.dfy`). Two components are
  the same instance exactly when their ids agree.
- The resolver chain is in `resolvers.dfy`. The scope, `Render`, `Component.Render` and the
  `include` function are in `renderscope.dfy`. The merge is in `variablemap.dfy`, and
  `ResourceConfig.Is` is in `builder.dfy`.
- The repository's test tables are stated as lemmas about the model: `scenarios.dfy`,
  `merge_scenarios.dfy` and `builder_scenarios.dfy`.

A few behaviours are kept as the code has them:

- **The cycle error lists the whole stack.** It holds every component on the render stack
  followed by the repeated one (`component.go:109-114`). It does not start at the first
  occurrence of the repeated component.
- **The stack is never popped** (`component.go:121`). Over a memoising chain, a second
  sibling include of the same component in one scope is therefore also reported as a cycle
  (`Scenarios.RenderSiblingIncludes`, `RenderScopes.RenderAgainIsCycle`).
- **Cycle detection compares instances** (`component.go:107-108`), so it relies on
  memoisation. Over a resolver that builds a new instance on every call, a path already on
  the stack is pushed again (`RenderScopes.FreshRenderPushesAgain`). Two sibling includes then
  both render, and the stack holds the path twice (`Scenarios.RenderFreshSiblingIncludes`). A
  true cycle then recurses until the fuel bound of the model runs out; the Go code has no
  bound there.
- **A merge panic is a set.** Go panics at whichever conflict its randomised map iteration
  reaches first. The model reports the set of panics the merge can reach.

## Model

| member | source | states |
|---|---|---|
| `Strings.Itoa` | component.go:55 | `strconv.Itoa` of a natural number is a non-empty string of decimal digits whose decimal value is the number. It starts with `0` only for zero, so there are no leading zeros, and it has one digit exactly when the number is below ten. |
| `Strings.ItoaInjective` | component.go:54-56 | Distinct argument positions get distinct decimal spellings, so no two arguments share a name. |
| `Strings.JoinSplit` | component.go:96-98 | Joining the `/`-separated parts of a string with `/` gives the string back. |
| `Strings.SplitJoin` | component.go:96-98 | Splitting a `/`-join of separator-free parts gives those parts back. |
| `Paths.Parse` | component.go:96-98 | The elements read from a path string contain no separator. |
| `Paths.CleanIsClean` | component.go:98 | `filepath.Clean` yields a clean element list: no empty or `.` elements, every `..` ahead of every name, and no `..` under the root. |
| `Paths.CleanOfClean` | component.go:98 | Cleaning a path that is already clean leaves it unchanged. |
| `Paths.FoldAppend` | component.go:98 | Cleaning is a left fold: cleaning `a + b` continues from the result of cleaning `a`. |
| `Paths.FoldUps` | component.go:98 | Each `..` cancels exactly one trailing name. |
| `Paths.FormatRoundTrip` | component.go:98 | Spelling a clean path as a string and cleaning that string gives the same path back. |
| `Paths.CleanStringIdempotent` | component.go:98 | `Clean(Clean(s)) == Clean(s)` for every path string. |
| `Paths.Dir` | component.go:96 | The directory part of `filepath.Split` is a prefix of the path. It is empty or ends with `/`, and no separator follows it. |
| `Paths.CommonPrefix` | component.go:98 | The common-prefix length is the longest prefix on which the two element lists agree. |
| `Paths.RelElemsReachTarget` | component.go:98 | The elements of the relative path, before the trailing `.` that `filepath.Rel` adds when the target is the current directory, are clean and relative. Walking them from the cleaned base arrives at the cleaned target. |
| `Paths.RelToCurrentDir` | component.go:98 | `filepath.Rel` from a relative base of `k` names to `.` climbs `k` levels and then ends with `/.`, so `Rel("a/b", ".")` is `../../.` and not the cleaned `../..`. |
| `Paths.JoinDotSuffix` | component.go:98 | Joining a base with `x/.` names the same path as joining it with `x`, so the trailing `.` does not change where the answer of `Rel` leads. |
| `Paths.JoinRelative` | component.go:98 | `filepath.Join` of a base path with a clean relative path walks that path's elements from the cleaned base. |
| `Paths.RelJoinsBack` | component.go:98 | When `filepath.Rel(base, targ)` succeeds, joining `base` with the answer names `targ` again, up to cleaning. This includes the answers that end with `/.`. |
| `Values.DeepEqualIsEquality` | builder.go:37-38 | `reflect.DeepEqual` on modelled values holds exactly when the two values are equal. |
| `Values.DeepEqualVarsIsEquality` | builder.go:37-38 | The same holds for two variable maps. |
| `VariableMaps.MergeReflectingMapsEntries` | variablemap.go:18-45 | A completed nested merge keeps the receiver map's key and element types. Its key set is the union of both key sets. A key only the argument has is adopted unchanged. A key only the receiver has keeps its value, and so does a shared key unless both sides hold maps. A shared key where both sides hold maps gets the recursive merge. |
| `VariableMaps.MergeReflectingMapsFatal` | variablemap.go:11-29 | Incompatible key types panic with the key-types panic alone, before any key is visited. Adopting an element of an unassignable type panics with the value-types panic. A panicking nested merge makes the whole merge panic, with its panics. Nothing else panics. |
| `VariableMaps.MergeReflectingMapsSelf` | variablemap.go:18-45 | Merging a map into a copy of itself completes and leaves it unchanged. |
| `VariableMaps.MergeKeepsTypes` | variablemap.go:23-31 | A completed nested merge of well-typed maps is well typed and keeps the receiver's type. |
| `VariableMaps.AbsorbExtends` | variablemap.go:23-44 | The receiver wins at every depth: the merged map holds every key of the receiver, with the same types and scalars. |
| `VariableMaps.MergeTwice` | variablemap.go:18-45 | Merging the same argument a second time changes nothing further. |
| `VariableMaps.MergeFromEntries` | variablemap.go:47-67 | A completed `MergeFrom` holds the union of both key sets. It adopts the argument's new keys and keeps the receiver's value unless both sides hold maps. Where both hold maps, it holds their nested merge. |
| `VariableMaps.MergeFromFatal` | variablemap.go:56-64 | `MergeFrom` panics exactly when the nested merge of some shared map-valued key panics. It panics with at least that merge's panics. |
| `VariableMaps.MergeFromSelf` | variablemap.go:47-64 | Merging a variable map into a copy of itself completes and changes nothing. |
| `VariableMaps.MergeFromExtends` | variablemap.go:47-64 | A completed `MergeFrom` extends the receiver at every key and every depth. |
| `VariableMaps.MergeFromTwice` | variablemap.go:47-67 | `MergeFrom` is idempotent in its argument: merging the same argument again gives the same result. |
| `VariableMaps.MergeFromKeepsTypes` | variablemap.go:47-67 | A completed `MergeFrom` of well-typed variable maps is well typed. |
| `Builder.StringArrayIs` | builder.go:14-24 | `stringArrayIs` is true exactly when the two slices are equal: the same length and the same string at every position, so order matters. |
| `Builder.ElementsMatch` | builder.go:18-22 | The element loop is true exactly when the two slices agree from position `i` on. |
| `Builder.Is` | builder.go:26-41 | `Is(nil)` is false and `Is(self)` is true. Otherwise `Is` is true exactly when the two configurations are equal in every field: `Inherits` in order and `Variables` deeply. |
| `Builder.DeepEqualFieldIsEquality` | builder.go:37-38 | `reflect.DeepEqual` on the `Variables` fields separates nil from empty and is otherwise deep equality. It holds exactly when the fields are equal. |
| `Builder.IsDetectsEachField` | builder.go:31-38 | Two configurations at different addresses that differ in any one field are not `Is`. |
| `Builder.IsEquivalence` | builder.go:26-41 | `Is` is reflexive, symmetric and transitive on the configurations of a heap. |
| `Components.CycleMessageAppend` | component.go:69-71 | The cycle message is `Cycle detected in include path: ` followed by the stack's paths in order, with ` -> ` between neighbours: one path follows the prefix directly, and each further path follows the message of the stack before it. |
| `Components.IncludeMessageEndsWithCause` | component.go:40-41 | The message of a failed include ends with the message of its cause, and with that of the cause's cause. |
| `Components.ArgNameInjective` | component.go:54-56 | Distinct positions give distinct argument names. |
| `Components.Bind` | component.go:52-56 | The binding environment holds exactly `Vars` and `Arg0` to `Arg(n-1)`. `Vars` is bound to the scope's variables and each argument to its own name. |
| `Components.BindStep` | component.go:54-56 | Binding one more argument adds exactly its name and keeps every earlier binding. |
| `Resolvers.EvolvesTransitive` | component.go:153-161 | Later resolver states compose: the cache never drops or replaces an entry and the hit set never shrinks. |
| `Resolvers.CacheResolve` | component.go:149-164 | On a hit, the cache returns the stored instance and its state is unchanged. On a read error, the error is returned and the cache is unchanged. On a successful read, a new component under the path is stored and returned. |
| `Resolvers.Resolve` | component.go:149-185 | Through a memoising chain, a success is cached under its path. A failure leaves the cache as it was, and a cached path returns its instance. A tracking wrapper passes its downstream's result on. It adds the path to its hits exactly when that result is a success. Without memoisation, the reader's error is passed on, and each success is a new instance under the path, with the next id. |
| `Resolvers.ResolveHitIgnoresReader` | component.go:153-163 | On a cache hit the reader is never consulted: every reader gives the same state and answer. |
| `Resolvers.ResolveSameInstance` | component.go:153-163 | Once a path has resolved through a memoising chain, every later resolution of it returns the identical instance, whatever the reader then says. |
| `Resolvers.FreshResolveTwice` | component_test.go:139-150 | A resolver that parses anew on every call gives two different instances, both under the path, when it resolves the same path twice. |
| `Resolvers.ValidIsMemoising` | component.go:149-164 | A valid chain, whose cache holds each path's own distinct instance, ends in a cache. |
| `Resolvers.DistinctPathsDistinctInstances` | component.go:159-161 | Under a valid cache, components held under different paths are different instances. |
| `Resolvers.CachedUnderOwnPath` | component.go:159-161 | A component held by a valid cache has its own path as `Filepath`. |
| `Resolvers.ResolveAll` | component.go:178-185 | Resolving a sequence of paths gives one answer per path and only moves the resolver forward. |
| `Resolvers.TrackingHitsExactly` | component.go:178-188 | After any sequence of queries, `Hits()` is the earlier hits plus exactly the queried paths that resolved without error. |
| `RenderScopes.ResolvePath` | component.go:95-99 | `RenderScope.Resolve(base, rel)` is `filepath.Rel(BasePath, filepath.Join(Dir(base), rel))`. A `Rel` failure becomes a path error carrying its message. |
| `RenderScopes.ResolvePathJoinsBack` | component.go:95-99 | A resolved include path, read from the scope's base path, names the same file that `rel` names next to `base`. |
| `RenderScopes.Filepaths` | component.go:111-113 | The stack's paths are the `Filepath` of each stack entry, in order. |
| `RenderScopes.PushKeepsDistinct` | component.go:107-121 | Pushing only an instance that is not already on the stack keeps the stack free of repeats. |
| `RenderScopes.Render` | component.go:101-124 | A resolver error is returned as it is, with nothing pushed or written. An instance already on the stack gives a cycle error whose stack is every entry's path followed by the new one's, and the stack is left alone. Otherwise the instance is pushed on top and stays there. Rendering only moves the scope forward and keeps its stack distinct and in the cache. |
| `RenderScopes.RenderComponent` | component.go:51-63 | `Component.Render` only moves the scope forward, keeps the stack distinct and keeps it in a valid cache. That `Render` runs the body in the bound environment is `Scenarios.RenderPushes`. |
| `RenderScopes.Execute` | component.go:61 | Template execution only moves the scope forward, and the stack stays distinct and in the cache. |
| `RenderScopes.ExecuteInclude` | component.go:34-42 | If the include name cannot be resolved against the component's own `Filepath`, `include` fails with that error and nothing is rendered or resolved. |
| `RenderScopes.RenderAgainIsCycle` | component.go:107-123 | The stack is never popped: once a name has resolved through a memoising chain, rendering it again in the resulting scope fails with a cycle error. This holds for any arguments, and the error's stack ends with the instance's path. |
| `RenderScopes.FreshRenderPushesAgain` | component.go:107-121 | Without memoisation, a name whose read succeeds is never a cycle at the top of `Render`, even when its path is already on the stack. A new instance with the next id is pushed on top. |
| `RenderScopes.CycleRepeatsPath` | component.go:107-118 | Under a valid cache, a cycle error's stack has one more entry than the render stack. It ends with the resolved path and names that path earlier as well. |
| `RenderScopes.ExecuteLiterals` | component.go:61 | A body of literal text writes exactly that text and succeeds. |
| `RenderScopes.ExecuteAppend` | component.go:61 | Execution is sequential: the second part of a body runs only when the first part succeeded, from the scope the first part left. |
| `Scenarios.ResolveSibling` | component_test.go:113 | From `./`, a plain name included from `d/f` resolves to `d/n`. |
| `Scenarios.ResolveParent` | component_test.go:114 | From `./`, `../n` included from `d/f` resolves to `n`. |
| `Scenarios.ResolveNested` | component_test.go:115 | From `./`, `m/n` included from `d/f` resolves to `d/m/n`. |
| `Scenarios.ResolveFromDir` | component_test.go:116 | From `d/`, a plain name included from `d/f` resolves to `n`. |
| `Scenarios.ResolveTests` | component_test.go:110-117 | The four rows of the resolve test table give exactly the expected paths. |
| `Scenarios.ResolvePlainName` | component.go:95-99 | With an empty base path, a plain name included from a top-level file resolves to itself. |
| `Scenarios.CacheResolverScenario` | component_test.go:230-282 | `a` and `b` resolve under their own paths to different instances, and the unknown `c` fails with the reader's error. Once the reader fails for everything, `a` still resolves to its first instance. |
| `Scenarios.TrackingScenarios` | component_test.go:284-292 | The four query sequences leave exactly the hit sets `{a}`, `{a, b}`, `{a}` and `{}`. |
| `Scenarios.TrackingErrorsPassedOn` | component.go:178-182 | In the query sequence `a, e, a` over the tests' non-memoising resolver, the failure for `e` is passed on, and each `a` query gives a new instance of `a`. |
| `Scenarios.RenderPushes` | component.go:121-123 | When the resolved instance is new to the stack, `Render` pushes it and renders its body. |
| `Scenarios.RenderCycles` | component.go:107-118 | When the resolved instance is already on the stack, `Render` fails with the cycle error built from the stack. |
| `Scenarios.ExecuteIncludes` | component.go:34-42 | An include that resolves and renders without error lets execution continue from the nested render's scope. |
| `Scenarios.ExecuteIncludeFails` | component.go:40-41 | An include whose nested render fails stops execution with that error, wrapped as an include error. |
| `Scenarios.ExecuteIncludeCycles` | component.go:40-41 | An include of an instance already on the stack fails with the cycle error and changes nothing but the resolver. |
| `Scenarios.RenderBasic` | component_test.go:158 | Rendering `a` with the body `test` writes `test`. |
| `Scenarios.RenderArgs` | component_test.go:159 | `{{ .Arg0 }}, {{ .Arg1 }}` with two arguments writes `1st arg, 2nd arg`. |
| `Scenarios.ArgsBound` | component.go:52-56 | In the binding environment of two arguments, `.Arg0` and `.Arg1` evaluate to the first and second arguments. |
| `Scenarios.RenderIncludeStack` | component_test.go:160 | `a` including `b`, whose body is `test`, writes `test` without error. |
| `Scenarios.RenderVars` | component_test.go:161 | `{{ .Vars.v }}` writes the scope variable `v`, `result`. |
| `Scenarios.RenderFaultyResolver` | component_test.go:220-228 | When the resolver fails, `Render` returns exactly its error, with nothing written or pushed. |
| `Scenarios.CycleMiddle` | component_test.go:190-211 | With `a` on the stack, rendering `b`, which includes `a`, fails with the cycle `a -> b -> a`. |
| `Scenarios.RenderMutualIncludes` | component_test.go:190-211 | `a` including `b` and `b` including `a` fails in `a`'s include of `b`, in `b`'s include of `a`, with the cycle stack `a, b, a`. |
| `Scenarios.MutualIncludesMessage` | component_test.go:207 | That error's message is the two include prefixes followed by `Cycle detected in include path: a -> b -> a`. |
| `Scenarios.RenderSiblingIncludes` | component.go:107-123 | Over a cache, two sibling includes of the same component: the first writes its text and the second fails as the cycle `a -> b -> b`, because the stack is never popped. |
| `Scenarios.FreshSiblingB` | component.go:101-123 | Over a resolver without memoisation, rendering `b` pushes a new instance with the next id and writes its text. |
| `Scenarios.RenderFreshSiblingIncludes` | component.go:107-123 | Over a resolver without memoisation, the same two sibling includes both render. They write `xx`, and the stack lists `a, b, b`. |
| `Scenarios.FieldOnMaps` | component.go:61 | `.Vars.a` fails with the field error on a map keyed by `int`. It reads the entry of a map keyed by `interface{}`, and prints `<no value>` for a missing key of a map keyed by `string`. |
| `Scenarios.IncludeResolveFailure` | component_test.go:58 | An analogue of this test, not the test itself: the test's mock context fails `Resolve` outright, while the lemma gets a real `Rel` failure against the base path `/x`. An include that cannot be made relative to the base path fails with the `Rel` error and renders nothing. |
| `Scenarios.IncludeCurrentDir` | component.go:95-99 | From the base path `src/`, `include "."` in a top-level component asks the resolver for `../.`, as `filepath.Rel` spells it. `Rel("a/b", ".")` is `../../.`. |
| `Scenarios.IncludeRenderFailure` | component_test.go:59 | An include whose target does not exist fails with an error whose message ends with the reader's `does not exist`. |
| `MergeScenarios.MergeOneKey` | variablemap.go:47-67 | Two variable maps that both hold only `k` merge to the merge of the two values at `k`, or panic with its panics. |
| `MergeScenarios.MergeTwoKeys` | variablemap.go:48-53 | Variable maps on different keys merge to the map holding both entries. |
| `MergeScenarios.AbsorbOneKey` | variablemap.go:18-45 | Two nested maps that both hold only `k` merge at `k`. They panic only on incompatible key types or in the nested merge. |
| `MergeScenarios.AbsorbTwoKeys` | variablemap.go:18-32 | Nested maps on different keys: the argument's entry is adopted, with a panic for an incompatible key or element type. |
| `MergeScenarios.MergeAdoptsNewKey` | variablemap_test.go:12 | A key only the argument has is adopted. |
| `MergeScenarios.MergeKeepsString` | variablemap_test.go:13 | The receiver's string wins over the argument's string. |
| `MergeScenarios.MergeUnitesMaps` | variablemap_test.go:14 | Two string maps on different keys are united. |
| `MergeScenarios.MergeKeepsStringOverMap` | variablemap_test.go:15 | The receiver's string wins over the argument's map. |
| `MergeScenarios.MergeKeepsNestedString` | variablemap_test.go:16 | Inside a map, the receiver's string wins too. |
| `MergeScenarios.MergeKeepsNestedMap` | variablemap_test.go:17 | One level down, a receiver map facing an argument string is left as it is. |
| `MergeScenarios.MergeUnitesDeepMaps` | variablemap_test.go:18 | Two levels down, string maps on different keys are united. |
| `MergeScenarios.MergeBadKeys` | variablemap_test.go:32-45 | A `map[int]string` merged into a `map[string]string` panics with the key-types panic alone, whose message is `cannot merge conflicting map key types`. |
| `MergeScenarios.MergeBadVals` | variablemap_test.go:47-60 | A `map[string]int` entry adopted into a `map[string]string` panics with the value-types panic alone, whose message is `cannot merge conflicting map value types`. |
| `BuilderScenarios.IsEqualConfigs` | builder_test.go:12-71 | The four pairs of equal configurations are `Is`. |
| `BuilderScenarios.IsDifferentNames` | builder_test.go:72-101 | A different template or a different output is not `Is`. |
| `BuilderScenarios.IsDifferentInherits` | builder_test.go:102-161 | `Inherits` of different lengths, with a different element, or in a different order is not `Is`. |
| `BuilderScenarios.IsDifferentVariables` | builder_test.go:162-206 | A deeply different variable, or a string facing a map in either direction, is not `Is`. |
| `BuilderScenarios.IsNilAndSelf` | builder_test.go:220-234 | A configuration is not `Is` nil and is `Is` itself. |

## Left out

- Template parsing and execution by `text/template` are not modelled. A body is a list of literal text, field references and `include` calls with literal arguments. The parse error that `component.go:160` ignores is out, and so are pipelines, functions other than `include`, and the `missingkey` option.
- Error messages leave out the template positions that `text/template` adds (the `:1:3:` in `template: :1:3: executing ...`). `IncludePrefix` stands for the rest of that prefix.
- Every render has a `fuel` bound on nested include depth, which the Go code does not have. In the Go code, only the cycle check over a memoising resolver stops a true cycle. When the bound is reached the model ends with `OutOfFuel`. The general properties (the contracts of `Render`, `RenderComponent`, `Execute` and `ExecuteInclude`, and `RenderAgainIsCycle`, `CycleRepeatsPath`, `FreshRenderPushesAgain`, `ExecuteLiterals` and `ExecuteAppend`) hold for every fuel value. The scenarios with includes state their results at one fixed fuel that is large enough for their include depth. `RenderIncludeStack`, `RenderSiblingIncludes`, `RenderFreshSiblingIncludes` and `IncludeRenderFailure` use 2, `RenderMutualIncludes` uses 3, and `ExecuteIncludes` requires positive fuel. With too little fuel, a render ends with `OutOfFuel` instead; `Render(0, ...)` of a component that includes another is one example.
- Field references print a map value as the empty string. Go would print the map.
- Readers, the output sink, the clock and the file system are parameters or values. The `io.Writer` is the scope's accumulated output string. The reader is a function passed to every resolve, so it can change between calls.
- The `sync.Mutex` locking in `Component` and `CacheComponentResolver` is concurrency only. The model is sequential.
- `ComponentResolver` implementations other than the cache and the tracker appear in one of three forms. A resolver without memoisation is `Fresh`. One that hands out fixed instances, like the tests' `absoluteResolver`, is a cache filled in advance. One that always fails is a reader that fails.
- The tests' `staticResolver` parses with the `missingkey=error` option. The model uses the default option of `component.go`, so a missing key prints `<no value>`.
- Nil values and Go's full assignability rules are out. Values are strings, integers and maps with explicit key and element types. Assignability means identical types, or any type into `interface{}`.
- OS-specific `filepath` behaviour is out: paths use `/` only. `filepath.Rel` is modelled lexically. Both paths are cleaned, a rooted path is never related to a relative one, and a base that keeps `..` past the common prefix is an error. As in Go, a relative target that cleans to `.` is kept as the element `.` after the climb (`Paths.RelToCurrentDir`).
- `VariableMaps.MergeFromFatal` states the set of panics a merge can reach, not which one Go raises first: Go's map iteration order is random.
- `MergeFrom` mutates its receiver in place and returns it. The model returns the merged map as a new value.
- `VariableMaps.MergeFrom` and `VariableMaps.MergeReflectingMaps` do not model aliasing. Go adopts a nested map value of the argument by reference (`variablemap.go:26-30`, `50-53`). A later merge into the receiver then mutates that map in place (`variablemap.go:35-43`). So after `a.MergeFrom(b); a.MergeFrom(c)`, a nested map of `b` can gain the keys of `c`. The value model leaves `b` as it was.
- watch.go and its tests are not part of this model. They hold file-system watching with channels and timers.
