/**
 * `RenderScope` and the rendering of components: a scope resolves include paths relative to
 * the including component, resolves components through its resolver, rejects a component
 * instance that is already on its render stack, and otherwise pushes it and executes it.
 * The stack is never popped, so within one scope each instance renders at most once.
 *
 * Rendering is bounded by `fuel`, the number of nested includes allowed; the bound stands in
 * for the unbounded recursion of the Go code and yields `OutOfFuel` when reached.
 */
module RenderScopes {
  import opened Results
  import opened Paths
  import opened Values
  import opened Components
  import opened Resolvers

  /** The scope's state: the base path includes are made relative to, the variables bound to
      `Vars`, the resolver, the render stack, and everything written to the writer so far. */
  datatype Scope = Scope(basePath: string, vars: Value, resolver: Resolver, stack: seq<Component>, out: string)

  /** The scope after a render, and the error the render returned, if any. */
  datatype Rendered = Rendered(scope: Scope, err: Option<Error>)

  /** `NewRenderScope`: an empty stack and nothing written yet. */
  function NewRenderScope(r: Resolver, basePath: string, vars: Value): Scope {
    Scope(basePath, vars, r, [], "")
  }

  /** `RenderScope.Resolve(base, relative)`: `relative` is taken from the directory of `base`
      and expressed relative to the scope's base path. */
  function ResolvePath(s: Scope, base: string, relative: string): (r: Result<string, Error>)
    ensures r.Failure? <==> Rel(s.basePath, Join(Dir(base), relative)).Failure?
    ensures r.Failure? ==> r.error == PathError(Rel(s.basePath, Join(Dir(base), relative)).error)
    ensures r.Success? ==> r.value == Rel(s.basePath, Join(Dir(base), relative)).value
  {
    match Rel(s.basePath, Join(Dir(base), relative))
    case Failure(msg) => Failure(PathError(msg))
    case Success(p) => Success(p)
  }

  /** A resolved include path, read from the scope's base path, names the file `relative`
      names next to `base`. */
  lemma ResolvePathJoinsBack(s: Scope, base: string, relative: string)
    requires ResolvePath(s, base, relative).Success?
    ensures var p := ResolvePath(s, base, relative).value;
      Clean(Parse(Join(s.basePath, p))) == Clean(Parse(Join(Dir(base), relative)))
  {
    RelJoinsBack(s.basePath, Join(Dir(base), relative));
  }

  /** The identity check of `Render`: the same instance is somewhere on the stack. */
  predicate OnStack(stack: seq<Component>, c: Component) {
    exists i :: 0 <= i < |stack| && stack[i].id == c.id
  }

  function Filepaths(stack: seq<Component>): (r: seq<string>)
    ensures |r| == |stack|
    ensures forall i :: 0 <= i < |stack| ==> r[i] == stack[i].filepath
  {
    seq(|stack|, i requires 0 <= i < |stack| => stack[i].filepath)
  }

  /** No instance occurs twice on the stack. */
  predicate Distinct(stack: seq<Component>) {
    forall i, j :: 0 <= i < j < |stack| ==> stack[i].id != stack[j].id
  }

  /** Every stack entry is the component the resolver holds under the entry's path. */
  predicate StackCached(stack: seq<Component>, r: Resolver) {
    forall i :: 0 <= i < |stack| ==> stack[i].filepath in Cached(r) && Cached(r)[stack[i].filepath] == stack[i]
  }

  /** `t` is a later state of the same scope: only the stack, the output and the resolver
      have moved, and each only forward. */
  predicate Grows(s: Scope, t: Scope) {
    && t.basePath == s.basePath
    && t.vars == s.vars
    && s.stack <= t.stack
    && s.out <= t.out
    && Evolves(s.resolver, t.resolver)
  }

  lemma GrowsReflexive(s: Scope)
    ensures Grows(s, s)
  {
    EvolvesReflexive(s.resolver);
  }

  lemma GrowsTransitive(s: Scope, t: Scope, u: Scope)
    requires Grows(s, t) && Grows(t, u)
    ensures Grows(s, u)
  {
    EvolvesTransitive(s.resolver, t.resolver, u.resolver);
  }

  lemma StackCachedEvolves(stack: seq<Component>, r: Resolver, r2: Resolver)
    requires Evolves(r, r2)
    ensures StackCached(stack, r) ==> StackCached(stack, r2)
  {
    if StackCached(stack, r) {
      forall i | 0 <= i < |stack|
        ensures stack[i].filepath in Cached(r2) && Cached(r2)[stack[i].filepath] == stack[i]
      {
        EvolvesKeepsCached(r, r2, stack[i].filepath);
      }
    }
  }

  lemma PushKeepsStackCached(stack: seq<Component>, r: Resolver, name: string, c: Component)
    ensures Valid(r) && name in Cached(r) && Cached(r)[name] == c && StackCached(stack, r) ==>
      StackCached(stack + [c], r)
  {
    if Valid(r) && name in Cached(r) {
      CachedUnderOwnPath(r, name);
    }
  }

  lemma PushKeepsDistinct(stack: seq<Component>, c: Component)
    requires !OnStack(stack, c)
    ensures Distinct(stack) ==> Distinct(stack + [c])
  {
  }

  /** `RenderScope.Render(name, args...)`. */
  function Render(fuel: nat, read: Reader, s: Scope, name: string, args: seq<Value>): (o: Rendered)
    ensures Grows(s, o.scope)
    ensures Evolves(Resolve(s.resolver, read, name).resolver, o.scope.resolver)
    ensures Distinct(s.stack) ==> Distinct(o.scope.stack)
    ensures Valid(s.resolver) ==> Valid(o.scope.resolver)
    ensures Valid(s.resolver) && StackCached(s.stack, s.resolver) ==> StackCached(o.scope.stack, o.scope.resolver)
    ensures var res := Resolve(s.resolver, read, name);
      res.result.Failure? ==>
        o == Rendered(s.(resolver := res.resolver), Some(res.result.error))
    ensures var res := Resolve(s.resolver, read, name);
      res.result.Success? && OnStack(s.stack, res.result.value) ==>
        o == Rendered(s.(resolver := res.resolver), Some(CycleError(Filepaths(s.stack) + [res.result.value.filepath])))
    ensures var res := Resolve(s.resolver, read, name);
      res.result.Success? && !OnStack(s.stack, res.result.value) ==>
        |o.scope.stack| > |s.stack| && o.scope.stack[|s.stack|] == res.result.value
    ensures var res := Resolve(s.resolver, read, name);
      res.result.Success? ==> OnStack(o.scope.stack, res.result.value)
    decreases fuel, 2, 0, 0
  {
    var res := Resolve(s.resolver, read, name);
    var s1 := s.(resolver := res.resolver);
    StackCachedEvolves(s.stack, s.resolver, res.resolver);
    EvolvesReflexive(res.resolver);
    match res.result
    case Failure(e) => Rendered(s1, Some(e))
    case Success(c) =>
      if OnStack(s.stack, c) then
        Rendered(s1, Some(CycleError(Filepaths(s.stack) + [c.filepath])))
      else
        ValidIsMemoising(s.resolver);
        PushKeepsStackCached(s.stack, res.resolver, name, c);
        PushKeepsDistinct(s.stack, c);
        var s2 := s1.(stack := s.stack + [c]);
        var o := RenderComponent(fuel, read, s2, c, args);
        assert o.scope.stack[|s.stack|] == s2.stack[|s.stack|];
        GrowsTransitive(s, s2, o.scope);
        o
  }

  /** `Component.Render(ctx, args...)`: the body executes against `Vars` and the positional
      arguments. */
  function RenderComponent(fuel: nat, read: Reader, s: Scope, c: Component, args: seq<Value>): (o: Rendered)
    ensures Grows(s, o.scope)
    ensures Distinct(s.stack) ==> Distinct(o.scope.stack)
    ensures Valid(s.resolver) ==> Valid(o.scope.resolver)
    ensures Valid(s.resolver) && StackCached(s.stack, s.resolver) ==> StackCached(o.scope.stack, o.scope.resolver)
    decreases fuel, 1, 0, 0
  {
    Execute(fuel, read, s, c, Bind(s.vars, args), c.body)
  }

  /** Template execution of `items` for component `c` in environment `env`; the first failing
      item ends it with its error, keeping whatever was written before. */
  function Execute(fuel: nat, read: Reader, s: Scope, c: Component, env: map<string, Value>, items: seq<Item>): (o: Rendered)
    ensures Grows(s, o.scope)
    ensures Distinct(s.stack) ==> Distinct(o.scope.stack)
    ensures Valid(s.resolver) ==> Valid(o.scope.resolver)
    ensures Valid(s.resolver) && StackCached(s.stack, s.resolver) ==> StackCached(o.scope.stack, o.scope.resolver)
    decreases fuel, 0, |items|, 1
  {
    if |items| == 0 then
      GrowsReflexive(s);
      Rendered(s, None)
    else
      match items[0]
      case Literal(text) =>
        var s1 := s.(out := s.out + text);
        var o := Execute(fuel, read, s1, c, env, items[1..]);
        EvolvesReflexive(s.resolver);
        GrowsTransitive(s, s1, o.scope);
        o
      case Field(root, path) =>
        (match LookupField(env, root, path)
         case Failure(e) =>
           GrowsReflexive(s);
           Rendered(s, Some(e))
         case Success(v) =>
           var s1 := s.(out := s.out + FieldText(v));
           var o := Execute(fuel, read, s1, c, env, items[1..]);
           EvolvesReflexive(s.resolver);
           GrowsTransitive(s, s1, o.scope);
           o)
      case Include(name, args) =>
        ExecuteInclude(fuel, read, s, c, env, name, args, items[1..])
  }

  /** An `include "name" args...` call followed by the items `rest`: the name is resolved
      against the including component's path, and the rest runs only when the nested render
      succeeded. */
  function ExecuteInclude(fuel: nat, read: Reader, s: Scope, c: Component, env: map<string, Value>,
                          name: string, args: seq<Value>, rest: seq<Item>): (o: Rendered)
    ensures Grows(s, o.scope)
    ensures Distinct(s.stack) ==> Distinct(o.scope.stack)
    ensures Valid(s.resolver) ==> Valid(o.scope.resolver)
    ensures Valid(s.resolver) && StackCached(s.stack, s.resolver) ==> StackCached(o.scope.stack, o.scope.resolver)
    ensures ResolvePath(s, c.filepath, name).Failure? ==>
      o == Rendered(s, Some(IncludeError(name, ResolvePath(s, c.filepath, name).error)))
    decreases fuel, 0, |rest| + 1, 0
  {
    match ResolvePath(s, c.filepath, name)
    case Failure(e) =>
      GrowsReflexive(s);
      Rendered(s, Some(IncludeError(name, e)))
    case Success(p) =>
      if fuel == 0 then
        GrowsReflexive(s);
        Rendered(s, Some(OutOfFuel))
      else
        var inner := Render(fuel - 1, read, s, p, args);
        if inner.err.Some? then
          Rendered(inner.scope, Some(IncludeError(name, inner.err.value)))
        else
          var o := Execute(fuel, read, inner.scope, c, env, rest);
          GrowsTransitive(s, inner.scope, o.scope);
          o
  }

  /** The stack is never popped: once `name` has resolved through a memoising chain,
      rendering it again in the resulting scope, with any fuel, reader and arguments, is
      rejected as a cycle whose stack ends with the instance's path. */
  lemma RenderAgainIsCycle(fuel: nat, read: Reader, s: Scope, name: string, args: seq<Value>,
                           fuel2: nat, read2: Reader, args2: seq<Value>)
    requires Memoising(s.resolver)
    requires Resolve(s.resolver, read, name).result.Success?
    ensures var t := Render(fuel, read, s, name, args).scope;
      var c := Resolve(s.resolver, read, name).result.value;
      Render(fuel2, read2, t, name, args2).err == Some(CycleError(Filepaths(t.stack) + [c.filepath]))
  {
    var res := Resolve(s.resolver, read, name);
    var t := Render(fuel, read, s, name, args).scope;
    ResolveSameInstance(s.resolver, t.resolver, read, read2, name);
  }

  /** A cycle error names a path twice: under a valid cache whose instances fill the stack,
      the reported stack ends with the resolved path and holds it earlier as well. */
  lemma CycleRepeatsPath(fuel: nat, read: Reader, s: Scope, name: string, args: seq<Value>)
    requires Valid(s.resolver) && StackCached(s.stack, s.resolver)
    requires Resolve(s.resolver, read, name).result.Success?
    requires OnStack(s.stack, Resolve(s.resolver, read, name).result.value)
    ensures Render(fuel, read, s, name, args).err.Some?
    ensures var e := Render(fuel, read, s, name, args).err.value;
      e.CycleError? && |e.stack| == |s.stack| + 1 && e.stack[|s.stack|] == name && name in e.stack[..|s.stack|]
  {
    var res := Resolve(s.resolver, read, name);
    var c := res.result.value;
    var i :| 0 <= i < |s.stack| && s.stack[i].id == c.id;
    ValidIsMemoising(s.resolver);
    StackCachedEvolves(s.stack, s.resolver, res.resolver);
    CachedUnderOwnPath(res.resolver, name);
    if s.stack[i].filepath != name {
      DistinctPathsDistinctInstances(res.resolver, s.stack[i].filepath, name);
    }
    var st := Filepaths(s.stack) + [c.filepath];
    assert Render(fuel, read, s, name, args).err == Some(CycleError(st));
    assert st[..|s.stack|][i] == s.stack[i].filepath;
  }

  /** Cycle detection compares instances, so it relies on memoisation: without it, a path
      already on the stack resolves to a new instance whose id no stack entry carries, and is
      pushed again instead of being rejected. */
  lemma FreshRenderPushesAgain(fuel: nat, read: Reader, s: Scope, name: string, args: seq<Value>)
    requires !Memoising(s.resolver) && read(name).Success?
    requires forall i :: 0 <= i < |s.stack| ==> s.stack[i].id < NextId(s.resolver)
    ensures var o := Render(fuel, read, s, name, args);
      && |o.scope.stack| > |s.stack|
      && o.scope.stack[|s.stack|] == Component(NextId(s.resolver), name, read(name).value)
  {
  }

  /** Literal text concatenated, for the output a run of literals writes. */
  function Texts(items: seq<Item>): string
    requires forall i :: 0 <= i < |items| ==> items[i].Literal?
  {
    if |items| == 0 then "" else items[0].text + Texts(items[1..])
  }

  /** A body of literal text writes exactly that text, touches nothing else and succeeds. */
  lemma {:induction false} ExecuteLiterals(fuel: nat, read: Reader, s: Scope, c: Component, env: map<string, Value>, items: seq<Item>)
    requires forall i :: 0 <= i < |items| ==> items[i].Literal?
    ensures Execute(fuel, read, s, c, env, items) == Rendered(s.(out := s.out + Texts(items)), None)
    decreases |items|
  {
    if |items| > 0 {
      var s1 := s.(out := s.out + items[0].text);
      ExecuteLiteralStep(fuel, read, s, c, env, items);
      ExecuteLiterals(fuel, read, s1, c, env, items[1..]);
      assert s1.out + Texts(items[1..]) == s.out + Texts(items);
    }
  }

  lemma ExecuteLiteralStep(fuel: nat, read: Reader, s: Scope, c: Component, env: map<string, Value>, items: seq<Item>)
    requires |items| > 0 && items[0].Literal?
    ensures Execute(fuel, read, s, c, env, items) == Execute(fuel, read, s.(out := s.out + items[0].text), c, env, items[1..])
  {
  }

  /** Execution is sequential: a body runs its first part, and the rest only when the first
      part succeeded, from the scope the first part left. */
  lemma {:induction false} ExecuteAppend(fuel: nat, read: Reader, s: Scope, c: Component, env: map<string, Value>,
                                         a: seq<Item>, b: seq<Item>)
    ensures var o := Execute(fuel, read, s, c, env, a);
      Execute(fuel, read, s, c, env, a + b) ==
        if o.err.Some? then o else Execute(fuel, read, o.scope, c, env, b)
    decreases |a|
  {
    if |a| > 0 {
      assert (a + b)[0] == a[0];
      assert (a + b)[1..] == a[1..] + b;
      match a[0]
      case Literal(text) =>
        ExecuteAppend(fuel, read, s.(out := s.out + text), c, env, a[1..], b);
      case Field(root, path) =>
        if LookupField(env, root, path).Success? {
          ExecuteAppend(fuel, read, s.(out := s.out + FieldText(LookupField(env, root, path).value)), c, env, a[1..], b);
        }
      case Include(name, args) =>
        if ResolvePath(s, c.filepath, name).Success? && fuel > 0 {
          var inner := Render(fuel - 1, read, s, ResolvePath(s, c.filepath, name).value, args);
          if inner.err.None? {
            ExecuteAppend(fuel, read, inner.scope, c, env, a[1..], b);
          }
        }
    } else {
      assert a + b == b;
    }
  }
}
