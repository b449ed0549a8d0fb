/**
 * The repository's own test cases, stated as lemmas about the model: path resolution, the
 * cache and tracking resolvers, scope renders and their errors. Each case is first proved for
 * arbitrary plain names and then instantiated with the names the tests use.
 */
module Scenarios {
  import opened Results
  import opened Strings
  import opened Paths
  import opened Values
  import opened Components
  import opened Resolvers
  import opened RenderScopes

  // ---- path resolution ----

  /** A path element that is an ordinary name: not empty, `.` or `..`, and free of `/`. */
  predicate Plain(e: string) {
    IsName(e) && e != ".."
  }

  lemma JoinThree(a: string, b: string, c: string, sep: string)
    ensures JoinWith([a, b, c], sep) == a + sep + b + sep + c
  {
    assert [a, b, c][..2] == [a, b];
    assert [a, b][..1] == [a];
    assert JoinWith([a], sep) == a;
    assert JoinWith([a, b], sep) == a + sep + b;
  }

  lemma SplitSlash(a: string, b: string)
    ensures Split(a + "/" + b, '/') == Split(a, '/') + Split(b, '/')
  {
    assert a + "/" + b == a + ['/'] + b;
    SplitAround(a, b, '/');
  }

  /** The directory of `d/f` is `d/`. */
  lemma {:induction false} DirOfFile(d: string, f: string)
    requires '/' !in f
    ensures Dir(d + "/" + f) == d + "/"
    decreases |f|
  {
    var s := d + "/" + f;
    if |f| > 0 {
      var f' := f[..|f| - 1];
      assert s[..|s| - 1] == d + "/" + f';
      assert s[|s| - 1] == f[|f| - 1];
      DirOfFile(d, f');
    }
  }

  /** The directory of a path without separators is empty. */
  lemma DirOfPlain(base: string)
    requires '/' !in base
    ensures Dir(base) == ""
  {
  }

  /** The elements of `d/` followed by `/b`. */
  lemma ParseJoinDir(d: string, b: string)
    requires Plain(d)
    ensures Parse((d + "/") + "/" + b) == Path(false, [d, ""] + Split(b, '/'))
  {
    SplitSlash(d + "/", b);
    SplitDirSlash(d);
    UnrootedJoinDir(d, b);
  }

  lemma SplitDirSlash(d: string)
    requires Plain(d)
    ensures Split(d + "/", '/') == [d, ""]
  {
    assert d + "/" == d + "/" + "";
    SplitSlash(d, "");
    SplitFree(d, '/');
    SplitFree("", '/');
  }

  lemma UnrootedJoinDir(d: string, b: string)
    requires Plain(d)
    ensures |(d + "/") + "/" + b| > 0 && ((d + "/") + "/" + b)[0] != '/'
  {
    assert (d + ("/" + "/" + b))[0] == d[0];
    assert d + "/" + "/" + b == d + ("/" + "/" + b);
  }

  lemma FoldPlain(acc: seq<string>, es: seq<string>)
    requires forall i :: 0 <= i < |acc| ==> Plain(acc[i])
    requires forall i :: 0 <= i < |es| ==> Plain(es[i])
    ensures Fold(false, acc, es) == acc + es
  {
    FoldOfClean(false, acc, es);
  }

  /** Cleaning `d/` joined with `b`: the elements of `b` walked from `[d]`. */
  lemma CleanJoinDir(d: string, b: string)
    requires Plain(d)
    ensures Join(d + "/", b) == Format(Path(false, Fold(false, [d], Split(b, '/'))))
  {
    ParseJoinDir(d, b);
    FoldAppend(false, [], [d, ""], Split(b, '/'));
    FoldDirSlash(d);
  }

  /** The elements of `d/` clean to `[d]`. */
  lemma FoldDirSlash(d: string)
    requires Plain(d)
    ensures Fold(false, [], [d, ""]) == [d]
  {
    assert Step(false, [], d) == [d];
    assert Step(false, [d], "") == [d];
    assert [d, ""][1..] == [""];
    assert Fold(false, [], [d, ""]) == Fold(false, [d], [""]);
  }

  lemma JoinDirName(d: string, n: string)
    requires Plain(d) && Plain(n)
    ensures Join(d + "/", n) == d + "/" + n
  {
    CleanJoinDir(d, n);
    SplitFree(n, '/');
    FoldPlain([d], [n]);
    assert [d] + [n] == [d, n];
    assert [d, n][..1] == [d];
    assert Format(Path(false, [d, n])) == JoinWith([d, n], "/");
  }

  lemma JoinDirParent(d: string, n: string)
    requires Plain(d) && Plain(n)
    ensures Join(d + "/", ".." + "/" + n) == n
  {
    CleanJoinDir(d, ".." + "/" + n);
    SplitParent(n);
    FoldParent(d, n);
    CleanPlainPath([n]);
  }

  lemma SplitParent(n: string)
    requires Plain(n)
    ensures Split(".." + "/" + n, '/') == ["..", n]
  {
    SplitSlash("..", n);
    SplitFree("..", '/');
    SplitFree(n, '/');
  }

  lemma FoldParent(d: string, n: string)
    requires Plain(d) && Plain(n)
    ensures Fold(false, [d], ["..", n]) == [n]
  {
    assert [d][..0] == [];
    assert Step(false, [d], "..") == [];
    assert ["..", n][1..] == [n];
    assert Fold(false, [d], ["..", n]) == Fold(false, [], [n]);
    FoldPlain([], [n]);
  }

  lemma JoinDirNested(d: string, m: string, n: string)
    requires Plain(d) && Plain(m) && Plain(n)
    ensures Join(d + "/", m + "/" + n) == d + "/" + m + "/" + n
  {
    CleanJoinDir(d, m + "/" + n);
    SplitTwo(m, n);
    FoldPlain([d], [m, n]);
    assert [d] + [m, n] == [d, m, n];
    FormatThree(d, m, n);
  }

  lemma SplitTwo(m: string, n: string)
    requires Plain(m) && Plain(n)
    ensures Split(m + "/" + n, '/') == [m, n]
  {
    SplitSlash(m, n);
    SplitFree(m, '/');
    SplitFree(n, '/');
  }

  lemma FormatThree(d: string, m: string, n: string)
    ensures Format(Path(false, [d, m, n])) == d + "/" + m + "/" + n
  {
    JoinThree(d, m, n, "/");
  }

  /** A relative path of plain names is clean, and spelled by joining its names. */
  lemma CleanPlainPath(es: seq<string>)
    requires |es| > 0 && forall i :: 0 <= i < |es| ==> Plain(es[i])
    ensures Clean(Parse(JoinWith(es, "/"))) == Path(false, es)
    ensures Format(Path(false, es)) == JoinWith(es, "/")
  {
    var p := Path(false, es);
    assert IsClean(p);
    RoundTripRelative(p);
  }

  /** `./` and the empty path both clean to the empty relative path. */
  lemma CleanCurrentDir()
    ensures Clean(Parse("./")) == Path(false, [])
    ensures Clean(Parse("")) == Path(false, [])
  {
    assert "./" == "." + ['/'] + "";
    SplitAround(".", "", '/');
    SplitFree(".", '/');
    SplitFree("", '/');
  }

  /** A relative clean path is reached from the current directory by itself. */
  lemma RelFromCurrentDir(base: string, targ: string, es: seq<string>)
    requires Clean(Parse(base)) == Path(false, [])
    requires Clean(Parse(targ)) == Path(false, es) && |es| > 0
    requires Format(Path(false, es)) == targ
    ensures Rel(base, targ) == Success(targ)
  {
    assert Ups(0) + es[0..] == es;
  }

  /** From `d/`, the path `d/n` is `n`. */
  lemma RelIntoDir(d: string, n: string)
    requires Plain(d) && Plain(n)
    ensures Rel(d + "/", d + "/" + n) == Success(n)
  {
    CleanDirSlash(d);
    assert [d, n][..1] == [d];
    CleanPlainPath([d, n]);
    RelElemsIntoDir(d, n);
    CleanPlainPath([n]);
  }

  /** `d/` cleans to `d`. */
  lemma CleanDirSlash(d: string)
    requires Plain(d)
    ensures Clean(Parse(d + "/")) == Path(false, [d])
  {
    SplitDirSlash(d);
    assert (d + "/")[0] == d[0];
    FoldDirSlash(d);
  }

  lemma RelElemsIntoDir(d: string, n: string)
    requires Plain(d) && Plain(n)
    ensures RelElems(Path(false, [d]), Path(false, [d, n])) == Some([n])
  {
    var base, targ := Path(false, [d]), Path(false, [d, n]);
    assert CommonPrefix(base.elems, targ.elems) == 1;
    assert Ups(0) + targ.elems[1..] == [n];
  }

  /** With an empty base path, a plain name included from a top-level component resolves to
      itself. */
  lemma ResolvePlainName(s: Scope, base: string, name: string)
    requires s.basePath == "" && '/' !in base && Plain(name)
    ensures ResolvePath(s, base, name) == Success(name)
  {
    DirOfPlain(base);
    SplitFree(name, '/');
    assert Fold(false, [], [name]) == [name];
    assert Join("", name) == name;
    CleanCurrentDir();
    CleanPlainPath([name]);
    RelFromCurrentDir("", name, [name]);
  }

  function TestScope(basePath: string): Scope {
    NewRenderScope(Cache(map[], 0), basePath, Str(""))
  }

  /** A sibling of the including file, from the current directory. */
  lemma ResolveSibling(d: string, f: string, n: string)
    requires Plain(d) && Plain(f) && Plain(n)
    ensures ResolvePath(TestScope("./"), d + "/" + f, n) == Success(d + "/" + n)
  {
    DirOfFile(d, f);
    CleanCurrentDir();
    JoinDirName(d, n);
    assert [d, n][..1] == [d];
    CleanPlainPath([d, n]);
    RelFromCurrentDir("./", d + "/" + n, [d, n]);
  }

  /** A file one level up from the including file, from the current directory. */
  lemma ResolveParent(d: string, f: string, n: string)
    requires Plain(d) && Plain(f) && Plain(n)
    ensures ResolvePath(TestScope("./"), d + "/" + f, ".." + "/" + n) == Success(n)
  {
    DirOfFile(d, f);
    CleanCurrentDir();
    JoinDirParent(d, n);
    CleanPlainPath([n]);
    SplitFree(n, '/');
    assert JoinWith([n], "/") == n;
    RelFromCurrentDir("./", n, [n]);
  }

  /** A file in a sub-directory next to the including file, from the current directory. */
  lemma ResolveNested(d: string, f: string, m: string, n: string)
    requires Plain(d) && Plain(f) && Plain(m) && Plain(n)
    ensures ResolvePath(TestScope("./"), d + "/" + f, m + "/" + n) == Success(d + "/" + m + "/" + n)
  {
    DirOfFile(d, f);
    CleanCurrentDir();
    JoinDirNested(d, m, n);
    JoinThree(d, m, n, "/");
    CleanPlainPath([d, m, n]);
    RelFromCurrentDir("./", d + "/" + m + "/" + n, [d, m, n]);
  }

  /** A sibling of the including file, relative to the including file's own directory. */
  lemma ResolveFromDir(d: string, f: string, n: string)
    requires Plain(d) && Plain(f) && Plain(n)
    ensures ResolvePath(TestScope(d + "/"), d + "/" + f, n) == Success(n)
  {
    DirOfFile(d, f);
    JoinDirName(d, n);
    RelIntoDir(d, n);
  }

  // The names of the resolve test table and the strings built from them, each group proved
  // apart from the resolution itself.

  lemma SrcLiterals()
    ensures "src" + "/" + "test.file" == "src/test.file"
    ensures "src" + "/" + "something.file" == "src/something.file"
    ensures "src" + "/" == "src/"
  {
  }

  lemma PlainLiterals()
    ensures Plain("src") && Plain("test.file") && Plain("something") && Plain("something.file")
  {
  }

  lemma UpLiteral()
    ensures ".." + "/" + "something.file" == "../something.file"
  {
  }

  lemma NestedLiterals()
    ensures "something" + "/" + "something.file" == "something/something.file"
    ensures "src" + "/" + "something" + "/" + "something.file" == "src/something/something.file"
  {
  }

  /** The four rows of the resolve test table. */
  lemma ResolveTests()
    ensures ResolvePath(TestScope("./"), "src/test.file", "something.file") == Success("src/something.file")
    ensures ResolvePath(TestScope("./"), "src/test.file", "../something.file") == Success("something.file")
    ensures ResolvePath(TestScope("./"), "src/test.file", "something/something.file")
      == Success("src/something/something.file")
    ensures ResolvePath(TestScope("src/"), "src/test.file", "something.file") == Success("something.file")
  {
    PlainLiterals();
    SrcLiterals();
    UpLiteral();
    NestedLiterals();
    ResolveSibling("src", "test.file", "something.file");
    ResolveParent("src", "test.file", "something.file");
    ResolveNested("src", "test.file", "something", "something.file");
    ResolveFromDir("src", "test.file", "something.file");
  }

  /** From `src/`, `include "."` in a top-level component asks for `../.`, as `filepath.Rel`
      spells it, and `Rel("a/b", ".")` climbs twice before the `.`. */
  lemma IncludeCurrentDir()
    ensures ResolvePath(TestScope("src/"), "f", ".") == Success("../.")
    ensures Rel("a/b", ".") == Success("../../.")
  {
    JoinCurrentDir("f", ".");
    RelOneName("src/", "src");
    RelTwoNames("a/b", "a", "b");
  }

  /** The directory of a top-level file joined with `.` is `.`. */
  lemma JoinCurrentDir(f: string, dot: string)
    requires f == "f" && dot == "."
    ensures Join(Dir(f), dot) == dot
  {
    DirOfPlain(f);
    SplitFree(dot, '/');
    assert Parse(dot) == Path(false, [dot]);
    assert Fold(false, [], [dot]) == Fold(false, [], []);
    assert Clean(Parse(dot)) == Path(false, []);
  }

  lemma RelOneName(b: string, d: string)
    requires b == "src/" && d == "src"
    ensures Rel(b, ".") == Success("../.")
  {
    CleanNameSlash(b, d);
    RelToCurrentDir(b);
    UpsSpelled();
  }

  lemma RelTwoNames(b: string, d: string, e: string)
    requires b == "a/b" && d == "a" && e == "b"
    ensures Rel(b, ".") == Success("../../.")
  {
    CleanTwoNames(b, d, e);
    RelToCurrentDir(b);
    UpsSpelled();
  }

  /** `d/` cleans to the single name `d`. */
  lemma CleanNameSlash(b: string, d: string)
    requires b == d + "/" && d != "" && d != "." && d != ".." && '/' !in d
    ensures Clean(Parse(b)) == Path(false, [d])
  {
    assert b == d + ['/'] + "";
    SplitAround(d, "", '/');
    SplitFree(d, '/');
    assert Split("", '/') == [""];
    assert Parse(b) == Path(false, [d, ""]);
    assert Fold(false, [], [d, ""]) == Fold(false, [d], [""]);
    assert Fold(false, [d], [""]) == Fold(false, [d], []);
  }

  /** `d/e` cleans to the two names `d` and `e`. */
  lemma CleanTwoNames(b: string, d: string, e: string)
    requires b == d + "/" + e && Plain(d) && Plain(e)
    ensures Clean(Parse(b)) == Path(false, [d, e])
  {
    assert [d, e][..1] == [d];
    CleanPlainPath([d, e]);
  }

  /** One and two levels up, followed by `.`. */
  lemma UpsSpelled()
    ensures JoinWith(Ups(1), "/") + "/." == "../."
    ensures JoinWith(Ups(2), "/") + "/." == "../../."
  {
    assert Ups(1) == [".."];
    assert Ups(2) == ["..", ".."];
    assert ["..", ".."][..1] == [".."];
  }

  /** A plain name joined to the empty directory is itself. */
  lemma JoinPlain(name: string)
    requires Plain(name)
    ensures Join("", name) == name
  {
    SplitFree(name, '/');
    assert Parse(name) == Path(false, [name]);
    assert Fold(false, [], [name]) == [name];
  }

  // ---- resolvers ----

  /** The error the test readers and resolvers fail with. */
  const NotExist: Error := IoError("does not exist")

  function CacheTestReader(p: string): Result<seq<Item>, Error> {
    if p == "a" then Success([Literal("H")])
    else if p == "b" then Success([Literal("I")])
    else Failure(NotExist)
  }

  function FailingReader(p: string): Result<seq<Item>, Error> {
    Failure(NotExist)
  }

  /** Resolving `a`, the unknown `c` and `b`, then `a` again once the reader fails for
      everything: the paths stick, the failure is passed on, and the second `a` is the very
      instance of the first. */
  lemma CacheResolverScenario()
    ensures var a := Resolve(Cache(map[], 0), CacheTestReader, "a");
      var c := Resolve(a.resolver, CacheTestReader, "c");
      var b := Resolve(c.resolver, CacheTestReader, "b");
      var a2 := Resolve(b.resolver, FailingReader, "a");
      && a.result.Success? && a.result.value.filepath == "a"
      && c.result == Failure(NotExist)
      && b.result.Success? && b.result.value.filepath == "b"
      && a2.result == a.result
      && b.result.value.id != a.result.value.id
  {
  }

  function TrackingTestReader(p: string): Result<seq<Item>, Error> {
    if p == "a" || p == "b" || p == "c" then Success([Literal(p)]) else Failure(NotExist)
  }

  /** A tracker over a resolver that parses anew on every call. */
  function Tracker(): Resolver {
    Tracking(Fresh(0), {})
  }

  lemma TrackingScenarios()
    ensures ResolveAll(Tracker(), TrackingTestReader, ["a"]).0.hits == {"a"}
    ensures ResolveAll(Tracker(), TrackingTestReader, ["a", "b"]).0.hits == {"a", "b"}
    ensures ResolveAll(Tracker(), TrackingTestReader, ["a", "e", "a"]).0.hits == {"a"}
    ensures ResolveAll(Tracker(), TrackingTestReader, ["e"]).0.hits == {}
  {
    assert ["a", "b"][1..] == ["b"];
    assert ["a", "e", "a"][1..] == ["e", "a"];
    assert ["e", "a"][1..] == ["a"];
  }

  /** The tracker passes on its downstream's answers: the unknown path's error, and for each
      query of `a` a new instance, since nothing downstream memoises. */
  lemma TrackingErrorsPassedOn()
    ensures ResolveAll(Tracker(), TrackingTestReader, ["a", "e", "a"]).1
      == [Success(Component(0, "a", [Literal("a")])), Failure(NotExist), Success(Component(1, "a", [Literal("a")]))]
  {
    assert ["a", "e", "a"][1..] == ["e", "a"];
    assert ["e", "a"][1..] == ["a"];
  }

  // ---- rendering ----

  /** One step of `Execute` at an include that resolves and renders without error. */
  lemma ExecuteIncludes(fuel: nat, read: Reader, s: Scope, c: Component, env: map<string, Value>, items: seq<Item>)
    requires fuel > 0 && |items| > 0 && items[0].Include?
    requires ResolvePath(s, c.filepath, items[0].name).Success?
    requires Render(fuel - 1, read, s, ResolvePath(s, c.filepath, items[0].name).value, items[0].args).err.None?
    ensures var inner := Render(fuel - 1, read, s, ResolvePath(s, c.filepath, items[0].name).value, items[0].args);
      Execute(fuel, read, s, c, env, items) == Execute(fuel, read, inner.scope, c, env, items[1..])
  {
    ExecuteAtInclude(fuel, read, s, c, env, items);
    IncludeRenders(fuel, read, s, c, env, items[0].name, items[0].args, items[1..]);
  }

  /** `Execute` hands an include to `ExecuteInclude`. */
  lemma ExecuteAtInclude(fuel: nat, read: Reader, s: Scope, c: Component, env: map<string, Value>, items: seq<Item>)
    requires |items| > 0 && items[0].Include?
    ensures Execute(fuel, read, s, c, env, items) == ExecuteInclude(fuel, read, s, c, env, items[0].name, items[0].args, items[1..])
  {
  }

  lemma IncludeRenders(fuel: nat, read: Reader, s: Scope, c: Component, env: map<string, Value>,
                       name: string, args: seq<Value>, rest: seq<Item>)
    requires fuel > 0 && ResolvePath(s, c.filepath, name).Success?
    requires Render(fuel - 1, read, s, ResolvePath(s, c.filepath, name).value, args).err.None?
    ensures ExecuteInclude(fuel, read, s, c, env, name, args, rest)
      == Execute(fuel, read, Render(fuel - 1, read, s, ResolvePath(s, c.filepath, name).value, args).scope, c, env, rest)
  {
  }

  /** One step of `Render` when the resolved instance is new to the stack. */
  lemma RenderPushes(fuel: nat, read: Reader, s: Scope, name: string, args: seq<Value>)
    requires Resolve(s.resolver, read, name).result.Success?
    requires !OnStack(s.stack, Resolve(s.resolver, read, name).result.value)
    ensures var res := Resolve(s.resolver, read, name);
      var c := res.result.value;
      Render(fuel, read, s, name, args)
        == Execute(fuel, read, s.(resolver := res.resolver, stack := s.stack + [c]), c, Bind(s.vars, args), c.body)
  {
  }

  /** The variables of the scope render tests: `{"v": "result"}`. */
  function TestVars(): Value {
    Map(TStr, TStr, map[KStr("v") := Str("result")])
  }

  /** The scope of the render tests, over a resolver that parses anew on every call. */
  function Scope0(): Scope {
    NewRenderScope(Fresh(0), "", TestVars())
  }

  /** The same scope over an empty cache. */
  function CacheScope0(): Scope {
    NewRenderScope(Cache(map[], 0), "", TestVars())
  }

  function BasicReader(p: string): Result<seq<Item>, Error> {
    if p == "a" then Success([Literal("test")]) else Failure(NotExist)
  }

  lemma RenderBasic()
    ensures var o := Render(1, BasicReader, Scope0(), "a", []);
      o.err == None && o.scope.out == "test"
  {
    var c := Component(0, "a", [Literal("test")]);
    var s1 := Scope0().(resolver := Fresh(1), stack := [c]);
    ExecuteLiterals(1, BasicReader, s1, c, Bind(TestVars(), []), c.body);
  }

  function ArgsReader(p: string): Result<seq<Item>, Error> {
    if p == "a" then Success([Field("Arg0", []), Literal(", "), Field("Arg1", [])]) else Failure(NotExist)
  }

  lemma ArgNames()
    ensures ArgName(0) == "Arg0" && ArgName(1) == "Arg1"
  {
  }

  lemma RenderArgs()
    ensures var o := Render(1, ArgsReader, Scope0(), "a", [Str("1st arg"), Str("2nd arg")]);
      o.err == None && o.scope.out == "1st arg" + ", " + "2nd arg"
  {
    ArgsRender(1, Scope0(), [Str("1st arg"), Str("2nd arg")]);
  }

  /** One step of `Execute` at a field reference that evaluates. */
  lemma ExecuteFieldStep(fuel: nat, read: Reader, s: Scope, c: Component, env: map<string, Value>, items: seq<Item>)
    requires |items| > 0 && items[0].Field?
    requires LookupField(env, items[0].root, items[0].path).Success?
    ensures Execute(fuel, read, s, c, env, items)
      == Execute(fuel, read, s.(out := s.out + FieldText(LookupField(env, items[0].root, items[0].path).value)), c, env, items[1..])
  {
  }

  lemma ArgsRender(fuel: nat, s0: Scope, args: seq<Value>)
    requires fuel == 1 && s0 == Scope0() && args == [Str("1st arg"), Str("2nd arg")]
    ensures var o := Render(fuel, ArgsReader, s0, "a", args);
      o.err == None && o.scope.out == "1st arg" + ", " + "2nd arg"
  {
    var body := [Field("Arg0", []), Literal(", "), Field("Arg1", [])];
    var c := Component(0, "a", body);
    var s1 := s0.(resolver := Fresh(1), stack := [c]);
    assert Resolve(s0.resolver, ArgsReader, "a") == Resolved(s1.resolver, Success(c));
    RenderPushes(fuel, ArgsReader, s0, "a", args);
    assert s0.(resolver := s1.resolver, stack := s0.stack + [c]) == s1;
    ArgsBound(Bind(TestVars(), args), args);
    ArgsBody(fuel, s1, c, Bind(TestVars(), args));
  }

  lemma ArgsBound(env: map<string, Value>, args: seq<Value>)
    requires args == [Str("1st arg"), Str("2nd arg")] && env == Bind(TestVars(), args)
    ensures LookupField(env, "Arg0", []) == Success(Some(Str("1st arg")))
    ensures LookupField(env, "Arg1", []) == Success(Some(Str("2nd arg")))
  {
    ArgNames();
  }

  /** The body `{{ .Arg0 }}, {{ .Arg1 }}` prints the two arguments around the literal. */
  lemma ArgsBody(fuel: nat, s1: Scope, c: Component, env: map<string, Value>)
    requires s1.out == "" && c.body == [Field("Arg0", []), Literal(", "), Field("Arg1", [])]
    requires LookupField(env, "Arg0", []) == Success(Some(Str("1st arg")))
    requires LookupField(env, "Arg1", []) == Success(Some(Str("2nd arg")))
    ensures var o := Execute(fuel, ArgsReader, s1, c, env, c.body);
      o.err == None && o.scope.out == "1st arg" + ", " + "2nd arg"
  {
    var body := c.body;
    ExecuteStringField(fuel, ArgsReader, s1, c, env, body, "1st arg");
    var s2 := s1.(out := s1.out + "1st arg");
    ExecuteLiteralStep(fuel, ArgsReader, s2, c, env, body[1..]);
    var s3 := s2.(out := s2.out + ", ");
    assert body[1..][1..] == body[2..];
    ArgsLast(fuel, s3, c, env);
  }

  lemma ArgsLast(fuel: nat, s3: Scope, c: Component, env: map<string, Value>)
    requires c.body == [Field("Arg0", []), Literal(", "), Field("Arg1", [])]
    requires LookupField(env, "Arg1", []) == Success(Some(Str("2nd arg")))
    ensures Execute(fuel, ArgsReader, s3, c, env, c.body[2..]) == Rendered(s3.(out := s3.out + "2nd arg"), None)
  {
    ExecuteStringField(fuel, ArgsReader, s3, c, env, c.body[2..], "2nd arg");
    assert c.body[2..][1..] == [];
  }

  /** One step of `Execute` at a field reference holding a string. */
  lemma ExecuteStringField(fuel: nat, read: Reader, s: Scope, c: Component, env: map<string, Value>,
                           items: seq<Item>, v: string)
    requires |items| > 0 && items[0].Field?
    requires LookupField(env, items[0].root, items[0].path) == Success(Some(Str(v)))
    ensures Execute(fuel, read, s, c, env, items) == Execute(fuel, read, s.(out := s.out + v), c, env, items[1..])
  {
    ExecuteFieldStep(fuel, read, s, c, env, items);
  }

  function IncludeReader(p: string): Result<seq<Item>, Error> {
    if p == "a" then Success([Include("b", [])])
    else if p == "b" then Success([Literal("test")])
    else Failure(NotExist)
  }

  lemma RenderIncludeStack()
    ensures var o := Render(2, IncludeReader, Scope0(), "a", []);
      o.err == None && o.scope.out == "test"
  {
    IncludeStack(2, Scope0());
  }

  lemma IncludeStack(fuel: nat, s0: Scope)
    requires fuel == 2 && s0 == Scope0()
    ensures var o := Render(fuel, IncludeReader, s0, "a", []);
      o.err == None && o.scope.out == "test"
  {
    var a := Component(0, "a", [Include("b", [])]);
    var s1 := IncludeTop(fuel, s0);
    var inner := IncludedB(s1);
    ResolvePlainName(s1, "a", "b");
    ExecuteIncludes(fuel, IncludeReader, s1, a, Bind(TestVars(), []), a.body);
    assert Execute(fuel, IncludeReader, inner, a, Bind(TestVars(), []), []) == Rendered(inner, None);
  }

  /** Rendering `a` pushes it and runs its body. */
  lemma IncludeTop(fuel: nat, s0: Scope) returns (s1: Scope)
    requires s0 == Scope0()
    ensures s1 == Scope0().(resolver := Fresh(1), stack := [Component(0, "a", [Include("b", [])])])
    ensures Render(fuel, IncludeReader, s0, "a", [])
      == Execute(fuel, IncludeReader, s1, Component(0, "a", [Include("b", [])]), Bind(TestVars(), []), [Include("b", [])])
  {
    var a := Component(0, "a", [Include("b", [])]);
    s1 := s0.(resolver := Fresh(1), stack := [a]);
    assert Resolve(s0.resolver, IncludeReader, "a") == Resolved(Fresh(1), Success(a));
    RenderPushes(fuel, IncludeReader, s0, "a", []);
    assert s0.(resolver := s1.resolver, stack := s0.stack + [a]) == s1;
  }

  /** The included `b`, rendered from the scope that holds `a`. */
  lemma IncludedB(s1: Scope) returns (t: Scope)
    requires s1 == Scope0().(resolver := Fresh(1), stack := [Component(0, "a", [Include("b", [])])])
    ensures Render(1, IncludeReader, s1, "b", []) == Rendered(t, None) && t.out == "test"
  {
    var b := Component(1, "b", [Literal("test")]);
    var s2 := s1.(resolver := Fresh(2), stack := s1.stack + [b]);
    assert Resolve(s1.resolver, IncludeReader, "b") == Resolved(s2.resolver, Success(b));
    RenderPushes(1, IncludeReader, s1, "b", []);
    ExecuteLiterals(1, IncludeReader, s2, b, Bind(TestVars(), []), b.body);
    t := s2.(out := "test");
  }

  function VarsReader(p: string): Result<seq<Item>, Error> {
    if p == "a" then Success([Field("Vars", ["v"])]) else Failure(NotExist)
  }

  lemma RenderVars()
    ensures var o := Render(1, VarsReader, Scope0(), "a", []);
      o.err == None && o.scope.out == "result"
  {
    var env := Bind(TestVars(), []);
    assert LookupField(env, "Vars", ["v"]) == Success(Some(Str("result")));
  }

  /** `.Vars.a` on three maps: one keyed by `int` cannot be indexed by a field name, one keyed
      by `interface{}` can, and one keyed by `string` without the key gives `<no value>`. */
  lemma FieldOnMaps()
    ensures LookupField(map["Vars" := Map(TInt, TStr, map[KInt(1) := Str("x")])], "Vars", ["a"])
      == Failure(FieldError("Vars", ["a"]))
    ensures LookupField(map["Vars" := Map(TAny, TStr, map[KStr("a") := Str("x")])], "Vars", ["a"])
      == Success(Some(Str("x")))
    ensures var r := LookupField(map["Vars" := Map(TStr, TStr, map[KStr("b") := Str("x")])], "Vars", ["a"]);
      r == Success(None) && FieldText(r.value) == "<no value>"
  {
  }

  /** One step of `Render` when the resolved instance is already on the stack. */
  lemma RenderCycles(fuel: nat, read: Reader, s: Scope, name: string, args: seq<Value>)
    requires Resolve(s.resolver, read, name).result.Success?
    requires OnStack(s.stack, Resolve(s.resolver, read, name).result.value)
    ensures Render(fuel, read, s, name, args).err
      == Some(CycleError(Filepaths(s.stack) + [Resolve(s.resolver, read, name).result.value.filepath]))
  {
  }

  /** One step of `Execute` at an include that resolves but whose render fails. */
  lemma ExecuteIncludeFails(fuel: nat, read: Reader, s: Scope, c: Component, env: map<string, Value>, items: seq<Item>)
    requires fuel > 0 && |items| > 0 && items[0].Include?
    requires ResolvePath(s, c.filepath, items[0].name).Success?
    requires Render(fuel - 1, read, s, ResolvePath(s, c.filepath, items[0].name).value, items[0].args).err.Some?
    ensures var inner := Render(fuel - 1, read, s, ResolvePath(s, c.filepath, items[0].name).value, items[0].args);
      Execute(fuel, read, s, c, env, items) == Rendered(inner.scope, Some(IncludeError(items[0].name, inner.err.value)))
  {
    ExecuteAtInclude(fuel, read, s, c, env, items);
  }

  /** A faulty resolver's error comes back as it is, with nothing written or pushed. */
  lemma RenderFaultyResolver()
    ensures var o := Render(1, FailingReader, Scope0(), "a", []);
      o.err == Some(NotExist) && o.scope.out == "" && o.scope.stack == []
  {
  }

  // `a` includes `b` and `b` includes `a`, both already held by the resolver.
  function CycleA(): Component { Component(0, "a", [Include("b", [])]) }
  function CycleB(): Component { Component(1, "b", [Include("a", [])]) }

  function CycleScope(): Scope {
    NewRenderScope(Cache(map["a" := CycleA(), "b" := CycleB()], 2), "", Map(TStr, TStr, map[]))
  }

  /** One step of `Execute` at an include whose target is already on the stack. */
  lemma ExecuteIncludeCycles(fuel: nat, read: Reader, s: Scope, c: Component, env: map<string, Value>,
                             items: seq<Item>, p: string)
    requires fuel > 0 && |items| > 0 && items[0].Include?
    requires ResolvePath(s, c.filepath, items[0].name) == Success(p)
    requires Resolve(s.resolver, read, p).result.Success?
    requires OnStack(s.stack, Resolve(s.resolver, read, p).result.value)
    ensures Execute(fuel, read, s, c, env, items).err
      == Some(IncludeError(items[0].name, CycleError(Filepaths(s.stack) + [Resolve(s.resolver, read, p).result.value.filepath])))
    ensures Execute(fuel, read, s, c, env, items).scope == s.(resolver := Resolve(s.resolver, read, p).resolver)
  {
    RenderCycles(fuel - 1, read, s, p, items[0].args);
    ExecuteIncludeFails(fuel, read, s, c, env, items);
  }

  /** In the scope holding `a` and `b`, `a` resolves to the instance at the bottom of the stack. */
  lemma CycleFacts(s2: Scope)
    requires s2 == CycleScope().(stack := [CycleA(), CycleB()])
    ensures ResolvePath(s2, "b", "a") == Success("a")
    ensures Resolve(s2.resolver, FailingReader, "a").result == Success(CycleA())
    ensures OnStack(s2.stack, CycleA())
    ensures Filepaths(s2.stack) + ["a"] == ["a", "b", "a"]
  {
    ResolvePlainName(s2, "b", "a");
    CycleStack(s2.stack, CycleA(), CycleB());
  }

  lemma CycleStack(st: seq<Component>, a: Component, b: Component)
    requires st == [a, b] && a.filepath == "a" && b.filepath == "b"
    ensures OnStack(st, a)
    ensures Filepaths(st) + ["a"] == ["a", "b", "a"]
  {
    StackOfTwo(st, a, b, a);
  }

  /** A stack of two components holds both, and lists their paths in order. */
  lemma StackOfTwo(st: seq<Component>, x: Component, y: Component, z: Component)
    requires st == [x, y]
    ensures OnStack(st, x) && OnStack(st, y)
    ensures Filepaths(st) + [z.filepath] == [x.filepath, y.filepath, z.filepath]
  {
    assert st[0].id == x.id && st[1].id == y.id;
    assert Filepaths(st) == [x.filepath, y.filepath];
  }

  lemma CycleInner(s2: Scope)
    requires s2 == CycleScope().(stack := [CycleA(), CycleB()])
    ensures Execute(2, FailingReader, s2, CycleB(), Bind(s2.vars, []), CycleB().body).err
      == Some(IncludeError("a", CycleError(["a", "b", "a"])))
  {
    CycleFacts(s2);
    ExecuteIncludeCycles(2, FailingReader, s2, CycleB(), Bind(s2.vars, []), CycleB().body, "a");
  }

  lemma CycleMiddle(s1: Scope)
    requires s1 == CycleScope().(stack := [CycleA()])
    ensures Render(2, FailingReader, s1, "b", []).err == Some(IncludeError("a", CycleError(["a", "b", "a"])))
  {
    assert Resolve(s1.resolver, FailingReader, "b") == Resolved(s1.resolver, Success(CycleB()));
    assert !OnStack(s1.stack, CycleB());
    RenderPushes(2, FailingReader, s1, "b", []);
    var s2 := s1.(stack := [CycleA(), CycleB()]);
    assert s1.(resolver := s1.resolver, stack := s1.stack + [CycleB()]) == s2;
    CycleInner(s2);
  }

  /** The mutual include of `a` and `b` fails in `a`'s render of `b`, in `b`'s render of `a`,
      with the cycle `a -> b -> a`. */
  lemma RenderMutualIncludes()
    ensures Render(3, FailingReader, CycleScope(), "a", []).err
      == Some(IncludeError("b", IncludeError("a", CycleError(["a", "b", "a"]))))
  {
    var s := CycleScope();
    assert Resolve(s.resolver, FailingReader, "a") == Resolved(s.resolver, Success(CycleA()));
    assert !OnStack(s.stack, CycleA());
    RenderPushes(3, FailingReader, s, "a", []);
    var s1 := s.(stack := [CycleA()]);
    assert s.(resolver := s.resolver, stack := s.stack + [CycleA()]) == s1;
    ResolvePlainName(s1, "a", "b");
    CycleMiddle(s1);
    ExecuteIncludeFails(3, FailingReader, s1, CycleA(), Bind(s1.vars, []), CycleA().body);
  }

  /** The text of that error, up to the template positions: each include's prefix, then the
      cycle `a -> b -> a`. */
  lemma MutualIncludesMessage()
    ensures Message(IncludeError("b", IncludeError("a", CycleError(["a", "b", "a"]))))
      == IncludePrefix("b") + IncludePrefix("a") + "Cycle detected in include path: a -> b -> a"
  {
    CycleText(["a", "b", "a"]);
  }

  lemma CycleText(st: seq<string>)
    requires st == ["a", "b", "a"]
    ensures CycleMessage(st) == "Cycle detected in include path: a -> b -> a"
  {
    JoinThree("a", "b", "a", " -> ");
    assert "a" + " -> " + "b" + " -> " + "a" == "a -> b -> a";
  }

  function SiblingReader(p: string): Result<seq<Item>, Error> {
    if p == "a" then Success([Include("b", []), Include("b", [])])
    else if p == "b" then Success([Literal("x")])
    else Failure(NotExist)
  }

  lemma SiblingFirst(s1: Scope) returns (t: Scope)
    requires s1 == CacheScope0().(resolver := Cache(map["a" := Component(0, "a", [Include("b", []), Include("b", [])])], 1),
                             stack := [Component(0, "a", [Include("b", []), Include("b", [])])])
    ensures Render(1, SiblingReader, s1, "b", []) == Rendered(t, None)
    ensures t == CacheScope0().(resolver := Cache(map["a" := Component(0, "a", [Include("b", []), Include("b", [])]),
                                                 "b" := Component(1, "b", [Literal("x")])], 2),
                           stack := [Component(0, "a", [Include("b", []), Include("b", [])]), Component(1, "b", [Literal("x")])],
                           out := "x")
  {
    var b := Component(1, "b", [Literal("x")]);
    var s2 := s1.(resolver := Cache(s1.resolver.entries["b" := b], 2), stack := s1.stack + [b]);
    assert Resolve(s1.resolver, SiblingReader, "b") == Resolved(s2.resolver, Success(b));
    RenderPushes(1, SiblingReader, s1, "b", []);
    ExecuteLiterals(1, SiblingReader, s2, b, Bind(TestVars(), []), b.body);
    t := s2.(out := "x");
  }

  lemma SiblingSecond(t: Scope, a: Component)
    requires a == Component(0, "a", [Include("b", []), Include("b", [])])
    requires t == CacheScope0().(resolver := Cache(map["a" := a, "b" := Component(1, "b", [Literal("x")])], 2),
                            stack := [a, Component(1, "b", [Literal("x")])], out := "x")
    ensures var o := Execute(2, SiblingReader, t, a, Bind(TestVars(), []), [Include("b", [])]);
      o.err == Some(IncludeError("b", CycleError(["a", "b", "b"]))) && o.scope.out == "x"
  {
    SiblingFacts(t, a);
    ExecuteIncludeCycles(2, SiblingReader, t, a, Bind(TestVars(), []), [Include("b", [])], "b");
  }

  lemma SiblingFacts(t: Scope, a: Component)
    requires a == Component(0, "a", [Include("b", []), Include("b", [])])
    requires t == CacheScope0().(resolver := Cache(map["a" := a, "b" := Component(1, "b", [Literal("x")])], 2),
                            stack := [a, Component(1, "b", [Literal("x")])], out := "x")
    ensures ResolvePath(t, "a", "b") == Success("b")
    ensures Resolve(t.resolver, SiblingReader, "b") == Resolved(t.resolver, Success(Component(1, "b", [Literal("x")])))
    ensures OnStack(t.stack, Component(1, "b", [Literal("x")]))
    ensures Filepaths(t.stack) + ["b"] == ["a", "b", "b"]
  {
    ResolvePlainName(t, "a", "b");
    SiblingStack(t.stack, a, Component(1, "b", [Literal("x")]));
  }

  lemma SiblingStack(st: seq<Component>, a: Component, b: Component)
    requires st == [a, b] && a.filepath == "a" && b.filepath == "b"
    ensures OnStack(st, b)
    ensures Filepaths(st) + ["b"] == ["a", "b", "b"]
  {
    StackOfTwo(st, a, b, b);
  }

  /** Two sibling includes of the same component: the first renders, the second is taken for
      a cycle because the stack is never popped. */
  lemma RenderSiblingIncludes()
    ensures var o := Render(2, SiblingReader, CacheScope0(), "a", []);
      o.err == Some(IncludeError("b", CycleError(["a", "b", "b"]))) && o.scope.out == "x"
  {
    SiblingIncludes(2, CacheScope0());
  }

  lemma SiblingIncludes(fuel: nat, s0: Scope)
    requires fuel == 2 && s0 == CacheScope0()
    ensures var o := Render(fuel, SiblingReader, s0, "a", []);
      o.err == Some(IncludeError("b", CycleError(["a", "b", "b"]))) && o.scope.out == "x"
  {
    var a := Component(0, "a", [Include("b", []), Include("b", [])]);
    var env := Bind(TestVars(), []);
    var s1 := SiblingTop(fuel, s0);
    var t := SiblingFirst(s1);
    SiblingRest(fuel, s1, t, a, env);
    SiblingSecond(t, a);
  }

  /** Rendering `a` pushes it and runs its body. */
  lemma SiblingTop(fuel: nat, s0: Scope) returns (s1: Scope)
    requires s0 == CacheScope0()
    ensures s1 == CacheScope0().(resolver := Cache(map["a" := Component(0, "a", [Include("b", []), Include("b", [])])], 1),
                            stack := [Component(0, "a", [Include("b", []), Include("b", [])])])
    ensures Render(fuel, SiblingReader, s0, "a", [])
      == Execute(fuel, SiblingReader, s1, Component(0, "a", [Include("b", []), Include("b", [])]), Bind(TestVars(), []),
                 [Include("b", []), Include("b", [])])
  {
    var a := Component(0, "a", [Include("b", []), Include("b", [])]);
    s1 := s0.(resolver := Cache(map["a" := a], 1), stack := [a]);
    assert Resolve(s0.resolver, SiblingReader, "a") == Resolved(s1.resolver, Success(a));
    RenderPushes(fuel, SiblingReader, s0, "a", []);
    assert s0.(resolver := s1.resolver, stack := s0.stack + [a]) == s1;
  }

  /** After the first include renders, only the second remains. */
  lemma SiblingRest(fuel: nat, s1: Scope, t: Scope, a: Component, env: map<string, Value>)
    requires fuel == 2 && a == Component(0, "a", [Include("b", []), Include("b", [])])
    requires s1 == CacheScope0().(resolver := Cache(map["a" := a], 1), stack := [a])
    requires Render(1, SiblingReader, s1, "b", []) == Rendered(t, None)
    ensures Execute(fuel, SiblingReader, s1, a, env, a.body) == Execute(fuel, SiblingReader, t, a, env, [Include("b", [])])
  {
    ResolvePlainName(s1, "a", "b");
    ExecuteIncludes(fuel, SiblingReader, s1, a, env, a.body);
    assert a.body[1..] == [Include("b", [])];
  }

  /** Rendering `b` over a resolver without memoisation makes a new instance, which is never
      on the stack, pushes it and writes its text. */
  lemma FreshSiblingB(s: Scope, id: nat) returns (t: Scope)
    requires s.resolver == Fresh(id)
    requires forall i :: 0 <= i < |s.stack| ==> s.stack[i].id < id
    ensures Render(1, SiblingReader, s, "b", []) == Rendered(t, None)
    ensures t == s.(resolver := Fresh(id + 1), stack := s.stack + [Component(id, "b", [Literal("x")])], out := s.out + "x")
  {
    var b := Component(id, "b", [Literal("x")]);
    var s2 := s.(resolver := Fresh(id + 1), stack := s.stack + [b]);
    assert Resolve(s.resolver, SiblingReader, "b") == Resolved(s2.resolver, Success(b));
    RenderPushes(1, SiblingReader, s, "b", []);
    ExecuteLiterals(1, SiblingReader, s2, b, Bind(s.vars, []), b.body);
    t := s2.(out := s.out + "x");
  }

  /** The same two sibling includes over a resolver that parses anew on every call: each
      include gets its own instance, so both render and the stack holds `b` twice. */
  lemma FreshSiblingIncludes(fuel: nat, s0: Scope)
    requires fuel == 2 && s0 == Scope0()
    ensures var o := Render(fuel, SiblingReader, s0, "a", []);
      o.err == None && o.scope.out == "xx" && Filepaths(o.scope.stack) == ["a", "b", "b"]
  {
    var a := Component(0, "a", [Include("b", []), Include("b", [])]);
    var s1 := FreshSiblingTop(fuel, s0);
    var t2 := FreshSiblingBody(fuel, s1, a);
    assert t2.stack == [a, Component(1, "b", [Literal("x")]), Component(2, "b", [Literal("x")])];
  }

  /** Rendering `a` pushes it and runs its body. */
  lemma FreshSiblingTop(fuel: nat, s0: Scope) returns (s1: Scope)
    requires s0 == Scope0()
    ensures s1 == Scope0().(resolver := Fresh(1), stack := [Component(0, "a", [Include("b", []), Include("b", [])])])
    ensures Render(fuel, SiblingReader, s0, "a", [])
      == Execute(fuel, SiblingReader, s1, Component(0, "a", [Include("b", []), Include("b", [])]), Bind(TestVars(), []),
                 [Include("b", []), Include("b", [])])
  {
    var a := Component(0, "a", [Include("b", []), Include("b", [])]);
    s1 := s0.(resolver := Fresh(1), stack := [a]);
    assert Resolve(s0.resolver, SiblingReader, "a") == Resolved(s1.resolver, Success(a));
    RenderPushes(fuel, SiblingReader, s0, "a", []);
    assert s0.(resolver := s1.resolver, stack := s0.stack + [a]) == s1;
  }

  /** The body of `a`: both includes render, one after the other. */
  lemma FreshSiblingBody(fuel: nat, s1: Scope, a: Component) returns (t2: Scope)
    requires fuel == 2 && a == Component(0, "a", [Include("b", []), Include("b", [])])
    requires s1 == Scope0().(resolver := Fresh(1), stack := [a])
    ensures Execute(fuel, SiblingReader, s1, a, Bind(TestVars(), []), a.body) == Rendered(t2, None)
    ensures t2.out == "xx" && t2.stack == [a, Component(1, "b", [Literal("x")]), Component(2, "b", [Literal("x")])]
  {
    var t1 := FreshSiblingInclude(fuel, s1, a, a.body, 1);
    t2 := FreshSiblingInclude(fuel, t1, a, a.body[1..], 2);
    assert a.body[1..][1..] == [];
  }

  /** One `include "b"` of `a`'s body over a resolver without memoisation. */
  lemma FreshSiblingInclude(fuel: nat, s: Scope, a: Component, items: seq<Item>, id: nat) returns (t: Scope)
    requires fuel == 2 && a.filepath == "a" && s.basePath == ""
    requires |items| > 0 && items[0] == Include("b", [])
    requires s.resolver == Fresh(id) && forall i :: 0 <= i < |s.stack| ==> s.stack[i].id < id
    ensures Execute(fuel, SiblingReader, s, a, Bind(TestVars(), []), items)
      == Execute(fuel, SiblingReader, t, a, Bind(TestVars(), []), items[1..])
    ensures t == s.(resolver := Fresh(id + 1), stack := s.stack + [Component(id, "b", [Literal("x")])], out := s.out + "x")
  {
    t := FreshSiblingB(s, id);
    ResolvePlainName(s, "a", "b");
    ExecuteIncludes(fuel, SiblingReader, s, a, Bind(TestVars(), []), items);
  }

  lemma RenderFreshSiblingIncludes()
    ensures var o := Render(2, SiblingReader, Scope0(), "a", []);
      o.err == None && o.scope.out == "xx" && Filepaths(o.scope.stack) == ["a", "b", "b"]
  {
    FreshSiblingIncludes(2, Scope0());
  }

  /** An include that cannot be made relative to the base path fails with the path error and
      renders nothing, without consulting the resolver. */
  lemma IncludeResolveFailure(read: Reader)
    ensures var s := NewRenderScope(Cache(map[], 0), "/x", TestVars());
      var c := Component(0, "base", [Include("nothing", [])]);
      Execute(1, read, s, c, Bind(s.vars, []), c.body)
        == Rendered(s, Some(IncludeError("nothing", PathError("Rel: can't make nothing relative to /x"))))
  {
    assert RelErrorMessage("/x", "nothing") == "Rel: can't make nothing relative to /x";
    IncludeNotRelative(1, read, NewRenderScope(Cache(map[], 0), "/x", TestVars()), Component(0, "base", [Include("nothing", [])]));
  }

  lemma IncludeNotRelative(fuel: nat, read: Reader, s: Scope, c: Component)
    requires s == NewRenderScope(Cache(map[], 0), "/x", TestVars())
    requires c == Component(0, "base", [Include("nothing", [])])
    ensures Execute(fuel, read, s, c, Bind(s.vars, []), c.body)
      == Rendered(s, Some(IncludeError("nothing", PathError(RelErrorMessage("/x", "nothing")))))
  {
    NothingNotRelative(s);
    ExecuteAtInclude(fuel, read, s, c, Bind(s.vars, []), c.body);
  }

  lemma NothingNotRelative(s: Scope)
    requires s.basePath == "/x"
    ensures ResolvePath(s, "base", "nothing") == Failure(PathError(RelErrorMessage("/x", "nothing")))
  {
    DirOfPlain("base");
    JoinPlain("nothing");
    assert Parse("/x").rooted;
  }

  function MissingReader(p: string): Result<seq<Item>, Error> {
    if p == "base" then Success([Include("nonexistant", [])]) else Failure(NotExist)
  }

  function MissingBase(): Component {
    Component(0, "base", [Include("nonexistant", [])])
  }

  lemma MissingInner(s1: Scope)
    requires s1 == Scope0().(resolver := Fresh(1), stack := [MissingBase()])
    ensures Execute(2, MissingReader, s1, MissingBase(), Bind(TestVars(), []), MissingBase().body).err
      == Some(IncludeError("nonexistant", NotExist))
  {
    ResolvePlainName(s1, "base", "nonexistant");
    assert Render(1, MissingReader, s1, "nonexistant", []).err == Some(NotExist);
    ExecuteIncludeFails(2, MissingReader, s1, MissingBase(), Bind(TestVars(), []), MissingBase().body);
  }

  /** An include whose render fails reports an error ending with the render's error. */
  lemma IncludeRenderFailure()
    ensures var e := Render(2, MissingReader, Scope0(), "base", []).err;
      e == Some(IncludeError("nonexistant", NotExist)) && HasSuffix(Message(e.value), "does not exist")
  {
    var c := MissingBase();
    var s1 := Scope0().(resolver := Fresh(1), stack := [c]);
    assert Resolve(Fresh(0), MissingReader, "base") == Resolved(s1.resolver, Success(c));
    RenderPushes(2, MissingReader, Scope0(), "base", []);
    assert Scope0().(resolver := s1.resolver, stack := Scope0().stack + [c]) == s1;
    MissingInner(s1);
    IncludeMessageEndsWithCause(IncludeError("nonexistant", NotExist));
  }
}
