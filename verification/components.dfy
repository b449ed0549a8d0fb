/**
 * Components: template fragments bound to the path they were loaded from, and the errors a
 * render can end with. A component's template body is abstracted to a list of items: literal
 * text, a field reference such as `.Arg0` or `.Vars.test`, and an `include` call with
 * literal arguments. Two components are the same instance when their ids agree.
 */
module Components {
  import opened Results
  import opened Strings
  import opened Values

  datatype Item =
    | Literal(text: string)
    /** `{{ .root.path... }}` */
    | Field(root: string, path: seq<string>)
    /** `{{ include "name" args... }}` */
    | Include(name: string, args: seq<Value>)

  /** A parsed component: `id` is its identity, `filepath` the path it was resolved under. */
  datatype Component = Component(id: nat, filepath: string, body: seq<Item>)

  datatype Error =
    /** An error reported by a reader or resolver, passed on verbatim. */
    | IoError(msg: string)
    /** `filepath.Rel` could not relate an include to the scope's base path. */
    | PathError(msg: string)
    /** `CyclicalRenderDependenciesError` with its `Stack` of file paths. */
    | CycleError(stack: seq<string>)
    /** Template execution stopped at a failed `include`, wrapping the cause. */
    | IncludeError(name: string, cause: Error)
    /** A field reference went through a value that is not a map, or a map whose keys a field
        name cannot be. */
    | FieldError(root: string, path: seq<string>)
    /** The model's bound on include depth was reached. */
    | OutOfFuel

  /** The raw-source reader of the cache, with the template already parsed. */
  type Reader = string -> Result<seq<Item>, Error>

  /** `CyclicalRenderDependenciesError.Error()`. */
  function CycleMessage(stack: seq<string>): string {
    "Cycle detected in include path: " + JoinWith(stack, " -> ")
  }

  /** The cycle message lists the stack in order: a single path follows the prefix, and each
      further path follows the one before it after an arrow. */
  lemma CycleMessageAppend(stack: seq<string>, p: string)
    ensures CycleMessage([p]) == "Cycle detected in include path: " + p
    ensures |stack| > 0 ==> CycleMessage(stack + [p]) == CycleMessage(stack) + " -> " + p
  {
    if |stack| > 0 {
      assert (stack + [p])[..|stack|] == stack;
    }
  }

  /** What template execution puts before the error of a failed `include "name"`. */
  function IncludePrefix(name: string): string {
    "template: executing \"\" at <include \"" + name + "\">: error calling include: "
  }

  /** `Error()` of each error; execution errors end with their cause's message. */
  function Message(e: Error): string {
    match e
    case IoError(msg) => msg
    case PathError(msg) => msg
    case CycleError(stack) => CycleMessage(stack)
    case IncludeError(name, cause) => IncludePrefix(name) + Message(cause)
    case FieldError(root, path) =>
      "template: executing \"\" at <." + JoinWith([root] + path, ".") + ">: can't evaluate field"
    case OutOfFuel => "include depth bound reached"
  }

  /** A failed include reports its cause at the end of its message, at any nesting depth. */
  lemma {:induction false} IncludeMessageEndsWithCause(e: Error)
    requires e.IncludeError?
    ensures HasSuffix(Message(e), Message(e.cause))
    ensures e.cause.IncludeError? ==> HasSuffix(Message(e), Message(e.cause.cause))
  {
    var m := Message(e);
    var c := Message(e.cause);
    assert m[|m| - |c|..] == c;
    if e.cause.IncludeError? {
      var cc := Message(e.cause.cause);
      assert c[|c| - |cc|..] == cc;
      assert m[|m| - |cc|..] == c[|c| - |cc|..];
    }
  }

  /** The name the `n`-th positional argument is bound to: `"Arg" + strconv.Itoa(n)`. */
  function ArgName(n: nat): string {
    "Arg" + Itoa(n)
  }

  lemma ArgNameInjective(i: nat, j: nat)
    requires ArgName(i) == ArgName(j)
    ensures i == j
  {
    assert ArgName(i)[3..] == Itoa(i);
    assert ArgName(j)[3..] == Itoa(j);
    ItoaInjective(i, j);
  }

  /** The binding environment of `Component.Render`: the scope's variables under `Vars` and
      each argument under its position's name, and nothing else. */
  function Bind(vars: Value, args: seq<Value>): (env: map<string, Value>)
    ensures env.Keys == {"Vars"} + (set i | 0 <= i < |args| :: ArgName(i))
    ensures env["Vars"] == vars
    ensures forall i :: 0 <= i < |args| ==> env[ArgName(i)] == args[i]
    decreases |args|
  {
    if |args| == 0 then map["Vars" := vars]
    else
      var n := |args| - 1;
      var env := Bind(vars, args[..n]);
      BindStep(vars, args, env);
      env[ArgName(n) := args[n]]
  }

  lemma BindStep(vars: Value, args: seq<Value>, env: map<string, Value>)
    requires |args| > 0
    requires env.Keys == {"Vars"} + (set i | 0 <= i < |args| - 1 :: ArgName(i))
    requires env["Vars"] == vars
    requires forall i :: 0 <= i < |args| - 1 ==> env[ArgName(i)] == args[..|args| - 1][i]
    ensures var env' := env[ArgName(|args| - 1) := args[|args| - 1]];
      && env'.Keys == {"Vars"} + (set i | 0 <= i < |args| :: ArgName(i))
      && env'["Vars"] == vars
      && forall i :: 0 <= i < |args| ==> env'[ArgName(i)] == args[i]
  {
    var n := |args| - 1;
    var env' := env[ArgName(n) := args[n]];
    assert ArgName(n)[0] != "Vars"[0];
    NewArgName(n);
    forall i | 0 <= i < |args|
      ensures env'[ArgName(i)] == args[i]
    {
      if i < n {
        assert args[..n][i] == args[i];
      }
    }
    ArgNamesExtend(n);
  }

  /** The name of the `n`-th argument is none of the earlier ones. */
  lemma NewArgName(n: nat)
    ensures forall i :: 0 <= i < n ==> ArgName(i) != ArgName(n)
  {
    forall i | 0 <= i < n
      ensures ArgName(i) != ArgName(n)
    {
      if ArgName(i) == ArgName(n) {
        ArgNameInjective(i, n);
      }
    }
  }

  lemma ArgNamesExtend(n: nat)
    ensures (set i | 0 <= i < n + 1 :: ArgName(i)) == (set i | 0 <= i < n :: ArgName(i)) + {ArgName(n)}
  {
  }

  /** Evaluates `.root.path...` against the environment as `text/template` does: a field name
      indexes a map only when a string is assignable to the map's key type, and gives `None`
      when the key is missing. */
  function LookupField(env: map<string, Value>, root: string, path: seq<string>): Result<Option<Value>, Error> {
    if root !in env then Success(None) else Descend(env[root], root, path, 0)
  }

  function Descend(v: Value, root: string, path: seq<string>, i: nat): Result<Option<Value>, Error>
    requires i <= |path|
    decreases |path| - i
  {
    if i == |path| then Success(Some(v))
    else if !v.Map? || !AssignableTo(TStr, v.keyTy) then Failure(FieldError(root, path))
    else if KStr(path[i]) !in v.entries then Success(None)
    else Descend(v.entries[KStr(path[i])], root, path, i + 1)
  }

  /** The text a field reference prints: `<no value>` for a missing key. */
  function FieldText(v: Option<Value>): string {
    match v
    case None => "<no value>"
    case Some(Str(s)) => s
    case Some(Int(i)) => SignedItoa(i)
    case Some(Map(_, _, _)) => ""
  }
}
