/**
 * The repository's `ResourceConfig.Is` test cases, stated as lemmas about the model: two
 * configurations at addresses 0 and 1.
 */
module BuilderScenarios {
  import opened Results
  import opened Values
  import opened Builder

  function Config(template: string, output: string, inherits: seq<string>, vars: VariableMap): ResourceConfig {
    ResourceConfig(template, output, inherits, Some(vars))
  }

  function Pair(a: ResourceConfig, b: ResourceConfig): Heap {
    map[0 := a, 1 := b]
  }

  /** `VariableMap{"a": map[string]string{"a": v}}` */
  function Nested(v: string): VariableMap {
    map["a" := Map(TStr, TStr, map[KStr("a") := Str(v)])]
  }

  const NestedA: VariableMap := Nested("a")

  /** Equal fields, down to the nested variable maps, make two configurations `Is`. */
  lemma IsEqualConfigs()
    ensures Is(Pair(Config("a", "b", [], map[]), Config("a", "b", [], map[])), 0, Some(1))
    ensures Is(Pair(Config("a", "b", ["a"], map[]), Config("a", "b", ["a"], map[])), 0, Some(1))
    ensures Is(Pair(Config("a", "b", ["a"], map["a" := Str("a")]), Config("a", "b", ["a"], map["a" := Str("a")])), 0, Some(1))
    ensures Is(Pair(Config("a", "b", ["a"], NestedA), Config("a", "b", ["a"], NestedA)), 0, Some(1))
  {
  }

  /** A different template or output is told apart. */
  lemma IsDifferentNames()
    ensures !Is(Pair(Config("a", "b", ["a"], NestedA), Config("b", "b", ["a"], NestedA)), 0, Some(1))
    ensures !Is(Pair(Config("a", "b", ["a"], NestedA), Config("a", "c", ["a"], NestedA)), 0, Some(1))
  {
  }

  /** `Inherits` is compared by length, content and order. */
  lemma IsDifferentInherits()
    ensures !Is(Pair(Config("a", "b", [], NestedA), Config("a", "b", ["a"], NestedA)), 0, Some(1))
    ensures !Is(Pair(Config("a", "b", ["a"], NestedA), Config("a", "b", [], NestedA)), 0, Some(1))
    ensures !Is(Pair(Config("a", "b", ["a"], NestedA), Config("a", "b", ["b"], NestedA)), 0, Some(1))
    ensures !Is(Pair(Config("a", "b", ["a", "b"], NestedA), Config("a", "b", ["b", "a"], NestedA)), 0, Some(1))
  {
    assert ["a", "b"][0] != ["b", "a"][0];
  }

  /** Variables are compared deeply: a nested value, or a string against a map, differs. */
  lemma IsDifferentVariables()
    ensures !Is(Pair(Config("a", "b", [], NestedA), Config("a", "b", [], Nested("b"))), 0, Some(1))
    ensures !Is(Pair(Config("a", "b", [], map["a" := Str("a")]), Config("a", "b", [], Nested("b"))), 0, Some(1))
    ensures !Is(Pair(Config("a", "b", [], Nested("b")), Config("a", "b", [], map["a" := Str("a")])), 0, Some(1))
  {
    assert Nested("b")["a"].entries[KStr("a")] != NestedA["a"].entries[KStr("a")];
    assert Nested("b")["a"] != NestedA["a"];
    assert Nested("b")["a"] != Str("a");
  }

  /** Nil is never `Is`, and a configuration always is itself. */
  lemma IsNilAndSelf()
    ensures !Is(map[0 := ResourceConfig("", "", [], None)], 0, None)
    ensures Is(map[0 := ResourceConfig("", "", [], None)], 0, Some(0))
  {
  }
}
