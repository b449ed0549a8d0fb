/**
 * The repository's `MergeFrom` test cases, stated as lemmas about the model: the seven merge
 * results and the two panics. The one- and two-key shapes the tests use are first worked out
 * for arbitrary keys and values.
 */
module MergeScenarios {
  import opened Values
  import opened VariableMaps

  // ---- one- and two-key merges, for any keys and values ----

  /** Both variable maps hold only `k`: the merge is the merge of the two values. */
  lemma MergeOneKey(k: string, x: Value, y: Value)
    ensures MergeFrom(map[k := x], map[k := y])
      == if CombinePanics(x, y) == {} then Merged(map[k := Combine(x, y)]) else Fatal(CombinePanics(x, y))
  {
    var v, v2 := map[k := x], map[k := y];
    TopPanicsCollect(v, v2, k);
    assert TopPanics(v, v2) == CombinePanics(x, y);
    if CombinePanics(x, y) == {} {
      var r := MergeFrom(v, v2).value;
      assert r.Keys == {k};
      assert r == map[k := Combine(x, y)];
    }
  }

  /** Variable maps on different keys: the merge holds both entries. */
  lemma MergeTwoKeys(a: string, b: string, x: Value, y: Value)
    requires a != b
    ensures MergeFrom(map[a := x], map[b := y]) == Merged(map[a := x, b := y])
  {
    var v, v2 := map[a := x], map[b := y];
    assert TopPanics(v, v2) == {};
    var r := MergeFrom(v, v2).value;
    assert r.Keys == {a, b};
    assert r == map[a := x, b := y];
  }

  /** Nested maps that both hold only `k`. */
  lemma AbsorbOneKey(kt: Ty, et: Ty, kt2: Ty, et2: Ty, k: Key, x: Value, y: Value)
    ensures Absorb(Map(kt, et, map[k := x]), Map(kt2, et2, map[k := y])) == Map(kt, et, map[k := Combine(x, y)])
    ensures MapPanics(Map(kt, et, map[k := x]), Map(kt2, et2, map[k := y]))
      == if !AssignableTo(kt2, kt) then {BadKeys} else CombinePanics(x, y)
  {
    var t, s := Map(kt, et, map[k := x]), Map(kt2, et2, map[k := y]);
    NestedPanicsCollect(t, s, k);
    assert NestedPanics(t, s) == CombinePanics(x, y);
  }

  /** Nested maps on different keys: the argument's entry is adopted, if its type fits. */
  lemma AbsorbTwoKeys(kt: Ty, et: Ty, kt2: Ty, et2: Ty, a: Key, b: Key, x: Value, y: Value)
    requires a != b
    ensures Absorb(Map(kt, et, map[a := x]), Map(kt2, et2, map[b := y])) == Map(kt, et, map[a := x, b := y])
    ensures MapPanics(Map(kt, et, map[a := x]), Map(kt2, et2, map[b := y]))
      == if !AssignableTo(kt2, kt) then {BadKeys} else if !AssignableTo(et2, et) then {BadVals} else {}
  {
    var t, s := Map(kt, et, map[a := x]), Map(kt2, et2, map[b := y]);
    assert NestedPanics(t, s) == {};
    assert b in s.entries.Keys && b !in t.entries.Keys;
  }

  function StrMap(k: string, v: string): Value {
    Map(TStr, TStr, map[KStr(k) := Str(v)])
  }

  // ---- the merge tests ----

  /** A key only the argument has is adopted. */
  lemma MergeAdoptsNewKey()
    ensures MergeFrom(map["a" := Str("value1")], map["b" := Str("value2")])
      == Merged(map["a" := Str("value1"), "b" := Str("value2")])
  {
    MergeTwoKeys("a", "b", Str("value1"), Str("value2"));
  }

  /** The receiver's string wins over the argument's string ... */
  lemma MergeKeepsString()
    ensures MergeFrom(map["a" := Str("value1")], map["a" := Str("value2")]) == Merged(map["a" := Str("value1")])
  {
    MergeOneKey("a", Str("value1"), Str("value2"));
  }

  /** ... and over the argument's map. */
  lemma MergeKeepsStringOverMap()
    ensures MergeFrom(map["a" := Str("value1")], map["a" := StrMap("b", "value2")]) == Merged(map["a" := Str("value1")])
  {
    MergeOneKey("a", Str("value1"), StrMap("b", "value2"));
  }

  /** Two string maps on different keys are united. */
  lemma MergeUnitesMaps()
    ensures MergeFrom(map["a" := StrMap("a", "value1")], map["a" := StrMap("b", "value2")])
      == Merged(map["a" := Map(TStr, TStr, map[KStr("a") := Str("value1"), KStr("b") := Str("value2")])])
  {
    AbsorbTwoKeys(TStr, TStr, TStr, TStr, KStr("a"), KStr("b"), Str("value1"), Str("value2"));
    MergeOneKey("a", StrMap("a", "value1"), StrMap("b", "value2"));
  }

  /** Inside a map, the receiver's string wins too. */
  lemma MergeKeepsNestedString()
    ensures MergeFrom(map["a" := StrMap("a", "value1")], map["a" := StrMap("a", "value2")])
      == Merged(map["a" := StrMap("a", "value1")])
  {
    AbsorbOneKey(TStr, TStr, TStr, TStr, KStr("a"), Str("value1"), Str("value2"));
    MergeOneKey("a", StrMap("a", "value1"), StrMap("a", "value2"));
  }

  /** A nested map facing a string, one level down, is left as it is. */
  lemma MergeKeepsNestedMap()
    ensures var inner := Map(TStr, TAny, map[KStr("a") := StrMap("a", "value1")]);
      MergeFrom(map["a" := inner], map["a" := StrMap("a", "value2")]) == Merged(map["a" := inner])
  {
    AbsorbOneKey(TStr, TAny, TStr, TStr, KStr("a"), StrMap("a", "value1"), Str("value2"));
    MergeOneKey("a", Map(TStr, TAny, map[KStr("a") := StrMap("a", "value1")]), StrMap("a", "value2"));
  }

  /** Two levels down, string maps on different keys are united. */
  lemma MergeUnitesDeepMaps()
    ensures MergeFrom(map["a" := Map(TStr, TAny, map[KStr("a") := StrMap("a", "value1")])],
                      map["a" := Map(TStr, TAny, map[KStr("a") := StrMap("b", "value2")])])
      == Merged(map["a" := Map(TStr, TAny, map[KStr("a") :=
           Map(TStr, TStr, map[KStr("a") := Str("value1"), KStr("b") := Str("value2")])])])
  {
    AbsorbTwoKeys(TStr, TStr, TStr, TStr, KStr("a"), KStr("b"), Str("value1"), Str("value2"));
    AbsorbOneKey(TStr, TAny, TStr, TAny, KStr("a"), StrMap("a", "value1"), StrMap("b", "value2"));
    MergeOneKey("a", Map(TStr, TAny, map[KStr("a") := StrMap("a", "value1")]),
                     Map(TStr, TAny, map[KStr("a") := StrMap("b", "value2")]));
  }

  // ---- the panic tests ----

  /** A `map[int]string` cannot be merged into a `map[string]string`: the one panic raised
      carries the key-types message the test recovers. */
  lemma MergeBadKeys()
    ensures MergeFrom(map["a" := StrMap("a", "a")], map["a" := Map(TInt, TStr, map[KInt(3) := Str("maybe")])])
      == Fatal({BadKeys})
    ensures forall p | p in MergeFrom(map["a" := StrMap("a", "a")], map["a" := Map(TInt, TStr, map[KInt(3) := Str("maybe")])]).panics ::
      PanicMessage(p) == "cannot merge conflicting map key types"
  {
    AbsorbTwoKeys(TStr, TStr, TInt, TStr, KStr("a"), KInt(3), Str("a"), Str("maybe"));
    MergeOneKey("a", StrMap("a", "a"), Map(TInt, TStr, map[KInt(3) := Str("maybe")]));
  }

  /** A `map[string]int` entry cannot be adopted into a `map[string]string`: the one panic
      raised carries the value-types message. */
  lemma MergeBadVals()
    ensures MergeFrom(map["a" := StrMap("a", "a")], map["a" := Map(TStr, TInt, map[KStr("b") := Int(3)])])
      == Fatal({BadVals})
    ensures forall p | p in MergeFrom(map["a" := StrMap("a", "a")], map["a" := Map(TStr, TInt, map[KStr("b") := Int(3)])]).panics ::
      PanicMessage(p) == "cannot merge conflicting map value types"
  {
    AbsorbTwoKeys(TStr, TStr, TStr, TInt, KStr("a"), KStr("b"), Str("a"), Int(3));
    MergeOneKey("a", StrMap("a", "a"), Map(TStr, TInt, map[KStr("b") := Int(3)]));
  }
}
