/**
 * Template-visible values. Go holds them in `interface{}` slots and inspects them by
 * reflection; here a value carries its dynamic type explicitly: a string, an integer, or a
 * map together with its declared key and element types (`map[string]string`,
 * `map[string]interface{}`, `map[int]string`, ...).
 */
module Values {

  /** Go types a variable can have: `string`, `int`, `interface{}`, and maps of them. */
  datatype Ty = TStr | TInt | TAny | TMap(key: Ty, elem: Ty)

  /** Map keys: strings or integers. */
  datatype Key = KStr(s: string) | KInt(i: int)

  datatype Value =
    | Str(s: string)
    | Int(i: int)
    | Map(keyTy: Ty, elemTy: Ty, entries: map<Key, Value>)

  /** The dynamic type of a value, as `reflect.ValueOf(v).Type()` reports it. */
  function TypeOf(v: Value): Ty {
    match v
    case Str(_) => TStr
    case Int(_) => TInt
    case Map(k, e, _) => TMap(k, e)
  }

  /** `reflect.Type.AssignableTo` on these types: identical types, or any type into `interface{}`. */
  predicate AssignableTo(from: Ty, to: Ty) {
    from == to || to == TAny
  }

  /** The types a Go map may be keyed by in this model. */
  predicate IsKeyTy(t: Ty) {
    t == TStr || t == TInt || t == TAny
  }

  predicate KeyHasType(k: Key, t: Ty) {
    t == TAny || (k.KStr? && t == TStr) || (k.KInt? && t == TInt)
  }

  /** A value Go could hold: every map's keys have its key type and every element's dynamic
      type is assignable to its element type, at every depth. */
  predicate WellTyped(v: Value) {
    match v
    case Str(_) => true
    case Int(_) => true
    case Map(kt, et, m) =>
      && IsKeyTy(kt)
      && forall k :: k in m ==> KeyHasType(k, kt) && AssignableTo(TypeOf(m[k]), et) && WellTyped(m[k])
  }

  /** A `VariableMap`: `map[string]interface{}`. */
  type VariableMap = map<string, Value>

  predicate WellTypedVars(v: VariableMap) {
    forall k :: k in v ==> WellTyped(v[k])
  }

  /** `reflect.DeepEqual` on values: the same dynamic type, and for maps the same keys with
      deeply equal elements. */
  predicate DeepEqual(a: Value, b: Value) {
    match a
    case Str(s) => b.Str? && b.s == s
    case Int(i) => b.Int? && b.i == i
    case Map(kt, et, m) =>
      && b.Map? && b.keyTy == kt && b.elemTy == et
      && m.Keys == b.entries.Keys
      && forall k :: k in m ==> DeepEqual(m[k], b.entries[k])
  }

  /** `reflect.DeepEqual` on two variable maps. */
  predicate DeepEqualVars(a: VariableMap, b: VariableMap) {
    a.Keys == b.Keys && forall k :: k in a ==> DeepEqual(a[k], b[k])
  }

  /** Deep equality is exactly equality of the modelled values. */
  lemma {:induction false} DeepEqualIsEquality(a: Value, b: Value)
    ensures DeepEqual(a, b) <==> a == b
    decreases a
  {
    if a.Map? && b.Map? {
      forall k | k in a.entries && k in b.entries
        ensures DeepEqual(a.entries[k], b.entries[k]) <==> a.entries[k] == b.entries[k]
      {
        DeepEqualIsEquality(a.entries[k], b.entries[k]);
      }
      if DeepEqual(a, b) {
        assert a.entries == b.entries;
      }
    }
  }

  lemma DeepEqualVarsIsEquality(a: VariableMap, b: VariableMap)
    ensures DeepEqualVars(a, b) <==> a == b
  {
    forall k | k in a && k in b
      ensures DeepEqual(a[k], b[k]) <==> a[k] == b[k]
    {
      DeepEqualIsEquality(a[k], b[k]);
    }
    if DeepEqualVars(a, b) {
      assert a == b;
    }
  }
}
