/**
 * `ResourceConfig` and its structural equality `Is`. Go compares configurations through
 * pointers; the model reads them from a heap of addresses, so that the `nil` argument and the
 * "same pointer" short-circuit can be stated.
 */
module Builder {
  import opened Results
  import opened Values

  /** A resource's configuration. `variables` is `None` for a nil `VariableMap`, which
      `reflect.DeepEqual` tells apart from an empty one. */
  datatype ResourceConfig = ResourceConfig(
    template: string,
    output: string,
    inherits: seq<string>,
    variables: Option<VariableMap>)

  /** Live configurations by address. */
  type Heap = map<nat, ResourceConfig>

  /** `stringArrayIs(a, b)`: the same length and the same string at every position. */
  function StringArrayIs(a: seq<string>, b: seq<string>): (r: bool)
    ensures r <==> a == b
  {
    if |a| != |b| then false else ElementsMatch(a, b, 0)
  }

  /** The loop of `stringArrayIs`: every position from `i` on holds equal strings. */
  function ElementsMatch(a: seq<string>, b: seq<string>, i: nat): (r: bool)
    requires |a| == |b| && i <= |a|
    ensures r <==> a[i..] == b[i..]
    decreases |a| - i
  {
    if i == |a| then true
    else if a[i] != b[i] then false
    else
      var r := ElementsMatch(a, b, i + 1);
      assert a[i..] == [a[i]] + a[i + 1..];
      assert b[i..] == [b[i]] + b[i + 1..];
      r
  }

  /** `reflect.DeepEqual` on two `VariableMap` fields: both nil, or both non-nil with deeply
      equal contents. */
  predicate DeepEqualField(a: Option<VariableMap>, b: Option<VariableMap>) {
    match a
    case None => b.None?
    case Some(m) => b.Some? && DeepEqualVars(m, b.value)
  }

  /** `(*ResourceConfig).Is(r2)` for the receiver at address `r` and the argument at `r2`
      (`None` for nil): false for nil, true for the same pointer, and otherwise field by
      field, with `Inherits` compared in order and `Variables` compared deeply. */
  function Is(heap: Heap, r: nat, r2: Option<nat>): (res: bool)
    requires r in heap
    requires r2.Some? ==> r2.value in heap
    ensures r2.None? ==> !res
    ensures r2 == Some(r) ==> res
    ensures r2.Some? ==> (res <==> heap[r] == heap[r2.value])
  {
    if r2.None? then false
    else if r == r2.value then true
    else
      var a, b := heap[r], heap[r2.value];
      if a.template != b.template then false
      else if a.output != b.output then false
      else if !StringArrayIs(a.inherits, b.inherits) then false
      else
        DeepEqualFieldIsEquality(a.variables, b.variables);
        if !DeepEqualField(a.variables, b.variables) then false
        else
          assert a == b;
          true
  }

  lemma DeepEqualFieldIsEquality(a: Option<VariableMap>, b: Option<VariableMap>)
    ensures DeepEqualField(a, b) <==> a == b
  {
    if a.Some? && b.Some? {
      DeepEqualVarsIsEquality(a.value, b.value);
    }
  }

  /** Two configurations at distinct addresses that differ in any single field are not `Is`. */
  lemma IsDetectsEachField(heap: Heap, r: nat, r2: nat)
    requires r in heap && r2 in heap && r != r2
    ensures heap[r].template != heap[r2].template ==> !Is(heap, r, Some(r2))
    ensures heap[r].output != heap[r2].output ==> !Is(heap, r, Some(r2))
    ensures heap[r].inherits != heap[r2].inherits ==> !Is(heap, r, Some(r2))
    ensures !DeepEqualField(heap[r].variables, heap[r2].variables) ==> !Is(heap, r, Some(r2))
  {
    DeepEqualFieldIsEquality(heap[r].variables, heap[r2].variables);
  }

  /** `Is` is an equivalence on the configurations held in a heap. */
  lemma IsEquivalence(heap: Heap, a: nat, b: nat, c: nat)
    requires a in heap && b in heap && c in heap
    ensures Is(heap, a, Some(a))
    ensures Is(heap, a, Some(b)) ==> Is(heap, b, Some(a))
    ensures Is(heap, a, Some(b)) && Is(heap, b, Some(c)) ==> Is(heap, a, Some(c))
  {
  }
}
