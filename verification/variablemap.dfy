/**
 * `VariableMap.MergeFrom`: a deep merge in which the receiver wins. Keys only the argument has
 * are adopted; where both sides hold maps the merge recurses, checking by reflection that the
 * argument's keys fit the receiver map's key type and that adopted elements fit its element
 * type; anything else already in the receiver stays as it is.
 */
module VariableMaps {
  import opened Values

  /** The two fatal conditions of the nested merge. */
  datatype Panic = BadKeys | BadVals

  const MergeBadKeysPanic: string := "cannot merge conflicting map key types"
  const MergeBadValsPanic: string := "cannot merge conflicting map value types"

  function PanicMessage(p: Panic): string {
    match p
    case BadKeys => MergeBadKeysPanic
    case BadVals => MergeBadValsPanic
  }

  /** A merge either completes, or panics. Go raises whichever panic its (randomised) map
      iteration reaches first; `panics` is the set of panics the merge can reach. */
  datatype Merged<T> = Merged(value: T) | Fatal(panics: set<Panic>)

  /** `mapsCompatible(to, from)`: the argument map's key type is assignable to the receiver's. */
  predicate MapsCompatible(target: Value, source: Value)
    requires target.Map? && source.Map?
  {
    AssignableTo(source.keyTy, target.keyTy)
  }

  /** The value kept for a key both sides hold: merged when both are maps, otherwise the
      receiver's own. */
  function Combine(existing: Value, incoming: Value): Value
    decreases existing, 1
  {
    if existing.Map? && incoming.Map? then Absorb(existing, incoming) else existing
  }

  /** The receiver map `target` after absorbing `source`, disregarding the panic checks. */
  function Absorb(target: Value, source: Value): Value
    requires target.Map? && source.Map?
    decreases target, 0
  {
    Map(target.keyTy, target.elemTy,
      map k | k in target.entries.Keys + source.entries.Keys ::
        if k !in target.entries then source.entries[k]
        else if k in source.entries then Combine(target.entries[k], source.entries[k])
        else target.entries[k])
  }

  /** The panics reachable when the value for a key both sides hold is merged. */
  function CombinePanics(existing: Value, incoming: Value): set<Panic>
    decreases existing, 2
  {
    if existing.Map? && incoming.Map? then MapPanics(existing, incoming) else {}
  }

  /** The panics reachable by `mergeReflectingMaps(to, from)`: incompatible key types stop it
      before any key is visited; adopting a key whose element type does not fit panics; and
      so does any nested merge. */
  function MapPanics(target: Value, source: Value): set<Panic>
    requires target.Map? && source.Map?
    decreases target, 1
  {
    if !MapsCompatible(target, source) then {BadKeys}
    else
      (if !(source.entries.Keys <= target.entries.Keys) && !AssignableTo(source.elemTy, target.elemTy) then {BadVals} else {})
      + NestedPanics(target, source)
  }

  /** The panics reachable from the keys both maps hold. */
  function NestedPanics(target: Value, source: Value): set<Panic>
    requires target.Map? && source.Map?
    decreases target, 0
  {
    set k, p | k in source.entries && k in target.entries && p in CombinePanics(target.entries[k], source.entries[k]) :: p
  }

  /** `mergeReflectingMaps(to, from)`, returning the merged receiver map. */
  function MergeReflectingMaps(target: Value, source: Value): Merged<Value>
    requires target.Map? && source.Map?
  {
    var ps := MapPanics(target, source);
    if ps == {} then Merged(Absorb(target, source)) else Fatal(ps)
  }

  /** `v.MergeFrom(v2)`: the top level is `map[string]interface{}` on both sides, so no key or
      element check applies there; nested maps go through `mergeReflectingMaps`. */
  function MergeFrom(v: VariableMap, v2: VariableMap): Merged<VariableMap> {
    var ps := TopPanics(v, v2);
    if ps != {} then Fatal(ps)
    else Merged(map k | k in v.Keys + v2.Keys ::
      if k !in v then v2[k] else if k in v2 then Combine(v[k], v2[k]) else v[k])
  }

  /** The panics reachable from the keys both variable maps hold. */
  function TopPanics(v: VariableMap, v2: VariableMap): set<Panic> {
    set k, p | k in v2 && k in v && p in CombinePanics(v[k], v2[k]) :: p
  }

  lemma NestedPanicsCollect(target: Value, source: Value, k: Key)
    requires target.Map? && source.Map?
    requires k in target.entries && k in source.entries
    ensures CombinePanics(target.entries[k], source.entries[k]) <= NestedPanics(target, source)
  {
    forall p | p in CombinePanics(target.entries[k], source.entries[k])
      ensures p in NestedPanics(target, source)
    {
    }
  }

  lemma TopPanicsCollect(v: VariableMap, v2: VariableMap, k: string)
    requires k in v && k in v2
    ensures CombinePanics(v[k], v2[k]) <= TopPanics(v, v2)
  {
    forall p | p in CombinePanics(v[k], v2[k])
      ensures p in TopPanics(v, v2)
    {
    }
  }

  /** What a completed nested merge holds, key by key: the receiver's key and element types,
      the union of both key sets, adopted entries where only the argument has the key, the
      receiver's entry where only it has the key or where the two are not both maps, and the
      same merge, recursively, where both are maps. */
  lemma MergeReflectingMapsEntries(target: Value, source: Value)
    requires target.Map? && source.Map?
    requires MergeReflectingMaps(target, source).Merged?
    ensures var r := MergeReflectingMaps(target, source).value;
      && r.Map? && r.keyTy == target.keyTy && r.elemTy == target.elemTy
      && r.entries.Keys == target.entries.Keys + source.entries.Keys
      && (forall k :: k in source.entries && k !in target.entries ==> r.entries[k] == source.entries[k])
      && (forall k :: k in target.entries && k !in source.entries ==> r.entries[k] == target.entries[k])
      && (forall k :: k in target.entries && k in source.entries && !(target.entries[k].Map? && source.entries[k].Map?) ==>
            r.entries[k] == target.entries[k])
      && (forall k :: k in target.entries && k in source.entries && target.entries[k].Map? && source.entries[k].Map? ==>
            MergeReflectingMaps(target.entries[k], source.entries[k]) == Merged(r.entries[k]))
  {
    assert MapsCompatible(target, source);
    var r := Absorb(target, source);
    forall k | k in target.entries && k in source.entries
      ensures r.entries[k] == Combine(target.entries[k], source.entries[k])
      ensures CombinePanics(target.entries[k], source.entries[k]) == {}
    {
      NestedPanicsCollect(target, source, k);
    }
  }

  /** When the nested merge panics: incompatible key types always panic with the key message
      alone; otherwise an adopted element that does not fit, or a nested panic, is fatal; and
      nothing else is. */
  lemma MergeReflectingMapsFatal(target: Value, source: Value)
    requires target.Map? && source.Map?
    ensures !MapsCompatible(target, source) ==> MergeReflectingMaps(target, source) == Fatal({BadKeys})
    ensures (MapsCompatible(target, source) && !(source.entries.Keys <= target.entries.Keys)
             && !AssignableTo(source.elemTy, target.elemTy)) ==>
          MergeReflectingMaps(target, source).Fatal? && BadVals in MergeReflectingMaps(target, source).panics
    ensures forall k ::
        (MapsCompatible(target, source) && k in target.entries && k in source.entries
         && target.entries[k].Map? && source.entries[k].Map?
         && MergeReflectingMaps(target.entries[k], source.entries[k]).Fatal?) ==>
          MergeReflectingMaps(target, source).Fatal?
          && MergeReflectingMaps(target.entries[k], source.entries[k]).panics <= MergeReflectingMaps(target, source).panics
    ensures MergeReflectingMaps(target, source).Fatal? ==>
      || !MapsCompatible(target, source)
      || (!(source.entries.Keys <= target.entries.Keys) && !AssignableTo(source.elemTy, target.elemTy))
      || exists k :: k in target.entries && k in source.entries && target.entries[k].Map? && source.entries[k].Map?
           && MergeReflectingMaps(target.entries[k], source.entries[k]).Fatal?
  {
    forall k | k in target.entries && k in source.entries
      ensures CombinePanics(target.entries[k], source.entries[k]) <= NestedPanics(target, source)
    {
      NestedPanicsCollect(target, source, k);
    }
    if MergeReflectingMaps(target, source).Fatal? && MapsCompatible(target, source)
      && !(!(source.entries.Keys <= target.entries.Keys) && !AssignableTo(source.elemTy, target.elemTy))
    {
      var p :| p in NestedPanics(target, source);
      var k :| k in source.entries && k in target.entries && p in CombinePanics(target.entries[k], source.entries[k]);
      assert MergeReflectingMaps(target.entries[k], source.entries[k]).Fatal?;
    }
  }

  /** What a completed `MergeFrom` holds, key by key, with the same receiver-wins rule. */
  lemma MergeFromEntries(v: VariableMap, v2: VariableMap)
    requires MergeFrom(v, v2).Merged?
    ensures var r := MergeFrom(v, v2).value;
      && r.Keys == v.Keys + v2.Keys
      && (forall k :: k in v2 && k !in v ==> r[k] == v2[k])
      && (forall k :: k in v && k !in v2 ==> r[k] == v[k])
      && (forall k :: k in v && k in v2 && !(v[k].Map? && v2[k].Map?) ==> r[k] == v[k])
      && (forall k :: k in v && k in v2 && v[k].Map? && v2[k].Map? ==> MergeReflectingMaps(v[k], v2[k]) == Merged(r[k]))
  {
    var r := MergeFrom(v, v2).value;
    forall k | k in v && k in v2
      ensures r[k] == Combine(v[k], v2[k])
      ensures CombinePanics(v[k], v2[k]) == {}
    {
      TopPanicsCollect(v, v2, k);
    }
  }

  /** `MergeFrom` is fatal exactly when the nested merge of some key both sides hold as maps is. */
  lemma MergeFromFatal(v: VariableMap, v2: VariableMap)
    ensures MergeFrom(v, v2).Fatal? <==>
      exists k :: k in v && k in v2 && v[k].Map? && v2[k].Map? && MergeReflectingMaps(v[k], v2[k]).Fatal?
    ensures forall k :: k in v && k in v2 && v[k].Map? && v2[k].Map? && MergeReflectingMaps(v[k], v2[k]).Fatal? ==>
      MergeReflectingMaps(v[k], v2[k]).panics <= MergeFrom(v, v2).panics
  {
    if MergeFrom(v, v2).Fatal? {
      var p :| p in TopPanics(v, v2);
      var k :| k in v2 && k in v && p in CombinePanics(v[k], v2[k]);
      assert MergeReflectingMaps(v[k], v2[k]).Fatal?;
    }
    forall k | k in v && k in v2
      ensures CombinePanics(v[k], v2[k]) <= TopPanics(v, v2)
    {
      TopPanicsCollect(v, v2, k);
    }
  }

  /** Merging a map into a copy of itself completes and changes nothing: every key is present
      on both sides, so the receiver's value wins everywhere. */
  lemma MergeFromSelf(v: VariableMap)
    ensures MergeFrom(v, v) == Merged(v)
  {
    forall k | k in v
      ensures Combine(v[k], v[k]) == v[k] && CombinePanics(v[k], v[k]) == {}
    {
      CombineSelf(v[k]);
    }
    assert TopPanics(v, v) == {};
    assert MergeFrom(v, v).value == v;
  }

  lemma {:induction false} CombineSelf(x: Value)
    ensures Combine(x, x) == x && CombinePanics(x, x) == {}
    decreases x, 1
  {
    if x.Map? {
      MergeReflectingMapsSelf(x);
    }
  }

  /** The nested form: `mergeReflectingMaps(m, copy(m))` completes and leaves `m` unchanged. */
  lemma {:induction false} MergeReflectingMapsSelf(m: Value)
    requires m.Map?
    ensures MergeReflectingMaps(m, m) == Merged(m)
    ensures Absorb(m, m) == m && MapPanics(m, m) == {}
    decreases m, 0
  {
    forall k | k in m.entries
      ensures Combine(m.entries[k], m.entries[k]) == m.entries[k]
      ensures CombinePanics(m.entries[k], m.entries[k]) == {}
    {
      CombineSelf(m.entries[k]);
    }
    assert NestedPanics(m, m) == {};
    assert Absorb(m, m).entries == m.entries;
  }

  /** Assignability composes: an element that fits its source map's element type, which fits
      the receiver's element type, fits the receiver. */
  lemma AssignableChain(a: Ty, b: Ty, c: Ty)
    requires AssignableTo(a, b) && AssignableTo(b, c)
    ensures AssignableTo(a, c)
  {
  }

  /** A completed merge of well-typed values is well typed and keeps the receiver's type:
      the key and element checks are exactly what adopting entries needs. */
  lemma {:induction false} CombineKeepsTypes(x: Value, y: Value)
    requires WellTyped(x) && WellTyped(y)
    requires CombinePanics(x, y) == {}
    ensures WellTyped(Combine(x, y)) && TypeOf(Combine(x, y)) == TypeOf(x)
    decreases x, 1
  {
    if x.Map? && y.Map? {
      MergeKeepsTypes(x, y);
    }
  }

  lemma {:induction false} MergeKeepsTypes(target: Value, source: Value)
    requires target.Map? && source.Map?
    requires WellTyped(target) && WellTyped(source)
    requires MergeReflectingMaps(target, source).Merged?
    ensures WellTyped(MergeReflectingMaps(target, source).value)
    ensures TypeOf(MergeReflectingMaps(target, source).value) == TypeOf(target)
    decreases target, 0
  {
    var r := Absorb(target, source);
    assert MapsCompatible(target, source);
    forall k | k in r.entries
      ensures KeyHasType(k, r.keyTy) && AssignableTo(TypeOf(r.entries[k]), r.elemTy) && WellTyped(r.entries[k])
    {
      if k !in target.entries {
        assert !(source.entries.Keys <= target.entries.Keys);
        AssignableChain(TypeOf(source.entries[k]), source.elemTy, target.elemTy);
      } else if k in source.entries {
        NestedPanicsCollect(target, source, k);
        CombineKeepsTypes(target.entries[k], source.entries[k]);
      }
    }
  }

  /** The receiver keeps everything it had: `big` holds every key of `small` at every depth,
      with the same types and the same scalars. */
  predicate Extends(big: Value, small: Value) {
    match small
    case Map(kt, et, m) =>
      && big.Map? && big.keyTy == kt && big.elemTy == et
      && m.Keys <= big.entries.Keys
      && forall k :: k in m ==> Extends(big.entries[k], m[k])
    case _ => big == small
  }

  lemma {:induction false} CombineExtends(x: Value, y: Value)
    ensures Extends(Combine(x, y), x)
    decreases x, 1
  {
    if x.Map? && y.Map? {
      AbsorbExtends(x, y);
    } else {
      ExtendsReflexive(x);
    }
  }

  /** Receiver wins at every depth: the merged map extends the receiver. */
  lemma {:induction false} AbsorbExtends(target: Value, source: Value)
    requires target.Map? && source.Map?
    ensures Extends(Absorb(target, source), target)
    decreases target, 0
  {
    var r := Absorb(target, source);
    forall k | k in target.entries
      ensures Extends(r.entries[k], target.entries[k])
    {
      if k in source.entries {
        CombineExtends(target.entries[k], source.entries[k]);
      } else {
        ExtendsReflexive(target.entries[k]);
      }
    }
  }

  lemma {:induction false} ExtendsReflexive(x: Value)
    ensures Extends(x, x)
    decreases x
  {
    if x.Map? {
      forall k | k in x.entries
        ensures Extends(x.entries[k], x.entries[k])
      {
        ExtendsReflexive(x.entries[k]);
      }
    }
  }

  /** A completed `MergeFrom` extends the receiver at every key and depth. */
  lemma MergeFromExtends(v: VariableMap, v2: VariableMap)
    requires MergeFrom(v, v2).Merged?
    ensures v.Keys <= MergeFrom(v, v2).value.Keys
    ensures forall k :: k in v ==> Extends(MergeFrom(v, v2).value[k], v[k])
  {
    forall k | k in v
      ensures Extends(MergeFrom(v, v2).value[k], v[k])
    {
      if k in v2 {
        CombineExtends(v[k], v2[k]);
      } else {
        ExtendsReflexive(v[k]);
      }
    }
  }

  /** Merging the same argument a second time changes nothing: after the first merge the
      receiver already holds every key the argument has, at every depth. */
  lemma {:induction false} CombineTwice(x: Value, y: Value)
    requires CombinePanics(x, y) == {}
    ensures CombinePanics(Combine(x, y), y) == {}
    ensures Combine(Combine(x, y), y) == Combine(x, y)
    decreases x, 1
  {
    if x.Map? && y.Map? {
      MergeTwice(x, y);
    }
  }

  lemma {:induction false} MergeTwice(target: Value, source: Value)
    requires target.Map? && source.Map?
    requires MergeReflectingMaps(target, source).Merged?
    ensures MergeReflectingMaps(MergeReflectingMaps(target, source).value, source)
      == MergeReflectingMaps(target, source)
    decreases target, 0
  {
    var r := Absorb(target, source);
    assert MapsCompatible(target, source);
    forall k | k in source.entries
      ensures r.entries[k] == (if k in target.entries then Combine(target.entries[k], source.entries[k]) else source.entries[k])
      ensures CombinePanics(r.entries[k], source.entries[k]) == {}
      ensures Combine(r.entries[k], source.entries[k]) == r.entries[k]
    {
      if k in target.entries {
        NestedPanicsCollect(target, source, k);
        CombineTwice(target.entries[k], source.entries[k]);
      } else {
        CombineSelf(source.entries[k]);
      }
    }
    assert NestedPanics(r, source) == {};
    assert MapPanics(r, source) == {};
    assert Absorb(r, source).entries == r.entries;
  }

  /** The same for `MergeFrom`. */
  lemma MergeFromTwice(v: VariableMap, v2: VariableMap)
    requires MergeFrom(v, v2).Merged?
    ensures MergeFrom(MergeFrom(v, v2).value, v2) == MergeFrom(v, v2)
  {
    var r := MergeFrom(v, v2).value;
    forall k | k in v2
      ensures CombinePanics(r[k], v2[k]) == {}
      ensures Combine(r[k], v2[k]) == r[k]
    {
      if k in v {
        TopPanicsCollect(v, v2, k);
        CombineTwice(v[k], v2[k]);
      } else {
        CombineSelf(v2[k]);
      }
    }
    assert TopPanics(r, v2) == {};
    assert MergeFrom(r, v2).value == r;
  }

  /** A completed `MergeFrom` of well-typed variable maps is well typed. */
  lemma MergeFromKeepsTypes(v: VariableMap, v2: VariableMap)
    requires WellTypedVars(v) && WellTypedVars(v2)
    requires MergeFrom(v, v2).Merged?
    ensures WellTypedVars(MergeFrom(v, v2).value)
  {
    forall k | k in v && k in v2
      ensures WellTyped(Combine(v[k], v2[k]))
    {
      TopPanicsCollect(v, v2, k);
      CombineKeepsTypes(v[k], v2[k]);
    }
  }
}
