/**
 * The resolver chain: `CacheComponentResolver` loads a component through a reader once per
 * path and hands out that same instance afterwards; `TrackingComponentResolver` wraps another
 * resolver and records every path it resolved successfully. A resolver without memoisation,
 * which builds a new instance on every call, can sit at the bottom of a chain as well, since
 * the tracker accepts any `ComponentResolver`. Resolver state is threaded
 * through as a value; the reader is passed per call, as the file system it stands for may
 * change between calls.
 */
module Resolvers {
  import opened Results
  import opened Components

  datatype Resolver =
    /** A cache: the components by path, and the id the next new component receives. */
    | Cache(entries: map<string, Component>, nextId: nat)
    /** A tracking wrapper with its hit set. */
    | Tracking(downstream: Resolver, hits: set<string>)
    /** A resolver that reads and parses on every call and keeps nothing, so that every call
        yields a new instance; `nextId` is the id the next one receives. */
    | Fresh(nextId: nat)

  /** A resolver's state after a call, and what the call returned. */
  datatype Resolved = Resolved(resolver: Resolver, result: Result<Component, Error>)

  /** A chain with a cache at the bottom: it hands out one instance per path. */
  predicate Memoising(r: Resolver) {
    match r
    case Cache(_, _) => true
    case Tracking(d, _) => Memoising(d)
    case Fresh(_) => false
  }

  /** A memoising chain whose cache entries are the components loaded under their own path,
      each a distinct instance whose id was handed out before. */
  predicate Valid(r: Resolver) {
    match r
    case Cache(entries, nextId) =>
      && (forall p :: p in entries ==> entries[p].filepath == p && entries[p].id < nextId)
      && (forall p, q :: p in entries && q in entries && p != q ==> entries[p].id != entries[q].id)
    case Tracking(d, _) => Valid(d)
    case Fresh(_) => false
  }

  lemma {:induction false} ValidIsMemoising(r: Resolver)
    ensures Valid(r) ==> Memoising(r)
  {
    if r.Tracking? {
      ValidIsMemoising(r.downstream);
    }
  }

  /** The cache at the bottom of a chain. */
  function Cached(r: Resolver): map<string, Component> {
    match r
    case Cache(entries, _) => entries
    case Tracking(d, _) => Cached(d)
    case Fresh(_) => map[]
  }

  /** The id the bottom of a chain gives the next component it creates. */
  function NextId(r: Resolver): nat {
    match r
    case Cache(_, nextId) => nextId
    case Tracking(d, _) => NextId(d)
    case Fresh(nextId) => nextId
  }

  /** `r2` is a later state of `r`: the same chain, no cache entry dropped or replaced, no hit
      forgotten. */
  predicate Evolves(r: Resolver, r2: Resolver) {
    match r
    case Cache(entries, nextId) =>
      && r2.Cache? && nextId <= r2.nextId
      && (forall p :: p in entries ==> p in r2.entries && r2.entries[p] == entries[p])
    case Tracking(d, hits) =>
      r2.Tracking? && hits <= r2.hits && Evolves(d, r2.downstream)
    case Fresh(nextId) =>
      r2.Fresh? && nextId <= r2.nextId
  }

  lemma {:induction false} EvolvesReflexive(r: Resolver)
    ensures Evolves(r, r)
  {
    if r.Tracking? {
      EvolvesReflexive(r.downstream);
    }
  }

  lemma {:induction false} EvolvesTransitive(r1: Resolver, r2: Resolver, r3: Resolver)
    requires Evolves(r1, r2) && Evolves(r2, r3)
    ensures Evolves(r1, r3)
  {
    if r1.Tracking? {
      EvolvesTransitive(r1.downstream, r2.downstream, r3.downstream);
    }
  }

  lemma {:induction false} EvolvesKeepsCached(r: Resolver, r2: Resolver, p: string)
    requires Evolves(r, r2) && p in Cached(r)
    ensures p in Cached(r2) && Cached(r2)[p] == Cached(r)[p]
  {
    if r.Tracking? {
      EvolvesKeepsCached(r.downstream, r2.downstream, p);
    }
  }

  /** `CacheComponentResolver.Resolve(path)`. */
  function CacheResolve(entries: map<string, Component>, nextId: nat, read: Reader, path: string): (res: Resolved)
    ensures res.resolver.Cache?
    ensures path in entries ==> res == Resolved(Cache(entries, nextId), Success(entries[path]))
    ensures path !in entries && read(path).Failure? ==>
      res == Resolved(Cache(entries, nextId), Failure(read(path).error))
    ensures path !in entries && read(path).Success? ==>
      && res.result.Success?
      && res.result.value == Component(nextId, path, read(path).value)
      && res.resolver == Cache(entries[path := res.result.value], nextId + 1)
  {
    if path in entries then Resolved(Cache(entries, nextId), Success(entries[path]))
    else
      match read(path)
      case Failure(e) => Resolved(Cache(entries, nextId), Failure(e))
      case Success(body) =>
        var c := Component(nextId, path, body);
        Resolved(Cache(entries[path := c], nextId + 1), Success(c))
  }

  /** `Resolve(path)` through a resolver chain. */
  function Resolve(r: Resolver, read: Reader, path: string): (res: Resolved)
    ensures Evolves(r, res.resolver)
    ensures Valid(r) ==> Valid(res.resolver)
    ensures Memoising(r) && res.result.Success? ==> path in Cached(res.resolver) && Cached(res.resolver)[path] == res.result.value
    ensures res.result.Failure? ==> Cached(res.resolver) == Cached(r)
    ensures path in Cached(r) ==> res.result == Success(Cached(r)[path])
    ensures r.Tracking? ==>
      && res.result == Resolve(r.downstream, read, path).result
      && res.resolver.hits == (if res.result.Success? then r.hits + {path} else r.hits)
    ensures !Memoising(r) ==>
      && Memoising(res.resolver) == false
      && (read(path).Failure? ==> res.result == Failure(read(path).error) && NextId(res.resolver) == NextId(r))
      && (read(path).Success? ==>
            res.result == Success(Component(NextId(r), path, read(path).value)) && NextId(res.resolver) == NextId(r) + 1)
  {
    match r
    case Cache(entries, nextId) =>
      var res := CacheResolve(entries, nextId, read, path);
      if path in entries then
        EvolvesReflexive(r);
        res
      else res
    case Tracking(d, hits) =>
      var inner := Resolve(d, read, path);
      (match inner.result
       case Failure(e) => Resolved(Tracking(inner.resolver, hits), Failure(e))
       case Success(c) => Resolved(Tracking(inner.resolver, hits + {path}), Success(c)))
    case Fresh(nextId) =>
      match read(path)
      case Failure(e) =>
        EvolvesReflexive(r);
        Resolved(r, Failure(e))
      case Success(body) => Resolved(Fresh(nextId + 1), Success(Component(nextId, path, body)))
  }

  /** On a cache hit the reader is not consulted: any reader gives the same state and answer. */
  lemma ResolveHitIgnoresReader(r: Resolver, read1: Reader, read2: Reader, path: string)
    requires path in Cached(r)
    ensures Resolve(r, read1, path) == Resolve(r, read2, path)
  {
    match r
    case Cache(_, _) =>
    case Tracking(d, _) =>
      ResolveHitIgnoresReader(d, read1, read2, path);
    case Fresh(_) =>
  }

  /** Once a path has resolved through a memoising chain, every later resolution of it,
      whatever the reader then says, returns the identical instance. */
  lemma ResolveSameInstance(r: Resolver, r2: Resolver, read: Reader, read2: Reader, path: string)
    requires Memoising(r)
    requires Resolve(r, read, path).result.Success?
    requires Evolves(Resolve(r, read, path).resolver, r2)
    ensures Resolve(r2, read2, path).result == Resolve(r, read, path).result
  {
    EvolvesKeepsCached(Resolve(r, read, path).resolver, r2, path);
  }

  /** Without memoisation, resolving the same path twice yields two distinct instances of it. */
  lemma FreshResolveTwice(r: Resolver, read: Reader, path: string)
    requires !Memoising(r) && read(path).Success?
    ensures var first := Resolve(r, read, path);
      var second := Resolve(first.resolver, read, path);
      && first.result.Success? && second.result.Success?
      && first.result.value.filepath == path && second.result.value.filepath == path
      && first.result.value.id != second.result.value.id
  {
  }

  /** Under a valid chain, components resolved under different paths are distinct instances. */
  lemma DistinctPathsDistinctInstances(r: Resolver, p: string, q: string)
    requires Valid(r) && p in Cached(r) && q in Cached(r) && p != q
    ensures Cached(r)[p].id != Cached(r)[q].id
  {
    match r
    case Cache(_, _) =>
    case Tracking(d, _) =>
      DistinctPathsDistinctInstances(d, p, q);
    case Fresh(_) =>
  }

  /** A component a valid chain holds sits under its own path. */
  lemma CachedUnderOwnPath(r: Resolver, p: string)
    requires Valid(r) && p in Cached(r)
    ensures Cached(r)[p].filepath == p
  {
    match r
    case Cache(_, _) =>
    case Tracking(d, _) =>
      CachedUnderOwnPath(d, p);
    case Fresh(_) =>
  }

  /** Resolves each path of `queries` in turn, with the answers in order. */
  function ResolveAll(r: Resolver, read: Reader, queries: seq<string>): (res: (Resolver, seq<Result<Component, Error>>))
    ensures |res.1| == |queries|
    ensures Evolves(r, res.0)
    decreases |queries|
  {
    if |queries| == 0 then
      EvolvesReflexive(r);
      (r, [])
    else
      var first := Resolve(r, read, queries[0]);
      var rest := ResolveAll(first.resolver, read, queries[1..]);
      EvolvesTransitive(r, first.resolver, rest.0);
      (rest.0, [first.result] + rest.1)
  }

  /** The queried paths whose resolution succeeded. */
  function Succeeded(queries: seq<string>, results: seq<Result<Component, Error>>): set<string>
    requires |results| == |queries|
  {
    set i | 0 <= i < |queries| && results[i].Success? :: queries[i]
  }

  lemma SucceededCons(queries: seq<string>, results: seq<Result<Component, Error>>)
    requires |results| == |queries| > 0
    ensures Succeeded(queries, results)
      == (if results[0].Success? then {queries[0]} else {}) + Succeeded(queries[1..], results[1..])
  {
    var all := Succeeded(queries, results);
    var later := Succeeded(queries[1..], results[1..]);
    forall x | x in all
      ensures x in (if results[0].Success? then {queries[0]} else {}) + later
    {
      var i :| 0 <= i < |queries| && results[i].Success? && queries[i] == x;
      if i > 0 {
        assert results[1..][i - 1] == results[i];
        assert queries[1..][i - 1] == x;
      }
    }
    forall x | x in later
      ensures x in all
    {
      var i :| 0 <= i < |queries| - 1 && results[1..][i].Success? && queries[1..][i] == x;
      assert results[i + 1] == results[1..][i];
    }
  }

  /** `Hits()` after any query sequence: the earlier hits plus exactly the queried paths that
      resolved without error, however often each was asked and whatever failed in between. */
  lemma {:induction false} TrackingHitsExactly(r: Resolver, read: Reader, queries: seq<string>)
    requires r.Tracking?
    ensures var (r2, results) := ResolveAll(r, read, queries);
      r2.hits == r.hits + Succeeded(queries, results)
    decreases |queries|
  {
    if |queries| > 0 {
      var first := Resolve(r, read, queries[0]);
      TrackingHitsExactly(first.resolver, read, queries[1..]);
      var results := ResolveAll(r, read, queries).1;
      var rest := ResolveAll(first.resolver, read, queries[1..]);
      assert results == [first.result] + rest.1;
      assert results[1..] == rest.1;
      SucceededCons(queries, results);
    }
  }
}
