/**
 * Lexical path algebra of Go's `path/filepath` on `/`-separated paths, as `RenderScope.Resolve`
 * uses it: `Split` (the directory part), `Join`, `Clean` and `Rel`. A path string is read as a
 * rooted flag and its elements; cleaning drops empty and `.` elements and cancels `..` against
 * the element before it.
 */
module Paths {
  import opened Results
  import opened Strings

  /** A path read element by element; `rooted` when it starts with a separator. */
  datatype Path = Path(rooted: bool, elems: seq<string>)

  /** The elements of `s` between separators, empty and `.` elements included. */
  function Parse(s: string): (p: Path)
    ensures forall i :: 0 <= i < |p.elems| ==> '/' !in p.elems[i]
  {
    Path(|s| > 0 && s[0] == '/', Split(s, '/'))
  }

  /** An element a cleaned path may keep: neither empty nor `.`. */
  predicate IsName(e: string) {
    e != "" && e != "." && '/' !in e
  }

  /** The shape of a cleaned element list: names only, every `..` ahead of every other name,
      and no `..` at all under the root. */
  predicate CleanElems(rooted: bool, es: seq<string>) {
    && (forall i :: 0 <= i < |es| ==> IsName(es[i]))
    && (forall i, j :: 0 <= i < j < |es| && es[j] == ".." ==> es[i] == "..")
    && (rooted ==> forall i :: 0 <= i < |es| ==> es[i] != "..")
  }

  predicate IsClean(p: Path) {
    CleanElems(p.rooted, p.elems)
  }

  /** One element of cleaning, appended to the already cleaned `acc`. */
  function Step(rooted: bool, acc: seq<string>, e: string): seq<string> {
    if e == "" || e == "." then acc
    else if e == ".." then
      if |acc| > 0 && acc[|acc| - 1] != ".." then acc[..|acc| - 1]
      else if rooted then acc
      else acc + [".."]
    else acc + [e]
  }

  /** Cleaning of the elements `es`, continuing from `acc`. */
  function Fold(rooted: bool, acc: seq<string>, es: seq<string>): seq<string>
    decreases |es|
  {
    if |es| == 0 then acc else Fold(rooted, Step(rooted, acc, es[0]), es[1..])
  }

  /** `filepath.Clean`, on the element reading of a path. */
  function Clean(p: Path): Path {
    Path(p.rooted, Fold(p.rooted, [], p.elems))
  }

  /** Cleaning yields a clean path. */
  lemma CleanIsClean(p: Path)
    requires forall i :: 0 <= i < |p.elems| ==> '/' !in p.elems[i]
    ensures IsClean(Clean(p))
  {
    FoldKeepsClean(p.rooted, [], p.elems);
  }

  /** Cleaning leaves a clean path as it is. */
  lemma CleanOfClean(p: Path)
    requires IsClean(p)
    ensures Clean(p) == p
  {
    assert [] + p.elems == p.elems;
    FoldOfClean(p.rooted, [], p.elems);
  }

  lemma StepKeepsClean(rooted: bool, acc: seq<string>, e: string)
    requires CleanElems(rooted, acc)
    requires '/' !in e
    ensures CleanElems(rooted, Step(rooted, acc, e))
  {
  }

  lemma {:induction false} FoldKeepsClean(rooted: bool, acc: seq<string>, es: seq<string>)
    requires CleanElems(rooted, acc)
    requires forall i :: 0 <= i < |es| ==> '/' !in es[i]
    ensures CleanElems(rooted, Fold(rooted, acc, es))
    decreases |es|
  {
    if |es| > 0 {
      StepKeepsClean(rooted, acc, es[0]);
      FoldKeepsClean(rooted, Step(rooted, acc, es[0]), es[1..]);
    }
  }

  /** Cleaning continues across concatenation: it is a left fold. */
  lemma {:induction false} FoldAppend(rooted: bool, acc: seq<string>, a: seq<string>, b: seq<string>)
    ensures Fold(rooted, acc, a + b) == Fold(rooted, Fold(rooted, acc, a), b)
    decreases |a|
  {
    if |a| > 0 {
      assert (a + b)[0] == a[0];
      assert (a + b)[1..] == a[1..] + b;
      FoldAppend(rooted, Step(rooted, acc, a[0]), a[1..], b);
    } else {
      assert a + b == b;
    }
  }

  /** Cleaning elements that already extend `acc` into a clean list appends them unchanged. */
  lemma {:induction false} FoldOfClean(rooted: bool, acc: seq<string>, es: seq<string>)
    requires CleanElems(rooted, acc + es)
    ensures Fold(rooted, acc, es) == acc + es
    decreases |es|
  {
    if |es| > 0 {
      var all := acc + es;
      assert all[|acc|] == es[0];
      if es[0] == ".." && |acc| > 0 {
        assert all[|acc| - 1] == acc[|acc| - 1];
      }
      assert Step(rooted, acc, es[0]) == acc + [es[0]];
      assert (acc + [es[0]]) + es[1..] == all;
      FoldOfClean(rooted, acc + [es[0]], es[1..]);
    } else {
      assert acc + es == acc;
    }
  }

  /** `n` elements `..`. */
  function Ups(n: nat): (r: seq<string>)
    ensures |r| == n
    ensures forall i :: 0 <= i < n ==> r[i] == ".."
  {
    if n == 0 then [] else [".."] + Ups(n - 1)
  }

  /** Each `..` cancels one trailing name that is not itself `..`. */
  lemma {:induction false} FoldUps(rooted: bool, acc: seq<string>, xs: seq<string>)
    requires forall i :: 0 <= i < |xs| ==> IsName(xs[i]) && xs[i] != ".."
    ensures Fold(rooted, acc + xs, Ups(|xs|)) == acc
    decreases |xs|
  {
    if |xs| > 0 {
      var init := xs[..|xs| - 1];
      var all := acc + xs;
      assert all[|all| - 1] == xs[|xs| - 1];
      assert all[..|all| - 1] == acc + init;
      assert Step(rooted, all, "..") == acc + init;
      assert Ups(|xs|)[1..] == Ups(|init|);
      FoldUps(rooted, acc, init);
    } else {
      assert acc + xs == acc;
    }
  }

  /** The string spelling of a path; the empty relative path is `.`. */
  function Format(p: Path): string {
    if p.rooted then "/" + JoinWith(p.elems, "/")
    else if |p.elems| == 0 then "."
    else JoinWith(p.elems, "/")
  }

  lemma {:induction false} JoinWithStartsWith(parts: seq<string>, sep: string)
    requires |parts| >= 1
    ensures |parts[0]| <= |JoinWith(parts, sep)|
    ensures JoinWith(parts, sep)[..|parts[0]|] == parts[0]
    decreases |parts|
  {
    if |parts| > 1 {
      var init := parts[..|parts| - 1];
      JoinWithStartsWith(init, sep);
      assert init[0] == parts[0];
      var j := JoinWith(init, sep);
      assert (j + sep + parts[|parts| - 1])[..|parts[0]|] == j[..|parts[0]|];
    }
  }

  /** Reading back the spelling of a cleaned path and cleaning it gives the path again. */
  lemma FormatRoundTrip(p: Path)
    requires IsClean(p)
    ensures Clean(Parse(Format(p))) == p
  {
    if p.rooted {
      RoundTripRooted(p);
    } else if |p.elems| == 0 {
      SplitFree(".", '/');
    } else {
      RoundTripRelative(p);
    }
  }

  lemma RoundTripRooted(p: Path)
    requires IsClean(p) && p.rooted
    ensures Clean(Parse(Format(p))) == p
  {
    var j := JoinWith(p.elems, "/");
    var s := "/" + j;
    assert s == Format(p);
    assert s == "" + ['/'] + j;
    SplitAround("", j, '/');
    if |p.elems| == 0 {
      assert Split(j, '/') == [""];
      assert Fold(true, [], ["", ""]) == [];
    } else {
      SplitJoin(p.elems, '/');
      assert Parse(s) == Path(true, [""] + p.elems);
      FoldAppend(true, [], [""], p.elems);
      assert Fold(true, [], [""]) == [];
      CleanOfClean(p);
    }
  }

  lemma RoundTripRelative(p: Path)
    requires IsClean(p) && !p.rooted && |p.elems| > 0
    ensures Clean(Parse(Format(p))) == p
  {
    var s := JoinWith(p.elems, "/");
    assert s == Format(p);
    SplitJoin(p.elems, '/');
    JoinWithStartsWith(p.elems, "/");
    assert s[0] == p.elems[0][0];
    assert Parse(s) == p;
    CleanOfClean(p);
  }

  /** Go's `filepath.Clean` on strings. */
  function CleanString(s: string): string {
    Format(Clean(Parse(s)))
  }

  /** Cleaning a path string twice changes nothing further. */
  lemma CleanStringIdempotent(s: string)
    ensures CleanString(CleanString(s)) == CleanString(s)
  {
    CleanIsClean(Parse(s));
    FormatRoundTrip(Clean(Parse(s)));
  }

  /** The directory part of `filepath.Split`: everything up to and including the last separator. */
  function Dir(s: string): (r: string)
    ensures |r| <= |s| && s[..|r|] == r
    ensures r == "" || r[|r| - 1] == '/'
    ensures '/' !in s[|r|..]
    decreases |s|
  {
    if |s| == 0 then ""
    else if s[|s| - 1] == '/' then s
    else
      var r := Dir(s[..|s| - 1]);
      assert s[|r|..] == s[..|s| - 1][|r|..] + [s[|s| - 1]];
      r
  }

  /** `filepath.Join(a, b)`: the non-empty arguments joined by a separator, then cleaned;
      empty when both are empty. */
  function Join(a: string, b: string): string {
    if a != "" then CleanString(a + "/" + b)
    else if b != "" then CleanString(b)
    else ""
  }

  /** The length of the longest common prefix of two element lists. */
  function CommonPrefix(a: seq<string>, b: seq<string>): (n: nat)
    ensures n <= |a| && n <= |b|
    ensures a[..n] == b[..n]
    ensures n < |a| && n < |b| ==> a[n] != b[n]
    decreases |a|
  {
    if |a| == 0 || |b| == 0 || a[0] != b[0] then 0
    else
      var n := CommonPrefix(a[1..], b[1..]);
      assert a[..n + 1] == [a[0]] + a[1..][..n];
      assert b[..n + 1] == [b[0]] + b[1..][..n];
      n + 1
  }

  /** The message of the error `filepath.Rel` returns. */
  function RelErrorMessage(basepath: string, targpath: string): string {
    "Rel: can't make " + targpath + " relative to " + basepath
  }

  /** The elements of the relative path from the cleaned `base` to the cleaned `targ`, or
      `None` when exactly one of them is rooted, or when `base` keeps a `..` past the common
      prefix, which no relative path can undo lexically. */
  function RelElems(base: Path, targ: Path): Option<seq<string>> {
    if base == targ then Some([])
    else if base.rooted != targ.rooted then None
    else
      var n := CommonPrefix(base.elems, targ.elems);
      if n < |base.elems| && base.elems[n] == ".." then None
      else Some(Ups(|base.elems| - n) + targ.elems[n..])
  }

  /** `filepath.Rel(basepath, targpath)`: a relative path that leads from `basepath` to
      `targpath`, or the library's error message. The library compares the cleaned target
      `.` as an element like any other, so climbing to it ends with `/.`. */
  function Rel(basepath: string, targpath: string): Result<string, string> {
    var targ := Clean(Parse(targpath));
    match RelElems(Clean(Parse(basepath)), targ)
    case None => Failure(RelErrorMessage(basepath, targpath))
    case Some(es) =>
      var r := Format(Path(false, es));
      Success(if |es| > 0 && !targ.rooted && |targ.elems| == 0 then r + "/." else r)
  }

  /** Relating a relative base of `k` names to the current directory climbs `k` levels and
      ends with `.`: `Rel("a/b", ".")` is `../../.`, not the cleaned `../..`. */
  lemma RelToCurrentDir(basepath: string)
    requires var base := Clean(Parse(basepath)); !base.rooted && |base.elems| > 0 && base.elems[0] != ".."
    ensures Rel(basepath, ".") == Success(JoinWith(Ups(|Clean(Parse(basepath)).elems|), "/") + "/.")
  {
    SplitFree(".", '/');
    assert Clean(Parse(".")) == Path(false, []);
    assert Ups(|Clean(Parse(basepath)).elems|) + [] == Ups(|Clean(Parse(basepath)).elems|);
  }

  /** A trailing `/.` does not change what a non-empty path string cleans to. */
  lemma CleanDotSuffix(y: string)
    requires y != ""
    ensures Clean(Parse(y + "/.")) == Clean(Parse(y))
  {
    assert y + "/." == y + ['/'] + ".";
    SplitAround(y, ".", '/');
    SplitFree(".", '/');
    assert (y + "/.")[0] == y[0];
    FoldAppend(Parse(y).rooted, [], Split(y, '/'), ["."]);
  }

  /** Joining a base with `x/.` names the same path as joining it with `x`. */
  lemma JoinDotSuffix(basepath: string, x: string)
    requires x != ""
    ensures Clean(Parse(Join(basepath, x + "/."))) == Clean(Parse(Join(basepath, x)))
  {
    if basepath != "" {
      assert basepath + "/" + (x + "/.") == (basepath + "/" + x) + "/.";
      CleanDotSuffix(basepath + "/" + x);
    } else {
      CleanDotSuffix(x);
    }
  }

  /** The relative elements are clean, and walking them from `base` arrives at `targ`. */
  lemma RelElemsReachTarget(base: Path, targ: Path)
    requires IsClean(base) && IsClean(targ)
    requires RelElems(base, targ).Some?
    ensures CleanElems(false, RelElems(base, targ).value)
    ensures base.rooted == targ.rooted
    ensures Fold(base.rooted, base.elems, RelElems(base, targ).value) == targ.elems
  {
    if base != targ {
      var n := CommonPrefix(base.elems, targ.elems);
      var es := Ups(|base.elems| - n) + targ.elems[n..];
      assert RelElems(base, targ).value == es;
      ClimbAndDescend(base.rooted, base.elems, targ.elems, n);
      UpsThenRestClean(targ.elems, n, |base.elems| - n);
    }
  }

  lemma ClimbAndDescend(rooted: bool, bs: seq<string>, ts: seq<string>, n: nat)
    requires CleanElems(rooted, bs) && CleanElems(rooted, ts)
    requires n <= |bs| && n <= |ts| && bs[..n] == ts[..n]
    requires n < |bs| ==> bs[n] != ".."
    ensures Fold(rooted, bs, Ups(|bs| - n) + ts[n..]) == ts
  {
    RestWithoutUps(rooted, bs, n);
    var common, bRest, tRest := bs[..n], bs[n..], ts[n..];
    assert bs == common + bRest;
    assert ts == common + tRest;
    FoldUps(rooted, common, bRest);
    FoldAppend(rooted, bs, Ups(|bRest|), tRest);
    FoldOfClean(rooted, common, tRest);
  }

  /** Past the common prefix, a clean base that does not continue with `..` holds none. */
  lemma RestWithoutUps(rooted: bool, es: seq<string>, n: nat)
    requires CleanElems(rooted, es) && n <= |es|
    requires n < |es| ==> es[n] != ".."
    ensures forall j :: 0 <= j < |es[n..]| ==> IsName(es[n..][j]) && es[n..][j] != ".."
  {
    forall j | 0 <= j < |es[n..]|
      ensures IsName(es[n..][j]) && es[n..][j] != ".."
    {
      assert es[n..][j] == es[n + j];
    }
  }

  /** Climbing `k` levels and then descending through the rest of a clean target is clean. */
  lemma UpsThenRestClean(ts: seq<string>, n: nat, k: nat)
    requires CleanElems(false, ts) || CleanElems(true, ts)
    requires n <= |ts|
    ensures CleanElems(false, Ups(k) + ts[n..])
  {
    var es := Ups(k) + ts[n..];
    forall i | 0 <= i < |es|
      ensures IsName(es[i])
    {
      if i >= k {
        assert es[i] == ts[n + i - k];
      }
    }
    forall i, j | 0 <= i < j < |es| && es[j] == ".."
      ensures es[i] == ".."
    {
      if i >= k {
        assert es[j] == ts[n + j - k];
        assert es[i] == ts[n + i - k];
      }
    }
  }

  /** The elements of the spelling of a clean relative path, `.` standing for none. */
  lemma SplitFormat(q: Path)
    requires IsClean(q) && !q.rooted
    ensures Split(Format(q), '/') == (if |q.elems| == 0 then ["."] else q.elems)
    ensures Format(q) != ""
  {
    if |q.elems| == 0 {
      SplitFree(".", '/');
    } else {
      SplitJoin(q.elems, '/');
      JoinWithStartsWith(q.elems, "/");
    }
  }

  /** Joining `basepath` with the spelling of a clean relative path `q` walks `q`'s elements
      from the cleaned `basepath`. */
  lemma JoinRelative(basepath: string, q: Path)
    requires IsClean(q) && !q.rooted
    ensures var base := Clean(Parse(basepath));
      Clean(Parse(Join(basepath, Format(q)))) == Path(base.rooted, Fold(base.rooted, base.elems, q.elems))
  {
    SplitFormat(q);
    if basepath != "" {
      JoinRelativeNonEmpty(basepath, q);
    } else {
      JoinRelativeEmpty(q);
    }
  }

  lemma JoinRelativeNonEmpty(basepath: string, q: Path)
    requires IsClean(q) && !q.rooted && basepath != ""
    ensures var base := Clean(Parse(basepath));
      Clean(Parse(Join(basepath, Format(q)))) == Path(base.rooted, Fold(base.rooted, base.elems, q.elems))
  {
    var base := Clean(Parse(basepath));
    var f := Format(q);
    SplitFormat(q);
    assert Fold(base.rooted, base.elems, Split(f, '/')) == Fold(base.rooted, base.elems, q.elems);
    var x := basepath + "/" + f;
    assert x == basepath + ['/'] + f;
    SplitAround(basepath, f, '/');
    assert x[0] == basepath[0];
    assert Parse(x) == Path(Parse(basepath).rooted, Split(basepath, '/') + Split(f, '/'));
    FoldAppend(base.rooted, [], Split(basepath, '/'), Split(f, '/'));
    CleanIsClean(Parse(x));
    FormatRoundTrip(Clean(Parse(x)));
  }

  lemma JoinRelativeEmpty(q: Path)
    requires IsClean(q) && !q.rooted
    ensures var base := Clean(Parse(""));
      Clean(Parse(Join("", Format(q)))) == Path(base.rooted, Fold(base.rooted, base.elems, q.elems))
  {
    var f := Format(q);
    SplitFormat(q);
    CleanIsClean(Parse(f));
    FormatRoundTrip(Clean(Parse(f)));
    FormatRoundTrip(q);
    assert Split("", '/') == [""];
    assert Clean(Parse("")) == Path(false, []);
    FoldOfClean(false, [], q.elems);
    assert [] + q.elems == q.elems;
  }

  /** The promise of `filepath.Rel`: joining `basepath` with the answer names `targpath`
      again, up to cleaning. */
  lemma RelJoinsBack(basepath: string, targpath: string)
    requires Rel(basepath, targpath).Success?
    ensures Clean(Parse(Join(basepath, Rel(basepath, targpath).value))) == Clean(Parse(targpath))
  {
    var base, targ := Clean(Parse(basepath)), Clean(Parse(targpath));
    CleanIsClean(Parse(basepath));
    CleanIsClean(Parse(targpath));
    RelElemsReachTarget(base, targ);
    var es := RelElems(base, targ).value;
    JoinRelative(basepath, Path(false, es));
    SplitFormat(Path(false, es));
    JoinDotSuffix(basepath, Format(Path(false, es)));
  }
}
