/** path-posix.js: path strings as the component lists they stand for. */
module PosixPath {
  const SLASH: string := ['/']
  const DOT: string := ['.']
  const DOTDOT: string := ['.', '.']

  /* ---- strings and components ---- */

  /** split("/"). */
  function Split(s: string): (r: seq<string>)
    ensures |r| > 0 && forall p :: p in r ==> '/' !in p
  {
    if s == [] then [[]]
    else if s[0] == '/' then [[]] + Split(s[1..])
    else
      var r := Split(s[1..]);
      [[s[0]] + r[0]] + r[1..]
  }

  /** join("/"). */
  function Joined(ps: seq<string>): string
  {
    if ps == [] then [] else if |ps| == 1 then ps[0] else ps[0] + SLASH + Joined(ps[1..])
  }

  lemma {:induction false} SplitConcat(a: string, b: string)
    ensures Split(a + SLASH + b) == Split(a) + Split(b)
  {
    var s := a + SLASH + b;
    if a == [] {
      assert s[0] == '/' && s[1..] == b;
    } else {
      SplitConcat(a[1..], b);
      assert s[1..] == a[1..] + SLASH + b;
    }
  }

  lemma {:induction false} SplitName(a: string)
    requires '/' !in a
    ensures Split(a) == [a]
  {
    if a != [] {
      SplitName(a[1..]);
      assert a == [a[0]] + a[1..];
    }
  }

  lemma {:induction false} SplitJoined(ps: seq<string>)
    requires ps != [] && forall p :: p in ps ==> '/' !in p
    ensures Split(Joined(ps)) == ps
  {
    SplitName(ps[0]);
    if |ps| > 1 {
      SplitJoined(ps[1..]);
      SplitConcat(ps[0], Joined(ps[1..]));
      assert ps == [ps[0]] + ps[1..];
    } else {
      assert ps == [ps[0]];
    }
  }

  lemma {:induction false} JoinedAppend(a: seq<string>, b: seq<string>)
    requires a != [] && b != []
    ensures Joined(a + b) == Joined(a) + SLASH + Joined(b)
  {
    assert (a + b)[1..] == a[1..] + b;
    if |a| > 1 {
      JoinedAppend(a[1..], b);
    } else {
      assert a[1..] + b == b;
    }
  }

  /* ---- the walk over components ---- */

  predicate Skipped(p: string) { p == [] || p == DOT }

  /** One component of splitPath's loop. */
  function Step(abs: bool, kept: seq<string>, p: string): seq<string>
  {
    if Skipped(p) then kept
    else if p == DOTDOT then
      if |kept| > 0 && kept[|kept| - 1] != DOTDOT then kept[..|kept| - 1]
      else if !abs then kept + [p]
      else kept
    else kept + [p]
  }

  function Walk(abs: bool, kept: seq<string>, ps: seq<string>): seq<string>
    decreases |ps|
  {
    if ps == [] then kept else Walk(abs, Step(abs, kept, ps[0]), ps[1..])
  }

  predicate IsAbs(s: string) { |s| > 0 && s[0] == '/' }

  function SplitPath(s: string): seq<string> { Walk(IsAbs(s), [], Split(s)) }

  predicate Name(p: string) { p != [] && p != DOT && p != DOTDOT && '/' !in p }

  /** What is left of a path: names, and before them, in a relative path only, steps up. */
  predicate Clean(abs: bool, ps: seq<string>)
  {
    && (forall i :: 0 <= i < |ps| ==> Name(ps[i]) || (!abs && ps[i] == DOTDOT))
    && forall i :: 0 < i < |ps| && ps[i] == DOTDOT ==> ps[i - 1] == DOTDOT
  }

  lemma {:induction false} WalkAppend(abs: bool, kept: seq<string>, a: seq<string>, b: seq<string>)
    ensures Walk(abs, kept, a + b) == Walk(abs, Walk(abs, kept, a), b)
    decreases |a|
  {
    if a == [] {
      assert a + b == b;
    } else {
      WalkAppend(abs, Step(abs, kept, a[0]), a[1..], b);
      assert (a + b)[1..] == a[1..] + b;
    }
  }

  lemma {:induction false} WalkClean(abs: bool, kept: seq<string>, ps: seq<string>)
    requires Clean(abs, kept) && forall p :: p in ps ==> '/' !in p
    ensures Clean(abs, Walk(abs, kept, ps))
    decreases |ps|
  {
    if ps != [] {
      assert ps[0] in ps;
      WalkClean(abs, Step(abs, kept, ps[0]), ps[1..]);
    }
  }

  /** A clean list is left as it is. */
  lemma {:induction false} WalkKeeps(abs: bool, kept: seq<string>, ps: seq<string>)
    requires Clean(abs, kept + ps)
    ensures Walk(abs, kept, ps) == kept + ps
    decreases |ps|
  {
    if ps != [] {
      var all := kept + ps;
      assert all[|kept|] == ps[0];
      assert |kept| > 0 ==> all[|kept| - 1] == kept[|kept| - 1];
      assert Step(abs, kept, ps[0]) == kept + [ps[0]];
      assert kept + [ps[0]] + ps[1..] == all;
      WalkKeeps(abs, kept + [ps[0]], ps[1..]);
    } else {
      assert kept + ps == kept;
    }
  }

  lemma SplitPathClean(s: string)
    ensures Clean(IsAbs(s), SplitPath(s))
  {
    WalkClean(IsAbs(s), [], Split(s));
  }

  /** One more component behind a path: an empty one or a dot changes nothing; a name is kept; a step up
      takes away the last name, and where there is none is kept by a relative path and dropped by an
      absolute one. */
  lemma OneMore(s: string, p: string)
    requires s != [] && '/' !in p
    ensures var ps, n := SplitPath(s), |SplitPath(s)|;
            SplitPath(s + ['/'] + p) ==
            if p == "" || p == "." then ps
            else if p != ".." then ps + [p]
            else if n > 0 && ps[n - 1] != ".." then ps[..n - 1]
            else if s[0] == '/' then ps
            else ps + [".."]
  {
    SplitConcat(s, p);
    SplitName(p);
    WalkAppend(IsAbs(s), [], Split(s), [p]);
    WalkOne(IsAbs(s), SplitPath(s), p);
    assert s + ['/'] + p == s + SLASH + p;
    SplitPathClean(s);
  }

  /** A path of one component. */
  lemma OneOnly(p: string)
    requires '/' !in p
    ensures SplitPath(p) == if p == "" || p == "." then [] else [p]
  {
    SplitName(p);
    WalkOne(IsAbs(p), [], p);
  }

  /* ---- spelling a component list ---- */

  function Show(abs: bool, ps: seq<string>): string { (if abs then SLASH else []) + Joined(ps) }

  lemma JoinedStart(ps: seq<string>)
    requires ps != [] && ps[0] != []
    ensures Joined(ps) != [] && Joined(ps)[0] == ps[0][0]
  {
  }

  lemma {:induction false} JoinedEnd(ps: seq<string>)
    requires ps != [] && ps[|ps| - 1] != []
    ensures var j := Joined(ps); j != [] && j[|j| - 1] == ps[|ps| - 1][|ps[|ps| - 1]| - 1]
  {
    if |ps| > 1 {
      JoinedEnd(ps[1..]);
    }
  }

  /** The walk of a relative list starts with a component that is no slash. */
  lemma ShowShape(abs: bool, ps: seq<string>)
    requires Clean(abs, ps) && (abs || ps != [])
    ensures var s := Show(abs, ps);
            s != [] && IsAbs(s) == abs && (s[|s| - 1] == '/' ==> s == SLASH) && (s == SLASH <==> ps == [])
  {
    if ps != [] {
      JoinedStart(ps);
      JoinedEnd(ps);
      var z := ps[|ps| - 1];
      assert z[|z| - 1] in z && ps[0][0] in ps[0];
    }
  }

  lemma AbsSplit(w: string)
    ensures SplitPath(SLASH + w) == Walk(true, [], Split(w))
  {
    assert (SLASH + w)[1..] == w;
    assert ([[]] + Split(w))[1..] == Split(w);
  }

  /** A clean list is read back from its spelling. */
  lemma ShowSplit(abs: bool, ps: seq<string>)
    requires Clean(abs, ps) && (abs || ps != [])
    ensures SplitPath(Show(abs, ps)) == ps
  {
    ShowShape(abs, ps);
    if ps == [] {
      AbsSplit([]);
      assert Show(abs, ps) == SLASH + [];
      assert Walk(true, [], [[]]) == Walk(true, [], [[]][1..]);
    } else {
      SplitJoined(ps);
      assert [] + ps == ps;
      WalkKeeps(abs, [], ps);
      if abs {
        AbsSplit(Joined(ps));
      } else {
        assert Show(abs, ps) == Joined(ps);
      }
    }
  }

  lemma TrailingSlash(s: string)
    requires s != []
    ensures IsAbs(s + SLASH) == IsAbs(s) && SplitPath(s + SLASH) == SplitPath(s)
  {
    SplitConcat(s, []);
    assert s + SLASH + [] == s + SLASH;
    WalkAppend(IsAbs(s), [], Split(s), [[]]);
    assert Walk(IsAbs(s), SplitPath(s), [[]]) == Walk(IsAbs(s), SplitPath(s), [[]][1..]);
  }

  /* ---- normalize ---- */

  function Normalize(s: string): string
  {
    var trailing := |s| > 1 && s[|s| - 1] == '/';
    var shown := Show(IsAbs(s), SplitPath(s));
    var r := if shown == [] then DOT else shown;
    if trailing && r != SLASH then r + SLASH else r
  }

  lemma DotPath()
    ensures SplitPath(DOT) == [] && !IsAbs(DOT) && SplitPath([]) == []
  {
    SplitName(DOT);
    var one: seq<string> := [[]];
    assert [DOT][1..] == [] && one[1..] == [];
  }

  lemma ShownEmpty(abs: bool, ps: seq<string>)
    requires Clean(abs, ps)
    ensures Show(abs, ps) == [] <==> !abs && ps == []
  {
    if abs || ps != [] {
      ShowShape(abs, ps);
    }
  }

  /** A normalised path has the components of the path it came from, and is as absolute. */
  lemma NormalizeParts(s: string)
    ensures IsAbs(Normalize(s)) == IsAbs(s) && SplitPath(Normalize(s)) == SplitPath(s)
    ensures Normalize(s) != []
  {
    var abs, ps := IsAbs(s), SplitPath(s);
    SplitPathClean(s);
    ShownEmpty(abs, ps);
    var r := if Show(abs, ps) == [] then DOT else Show(abs, ps);
    if abs || ps != [] {
      ShowShape(abs, ps);
      ShowSplit(abs, ps);
    } else {
      DotPath();
    }
    TrailingSlash(r);
  }

  /** normalize writes the components with one slash between them, one in front of an absolute path, a
      dot for nothing at all, and keeps a slash at the end. */
  lemma NormalizeSpelling(s: string)
    ensures var n, ps := Normalize(s), SplitPath(s);
            && (ps == [] ==> n == (if IsAbs(s) then "/" else if |s| > 1 && s[|s| - 1] == '/' then "./" else "."))
            && (ps != [] ==> exists body ::
                  && n == (if IsAbs(s) then "/" else "") + body + (if s[|s| - 1] == '/' then "/" else "")
                  && Split(body) == ps)
  {
    var abs, ps := IsAbs(s), SplitPath(s);
    SplitPathClean(s);
    ShownEmpty(abs, ps);
    if ps != [] {
      ShowShape(abs, ps);
      assert forall p :: p in ps ==> '/' !in p;
      SplitJoined(ps);
      NonTrivial(s);
      assert Split(Joined(ps)) == ps;
    }
  }

  /** A path with components is not empty, and a single character of it is no slash. */
  lemma NonTrivial(s: string)
    requires SplitPath(s) != []
    ensures s != [] && (|s| == 1 ==> s[0] != '/')
  {
    DotPath();
    if s == SLASH {
      AbsSplit([]);
      assert SLASH + [] == SLASH;
      WalkOne(true, [], []);
    }
  }

  /** normalize is idempotent. */
  lemma NormalizeTwice(s: string)
    ensures Normalize(Normalize(s)) == Normalize(s)
  {
    var abs, ps := IsAbs(s), SplitPath(s);
    NormalizeParts(s);
    SplitPathClean(s);
    ShownEmpty(abs, ps);
    if abs || ps != [] {
      ShowShape(abs, ps);
    }
  }

  /* ---- resolve ---- */

  /** The string resolve's loop builds. */
  function Chain(result: string, vs: seq<string>): string
    decreases |vs|
  {
    if vs == [] then result
    else
      var v := vs[0];
      Chain(if IsAbs(v) then v else if v != [] then result + SLASH + v else result, vs[1..])
  }

  /** A path without its trailing slash. */
  function Stripped(n: string): string
  {
    if n != SLASH && n != [] && n[|n| - 1] == '/' then n[..|n| - 1] else n
  }

  lemma StrippedShown(shown: string, n: string)
    requires shown != [] && (shown[|shown| - 1] == '/' ==> shown == SLASH)
    requires n == shown || (n == shown + SLASH && shown != SLASH)
    ensures Stripped(n) == shown
  {
    if n != shown {
      assert n[..|n| - 1] == shown;
    }
  }

  function Resolve(cwd: string, vs: seq<string>): string
  {
    Stripped(Normalize(Chain(cwd, vs)))
  }

  lemma {:induction false} ChainAbs(result: string, vs: seq<string>)
    requires IsAbs(result)
    ensures IsAbs(Chain(result, vs))
    decreases |vs|
  {
    if vs != [] {
      var v := vs[0];
      ChainAbs(if IsAbs(v) then v else if v != [] then result + SLASH + v else result, vs[1..]);
    }
  }

  /** The components of a resolved path. */
  function Parts(cwd: string, vs: seq<string>): seq<string> { SplitPath(Chain(cwd, vs)) }

  /** From an absolute working directory, resolve spells clean components: no dots, no trailing slash. */
  lemma ResolveShape(cwd: string, vs: seq<string>)
    requires IsAbs(cwd)
    ensures Clean(true, Parts(cwd, vs)) && Resolve(cwd, vs) == Show(true, Parts(cwd, vs))
    ensures IsAbs(Resolve(cwd, vs)) && SplitPath(Resolve(cwd, vs)) == Parts(cwd, vs)
  {
    var c := Chain(cwd, vs);
    ChainAbs(cwd, vs);
    SplitPathClean(c);
    ShowShape(true, SplitPath(c));
    ShowSplit(true, SplitPath(c));
    StrippedShown(Show(true, SplitPath(c)), Normalize(c));
  }

  /** setCwd. */
  function SetCwd(cwd: string, v: string): string { Normalize(Resolve(cwd, [v])) }

  /** The working directory stays absolute, whatever it is set to. */
  lemma CwdStaysAbsolute(cwd: string, v: string)
    requires IsAbs(cwd)
    ensures IsAbs(SetCwd(cwd, v)) && SetCwd(cwd, v) == Resolve(cwd, [v])
  {
    ResolveShape(cwd, [v]);
    ShowShape(true, Parts(cwd, [v]));
    NormalizeParts(Resolve(cwd, [v]));
  }

  /** Under an absolute base, a relative path walks on from the base's components. */
  lemma PartsUnder(base: string, v: string)
    requires IsAbs(base) && !IsAbs(v)
    ensures SplitPath(base + SLASH + v) == Walk(true, SplitPath(base), Split(v))
  {
    SplitConcat(base, v);
    WalkAppend(true, [], Split(base), Split(v));
  }

  /** A relative path's own walk may be done first: what it leaves leads to the same place. */
  lemma {:induction false} WalkTwice(base: seq<string>, kept: seq<string>, ps: seq<string>)
    requires Clean(true, base) && Clean(false, kept) && forall p :: p in ps ==> '/' !in p
    ensures Walk(true, base, Walk(false, kept, ps)) == Walk(true, Walk(true, base, kept), ps)
    decreases |ps|
  {
    if ps != [] {
      var p, next := ps[0], Step(false, kept, ps[0]);
      assert p in ps;
      assert Clean(false, next);
      StepTwice(base, kept, p);
      WalkTwice(base, next, ps[1..]);
    }
  }

  lemma StepTwice(base: seq<string>, kept: seq<string>, p: string)
    requires Clean(true, base) && Clean(false, kept) && '/' !in p
    ensures Walk(true, base, Step(false, kept, p)) == Step(true, Walk(true, base, kept), p)
  {
    if Skipped(p) {
    } else if p == DOTDOT && |kept| > 0 && kept[|kept| - 1] != DOTDOT {
      var n := |kept| - 1;
      assert kept == kept[..n] + [kept[n]];
      WalkAppend(true, base, kept[..n], [kept[n]]);
      WalkOne(true, Walk(true, base, kept[..n]), kept[n]);
    } else {
      WalkAppend(true, base, kept, [p]);
      WalkOne(true, Walk(true, base, kept), p);
    }
  }

  lemma WalkOne(abs: bool, kept: seq<string>, p: string)
    ensures Walk(abs, kept, [p]) == Step(abs, kept, p)
  {
    assert [p][1..] == [];
  }

  lemma ChainOne(result: string, v: string)
    ensures Chain(result, [v]) == if IsAbs(v) then v else if v != [] then result + SLASH + v else result
  {
    assert [v][1..] == [];
  }

  /** Where a relative path leads: its own components, walked from those of the base. */
  lemma PartsRelative(base: string, v: string)
    requires IsAbs(base) && !IsAbs(v)
    ensures Parts(base, [v]) == Walk(true, SplitPath(base), SplitPath(v))
  {
    var kept: seq<string> := [];
    ChainOne(base, v);
    SplitPathClean(base);
    assert Walk(true, SplitPath(base), kept) == SplitPath(base);
    WalkTwice(SplitPath(base), kept, Split(v));
    if v != [] {
      PartsUnder(base, v);
    } else {
      DotPath();
    }
  }

  /** Normalising a path first does not change where it resolves to. */
  lemma ResolveNormalized(cwd: string, v: string)
    requires IsAbs(cwd)
    ensures Resolve(cwd, [Normalize(v)]) == Resolve(cwd, [v])
  {
    NormalizeParts(v);
    ResolveShape(cwd, [Normalize(v)]);
    ResolveShape(cwd, [v]);
    if IsAbs(v) {
      ChainOne(cwd, v);
      ChainOne(cwd, Normalize(v));
    } else {
      PartsRelative(cwd, v);
      PartsRelative(cwd, Normalize(v));
    }
  }

  /* ---- relative ---- */

  /** How many leading components two lists share. */
  function Common(a: seq<string>, b: seq<string>): (n: nat)
    ensures n <= |a| && n <= |b| && a[..n] == b[..n]
    ensures n < |a| && n < |b| ==> a[n] != b[n]
  {
    if a == [] || b == [] || a[0] != b[0] then 0
    else
      var n := Common(a[1..], b[1..]);
      assert a[..n + 1] == [a[0]] + a[1..][..n] && b[..n + 1] == [b[0]] + b[1..][..n];
      n + 1
  }

  function Ups(n: nat): (r: seq<string>)
    ensures |r| == n && forall i :: 0 <= i < n ==> r[i] == DOTDOT
  {
    seq(n, _ => DOTDOT)
  }

  /** relative's loop counts the shared components; what is left goes up, then down. */
  function Way(from: seq<string>, to: seq<string>): seq<string>
  {
    Ups(|from| - Common(from, to)) + to[Common(from, to)..]
  }

  /** The components relative takes of a resolved path. */
  function PartsOf(abs: string): seq<string> { if abs == SLASH then [] else SplitPath(abs) }

  function Relative(cwd: string, from: string, to: string): string
  {
    var a, b := Resolve(cwd, [from]), Resolve(cwd, [to]);
    if a == b then []
    else
      Normalize(Joined(Way(PartsOf(a), PartsOf(b))))
  }

  lemma {:induction false} WalkUp(base: seq<string>, n: nat)
    requires Clean(true, base) && n <= |base|
    ensures Walk(true, base, Ups(n)) == base[..|base| - n]
  {
    if n > 0 {
      assert Ups(n)[1..] == Ups(n - 1);
      assert Name(base[|base| - 1]);
      WalkUp(base[..|base| - 1], n - 1);
    }
  }

  lemma WayWalks(from: seq<string>, to: seq<string>)
    requires Clean(true, from) && Clean(true, to)
    ensures Walk(true, from, Way(from, to)) == to
    ensures Clean(false, Way(from, to)) && (Way(from, to) == [] <==> from == to)
  {
    var n := Common(from, to);
    WalkUp(from, |from| - n);
    WalkAppend(true, from, Ups(|from| - n), to[n..]);
    assert from[..n] + to[n..] == to;
    WalkKeeps(true, from[..n], to[n..]);
    UpsThenNames(|from| - n, to[n..]);
    WayEmpty(from, to);
  }

  lemma UpsThenNames(n: nat, names: seq<string>)
    requires Clean(true, names)
    ensures Clean(false, Ups(n) + names)
  {
  }

  lemma WayEmpty(from: seq<string>, to: seq<string>)
    ensures Way(from, to) == [] <==> from == to
  {
    var n := Common(from, to);
    if from == to {
      assert n == |from|;
    } else {
      assert n == |from| ==> from == from[..n];
      assert n == |to| ==> to == to[..n];
    }
  }

  lemma NormalizeClean(ps: seq<string>)
    requires Clean(false, ps) && ps != []
    ensures Normalize(Joined(ps)) == Joined(ps) && !IsAbs(Joined(ps)) && Joined(ps) != []
  {
    ShowShape(false, ps);
    ShowSplit(false, ps);
    assert Show(false, ps) == Joined(ps);
  }

  /** Following the relative path leads from one place to the other, for all strings. */
  lemma ResolveRelative(cwd: string, from: string, to: string)
    requires IsAbs(cwd)
    ensures Resolve(cwd, [from, Relative(cwd, from, to)]) == Resolve(cwd, [to])
  {
    var a, b, rel := Parts(cwd, [from]), Parts(cwd, [to]), Relative(cwd, from, to);
    ResolveShape(cwd, [from]);
    ResolveShape(cwd, [to]);
    ChainTwo(cwd, from, rel);
    ResolveShape(cwd, [from, rel]);
    if a != b {
      ShowSplit(true, a);
      ShowSplit(true, b);
      ShowShape(true, a);
      ShowShape(true, b);
      WayWalks(a, b);
      NormalizeClean(Way(a, b));
      ChainAbs(cwd, [from]);
      PartsUnder(Chain(cwd, [from]), rel);
      SplitJoined(Way(a, b));
    }
  }

  /** How far apart two component lists are: what they do not share at their ends. */
  function Apart(a: seq<string>, b: seq<string>): nat { |a| + |b| - 2 * Common(a, b) }

  lemma {:induction false} CommonPush(a: seq<string>, x: string, b: seq<string>)
    ensures Common(a + [x], b) == if Common(a, b) == |a| < |b| && b[|a|] == x then |a| + 1 else Common(a, b)
  {
    if a == [] {
      assert ([x])[1..] == [] && a + [x] == [x];
    } else if b != [] && a[0] == b[0] {
      CommonPush(a[1..], x, b[1..]);
      assert (a + [x])[1..] == a[1..] + [x] && (a + [x])[0] == a[0];
    } else {
      assert (a + [x])[0] == a[0];
    }
  }

  /** One component moves by one at most. */
  lemma StepMoves(a: seq<string>, p: string, b: seq<string>)
    ensures Apart(a, b) <= Apart(Step(true, a, p), b) + 1
  {
    var c := Step(true, a, p);
    if |c| > |a| {
      CommonPush(a, p, b);
    } else if |c| < |a| {
      CommonPush(c, a[|a| - 1], b);
      assert a == c + [a[|a| - 1]];
    }
  }

  lemma {:induction false} WalkMoves(a: seq<string>, w: seq<string>, b: seq<string>)
    ensures Apart(a, b) <= Apart(Walk(true, a, w), b) + |w|
    decreases |w|
  {
    if w != [] {
      StepMoves(a, w[0], b);
      WalkMoves(Step(true, a, w[0]), w[1..], b);
    }
  }

  lemma {:induction false} CommonSelf(a: seq<string>)
    ensures Common(a, a) == |a|
  {
    if a != [] {
      CommonSelf(a[1..]);
    }
  }

  /** No list of components that leads from one list to the other is shorter than the way. */
  lemma WayShortest(a: seq<string>, b: seq<string>, w: seq<string>)
    requires Walk(true, a, w) == b
    ensures |Way(a, b)| <= |w|
  {
    WalkMoves(a, w, b);
    CommonSelf(b);
  }

  /** The relative path between two places: nothing if they are one; else as many steps up as the first
      has components the second does not share, then the second's other components. */
  lemma RelativeIs(cwd: string, from: string, to: string)
    requires IsAbs(cwd)
    ensures var a, b, r := Parts(cwd, [from]), Parts(cwd, [to]), Relative(cwd, from, to);
            if a == b then r == ""
            else exists n: nat ::
              && n <= |a| && n <= |b| && a[..n] == b[..n] && (n < |a| && n < |b| ==> a[n] != b[n])
              && Split(r) == seq(|a| - n, _ => "..") + b[n..]
  {
    var a, b, r := Parts(cwd, [from]), Parts(cwd, [to]), Relative(cwd, from, to);
    ResolveShape(cwd, [from]);
    ResolveShape(cwd, [to]);
    if a == b {
      assert r == "";
    } else {
      ShowSplit(true, a);
      ShowSplit(true, b);
      ShowShape(true, a);
      ShowShape(true, b);
      assert r == Normalize(Joined(Way(a, b)));
      WayWalks(a, b);
      NormalizeClean(Way(a, b));
      SplitJoined(Way(a, b));
      var n := Common(a, b);
      assert Way(a, b) == seq(|a| - n, _ => "..") + b[n..];
    }
  }

  /** Resolving a list of paths is resolving them one after the other. */
  lemma ResolveInTurn(cwd: string, vs: seq<string>, v: string)
    requires IsAbs(cwd)
    ensures Resolve(cwd, vs + [v]) == Resolve(Resolve(cwd, vs), [v])
    ensures IsAbs(v) ==> Resolve(cwd, vs + [v]) == Resolve("/", [v])
    ensures vs == [] && v == "" ==> SplitPath(Resolve(cwd, [v])) == SplitPath(cwd)
  {
    var c, r := Chain(cwd, vs), Resolve(cwd, vs);
    ChainAbs(cwd, vs);
    ResolveShape(cwd, vs);
    ResolveShape(cwd, vs + [v]);
    ResolveShape(r, [v]);
    ChainSnoc(cwd, vs, v);
    ChainOne(r, v);
    ChainOne(c, v);
    ChainOne("/", v);
    if !IsAbs(v) {
      PartsRelative(r, v);
      PartsRelative(c, v);
    } else {
      ResolveShape("/", [v]);
    }
    if vs == [] && v == "" {
      ResolveShape(cwd, [v]);
      assert vs + [v] == [v];
    }
  }

  lemma {:induction false} ChainSnoc(result: string, vs: seq<string>, v: string)
    ensures Chain(result, vs + [v]) == Chain(Chain(result, vs), [v])
    decreases |vs|
  {
    if vs == [] {
      assert vs + [v] == [v];
    } else {
      var x := vs[0];
      ChainSnoc(if IsAbs(x) then x else if x != [] then result + SLASH + x else result, vs[1..], v);
      assert (vs + [v])[1..] == vs[1..] + [v];
    }
  }

  lemma ChainTwo(cwd: string, v: string, w: string)
    ensures Chain(cwd, [v, w]) == Chain(Chain(cwd, [v]), [w])
    ensures Chain(cwd, [w]) == if IsAbs(w) then w else if w != [] then cwd + SLASH + w else cwd
    ensures Chain(Chain(cwd, [v]), [w]) ==
            if IsAbs(w) then w else if w != [] then Chain(cwd, [v]) + SLASH + w else Chain(cwd, [v])
  {
    assert [v, w][1..] == [w] && [v][1..] == [] && [w][1..] == [];
  }

  /* ---- join ---- */

  function NonEmpty(vs: seq<string>): (r: seq<string>)
    ensures forall p :: p in r ==> p != []
  {
    if vs == [] then [] else (if vs[0] == [] then [] else [vs[0]]) + NonEmpty(vs[1..])
  }

  function Join(vs: seq<string>): string { if vs == [] then DOT else Normalize(Joined(NonEmpty(vs))) }

  /** Joining a relative path to another and resolving the result is resolving the two in turn. */
  lemma ResolveJoined(cwd: string, a: string, b: string)
    requires IsAbs(cwd) && !IsAbs(b)
    ensures Resolve(cwd, [Join([a, b])]) == Resolve(cwd, [a, b])
  {
    var both := if a == [] then b else if b == [] then a else a + SLASH + b;
    assert [a, b][1..] == [b] && [b][1..] == [];
    assert NonEmpty([b]) == if b == [] then [] else [b];
    assert Joined(NonEmpty([a, b])) == both;
    ResolveNormalized(cwd, both);
    ResolveShape(cwd, [both]);
    ResolveShape(cwd, [a, b]);
    ChainTwo(cwd, a, b);
    ChainOne(cwd, a);
    ChainOne(cwd, both);
    if a != [] && b != [] && !IsAbs(a) {
      Grouped(cwd, a, b);
    }
  }

  lemma Grouped(c: string, a: string, b: string)
    ensures c + SLASH + (a + SLASH + b) == c + SLASH + a + SLASH + b
  {
  }

  /* ---- the loops ---- */

  /** splitPath. */
  method SplitLoop(value: string) returns (kept: seq<string>)
    ensures kept == SplitPath(value)
  {
    kept := [];
    var abs := IsAbs(value);
    var ps := Split(value);
    var i := 0;
    while i < |ps|
      invariant 0 <= i <= |ps|
      invariant Walk(abs, kept, ps[i..]) == SplitPath(value)
    {
      var part := ps[i];
      assert ps[i..][0] == part && ps[i..][1..] == ps[i + 1..];
      i := i + 1;
      if part == [] || part == DOT {
        continue;
      }
      if part == DOTDOT {
        if |kept| > 0 && kept[|kept| - 1] != DOTDOT {
          kept := kept[..|kept| - 1];
        } else if !abs {
          kept := kept + [DOTDOT];
        }
      } else {
        kept := kept + [part];
      }
    }
  }

  /** resolve. */
  method ResolveLoop(cwd: string, values: seq<string>) returns (r: string)
    ensures r == Resolve(cwd, values)
  {
    var result := cwd;
    var i := 0;
    while i < |values|
      invariant 0 <= i <= |values|
      invariant Chain(result, values[i..]) == Chain(cwd, values)
    {
      assert values[i..][1..] == values[i + 1..];
      if IsAbs(values[i]) {
        result := values[i];
      } else if values[i] != [] {
        result := result + SLASH + values[i];
      }
      i := i + 1;
    }
    r := Normalize(result);
    if r != SLASH && r != [] && r[|r| - 1] == '/' {
      r := r[..|r| - 1];
    }
  }

  method CountCommon(a: seq<string>, b: seq<string>) returns (n: nat)
    ensures n == Common(a, b)
  {
    n := 0;
    while n < |a| && n < |b| && a[n] == b[n]
      invariant n <= |a| && n <= |b|
      invariant Common(a, b) == n + Common(a[n..], b[n..])
    {
      assert a[n..][1..] == a[n + 1..] && b[n..][1..] == b[n + 1..];
      n := n + 1;
    }
  }

  /** relative. */
  method RelativeLoop(cwd: string, from: string, to: string) returns (r: string)
    ensures r == Relative(cwd, from, to)
  {
    var a := ResolveLoop(cwd, [from]);
    var b := ResolveLoop(cwd, [to]);
    if a == b {
      return [];
    }
    var fromParts := ResolvedParts(a);
    var toParts := ResolvedParts(b);
    var common := CountCommon(fromParts, toParts);
    r := Normalize(Joined(Ups(|fromParts| - common) + toParts[common..]));
  }

  method ResolvedParts(abs: string) returns (parts: seq<string>)
    ensures parts == PartsOf(abs)
  {
    parts := [];
    if abs != SLASH {
      parts := SplitLoop(abs);
    }
  }
}
