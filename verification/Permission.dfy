/** permission.js: paths are admitted only under configured roots. */
module Permission {
  import opened Wrappers
  import opened PosixPath

  datatype Permission = Permission(roots: seq<string>)

  /** The constructor: every configured root is resolved. */
  function Make(cwd: string, configured: seq<string>): (p: Permission)
    ensures |p.roots| == |configured|
    ensures forall i :: 0 <= i < |configured| ==> p.roots[i] == Resolve(cwd, [configured[i]])
  {
    Permission(seq(|configured|, i requires 0 <= i < |configured| => Resolve(cwd, [configured[i]])))
  }

  /** The test resolvePath puts to one root. */
  predicate Under(absolute: string, root: string) { absolute == root || root + SLASH <= absolute }

  /** resolvePath: the resolved path, or a refusal. */
  function ResolvePath(p: Permission, cwd: string, target: string, base: string): Option<string>
  {
    var absolute := Resolve(cwd, [if base == [] then SLASH else base, target]);
    if p.roots == [] || exists i :: 0 <= i < |p.roots| && Under(absolute, p.roots[i]) then Some(absolute) else None
  }

  predicate Prefix(rs: seq<string>, ps: seq<string>) { |rs| <= |ps| && ps[..|rs|] == rs }

  lemma PrefixJoined(rs: seq<string>, ds: seq<string>)
    requires rs != [] && ds != []
    ensures Show(true, rs) + SLASH <= Show(true, rs + ds)
  {
    JoinedAppend(rs, ds);
    var a, z := Show(true, rs) + SLASH, Joined(ds);
    assert Show(true, rs + ds) == a + z;
  }

  lemma JoinedPrefix(rs: seq<string>, ps: seq<string>)
    requires Clean(true, rs) && Clean(true, ps) && rs != [] && Show(true, rs) + SLASH <= Show(true, ps)
    ensures Prefix(rs, ps)
  {
    var a, s := Show(true, rs), Show(true, ps);
    var t := s[|a| + 1..];
    assert s == a + SLASH + t;
    SplitConcat(a, t);
    ShowShape(true, rs);
    ShowShape(true, ps);
    assert |s| >= 2;
    Components(rs);
    Components(ps);
    DropFirst(rs, Split(t), ps);
  }

  lemma DropFirst(rs: seq<string>, ts: seq<string>, ps: seq<string>)
    requires [[]] + ps == ([[]] + rs) + ts
    ensures ps == rs + ts
  {
    assert ps == ([[]] + ps)[1..];
    assert (([[]] + rs) + ts)[1..] == rs + ts;
  }

  lemma Components(ps: seq<string>)
    requires Clean(true, ps) && ps != []
    ensures Split(Show(true, ps)) == [[]] + ps
  {
    SplitJoined(ps);
    SplitConcat([], Joined(ps));
    assert [] + SLASH + Joined(ps) == Show(true, ps);
    SplitName([]);
  }

  /** Under compares whole components, except that the root directory has nothing under it but
      itself: its test asks for two slashes at the front. */
  lemma UnderIff(rs: seq<string>, ps: seq<string>)
    requires Clean(true, rs) && Clean(true, ps)
    ensures Under(Show(true, ps), Show(true, rs)) <==> Prefix(rs, ps) && (rs == [] ==> ps == [])
  {
    ShowShape(true, rs);
    ShowShape(true, ps);
    ShowSplit(true, rs);
    ShowSplit(true, ps);
    if rs == [] {
      if ps != [] {
        JoinedStart(ps);
        assert Name(ps[0]) && ps[0][0] in ps[0];
        assert Show(true, ps)[1] == ps[0][0];
      }
    } else if Show(true, ps) != Show(true, rs) {
      if Prefix(rs, ps) {
        assert ps == rs + ps[|rs|..];
        assert rs + [] == rs;
        PrefixJoined(rs, ps[|rs|..]);
      }
      if Show(true, rs) + SLASH <= Show(true, ps) {
        JoinedPrefix(rs, ps);
      }
    }
  }

  /** Every path returned is clean components. With no roots configured every path is admitted; with
      some, exactly those that have one of them, component by component, at the front, where "/" is at
      the front of itself only. The roots were resolved under the working directory of the time. */
  lemma ResolvePathIff(before: string, configured: seq<string>, cwd: string, target: string, base: string)
    requires IsAbs(before) && IsAbs(cwd)
    ensures var p := Make(before, configured);
            var ps := Parts(cwd, [if base == [] then SLASH else base, target]);
            var r := ResolvePath(p, cwd, target, base);
            && Clean(true, ps)
            && (r.Some? ==> r.value == Show(true, ps))
            && (r.Some? <==> configured == [] || exists i :: 0 <= i < |configured| &&
                                                   var rs := Parts(before, [configured[i]]);
                                                   Prefix(rs, ps) && (rs == [] ==> ps == []))
  {
    var p := Make(before, configured);
    var vs := [if base == [] then SLASH else base, target];
    ResolveShape(cwd, vs);
    forall i | 0 <= i < |configured|
      ensures var rs := Parts(before, [configured[i]]);
              Under(Resolve(cwd, vs), p.roots[i]) <==> Prefix(rs, Parts(cwd, vs)) && (rs == [] ==> Parts(cwd, vs) == [])
    {
      ResolveShape(before, [configured[i]]);
      UnderIff(Parts(before, [configured[i]]), Parts(cwd, vs));
    }
  }

  /** The loop over the roots. */
  method Check(p: Permission, cwd: string, target: string, base: string) returns (r: Option<string>)
    ensures r == ResolvePath(p, cwd, target, base)
  {
    var absolute := ResolveLoop(cwd, [if base == [] then SLASH else base, target]);
    if |p.roots| == 0 {
      return Some(absolute);
    }
    var i := 0;
    while i < |p.roots|
      invariant 0 <= i <= |p.roots|
      invariant forall j :: 0 <= j < i ==> !Under(absolute, p.roots[j])
    {
      if absolute == p.roots[i] || p.roots[i] + SLASH <= absolute {
        return Some(absolute);
      }
      i := i + 1;
    }
    return None;
  }
}
