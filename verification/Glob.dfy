/**
 The cgroup path matcher of src/agent/cgroup_match.c: the one-star backtracking segment
 matcher, the segment-wise matcher over it, and the id sets it fills.
 */
module Glob {
  import opened Sequences

  // ---- one segment ----------------------------------------------------------

  /** The glob relation: `*` spans any run of characters, `?` one, the rest themselves. */
  ghost predicate Globs(pat: string, seg: string)
    decreases |pat|
  {
    if pat == "" then seg == ""
    else if pat[0] == '*' then exists k :: 0 <= k <= |seg| && Globs(pat[1..], seg[k..])
    else seg != "" && (pat[0] == '?' || pat[0] == seg[0]) && Globs(pat[1..], seg[1..])
  }

  /** The relation the matcher decides: a star that faces a literal `*` is that `*`. */
  ghost predicate Matches(pat: string, seg: string)
    decreases |pat|
  {
    if pat == "" then seg == ""
    else if seg != "" && (pat[0] == '?' || pat[0] == seg[0]) then Matches(pat[1..], seg[1..])
    else pat[0] == '*' && exists k :: 0 <= k <= |seg| && Matches(pat[1..], seg[k..])
  }

  /** `Matches` from position `p` of the pattern and `s` of the segment. */
  ghost predicate At(pat: string, seg: string, p: int, s: int)
  {
    0 <= p <= |pat| && 0 <= s <= |seg| && Matches(pat[p..], seg[s..])
  }

  predicate Fits(pat: string, seg: string, p: int, s: int)
    requires 0 <= p < |pat| && 0 <= s < |seg|
  {
    pat[p] == '?' || pat[p] == seg[s]
  }

  lemma AtStep(pat: string, seg: string, p: int, s: int)
    requires 0 <= p < |pat| && 0 <= s < |seg| && Fits(pat, seg, p, s)
    ensures At(pat, seg, p, s) == At(pat, seg, p + 1, s + 1)
  {
    assert pat[p..][1..] == pat[p + 1..] && seg[s..][1..] == seg[s + 1..];
  }

  /** `Matches` from position `p` of the pattern and some position of the segment from `s` on. */
  ghost predicate FromOn(pat: string, seg: string, p: int, s: int)
  {
    exists k :: s <= k <= |seg| && At(pat, seg, p, k)
  }

  lemma AtStar(pat: string, seg: string, p: int, s: int)
    requires 0 <= p < |pat| && 0 <= s <= |seg| && pat[p] == '*' && (s < |seg| ==> !Fits(pat, seg, p, s))
    ensures At(pat, seg, p, s) <==> FromOn(pat, seg, p + 1, s)
  {
    assert pat[p..][1..] == pat[p + 1..];
    if At(pat, seg, p, s) {
      var j :| 0 <= j <= |seg[s..]| && Matches(pat[p + 1..], seg[s..][j..]);
      assert seg[s..][j..] == seg[s + j..];
      assert At(pat, seg, p + 1, s + j);
    }
    if FromOn(pat, seg, p + 1, s) {
      var k :| s <= k <= |seg| && At(pat, seg, p + 1, k);
      assert seg[s..][k - s..] == seg[k..];
      assert Matches(pat[p..][1..], seg[s..][k - s..]);
    }
  }

  lemma AtStuck(pat: string, seg: string, p: int, s: int)
    requires 0 <= p <= |pat| && 0 <= s < |seg|
    requires p == |pat| || (!Fits(pat, seg, p, s) && pat[p] != '*')
    ensures !At(pat, seg, p, s)
  {
  }

  lemma AtEnd(pat: string, seg: string, p: int)
    requires 0 <= p <= |pat|
    ensures At(pat, seg, p, |seg|) <==> p == |pat| || (pat[p] == '*' && At(pat, seg, p + 1, |seg|))
  {
    if p < |pat| && pat[p] == '*' {
      AtStar(pat, seg, p, |seg|);
    }
  }

  predicate FitsAt(pat: string, seg: string, i: int, d: int)
  {
    0 <= i < |pat| && 0 <= i + d < |seg| && Fits(pat, seg, i, i + d)
  }

  /** The pattern from `a` to `p` fits the segment character by character, `d` further on. */
  ghost predicate Aligned(pat: string, seg: string, a: int, p: int, d: int)
  {
    forall i :: a <= i < p ==> FitsAt(pat, seg, i, d)
  }

  /** A match that starts no earlier than the alignment gets to `p` no earlier. */
  lemma {:induction false} NoEarlier(pat: string, seg: string, a: int, p: int, d: int, x: int) returns (y: int)
    requires Aligned(pat, seg, a, p, d) && 0 <= a <= p <= |pat| && a + d <= x && At(pat, seg, a, x)
    ensures p + d <= y <= |seg| && At(pat, seg, p, y)
    decreases p - a
  {
    if a == p {
      y := x;
    } else {
      assert FitsAt(pat, seg, a, d);
      if x < |seg| && Fits(pat, seg, a, x) {
        AtStep(pat, seg, a, x);
        y := NoEarlier(pat, seg, a + 1, p, d, x + 1);
      } else {
        var k := StarGoesOn(pat, seg, a, x);
        y := NoEarlier(pat, seg, a + 1, p, d, k);
      }
    }
  }

  lemma StarGoesOn(pat: string, seg: string, a: int, x: int) returns (k: int)
    requires 0 <= a < |pat| && At(pat, seg, a, x) && (x < |seg| ==> !Fits(pat, seg, a, x))
    ensures x <= k <= |seg| && At(pat, seg, a + 1, k) && pat[a] == '*'
  {
    AtStar(pat, seg, a, x);
    k :| x <= k <= |seg| && At(pat, seg, a + 1, k);
  }

  /** Once a star is reached, the alternatives of the star before it are not needed. */
  lemma Commits(pat: string, seg: string, a: int, p: int, d: int)
    requires Aligned(pat, seg, a, p, d) && 0 <= a <= p < |pat| && 0 <= p + d <= |seg| && pat[p] == '*'
    requires FromOn(pat, seg, a, a + d)
    ensures FromOn(pat, seg, p + 1, p + d)
  {
    var x :| a + d <= x <= |seg| && At(pat, seg, a, x);
    var y := NoEarlier(pat, seg, a, p, d, x);
    if y < |seg| && Fits(pat, seg, p, y) {
      AtStep(pat, seg, p, y);
      assert At(pat, seg, p + 1, y + 1);
    } else {
      AtStar(pat, seg, p, y);
      var k :| y <= k <= |seg| && At(pat, seg, p + 1, k);
      assert At(pat, seg, p + 1, k);
    }
  }

  /** What is left to try: the present alignment, or the last star takes one more. */
  ghost predicate Alternatives(pat: string, seg: string, p: int, s: int, starP: int, starS: int)
  {
    At(pat, seg, p, s) || (starP >= 0 && FromOn(pat, seg, starP + 1, starS + 1))
  }

  lemma FromOnStep(pat: string, seg: string, p: int, s: int)
    requires s <= |seg|
    ensures FromOn(pat, seg, p, s) <==> At(pat, seg, p, s) || FromOn(pat, seg, p, s + 1)
  {
    if At(pat, seg, p, s) { assert s <= s <= |seg|; }
  }

  /** seg_match decides the relation for every pattern and every segment. */
  method SegMatch(pat: string, seg: string) returns (b: bool)
    ensures b == Matches(pat, seg)
  {
    hide Matches, At, FromOn;
    var p, s, starP, starS := 0, 0, -1, 0;
    Whole(pat, seg);
    while s < |seg|
      invariant 0 <= p <= |pat| && 0 <= s <= |seg| && 0 <= starS <= s
      invariant starP >= 0 ==> starP < p && pat[starP] == '*' && s - p == starS - (starP + 1)
      invariant starP >= 0 ==> Aligned(pat, seg, starP + 1, p, s - p)
      invariant Matches(pat, seg) == Alternatives(pat, seg, p, s, starP, starS)
      decreases |seg| - starS, |pat| - p
    {
      if p < |pat| && (pat[p] == '?' || pat[p] == seg[s]) {
        AtStep(pat, seg, p, s);
        p, s := p + 1, s + 1;
      } else if p < |pat| && pat[p] == '*' {
        AtStar(pat, seg, p, s);
        FromOnStep(pat, seg, p + 1, s);
        if starP >= 0 && FromOn(pat, seg, starP + 1, starS + 1) {
          FromOnStep(pat, seg, starP + 1, starS);
          Commits(pat, seg, starP + 1, p, s - p);
        }
        starP, starS := p, s;
        p := p + 1;
      } else if starP >= 0 {
        AtStuck(pat, seg, p, s);
        FromOnStep(pat, seg, starP + 1, starS + 1);
        p := starP + 1;
        starS := starS + 1;
        s := starS;
      } else {
        AtStuck(pat, seg, p, s);
        return false;
      }
    }
    if starP >= 0 && FromOn(pat, seg, starP + 1, starS + 1) { Arrives(pat, seg, starP + 1, p, s - p); }
    while p < |pat| && pat[p] == '*'
      invariant 0 <= p <= |pat| && Matches(pat, seg) == At(pat, seg, p, |seg|)
    {
      AtEnd(pat, seg, p);
      p := p + 1;
    }
    AtEnd(pat, seg, p);
    b := p == |pat|;
  }

  lemma Whole(pat: string, seg: string)
    ensures Matches(pat, seg) == At(pat, seg, 0, 0)
  {
    assert pat[0..] == pat && seg[0..] == seg;
  }

  /** At the end of the segment a later alignment would arrive where this one is. */
  lemma Arrives(pat: string, seg: string, a: int, p: int, d: int)
    requires Aligned(pat, seg, a, p, d) && 0 <= a <= p <= |pat| && p + d == |seg| && FromOn(pat, seg, a, a + d + 1)
    ensures At(pat, seg, p, |seg|)
  {
    var x :| a + d + 1 <= x <= |seg| && At(pat, seg, a, x);
    var y := NoEarlier(pat, seg, a, p, d, x);
  }

  /** No segment is matched that the glob relation excludes; and when the segment has no
      literal `*`, or the pattern no star, the two relations are the same. */
  lemma {:induction false} MatchesIsGlob(pat: string, seg: string)
    ensures Matches(pat, seg) ==> Globs(pat, seg)
    ensures '*' !in seg || '*' !in pat ==> (Matches(pat, seg) <==> Globs(pat, seg))
    decreases |pat|
  {
    if pat != "" {
      if seg != "" { MatchesIsGlob(pat[1..], seg[1..]); }
      if pat[0] == '*' { MatchesIsGlobStar(pat, seg); }
    }
  }

  lemma {:induction false} MatchesIsGlobStar(pat: string, seg: string)
    requires pat != "" && pat[0] == '*'
    ensures Matches(pat, seg) ==> Globs(pat, seg)
    ensures '*' !in seg ==> (Matches(pat, seg) <==> Globs(pat, seg))
    decreases |pat|, 0
  {
    forall k | 0 <= k <= |seg|
      ensures Matches(pat[1..], seg[k..]) ==> Globs(pat[1..], seg[k..])
      ensures '*' !in seg ==> (Matches(pat[1..], seg[k..]) <==> Globs(pat[1..], seg[k..]))
    {
      MatchesIsGlob(pat[1..], seg[k..]);
    }
  }

  // ---- exactly when the two relations are the same --------------------------

  /** Without a star, lengths have to agree. */
  lemma {:induction false} PlainLength(pat: string, seg: string)
    requires '*' !in pat && Matches(pat, seg)
    ensures |pat| == |seg|
    decreases |pat|
  {
    if pat != "" { PlainLength(pat[1..], seg[1..]); }
  }

  lemma {:induction false} GlobsItself(pat: string)
    requires '*' !in pat
    ensures Globs(pat, pat)
  {
    if pat != "" { GlobsItself(pat[1..]); }
  }

  /** The pattern as a segment, with one character more behind its last star. */
  function Grown(pat: string): string
    requires '*' in pat
  {
    if pat[0] == '*' && '*' !in pat[1..] then "*x" + pat[1..] else [pat[0]] + Grown(pat[1..])
  }

  lemma {:induction false} GrownIsMissed(pat: string)
    requires '*' in pat
    ensures Globs(pat, Grown(pat)) && !Matches(pat, Grown(pat))
    decreases |pat|
  {
    var seg := Grown(pat);
    if pat[0] == '*' && '*' !in pat[1..] {
      GlobsItself(pat[1..]);
      assert seg[2..] == pat[1..] && Globs(pat[1..], seg[2..]);
      if Matches(pat[1..], seg[1..]) { PlainLength(pat[1..], seg[1..]); }
    } else {
      GrownIsMissed(pat[1..]);
      assert seg[1..] == Grown(pat[1..]);
      assert Globs(pat[1..], seg[1..]);
    }
  }

  function Questions(n: nat): string { if n == 0 then "" else "?" + Questions(n - 1) }

  lemma {:induction false} QuestionsGlob(seg: string)
    ensures '*' !in Questions(|seg|) && |Questions(|seg|)| == |seg| && Globs(Questions(|seg|), seg)
    decreases |seg|
  {
    if seg != "" {
      QuestionsGlob(seg[1..]);
      assert Questions(|seg|)[1..] == Questions(|seg| - 1);
    }
  }

  /** A pattern whose star has to stand for nothing in front of the first literal `*`. */
  function Shy(seg: string): string
    requires '*' in seg
  {
    if seg[0] == '*' then "*" + Questions(|seg|) else [seg[0]] + Shy(seg[1..])
  }

  lemma {:induction false} ShyIsMissed(seg: string)
    requires '*' in seg
    ensures Globs(Shy(seg), seg) && !Matches(Shy(seg), seg)
    decreases |seg|
  {
    var pat := Shy(seg);
    if seg[0] == '*' {
      QuestionsGlob(seg);
      assert pat[1..] == Questions(|seg|) && seg[0..] == seg && Globs(pat[1..], seg[0..]);
      if Matches(pat[1..], seg[1..]) { PlainLength(pat[1..], seg[1..]); }
    } else {
      ShyIsMissed(seg[1..]);
      assert pat[1..] == Shy(seg[1..]);
    }
  }

  /** A pattern is matched as a glob by every segment exactly when it has no star, and a
      segment matches every pattern as a glob exactly when it has no literal one. */
  lemma MatchesIsGlobIff(x: string)
    ensures (forall seg :: Matches(x, seg) <==> Globs(x, seg)) <==> '*' !in x
    ensures (forall pat :: Matches(pat, x) <==> Globs(pat, x)) <==> '*' !in x
  {
    if '*' in x {
      GrownIsMissed(x);
      ShyIsMissed(x);
    } else {
      forall y ensures (Matches(x, y) <==> Globs(x, y)) && (Matches(y, x) <==> Globs(y, x)) {
        MatchesIsGlob(x, y);
        MatchesIsGlob(y, x);
      }
    }
  }

  /** A literal `*` in the segment can hide a match. */
  lemma LiteralStarIsMissed()
    ensures Globs("*", "*a") && !Matches("*", "*a")
  {
    var pat, seg := "*", "*a";
    assert pat[1..] == "" && seg[2..] == "" && Globs(pat[1..], seg[2..]);
    assert seg[1..] == "a";
  }

  // ---- paths ----------------------------------------------------------------

  /** The end of the first segment of a string (strchrnul). */
  function Slash(s: string): (i: nat)
    ensures i <= |s| && '/' !in s[..i] && (i < |s| ==> s[i] == '/')
  {
    if s == "" || s[0] == '/' then 0 else 1 + Slash(s[1..])
  }

  /** What follows the first segment and its slash. */
  function Rest(s: string): (r: string)
    ensures |r| <= |s| && (s != "" ==> |r| < |s|)
  {
    if Slash(s) < |s| then s[Slash(s) + 1..] else ""
  }

  /** glob_rec. */
  ghost predicate GlobRec(pat: string, path: string)
    decreases |pat|, 0, |path|
  {
    if pat[..Slash(pat)] == "**" then Rest(pat) == "" || TryFrom(Rest(pat), path)
    else
      && path != "" && Matches(pat[..Slash(pat)], path[..Slash(path)])
      && (if Rest(pat) == "" || Rest(path) == "" then Rest(pat) == Rest(path) else GlobRec(Rest(pat), Rest(path)))
  }

  /** The scan of glob_rec: the pattern at this or a later segment of the path. */
  ghost predicate TryFrom(pat: string, path: string)
    decreases |pat|, 1, |path|
  {
    GlobRec(pat, path) || (Slash(path) < |path| && TryFrom(pat, Rest(path)))
  }

  /** glob_rec as it runs. */
  method RunGlobRec(pat: string, path: string) returns (b: bool)
    ensures b == GlobRec(pat, path)
    decreases |pat|
  {
    hide Matches;
    var plen := Slash(pat);
    var pnext := Rest(pat);
    if pat[..plen] == "**" {
      if pnext == "" { return true; }
      var p := path;
      while true
        invariant TryFrom(pnext, p) == TryFrom(pnext, path)
        decreases |p|
      {
        var hit := RunGlobRec(pnext, p);
        if hit { return true; }
        if Slash(p) == |p| { return false; }
        p := Rest(p);
      }
    }
    if path == "" { return false; }
    var m := SegMatch(pat[..plen], path[..Slash(path)]);
    if !m { return false; }
    var snext := Rest(path);
    if pnext == "" && snext == "" { return true; }
    if pnext == "" || snext == "" { return false; }
    b := RunGlobRec(pnext, snext);
  }

  /** A string without its leading slashes. */
  function Stripped(s: string): (r: string)
    ensures r == "" || r[0] != '/'
  {
    if s != "" && s[0] == '/' then Stripped(s[1..]) else s
  }

  /** cg_glob_match. */
  ghost predicate GlobMatch(pattern: string, path: string)
  {
    if Stripped(pattern) == "" then Stripped(path) == "" else GlobRec(Stripped(pattern), Stripped(path))
  }

  method Strip(s: string) returns (r: string)
    ensures r == Stripped(s)
  {
    r := s;
    while r != "" && r[0] == '/'
      invariant Stripped(r) == Stripped(s)
      decreases |r|
    {
      r := r[1..];
    }
  }

  method RunGlobMatch(pattern: string, path: string) returns (b: bool)
    ensures b == GlobMatch(pattern, path)
  {
    var pat := Strip(pattern);
    var p := Strip(path);
    if pat == "" { return p == ""; }
    b := RunGlobRec(pat, p);
  }

  // ---- what the path matcher means ------------------------------------------

  predicate Segment(s: string) { s != "" && '/' !in s }

  ghost predicate Segments(ss: seq<string>) { forall i :: 0 <= i < |ss| ==> Segment(ss[i]) }

  function Join(ss: seq<string>): string
  {
    if ss == [] then "" else if |ss| == 1 then ss[0] else ss[0] + "/" + Join(ss[1..])
  }

  /** A part of the path for every pattern segment, in order: one matching segment for an
      ordinary one, any number of segments for `**`; but the path does not end with an
      ordinary pattern segment unless the pattern does, so a `**` at the end behind an
      ordinary segment takes at least one. */
  ghost predicate Covers(ps: seq<string>, ss: seq<string>, parts: seq<seq<string>>)
    decreases |ps|
  {
    |parts| == |ps| &&
    if ps == [] then ss == []
    else
      && parts[0] <= ss
      && (ps[0] == "**" || (|parts[0]| == 1 && Matches(ps[0], parts[0][0])))
      && (ps[0] != "**" && |ps| > 1 ==> |ss| > 1)
      && Covers(ps[1..], ss[|parts[0]|..], parts[1..])
  }

  ghost predicate Covered(ps: seq<string>, ss: seq<string>) { exists parts :: Covers(ps, ss, parts) }

  lemma {:induction false} SlashAfter(a: string, b: string)
    requires '/' !in a && (b == "" || b[0] == '/')
    ensures Slash(a + b) == |a|
  {
    if a != "" {
      assert (a + b)[1..] == a[1..] + b && (a + b)[0] == a[0];
      SlashAfter(a[1..], b);
    } else {
      assert a + b == b;
    }
  }

  lemma JoinStep(ss: seq<string>)
    requires ss != []
    ensures Join(ss) == ss[0] + if |ss| == 1 then "" else "/" + Join(ss[1..])
  {
    if |ss| > 1 { Regroup(ss[0], "/", Join(ss[1..])); }
  }

  lemma Regroup(a: string, b: string, c: string)
    ensures (a + b) + c == a + (b + c)
  {
  }

  lemma JoinSome(ss: seq<string>)
    requires Segments(ss)
    ensures Join(ss) == "" <==> ss == []
  {
    hide Join;
    if ss != [] {
      assert Segment(ss[0]);
      JoinStep(ss);
    } else {
      JoinNone();
    }
  }

  lemma JoinNone()
    ensures Join([]) == ""
  {
  }

  lemma TailSegments(ss: seq<string>, k: nat)
    requires Segments(ss) && k <= |ss|
    ensures Segments(ss[k..])
  {
    assert forall i :: 0 <= i < |ss| - k ==> ss[k..][i] == ss[i + k];
  }

  /** The first segment of a joined path, and the rest. */
  lemma JoinParts(ss: seq<string>)
    requires Segments(ss) && ss != []
    ensures var s := Join(ss);
            && Slash(s) == |ss[0]| && s[..Slash(s)] == ss[0] && Rest(s) == Join(ss[1..])
            && (Slash(s) < |s| <==> |ss| > 1) && Segments(ss[1..])
  {
    hide Join, Slash;
    var s := Join(ss);
    assert Segment(ss[0]);
    JoinStep(ss);
    JoinNone();
    TailSegments(ss, 1);
    var tail := if |ss| == 1 then "" else "/" + Join(ss[1..]);
    SlashAfter(ss[0], tail);
    if |ss| > 1 { Behind(ss[0], '/', Join(ss[1..])); }
  }

  lemma Behind(a: string, c: char, b: string)
    ensures (a + ([c] + b))[..|a|] == a && (a + ([c] + b))[|a| + 1..] == b
  {
  }

  /** The same scan over lists of segments. */
  ghost predicate OnSegments(ps: seq<string>, ss: seq<string>)
    decreases |ps|
  {
    if ps == [] then ss == []
    else if ps[0] == "**" then |ps| == 1 || exists k :: 0 <= k <= |ss| && OnSegments(ps[1..], ss[k..])
    else
      && ss != [] && Matches(ps[0], ss[0])
      && (|ps| > 1 ==> |ss| > 1)
      && OnSegments(ps[1..], ss[1..])
  }

  /** Matching nothing: only a pattern of `**` alone does. */
  lemma {:induction false} OnNothing(ps: seq<string>)
    ensures OnSegments(ps, []) ==> forall ss :: ps == [] || OnSegments(ps, ss)
    decreases |ps|
  {
    if ps != [] && ps[0] == "**" && |ps| > 1 {
      OnNothing(ps[1..]);
      forall ss
        ensures OnSegments(ps, []) ==> OnSegments(ps, ss)
      {
        assert ss[0..] == ss;
      }
    }
  }

  /** Matching from some segment of a list on. */
  ghost predicate OnSome(ps: seq<string>, ss: seq<string>)
  {
    exists k :: 0 <= k <= |ss| && OnSegments(ps, ss[k..])
  }

  lemma OnSomeStep(ps: seq<string>, ss: seq<string>)
    requires ps != []
    ensures OnSome(ps, ss) <==> OnSegments(ps, ss) || (|ss| > 1 && OnSome(ps, ss[1..]))
  {
    hide OnSegments;
    assert ss[0..] == ss;
    if OnSome(ps, ss) {
      var k :| 0 <= k <= |ss| && OnSegments(ps, ss[k..]);
      if k > 0 && |ss| > 1 {
        assert ss[1..][k - 1..] == ss[k..];
      } else if k > 0 {
        assert ss[k..] == [];
        OnNothing(ps);
      }
    }
    if |ss| > 1 && OnSome(ps, ss[1..]) {
      var k :| 0 <= k <= |ss| - 1 && OnSegments(ps, ss[1..][k..]);
      assert ss[1..][k..] == ss[k + 1..];
    }
  }

  lemma {:induction false} TryFromIs(ps: seq<string>, ss: seq<string>)
    requires Segments(ps) && Segments(ss) && ps != []
    ensures TryFrom(Join(ps), Join(ss)) <==> OnSome(ps, ss)
    decreases |ps|, 1, |ss|
  {
    hide Join, OnSegments, OnSome, Segments;
    OnSomeStep(ps, ss);
    GlobRecIs(ps, ss);
    if ss == [] {
      JoinNone();
    } else {
      JoinParts(ss);
      if |ss| > 1 { TryFromIs(ps, ss[1..]); }
    }
  }

  /** glob_rec on joined paths is the scan over their segments. */
  lemma {:induction false} GlobRecIs(ps: seq<string>, ss: seq<string>)
    requires Segments(ps) && Segments(ss) && ps != []
    ensures GlobRec(Join(ps), Join(ss)) <==> OnSegments(ps, ss)
    decreases |ps|, 0, |ss|
  {
    hide Join, Segments, Slash, Rest, Matches;
    JoinParts(ps);
    JoinSome(ps[1..]);
    JoinSome(ss);
    if ps[0] == "**" {
      if |ps| > 1 { TryFromIs(ps[1..], ss); }
    } else if ss != [] {
      JoinParts(ss);
      JoinSome(ss[1..]);
      if |ps| > 1 && |ss| > 1 { GlobRecIs(ps[1..], ss[1..]); }
    }
  }

  lemma {:induction false} CoversIs(ps: seq<string>, ss: seq<string>, parts: seq<seq<string>>)
    requires Covers(ps, ss, parts)
    ensures OnSegments(ps, ss)
    decreases |ps|
  {
    hide Matches;
    if ps != [] {
      CoversIs(ps[1..], ss[|parts[0]|..], parts[1..]);
      if ps[0] != "**" { assert parts[0][0] == ss[0]; }
    }
  }

  lemma {:induction false} IsCovered(ps: seq<string>, ss: seq<string>) returns (parts: seq<seq<string>>)
    requires OnSegments(ps, ss)
    ensures Covers(ps, ss, parts)
    decreases |ps|
  {
    hide Matches;
    if ps == [] {
      parts := [];
    } else if ps[0] == "**" && |ps| == 1 {
      parts := [ss];
      assert parts[1..] == [] && ss[|ss|..] == [] && ps[1..] == [];
      assert Covers([], [], []);
    } else {
      var k := 1;
      if ps[0] == "**" {
        k :| 0 <= k <= |ss| && OnSegments(ps[1..], ss[k..]);
      }
      var rest := IsCovered(ps[1..], ss[k..]);
      parts := [ss[..k]] + rest;
      assert parts[1..] == rest;
    }
  }

  lemma MatchIsScan(ps: seq<string>, ss: seq<string>, i: nat, j: nat)
    requires Segments(ps) && Segments(ss)
    ensures GlobMatch(Slashes(i) + Join(ps), Slashes(j) + Join(ss)) <==> OnSegments(ps, ss)
  {
    hide Join, GlobRec;
    StrippedJoin(ps, i);
    StrippedJoin(ss, j);
    JoinSome(ps);
    JoinSome(ss);
    if ps != [] { GlobRecIs(ps, ss); }
  }

  /** cg_glob_match on a pattern and a path without empty segments, whatever slashes lead
      them: it matches if and only if the pattern covers the path. */
  lemma PathMatcherIsExact(ps: seq<string>, ss: seq<string>, i: nat, j: nat)
    requires Segments(ps) && Segments(ss)
    ensures GlobMatch(Slashes(i) + Join(ps), Slashes(j) + Join(ss)) <==> Covered(ps, ss)
  {
    hide Join, OnSegments, GlobMatch;
    MatchIsScan(ps, ss, i, j);
    if OnSegments(ps, ss) { var parts := IsCovered(ps, ss); }
    if Covered(ps, ss) {
      var parts :| Covers(ps, ss, parts);
      CoversIs(ps, ss, parts);
    }
  }

  function Slashes(n: nat): string { if n == 0 then "" else "/" + Slashes(n - 1) }

  lemma {:induction false} StrippedJoin(ss: seq<string>, n: nat)
    requires Segments(ss)
    ensures Stripped(Slashes(n) + Join(ss)) == Join(ss)
  {
    hide Join;
    if n > 0 {
      StrippedJoin(ss, n - 1);
      assert (Slashes(n) + Join(ss))[1..] == Slashes(n - 1) + Join(ss);
    } else {
      assert Slashes(0) + Join(ss) == Join(ss);
      JoinSome(ss);
      if ss != [] {
        JoinStep(ss);
        assert Segment(ss[0]);
      }
    }
  }

  /** A final `**` behind an ordinary segment does not match nothing, though the header
      says zero or more segments. */
  lemma FinalDoubleStarNeedsOne(p: string)
    requires Segment(p) && p != "**"
    ensures !GlobMatch(p + "/**", p)
  {
    var ps, ss := [p, "**"], [p];
    assert Join(ps) == p + "/**" by { assert ps[1..] == ["**"]; }
    assert Join(ss) == p;
    assert Segments(ps) && Segments(ss);
    PathMatcherIsExact(ps, ss, 0, 0);
    assert Slashes(0) + Join(ps) == p + "/**" && Slashes(0) + Join(ss) == p;
  }

  // ---- exactly when `**` stands for zero or more segments -------------------

  /** The relation of the header: one matching segment for an ordinary pattern segment, zero
      or more whole segments for `**`. */
  ghost predicate Documented(ps: seq<string>, ss: seq<string>)
    decreases |ps|
  {
    if ps == [] then ss == []
    else if ps[0] == "**" then exists k :: 0 <= k <= |ss| && Documented(ps[1..], ss[k..])
    else ss != [] && Matches(ps[0], ss[0]) && Documented(ps[1..], ss[1..])
  }

  /** The pattern ends in an ordinary segment followed by `**` segments only. */
  predicate Hangs(ps: seq<string>)
  {
    ps != [] && ps[|ps| - 1] == "**" && exists i :: 0 <= i < |ps| && ps[i] != "**"
  }

  lemma HangsLater(ps: seq<string>)
    requires ps != []
    ensures Hangs(ps[1..]) ==> Hangs(ps)
    ensures Hangs(ps) && ps[0] == "**" ==> Hangs(ps[1..])
  {
    if Hangs(ps[1..]) {
      var i :| 0 <= i < |ps[1..]| && ps[1..][i] != "**";
      assert ps[i + 1] != "**";
    }
    if Hangs(ps) && ps[0] == "**" {
      var i :| 0 <= i < |ps| && ps[i] != "**";
      assert ps[1..][i - 1] != "**";
    }
  }

  /** How many ordinary segments a pattern has. */
  function Ordinary(ps: seq<string>): nat
  {
    if ps == [] then 0 else Ordinary(ps[1..]) + if ps[0] == "**" then 0 else 1
  }

  lemma {:induction false} DocumentedNothing(ps: seq<string>)
    requires Documented(ps, [])
    ensures forall i :: 0 <= i < |ps| ==> ps[i] == "**"
    decreases |ps|
  {
    if ps != [] {
      DocumentedNothing(ps[1..]);
      forall i | 0 <= i < |ps| ensures ps[i] == "**" { if i > 0 { assert ps[i] == ps[1..][i - 1]; } }
    }
  }

  lemma {:induction false} SameUnlessHanging(ps: seq<string>, ss: seq<string>)
    requires !Hangs(ps)
    ensures OnSegments(ps, ss) <==> Documented(ps, ss)
    decreases |ps|
  {
    hide Matches;
    if ps != [] {
      HangsLater(ps);
      if ps[0] == "**" {
        if |ps| == 1 {
          assert Documented(ps[1..], ss[|ss|..]);
        } else {
          forall k | 0 <= k <= |ss| ensures OnSegments(ps[1..], ss[k..]) <==> Documented(ps[1..], ss[k..]) {
            SameUnlessHanging(ps[1..], ss[k..]);
          }
        }
      } else if ss != [] {
        SameUnlessHanging(ps[1..], ss[1..]);
        if |ps| > 1 && |ss| == 1 && Documented(ps[1..], []) {
          DocumentedNothing(ps[1..]);
        }
      }
    }
  }

  /** A hanging pattern wants one segment more than it has ordinary ones. */
  lemma {:induction false} HangingWantsMore(ps: seq<string>, ss: seq<string>)
    requires Hangs(ps) && OnSegments(ps, ss)
    ensures |ss| > Ordinary(ps)
    decreases |ps|
  {
    hide Matches;
    HangsLater(ps);
    if ps[0] == "**" {
      assert |ps| > 1;
      var k :| 0 <= k <= |ss| && OnSegments(ps[1..], ss[k..]);
      HangingWantsMore(ps[1..], ss[k..]);
    } else if Hangs(ps[1..]) {
      HangingWantsMore(ps[1..], ss[1..]);
    } else {
      AllStars(ps[1..]);
    }
  }

  lemma {:induction false} AllStars(ps: seq<string>)
    requires !Hangs(ps) && (ps == [] || ps[|ps| - 1] == "**")
    ensures Ordinary(ps) == 0
  {
    if ps != [] {
      assert ps[0] == "**";
      HangsLater(ps);
      AllStars(ps[1..]);
    }
  }

  /** The ordinary segments of a pattern, taken as a path. */
  function Plain(ps: seq<string>): seq<string>
  {
    if ps == [] then [] else (if ps[0] == "**" then [] else [ps[0]]) + Plain(ps[1..])
  }

  lemma {:induction false} MatchesItself(pat: string)
    ensures Matches(pat, pat)
  {
    if pat != "" { MatchesItself(pat[1..]); }
  }

  lemma {:induction false} PlainIsDocumented(ps: seq<string>)
    requires Segments(ps)
    ensures Documented(ps, Plain(ps)) && |Plain(ps)| == Ordinary(ps) && Segments(Plain(ps))
    decreases |ps|
  {
    if ps != [] {
      assert Segment(ps[0]);
      TailSegments(ps, 1);
      PlainIsDocumented(ps[1..]);
      if ps[0] == "**" {
        assert Plain(ps) == Plain(ps[1..]) && Plain(ps)[0..] == Plain(ps);
      } else {
        MatchesItself(ps[0]);
        assert Plain(ps)[1..] == Plain(ps[1..]);
      }
    }
  }

  /** The code is the header's relation on every path exactly when the pattern does not
      hang. */
  lemma DocumentedIff(ps: seq<string>, i: nat, j: nat)
    requires Segments(ps)
    ensures (forall ss | Segments(ss) ::
               GlobMatch(Slashes(i) + Join(ps), Slashes(j) + Join(ss)) <==> Documented(ps, ss)) <==> !Hangs(ps)
  {
    hide Join, GlobMatch, OnSegments, Documented, Segments, Slashes;
    forall ss | Segments(ss)
      ensures GlobMatch(Slashes(i) + Join(ps), Slashes(j) + Join(ss)) <==> OnSegments(ps, ss)
    {
      MatchIsScan(ps, ss, i, j);
    }
    if Hangs(ps) {
      var ss := Plain(ps);
      PlainIsDocumented(ps);
      if OnSegments(ps, ss) { HangingWantsMore(ps, ss); }
      assert Segments(ss) && !(GlobMatch(Slashes(i) + Join(ps), Slashes(j) + Join(ss)) <==> Documented(ps, ss));
    } else {
      forall ss | Segments(ss) ensures OnSegments(ps, ss) <==> Documented(ps, ss) { SameUnlessHanging(ps, ss); }
    }
  }

  // ---- id sets --------------------------------------------------------------

  const MAX_CGROUPS: nat := 64

  function Ids(xs: seq<nat>): set<nat> { set x | x in xs }

  class IdSet {
    const ids: array<nat>
    var n: nat

    ghost predicate Valid()
      reads this, ids
    {
      ids.Length == MAX_CGROUPS && n <= MAX_CGROUPS && NoDup(ids[..n])
    }

    constructor ()
      ensures Valid() && n == 0 && fresh(ids)
    {
      ids := new nat[MAX_CGROUPS];
      n := 0;
    }

    /** idset_has. */
    method Has(id: nat) returns (b: bool)
      requires Valid()
      ensures b <==> id in ids[..n]
    {
      var i := 0;
      while i < n
        invariant 0 <= i <= n && id !in ids[..i]
      {
        if ids[i] == id { return true; }
        i := i + 1;
      }
      return false;
    }

    /** cg_idset_add: refused only when the set is full and the id is new. */
    method AddId(id: nat) returns (stored: bool)
      requires Valid()
      modifies this`n, ids
      ensures Valid()
      ensures stored <==> id in old(ids[..n]) || old(n) < MAX_CGROUPS
      ensures Ids(ids[..n]) == Ids(old(ids[..n])) + if stored then {id} else {}
    {
      var known := Has(id);
      if known { return true; }
      if n >= MAX_CGROUPS { return false; }
      ghost var was := ids[..n];
      ids[n] := id;
      n := n + 1;
      assert ids[..n] == was + [id];
      return true;
    }

    /** The ids of this set that another one lacks, in the order of this set. */
    method Missing(other: IdSet) returns (xs: seq<nat>)
      requires Valid() && other.Valid()
      ensures NoDup(xs) && Ids(xs) == Ids(ids[..n]) - Ids(other.ids[..other.n])
    {
      xs := [];
      var i := 0;
      while i < n
        invariant 0 <= i <= n && NoDup(xs)
        invariant forall x :: x in xs <==> x in ids[..i] && x !in other.ids[..other.n]
      {
        var has := other.Has(ids[i]);
        assert ids[..i + 1] == ids[..i] + [ids[i]];
        assert ids[i] !in ids[..i] by {
          assert forall j :: 0 <= j < i ==> ids[..n][j] == ids[j] && ids[..n][i] == ids[i];
        }
        if !has { xs := xs + [ids[i]]; }
        i := i + 1;
      }
    }
  }

  /** cg_idset_diff: applying the difference to the current set gives the next one, and
      touches nothing that is in both. */
  method Diff(cur: IdSet, next: IdSet) returns (add: seq<nat>, del: seq<nat>)
    requires cur.Valid() && next.Valid()
    ensures NoDup(add) && NoDup(del)
    ensures (Ids(cur.ids[..cur.n]) - Ids(del)) + Ids(add) == Ids(next.ids[..next.n])
    ensures (Ids(add) + Ids(del)) !! (Ids(cur.ids[..cur.n]) * Ids(next.ids[..next.n]))
  {
    add := next.Missing(cur);
    del := cur.Missing(next);
  }
}
