/** Segment-level glob matching with a memo table (internal/toolutil/toolutil.go). `filepath.Match`
    on one segment is an arbitrary predicate `seg`; separators are already slashes. */
module Glob {
  type Segments = seq<string>
  type Single = (string, string) -> bool
  type Memo = map<(nat, nat), bool>

  /** What a pattern means: `**` stands for any number of segments, every other pattern segment for
      exactly one segment it matches. A witness is the number of segments each pattern segment takes. */
  ghost predicate Splits(seg: Single, pat: Segments, path: Segments, counts: seq<nat>)
  {
    if pat == [] then path == [] && counts == []
    else counts != [] && counts[0] <= |path|
         && (pat[0] == "**" || (counts[0] == 1 && seg(pat[0], path[0])))
         && Splits(seg, pat[1..], path[counts[0]..], counts[1..])
  }

  ghost predicate Matches(seg: Single, pat: Segments, path: Segments) {
    exists counts :: Splits(seg, pat, path, counts)
  }

  // ---------------------------------------------------------------- the relation, one segment at a time

  lemma NothingLeft(seg: Single, path: Segments)
    ensures Matches(seg, [], path) <==> path == []
  {
    if path == [] { assert Splits(seg, [], path, []); }
  }

  lemma StarStep(seg: Single, pat: Segments, path: Segments)
    requires pat != [] && pat[0] == "**"
    ensures Matches(seg, pat, path)
       <==> Matches(seg, pat[1..], path) || (path != [] && Matches(seg, pat, path[1..]))
  {
    if Matches(seg, pat[1..], path) {
      var c :| Splits(seg, pat[1..], path, c);
      assert path[0..] == path && ([0] + c)[1..] == c;
      assert Splits(seg, pat, path, [0] + c);
    }
    if path != [] && Matches(seg, pat, path[1..]) {
      var c :| Splits(seg, pat, path[1..], c);
      var d := [c[0] + 1] + c[1..];
      assert path[1..][c[0]..] == path[d[0]..] && d[1..] == c[1..];
      assert Splits(seg, pat, path, d);
    }
    if Matches(seg, pat, path) {
      var c :| Splits(seg, pat, path, c);
      if c[0] == 0 {
        assert path[0..] == path;
        assert Splits(seg, pat[1..], path, c[1..]);
      } else {
        var d := [c[0] - 1] + c[1..];
        assert path[1..][d[0]..] == path[c[0]..] && d[1..] == c[1..];
        assert Splits(seg, pat, path[1..], d);
      }
    }
  }

  lemma SingleStep(seg: Single, pat: Segments, path: Segments)
    requires pat != [] && pat[0] != "**"
    ensures Matches(seg, pat, path)
       <==> path != [] && seg(pat[0], path[0]) && Matches(seg, pat[1..], path[1..])
  {
    if path != [] && seg(pat[0], path[0]) && Matches(seg, pat[1..], path[1..]) {
      var c :| Splits(seg, pat[1..], path[1..], c);
      assert ([1] + c)[1..] == c;
      assert Splits(seg, pat, path, [1] + c);
    }
    if Matches(seg, pat, path) {
      var c :| Splits(seg, pat, path, c);
      assert Splits(seg, pat[1..], path[1..], c[1..]);
    }
  }

  // ---------------------------------------------------------------- consequences

  /** A second `**` next to another adds nothing. */
  lemma {:induction false} AdjacentStarsCollapse(seg: Single, pat: Segments, path: Segments)
    requires |pat| >= 2 && pat[0] == "**" && pat[1] == "**"
    ensures Matches(seg, pat, path) <==> Matches(seg, pat[1..], path)
    decreases path
  {
    StarStep(seg, pat, path);
    if path != [] {
      AdjacentStarsCollapse(seg, pat, path[1..]);
      StarStep(seg, pat[1..], path);
    }
  }

  /** A pattern of `**` alone matches every path. */
  lemma {:induction false} StarMatchesAll(seg: Single, path: Segments)
    ensures Matches(seg, ["**"], path)
    decreases path
  {
    StarStep(seg, ["**"], path);
    assert ["**"][1..] == [];
    if path == [] { NothingLeft(seg, path); } else { StarMatchesAll(seg, path[1..]); }
  }

  /** Without `**`, a pattern matches position by position, so no `*` crosses a separator. */
  lemma {:induction false} WithoutStarsPositional(seg: Single, pat: Segments, path: Segments)
    requires "**" !in pat
    ensures Matches(seg, pat, path) <==> |pat| == |path| && forall i :: 0 <= i < |pat| ==> seg(pat[i], path[i])
  {
    if pat == [] {
      NothingLeft(seg, path);
    } else {
      SingleStep(seg, pat, path);
      if path != [] {
        assert forall x :: x in pat[1..] ==> x in pat;
        WithoutStarsPositional(seg, pat[1..], path[1..]);
        assert forall i :: 1 <= i < |pat| ==> pat[i] == pat[1..][i - 1];
        assert |pat| == |path| ==> forall i :: 1 <= i < |pat| ==> path[i] == path[1..][i - 1];
        if |pat| == |path| && forall i :: 0 <= i < |pat| ==> seg(pat[i], path[i]) {
          assert forall i :: 0 <= i < |pat| - 1 ==> pat[1..][i] == pat[i + 1] && path[1..][i] == path[i + 1];
        }
        if |pat| == |path| && forall i :: 0 <= i < |pat[1..]| ==> seg(pat[1..][i], path[1..][i]) {
          forall i | 1 <= i < |pat| ensures seg(pat[i], path[i]) {
            assert pat[i] == pat[1..][i - 1] && path[i] == path[1..][i - 1];
          }
        }
      }
    }
  }

  // ---------------------------------------------------------------- the memoised search

  /** The problem an entry of the memo answers: the pattern from `k.0` against the path from `k.1`. */
  ghost predicate Answer(seg: Single, pat: Segments, path: Segments, k: (nat, nat), v: bool) {
    k.0 <= |pat| && k.1 <= |path| && (v <==> Matches(seg, pat[k.0..], path[k.1..]))
  }

  ghost predicate Right(seg: Single, pat: Segments, path: Segments, memo: Memo) {
    forall k :: k in memo ==> Answer(seg, pat, path, k, memo[k])
  }

  /** The recursion shared by every entry. */
  lemma Unfold(seg: Single, pat: Segments, path: Segments, pi: nat, si: nat)
    requires pi < |pat| && si <= |path|
    ensures pat[pi] == "**" ==>
              (Matches(seg, pat[pi..], path[si..])
               <==> Matches(seg, pat[pi + 1..], path[si..])
                    || (si < |path| && Matches(seg, pat[pi..], path[si + 1..])))
    ensures pat[pi] != "**" ==>
              (Matches(seg, pat[pi..], path[si..])
               <==> si < |path| && seg(pat[pi], path[si]) && Matches(seg, pat[pi + 1..], path[si + 1..]))
  {
    var p, f := pat[pi..], path[si..];
    assert p[0] == pat[pi] && p[1..] == pat[pi + 1..];
    assert si < |path| ==> f[0] == path[si] && f[1..] == path[si + 1..];
    if pat[pi] == "**" { StarStep(seg, p, f); } else { SingleStep(seg, p, f); }
  }

  /** The map `matchSegments` shares among all its calls. */
  class Matcher {
    const seg: Single
    const pat: Segments
    const path: Segments
    var memo: Memo

    ghost predicate Valid() reads this { Right(seg, pat, path, memo) }

    constructor (seg: Single, pat: Segments, path: Segments)
      ensures Valid() && this.seg == seg && this.pat == pat && this.path == path
    {
      this.seg, this.pat, this.path, memo := seg, pat, path, map[];
    }

    /** `res`: remember the answer and return it. */
    method Remember(pi: nat, si: nat, v: bool) returns (r: bool)
      requires Valid() && Answer(seg, pat, path, (pi, si), v)
      modifies this
      ensures Valid() && r == v && memo == old(memo)[(pi, si) := v]
    {
      hide Answer;
      memo := memo[(pi, si) := v];
      return v;
    }

    /** Decides the sub-problem, leaving only right answers in the memo and dropping none. */
    method MatchSegments(pi: nat, si: nat) returns (r: bool)
      requires Valid() && pi <= |pat| && si <= |path|
      modifies this
      ensures Valid() && (r <==> Matches(seg, pat[pi..], path[si..]))
      ensures (pi, si) in memo && forall k :: k in old(memo) ==> k in memo && memo[k] == old(memo)[k]
      decreases |pat| - pi + |path| - si
    {
      hide Matches;
      if (pi, si) in memo {
        return memo[(pi, si)];
      }
      if pi == |pat| {
        NothingLeft(seg, path[si..]);
        assert pat[pi..] == [];
        r := Remember(pi, si, si == |path|);
        return;
      }
      Unfold(seg, pat, path, pi, si);
      if pat[pi] == "**" {
        var zero := MatchSegments(pi + 1, si);
        if zero {
          r := Remember(pi, si, true);
          return;
        }
        if si < |path| {
          r := MatchSegments(pi, si + 1);
          r := Remember(pi, si, r);
          return;
        }
        r := Remember(pi, si, false);
        return;
      }
      if si >= |path| {
        r := Remember(pi, si, false);
        return;
      }
      if !seg(pat[pi], path[si]) {
        r := Remember(pi, si, false);
        return;
      }
      r := MatchSegments(pi + 1, si + 1);
      r := Remember(pi, si, r);
    }
  }

  // ---------------------------------------------------------------- whole patterns

  function TrimSlash(s: string): string {
    if s != "" && s[|s| - 1] == '/' then s[..|s| - 1] else s
  }

  /** The segments between slashes; never empty, and the empty text has one empty segment. */
  function Split(s: string): (r: Segments)
    ensures r != []
  {
    if s == "" then [""]
    else if s[0] == '/' then [""] + Split(s[1..])
    else var rest := Split(s[1..]); [[s[0]] + rest[0]] + rest[1..]
  }

  function Joined(parts: Segments): string
    requires parts != []
  {
    if |parts| == 1 then parts[0] else parts[0] + "/" + Joined(parts[1..])
  }

  lemma JoinedLonger(c: char, parts: Segments)
    requires parts != []
    ensures var r := [[c] + parts[0]] + parts[1..];
            Joined(r) == [c] + Joined(parts) && forall p :: p in r ==> p == [c] + parts[0] || p in parts
  {
    var r := [[c] + parts[0]] + parts[1..];
    assert r[1..] == parts[1..];
    if |parts| > 1 {
      assert [c] + parts[0] + "/" + Joined(parts[1..]) == [c] + (parts[0] + "/" + Joined(parts[1..]));
    }
  }

  /** Splitting loses nothing and leaves no slash inside a segment. */
  lemma {:induction false} SplitJoins(s: string)
    ensures Joined(Split(s)) == s && forall p :: p in Split(s) ==> '/' !in p
  {
    if s != "" {
      SplitJoins(s[1..]);
      var rest := Split(s[1..]);
      if s[0] == '/' {
        assert Split(s) == [""] + rest;
        hide Split;
        assert ([""] + rest)[1..] == rest;
      } else {
        assert Split(s) == [[s[0]] + rest[0]] + rest[1..];
        hide Split;
        JoinedLonger(s[0], rest);
      }
    }
  }

  /** What a whole pattern matches: an empty one only the empty path. */
  ghost predicate Globs(seg: Single, pattern: string, path: string) {
    var p, f := TrimSlash(pattern), TrimSlash(path);
    if p == "" then f == "" else Matches(seg, Split(p), Split(f))
  }

  predicate NoLastSlash(s: string) { s == "" || s[|s| - 1] != '/' }

  lemma TrimSlashIs(s: string)
    ensures TrimSlash(s + "/") == s && (NoLastSlash(s) ==> TrimSlash(s) == s)
  {
  }

  /** One trailing slash on either side does not matter, and nothing else is trimmed. */
  lemma SlashDoesNotMatter(seg: Single, p: string, f: string)
    requires NoLastSlash(p) && NoLastSlash(f)
    ensures Globs(seg, p, f) <==> if p == "" then f == "" else Matches(seg, Split(p), Split(f))
    ensures Globs(seg, p + "/", f) <==> Globs(seg, p, f)
    ensures Globs(seg, p, f + "/") <==> Globs(seg, p, f)
    ensures Globs(seg, p + "/", f + "/") <==> Globs(seg, p, f)
    ensures Globs(seg, p + "//", f) <==> Matches(seg, Split(p + "/"), Split(f))
  {
    TrimSlashIs(p);
    TrimSlashIs(f);
    TrimSlashIs(p + "/");
    assert p + "//" == (p + "/") + "/";
    hide Matches, Split, TrimSlash;
  }

  /** The whole search. */
  method GlobMatch(seg: Single, pattern: string, path: string) returns (r: bool)
    ensures r <==> Globs(seg, pattern, path)
  {
    var p, f := TrimSlash(pattern), TrimSlash(path);
    if p == "" {
      return f == "";
    }
    var m := new Matcher(seg, Split(p), Split(f));
    assert m.pat[0..] == m.pat && m.path[0..] == m.path;
    r := m.MatchSegments(0, 0);
  }
}
