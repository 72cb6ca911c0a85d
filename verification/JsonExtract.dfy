/** Finding a JSON value embedded in prose (jsonx/jsonx.go, `extractValue`). */
module JsonExtract {
  import opened Options
  import opened JsonGrammar
  import opened JsonRepair
  import opened JsonIdentity

  const MAX_STARTS := 32

  function DepthAfter(r: char, depth: int): int {
    if r == '{' || r == '[' then depth + 1 else if r == '}' || r == ']' then depth - 1 else depth
  }

  /** Where the balanced scan from `i` ends: the bracket that brings the depth back to zero. */
  function EndFrom(s: string, i: nat, sc: Scan, depth: int): Option<nat>
    requires i <= |s|
    decreases |s| - i
  {
    if i == |s| then None
    else if sc.Inside() then EndFrom(s, i + 1, StepScan(sc, s, i), depth)
    else
      var d := DepthAfter(s[i], depth);
      if d == 0 && d < depth then Some(i) else EndFrom(s, i + 1, StepScan(sc, s, i), d)
  }

  method ValueEnd(s: string, start: nat) returns (r: Option<nat>)
    requires start <= |s|
    ensures r == EndFrom(s, start, OUTSIDE, 0)
  {
    var depth := 0;
    var sc := new StrScan();
    var i := start;
    while i < |s|
      invariant start <= i <= |s|
      invariant EndFrom(s, i, sc.View(), depth) == EndFrom(s, start, OUTSIDE, 0)
      decreases |s| - i
    {
      var r := s[i];
      if !sc.Inside() {
        if r == '{' || r == '[' {
          depth := depth + 1;
        } else if r == '}' || r == ']' {
          depth := depth - 1;
          if depth == 0 { return Some(i); }
        }
      }
      sc.Step(r, s, i);
      i := i + 1;
    }
    return None;
  }

  /** The opening brackets outside strings at or after `i`, in order. */
  function StartsFrom(s: string, i: nat, sc: Scan): (r: seq<nat>)
    requires i <= |s|
    ensures Within(s, r)
    decreases |s| - i
  {
    if i == |s| then []
    else
      var rest := StartsFrom(s, i + 1, StepScan(sc, s, i));
      if !sc.Inside() && (s[i] == '{' || s[i] == '[') then [i] + rest else rest
  }

  predicate Within(s: string, starts: seq<nat>) {
    forall j :: 0 <= j < |starts| ==> starts[j] < |s|
  }

  function Take(xs: seq<nat>, n: nat): seq<nat> {
    if |xs| <= n then xs else xs[..n]
  }

  /** Candidate starting points, at most 32 of them. */
  method ValueStarts(s: string) returns (starts: seq<nat>)
    ensures starts == Take(StartsFrom(s, 0, OUTSIDE), MAX_STARTS)
  {
    hide StepScan, StartsFrom, Take;
    starts := [];
    var sc := new StrScan();
    var i := 0;
    while i < |s|
      invariant 0 <= i <= |s| && |starts| < MAX_STARTS
      invariant StartsFrom(s, 0, OUTSIDE) == starts + StartsFrom(s, i, sc.View())
      decreases |s| - i
    {
      var r := s[i];
      ghost var rest := StartsFrom(s, i + 1, StepScan(sc.View(), s, i));
      StartsNext(s, i, sc.View());
      if !sc.Inside() && (r == '{' || r == '[') {
        TakeNext(starts, i, rest);
        starts := starts + [i];
        if |starts| >= MAX_STARTS {
          return;
        }
      }
      sc.Step(r, s, i);
      i := i + 1;
    }
    StartsEnd(s, sc.View());
    TakeAll(starts);
  }

  lemma StartsNext(s: string, i: nat, sc: Scan)
    requires i < |s|
    ensures var rest := StartsFrom(s, i + 1, StepScan(sc, s, i));
            StartsFrom(s, i, sc) == if !sc.Inside() && (s[i] == '{' || s[i] == '[') then [i] + rest else rest
  {
    hide StepScan;
  }

  lemma StartsEnd(s: string, sc: Scan)
    ensures StartsFrom(s, |s|, sc) == []
  {
  }

  lemma TakeNext(starts: seq<nat>, i: nat, rest: seq<nat>)
    requires |starts| < MAX_STARTS
    ensures starts + ([i] + rest) == (starts + [i]) + rest
    ensures |starts| + 1 == MAX_STARTS ==> Take(starts + [i] + rest, MAX_STARTS) == starts + [i]
  {
  }

  lemma TakeAll(starts: seq<nat>)
    requires |starts| < MAX_STARTS
    ensures Take(starts + [], MAX_STARTS) == starts
  {
  }

  /** What the candidate starting at `k` contributes. */
  ghost function CandidateAt(accepts: string -> bool, s: string, k: nat): Option<string>
    requires k <= |s|
  {
    match EndFrom(s, k, OUTSIDE, 0)
    case None => None
    case Some(e) => if k <= e < |s| && accepts(Repaired(s[k..e + 1])) then Some(s[k..e + 1]) else None
  }

  ghost function FirstCandidate(accepts: string -> bool, s: string, starts: seq<nat>): Option<string>
    requires Within(s, starts)
  {
    if starts == [] then None
    else if CandidateAt(accepts, s, starts[0]).Some? then CandidateAt(accepts, s, starts[0])
    else FirstCandidate(accepts, s, starts[1..])
  }

  lemma {:induction false} EndInRange(s: string, i: nat, sc: Scan, depth: int)
    requires i <= |s|
    ensures var r := EndFrom(s, i, sc, depth); r.Some? ==> i <= r.value < |s|
    decreases |s| - i
  {
    if i < |s| {
      EndInRange(s, i + 1, StepScan(sc, s, i), if sc.Inside() then depth else DepthAfter(s[i], depth));
    }
  }

  /** `extractValue` on already trimmed, non-empty content. */
  method ExtractValue(s: string, accepts: string -> bool) returns (r: Option<string>)
    ensures r == if accepts(Repaired(s)) then Some(s)
                 else FirstCandidate(accepts, s, Take(StartsFrom(s, 0, OUTSIDE), MAX_STARTS))
  {
    hide EndFrom, StartsFrom, Repaired, FirstCandidate, Take;
    var whole := Repair(s);
    if accepts(whole) { return Some(s); }
    var starts := ValueStarts(s);
    TakeWithin(s, StartsFrom(s, 0, OUTSIDE), MAX_STARTS);
    assert starts[0..] == starts;
    for i := 0 to |starts|
      invariant Within(s, starts[i..])
      invariant FirstCandidate(accepts, s, starts) == FirstCandidate(accepts, s, starts[i..])
    {
      FirstNext(accepts, s, starts[i..]);
      assert starts[i..][0] == starts[i] && starts[i..][1..] == starts[i + 1..];
      r := TryCandidate(s, starts[i], accepts);
      if r.Some? { return; }
    }
    NoCandidates(accepts, s, starts[|starts|..]);
    return None;
  }

  lemma TakeWithin(s: string, starts: seq<nat>, n: nat)
    requires Within(s, starts)
    ensures Within(s, Take(starts, n))
  {
  }

  /** One candidate: its end, and whether its repair is accepted. */
  method TryCandidate(s: string, k: nat, accepts: string -> bool) returns (r: Option<string>)
    requires k < |s|
    ensures r == CandidateAt(accepts, s, k)
  {
    hide EndFrom, Repaired;
    var e := ValueEnd(s, k);
    if e.None? { return None; }
    EndInRange(s, k, OUTSIDE, 0);
    var cand := s[k..e.value + 1];
    var fixed := Repair(cand);
    return if accepts(fixed) then Some(cand) else None;
  }

  lemma FirstNext(accepts: string -> bool, s: string, starts: seq<nat>)
    requires Within(s, starts) && starts != []
    ensures Within(s, starts[1..])
    ensures FirstCandidate(accepts, s, starts)
         == if CandidateAt(accepts, s, starts[0]).Some? then CandidateAt(accepts, s, starts[0])
            else FirstCandidate(accepts, s, starts[1..])
  {
    hide CandidateAt;
  }

  lemma NoCandidates(accepts: string -> bool, s: string, starts: seq<nat>)
    requires starts == []
    ensures Within(s, starts) && FirstCandidate(accepts, s, starts) == None
  {
  }

  // ---------------------------------------------------------------- a well-formed value ends where its text ends

  /** Between `i` and `n` the balanced scan comes back to the depth it had, without stopping. */
  ghost predicate Balanced(s: string, i: nat, n: nat, a: Scan, b: Scan) {
    i <= n <= |s| && forall d: int :: d >= 1 ==> EndFrom(s, i, a, d) == EndFrom(s, n, b, d)
  }

  predicate Inert(c: char) {
    c != '"' && c != '\'' && c != LEFT_DQ && c != LEFT_SQ && c != '{' && c != '}' && c != '[' && c != ']'
  }

  lemma BalancedCompose(s: string, i: nat, n: nat, m: nat, a: Scan, b: Scan, c: Scan)
    requires Balanced(s, i, n, a, b) && Balanced(s, n, m, b, c)
    ensures Balanced(s, i, m, a, c)
  {
  }

  lemma {:induction false} InertBalanced(s: string, i: nat, w: string)
    requires At(s, i, w) && forall c :: c in w ==> Inert(c)
    ensures Balanced(s, i, i + |w|, OUTSIDE, OUTSIDE)
    decreases |w|
  {
    if w != "" {
      AtIndex(s, i, w, 0);
      assert w == [w[0]] + w[1..];
      AtSplit(s, i, [w[0]], w[1..]);
      assert Inert(w[0]) && StepScan(OUTSIDE, s, i) == OUTSIDE;
      assert Balanced(s, i, i + 1, OUTSIDE, OUTSIDE);
      InertBalanced(s, i + 1, w[1..]);
    }
  }

  lemma {:induction false} PlainsBalanced(s: string, i: nat, n: nat)
    requires i <= n <= |s| && forall k :: i <= k < n ==> s[k] != '"' && s[k] != '\\'
    ensures Balanced(s, i, n, IN_DQ, IN_DQ)
    decreases n - i
  {
    if i < n {
      assert StepScan(IN_DQ, s, i) == IN_DQ;
      PlainsBalanced(s, i + 1, n);
    }
  }

  lemma EscapeBalanced(s: string, i: nat)
    requires i + 1 < |s| && s[i] == '\\'
    ensures Balanced(s, i, i + 2, IN_DQ, IN_DQ)
  {
    var m := Scan(true, true, 0, 0);
    assert StepScan(IN_DQ, s, i) == m && StepScan(m, s, i + 1) == IN_DQ;
    assert Balanced(s, i, i + 1, IN_DQ, m);
    assert Balanced(s, i + 1, i + 2, m, IN_DQ);
  }

  lemma StrCharBalanced(s: string, i: nat, c: StrChar)
    requires c.WellFormed() && At(s, i, c.Render())
    ensures Balanced(s, i, i + |c.Render()|, IN_DQ, IN_DQ)
  {
    hide Balanced;
    var r := c.Render();
    AtIndex(s, i, r, 0);
    match c
    case Plain(x) =>
      PlainsBalanced(s, i, i + 1);
    case Escape(x) =>
      EscapeBalanced(s, i);
    case Unicode(h0, h1, h2, h3) =>
      AtIndex(s, i, r, 2);
      AtIndex(s, i, r, 3);
      AtIndex(s, i, r, 4);
      AtIndex(s, i, r, 5);
      EscapeBalanced(s, i);
      PlainsBalanced(s, i + 2, i + 6);
      BalancedCompose(s, i, i + 2, i + 6, IN_DQ, IN_DQ, IN_DQ);
  }

  lemma NoChars(s: string, i: nat)
    requires At(s, i, RenderChars([]))
    ensures RenderChars([]) == "" && i <= |s|
  {
  }

  lemma NothingBalanced(s: string, i: nat, a: Scan)
    requires i <= |s|
    ensures Balanced(s, i, i, a, a)
  {
  }

  lemma {:induction false} CharsBalanced(s: string, i: nat, cs: seq<StrChar>)
    requires WellFormedChars(cs) && At(s, i, RenderChars(cs))
    ensures Balanced(s, i, i + |RenderChars(cs)|, IN_DQ, IN_DQ)
    decreases |cs|
  {
    hide Balanced, EndFrom, At, RenderChars, WellFormedChars, StrChar.Render, StrChar.WellFormed;
    if cs == [] {
      NoChars(s, i);
      NothingBalanced(s, i, IN_DQ);
    } else {
      var r := cs[0].Render();
      CharsParts(s, i, cs);
      StrCharBalanced(s, i, cs[0]);
      CharsBalanced(s, i + |r|, cs[1..]);
      BalancedCompose(s, i, i + |r|, i + |RenderChars(cs)|, IN_DQ, IN_DQ, IN_DQ);
    }
  }

  lemma QuoteBalanced(s: string, i: nat)
    requires i < |s| && s[i] == '"'
    ensures Balanced(s, i, i + 1, OUTSIDE, IN_DQ) && Balanced(s, i, i + 1, IN_DQ, OUTSIDE)
  {
    assert StepScan(OUTSIDE, s, i) == IN_DQ && StepScan(IN_DQ, s, i) == OUTSIDE;
  }

  lemma StrBalanced(s: string, i: nat, cs: seq<StrChar>)
    requires WellFormedChars(cs) && At(s, i, RenderStr(cs))
    ensures Balanced(s, i, i + |RenderStr(cs)|, OUTSIDE, OUTSIDE)
  {
    hide Balanced, RenderChars;
    var body, n := RenderChars(cs), i + |RenderStr(cs)|;
    AtSplit(s, i, ['"'], body + ['"']);
    AtSplit(s, i + 1, body, ['"']);
    AtChar(s, i, '"');
    AtChar(s, n - 1, '"');
    QuoteBalanced(s, i);
    CharsBalanced(s, i + 1, cs);
    QuoteBalanced(s, n - 1);
    BalancedCompose(s, i, i + 1, n - 1, OUTSIDE, IN_DQ, IN_DQ);
    BalancedCompose(s, i, n - 1, n, OUTSIDE, IN_DQ, OUTSIDE);
  }

  /** The inside of an array or object, from after its opening bracket to its closing one. */
  ghost function Inner(v: Value): string
    requires v.Array? || v.Object?
  {
    match v
    case Array(gap, items) => gap + RenderItems(items, true)
    case Object(gap, members) => gap + RenderMembers(members, true)
  }

  lemma InnerAt(s: string, i: nat, v: Value)
    requires (v.Array? || v.Object?) && At(s, i, Render(v))
    ensures var n := i + |Render(v)|;
            && i + 2 <= n && n == i + 1 + |Inner(v)| + 1
            && (s[i] == '[' || s[i] == '{') && (s[n - 1] == ']' || s[n - 1] == '}')
            && At(s, i + 1, Inner(v))
  {
    var r := Render(v);
    AtIndex(s, i, r, 0);
    AtIndex(s, i, r, |r| - 1);
    assert r == [r[0]] + (Inner(v) + [r[|r| - 1]]);
    AtSplit(s, i, [r[0]], Inner(v) + [r[|r| - 1]]);
    AtSplit(s, i + 1, Inner(v), [r[|r| - 1]]);
  }

  lemma {:induction false} ValueBalanced(s: string, i: nat, v: Value)
    requires WellFormed(v) && At(s, i, Render(v))
    ensures Balanced(s, i, i + |Render(v)|, OUTSIDE, OUTSIDE)
    decreases v, 1
  {
    hide Balanced, Inner, EndFrom, Render;
    if v.Array? || v.Object? {
      InnerAt(s, i, v);
      InnerBalanced(s, i + 1, v);
      BracketsBalance(s, i, i + |Render(v)|);
    } else {
      ScalarBalanced(s, i, v);
    }
  }

  lemma ScalarBalanced(s: string, i: nat, v: Value)
    requires !v.Array? && !v.Object? && WellFormed(v) && At(s, i, Render(v))
    ensures Balanced(s, i, i + |Render(v)|, OUTSIDE, OUTSIDE)
  {
    hide Balanced;
    match v
    case Number(_, _, _, _) =>
      NumberIsToken(v);
      InertBalanced(s, i, Render(v));
    case Str(cs) => StrBalanced(s, i, cs);
    case _ => InertBalanced(s, i, Render(v));
  }

  lemma BracketsBalance(s: string, i: nat, n: nat)
    requires i + 2 <= n <= |s| && (s[i] == '[' || s[i] == '{') && (s[n - 1] == ']' || s[n - 1] == '}')
    requires Balanced(s, i + 1, n - 1, OUTSIDE, OUTSIDE)
    ensures Balanced(s, i, n, OUTSIDE, OUTSIDE)
    ensures EndFrom(s, i, OUTSIDE, 0) == Some(n - 1)
  {
    assert StepScan(OUTSIDE, s, i) == OUTSIDE && StepScan(OUTSIDE, s, n - 1) == OUTSIDE;
    assert EndFrom(s, i + 1, OUTSIDE, 1) == EndFrom(s, n - 1, OUTSIDE, 1);
    forall d: int | d >= 1 ensures EndFrom(s, i, OUTSIDE, d) == EndFrom(s, n, OUTSIDE, d) {
      assert EndFrom(s, i, OUTSIDE, d) == EndFrom(s, i + 1, OUTSIDE, d + 1);
    }
  }

  lemma {:induction false} InnerBalanced(s: string, i: nat, v: Value)
    requires (v.Array? || v.Object?) && WellFormed(v) && At(s, i, Inner(v))
    ensures Balanced(s, i, i + |Inner(v)|, OUTSIDE, OUTSIDE)
    decreases v, 0
  {
    hide Balanced, EndFrom, At, Inert, Blank, Render, RenderItems, RenderMembers, WellFormedItems, WellFormedMembers;
    var n := i + |Inner(v)|;
    BlankInert(v.gap);
    match v {
      case Array(gap, items) =>
        AtSplit(s, i, gap, RenderItems(items, true));
        InertBalanced(s, i, gap);
        ItemsBalanced(s, i + |gap|, items, true);
        BalancedCompose(s, i, i + |gap|, n, OUTSIDE, OUTSIDE, OUTSIDE);
      case Object(gap, members) =>
        AtSplit(s, i, gap, RenderMembers(members, true));
        InertBalanced(s, i, gap);
        MembersBalanced(s, i + |gap|, members, true);
        BalancedCompose(s, i, i + |gap|, n, OUTSIDE, OUTSIDE, OUTSIDE);
    }
  }

  /** Where the parts of a text stand. */
  lemma AtParts(s: string, i: nat, pre: string, mid: string, post: string, tail: string)
    requires At(s, i, pre + (mid + (post + tail)))
    ensures At(s, i, pre) && At(s, i + |pre|, mid) && At(s, i + |pre| + |mid|, post)
    ensures At(s, i + |pre| + |mid| + |post|, tail)
  {
    hide At;
    AtSplit(s, i, pre, mid + (post + tail));
    AtSplit(s, i + |pre|, mid, post + tail);
    AtSplit(s, i + |pre| + |mid|, post, tail);
  }

  lemma ThreeBalanced(s: string, i: nat, a: nat, b: nat, k: nat)
    requires Balanced(s, i, a, OUTSIDE, OUTSIDE) && Balanced(s, a, b, OUTSIDE, OUTSIDE) && Balanced(s, b, k, OUTSIDE, OUTSIDE)
    ensures Balanced(s, i, k, OUTSIDE, OUTSIDE)
  {
    hide Balanced;
    BalancedCompose(s, i, a, b, OUTSIDE, OUTSIDE, OUTSIDE);
    BalancedCompose(s, i, b, k, OUTSIDE, OUTSIDE, OUTSIDE);
  }

  /** An inert stretch, a value, and an inert stretch. */
  lemma {:induction false} Surrounded(s: string, i: nat, pre: string, v: Value, post: string, tail: string) returns (k: nat)
    requires WellFormed(v) && At(s, i, pre + (Render(v) + (post + tail)))
    requires (forall c :: c in pre ==> Inert(c)) && (forall c :: c in post ==> Inert(c))
    ensures k + |tail| == i + |pre + (Render(v) + (post + tail))| && At(s, k, tail)
    ensures Balanced(s, i, k, OUTSIDE, OUTSIDE)
    decreases v, 2
  {
    hide Balanced, Render, At, WellFormed, Inert;
    var a := i + |pre|;
    var b := a + |Render(v)|;
    k := b + |post|;
    AtParts(s, i, pre, Render(v), post, tail);
    InertBalanced(s, i, pre);
    ValueBalanced(s, a, v);
    InertBalanced(s, b, post);
    ThreeBalanced(s, i, a, b, k);
  }

  lemma BlankInert(w: string)
    requires Blank(w)
    ensures forall c :: c in w ==> Inert(c)
  {
  }

  lemma LeadInert(first: bool, pre: string)
    requires Blank(pre)
    ensures forall c :: c in Separator(first) + pre ==> Inert(c)
  {
  }

  lemma ColonInert(before: string, after: string)
    requires Blank(before) && Blank(after)
    ensures forall c :: c in before + ([':'] + after) ==> Inert(c)
  {
  }

  lemma {:induction false} ItemsBalanced(s: string, i: nat, items: Items, first: bool)
    requires WellFormedItems(items) && At(s, i, RenderItems(items, first))
    ensures Balanced(s, i, i + |RenderItems(items, first)|, OUTSIDE, OUTSIDE)
    decreases items
  {
    hide Balanced, EndFrom;
    match items
    case NoItems => NothingBalanced(s, i, OUTSIDE);
    case Item(pre, v, post, rest) =>
      hide At, Inert, Blank, Render, Separator;
      var tail := RenderItems(rest, false);
      var lead := Separator(first) + pre;
      assert RenderItems(items, first) == lead + (Render(v) + (post + tail));
      LeadInert(first, pre);
      BlankInert(post);
      var k := Surrounded(s, i, lead, v, post, tail);
      ItemsBalanced(s, k, rest, false);
      BalancedCompose(s, i, k, i + |RenderItems(items, first)|, OUTSIDE, OUTSIDE, OUTSIDE);
  }

  lemma {:induction false} MembersBalanced(s: string, i: nat, ms: Members, first: bool)
    requires WellFormedMembers(ms) && At(s, i, RenderMembers(ms, first))
    ensures Balanced(s, i, i + |RenderMembers(ms, first)|, OUTSIDE, OUTSIDE)
    decreases ms
  {
    hide Balanced, EndFrom;
    match ms
    case NoMembers => NothingBalanced(s, i, OUTSIDE);
    case Member(pre, key, bc, ac, v, post, rest) =>
      hide At, Inert, Blank, Render, RenderStr, Separator, WellFormedChars;
      var tail := RenderMembers(rest, false);
      MemberText(ms, first);
      LeadInert(first, pre);
      ColonInert(bc, ac);
      BlankInert(post);
      var k := KeyBalanced(s, i, Separator(first) + pre, key, bc + ([':'] + ac), Render(v) + (post + tail), RenderMembers(ms, first));
      var m := Surrounded(s, k, "", v, post, tail);
      MembersBalanced(s, m, rest, false);
      BalancedCompose(s, i, k, m, OUTSIDE, OUTSIDE, OUTSIDE);
      BalancedCompose(s, i, m, i + |RenderMembers(ms, first)|, OUTSIDE, OUTSIDE, OUTSIDE);
  }

  lemma MemberText(ms: Members, first: bool)
    requires ms.Member?
    ensures RenderMembers(ms, first) ==
            (Separator(first) + ms.pre) + (RenderStr(ms.key) + ((ms.beforeColon + ([':'] + ms.afterColon)) +
              (Render(ms.value) + (ms.post + RenderMembers(ms.rest, false)))))
  {
  }

  lemma KeyBalanced(s: string, i: nat, lead: string, key: seq<StrChar>, colon: string, rest: string, text: string) returns (k: nat)
    requires WellFormedChars(key) && text == lead + (RenderStr(key) + (colon + rest)) && At(s, i, text)
    requires (forall c :: c in lead ==> Inert(c)) && (forall c :: c in colon ==> Inert(c))
    ensures k + |rest| == i + |text| && At(s, k, "" + rest)
    ensures Balanced(s, i, k, OUTSIDE, OUTSIDE)
  {
    hide Balanced, RenderStr, At, WellFormedChars, Inert;
    assert "" + rest == rest;
    var a := i + |lead|;
    var b := a + |RenderStr(key)|;
    k := b + |colon|;
    AtParts(s, i, lead, RenderStr(key), colon, rest);
    InertBalanced(s, i, lead);
    StrBalanced(s, a, key);
    InertBalanced(s, b, colon);
    ThreeBalanced(s, i, a, b, k);
  }

  // ---------------------------------------------------------------- extraction is exact

  /** From the opening bracket of an object or array, wherever it stands, the balanced scan stops
      exactly at its closing bracket. */
  lemma ValueEndExact(s: string, i: nat, v: Value)
    requires (v.Array? || v.Object?) && WellFormed(v) && At(s, i, Render(v))
    ensures EndFrom(s, i, OUTSIDE, 0) == Some(i + |Render(v)| - 1)
  {
    hide Balanced, Render, Inner, WellFormed, EndFrom;
    InnerAt(s, i, v);
    InnerBalanced(s, i + 1, v);
    BracketsBalance(s, i, i + |Render(v)|);
  }

  /** A candidate start: an opening bracket in front of which the scanner stands outside strings. */
  ghost predicate IsStart(s: string, k: nat)
    requires k < |s|
  {
    (s[k] == '{' || s[k] == '[') && !ScanTo(s, k).Inside()
  }

  /** The candidate starts in front of `i`, in order. */
  ghost function StartsBefore(s: string, i: nat): (r: seq<nat>)
    requires i <= |s|
    ensures forall k: nat :: k in r <==> k < i && IsStart(s, k)
    ensures forall x, y :: 0 <= x < y < |r| ==> r[x] < r[y]
  {
    if i == 0 then [] else
      var rest := StartsBefore(s, i - 1);
      assert forall x :: 0 <= x < |rest| ==> rest[x] in rest;
      if IsStart(s, i - 1) then rest + [i - 1] else rest
  }

  lemma {:induction false} StartsSplit(s: string, i: nat)
    requires i <= |s|
    ensures StartsFrom(s, 0, OUTSIDE) == StartsBefore(s, i) + StartsFrom(s, i, ScanTo(s, i))
  {
    hide StepScan, StartsFrom, IsStart, StartsBefore;
    if i == 0 {
      NoStartsBefore(s);
    } else {
      StartsSplit(s, i - 1);
      StartsStep(s, i);
      MoveOver(StartsFrom(s, 0, OUTSIDE), StartsBefore(s, i - 1), i - 1, StartsFrom(s, i, ScanTo(s, i)), IsStart(s, i - 1));
    }
  }

  lemma NoStartsBefore(s: string)
    ensures StartsFrom(s, 0, OUTSIDE) == StartsBefore(s, 0) + StartsFrom(s, 0, ScanTo(s, 0))
  {
    hide StartsFrom;
    assert [] + StartsFrom(s, 0, OUTSIDE) == StartsFrom(s, 0, OUTSIDE);
  }

  /** Both lists, one position further. */
  lemma StartsStep(s: string, i: nat)
    requires 0 < i <= |s|
    ensures StartsBefore(s, i) == if IsStart(s, i - 1) then StartsBefore(s, i - 1) + [i - 1] else StartsBefore(s, i - 1)
    ensures var rest := StartsFrom(s, i, ScanTo(s, i));
            StartsFrom(s, i - 1, ScanTo(s, i - 1)) == if IsStart(s, i - 1) then [i - 1] + rest else rest
  {
    hide StepScan, StartsFrom;
    StartsNext(s, i - 1, ScanTo(s, i - 1));
    StartIs(s, i - 1);
    hide IsStart;
  }

  lemma MoveOver(all: seq<nat>, before: seq<nat>, x: nat, rest: seq<nat>, moves: bool)
    requires all == before + if moves then [x] + rest else rest
    ensures all == (if moves then before + [x] else before) + rest
  {
  }

  lemma StartIs(s: string, k: nat)
    requires k < |s|
    ensures IsStart(s, k) <==> (s[k] == '{' || s[k] == '[') && !ScanTo(s, k).Inside()
  {
  }

  /** The candidate at index `j` is the first accepted one, and gives `t`. */
  ghost predicate FirstAt(accepts: string -> bool, s: string, starts: seq<nat>, j: nat, t: string)
    requires Within(s, starts)
  {
    && j < |starts| && CandidateAt(accepts, s, starts[j]) == Some(t)
    && forall x :: 0 <= x < j ==> CandidateAt(accepts, s, starts[x]).None?
  }

  lemma {:induction false} FirstCandidateIs(accepts: string -> bool, s: string, starts: seq<nat>, t: string)
    requires Within(s, starts)
    ensures FirstCandidate(accepts, s, starts) == Some(t) <==> exists j: nat :: FirstAt(accepts, s, starts, j, t)
  {
    hide CandidateAt;
    if starts != [] {
      var rest := starts[1..];
      FirstNext(accepts, s, starts);
      FirstCandidateIs(accepts, s, rest, t);
      hide FirstCandidate;
      if CandidateAt(accepts, s, starts[0]).Some? {
        if CandidateAt(accepts, s, starts[0]) == Some(t) { assert FirstAt(accepts, s, starts, 0, t); }
      } else {
        if j: nat :| FirstAt(accepts, s, rest, j, t) {
          assert forall x :: 0 < x <= j ==> starts[x] == rest[x - 1];
          assert FirstAt(accepts, s, starts, j + 1, t);
        }
        if j: nat :| FirstAt(accepts, s, starts, j, t) {
          assert forall x :: 0 <= x < j ==> rest[x] == starts[x + 1];
          assert FirstAt(accepts, s, rest, j - 1, t);
        }
      }
    }
  }

  lemma {:induction false} StartsGrow(s: string, m: nat, n: nat)
    requires m <= n <= |s|
    ensures StartsBefore(s, m) <= StartsBefore(s, n)
    decreases n
  {
    hide IsStart, StartsBefore, ScanTo, StartsFrom;
    if m < n {
      StartsStep(s, n);
      StartsGrow(s, m, n - 1);
    }
  }

  lemma SameIndex(r: seq<nat>, i: nat, j: nat)
    requires i < |r| && j < |r| && r[i] == r[j] && forall x, y :: 0 <= x < y < |r| ==> r[x] < r[y]
    ensures i == j
  {
  }

  /** The starts before a start are those listed before it. */
  lemma BeforeIsPrefix(s: string, n: nat, j: nat)
    requires n <= |s| && j < |StartsBefore(s, n)|
    ensures var r := StartsBefore(s, n); r[j] < n && StartsBefore(s, r[j]) == r[..j]
  {
    hide IsStart, StartsBefore, ScanTo, StartsFrom;
    var r := StartsBefore(s, n);
    var m := r[j];
    assert m in r;
    StartsStep(s, m + 1);
    StartsGrow(s, m, n);
    StartsGrow(s, m + 1, n);
    var p := StartsBefore(s, m);
    assert (p + [m])[|p|] == m;
    SameIndex(r, |p|, j);
  }

  lemma AllStarts(s: string)
    ensures StartsFrom(s, 0, OUTSIDE) == StartsBefore(s, |s|)
  {
    hide StartsFrom, StartsBefore, ScanTo;
    StartsSplit(s, |s|);
    StartsEnd(s, ScanTo(s, |s|));
  }

  /** The text `t` at position `k` ends where the balanced scan from `k` does, and the decoder accepts what
      repair makes of it. */
  ghost predicate Accepted(accepts: string -> bool, s: string, k: nat, t: string) {
    At(s, k, t) && EndFrom(s, k, OUTSIDE, 0) == Some(k + |t| - 1) && t != "" && accepts(Repaired(t))
  }

  lemma CandidateIff(accepts: string -> bool, s: string, k: nat, t: string)
    requires k <= |s|
    ensures CandidateAt(accepts, s, k) == Some(t) <==> Accepted(accepts, s, k, t)
  {
    hide EndFrom, Repaired;
    if EndFrom(s, k, OUTSIDE, 0).Some? {
      EndInRange(s, k, OUTSIDE, 0);
      var e := EndFrom(s, k, OUTSIDE, 0).value;
      if t != "" && e == k + |t| - 1 { assert s[k..k + |t|] == s[k..e + 1]; }
    }
  }

  lemma NoCandidateIff(accepts: string -> bool, s: string, k: nat)
    requires k <= |s|
    ensures CandidateAt(accepts, s, k).None? <==> forall t :: !Accepted(accepts, s, k, t)
  {
    hide CandidateAt, Accepted;
    match CandidateAt(accepts, s, k)
    case Some(t) => CandidateIff(accepts, s, k, t);
    case None => forall t ensures !Accepted(accepts, s, k, t) { CandidateIff(accepts, s, k, t); }
  }

  /** `i` starts a candidate whose text `t` is accepted, fewer than 32 candidates start before it, and
      all of those are rejected. */
  ghost predicate FirstAccepted(accepts: string -> bool, s: string, i: nat, t: string) {
    && i < |s| && IsStart(s, i) && |StartsBefore(s, i)| < MAX_STARTS
    && Accepted(accepts, s, i, t)
    && forall k: nat, u :: k in StartsBefore(s, i) ==> !Accepted(accepts, s, k, u)
  }

  ghost predicate FirstTaken(accepts: string -> bool, s: string, i: nat, t: string) {
    && i < |s| && IsStart(s, i) && |StartsBefore(s, i)| < MAX_STARTS
    && CandidateAt(accepts, s, i) == Some(t)
    && forall k: nat :: k in StartsBefore(s, i) ==> k < |s| && CandidateAt(accepts, s, k).None?
  }

  lemma TakenIff(accepts: string -> bool, s: string, i: nat, t: string)
    ensures FirstTaken(accepts, s, i, t) <==> FirstAccepted(accepts, s, i, t)
  {
    hide CandidateAt, Accepted, IsStart;
    if i < |s| {
      CandidateIff(accepts, s, i, t);
      forall k: nat | k in StartsBefore(s, i)
        ensures k < |s| && (CandidateAt(accepts, s, k).None? <==> forall u :: !Accepted(accepts, s, k, u))
      {
        NoCandidateIff(accepts, s, k);
      }
    }
  }

  lemma TakenAre(r: seq<nat>, n: nat, j: nat)
    requires j < |r| && j < n
    ensures var starts := Take(r, n); j < |starts| && starts[j] == r[j] && starts[..j] == r[..j]
  {
  }

  lemma TakeLength(r: seq<nat>, n: nat)
    ensures |Take(r, n)| <= n && |Take(r, n)| <= |r|
  {
  }

  lemma FirstIsAccepted(accepts: string -> bool, s: string, starts: seq<nat>, j: nat, t: string)
    requires starts == Take(StartsBefore(s, |s|), MAX_STARTS) && Within(s, starts) && FirstAt(accepts, s, starts, j, t)
    ensures FirstTaken(accepts, s, starts[j], t)
  {
    hide CandidateAt, IsStart, Take, StartsBefore;
    var r := StartsBefore(s, |s|);
    TakeLength(r, MAX_STARTS);
    TakenAre(r, MAX_STARTS, j);
    assert r[j] in r;
    BeforeIsPrefix(s, |s|, j);
    forall k | k in r[..j] ensures k < |s| && CandidateAt(accepts, s, k).None? {
      var x :| 0 <= x < j && starts[..j][x] == k;
      assert starts[x] == k;
    }
  }

  lemma AcceptedIsFirst(accepts: string -> bool, s: string, starts: seq<nat>, i: nat, t: string) returns (j: nat)
    requires starts == Take(StartsBefore(s, |s|), MAX_STARTS) && Within(s, starts) && FirstTaken(accepts, s, i, t)
    ensures FirstAt(accepts, s, starts, j, t)
  {
    hide CandidateAt, IsStart;
    var r := StartsBefore(s, |s|);
    assert i in r;
    j :| 0 <= j < |r| && r[j] == i;
    BeforeIsPrefix(s, |s|, j);
    TakenAre(r, MAX_STARTS, j);
    hide Take;
    forall x | 0 <= x < j ensures CandidateAt(accepts, s, starts[x]).None? {
      assert starts[x] == starts[..j][x] && r[..j][x] in r[..j];
    }
  }

  /** What the search returns, for any text: the first of the first 32 candidates outside strings that
      the decoder accepts. */
  lemma ExtractsIff(accepts: string -> bool, s: string, t: string)
    ensures FirstCandidate(accepts, s, Take(StartsFrom(s, 0, OUTSIDE), MAX_STARTS)) == Some(t)
       <==> exists i: nat :: FirstAccepted(accepts, s, i, t)
  {
    var starts := Take(StartsFrom(s, 0, OUTSIDE), MAX_STARTS);
    AllStarts(s);
    hide CandidateAt, FirstCandidate, StartsFrom, StartsBefore, FirstAt, FirstTaken, FirstAccepted, Take;
    FirstCandidateIs(accepts, s, starts, t);
    if j: nat :| FirstAt(accepts, s, starts, j, t) {
      FirstInside(accepts, s, starts, j, t);
      FirstIsAccepted(accepts, s, starts, j, t);
      TakenIff(accepts, s, starts[j], t);
    }
    if i: nat :| FirstAccepted(accepts, s, i, t) {
      TakenIff(accepts, s, i, t);
      var j := AcceptedIsFirst(accepts, s, starts, i, t);
    }
  }

  lemma FirstInside(accepts: string -> bool, s: string, starts: seq<nat>, j: nat, t: string)
    requires Within(s, starts) && FirstAt(accepts, s, starts, j, t)
    ensures j < |starts|
  {
    hide CandidateAt;
  }

  /** In particular: an accepted object or array anywhere in a text is found if the scanner stands
      outside strings in front of it, fewer than 32 candidates come before it and all of them are
      rejected. Prose may hold quotes and apostrophes. */
  lemma ExtractsEmbedded(accepts: string -> bool, s: string, i: nat, v: Value)
    requires (v.Array? || v.Object?) && WellFormed(v) && At(s, i, Render(v)) && !ScanTo(s, i).Inside()
    requires accepts(Render(v)) && |StartsBefore(s, i)| < MAX_STARTS
    requires forall k: nat, u :: k in StartsBefore(s, i) ==> !Accepted(accepts, s, k, u)
    ensures FirstCandidate(accepts, s, Take(StartsFrom(s, 0, OUTSIDE), MAX_STARTS)) == Some(Render(v))
  {
    hide CandidateAt, FirstCandidate, StartsFrom, Render, WellFormed;
    InnerAt(s, i, v);
    ValueAccepted(accepts, s, i, v);
    hide Accepted;
    assert FirstAccepted(accepts, s, i, Render(v));
    hide StartsBefore, FirstAccepted;
    ExtractsIff(accepts, s, Render(v));
  }

  /** Prose as people write it: no double quotes, no opening brackets, and single quotes only as apostrophes. */
  ghost predicate PlainProse(s: string, i: nat)
    requires i <= |s|
  {
    forall k :: 0 <= k < i ==>
      && s[k] != '"' && s[k] != LEFT_DQ && s[k] != LEFT_SQ && s[k] != '{' && s[k] != '['
      && (s[k] == '\'' ==> Apostrophe(s, k))
  }

  lemma {:induction false} ProseIsQuiet(s: string, i: nat)
    requires i <= |s| && PlainProse(s, i)
    ensures ScanTo(s, i) == OUTSIDE && StartsBefore(s, i) == []
  {
    if i > 0 {
      ProseIsQuiet(s, i - 1);
      hide Apostrophe;
    }
  }

  /** An object or array behind such prose, with anything behind it, is found. */
  lemma ExtractsBehindProse(accepts: string -> bool, s: string, i: nat, v: Value)
    requires (v.Array? || v.Object?) && WellFormed(v) && At(s, i, Render(v)) && PlainProse(s, i) && accepts(Render(v))
    ensures FirstCandidate(accepts, s, Take(StartsFrom(s, 0, OUTSIDE), MAX_STARTS)) == Some(Render(v))
  {
    hide CandidateAt, FirstCandidate, StartsFrom;
    ProseIsQuiet(s, i);
    ExtractsEmbedded(accepts, s, i, v);
  }

  lemma ValueAccepted(accepts: string -> bool, s: string, i: nat, v: Value)
    requires (v.Array? || v.Object?) && WellFormed(v) && At(s, i, Render(v)) && accepts(Render(v))
    ensures Accepted(accepts, s, i, Render(v))
  {
    hide EndFrom, Render, RunTo;
    ValueEndExact(s, i, v);
    FirstRune(v);
    var r := Render(v);
    assert Renders(r, "", v, "") by { assert "" + (r + "") == r; }
    RepairIsIdentityOnValid(r);
  }
}
