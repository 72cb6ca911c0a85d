/** `repair` is the identity on valid JSON, so repairing is idempotent. */
module JsonIdentity {
  import opened Options
  import opened JsonGrammar
  import opened JsonRepair

  // ---------------------------------------------------------------- positions

  /** `x` stands in `s` at position `i`. */
  ghost predicate At(s: string, i: nat, x: string) {
    i + |x| <= |s| && s[i..i + |x|] == x
  }

  lemma AtSplit(s: string, i: nat, x: string, y: string)
    requires At(s, i, x + y)
    ensures At(s, i, x) && At(s, i + |x|, y)
  {
    assert forall k :: 0 <= k < |x| ==> s[i..i + |x + y|][k] == x[k];
    assert forall k :: 0 <= k < |y| ==> s[i..i + |x + y|][|x| + k] == y[k];
  }

  lemma AtChar(s: string, i: nat, c: char)
    requires At(s, i, [c])
    ensures i < |s| && s[i] == c
  {
    assert s[i..i + 1][0] == c;
  }

  lemma AtIndex(s: string, i: nat, x: string, k: nat)
    requires At(s, i, x) && k < |x|
    ensures s[i + k] == x[k]
  {
    assert s[i..i + |x|][k] == x[k];
  }

  // ---------------------------------------------------------------- stretches that are copied unchanged

  /** What the loop carries besides position and output. */
  datatype Mode = Mode(sc: Scan, prev: char)

  const IN_DQ := Scan(true, false, 0, 0)

  function Outside(prev: char): Mode { Mode(OUTSIDE, prev) }

  /** From position `i` in mode `a`, the loop copies the runes up to `n` and stands there in mode `b`. */
  ghost predicate Copies(s: string, i: nat, n: nat, a: Mode, b: Mode) {
    i <= n <= |s| && forall o: string :: RunTo(s, Loop(i, a.sc, a.prev, o), n) == Loop(n, b.sc, b.prev, o + s[i..n])
  }

  lemma {:induction false} RunToCompose(s: string, l: Loop, n: nat, m: nat)
    requires l.i <= |s| && n <= m <= |s|
    ensures RunTo(s, RunTo(s, l, n), m) == RunTo(s, l, m)
    decreases |s| - l.i
  {
    if l.i < n { RunToCompose(s, RepairStep(s, l), n, m); }
  }

  lemma CopiesCompose(s: string, i: nat, n: nat, m: nat, a: Mode, b: Mode, c: Mode)
    requires Copies(s, i, n, a, b) && Copies(s, n, m, b, c)
    ensures Copies(s, i, m, a, c)
  {
    hide RunTo, RepairStep;
    forall o: string ensures RunTo(s, Loop(i, a.sc, a.prev, o), m) == Loop(m, c.sc, c.prev, o + s[i..m]) {
      RunToCompose(s, Loop(i, a.sc, a.prev, o), n, m);
      assert o + s[i..n] + s[n..m] == o + s[i..m];
    }
  }

  lemma CopiesNothing(s: string, i: nat, a: Mode)
    requires i <= |s|
    ensures Copies(s, i, i, a, a)
  {
    assert forall o: string :: o + s[i..i] == o;
  }

  lemma CopiesOne(s: string, i: nat, a: Mode, b: Mode)
    requires i < |s|
    requires forall o: string :: RepairStep(s, Loop(i, a.sc, a.prev, o)) == Loop(i + 1, b.sc, b.prev, o + [s[i]])
    ensures Copies(s, i, i + 1, a, b)
  {
    assert s[i..i + 1] == [s[i]];
    forall o: string ensures RunTo(s, Loop(i, a.sc, a.prev, o), i + 1) == Loop(i + 1, b.sc, b.prev, o + s[i..i + 1]) {
      var l := Loop(i, a.sc, a.prev, o);
      assert RunTo(s, l, i + 1) == RunTo(s, RepairStep(s, l), i + 1);
    }
  }

  // ---------------------------------------------------------------- what may follow a value

  /** After blanks comes the end of the text, or a rune that neither is a colon nor continues a word. */
  ghost predicate Follow(s: string, j: nat) {
    j <= |s| && var k := SkipSpaces(s, j); k < |s| ==> !IsWord(s[k]) && s[k] != ':' && s[k] != WIDE_COLON
  }

  lemma {:induction false} SkipBlank(s: string, j: nat, w: string)
    requires At(s, j, w) && Blank(w)
    ensures SkipSpaces(s, j) == SkipSpaces(s, j + |w|)
    decreases |w|
  {
    if w != "" {
      AtIndex(s, j, w, 0);
      assert w == [w[0]] + w[1..];
      AtSplit(s, j, [w[0]], w[1..]);
      SkipBlank(s, j + 1, w[1..]);
    }
  }

  lemma FollowAfter(s: string, j: nat, post: string)
    requires At(s, j, post) && Blank(post)
    requires var n := j + |post|; n < |s| ==> s[n] == ',' || s[n] == ']' || s[n] == '}'
    ensures Follow(s, j)
  {
    SkipBlank(s, j, post);
  }

  // ---------------------------------------------------------------- blanks, punctuation, tokens

  lemma BlankParts(s: string, i: nat, w: string)
    requires w != "" && At(s, i, w) && Blank(w)
    ensures At(s, i, [w[0]]) && IsSpace(w[0]) && At(s, i + 1, w[1..]) && Blank(w[1..])
  {
    assert w == [w[0]] + w[1..];
    AtSplit(s, i, [w[0]], w[1..]);
    hide At, IsSpace;
    assert w[0] in w && forall c :: c in w[1..] ==> c in w;
  }

  lemma BlankStarts(s: string, i: nat, c: char, p: char)
    requires At(s, i, [c]) && IsSpace(c)
    ensures Copies(s, i, i + 1, Outside(p), Outside(p))
  {
    hide Copies;
    AtChar(s, i, c);
    forall o: string ensures RepairStep(s, Loop(i, OUTSIDE, p, o)) == Loop(i + 1, OUTSIDE, p, o + [s[i]]) {
    }
    CopiesOne(s, i, Outside(p), Outside(p));
  }

  lemma {:induction false} BlankCopies(s: string, i: nat, w: string, p: char)
    requires At(s, i, w) && Blank(w)
    ensures Copies(s, i, i + |w|, Outside(p), Outside(p))
    decreases |w|
  {
    hide Copies;
    if w == "" {
      CopiesNothing(s, i, Outside(p));
    } else {
      BlankParts(s, i, w);
      hide At, Blank, IsSpace, RepairStep, RunTo;
      BlankStarts(s, i, w[0], p);
      BlankCopies(s, i + 1, w[1..], p);
      CopiesCompose(s, i, i + 1, i + |w|, Outside(p), Outside(p), Outside(p));
    }
  }

  lemma PunctuationCopies(s: string, i: nat, c: char, p: char)
    requires At(s, i, [c]) && (c == '{' || c == '}' || c == '[' || c == ']' || c == ':')
    ensures Copies(s, i, i + 1, Outside(p), Outside(c))
  {
    AtChar(s, i, c);
    CopiesOne(s, i, Outside(p), Outside(c));
  }

  lemma CommaCopies(s: string, i: nat, p: char)
    requires At(s, i, ",") && !TrailingComma(s, i + 1)
    ensures Copies(s, i, i + 1, Outside(p), Outside(','))
  {
    AtChar(s, i, ',');
    CopiesOne(s, i, Outside(p), Outside(','));
  }

  predicate IsTokenChar(c: char) { IsWord(c) || c == '+' || c == '-' || c == '.' }

  /** In front of the rest of a token that nothing but Follow can follow, no bare key starts. */
  lemma {:induction false} TokenNoKey(s: string, i: nat, t: string)
    requires At(s, i, t) && Follow(s, i + |t|) && forall c :: c in t ==> IsTokenChar(c)
    ensures !BareKeyColon(s, i)
    decreases |t|
  {
    if t == "" {
      if i < |s| && !IsSpace(s[i]) { assert SkipSpaces(s, i) == i; }
      assert SkipWord(s, i) == i;
    } else {
      AtIndex(s, i, t, 0);
      if IsWord(t[0]) {
        assert t == [t[0]] + t[1..];
        AtSplit(s, i, [t[0]], t[1..]);
        TokenNoKey(s, i + 1, t[1..]);
      } else {
        assert t[0] in t && SkipWord(s, i) == i && SkipSpaces(s, i) == i;
      }
    }
  }

  lemma TokenStarts(s: string, i: nat, t: string, p: char)
    requires t != "" && At(s, i, t) && Follow(s, i + |t|) && forall c :: c in t ==> IsTokenChar(c)
    ensures Copies(s, i, i + 1, Outside(p), Outside(t[0]))
  {
    AtIndex(s, i, t, 0);
    TokenNoKey(s, i, t);
    assert t[0] in t;
    CopiesOne(s, i, Outside(p), Outside(t[0]));
  }

  lemma {:induction false} TokenCopies(s: string, i: nat, t: string, p: char)
    requires t != "" && At(s, i, t) && Follow(s, i + |t|) && forall c :: c in t ==> IsTokenChar(c)
    ensures Copies(s, i, i + |t|, Outside(p), Outside(t[|t| - 1]))
    decreases |t|
  {
    hide Copies, RepairStep;
    TokenStarts(s, i, t, p);
    if |t| > 1 {
      assert t == [t[0]] + t[1..];
      AtSplit(s, i, [t[0]], t[1..]);
      TokenCopies(s, i + 1, t[1..], t[0]);
      CopiesCompose(s, i, i + 1, i + |t|, Outside(p), Outside(t[0]), Outside(t[|t| - 1]));
    }
  }

  // ---------------------------------------------------------------- strings

  /** Inside a double-quoted string: a rune that is neither quote, backslash nor control. */
  lemma PlainCopies(s: string, i: nat, p: char)
    requires i < |s| && s[i] as int >= 0x20 && s[i] != '"' && s[i] != '\\'
    ensures Copies(s, i, i + 1, Mode(IN_DQ, p), Mode(IN_DQ, p))
  {
    CopiesOne(s, i, Mode(IN_DQ, p), Mode(IN_DQ, p));
  }

  lemma EscapeCopies(s: string, i: nat, p: char)
    requires i + 1 < |s| && s[i] == '\\'
    ensures Copies(s, i, i + 2, Mode(IN_DQ, p), Mode(IN_DQ, p))
  {
    var m := Mode(Scan(true, true, 0, 0), p);
    CopiesOne(s, i, Mode(IN_DQ, p), m);
    CopiesOne(s, i + 1, m, Mode(IN_DQ, p));
    CopiesCompose(s, i, i + 1, i + 2, Mode(IN_DQ, p), m, Mode(IN_DQ, p));
  }

  lemma {:induction false} PlainsCopy(s: string, i: nat, n: nat, p: char)
    requires i <= n <= |s| && forall k :: i <= k < n ==> s[k] as int >= 0x20 && s[k] != '"' && s[k] != '\\'
    ensures Copies(s, i, n, Mode(IN_DQ, p), Mode(IN_DQ, p))
    decreases n - i
  {
    if i == n {
      CopiesNothing(s, i, Mode(IN_DQ, p));
    } else {
      PlainCopies(s, i, p);
      PlainsCopy(s, i + 1, n, p);
      CopiesCompose(s, i, i + 1, n, Mode(IN_DQ, p), Mode(IN_DQ, p), Mode(IN_DQ, p));
    }
  }

  lemma StrCharCopies(s: string, i: nat, c: StrChar, p: char)
    requires c.WellFormed() && At(s, i, c.Render())
    ensures Copies(s, i, i + |c.Render()|, Mode(IN_DQ, p), Mode(IN_DQ, p))
  {
    var r := c.Render();
    AtIndex(s, i, r, 0);
    match c
    case Plain(x) =>
      PlainCopies(s, i, p);
    case Escape(x) =>
      EscapeCopies(s, i, p);
    case Unicode(h0, h1, h2, h3) =>
      AtIndex(s, i, r, 2);
      AtIndex(s, i, r, 3);
      AtIndex(s, i, r, 4);
      AtIndex(s, i, r, 5);
      EscapeCopies(s, i, p);
      PlainsCopy(s, i + 2, i + 6, p);
      CopiesCompose(s, i, i + 2, i + 6, Mode(IN_DQ, p), Mode(IN_DQ, p), Mode(IN_DQ, p));
  }

  lemma CharsParts(s: string, i: nat, cs: seq<StrChar>)
    requires cs != [] && WellFormedChars(cs) && At(s, i, RenderChars(cs))
    ensures cs[0].WellFormed() && WellFormedChars(cs[1..])
    ensures At(s, i, cs[0].Render()) && At(s, i + |cs[0].Render()|, RenderChars(cs[1..]))
    ensures |RenderChars(cs)| == |cs[0].Render()| + |RenderChars(cs[1..])|
  {
    hide At, StrChar.Render, StrChar.WellFormed;
    AtSplit(s, i, cs[0].Render(), RenderChars(cs[1..]));
    assert cs[0] in cs && forall c :: c in cs[1..] ==> c in cs;
  }

  lemma NoChars(s: string, i: nat)
    requires At(s, i, RenderChars([]))
    ensures RenderChars([]) == "" && i <= |s|
  {
  }

  lemma {:induction false} CharsCopy(s: string, i: nat, cs: seq<StrChar>, p: char)
    requires WellFormedChars(cs) && At(s, i, RenderChars(cs))
    ensures Copies(s, i, i + |RenderChars(cs)|, Mode(IN_DQ, p), Mode(IN_DQ, p))
    decreases |cs|
  {
    hide Copies, RepairStep, RunTo, At, RenderChars, WellFormedChars, StrChar.Render, StrChar.WellFormed;
    if cs == [] {
      NoChars(s, i);
      CopiesNothing(s, i, Mode(IN_DQ, p));
    } else {
      var r := cs[0].Render();
      CharsParts(s, i, cs);
      StrCharCopies(s, i, cs[0], p);
      CharsCopy(s, i + |r|, cs[1..], p);
      CopiesCompose(s, i, i + |r|, i + |RenderChars(cs)|, Mode(IN_DQ, p), Mode(IN_DQ, p), Mode(IN_DQ, p));
    }
  }

  lemma StrCopies(s: string, i: nat, cs: seq<StrChar>, p: char)
    requires WellFormedChars(cs) && At(s, i, RenderStr(cs))
    ensures Copies(s, i, i + |RenderStr(cs)|, Outside(p), Outside('"'))
  {
    hide Copies, RenderChars;
    var body, n := RenderChars(cs), i + |RenderStr(cs)|;
    AtSplit(s, i, ['"'], body + ['"']);
    AtSplit(s, i + 1, body, ['"']);
    AtChar(s, i, '"');
    AtChar(s, n - 1, '"');
    var m := Mode(IN_DQ, '"');
    CopiesOne(s, i, Outside(p), m);
    CharsCopy(s, i + 1, cs, '"');
    CopiesOne(s, n - 1, m, Outside('"'));
    CopiesCompose(s, i, i + 1, n - 1, Outside(p), m, m);
    CopiesCompose(s, i, n - 1, n, Outside(p), m, Outside('"'));
  }

  // ---------------------------------------------------------------- values

  /** A value's text is not empty and does not start with a blank or a closing bracket. */
  lemma FirstRune(v: Value)
    requires WellFormed(v)
    ensures var r := Render(v); r != "" && !IsSpace(r[0]) && r[0] != ']' && r[0] != '}'
  {
    match v
    case Number(m, w, f, e) =>
      assert w[0] in w;
    case _ =>
  }

  lemma AllIn(x: string, y: string)
    requires (forall c :: c in x ==> IsTokenChar(c)) && (forall c :: c in y ==> IsTokenChar(c))
    ensures forall c :: c in x + y ==> IsTokenChar(c)
  {
  }

  lemma DigitsAreTokens(x: string, k: nat)
    requires k <= |x| && Digits(x[k..]) && forall j :: 0 <= j < k ==> IsTokenChar(x[j])
    ensures forall c :: c in x ==> IsTokenChar(c)
  {
    assert x == x[..k] + x[k..];
  }

  lemma NumberIsToken(v: Value)
    requires v.Number? && WellFormed(v)
    ensures Render(v) != "" && forall c :: c in Render(v) ==> IsTokenChar(c)
  {
    var sign := if v.minus then "-" else "";
    DigitsAreTokens(v.whole, 0);
    if v.fraction != "" { DigitsAreTokens(v.fraction, 1); }
    if v.exponent != "" { DigitsAreTokens(v.exponent, if Digits(v.exponent[1..]) then 1 else 2); }
    AllIn(sign, v.whole);
    AllIn(sign + v.whole, v.fraction);
    AllIn(sign + v.whole + v.fraction, v.exponent);
  }

  /** A separator comma is not a trailing one: blanks and then a value or a key come next. */
  lemma SeparatorCopies(s: string, i: nat, first: bool, pre: string, rest: string, p: char) returns (p': char)
    requires At(s, i, Separator(first) + (pre + rest)) && Blank(pre) && i <= |s|
    requires rest != "" && !IsSpace(rest[0]) && rest[0] != ']' && rest[0] != '}'
    ensures Copies(s, i, i + |Separator(first)| + |pre|, Outside(p), Outside(p'))
    ensures At(s, i + |Separator(first)| + |pre|, rest)
  {
    hide Copies, TrailingComma, At, Blank, RepairStep, RunTo;
    var sep := Separator(first);
    AtSplit(s, i, sep, pre + rest);
    var j := i + |sep|;
    NotTrailing(s, j, pre, rest);
    if first {
      p' := p;
      CopiesNothing(s, i, Outside(p));
    } else {
      p' := ',';
      CommaCopies(s, i, p);
    }
    BlankCopies(s, j, pre, p');
    CopiesCompose(s, i, j, j + |pre|, Outside(p), Outside(p'), Outside(p'));
  }

  lemma NotTrailing(s: string, j: nat, pre: string, rest: string)
    requires At(s, j, pre + rest) && Blank(pre)
    requires rest != "" && !IsSpace(rest[0]) && rest[0] != ']' && rest[0] != '}'
    ensures j + |pre| < |s| && At(s, j, pre) && At(s, j + |pre|, rest) && !TrailingComma(s, j)
  {
    AtSplit(s, j, pre, rest);
    AtIndex(s, j + |pre|, rest, 0);
    SkipBlank(s, j, pre);
  }

  lemma {:induction false} ValueCopies(s: string, i: nat, v: Value, p: char) returns (p': char)
    requires WellFormed(v) && At(s, i, Render(v)) && Follow(s, i + |Render(v)|)
    ensures Copies(s, i, i + |Render(v)|, Outside(p), Outside(p'))
    decreases v, 0
  {
    hide Copies, Follow, At, RepairStep, RunTo, RenderItems, RenderMembers, RenderChars;
    var r := Render(v);
    var n := i + |r|;
    match v
    case True => TokenCopies(s, i, r, p); p' := r[|r| - 1];
    case False => TokenCopies(s, i, r, p); p' := r[|r| - 1];
    case Null => TokenCopies(s, i, r, p); p' := r[|r| - 1];
    case Number(_, _, _, _) =>
      NumberIsToken(v);
      TokenCopies(s, i, r, p);
      p' := r[|r| - 1];
    case Str(cs) =>
      StrCopies(s, i, cs, p);
      p' := '"';
    case Array(gap, items) =>
      var body := RenderItems(items, true);
      var j := BracketOpens(s, i, '[', gap, body, ']', p);
      var q := ItemsCopy(s, j, items, true, '[');
      BracketCloses(s, i, j, n, ']', p, '[', q);
      p' := ']';
    case Object(gap, members) =>
      var body := RenderMembers(members, true);
      var j := BracketOpens(s, i, '{', gap, body, '}', p);
      var q := MembersCopy(s, j, members, true, '{');
      BracketCloses(s, i, j, n, '}', p, '{', q);
      p' := '}';
  }

  lemma BracketOpens(s: string, i: nat, open: char, gap: string, body: string, close: char, p: char) returns (j: nat)
    requires At(s, i, [open] + (gap + (body + [close]))) && Blank(gap)
    requires (open == '[' && close == ']') || (open == '{' && close == '}')
    ensures j == i + 1 + |gap| && At(s, j, body) && j + |body| < |s| && s[j + |body|] == close
    ensures At(s, j + |body|, [close])
    ensures Copies(s, i, j, Outside(p), Outside(open))
  {
    hide Copies;
    AtSplit(s, i, [open], gap + (body + [close]));
    AtSplit(s, i + 1, gap, body + [close]);
    j := i + 1 + |gap|;
    AtSplit(s, j, body, [close]);
    AtChar(s, j + |body|, close);
    PunctuationCopies(s, i, open, p);
    BlankCopies(s, i + 1, gap, open);
    CopiesCompose(s, i, i + 1, j, Outside(p), Outside(open), Outside(open));
  }

  lemma BracketCloses(s: string, i: nat, j: nat, n: nat, close: char, p: char, open: char, q: char)
    requires n > 0 && Copies(s, i, j, Outside(p), Outside(open)) && Copies(s, j, n - 1, Outside(open), Outside(q))
    requires At(s, n - 1, [close]) && (close == ']' || close == '}')
    ensures Copies(s, i, n, Outside(p), Outside(close))
  {
    hide Copies;
    PunctuationCopies(s, n - 1, close, q);
    CopiesCompose(s, i, j, n - 1, Outside(p), Outside(open), Outside(q));
    CopiesCompose(s, i, n - 1, n, Outside(p), Outside(q), Outside(close));
  }

  lemma {:induction false} ItemsCopy(s: string, i: nat, items: Items, first: bool, p: char) returns (p': char)
    requires WellFormedItems(items) && At(s, i, RenderItems(items, first))
    requires var n := i + |RenderItems(items, first)|; n < |s| && s[n] == ']'
    ensures Copies(s, i, i + |RenderItems(items, first)|, Outside(p), Outside(p'))
    decreases items
  {
    hide Copies, Follow;
    match items
    case NoItems =>
      CopiesNothing(s, i, Outside(p));
      p' := p;
    case Item(pre, v, post, rest) =>
      var tail := RenderItems(rest, false);
      var n := i + |RenderItems(items, first)|;
      var k, q := ItemCopies(s, i, first, pre, v, post, tail, p);
      p' := ItemsCopy(s, k, rest, false, q);
      CopiesCompose(s, i, k, n, Outside(p), Outside(q), Outside(p'));
  }

  /** One array element, from its separator to its trailing blanks. */
  lemma {:induction false} ItemCopies(s: string, i: nat, first: bool, pre: string, v: Value, post: string, tail: string, p: char)
    returns (k: nat, q: char)
    requires Blank(pre) && WellFormed(v) && Blank(post)
    requires var text := Separator(first) + (pre + (Render(v) + (post + tail)));
             At(s, i, text) && i + |text| < |s| && s[i + |text|] == ']'
    requires tail == "" || tail[0] == ','
    ensures k + |tail| == i + |Separator(first) + (pre + (Render(v) + (post + tail)))|
    ensures At(s, k, tail) && Copies(s, i, k, Outside(p), Outside(q))
    decreases v, 2
  {
    hide Copies, Render;
    FirstRune(v);
    var q1 := SeparatorCopies(s, i, first, pre, Render(v) + (post + tail), p);
    var j := i + |Separator(first)| + |pre|;
    q := ValueAndPost(s, j, v, post, tail, q1, ']');
    k := j + |Render(v)| + |post|;
    CopiesCompose(s, i, j, k, Outside(p), Outside(q1), Outside(q));
  }

  /** What comes right after an element's trailing blanks: a comma, or the closing bracket. */
  ghost predicate TailStarts(tail: string, s: string, k: nat, close: char) {
    k + |tail| < |s| && s[k + |tail|] == close && (tail == "" || tail[0] == ',')
  }

  /** Where a value, its trailing blanks and the rest stand, and that the value is followed properly. */
  lemma FollowsValue(s: string, i: nat, r: string, post: string, tail: string, close: char)
    requires Blank(post) && At(s, i, r + (post + tail))
    requires TailStarts(tail, s, i + |r| + |post|, close) && (close == ']' || close == '}')
    ensures At(s, i, r) && At(s, i + |r|, post) && At(s, i + |r| + |post|, tail) && Follow(s, i + |r|)
  {
    hide Follow, Blank;
    var j := i + |r|;
    AtSplit(s, i, r, post + tail);
    AtSplit(s, j, post, tail);
    if tail != "" { AtIndex(s, j + |post|, tail, 0); }
    FollowAfter(s, j, post);
  }

  lemma {:induction false} ValueAndPost(s: string, i: nat, v: Value, post: string, tail: string, p: char, close: char)
    returns (p': char)
    requires WellFormed(v) && Blank(post) && At(s, i, Render(v) + (post + tail))
    requires TailStarts(tail, s, i + |Render(v)| + |post|, close) && (close == ']' || close == '}')
    ensures Copies(s, i, i + |Render(v)| + |post|, Outside(p), Outside(p'))
    ensures At(s, i + |Render(v)| + |post|, tail)
    decreases v, 1
  {
    hide Copies, Render, WellFormed, RepairStep, RunTo;
    var j := i + |Render(v)|;
    FollowsValue(s, i, Render(v), post, tail, close);
    hide At, Blank, Follow, TailStarts;
    p' := ValueCopies(s, i, v, p);
    BlankCopies(s, j, post, p');
    CopiesCompose(s, i, j, j + |post|, Outside(p), Outside(p'), Outside(p'));
  }

  lemma {:induction false} MembersCopy(s: string, i: nat, ms: Members, first: bool, p: char) returns (p': char)
    requires WellFormedMembers(ms) && At(s, i, RenderMembers(ms, first))
    requires var n := i + |RenderMembers(ms, first)|; n < |s| && s[n] == '}'
    ensures Copies(s, i, i + |RenderMembers(ms, first)|, Outside(p), Outside(p'))
    decreases ms
  {
    hide Copies, Follow;
    match ms
    case NoMembers =>
      CopiesNothing(s, i, Outside(p));
      p' := p;
    case Member(pre, key, bc, ac, v, post, rest) =>
      var tail := RenderMembers(rest, false);
      var n := i + |RenderMembers(ms, first)|;
      var k, q := MemberCopies(s, i, first, pre, key, bc, ac, v, post, tail, p);
      p' := MembersCopy(s, k, rest, false, q);
      CopiesCompose(s, i, k, n, Outside(p), Outside(q), Outside(p'));
  }

  /** One member, from its separator to its trailing blanks. */
  lemma {:induction false} MemberCopies(s: string, i: nat, first: bool, pre: string, key: seq<StrChar>, bc: string, ac: string,
                                        v: Value, post: string, tail: string, p: char) returns (k: nat, q: char)
    requires Blank(pre) && WellFormedChars(key) && Blank(bc) && Blank(ac) && WellFormed(v) && Blank(post)
    requires var text := Separator(first) + (pre + (RenderStr(key) + (bc + ([':'] + (ac + (Render(v) + (post + tail)))))));
             At(s, i, text) && i + |text| < |s| && s[i + |text|] == '}'
    requires tail == "" || tail[0] == ','
    ensures k + |tail| == i + |Separator(first) + (pre + (RenderStr(key) + (bc + ([':'] + (ac + (Render(v) + (post + tail)))))))|
    ensures At(s, k, tail) && Copies(s, i, k, Outside(p), Outside(q))
    decreases v, 2
  {
    hide Copies, RenderStr, Render;
    var inner := Render(v) + (post + tail);
    KeyStarts(key);
    var q1 := SeparatorCopies(s, i, first, pre, RenderStr(key) + (bc + ([':'] + (ac + inner))), p);
    var j := i + |Separator(first)| + |pre|;
    KeyAndColon(s, j, key, bc, ac, inner);
    KeyAndColonCopies(s, j, key, bc, ac, inner, q1);
    var m := j + |RenderStr(key)| + |bc| + 1 + |ac|;
    q := ValueAndPost(s, m, v, post, tail, ':', '}');
    k := m + |Render(v)| + |post|;
    CopiesCompose(s, i, j, m, Outside(p), Outside(q1), Outside(':'));
    CopiesCompose(s, i, m, k, Outside(p), Outside(':'), Outside(q));
  }

  lemma KeyStarts(key: seq<StrChar>)
    ensures RenderStr(key) != "" && RenderStr(key)[0] == '"'
  {
  }

  lemma KeyAndColon(s: string, i: nat, key: seq<StrChar>, bc: string, ac: string, rest: string)
    requires At(s, i, RenderStr(key) + (bc + ([':'] + (ac + rest))))
    ensures At(s, i, RenderStr(key)) && At(s, i + |RenderStr(key)|, bc)
    ensures At(s, i + |RenderStr(key)| + |bc|, [':']) && At(s, i + |RenderStr(key)| + |bc| + 1, ac)
    ensures At(s, i + |RenderStr(key)| + |bc| + 1 + |ac|, rest)
  {
    var j := i + |RenderStr(key)|;
    AtSplit(s, i, RenderStr(key), bc + ([':'] + (ac + rest)));
    AtSplit(s, j, bc, [':'] + (ac + rest));
    AtSplit(s, j + |bc|, [':'], ac + rest);
    AtSplit(s, j + |bc| + 1, ac, rest);
  }

  lemma KeyAndColonCopies(s: string, i: nat, key: seq<StrChar>, bc: string, ac: string, rest: string, p: char)
    requires At(s, i, RenderStr(key) + (bc + ([':'] + (ac + rest))))
    requires WellFormedChars(key) && Blank(bc) && Blank(ac)
    ensures Copies(s, i, i + |RenderStr(key)| + |bc| + 1 + |ac|, Outside(p), Outside(':'))
  {
    hide Copies;
    KeyAndColon(s, i, key, bc, ac, rest);
    var j := i + |RenderStr(key)|;
    var k := j + |bc|;
    StrCopies(s, i, key, p);
    BlankCopies(s, j, bc, '"');
    PunctuationCopies(s, k, ':', '"');
    BlankCopies(s, k + 1, ac, ':');
    CopiesCompose(s, i, j, k, Outside(p), Outside('"'), Outside('"'));
    CopiesCompose(s, i, k, k + 1, Outside(p), Outside('"'), Outside(':'));
    CopiesCompose(s, i, k + 1, k + 1 + |ac|, Outside(p), Outside(':'), Outside(':'));
  }

  // ---------------------------------------------------------------- the theorems

  /** Repair leaves every valid JSON text exactly as it is. */
  lemma RepairIsIdentityOnValid(s: string)
    requires ValidJson(s)
    ensures Repaired(s) == s
  {
    hide Copies, Follow, Render;
    var before, v, after :| Renders(s, before, v, after);
    var i, n := |before|, |before| + |Render(v)|;
    assert At(s, 0, before + (Render(v) + after));
    AtSplit(s, 0, before, Render(v) + after);
    AtSplit(s, i, Render(v), after);
    FollowAfter(s, n, after);
    BlankCopies(s, 0, before, '\0');
    var p := ValueCopies(s, i, v, '\0');
    BlankCopies(s, n, after, p);
    CopiesCompose(s, 0, i, n, Outside('\0'), Outside('\0'), Outside(p));
    CopiesCompose(s, 0, n, |s|, Outside('\0'), Outside(p), Outside(p));
    CopiesWhole(s, p);
  }

  lemma CopiesWhole(s: string, p: char)
    requires Copies(s, 0, |s|, Outside('\0'), Outside(p))
    ensures Repaired(s) == s
  {
    assert "" + s[0..|s|] == s;
  }

  /** `RepairString`: repair, then accept only what the strict decoder accepts, which may reject a
      text of the grammar (a number out of range, say). An accepted text comes back unchanged, and
      so does every result. */
  method RepairString(s: string, accepts: string -> bool) returns (r: Option<string>)
    requires forall t :: accepts(t) ==> ValidJson(t)
    ensures r == if accepts(Repaired(s)) then Some(Repaired(s)) else None
    ensures accepts(s) ==> r == Some(s)
    ensures r.Some? ==> Repaired(r.value) == r.value && accepts(r.value)
  {
    hide ValidJson, Repaired;
    if ValidJson(s) { RepairIsIdentityOnValid(s); }
    var t := Repair(s);
    if ValidJson(t) { RepairIsIdentityOnValid(t); }
    r := if accepts(t) then Some(t) else None;
  }

  /** A text that repairs to a valid one repairs to a fixed point. */
  lemma RepairStringIdempotent(s: string)
    requires ValidJson(Repaired(s))
    ensures Repaired(Repaired(s)) == Repaired(s)
  {
    RepairIsIdentityOnValid(Repaired(s));
  }
}
