/** The summary block inside a system prompt (module/guard/guard.go, `stripCompactedSummary`): when
    taking old blocks out ends, and that a new summary replaces the old one. */
module SummaryText {
  import opened Options

  const OPEN := "<compacted-summary>"
  const CLOSE := "</compacted-summary>"

  predicate IsBlank(c: char) {
    c in " \t\n\r" || c as int in {0x0B, 0x0C, 0x85, 0xA0, 0x1680, 0x2028, 0x2029, 0x202F, 0x205F, 0x3000}
    || 0x2000 <= c as int <= 0x200A
  }

  function TrimLeft(s: string): string { if s != "" && IsBlank(s[0]) then TrimLeft(s[1..]) else s }

  function TrimRight(s: string): string { if s != "" && IsBlank(s[|s| - 1]) then TrimRight(s[..|s| - 1]) else s }

  function Trim(s: string): string { TrimLeft(TrimRight(s)) }

  predicate TagAt(s: string, i: nat, tag: string) { i + |tag| <= |s| && s[i..i + |tag|] == tag }

  /** The first place of `tag` at or after `i`. */
  function FindFrom(s: string, tag: string, i: nat): (r: Option<nat>)
    ensures r.Some? ==> i <= r.value && TagAt(s, r.value, tag) && forall j :: i <= j < r.value ==> !TagAt(s, j, tag)
    ensures r.None? ==> forall j :: i <= j ==> !TagAt(s, j, tag)
    decreases |s| - i
  {
    if i + |tag| > |s| then None else if s[i..i + |tag|] == tag then Some(i) else FindFrom(s, tag, i + 1)
  }

  function Find(s: string, tag: string): (r: Option<nat>)
    ensures r.Some? ==> TagAt(s, r.value, tag) && r.value + |tag| <= |s| && forall j :: 0 <= j < r.value ==> !TagAt(s, j, tag)
    ensures r.None? ==> forall j :: 0 <= j ==> !TagAt(s, j, tag)
  {
    FindFrom(s, tag, 0)
  }

  predicate Tagless(s: string) { Find(s, OPEN).None? && Find(s, CLOSE).None? }

  /** The loop returns here. */
  predicate Done(s: string) { Find(s, OPEN).None? || Find(s, CLOSE).None? }

  /** The first closing tag stands before the first opening one. */
  predicate Trap(s: string) { !Done(s) && Find(s, CLOSE).value < Find(s, OPEN).value }

  /** From the first opening tag to the first closing one. */
  function Cut(s: string): (r: string)
    requires !Done(s)
    ensures !Trap(s) ==> |r| < |s|
  {
    s[..Find(s, OPEN).value] + s[Find(s, CLOSE).value + |CLOSE|..]
  }

  /** What one turn of the loop leaves. */
  function Next(s: string): (r: string)
    requires !Done(s)
    ensures !Trap(s) ==> |r| < |s|
  {
    TrimShorter(Cut(s));
    Trim(Cut(s))
  }

  /** The text without summary blocks, unless the loop runs into a trap. */
  function Strip(s: string): Option<string>
    decreases |s|
  {
    if Done(s) then Some(s) else if Trap(s) then None else Strip(Next(s))
  }

  /** Up to `turns` turns of the loop that takes earlier summary blocks out, and whether it returned by
      then. As every turn but those of a trap shortens the text, so many turns as the text is long are enough. */
  method StripCompactedSummary(text: string, turns: nat) returns (content: string, returned: bool)
    ensures content == After(text, turns) && returned == Done(content)
    ensures returned ==> Strip(text) == Some(content)
    ensures turns >= |text| && Strip(text).Some? ==> returned
  {
    hide Trim, Find, Strip;
    content, returned := text, false;
    EndsWithin(text);
    EndsIff(text);
    for turn := 0 to turns
      invariant !returned && After(content, turns - turn) == After(text, turns)
    {
      var start := Find(content, OPEN);
      if start.None? { returned := true; return; }
      var end := Find(content, CLOSE);
      if end.None? { returned := true; return; }
      assert Cut(content) == content[..start.value] + content[end.value + |CLOSE|..];
      content := Trim(content[..start.value] + content[end.value + |CLOSE|..]);
    }
    returned := Find(content, OPEN).None? || Find(content, CLOSE).None?;
  }

  // ---------------------------------------------------------------- trimming

  /** Trimming cuts a blank front and a blank back off. */
  lemma {:induction false} TrimLeftIs(s: string) returns (i: nat)
    ensures i <= |s| && TrimLeft(s) == s[i..] && forall k :: 0 <= k < i ==> IsBlank(s[k])
  {
    if s != "" && IsBlank(s[0]) {
      var j := TrimLeftIs(s[1..]);
      i := j + 1;
      assert forall k :: 1 <= k < i ==> s[k] == s[1..][k - 1];
    } else {
      i := 0;
    }
  }

  lemma {:induction false} TrimRightIs(s: string) returns (j: nat)
    ensures j <= |s| && TrimRight(s) == s[..j] && forall k :: j <= k < |s| ==> IsBlank(s[k])
  {
    if s != "" && IsBlank(s[|s| - 1]) {
      j := TrimRightIs(s[..|s| - 1]);
      assert forall k :: j <= k < |s| - 1 ==> s[k] == s[..|s| - 1][k];
    } else {
      j := |s|;
    }
  }

  lemma TrimIs(s: string) returns (i: nat, j: nat)
    ensures i <= j <= |s| && Trim(s) == s[i..j]
    ensures (forall k :: 0 <= k < i ==> IsBlank(s[k])) && forall k :: j <= k < |s| ==> IsBlank(s[k])
  {
    j := TrimRightIs(s);
    i := TrimLeftIs(s[..j]);
    assert forall k :: 0 <= k < i ==> s[k] == s[..j][k];
  }

  lemma TrimShorter(s: string)
    ensures |Trim(s)| <= |s|
  {
    var i, j := TrimIs(s);
  }

  lemma {:induction false} TrimmedEnds(s: string)
    ensures TrimRight(s) == "" || !IsBlank(TrimRight(s)[|TrimRight(s)| - 1])
    ensures TrimLeft(s) == "" || !IsBlank(TrimLeft(s)[0])
    decreases |s|
  {
    if s != "" {
      TrimmedEnds(s[..|s| - 1]);
      TrimmedEnds(s[1..]);
    }
  }

  lemma TrimIdempotent(s: string)
    ensures Trim(Trim(s)) == Trim(s)
  {
    var r := TrimRight(s);
    TrimmedEnds(s);
    TrimmedEnds(r);
    var i := TrimLeftIs(r);
    assert Trim(s) == r[i..];
    if r[i..] != "" { assert r[i..][|r[i..]| - 1] == r[|r| - 1]; }
  }

  predicate Blanks(s: string) { forall k :: 0 <= k < |s| ==> IsBlank(s[k]) }

  predicate EndsBlank(s: string) { s == "" || IsBlank(s[|s| - 1]) }

  lemma {:induction false} TrimLeftFront(a: string, y: string)
    requires y == "" || !IsBlank(y[0])
    ensures TrimLeft(a + y) == TrimLeft(a) + y
  {
    hide IsBlank;
    if a == "" {
      assert a + y == y;
    } else if IsBlank(a[0]) {
      assert (a + y)[1..] == a[1..] + y;
      TrimLeftFront(a[1..], y);
    }
  }

  lemma {:induction false} TrimLeftBlanks(l: string, a: string)
    requires Blanks(l)
    ensures TrimLeft(l + a) == TrimLeft(a)
  {
    hide IsBlank;
    if l == "" {
      assert l + a == a;
    } else {
      assert (l + a)[1..] == l[1..] + a;
      TrimLeftBlanks(l[1..], a);
    }
  }

  lemma {:induction false} TrimRightBlanks(a: string, m: string)
    requires Blanks(m)
    ensures TrimRight(a + m) == TrimRight(a)
  {
    hide IsBlank;
    if m == "" {
      assert a + m == a;
    } else {
      assert (a + m)[..|a + m| - 1] == a + m[..|m| - 1];
      TrimRightBlanks(a, m[..|m| - 1]);
    }
  }

  lemma TrimIgnoresFront(l: string, z: string)
    requires Blanks(l)
    ensures Trim(l + z) == Trim(z)
  {
    hide IsBlank;
    var j := TrimRightIs(z);
    TrimmedEnds(z);
    assert l + z == (l + z[..j]) + z[j..];
    TrimRightBlanks(l + z[..j], z[j..]);
    if j == 0 {
      assert l + z[..j] == "" + l;
      TrimRightBlanks("", l);
    } else {
      assert (l + z[..j])[|l + z[..j]| - 1] == z[..j][j - 1];
      TrimLeftBlanks(l, z[..j]);
    }
  }

  lemma TrimEnds(s: string)
    ensures Trim(s) != "" ==> !IsBlank(Trim(s)[0]) && !IsBlank(Trim(s)[|Trim(s)| - 1])
  {
    hide IsBlank;
    TrimmedEnds(s);
    TrimmedEnds(TrimRight(s));
    var i := TrimLeftIs(TrimRight(s));
  }

  lemma Associates(a: string, b: string, c: string, d: string)
    ensures a + (b + c + d) == ((a + b) + c) + d
  {
  }

  lemma TrimRightStays(a: string, y: string)
    requires y != "" && !IsBlank(y[|y| - 1])
    ensures TrimRight(a + y) == a + y
  {
    hide IsBlank;
    assert (a + y)[|a + y| - 1] == y[|y| - 1];
  }

  lemma TrimParts(f: string, l: string, y: string, m: string)
    requires y != "" && !IsBlank(y[0]) && !IsBlank(y[|y| - 1]) && Blanks(m)
    ensures Trim(f + (l + y + m)) == TrimLeft(f + l) + y
  {
    hide IsBlank, Blanks, TrimRight, TrimLeft;
    Associates(f, l, y, m);
    TrimRightBlanks((f + l) + y, m);
    TrimRightStays(f + l, y);
    TrimLeftFront(f + l, y);
  }

  lemma TrimFront(f: string, l: string)
    requires EndsBlank(f) && Blanks(l)
    ensures EndsBlank(TrimLeft(f + l)) && Trim(TrimLeft(f + l)) == Trim(f)
  {
    hide IsBlank;
    var k := TrimLeftIs(f + l);
    var g := TrimLeft(f + l);
    TrimRightBlanks(f, l);
    assert f + l == (f + l)[..k] + g;
    TrimIgnoresFront((f + l)[..k], g);
  }

  /** Trimming a text behind a front that ends in a blank trims the text, and keeps the front up to blanks. */
  lemma TrimBehind(f: string, x: string) returns (g: string)
    requires EndsBlank(f)
    ensures EndsBlank(g) && Trim(g) == Trim(f)
    ensures Trim(f + x) == if Trim(x) == "" then Trim(f) else g + Trim(x)
  {
    var i, j := TrimIs(x);
    var l, y, m := x[..i], x[i..j], x[j..];
    assert x == l + y + m;
    if y == "" {
      assert Blanks(x) by { assert i == j; }
      TrimRightBlanks(f, x);
      g := f;
    } else {
      assert Blanks(l) && Blanks(m);
      hide IsBlank, Blanks, Trim, TrimLeft, EndsBlank;
      TrimEnds(x);
      TrimParts(f, l, y, m);
      TrimFront(f, l);
      g := TrimLeft(f + l);
    }
  }

  // ---------------------------------------------------------------- where tags can stand

  predicate IsTag(tag: string) { tag == OPEN || tag == CLOSE }

  lemma TagShape(tag: string)
    requires IsTag(tag)
    ensures |tag| >= 2 && tag[0] == '<' && tag[|tag| - 1] == '>'
    ensures forall k :: 1 <= k < |tag| ==> tag[k] != '<'
    ensures forall k :: 0 <= k < |tag| ==> !IsBlank(tag[k])
  {
  }

  lemma TagsDiffer(a: string, b: string)
    requires IsTag(a) && IsTag(b) && a != b
    ensures |a| >= 2 && |b| >= 2 && a[1] != b[1]
  {
  }

  lemma TagChar(s: string, p: nat, tag: string, k: nat)
    requires TagAt(s, p, tag) && p <= k < p + |tag|
    ensures s[k] == tag[k - p]
  {
    assert s[p..p + |tag|][k - p] == s[k];
  }

  /** Two tags do not overlap. */
  lemma TagsApart(s: string, i: nat, a: string, j: nat, b: string)
    requires IsTag(a) && IsTag(b) && a != b && TagAt(s, i, a) && TagAt(s, j, b)
    ensures i + |a| <= j || j + |b| <= i
  {
    hide TagAt, IsTag;
    TagShape(a);
    TagShape(b);
    TagsDiffer(a, b);
    if i <= j < i + |a| {
      TagChar(s, i, a, j);
      TagChar(s, j, b, j);
      if i == j {
        TagChar(s, i, a, i + 1);
        TagChar(s, j, b, i + 1);
      }
    }
    if j < i < j + |b| {
      TagChar(s, i, a, i);
      TagChar(s, j, b, i);
    }
  }

  /** No tag stands across a blank. */
  lemma BlankParts(s: string, p: nat, tag: string, k: nat)
    requires IsTag(tag) && TagAt(s, p, tag) && k < |s| && IsBlank(s[k])
    ensures k < p || p + |tag| <= k
  {
    hide IsBlank;
    TagShape(tag);
    if p <= k < p + |tag| { TagChar(s, p, tag, k); }
  }

  lemma TagInFront(a: string, b: string, p: nat, tag: string)
    requires p + |tag| <= |a|
    ensures TagAt(a + b, p, tag) <==> TagAt(a, p, tag)
  {
    assert (a + b)[p..p + |tag|] == a[p..p + |tag|];
  }

  lemma TagBehind(a: string, b: string, p: nat, tag: string)
    ensures TagAt(a + b, |a| + p, tag) <==> TagAt(b, p, tag)
  {
    if p + |tag| <= |b| { assert (a + b)[|a| + p..|a| + p + |tag|] == b[p..p + |tag|]; }
  }

  lemma TagFits(s: string, p: nat, tag: string)
    requires TagAt(s, p, tag)
    ensures p + |tag| <= |s|
  {
  }

  /** Trimming moves every tag by the same distance. */
  lemma TrimKeepsTags(s: string) returns (d: nat)
    ensures forall p: nat, tag :: IsTag(tag) && TagAt(s, p, tag) ==> d <= p && TagAt(Trim(s), p - d, tag)
    ensures forall p: nat, tag :: TagAt(Trim(s), p, tag) ==> TagAt(s, p + d, tag)
  {
    hide Trim, TagAt, IsBlank;
    var i, j := TrimIs(s);
    d := i;
    assert s == s[..i] + (s[i..j] + s[j..]);
    forall p: nat, tag | TagAt(Trim(s), p, tag) ensures TagAt(s, p + d, tag) {
      TagFits(s[i..j], p, tag);
      TagInFront(s[i..j], s[j..], p, tag);
      TagBehind(s[..i], s[i..j] + s[j..], p, tag);
    }
    forall p: nat, tag | IsTag(tag) && TagAt(s, p, tag) ensures d <= p && TagAt(Trim(s), p - d, tag) {
      InsideBlanks(s, i, j, p, tag);
      TagBehind(s[..i], s[i..j] + s[j..], p - i, tag);
      TagInFront(s[i..j], s[j..], p - i, tag);
    }
  }

  lemma InsideBlanks(s: string, i: nat, j: nat, p: nat, tag: string)
    requires i <= j <= |s| && IsTag(tag) && TagAt(s, p, tag)
    requires (forall k :: 0 <= k < i ==> IsBlank(s[k])) && forall k :: j <= k < |s| ==> IsBlank(s[k])
    ensures i <= p && p + |tag| <= j
  {
    hide IsBlank;
    TagShape(tag);
    if p < i { BlankParts(s, p, tag, p); }
    if p + |tag| > j { BlankParts(s, p, tag, p + |tag| - 1); }
  }

  // ---------------------------------------------------------------- when the loop ends

  lemma TrapIs(s: string, c: nat, o: nat)
    requires TagAt(s, c, CLOSE) && TagAt(s, o, OPEN) && forall p :: TagAt(s, p, OPEN) ==> c < p
    ensures Trap(s)
  {
    hide TagAt;
  }

  /** A tag in the kept front, or in the kept back, is still there after the cut. */
  lemma CutKeepsTags(s: string, start: nat, end: nat, p: nat, tag: string)
    requires end <= start <= |s|
    ensures p + |tag| <= start ==> (TagAt(s, p, tag) <==> TagAt(s[..start] + s[end..], p, tag))
    ensures p >= end && TagAt(s, p, tag) ==> TagAt(s[..start] + s[end..], start - end + p, tag)
  {
    hide TagAt;
    var a, b := s[..start], s[end..];
    assert s == a + s[start..] == s[..end] + b;
    if p + |tag| <= start {
      TagInFront(a, s[start..], p, tag);
      TagInFront(a, b, p, tag);
    }
    if p >= end {
      TagBehind(s[..end], b, p - end, tag);
      TagBehind(a, b, p - end, tag);
    }
  }

  /** Out of a trap there is no way: the turn leaves the first closing tag and puts another copy of what
      lies between the two tags behind it. */
  lemma TrapStays(s: string)
    requires Trap(s)
    ensures Trap(Next(s))
  {
    var start, close := Find(s, OPEN).value, Find(s, CLOSE).value;
    var end := close + |CLOSE|;
    hide TagAt, Trim, Find;
    TagsApart(s, start, OPEN, close, CLOSE);
    var t := s[..start] + s[end..];
    assert t == Cut(s);
    hide Cut, Trap;
    CutKeepsTags(s, start, end, close, CLOSE);
    CutKeepsTags(s, start, end, start, OPEN);
    forall p | TagAt(t, p, OPEN) ensures close < p {
      TagsApart(t, p, OPEN, close, CLOSE);
      CutKeepsTags(s, start, end, p, OPEN);
    }
    TrimmedTrap(t, close, start - end + start);
  }

  lemma TrimmedTrap(t: string, c: nat, o: nat)
    requires TagAt(t, c, CLOSE) && TagAt(t, o, OPEN) && forall p :: TagAt(t, p, OPEN) ==> c < p
    ensures Trap(Trim(t))
  {
    hide TagAt, Trim, Trap;
    var d := TrimKeepsTags(t);
    TrapIs(Trim(t), c - d, o - d);
  }

  /** The text after `n` turns. */
  function After(s: string, n: nat): string
    decreases n
  {
    if n == 0 || Done(s) then s else After(Next(s), n - 1)
  }

  lemma {:induction false} EndedIsStripped(s: string, n: nat)
    requires Done(After(s, n))
    ensures Strip(s) == Some(After(s, n))
    decreases n
  {
    hide Done, Next;
    if !Done(s) {
      EndedIsStripped(Next(s), n - 1);
      if Trap(s) { TrapStays(s); }
    }
  }

  lemma {:induction false} EndsWithin(s: string)
    ensures Strip(s).Some? ==> forall n :: n >= |s| ==> Done(After(s, n))
    decreases |s|
  {
    hide Next, Done;
    if Done(s) {
    } else if !Trap(s) {
      EndsWithin(Next(s));
      if Strip(s).Some? {
        forall n | n >= |s| ensures Done(After(s, n)) { assert After(s, n) == After(Next(s), n - 1); }
      }
    }
  }

  /** The loop ends if and only if it never meets a trap, and then with the stripped text. */
  lemma EndsIff(s: string)
    ensures (exists n :: Done(After(s, n))) <==> Strip(s).Some?
    ensures forall n :: Done(After(s, n)) ==> Strip(s) == Some(After(s, n))
  {
    hide Done, After, Strip;
    EndsWithin(s);
    if Strip(s).Some? { assert Done(After(s, |s|)); }
    forall n | Done(After(s, n)) ensures Strip(s) == Some(After(s, n)) { EndedIsStripped(s, n); }
  }

  /** The shortest text on which it does not end. */
  lemma TrapExample(n: nat)
    ensures !Done(After(CLOSE + OPEN, n))
  {
    var s := CLOSE + OPEN;
    assert s[0..|CLOSE|] == CLOSE && s[|CLOSE|..|CLOSE| + |OPEN|] == OPEN;
    assert TagAt(s, 0, CLOSE) && TagAt(s, |CLOSE|, OPEN);
    hide TagAt, Done, Find;
    forall p | TagAt(s, p, OPEN) ensures 0 < p { TagsApart(s, p, OPEN, 0, CLOSE); }
    TrapIs(s, 0, |CLOSE|);
    EndsIff(s);
  }

  // ---------------------------------------------------------------- behind a front without tags

  /** Where a tag of `f + r` can stand if `f` has no such tag and ends in a blank. */
  lemma TagsShift(f: string, r: string, p: nat, tag: string)
    requires IsTag(tag) && EndsBlank(f) && Find(f, tag).None?
    ensures TagAt(f + r, p, tag) <==> p >= |f| && TagAt(r, p - |f|, tag)
  {
    hide TagAt, IsBlank, Find, IsTag;
    if p < |f| {
      if TagAt(f + r, p, tag) {
        BlankParts(f + r, p, tag, |f| - 1);
        TagInFront(f, r, p, tag);
      }
    } else {
      TagBehind(f, r, p - |f|, tag);
    }
  }

  lemma FindIs(s: string, tag: string, i: nat)
    requires TagAt(s, i, tag) && forall p: nat :: TagAt(s, p, tag) ==> p >= i
    ensures Find(s, tag) == Some(i)
  {
    hide TagAt;
  }

  lemma FindShift(f: string, r: string, tag: string)
    requires IsTag(tag) && EndsBlank(f) && Find(f, tag).None?
    ensures Find(f + r, tag) == match Find(r, tag) case None => None case Some(i) => Some(|f| + i)
  {
    hide TagAt, EndsBlank, IsTag;
    forall p: nat ensures TagAt(f + r, p, tag) <==> p >= |f| && TagAt(r, p - |f|, tag) { TagsShift(f, r, p, tag); }
    if Find(r, tag).Some? { FindIs(f + r, tag, |f| + Find(r, tag).value); }
  }

  lemma FindFront(a: string, b: string, tag: string)
    requires Find(a, tag).Some?
    ensures Find(a + b, tag) == Find(a, tag)
  {
    var i := Find(a, tag).value;
    hide TagAt, Find;
    TagInFront(a, b, i, tag);
    forall p: nat | TagAt(a + b, p, tag) ensures p >= i {
      if p < i { TagInFront(a, b, p, tag); }
    }
    FindIs(a + b, tag, i);
  }

  lemma FindTrim(s: string, tag: string)
    requires IsTag(tag)
    ensures Find(Trim(s), tag).None? <==> Find(s, tag).None?
  {
    hide TagAt, Trim, IsTag;
    var d := TrimKeepsTags(s);
  }

  lemma TaglessTrim(s: string)
    ensures Tagless(Trim(s)) <==> Tagless(s)
  {
    hide Find;
    FindTrim(s, OPEN);
    FindTrim(s, CLOSE);
  }

  /** The loop does not look at such a front. */
  lemma CutShift(f: string, r: string)
    requires Tagless(f) && EndsBlank(f)
    ensures (Done(f + r) <==> Done(r)) && (Trap(f + r) <==> Trap(r))
    ensures !Done(r) ==> Cut(f + r) == f + Cut(r)
  {
    hide Find, EndsBlank, IsTag;
    assert IsTag(OPEN) && IsTag(CLOSE) by { TagsAre(); }
    FindShift(f, r, OPEN);
    FindShift(f, r, CLOSE);
    if !Done(r) { SlicesShift(f, r, Find(r, OPEN).value, Find(r, CLOSE).value + |CLOSE|); }
  }

  lemma TagsAre()
    ensures IsTag(OPEN) && IsTag(CLOSE)
  {
  }

  lemma SlicesShift(f: string, r: string, i: nat, j: nat)
    requires i <= |r| && j <= |r|
    ensures (f + r)[..|f| + i] + (f + r)[|f| + j..] == f + (r[..i] + r[j..])
  {
  }

  /** What the loop makes of a text behind such a front: the front as it is up to blanks, and what the
      loop makes of the text alone. */
  lemma {:induction false} StripBehind(f: string, r: string) returns (g: string)
    requires Tagless(f) && EndsBlank(f) && !Done(r)
    ensures Tagless(g) && EndsBlank(g) && Trim(g) == Trim(f)
    ensures Strip(f + r) == match Strip(r)
                            case None => None
                            case Some(u) => Some(if u == "" then Trim(f) else g + u)
    decreases |r|
  {
    hide Find, Trim, Cut, Trap, EndsBlank, Done, Tagless;
    CutShift(f, r);
    g := TrimBehind(f, Cut(r));
    TaglessTrim(f);
    TaglessTrim(g);
    if !Trap(r) {
      var y := Next(r);
      if y == "" {
        TaglessIsDone(Trim(f));
        NothingIsDone();
      } else {
        CutShift(g, y);
        if !Done(y) { g := StripBehind(g, y); }
      }
    }
  }

  lemma TaglessIsDone(s: string)
    requires Tagless(s)
    ensures Done(s)
  {
  }

  lemma NothingIsDone()
    ensures Done("")
  {
  }

  // ---------------------------------------------------------------- what becomes of a summary

  function Wrapped(summary: string): string { OPEN + "\n" + summary + "\n" + CLOSE }

  function Block(summary: string): string { "\n\n" + Wrapped(summary) }

  /** What the loop leaves of a summary block that stands alone, if it ends. */
  function Residue(summary: string): Option<string> { Strip(Wrapped(summary)) }

  lemma TagItself(tag: string)
    requires IsTag(tag)
    ensures Find(tag, tag) == Some(0)
  {
    assert tag[0..|tag|] == tag && TagAt(tag, 0, tag);
  }

  lemma NewlineIsBlank()
    ensures IsBlank('\n') && Blanks("\n") && Blanks("\n\n")
  {
  }

  lemma FindNewline(s: string, tag: string)
    requires IsTag(tag)
    ensures Find(s + "\n", tag).None? <==> Find(s, tag).None?
  {
    NewlineIsBlank();
    hide IsBlank, Find, IsTag, TrimRight, TrimLeft;
    TrimRightBlanks(s, "\n");
    FindTrim(s, tag);
    FindTrim(s + "\n", tag);
  }

  lemma FindInTail(summary: string, tag: string)
    requires IsTag(tag)
    ensures Find(summary + "\n" + tag, tag) == Some(if Find(summary, tag).Some? then Find(summary, tag).value else |summary| + 1)
  {
    hide IsBlank, Find, IsTag, TagAt;
    NewlineIsBlank();
    FindNewline(summary, tag);
    TagItself(tag);
    if Find(summary, tag).Some? {
      assert summary + "\n" + tag == summary + ("\n" + tag);
      FindFront(summary, "\n" + tag, tag);
    } else {
      FindShift(summary + "\n", tag, tag);
    }
  }

  lemma NotInShorter(s: string, tag: string)
    requires |s| < |tag|
    ensures Find(s, tag).None?
  {
  }

  lemma WrappedParts(open: string, summary: string, close: string)
    ensures var w, tail := open + "\n" + summary + "\n" + close, summary + "\n" + close;
            w == (open + "\n") + tail && w == open + ("\n" + tail)
  {
  }

  lemma WrappedTagsAre(open: string, summary: string, close: string)
    requires IsTag(open) && IsTag(close) && open != close && |open| < |close|
    ensures var w := open + "\n" + summary + "\n" + close;
            && Find(w, open) == Some(0)
            && Find(w, close) == Some(if Find(summary, close).Some? then |open| + 1 + Find(summary, close).value else |w| - |close|)
  {
    var w, tail := open + "\n" + summary + "\n" + close, summary + "\n" + close;
    NewlineIsBlank();
    hide IsBlank, Find, IsTag, TagAt;
    WrappedParts(open, summary, close);
    TagItself(open);
    FindFront(open, "\n" + tail, open);
    FindInTail(summary, close);
    NotInShorter(open, close);
    FindNewline(open, close);
    FindShift(open + "\n", tail, close);
  }

  lemma WrappedTags(summary: string)
    ensures var w := Wrapped(summary);
            && Find(w, OPEN) == Some(0) && |w| == |OPEN| + |summary| + 2 + |CLOSE|
            && Find(w, CLOSE) == Some(if Find(summary, CLOSE).Some? then |OPEN| + 1 + Find(summary, CLOSE).value else |w| - |CLOSE|)
  {
    hide Find, TagAt;
    TagsDiffer(OPEN, CLOSE);
    WrappedTagsAre(OPEN, summary, CLOSE);
  }

  /** One turn on the block alone: nothing is left if the summary does not quote the closing tag, and
      otherwise what follows the first one it quotes. */
  lemma WrappedTurn(summary: string)
    ensures var w := Wrapped(summary);
            && !Done(w) && !Trap(w)
            && Cut(w) == match Find(summary, CLOSE)
                         case None => ""
                         case Some(c) => summary[c + |CLOSE|..] + "\n" + CLOSE
  {
    WrappedTags(summary);
    var w := Wrapped(summary);
    if Find(summary, CLOSE).Some? {
      BehindQuote(OPEN, summary, CLOSE, Find(summary, CLOSE).value + |CLOSE|);
    }
    hide Find;
    assert w[|w|..] == "" && w[..0] == "";
  }

  lemma BehindQuote(open: string, summary: string, close: string, k: nat)
    requires k <= |summary|
    ensures (open + "\n" + summary + "\n" + close)[|open| + 1 + k..] == summary[k..] + "\n" + close
  {
  }

  /** What a summary leaves, as far as it can be read off: nothing if it does not quote the closing tag;
      a closing tag if it quotes that one only; otherwise what the loop makes of the rest behind the
      first one quoted. */
  lemma ResidueReadOff(summary: string)
    ensures Find(summary, CLOSE).None? ==> Residue(summary) == Some("")
    ensures Find(summary, CLOSE).Some? ==> var rest := summary[Find(summary, CLOSE).value + |CLOSE|..] + "\n" + CLOSE;
              && Residue(summary) == Strip(Trim(rest))
              && (Find(summary, OPEN).None? ==> Residue(summary) == Some(Trim(rest)) && Find(Trim(rest), CLOSE).Some?)
  {
    hide Find, Trim, Cut, TagAt, Wrapped;
    WrappedTurn(summary);
    match Find(summary, CLOSE) {
      case None =>
        NothingIsDone();
        TrimNothing();
        var w := Wrapped(summary);
        assert Next(w) == "" && Strip(w) == Strip("");
      case Some(c) =>
        var rest := summary[c + |CLOSE|..] + "\n" + CLOSE;
        if Find(summary, OPEN).None? { OnlyCloses(summary, c + |CLOSE|); }
    }
  }

  lemma TrimNothing()
    ensures Trim("") == ""
  {
  }

  lemma OnlyCloses(summary: string, k: nat)
    requires k <= |summary| && Find(summary, OPEN).None?
    ensures var rest := Trim(summary[k..] + "\n" + CLOSE); Find(rest, OPEN).None? && Find(rest, CLOSE).Some?
  {
    var tail := summary[k..];
    TagsAre();
    NewlineIsBlank();
    hide IsBlank, TagAt, Find, IsTag, Trim;
    FindDrop(summary, k, OPEN);
    FindNewline(tail, OPEN);
    OpenNotInClose();
    FindShift(tail + "\n", CLOSE, OPEN);
    FindInTail(tail, CLOSE);
    FindTrim(tail + "\n" + CLOSE, OPEN);
    FindTrim(tail + "\n" + CLOSE, CLOSE);
  }

  lemma FindDrop(s: string, k: nat, tag: string)
    requires k <= |s| && Find(s, tag).None?
    ensures Find(s[k..], tag).None?
  {
    var t := s[k..];
    assert s == s[..k] + t;
    hide TagAt, Find;
    if Find(t, tag).Some? { TagBehind(s[..k], t, Find(t, tag).value, tag); }
  }

  lemma OpenNotInClose()
    ensures Find(CLOSE, OPEN).None?
  {
    TagsAre();
    TagItself(CLOSE);
    hide TagAt;
    if Find(CLOSE, OPEN).Some? {
      var i := Find(CLOSE, OPEN).value;
      TagsApart(CLOSE, i, OPEN, 0, CLOSE);
      TagFits(CLOSE, i, OPEN);
      assert false;
    }
  }

  // ---------------------------------------------------------------- a new summary replaces the old one

  /** The prompt with `summary` in it. */
  function Merge(prompt: string, summary: string): Option<string> {
    match Strip(prompt) case None => None case Some(base) => Some(base + Block(summary))
  }

  /** The prompt after one compaction for each summary. */
  function MergeAll(prompt: string, summaries: seq<string>): Option<string> {
    if summaries == [] then Some(prompt) else
      match MergeAll(prompt, summaries[..|summaries| - 1])
      case None => None
      case Some(p) => Merge(p, summaries[|summaries| - 1])
  }

  lemma BlockParts(base: string, summary: string)
    ensures base + Block(summary) == (base + "\n\n") + Wrapped(summary)
  {
    hide Wrapped;
  }

  lemma FrontOf(base: string, tag: string)
    requires IsTag(tag)
    ensures EndsBlank(base + "\n\n") && Trim(base + "\n\n") == Trim(base)
    ensures Find(base + "\n\n", tag).None? <==> Find(base, tag).None?
  {
    NewlineIsBlank();
    hide IsBlank, Find, IsTag, TrimRight, TrimLeft;
    TrimRightBlanks(base, "\n\n");
    FindTrim(base, tag);
    FindTrim(base + "\n\n", tag);
  }

  /** One turn takes exactly the block out of a prompt without tags of its own if and only if the
      summary does not quote the closing tag. */
  lemma BlockIsCutIff(base: string, summary: string)
    requires Tagless(base)
    ensures !Done(base + Block(summary)) && !Trap(base + Block(summary))
    ensures Cut(base + Block(summary)) == base + "\n\n" <==> Find(summary, CLOSE).None?
  {
    hide Find, TagAt, Block, Wrapped, Cut, Trim, EndsBlank;
    TagsAre();
    FrontOf(base, OPEN);
    FrontOf(base, CLOSE);
    BlockParts(base, summary);
    WrappedTurn(summary);
    CutShift(base + "\n\n", Wrapped(summary));
    Lengthens(base + "\n\n", Cut(Wrapped(summary)));
  }

  lemma Lengthens(a: string, b: string)
    ensures a + b == a <==> b == ""
  {
    assert |a + b| == |a| + |b|;
  }

  /** What compacting again makes of a prompt without tags of its own: the prompt, and what the old
      summary leaves. */
  lemma BlockLeaves(base: string, summary: string) returns (g: string)
    requires Tagless(base)
    ensures Tagless(g) && EndsBlank(g) && Trim(g) == Trim(base)
    ensures Strip(base + Block(summary)) == match Residue(summary)
                                            case None => None
                                            case Some(u) => Some(if u == "" then Trim(base) else g + u)
  {
    hide Find, TagAt, Block, Wrapped, Cut, Trim, Strip, EndsBlank;
    TagsAre();
    FrontOf(base, OPEN);
    FrontOf(base, CLOSE);
    BlockParts(base, summary);
    WrappedTurn(summary);
    g := StripBehind(base + "\n\n", Wrapped(summary));
  }

  /** A prompt with a closing tag and no opening one is a trap once it holds a summary. */
  lemma ClosedPromptTraps(base: string, summary: string)
    requires Find(base, OPEN).None? && Find(base, CLOSE).Some?
    ensures Strip(base + Block(summary)).None?
  {
    hide Find, TagAt, Block, Wrapped, Trim, EndsBlank;
    TagsAre();
    FrontOf(base, OPEN);
    BlockParts(base, summary);
    WrappedTags(summary);
    FindFits(base, CLOSE);
    FindShift(base + "\n\n", Wrapped(summary), OPEN);
    FindFront(base, Block(summary), CLOSE);
  }

  lemma FindFits(s: string, tag: string)
    requires Find(s, tag).Some?
    ensures Find(s, tag).value + |tag| <= |s|
  {
  }

  predicate EndsWith(s: string, tag: string) { |s| >= |tag| && TagAt(s, |s| - |tag|, tag) }

  /** Where the loop returns a text that ended in a closing tag, no opening tag is left. */
  lemma {:induction false} ClosedEnd(s: string)
    requires EndsWith(s, CLOSE) && Strip(s).Some?
    ensures Find(Strip(s).value, OPEN).None?
    decreases |s|
  {
    hide Find, Trim, Cut, TagAt, EndsWith;
    EndIsFound(s);
    if !Done(s) {
      CutEnd(s);
      TagsAre();
      if EndsWith(Cut(s), CLOSE) {
        TrimKeepsEnd(Cut(s));
        ClosedEnd(Next(s));
      } else {
        FindTrim(Cut(s), OPEN);
      }
    }
  }

  lemma EndIsFound(s: string)
    requires EndsWith(s, CLOSE)
    ensures Find(s, CLOSE).Some?
  {
  }

  /** The cut reaches the closing tag at the end, or leaves it. */
  lemma CutEnd(s: string)
    requires EndsWith(s, CLOSE) && !Done(s) && !Trap(s)
    ensures EndsWith(Cut(s), CLOSE) || Find(Cut(s), OPEN).None?
  {
    hide TagAt, Find, EndsWith;
    TagsAre();
    FindFits(s, CLOSE);
    CutEndAt(s, OPEN, Find(s, OPEN).value, CLOSE, Find(s, CLOSE).value);
  }

  lemma CutEndAt(s: string, open: string, start: nat, close: string, at: nat)
    requires IsTag(open) && IsTag(close) && EndsWith(s, close)
    requires Find(s, open) == Some(start) && Find(s, close) == Some(at) && start <= at && at + |close| <= |s|
    ensures var cut := s[..start] + s[at + |close|..]; EndsWith(cut, close) || Find(cut, open).None?
  {
    hide TagAt, Find, IsTag, EndsWith;
    EndIsAt(s, close);
    FindFits(s, open);
    var a, b := s[..start], s[at + |close|..];
    assert s == a + s[start..] && s == s[..at + |close|] + b;
    SameTagApart(s, at, |s| - |close|, close);
    if b == "" {
      assert a + b == a;
      TagIsLong(open);
      NoneBefore(a, s[start..], open);
    } else {
      EndOfRest(s[..at + |close|], b, close);
      EndOfMore(a, b, close);
    }
  }

  lemma EndIsAt(s: string, tag: string)
    requires EndsWith(s, tag)
    ensures |s| >= |tag| && TagAt(s, |s| - |tag|, tag)
  {
  }

  lemma EndOfRest(a: string, b: string, tag: string)
    requires EndsWith(a + b, tag) && |b| >= |tag|
    ensures EndsWith(b, tag)
  {
    hide TagAt;
    TagBehind(a, b, |b| - |tag|, tag);
  }

  lemma EndOfMore(a: string, b: string, tag: string)
    requires EndsWith(b, tag)
    ensures EndsWith(a + b, tag)
  {
    hide TagAt;
    TagBehind(a, b, |b| - |tag|, tag);
  }

  lemma TagIsLong(tag: string)
    requires IsTag(tag)
    ensures |tag| > 0
  {
  }

  lemma NoneBefore(a: string, b: string, tag: string)
    requires |tag| > 0 && Find(a + b, tag) == Some(|a|)
    ensures Find(a, tag).None?
  {
    hide TagAt, Find;
    if Find(a, tag).Some? { FindFront(a, b, tag); }
  }

  lemma SameTagApart(s: string, i: nat, j: nat, tag: string)
    requires IsTag(tag) && TagAt(s, i, tag) && TagAt(s, j, tag) && i <= j
    ensures i == j || i + |tag| <= j
  {
    hide TagAt, IsTag;
    TagShape(tag);
    if i < j < i + |tag| {
      TagChar(s, i, tag, j);
      TagChar(s, j, tag, j);
    }
  }

  lemma TrimKeepsEnd(s: string)
    requires EndsWith(s, CLOSE)
    ensures EndsWith(Trim(s), CLOSE)
  {
    var i, j := TrimIs(s);
    TagsAre();
    hide TagAt, Trim, IsTag, IsBlank;
    var n := |s| - |CLOSE|;
    InsideBlanks(s, i, j, n, CLOSE);
    assert s == s[..i] + s[i..];
    TagBehind(s[..i], s[i..], n - i, CLOSE);
    assert s[i..j] == s[i..];
  }

  lemma BlockEnds(base: string, summary: string)
    ensures EndsWith(base + Block(summary), CLOSE)
  {
    BlockEnd(base, OPEN, summary, CLOSE);
  }

  lemma BlockEnd(base: string, open: string, summary: string, close: string)
    ensures EndsWith(base + ("\n\n" + (open + "\n" + summary + "\n" + close)), close)
  {
    var s, front := base + ("\n\n" + (open + "\n" + summary + "\n" + close)), base + "\n\n" + open + "\n" + summary + "\n";
    assert s == front + close;
    assert s[|front|..|s|] == close;
  }

  /** A new summary replaces the old one, and nothing else of the prompt changes, if and only if the
      prompt has no tag of its own and the old summary leaves nothing. */
  lemma ReplacedIff(base: string, summary: string)
    requires Done(base)
    ensures Strip(base + Block(summary)) == Some(Trim(base)) <==> Tagless(base) && Residue(summary) == Some("")
  {
    hide Strip, Find, Trim, Block, Wrapped, EndsWith, Residue;
    if Tagless(base) {
      var g := BlockLeaves(base, summary);
      TrimShorter(g);
      if Residue(summary).Some? { Longer(g, Residue(summary).value, Trim(base)); }
    } else if Find(base, OPEN).None? {
      ClosedPromptTraps(base, summary);
    } else if Strip(base + Block(summary)).Some? {
      BlockEnds(base, summary);
      ClosedEnd(base + Block(summary));
      TagsAre();
      FindTrim(base, OPEN);
    }
  }

  lemma Longer(g: string, u: string, t: string)
    requires |t| <= |g|
    ensures u != "" ==> |g + u| > |t|
  {
  }

  lemma OpenPromptTags(base: string, summary: string)
    requires Find(base, OPEN).Some? && Find(base, CLOSE).None? && Find(summary, CLOSE).None?
    ensures var s := base + Block(summary);
            Find(s, OPEN) == Find(base, OPEN) && Find(s, CLOSE) == Some(|s| - |CLOSE|) && |s| - |CLOSE| >= |base|
  {
    hide Find, TagAt, Block, Wrapped, Trim, EndsBlank, IsTag;
    TagsAre();
    FrontOf(base, CLOSE);
    BlockParts(base, summary);
    WrappedTags(summary);
    FindFront(base, Block(summary), OPEN);
    FindShift(base + "\n\n", Wrapped(summary), CLOSE);
  }

  lemma FrontIsKept(a: string, b: string, p: nat)
    requires p <= |a|
    ensures (a + b)[..p] + (a + b)[|a + b|..] == a[..p]
  {
  }

  lemma FrontIsDone(base: string)
    requires Find(base, OPEN).Some?
    ensures Find(base, OPEN).value <= |base| && Done(Trim(base[..Find(base, OPEN).value]))
  {
    var p := Find(base, OPEN).value;
    hide Find, TagAt, Trim, IsTag;
    TagsAre();
    FindFits(base, OPEN);
    TagIsLong(OPEN);
    assert base == base[..p] + base[p..];
    NoneBefore(base[..p], base[p..], OPEN);
    FindTrim(base[..p], OPEN);
  }

  /** A prompt with an opening tag and no closing one loses what stands behind that tag. */
  lemma OpenPromptIsCut(base: string, summary: string)
    requires Find(base, OPEN).Some? && Find(base, CLOSE).None? && Find(summary, CLOSE).None?
    ensures Strip(base + Block(summary)) == Some(Trim(base[..Find(base, OPEN).value]))
  {
    hide Find, TagAt, Block, Trim;
    FrontIsDone(base);
    OpenPromptTags(base, summary);
    FrontIsKept(base, Block(summary), Find(base, OPEN).value);
    hide Done;
    assert Next(base + Block(summary)) == Trim(base[..Find(base, OPEN).value]);
  }

  // ---------------------------------------------------------------- over a run of compactions

  /** The prompt that the next summary is appended to. */
  function BaseAfter(prompt: string, summaries: seq<string>): Option<string> {
    match MergeAll(prompt, summaries) case None => None case Some(p) => Strip(p)
  }

  lemma MergeStep(prompt: string, earlier: seq<string>, t: string)
    ensures MergeAll(prompt, earlier + [t]) == match BaseAfter(prompt, earlier) case None => None case Some(b) => Some(b + Block(t))
    ensures BaseAfter(prompt, earlier + [t]) == match BaseAfter(prompt, earlier) case None => None case Some(b) => Strip(b + Block(t))
  {
    hide Strip, Block;
    assert (earlier + [t])[..|earlier + [t]| - 1] == earlier;
  }

  lemma {:induction false} StripDone(s: string)
    requires Strip(s).Some?
    ensures Done(Strip(s).value) && (!Done(s) ==> Trim(Strip(s).value) == Strip(s).value)
    decreases |s|
  {
    hide Find, Trim, Cut, Done, Trap;
    if !Done(s) {
      TrimIdempotent(Cut(s));
      StripDone(Next(s));
    }
  }

  lemma BlockIsNotDone(base: string, summary: string)
    ensures !Done(base + Block(summary))
  {
    hide Find, TagAt, Block, Wrapped, EndsWith;
    BlockParts(base, summary);
    WrappedTags(summary);
    BlockEnds(base, summary);
    EndIsFound(base + Block(summary));
    FindBehind(base + "\n\n", Wrapped(summary), OPEN);
  }

  lemma FindBehind(a: string, b: string, tag: string)
    requires Find(b, tag).Some?
    ensures Find(a + b, tag).Some?
  {
    var i := Find(b, tag).value;
    hide TagAt, Find;
    TagBehind(a, b, i, tag);
  }

  /** Behind a compaction the prompt is trimmed and has no opening tag. */
  lemma AfterBlock(base: string, summary: string)
    requires Strip(base + Block(summary)).Some?
    ensures var v := Strip(base + Block(summary)).value;
            Done(v) && Trim(v) == v && Find(v, OPEN).None? && (Tagless(v) <==> Find(v, CLOSE).None?)
  {
    hide Strip, Find, Trim, Block, EndsWith, Done;
    StripDone(base + Block(summary));
    BlockIsNotDone(base, summary);
    BlockEnds(base, summary);
    ClosedEnd(base + Block(summary));
  }

  predicate AllVanish(summaries: seq<string>) { forall t :: t in summaries ==> Residue(t) == Some("") }

  lemma VanishSnoc(earlier: seq<string>, t: string)
    ensures AllVanish(earlier + [t]) <==> AllVanish(earlier) && Residue(t) == Some("")
  {
    hide Residue;
    if AllVanish(earlier + [t]) {
      assert t in earlier + [t];
      forall x | x in earlier ensures Residue(x) == Some("") { assert x in earlier + [t]; }
    }
  }

  /** How a base grows: by what the summary leaves. */
  lemma BaseGrows(base: string, summary: string)
    requires Tagless(base) && Strip(base + Block(summary)).Some?
    ensures Residue(summary).Some?
    ensures var v := Strip(base + Block(summary)).value;
            if Residue(summary).value == "" then v == Trim(base) else |v| > |Trim(base)|
  {
    hide Strip, Find, Trim, Block, Residue, Tagless;
    var g := BlockLeaves(base, summary);
    TrimShorter(g);
    Longer(g, Residue(summary).value, Trim(base));
  }

  /** One more compaction of a base without opening tags: it stays, it grows, or the loop does not end. */
  lemma BaseNext(base: string, summary: string)
    requires Find(base, OPEN).None?
    ensures var v, vanishes := Strip(base + Block(summary)), Residue(summary) == Some("");
            && (Tagless(base) && vanishes ==> v.Some?)
            && (v.Some? ==> Tagless(base) && if vanishes then v.value == Trim(base) else |v.value| > |Trim(base)|)
  {
    hide Strip, Find, Trim, Block, Residue;
    if Tagless(base) {
      var g := BlockLeaves(base, summary);
      if Strip(base + Block(summary)).Some? { BaseGrows(base, summary); }
    } else {
      ClosedPromptTraps(base, summary);
    }
  }

  /** After one compaction or more the base is the prompt itself if all summaries but the current one
      leave nothing, and longer otherwise. */
  lemma {:induction false} BaseIs(prompt: string, earlier: seq<string>)
    requires Strip(prompt).Some? && Tagless(Strip(prompt).value) && earlier != []
    ensures var b, v := Strip(prompt).value, BaseAfter(prompt, earlier);
            && (v.Some? ==> if AllVanish(earlier) then v.value == Trim(b) else |v.value| > |Trim(b)|)
            && (AllVanish(earlier) ==> v.Some?)
    decreases |earlier|
  {
    var n := |earlier| - 1;
    var init, t, b := earlier[..n], earlier[n], Strip(prompt).value;
    assert earlier == init + [t];
    assert Find(b, OPEN).None?;
    hide Strip, Find, Trim, Block, Residue, Tagless, AllVanish, BaseAfter;
    MergeStep(prompt, init, t);
    VanishSnoc(init, t);
    if n == 0 {
      StartOf(prompt);
      BaseNext(b, t);
    } else {
      BaseIs(prompt, init);
      BaseIsClean(prompt, init);
      TaglessTrim(b);
      if BaseAfter(prompt, init).Some? { BaseNext(BaseAfter(prompt, init).value, t); }
    }
  }

  lemma StartOf(prompt: string)
    ensures BaseAfter(prompt, []) == Strip(prompt) && AllVanish([])
  {
  }

  lemma BaseIsClean(prompt: string, earlier: seq<string>)
    requires earlier != []
    ensures var v := BaseAfter(prompt, earlier);
            v.Some? ==> Trim(v.value) == v.value && Find(v.value, OPEN).None? && (Tagless(v.value) <==> Find(v.value, CLOSE).None?)
  {
    var n := |earlier| - 1;
    assert earlier == earlier[..n] + [earlier[n]];
    hide Strip, Find, Trim, Block, Tagless, BaseAfter, Done;
    MergeStep(prompt, earlier[..n], earlier[n]);
    if BaseAfter(prompt, earlier).Some? { AfterBlock(BaseAfter(prompt, earlier[..n]).value, earlier[n]); }
  }

  /** Over any number of compactions the prompt holds the latest summary only, and does not grow with
      their number, if and only if it has no tag of its own and the earlier summaries leave nothing. */
  lemma LatestSummaryOnly(prompt: string, summaries: seq<string>)
    requires Strip(prompt).Some? && summaries != []
    ensures var b, n := Strip(prompt).value, |summaries| - 1;
            MergeAll(prompt, summaries) == Some((if n == 0 then b else Trim(b)) + Block(summaries[n]))
            <==> n == 0 || (Tagless(b) && AllVanish(summaries[..n]))
  {
    var b, n := Strip(prompt).value, |summaries| - 1;
    var earlier := summaries[..n];
    assert summaries == earlier + [summaries[n]];
    hide Strip, Find, Trim, Block, Residue, Tagless, AllVanish, BaseAfter, Done;
    MergeStep(prompt, earlier, summaries[n]);
    StartOf(prompt);
    if n > 0 {
      BaseIsClean(prompt, earlier);
      if BaseAfter(prompt, earlier).Some? { SameFront(BaseAfter(prompt, earlier).value, Trim(b), Block(summaries[n])); }
      if Tagless(b) { BaseIs(prompt, earlier); } else { TaggedPromptIsLost(prompt, earlier); }
    } else {
      assert earlier == [];
    }
  }

  lemma SameFront(a: string, b: string, c: string)
    ensures a + c == b + c <==> a == b
  {
    if a + c == b + c {
      assert |a + c| == |a| + |c| && |b + c| == |b| + |c|;
      assert a == (a + c)[..|a|] && b == (b + c)[..|b|];
    }
  }

  lemma TaggedPromptIsLost(prompt: string, earlier: seq<string>)
    requires Strip(prompt).Some? && !Tagless(Strip(prompt).value) && earlier != []
    ensures BaseAfter(prompt, earlier) != Some(Trim(Strip(prompt).value))
  {
    hide Strip, Find, Trim, Block, BaseAfter;
    var b := Strip(prompt).value;
    BaseIsClean(prompt, earlier);
    TagsAre();
    FindTrim(b, OPEN);
    if Find(b, OPEN).None? { ClosedPromptEnds(prompt, earlier); }
  }

  lemma {:induction false} ClosedPromptEnds(prompt: string, earlier: seq<string>)
    requires Strip(prompt).Some? && earlier != []
    requires Find(Strip(prompt).value, OPEN).None? && Find(Strip(prompt).value, CLOSE).Some?
    ensures BaseAfter(prompt, earlier).None?
    decreases |earlier|
  {
    var n := |earlier| - 1;
    assert earlier == earlier[..n] + [earlier[n]];
    hide Strip, Find, Block, BaseAfter;
    MergeStep(prompt, earlier[..n], earlier[n]);
    if n == 0 {
      StartOf(prompt);
      ClosedPromptTraps(Strip(prompt).value, earlier[0]);
    } else {
      ClosedPromptEnds(prompt, earlier[..n]);
    }
  }

  /** What the `i`-th summary leaves; the first one's tags can match those of the prompt. */
  function Left(base: string, summaries: seq<string>, i: nat): Option<string>
    requires i < |summaries|
  {
    if i == 0 && !Tagless(base) then Strip(base + Block(summaries[0])) else Residue(summaries[i])
  }

  /** Every summary of the list is stripped again, and all but the last leave no closing tag. */
  ghost predicate AllEnd(base: string, summaries: seq<string>) {
    forall i :: 0 <= i < |summaries| ==>
      Left(base, summaries, i).Some? && (i < |summaries| - 1 ==> Find(Left(base, summaries, i).value, CLOSE).None?)
  }

  lemma AllEndSnoc(base: string, earlier: seq<string>, t: string)
    ensures AllEnd(base, earlier + [t]) <==>
              && AllEnd(base, earlier) && Left(base, earlier + [t], |earlier|).Some?
              && (earlier != [] ==> Find(Left(base, earlier, |earlier| - 1).value, CLOSE).None?)
  {
    hide Strip, Find, Residue, Tagless, Block;
    var all := earlier + [t];
    forall i | 0 <= i < |earlier| ensures Left(base, all, i) == Left(base, earlier, i) {
      assert all[i] == earlier[i];
    }
  }

  lemma BlockLeft(base: string, summary: string)
    requires Tagless(base)
    ensures var v, u := Strip(base + Block(summary)), Residue(summary);
            (v.Some? <==> u.Some?) && (v.Some? ==> (Find(v.value, CLOSE).None? <==> Find(u.value, CLOSE).None?))
  {
    hide Strip, Find, Trim, Block, Residue, EndsBlank, IsTag;
    var g := BlockLeaves(base, summary);
    TagsAre();
    TaglessTrim(base);
    TagIsLong(CLOSE);
    NotInShorter("", CLOSE);
    if Residue(summary).Some? { FindShift(g, Residue(summary).value, CLOSE); }
  }

  /** One more compaction: from a base without tags everything depends on the summary. */
  lemma BlockLeftLater(base: string, summary: string)
    requires Find(base, OPEN).None?
    ensures var v, u := Strip(base + Block(summary)), Residue(summary);
            (v.Some? <==> Tagless(base) && u.Some?) && (v.Some? ==> (Find(v.value, CLOSE).None? <==> Find(u.value, CLOSE).None?))
  {
    hide Strip, Find, Trim, Block, Residue;
    if Tagless(base) { BlockLeft(base, summary); } else { ClosedPromptTraps(base, summary); }
  }

  lemma LeftAre(base: string, earlier: seq<string>, t: string)
    ensures Left(base, earlier + [t], |earlier|)
         == if earlier == [] && !Tagless(base) then Strip(base + Block(t)) else Residue(t)
  {
    hide Strip, Block, Residue, Tagless;
  }

  lemma {:induction false} BaseEnds(prompt: string, earlier: seq<string>)
    requires Strip(prompt).Some? && earlier != []
    ensures var b, v := Strip(prompt).value, BaseAfter(prompt, earlier);
            && (v.Some? <==> AllEnd(b, earlier))
            && (v.Some? ==> (Tagless(v.value) <==> Find(Left(b, earlier, |earlier| - 1).value, CLOSE).None?))
    decreases |earlier|
  {
    var n := |earlier| - 1;
    var init, t, b := earlier[..n], earlier[n], Strip(prompt).value;
    assert earlier == init + [t];
    hide Strip, Find, Trim, Block, Residue, Tagless, BaseAfter, AllEnd, Done, Left;
    MergeStep(prompt, init, t);
    AllEndSnoc(b, init, t);
    LeftAre(b, init, t);
    BaseIsClean(prompt, earlier);
    if n == 0 {
      StartOf(prompt);
      NothingEnds(b);
      if Tagless(b) { BlockLeft(b, t); }
    } else {
      BaseEnds(prompt, init);
      BaseIsClean(prompt, init);
      if BaseAfter(prompt, init).Some? { BlockLeftLater(BaseAfter(prompt, init).value, t); }
    }
  }

  lemma NothingEnds(base: string)
    ensures AllEnd(base, [])
  {
  }

  lemma {:induction false} TrappedPrompt(prompt: string, summaries: seq<string>)
    requires Strip(prompt).None?
    ensures BaseAfter(prompt, summaries).None?
    decreases |summaries|
  {
    hide Strip, Block, BaseAfter;
    var n := |summaries| - 1;
    if summaries == [] {
      StartOf(prompt);
    } else {
      assert summaries == summaries[..n] + [summaries[n]];
      TrappedPrompt(prompt, summaries[..n]);
      MergeStep(prompt, summaries[..n], summaries[n]);
    }
  }

  /** When a run of compactions ends: the prompt and every summary but the latest are stripped again,
      and all summaries but the latest two leave no closing tag. */
  lemma RunEndsIff(prompt: string, summaries: seq<string>)
    requires summaries != []
    ensures MergeAll(prompt, summaries).Some?
       <==> Strip(prompt).Some? && AllEnd(Strip(prompt).value, summaries[..|summaries| - 1])
  {
    var n := |summaries| - 1;
    assert summaries == summaries[..n] + [summaries[n]];
    hide Strip, AllEnd, BaseAfter, Block;
    MergeStep(prompt, summaries[..n], summaries[n]);
    StartOf(prompt);
    if Strip(prompt).None? {
      TrappedPrompt(prompt, summaries[..n]);
    } else if n > 0 {
      BaseEnds(prompt, summaries[..n]);
    } else {
      NothingEnds(Strip(prompt).value);
    }
  }

  /** A summary that quotes the closing tag only makes the second compaction after it loop for ever. */
  lemma QuotedCloseHangs(prompt: string, quoting: string, second: string, third: string)
    requires Tagless(prompt) && Find(quoting, CLOSE).Some? && Find(quoting, OPEN).None?
    ensures MergeAll(prompt, [quoting, second]).Some? && MergeAll(prompt, [quoting, second, third]).None?
  {
    hide Find, Block, MergeAll, Residue;
    TaglessIsDone(prompt);
    assert Strip(prompt) == Some(prompt);
    hide Strip;
    ResidueReadOff(quoting);
    RunEndsIff(prompt, [quoting, second]);
    RunEndsIff(prompt, [quoting, second, third]);
    assert [quoting, second][..1] == [quoting] && [quoting, second, third][..2] == [quoting, second];
    assert Left(prompt, [quoting], 0) == Residue(quoting) == Left(prompt, [quoting, second], 0);
  }

  lemma AlreadyTrimmed(s: string)
    requires s != "" && !IsBlank(s[0]) && !IsBlank(s[|s| - 1])
    ensures Trim(s) == s
  {
  }

  lemma CloseFirst(rest: string)
    ensures Find(CLOSE + rest, CLOSE) == Some(0) && (CLOSE + rest)[|CLOSE|..] == rest
  {
    TagsAre();
    TagItself(CLOSE);
    hide Find;
    FindFront(CLOSE, rest, CLOSE);
  }

  lemma TagInner(tag: string)
    requires IsTag(tag)
    ensures |tag| > 0 && !IsBlank(tag[0]) && !IsBlank(tag[|tag| - 1])
  {
  }

  /** A summary whose text stays in the prompt when the next one comes. */
  lemma StaleExample(next: string) returns (g: string)
    ensures Trim(g) == "p" && MergeAll("p", [CLOSE + "x", next]) == Some(g + ("x\n" + CLOSE) + Block(next))
  {
    var quoting, rest := CLOSE + "x", "x" + "\n" + CLOSE;
    TagsAre();
    TagInner(CLOSE);
    AlreadyTrimmed(rest);
    AlreadyTrimmed("p");
    assert rest == "x\n" + CLOSE;
    assert |OPEN| > 1;
    NotInShorter("p", OPEN);
    NotInShorter("p", CLOSE);
    hide Find, Trim, Block, IsBlank, IsTag;
    CloseFirst("x");
    ResidueReadOff(quoting);
    OnlyCloses("x", 0);
    assert "x"[0..] == "x";
    TaglessIsDone("p");
    g := BlockLeaves("p", quoting);
    assert MergeAll("p", []) == Some("p");
    MergeStep("p", [], quoting);
    MergeStep("p", [quoting], next);
    assert [] + [quoting] == [quoting] && [quoting] + [next] == [quoting, next];
  }

  /** A summary that quotes the closing tag and is replaced completely all the same. */
  lemma HarmlessExample()
    ensures Find(CLOSE + OPEN, CLOSE).Some? && Residue(CLOSE + OPEN) == Some("")
  {
    var rest := OPEN + "\n" + CLOSE;
    TagsAre();
    TagInner(OPEN);
    TagInner(CLOSE);
    AlreadyTrimmed(rest);
    TagItself(OPEN);
    assert |OPEN| < |CLOSE|;
    assert rest == OPEN + ("\n" + CLOSE);
    hide Find, Trim, IsBlank, IsTag, TagAt;
    NotInShorter(OPEN, CLOSE);
    FindFront(OPEN, "\n" + CLOSE, OPEN);
    FindInTail(OPEN, CLOSE);
    CloseFirst(OPEN);
    ResidueReadOff(CLOSE + OPEN);
    assert Cut(rest) == "" by { assert rest[|rest|..] == ""; }
    NothingIsDone();
    TrimNothing();
    assert Next(rest) == "";
  }

  lemma TrimmedIsDone(s: string)
    requires Done(s)
    ensures Strip(Trim(s)) == Some(Trim(s))
  {
    TagsAre();
    hide Find, Trim, IsTag;
    FindTrim(s, OPEN);
    FindTrim(s, CLOSE);
  }

  /** The markup around a summary. */
  lemma BlockAround(summary: string) returns (front: string, back: string)
    ensures Block(summary) == front + summary + back && Block("") == front + back
  {
    front, back := "\n\n" + OPEN + "\n", "\n" + CLOSE;
    Around(OPEN, summary, CLOSE);
    Around(OPEN, "", CLOSE);
  }

  lemma Around(open: string, summary: string, close: string)
    ensures "\n\n" + (open + "\n" + summary + "\n" + close) == ("\n\n" + open + "\n") + summary + ("\n" + close)
  {
  }
}
