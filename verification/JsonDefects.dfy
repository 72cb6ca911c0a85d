/** What `repair` makes of the defects it is there for: texts as models write them, as trees, and the
    strict JSON text each of them stands for. */
module JsonDefects {
  import opened Options
  import opened JsonGrammar
  import opened JsonRepair
  import opened JsonIdentity

  // ---------------------------------------------------------------- texts with defects

  /** One element of a string: as in the grammar, or a raw control rune. */
  datatype Rune = Well(c: StrChar) | Raw(control: char)

  /** A string's contents. `Quote` is an apostrophe; `Nest` is a pair of typographic quotes and what is
      between them. */
  datatype Body = NoRunes | Elem(r: Rune, rest: Body) | Quote(rest: Body) | Nest(inner: Body, rest: Body)

  /** Double quotes, full-width double quotes, or single quotes, each of which may be straight or curly. */
  datatype Style = Straight | Wide | Single(curlyOpen: bool, curlyClose: bool)

  datatype Text = Text(style: Style, body: Body)

  datatype Key = Quoted(text: Text) | Bare(word: string)

  /** `noise` are stray closing quotes behind a value; `wide` says that the comma in front of an element
      is a full-width one. */
  datatype Loose =
    | Token(v: Value)
    | LooseStr(text: Text)
    | LooseArray(gap: string, items: LooseItems)
    | LooseObject(gap: string, members: LooseMembers)

  datatype LooseItems = NoItems | ItemsTrail(wide: bool, gap: string)
    | LooseItem(wide: bool, pre: string, value: Loose, noise: string, post: string, rest: LooseItems)

  datatype LooseMembers = NoMembers | MembersTrail(wide: bool, gap: string)
    | LooseMember(wide: bool, pre: string, key: Key, beforeColon: string, wideColon: bool, afterColon: string,
                  value: Loose, noise: string, post: string, rest: LooseMembers)

  // ---------------------------------------------------------------- how they are written

  function Opening(style: Style): string {
    match style
    case Straight => "\""
    case Wide => [LEFT_DQ]
    case Single(curly, _) => if curly then [LEFT_SQ] else "'"
  }

  function Closing(style: Style): string {
    match style
    case Straight => "\""
    case Wide => [RIGHT_DQ]
    case Single(_, curly) => if curly then [RIGHT_SQ] else "'"
  }

  function NestOpen(style: Style): char { if style.Wide? then LEFT_DQ else LEFT_SQ }

  function NestClose(style: Style): char { if style.Wide? then RIGHT_DQ else RIGHT_SQ }

  function RuneText(r: Rune): string {
    match r case Well(c) => c.Render() case Raw(c) => [c]
  }

  function BodyText(style: Style, b: Body): string {
    match b
    case NoRunes => ""
    case Elem(r, rest) => RuneText(r) + BodyText(style, rest)
    case Quote(rest) => ['\''] + BodyText(style, rest)
    case Nest(inner, rest) => [NestOpen(style)] + (BodyText(style, inner) + ([NestClose(style)] + BodyText(style, rest)))
  }

  function Written(t: Text): string { Opening(t.style) + (BodyText(t.style, t.body) + Closing(t.style)) }

  function KeyText(k: Key): string { match k case Quoted(t) => Written(t) case Bare(w) => w }

  function Comma(wide: bool): string { if wide then [WIDE_COMMA] else "," }

  function Colon(wide: bool): string { if wide then [WIDE_COLON] else ":" }

  function LooseText(v: Loose): string {
    match v
    case Token(t) => Render(t)
    case LooseStr(t) => Written(t)
    case LooseArray(gap, items) => ['['] + (gap + (ItemsText(items, true) + [']']))
    case LooseObject(gap, members) => ['{'] + (gap + (MembersText(members, true) + ['}']))
  }

  function Between(first: bool, wide: bool): string { if first then "" else Comma(wide) }

  function ItemsText(items: LooseItems, first: bool): string {
    match items
    case NoItems => ""
    case ItemsTrail(wide, gap) => Comma(wide) + gap
    case LooseItem(wide, pre, v, noise, post, rest) =>
      Between(first, wide) + (pre + (LooseText(v) + (noise + (post + ItemsText(rest, false)))))
  }

  function MembersText(ms: LooseMembers, first: bool): string {
    match ms
    case NoMembers => ""
    case MembersTrail(wide, gap) => Comma(wide) + gap
    case LooseMember(wide, pre, key, bc, wideColon, ac, v, noise, post, rest) =>
      Between(first, wide) + (pre + (KeyText(key) + (bc + (Colon(wideColon) + (ac +
        (LooseText(v) + (noise + (post + MembersText(rest, false)))))))))
  }

  // ---------------------------------------------------------------- which of them are meant

  /** The first rune that is not blank is a word rune: what makes a single quote an apostrophe. */
  predicate WordFirst(s: string) {
    s != "" && if IsSpace(s[0]) then WordFirst(s[1..]) else IsWord(s[0])
  }

  predicate RuneFits(style: Style, r: Rune) {
    match r
    case Well(c) =>
      c.WellFormed() && (c.Plain? && style.Wide? ==> c.c != LEFT_DQ && c.c != RIGHT_DQ)
      && (c.Plain? && style.Single? ==> c.c != '\'' && c.c != LEFT_SQ && c.c != RIGHT_SQ)
    // Outside double quotes only these three control runes are escaped.
    case Raw(c) => c as int < 0x20 && (style.Straight? || c == '\n' || c == '\r' || c == '\t')
  }

  predicate BodyFits(style: Style, b: Body) {
    match b
    case NoRunes => true
    case Elem(r, rest) => RuneFits(style, r) && BodyFits(style, rest)
    case Quote(rest) => style.Single? && WordFirst(BodyText(style, rest)) && BodyFits(style, rest)
    case Nest(inner, rest) => !style.Straight? && BodyFits(style, inner) && BodyFits(style, rest)
  }

  predicate IsName(w: string) { w != "" && forall c :: c in w ==> IsWord(c) }

  /** A bare key is recognized behind a brace or a plain comma only. */
  predicate KeyFits(k: Key, first: bool, wide: bool) {
    match k case Quoted(t) => BodyFits(t.style, t.body) case Bare(w) => IsName(w) && (first || !wide)
  }

  predicate Stray(noise: string) { forall c :: c in noise ==> c == RIGHT_DQ || c == RIGHT_SQ }

  predicate Fits(v: Loose) {
    match v
    case Token(t) => (t.True? || t.False? || t.Null? || t.Number?) && WellFormed(t)
    case LooseStr(t) => BodyFits(t.style, t.body)
    case LooseArray(gap, items) => Blank(gap) && !items.ItemsTrail? && ItemsFit(items)
    case LooseObject(gap, members) => Blank(gap) && !members.MembersTrail? && MembersFit(members, true)
  }

  predicate ItemsFit(items: LooseItems) {
    match items
    case NoItems => true
    case ItemsTrail(_, gap) => Blank(gap)
    case LooseItem(_, pre, v, noise, post, rest) => Blank(pre) && Fits(v) && Stray(noise) && Blank(post) && ItemsFit(rest)
  }

  predicate MembersFit(ms: LooseMembers, first: bool) {
    match ms
    case NoMembers => true
    case MembersTrail(_, gap) => Blank(gap)
    case LooseMember(wide, pre, key, bc, _, ac, v, noise, post, rest) =>
      && Blank(pre) && KeyFits(key, first, wide) && Blank(bc) && Blank(ac)
      && Fits(v) && Stray(noise) && Blank(post) && MembersFit(rest, false)
  }

  // ---------------------------------------------------------------- what they stand for

  function Hex(d: int): char
    requires 0 <= d < 16
  {
    "0123456789abcdef"[d]
  }

  function StrictRune(r: Rune): StrChar
    requires r.Raw? ==> r.control as int < 0x20
  {
    match r
    case Well(c) => c
    case Raw(c) =>
      if c == '\n' then Escape('n') else if c == '\r' then Escape('r') else if c == '\t' then Escape('t')
      else Unicode('0', '0', Hex(c as int / 16), Hex(c as int % 16))
  }

  function StrictBody(style: Style, b: Body): seq<StrChar>
    requires BodyFits(style, b)
  {
    match b
    case NoRunes => []
    case Elem(r, rest) => [StrictRune(r)] + StrictBody(style, rest)
    case Quote(rest) => [Plain('\'')] + StrictBody(style, rest)
    case Nest(inner, rest) =>
      [Plain(NestOpen(style))] + (StrictBody(style, inner) + ([Plain(NestClose(style))] + StrictBody(style, rest)))
  }

  function StrictText(t: Text): seq<StrChar>
    requires BodyFits(t.style, t.body)
  {
    StrictBody(t.style, t.body)
  }

  function Plains(w: string): seq<StrChar> { if w == "" then [] else [Plain(w[0])] + Plains(w[1..]) }

  function StrictKey(k: Key, first: bool, wide: bool): seq<StrChar>
    requires KeyFits(k, first, wide)
  {
    match k case Quoted(t) => StrictText(t) case Bare(w) => Plains(w)
  }

  /** The value meant: typographic and single quotes are double ones, control runes are escaped, bare keys
      quoted, colons and commas plain, and neither trailing commas nor stray quotes are there. */
  function Strict(v: Loose): Value
    requires Fits(v)
  {
    match v
    case Token(t) => t
    case LooseStr(t) => Str(StrictText(t))
    case LooseArray(gap, items) => Array(gap, StrictItems(items))
    case LooseObject(gap, members) => Object(gap, StrictMembers(members, true))
  }

  function TrailGap(items: LooseItems): string { if items.ItemsTrail? then items.gap else "" }

  function StrictItems(items: LooseItems): Items
    requires ItemsFit(items)
  {
    match items
    case LooseItem(_, pre, v, _, post, rest) => Item(pre, Strict(v), post + TrailGap(rest), StrictItems(rest))
    case _ => Items.NoItems
  }

  function MembersTrailGap(ms: LooseMembers): string { if ms.MembersTrail? then ms.gap else "" }

  function StrictMembers(ms: LooseMembers, first: bool): Members
    requires MembersFit(ms, first)
  {
    match ms
    case LooseMember(wide, pre, key, bc, _, ac, v, _, post, rest) =>
      Member(pre, StrictKey(key, first, wide), bc, ac, Strict(v), post + MembersTrailGap(rest), StrictMembers(rest, false))
    case _ => Members.NoMembers
  }

  // ---------------------------------------------------------------- stretches and what is written for them

  /** From position `i` in mode `a`, the loop writes `w` for the runes up to `n` and stands there in mode `b`. */
  ghost predicate Writes(s: string, i: nat, n: nat, a: Mode, b: Mode, w: string) {
    i <= n <= |s| && forall o: string :: RunTo(s, Loop(i, a.sc, a.prev, o), n) == Loop(n, b.sc, b.prev, o + w)
  }

  lemma CopiesWrites(s: string, i: nat, n: nat, a: Mode, b: Mode, w: string)
    requires Copies(s, i, n, a, b) && At(s, i, w) && n == i + |w|
    ensures Writes(s, i, n, a, b, w)
  {
    hide RunTo;
  }

  lemma WritesCompose(s: string, i: nat, n: nat, m: nat, a: Mode, b: Mode, c: Mode, x: string, y: string)
    requires Writes(s, i, n, a, b, x) && Writes(s, n, m, b, c, y)
    ensures Writes(s, i, m, a, c, x + y)
  {
    hide RunTo, RepairStep;
    forall o: string ensures RunTo(s, Loop(i, a.sc, a.prev, o), m) == Loop(m, c.sc, c.prev, o + (x + y)) {
      RunToCompose(s, Loop(i, a.sc, a.prev, o), n, m);
      assert o + x + y == o + (x + y);
    }
  }

  lemma WritesNothing(s: string, i: nat, a: Mode)
    requires i <= |s|
    ensures Writes(s, i, i, a, a, "")
  {
    assert forall o: string :: o + "" == o;
  }

  lemma WritesOne(s: string, i: nat, n: nat, a: Mode, b: Mode, w: string)
    requires i < n <= |s|
    requires forall o: string :: RepairStep(s, Loop(i, a.sc, a.prev, o)) == Loop(n, b.sc, b.prev, o + w)
    ensures Writes(s, i, n, a, b, w)
  {
    forall o: string ensures RunTo(s, Loop(i, a.sc, a.prev, o), n) == Loop(n, b.sc, b.prev, o + w) {
      var l := Loop(i, a.sc, a.prev, o);
      assert RunTo(s, l, n) == RunTo(s, RepairStep(s, l), n);
    }
  }

  // ---------------------------------------------------------------- inside strings

  function ScanIn(style: Style, depth: nat): Scan {
    match style
    case Straight => IN_DQ
    case Wide => Scan(false, false, depth, 0)
    case Single(_, _) => Scan(false, false, 0, depth)
  }

  /** Runes that `style` copies as they are. */
  predicate Quiet(style: Style, c: char) {
    match style
    case Straight => c as int >= 0x20 && c != '"' && c != '\\'
    case Wide => c != '\n' && c != '\r' && c != '\t' && c != LEFT_DQ && c != RIGHT_DQ
    case Single(_, _) => c != '\n' && c != '\r' && c != '\t' && c != LEFT_SQ && c != RIGHT_SQ && c != '\''
  }

  lemma QuietWrites(s: string, i: nat, style: Style, depth: nat, p: char)
    requires i < |s| && Quiet(style, s[i]) && depth > 0
    ensures Writes(s, i, i + 1, Mode(ScanIn(style, depth), p), Mode(ScanIn(style, depth), p), [s[i]])
  {
    var m := Mode(ScanIn(style, depth), p);
    WritesOne(s, i, i + 1, m, m, [s[i]]);
  }

  lemma HeadAndTail(w: string)
    requires w != ""
    ensures w == [w[0]] + w[1..] && w[0] in w && forall c :: c in w[1..] ==> c in w
  {
  }

  lemma {:induction false} QuietsWrite(s: string, i: nat, style: Style, depth: nat, p: char, w: string)
    requires At(s, i, w) && (forall c :: c in w ==> Quiet(style, c)) && depth > 0
    ensures Writes(s, i, i + |w|, Mode(ScanIn(style, depth), p), Mode(ScanIn(style, depth), p), w)
    decreases |w|
  {
    hide Writes, Quiet, RepairStep, RunTo, ScanIn, At;
    var m := Mode(ScanIn(style, depth), p);
    AtFits(s, i, w);
    if w == "" {
      WritesNothing(s, i, m);
    } else {
      HeadAndTail(w);
      AtSplit(s, i, [w[0]], w[1..]);
      AtChar(s, i, w[0]);
      QuietWrites(s, i, style, depth, p);
      QuietsWrite(s, i + 1, style, depth, p, w[1..]);
      WritesCompose(s, i, i + 1, i + |w|, m, m, m, [w[0]], w[1..]);
    }
  }

  /** A raw control rune is written as an escape. */
  lemma RawWrites(s: string, i: nat, style: Style, depth: nat, p: char, c: char)
    requires At(s, i, [c]) && RuneFits(style, Raw(c)) && depth > 0
    ensures Writes(s, i, i + 1, Mode(ScanIn(style, depth), p), Mode(ScanIn(style, depth), p), StrictRune(Raw(c)).Render())
  {
    AtChar(s, i, c);
    var m := Mode(ScanIn(style, depth), p);
    if c != '\n' && c != '\r' && c != '\t' { ControlText(c); }
    WritesOne(s, i, i + 1, m, m, StrictRune(Raw(c)).Render());
  }

  lemma ControlText(c: char)
    requires c as int < 0x20
    ensures ControlEscape(c) == Unicode('0', '0', Hex(c as int / 16), Hex(c as int % 16)).Render()
  {
  }

  lemma RuneWrites(s: string, i: nat, style: Style, depth: nat, p: char, r: Rune)
    requires At(s, i, RuneText(r)) && RuneFits(style, r) && depth > 0
    ensures Writes(s, i, i + |RuneText(r)|, Mode(ScanIn(style, depth), p), Mode(ScanIn(style, depth), p), StrictRune(r).Render())
  {
    hide Writes, At, Copies;
    match r
    case Raw(c) => RawWrites(s, i, style, depth, p, c);
    case Well(c) =>
      if style.Straight? {
        StrCharCopies(s, i, c, p);
        CopiesWrites(s, i, i + |c.Render()|, Mode(IN_DQ, p), Mode(IN_DQ, p), c.Render());
      } else {
        WellIsQuiet(style, c);
        QuietsWrite(s, i, style, depth, p, c.Render());
      }
  }

  lemma WellIsQuiet(style: Style, c: StrChar)
    requires RuneFits(style, Well(c)) && !style.Straight?
    ensures forall x :: x in c.Render() ==> Quiet(style, x)
  {
  }

  /** A single quote with a word rune next is an apostrophe. */
  lemma {:induction false} WordFirstAt(s: string, j: nat, t: string)
    requires At(s, j, t) && WordFirst(t)
    ensures var k := SkipSpaces(s, j); k < |s| && IsWord(s[k])
    decreases |t|
  {
    AtIndex(s, j, t, 0);
    if IsSpace(t[0]) {
      assert t == [t[0]] + t[1..];
      AtSplit(s, j, [t[0]], t[1..]);
      WordFirstAt(s, j + 1, t[1..]);
    }
  }

  lemma QuoteWrites(s: string, i: nat, style: Style, depth: nat, p: char, rest: string)
    requires style.Single? && At(s, i, ['\''] + rest) && WordFirst(rest) && depth > 0
    ensures Writes(s, i, i + 1, Mode(ScanIn(style, depth), p), Mode(ScanIn(style, depth), p), "'")
  {
    AtSplit(s, i, ['\''], rest);
    AtChar(s, i, '\'');
    WordFirstAt(s, i + 1, rest);
    var m := Mode(ScanIn(style, depth), p);
    WritesOne(s, i, i + 1, m, m, "'");
  }

  lemma NestOpens(s: string, i: nat, style: Style, depth: nat, p: char)
    requires At(s, i, [NestOpen(style)]) && !style.Straight? && depth > 0
    ensures Writes(s, i, i + 1, Mode(ScanIn(style, depth), p), Mode(ScanIn(style, depth + 1), p), [NestOpen(style)])
  {
    AtChar(s, i, NestOpen(style));
    WritesOne(s, i, i + 1, Mode(ScanIn(style, depth), p), Mode(ScanIn(style, depth + 1), p), [NestOpen(style)]);
  }

  lemma NestCloses(s: string, i: nat, style: Style, depth: nat, p: char)
    requires At(s, i, [NestClose(style)]) && !style.Straight? && depth > 0
    ensures Writes(s, i, i + 1, Mode(ScanIn(style, depth + 1), p), Mode(ScanIn(style, depth), p), [NestClose(style)])
  {
    AtChar(s, i, NestClose(style));
    WritesOne(s, i, i + 1, Mode(ScanIn(style, depth + 1), p), Mode(ScanIn(style, depth), p), [NestClose(style)]);
  }

  lemma {:induction false} RenderCharsAppend(a: seq<StrChar>, b: seq<StrChar>)
    ensures RenderChars(a + b) == RenderChars(a) + RenderChars(b)
  {
    hide StrChar.Render;
    if a == [] {
      assert a + b == b;
    } else {
      assert (a + b)[1..] == a[1..] + b;
      RenderCharsAppend(a[1..], b);
    }
  }

  lemma RenderOne(c: StrChar, rest: seq<StrChar>)
    ensures RenderChars([c] + rest) == c.Render() + RenderChars(rest)
  {
    assert ([c] + rest)[1..] == rest;
  }

  lemma FitsRaw(style: Style, r: Rune)
    requires RuneFits(style, r)
    ensures r.Raw? ==> r.control as int < 0x20
  {
  }

  lemma NestParts(style: Style, inner: Body, rest: Body)
    requires BodyFits(style, Nest(inner, rest))
    ensures !style.Straight? && BodyFits(style, inner) && BodyFits(style, rest)
    ensures BodyText(style, Nest(inner, rest))
         == [NestOpen(style)] + (BodyText(style, inner) + ([NestClose(style)] + BodyText(style, rest)))
    ensures RenderChars(StrictBody(style, Nest(inner, rest)))
         == [NestOpen(style)] + (RenderChars(StrictBody(style, inner)) + ([NestClose(style)] + RenderChars(StrictBody(style, rest))))
  {
    hide RenderChars, BodyText;
    var a, b := StrictBody(style, inner), StrictBody(style, rest);
    NestText(style, inner, rest);
    RenderOne(Plain(NestOpen(style)), a + ([Plain(NestClose(style))] + b));
    RenderCharsAppend(a, [Plain(NestClose(style))] + b);
    RenderOne(Plain(NestClose(style)), b);
  }

  lemma NestText(style: Style, inner: Body, rest: Body)
    ensures BodyText(style, Nest(inner, rest))
         == [NestOpen(style)] + (BodyText(style, inner) + ([NestClose(style)] + BodyText(style, rest)))
  {
  }

  lemma {:induction false} BodyWrites(s: string, i: nat, style: Style, depth: nat, b: Body, p: char)
    requires At(s, i, BodyText(style, b)) && BodyFits(style, b) && depth > 0
    ensures Writes(s, i, i + |BodyText(style, b)|, Mode(ScanIn(style, depth), p), Mode(ScanIn(style, depth), p),
                   RenderChars(StrictBody(style, b)))
    decreases b
  {
    hide Writes, At, WordFirst, RuneFits, RuneText, RenderChars, ScanIn, RunTo, RepairStep, StrictRune;
    var m, n := Mode(ScanIn(style, depth), p), i + |BodyText(style, b)|;
    match b
    case NoRunes =>
      AtFits(s, i, "");
      NoCharsText();
      WritesNothing(s, i, m);
    case Elem(r, rest) =>
      FitsRaw(style, r);
      AtSplit(s, i, RuneText(r), BodyText(style, rest));
      RuneWrites(s, i, style, depth, p, r);
      BodyWrites(s, i + |RuneText(r)|, style, depth, rest, p);
      RenderOne(StrictRune(r), StrictBody(style, rest));
      WritesCompose(s, i, i + |RuneText(r)|, n, m, m, m, StrictRune(r).Render(), RenderChars(StrictBody(style, rest)));
    case Quote(rest) =>
      QuoteWrites(s, i, style, depth, p, BodyText(style, rest));
      AtSplit(s, i, ['\''], BodyText(style, rest));
      BodyWrites(s, i + 1, style, depth, rest, p);
      RenderOne(Plain('\''), StrictBody(style, rest));
      WritesCompose(s, i, i + 1, n, m, m, m, "'", RenderChars(StrictBody(style, rest)));
    case Nest(inner, rest) =>
      NestWrites(s, i, style, depth, inner, rest, p);
  }

  lemma {:induction false} NestWrites(s: string, i: nat, style: Style, depth: nat, inner: Body, rest: Body, p: char)
    requires At(s, i, BodyText(style, Nest(inner, rest))) && BodyFits(style, Nest(inner, rest)) && depth > 0
    ensures Writes(s, i, i + |BodyText(style, Nest(inner, rest))|, Mode(ScanIn(style, depth), p), Mode(ScanIn(style, depth), p),
                   RenderChars(StrictBody(style, Nest(inner, rest))))
    decreases Nest(inner, rest), 0
  {
    hide Writes, At, RenderChars, ScanIn, RunTo, RepairStep, BodyText, BodyFits, StrictBody, NestOpen, NestClose;
    NestParts(style, inner, rest);
    var m, deep, n := Mode(ScanIn(style, depth), p), Mode(ScanIn(style, depth + 1), p), i + |BodyText(style, Nest(inner, rest))|;
    var x, y := BodyText(style, inner), BodyText(style, rest);
    var j := i + 1 + |x|;
    var a, b := StrictBody(style, inner), StrictBody(style, rest);
    AtSplit(s, i, [NestOpen(style)], x + ([NestClose(style)] + y));
    AtSplit(s, i + 1, x, [NestClose(style)] + y);
    AtSplit(s, j, [NestClose(style)], y);
    NestOpens(s, i, style, depth, p);
    BodyWrites(s, i + 1, style, depth + 1, inner, p);
    NestCloses(s, j, style, depth, p);
    BodyWrites(s, j + 1, style, depth, rest, p);
    WritesCompose(s, j, j + 1, n, deep, m, m, [NestClose(style)], RenderChars(b));
    WritesCompose(s, i + 1, j, n, deep, deep, m, RenderChars(a), [NestClose(style)] + RenderChars(b));
    WritesCompose(s, i, i + 1, n, m, deep, m, [NestOpen(style)], RenderChars(a) + ([NestClose(style)] + RenderChars(b)));
  }

  lemma AtFits(s: string, i: nat, w: string)
    requires At(s, i, w)
    ensures i + |w| <= |s|
  {
  }

  lemma NoCharsText()
    ensures RenderChars([]) == ""
  {
  }

  /** What comes next, blanks aside, does not continue a word. */
  ghost predicate WordFree(s: string, j: nat) {
    j <= |s| && var k := SkipSpaces(s, j); k < |s| ==> !IsWord(s[k])
  }

  lemma TextOpens(s: string, i: nat, style: Style, p: char) returns (q: char)
    requires At(s, i, Opening(style)) && !Apostrophe(s, i)
    ensures Writes(s, i, i + 1, Outside(p), Mode(ScanIn(style, 1), q), "\"")
  {
    AtIndex(s, i, Opening(style), 0);
    q := s[i];
    WritesOne(s, i, i + 1, Outside(p), Mode(ScanIn(style, 1), q), "\"");
  }

  lemma TextCloses(s: string, i: nat, style: Style, p: char)
    requires At(s, i, Closing(style)) && WordFree(s, i + 1)
    ensures Writes(s, i, i + 1, Mode(ScanIn(style, 1), p), Outside(p), "\"")
  {
    AtIndex(s, i, Closing(style), 0);
    WritesOne(s, i, i + 1, Mode(ScanIn(style, 1), p), Outside(p), "\"");
  }

  lemma TextWrites(s: string, i: nat, t: Text, p: char) returns (q: char)
    requires At(s, i, Written(t)) && BodyFits(t.style, t.body) && !Apostrophe(s, i) && WordFree(s, i + |Written(t)|)
    ensures Writes(s, i, i + |Written(t)|, Outside(p), Outside(q), RenderStr(StrictText(t)))
  {
    hide Writes, At, BodyText, BodyFits, StrictBody, RenderChars, ScanIn, RunTo, RepairStep, WordFree, Apostrophe;
    var body, out := BodyText(t.style, t.body), RenderChars(StrictText(t));
    var n := i + |Written(t)|;
    AtSplit(s, i, Opening(t.style), body + Closing(t.style));
    AtSplit(s, i + 1, body, Closing(t.style));
    q := TextOpens(s, i, t.style, p);
    BodyWrites(s, i + 1, t.style, 1, t.body, q);
    TextCloses(s, n - 1, t.style, q);
    var m := Mode(ScanIn(t.style, 1), q);
    WritesCompose(s, i + 1, n - 1, n, m, m, Outside(q), out, "\"");
    WritesCompose(s, i, i + 1, n, Outside(p), m, Outside(q), "\"", out + "\"");
  }

  // ---------------------------------------------------------------- between values

  lemma BlankWrites(s: string, i: nat, w: string, p: char)
    requires At(s, i, w) && Blank(w)
    ensures Writes(s, i, i + |w|, Outside(p), Outside(p), w)
  {
    hide Copies, At, Blank, Writes;
    BlankCopies(s, i, w, p);
    CopiesWrites(s, i, i + |w|, Outside(p), Outside(p), w);
  }

  lemma PunctuationWrites(s: string, i: nat, c: char, p: char)
    requires At(s, i, [c]) && (c == '{' || c == '}' || c == '[' || c == ']')
    ensures Writes(s, i, i + 1, Outside(p), Outside(c), [c])
  {
    hide Copies, At, Writes;
    PunctuationCopies(s, i, c, p);
    CopiesWrites(s, i, i + 1, Outside(p), Outside(c), [c]);
  }

  lemma ColonWrites(s: string, i: nat, wide: bool, p: char) returns (q: char)
    requires At(s, i, Colon(wide))
    ensures Writes(s, i, i + 1, Outside(p), Outside(q), ":") && CleanAt(s, i + 1)
  {
    AtIndex(s, i, Colon(wide), 0);
    q := s[i];
    WritesOne(s, i, i + 1, Outside(p), Outside(q), ":");
    CleanBehind(s, i);
  }

  lemma CommaWrites(s: string, i: nat, wide: bool, p: char) returns (q: char)
    requires At(s, i, Comma(wide)) && !TrailingComma(s, i + 1)
    ensures Writes(s, i, i + 1, Outside(p), Outside(q), ",") && CleanAt(s, i + 1) && (!wide ==> q == ',')
  {
    AtIndex(s, i, Comma(wide), 0);
    q := s[i];
    WritesOne(s, i, i + 1, Outside(p), Outside(q), ",");
    CleanBehind(s, i);
  }

  /** A comma in front of a closing bracket is dropped. */
  lemma CommaDrops(s: string, i: nat, wide: bool, p: char) returns (q: char)
    requires At(s, i, Comma(wide)) && TrailingComma(s, i + 1)
    ensures Writes(s, i, i + 1, Outside(p), Outside(q), "")
  {
    AtIndex(s, i, Comma(wide), 0);
    q := s[i];
    WritesOne(s, i, i + 1, Outside(p), Outside(q), "");
  }

  lemma TrailWrites(s: string, i: nat, wide: bool, gap: string, p: char) returns (q: char)
    requires At(s, i, Comma(wide) + gap) && Blank(gap)
    requires var n := i + 1 + |gap|; n < |s| && (s[n] == ']' || s[n] == '}')
    ensures Writes(s, i, i + 1 + |gap|, Outside(p), Outside(q), gap)
  {
    hide Writes, RepairStep, RunTo, At, Blank;
    AtSplit(s, i, Comma(wide), gap);
    SkipBlank(s, i + 1, gap);
    q := CommaDrops(s, i, wide, p);
    BlankWrites(s, i + 1, gap, q);
    WritesCompose(s, i, i + 1, i + 1 + |gap|, Outside(p), Outside(q), Outside(q), "", gap);
    assert "" + gap == gap;
  }

  lemma StrayOne(s: string, i: nat, c: char, p: char)
    requires At(s, i, [c]) && (c == RIGHT_DQ || c == RIGHT_SQ)
    ensures Writes(s, i, i + 1, Outside(p), Outside(c), "")
  {
    AtChar(s, i, c);
    WritesOne(s, i, i + 1, Outside(p), Outside(c), "");
  }

  lemma {:induction false} StrayWrites(s: string, i: nat, noise: string, p: char) returns (q: char)
    requires At(s, i, noise) && Stray(noise)
    ensures Writes(s, i, i + |noise|, Outside(p), Outside(q), "")
    decreases |noise|
  {
    hide Writes, At, RunTo, RepairStep;
    AtFits(s, i, noise);
    if noise == "" {
      WritesNothing(s, i, Outside(p));
      q := p;
    } else {
      HeadAndTail(noise);
      AtSplit(s, i, [noise[0]], noise[1..]);
      StrayOne(s, i, noise[0], p);
      q := StrayWrites(s, i + 1, noise[1..], noise[0]);
      WritesCompose(s, i, i + 1, i + |noise|, Outside(p), Outside(noise[0]), Outside(q), "", "");
      assert "" + "" == "";
    }
  }

  // ---------------------------------------------------------------- where single quotes open strings

  ghost predicate CleanAt(s: string, i: nat) { i <= |s| && !Apostrophe(s, i) }

  lemma CleanBehind(s: string, k: nat)
    requires k < |s| && !IsWord(s[k]) && !IsSpace(s[k])
    ensures CleanAt(s, k + 1)
  {
  }

  lemma FrontAndLast(w: string)
    requires w != ""
    ensures var k := |w| - 1; w == w[..k] + [w[k]] && w[k] in w && forall c :: c in w[..k] ==> c in w
  {
  }

  lemma {:induction false} SkipBackBlank(s: string, j: nat, w: string)
    requires At(s, j, w) && Blank(w)
    ensures j + |w| <= |s| && SkipSpacesBack(s, j + |w|) == SkipSpacesBack(s, j)
    decreases |w|
  {
    hide At;
    AtFits(s, j, w);
    if w != "" {
      var k := |w| - 1;
      AtIndex(s, j, w, k);
      FrontAndLast(w);
      AtSplit(s, j, w[..k], [w[k]]);
      SkipBackBlank(s, j, w[..k]);
    }
  }

  lemma CleanBlank(s: string, i: nat, w: string)
    requires CleanAt(s, i) && At(s, i, w) && Blank(w)
    ensures CleanAt(s, i + |w|)
  {
    SkipBackBlank(s, i, w);
  }

  // ---------------------------------------------------------------- elements

  /** Neither empty nor starting with a blank or a closing bracket. */
  predicate Solid(r: string) { r != "" && !IsSpace(r[0]) && r[0] != ']' && r[0] != '}' }

  lemma LooseIsSolid(v: Loose)
    requires Fits(v)
    ensures Solid(LooseText(v))
  {
    match v
    case Token(t) => FirstRune(t);
    case _ =>
  }

  lemma KeyIsSolid(k: Key, first: bool, wide: bool)
    requires KeyFits(k, first, wide)
    ensures Solid(KeyText(k))
  {
    if k.Bare? { assert k.word[0] in k.word; }
  }

  lemma SolidAppend(a: string, b: string)
    requires Solid(a)
    ensures Solid(a + b)
  {
  }

  lemma SeparatorWrites(s: string, i: nat, first: bool, wide: bool, pre: string, rest: string, p: char) returns (q: char)
    requires At(s, i, Between(first, wide) + (pre + rest)) && Blank(pre) && Solid(rest) && (first ==> CleanAt(s, i))
    ensures var j := i + |Between(first, wide)| + |pre|;
            && Writes(s, i, j, Outside(p), Outside(q), Separator(first) + pre) && At(s, j, rest) && CleanAt(s, j)
    ensures (first ==> q == p) && (!first && !wide ==> q == ',')
  {
    hide Writes, At, TrailingComma, RepairStep, RunTo, CleanAt, Blank;
    AtSplit(s, i, Between(first, wide), pre + rest);
    var j := i + |Between(first, wide)|;
    NotTrailing(s, j, pre, rest);
    if first {
      q := p;
      AtFits(s, i, "");
      WritesNothing(s, i, Outside(p));
    } else {
      q := CommaWrites(s, i, wide, p);
    }
    BlankWrites(s, j, pre, q);
    CleanBlank(s, j, pre);
    WritesCompose(s, i, j, j + |pre|, Outside(p), Outside(q), Outside(q), Separator(first), pre);
  }

  /** What stands behind a value: stray quotes, blanks, and then a comma or the closing bracket. */
  ghost predicate TailIs(s: string, n: nat, tail: string, close: char) {
    n < |s| && s[n] == close && (close == ']' || close == '}') && (tail == "" || tail[0] == ',' || tail[0] == WIDE_COMMA)
  }

  lemma FollowStray(s: string, j: nat, noise: string)
    requires At(s, j, noise) && Stray(noise) && noise != ""
    ensures Follow(s, j)
  {
    AtIndex(s, j, noise, 0);
    assert noise[0] in noise;
  }

  lemma FollowPost(s: string, j: nat, post: string, tail: string, close: char)
    requires At(s, j, post) && At(s, j + |post|, tail) && Blank(post) && TailIs(s, j + |post| + |tail|, tail, close)
    ensures Follow(s, j)
  {
    SkipBlank(s, j, post);
    if tail != "" { AtIndex(s, j + |post|, tail, 0); }
  }

  lemma FollowLoose(s: string, j: nat, noise: string, post: string, tail: string, close: char)
    requires At(s, j, noise + (post + tail)) && Stray(noise) && Blank(post)
    requires TailIs(s, j + |noise + (post + tail)|, tail, close)
    ensures Follow(s, j)
  {
    hide At, Stray, Blank, TailIs, Follow;
    AtSplit(s, j, noise, post + tail);
    AtSplit(s, j + |noise|, post, tail);
    if noise != "" { FollowStray(s, j, noise); } else { FollowPost(s, j, post, tail, close); }
  }

  /** A value, its stray quotes and its trailing blanks. */
  lemma {:induction false} LooseAndPost(s: string, i: nat, v: Loose, noise: string, post: string, tail: string, p: char, close: char)
    returns (q: char)
    requires Fits(v) && Stray(noise) && Blank(post) && At(s, i, LooseText(v) + (noise + (post + tail))) && CleanAt(s, i)
    requires TailIs(s, i + |LooseText(v)| + |noise + (post + tail)|, tail, close)
    ensures var k := i + |LooseText(v)| + |noise| + |post|;
            Writes(s, i, k, Outside(p), Outside(q), Render(Strict(v)) + post) && At(s, k, tail)
    decreases v, 1
  {
    hide Writes, At, Follow, CleanAt, TailIs, LooseText, Fits, Strict, Render, Stray, Blank, RunTo, RepairStep;
    var j := i + |LooseText(v)|;
    AtSplit(s, i, LooseText(v), noise + (post + tail));
    FollowLoose(s, j, noise, post, tail, close);
    AtSplit(s, j, noise, post + tail);
    AtSplit(s, j + |noise|, post, tail);
    var q1 := LooseWrites(s, i, v, p);
    var q2 := StrayWrites(s, j, noise, q1);
    q := q2;
    BlankWrites(s, j + |noise|, post, q);
    WritesCompose(s, j, j + |noise|, j + |noise| + |post|, Outside(q1), Outside(q), Outside(q), "", post);
    assert "" + post == post;
    WritesCompose(s, i, j, j + |noise| + |post|, Outside(p), Outside(q1), Outside(q), Render(Strict(v)), post);
  }

  lemma {:induction false} LooseWrites(s: string, i: nat, v: Loose, p: char) returns (q: char)
    requires Fits(v) && At(s, i, LooseText(v)) && Follow(s, i + |LooseText(v)|) && CleanAt(s, i)
    ensures Writes(s, i, i + |LooseText(v)|, Outside(p), Outside(q), Render(Strict(v)))
    decreases v, 0
  {
    hide Writes, At, Follow, CleanAt, ItemsText, MembersText, StrictItems, StrictMembers, ItemsFit, MembersFit, BodyFits,
         RenderItems, RenderMembers, RenderStr, Written, RunTo, RepairStep;
    var n := i + |LooseText(v)|;
    match v
    case Token(t) =>
      q := TokenWrites(s, i, t, p);
    case LooseStr(t) =>
      FollowIsWordFree(s, n);
      CleanMeans(s, i);
      q := TextWrites(s, i, t, p);
    case LooseArray(gap, items) =>
      var body, out := ItemsText(items, true), RenderItems(StrictItems(items), true);
      var j := Enters(s, i, '[', gap, body, ']', p);
      var q1 := ItemsWrite(s, j, items, true, '[');
      assert TrailGap(items) + out == out;
      Closes(s, i, j, n, '[', gap, out, ']', p, q1);
      q := ']';
    case LooseObject(gap, members) =>
      var body, out := MembersText(members, true), RenderMembers(StrictMembers(members, true), true);
      var j := Enters(s, i, '{', gap, body, '}', p);
      var q1 := MembersWrite(s, j, members, true, '{');
      assert MembersTrailGap(members) + out == out;
      Closes(s, i, j, n, '{', gap, out, '}', p, q1);
      q := '}';
  }

  lemma FollowIsWordFree(s: string, j: nat)
    requires Follow(s, j)
    ensures WordFree(s, j)
  {
  }

  lemma CleanMeans(s: string, i: nat)
    requires CleanAt(s, i)
    ensures i <= |s| && !Apostrophe(s, i)
  {
  }

  lemma TokenWrites(s: string, i: nat, t: Value, p: char) returns (q: char)
    requires (t.True? || t.False? || t.Null? || t.Number?) && WellFormed(t) && At(s, i, Render(t)) && Follow(s, i + |Render(t)|)
    ensures Writes(s, i, i + |Render(t)|, Outside(p), Outside(q), Render(t))
  {
    hide Writes, At, Follow, Copies, RunTo, RepairStep;
    var r := Render(t);
    if t.Number? { NumberIsToken(t); }
    TokenCopies(s, i, r, p);
    q := r[|r| - 1];
    CopiesWrites(s, i, i + |r|, Outside(p), Outside(q), r);
  }

  lemma Enters(s: string, i: nat, open: char, gap: string, body: string, close: char, p: char) returns (j: nat)
    requires At(s, i, [open] + (gap + (body + [close]))) && Blank(gap)
    requires (open == '[' && close == ']') || (open == '{' && close == '}')
    ensures j == i + 1 + |gap| && At(s, j, body) && TailIs(s, j + |body|, "", close) && At(s, j + |body|, [close])
    ensures Writes(s, i, j, Outside(p), Outside(open), [open] + gap) && CleanAt(s, j)
  {
    hide Writes, At, CleanAt, Blank, RunTo, RepairStep;
    AtSplit(s, i, [open], gap + (body + [close]));
    AtSplit(s, i + 1, gap, body + [close]);
    j := i + 1 + |gap|;
    AtSplit(s, j, body, [close]);
    AtChar(s, j + |body|, close);
    AtChar(s, i, open);
    PunctuationWrites(s, i, open, p);
    CleanBehind(s, i);
    BlankWrites(s, i + 1, gap, open);
    CleanBlank(s, i + 1, gap);
    WritesCompose(s, i, i + 1, j, Outside(p), Outside(open), Outside(open), [open], gap);
  }

  lemma Closes(s: string, i: nat, j: nat, n: nat, open: char, gap: string, out: string, close: char, p: char, q: char)
    requires n > 0 && Writes(s, i, j, Outside(p), Outside(open), [open] + gap)
    requires Writes(s, j, n - 1, Outside(open), Outside(q), out) && At(s, n - 1, [close]) && (close == ']' || close == '}')
    ensures Writes(s, i, n, Outside(p), Outside(close), [open] + (gap + (out + [close])))
  {
    hide Writes, At, RunTo, RepairStep;
    PunctuationWrites(s, n - 1, close, q);
    WritesCompose(s, j, n - 1, n, Outside(open), Outside(q), Outside(close), out, [close]);
    WritesCompose(s, i, j, n, Outside(p), Outside(open), Outside(close), [open] + gap, out + [close]);
    assert [open] + gap + (out + [close]) == [open] + (gap + (out + [close]));
  }

  lemma {:induction false} ItemsWrite(s: string, i: nat, items: LooseItems, first: bool, p: char) returns (q: char)
    requires ItemsFit(items) && At(s, i, ItemsText(items, first)) && (first ==> CleanAt(s, i) && !items.ItemsTrail?)
    requires TailIs(s, i + |ItemsText(items, first)|, "", ']')
    ensures Writes(s, i, i + |ItemsText(items, first)|, Outside(p), Outside(q), TrailGap(items) + RenderItems(StrictItems(items), first))
    decreases items
  {
    hide Writes, At, CleanAt, Fits, LooseText, Strict, Render, RunTo, RepairStep;
    match items
    case NoItems =>
      AtFits(s, i, "");
      WritesNothing(s, i, Outside(p));
      q := p;
    case ItemsTrail(wide, gap) =>
      q := TrailWrites(s, i, wide, gap, p);
      assert gap + "" == gap;
    case LooseItem(wide, pre, v, noise, post, rest) =>
      var tail := ItemsText(rest, false);
      var n := i + |ItemsText(items, first)|;
      var x := LooseText(v) + (noise + (post + tail));
      ItemStarts(rest);
      LooseIsSolid(v);
      SolidAppend(LooseText(v), noise + (post + tail));
      var q1 := SeparatorWrites(s, i, first, wide, pre, x, p);
      var j := i + |Between(first, wide)| + |pre|;
      var q2 := LooseAndPost(s, j, v, noise, post, tail, q1, ']');
      var k := j + |LooseText(v)| + |noise| + |post|;
      q := ItemsWrite(s, k, rest, false, q2);
      var a, b, c := Separator(first) + pre, Render(Strict(v)) + post, TrailGap(rest) + RenderItems(StrictItems(rest), false);
      WritesCompose(s, j, k, n, Outside(q1), Outside(q2), Outside(q), b, c);
      WritesCompose(s, i, j, n, Outside(p), Outside(q1), Outside(q), a, b + c);
      ItemParts(Separator(first), pre, Render(Strict(v)), post, TrailGap(rest), RenderItems(StrictItems(rest), false));
  }

  lemma ItemStarts(items: LooseItems)
    ensures var t := ItemsText(items, false); t == "" || t[0] == ',' || t[0] == WIDE_COMMA
  {
  }

  lemma ItemParts(a: string, b: string, c: string, d: string, e: string, f: string)
    ensures (a + b) + ((c + d) + (e + f)) == a + (b + (c + ((d + e) + f)))
    ensures "" + (a + (b + (c + ((d + e) + f)))) == a + (b + (c + ((d + e) + f)))
  {
  }

  // ---------------------------------------------------------------- members

  lemma ColonFollows(s: string, j: nat, bc: string, wide: bool, rest: string)
    requires At(s, j, bc + (Colon(wide) + rest)) && Blank(bc)
    ensures var k := SkipSpaces(s, j); k < |s| && (s[k] == ':' || s[k] == WIDE_COLON)
  {
    AtSplit(s, j, bc, Colon(wide) + rest);
    AtIndex(s, j + |bc|, Colon(wide) + rest, 0);
    SkipBlank(s, j, bc);
  }

  lemma {:induction false} SkipName(s: string, i: nat, w: string)
    requires At(s, i, w) && (forall c :: c in w ==> IsWord(c)) && (i + |w| < |s| ==> !IsWord(s[i + |w|]))
    ensures i + |w| <= |s| && SkipWord(s, i) == i + |w|
    decreases |w|
  {
    if w != "" {
      AtIndex(s, i, w, 0);
      assert w == [w[0]] + w[1..] && w[0] in w;
      AtSplit(s, i, [w[0]], w[1..]);
      SkipName(s, i + 1, w[1..]);
    }
  }

  lemma {:induction false} PlainText(w: string)
    ensures RenderChars(Plains(w)) == w
  {
    if w != "" {
      PlainText(w[1..]);
      RenderOne(Plain(w[0]), Plains(w[1..]));
      assert w == [w[0]] + w[1..];
    }
  }

  lemma {:induction false} NameIsStrict(w: string)
    requires forall c :: c in w ==> IsWord(c)
    ensures WellFormedChars(Plains(w))
  {
    if w != "" {
      assert w[0] in w && forall c :: c in w[1..] ==> c in w;
      NameIsStrict(w[1..]);
    }
  }

  lemma NameEnds(s: string, i: nat, w: string, bc: string, wide: bool, rest: string)
    requires At(s, i, w + (bc + (Colon(wide) + rest))) && IsName(w) && Blank(bc)
    ensures i + |w| <= |s| && s[i..i + |w|] == w && SkipWord(s, i) == i + |w|
  {
    var n := i + |w|;
    AtSplit(s, i, w, bc + (Colon(wide) + rest));
    AtIndex(s, n, bc + (Colon(wide) + rest), 0);
    BlankHead(bc);
    SkipName(s, i, w);
  }

  /** A bare key is quoted. */
  lemma BareWrites(s: string, i: nat, w: string, bc: string, wide: bool, rest: string, p: char)
    requires At(s, i, w + (bc + (Colon(wide) + rest))) && IsName(w) && Blank(bc) && KeyPosition(p)
    ensures Writes(s, i, i + |w|, Outside(p), Outside(p), ['"'] + (w + ['"']))
  {
    NameEnds(s, i, w, bc, wide, rest);
    AtSplit(s, i, w, bc + (Colon(wide) + rest));
    AtIndex(s, i, w, 0);
    assert w[0] in w;
    ColonFollows(s, i + |w|, bc, wide, rest);
    hide At, Blank, Colon;
    BareStep(s, i, i + |w|, p);
  }

  lemma BareStep(s: string, i: nat, n: nat, p: char)
    requires i < n <= |s| && IsWord(s[i]) && KeyPosition(p) && SkipWord(s, i) == n
    requires var k := SkipSpaces(s, n); k < |s| && (s[k] == ':' || s[k] == WIDE_COLON)
    ensures Writes(s, i, n, Outside(p), Outside(p), ['"'] + (s[i..n] + ['"']))
  {
    hide IsWord, KeyPosition;
    assert "\"" + s[i..n] + "\"" == ['"'] + (s[i..n] + ['"']);
    WritesOne(s, i, n, Outside(p), Outside(p), ['"'] + (s[i..n] + ['"']));
  }

  lemma BlankHead(w: string)
    requires Blank(w)
    ensures w == "" || (w[0] in w && IsSpace(w[0]))
  {
  }

  lemma KeyWrites(s: string, i: nat, k: Key, first: bool, wide: bool, bc: string, wideColon: bool, rest: string, p: char) returns (q: char)
    requires At(s, i, KeyText(k) + (bc + (Colon(wideColon) + rest))) && KeyFits(k, first, wide) && Blank(bc) && CleanAt(s, i)
    requires first || !wide ==> KeyPosition(p)
    ensures Writes(s, i, i + |KeyText(k)|, Outside(p), Outside(q), RenderStr(StrictKey(k, first, wide)))
  {
    hide Writes, At, Apostrophe, Written, RenderChars, BodyFits, StrictBody, Blank, RunTo, RepairStep, IsName;
    AtSplit(s, i, KeyText(k), bc + (Colon(wideColon) + rest));
    match k
    case Quoted(t) =>
      ColonFollows(s, i + |Written(t)|, bc, wideColon, rest);
      q := TextWrites(s, i, t, p);
    case Bare(w) =>
      BareWrites(s, i, w, bc, wideColon, rest, p);
      PlainText(w);
      q := p;
  }

  /** A key, its colon, and the blanks around that. */
  lemma KeyColonWrites(s: string, i: nat, k: Key, first: bool, wide: bool, bc: string, wideColon: bool, ac: string, rest: string, p: char)
    returns (q: char)
    requires At(s, i, KeyText(k) + (bc + (Colon(wideColon) + (ac + rest)))) && KeyFits(k, first, wide) && Blank(bc) && Blank(ac)
    requires CleanAt(s, i) && (first || !wide ==> KeyPosition(p))
    ensures var j := i + |KeyText(k)| + |bc| + 1 + |ac|;
            && Writes(s, i, j, Outside(p), Outside(q), RenderStr(StrictKey(k, first, wide)) + (bc + ([':'] + ac)))
            && At(s, j, rest) && CleanAt(s, j)
  {
    hide Writes, At, CleanAt, KeyText, KeyFits, StrictKey, RenderStr, Blank, RunTo, RepairStep, KeyPosition;
    var x := RenderStr(StrictKey(k, first, wide));
    var a := i + |KeyText(k)|;
    var b := a + |bc|;
    AtSplit(s, i, KeyText(k), bc + (Colon(wideColon) + (ac + rest)));
    AtSplit(s, a, bc, Colon(wideColon) + (ac + rest));
    AtSplit(s, b, Colon(wideColon), ac + rest);
    AtSplit(s, b + 1, ac, rest);
    var q1 := KeyWrites(s, i, k, first, wide, bc, wideColon, ac + rest, p);
    BlankWrites(s, a, bc, q1);
    q := ColonWrites(s, b, wideColon, q1);
    BlankWrites(s, b + 1, ac, q);
    CleanBlank(s, b + 1, ac);
    WritesCompose(s, b, b + 1, b + 1 + |ac|, Outside(q1), Outside(q), Outside(q), [':'], ac);
    WritesCompose(s, a, b, b + 1 + |ac|, Outside(q1), Outside(q1), Outside(q), bc, [':'] + ac);
    WritesCompose(s, i, a, b + 1 + |ac|, Outside(p), Outside(q1), Outside(q), x, bc + ([':'] + ac));
  }

  lemma {:induction false} MembersWrite(s: string, i: nat, ms: LooseMembers, first: bool, p: char) returns (q: char)
    requires MembersFit(ms, first) && At(s, i, MembersText(ms, first))
    requires first ==> CleanAt(s, i) && !ms.MembersTrail? && p == '{'
    requires TailIs(s, i + |MembersText(ms, first)|, "", '}')
    ensures Writes(s, i, i + |MembersText(ms, first)|, Outside(p), Outside(q),
                   MembersTrailGap(ms) + RenderMembers(StrictMembers(ms, first), first))
    decreases ms
  {
    hide Writes, At, CleanAt, Fits, LooseText, Strict, Render, KeyText, KeyFits, StrictKey, RenderStr, RunTo, RepairStep,
         Separator, Between, Colon, Blank, Stray;
    match ms
    case NoMembers =>
      AtFits(s, i, "");
      WritesNothing(s, i, Outside(p));
      q := p;
    case MembersTrail(wide, gap) =>
      q := TrailWrites(s, i, wide, gap, p);
      assert gap + "" == gap;
    case LooseMember(wide, pre, key, bc, wideColon, ac, v, noise, post, rest) =>
      MemberRendered(ms, first);
      hide MemberOut, RenderMembers, StrictMembers, MembersTrailGap;
      var tail := MembersText(rest, false);
      var n := i + |MembersText(ms, first)|;
      MemberStarts(rest);
      var k, q2 := MemberWrites(s, i, first, wide, pre, key, bc, wideColon, ac, v, noise, post, tail, p);
      q := MembersWrite(s, k, rest, false, q2);
      var out := MemberOut(first, pre, key, wide, bc, ac, v, post);
      var more := RenderMembers(StrictMembers(rest, false), false);
      WritesCompose(s, i, k, n, Outside(p), Outside(q2), Outside(q), out, MembersTrailGap(rest) + more);
  }

  /** What is written for one member, up to its trailing blanks. */
  function MemberOut(first: bool, pre: string, key: Key, wide: bool, bc: string, ac: string, v: Loose, post: string): string
    requires KeyFits(key, first, wide) && Fits(v)
  {
    (Separator(first) + pre) + ((RenderStr(StrictKey(key, first, wide)) + (bc + ([':'] + ac))) + (Render(Strict(v)) + post))
  }

  lemma MemberRendered(ms: LooseMembers, first: bool)
    requires MembersFit(ms, first) && ms.LooseMember?
    ensures MembersTrailGap(ms) + RenderMembers(StrictMembers(ms, first), first)
         == MemberOut(first, ms.pre, ms.key, ms.wide, ms.beforeColon, ms.afterColon, ms.value, ms.post)
            + (MembersTrailGap(ms.rest) + RenderMembers(StrictMembers(ms.rest, false), false))
  {
    hide Fits, Strict, Render, KeyFits, StrictKey, RenderStr, Separator;
    MemberParts(Separator(first), ms.pre, RenderStr(StrictKey(ms.key, first, ms.wide)), ms.beforeColon, ms.afterColon,
                Render(Strict(ms.value)), ms.post, MembersTrailGap(ms.rest), RenderMembers(StrictMembers(ms.rest, false), false));
  }

  lemma {:induction false} MemberWrites(s: string, i: nat, first: bool, wide: bool, pre: string, key: Key, bc: string, wideColon: bool,
                                        ac: string, v: Loose, noise: string, post: string, tail: string, p: char)
    returns (k: nat, q: char)
    requires Blank(pre) && KeyFits(key, first, wide) && Blank(bc) && Blank(ac) && Fits(v) && Stray(noise) && Blank(post)
    requires var text := Between(first, wide) + (pre + (KeyText(key) + (bc + (Colon(wideColon) + (ac + (LooseText(v) + (noise + (post + tail))))))));
             At(s, i, text) && TailIs(s, i + |text|, tail, '}')
    requires first ==> CleanAt(s, i) && p == '{'
    ensures k + |tail| == i + |Between(first, wide) + (pre + (KeyText(key) + (bc + (Colon(wideColon) + (ac + (LooseText(v) + (noise + (post + tail))))))))|
    ensures At(s, k, tail) && Writes(s, i, k, Outside(p), Outside(q), MemberOut(first, pre, key, wide, bc, ac, v, post))
    decreases v, 2
  {
    hide Writes, At, CleanAt, Fits, LooseText, Strict, Render, KeyText, KeyFits, StrictKey, RenderStr, RunTo, RepairStep, Stray, Blank;
    var y := LooseText(v) + (noise + (post + tail));
    var x := KeyText(key) + (bc + (Colon(wideColon) + (ac + y)));
    KeyIsSolid(key, first, wide);
    SolidAppend(KeyText(key), bc + (Colon(wideColon) + (ac + y)));
    var q1 := SeparatorWrites(s, i, first, wide, pre, x, p);
    var j := i + |Between(first, wide)| + |pre|;
    var q3 := KeyColonWrites(s, j, key, first, wide, bc, wideColon, ac, y, q1);
    var m := j + |KeyText(key)| + |bc| + 1 + |ac|;
    q := LooseAndPost(s, m, v, noise, post, tail, q3, '}');
    k := m + |LooseText(v)| + |noise| + |post|;
    var a, b, c := Separator(first) + pre, RenderStr(StrictKey(key, first, wide)) + (bc + ([':'] + ac)), Render(Strict(v)) + post;
    WritesCompose(s, j, m, k, Outside(q1), Outside(q3), Outside(q), b, c);
    WritesCompose(s, i, j, k, Outside(p), Outside(q1), Outside(q), a, b + c);
  }

  lemma MemberStarts(ms: LooseMembers)
    ensures var t := MembersText(ms, false); t == "" || t[0] == ',' || t[0] == WIDE_COMMA
  {
  }

  lemma MemberParts(a: string, b: string, c: string, d: string, e: string, f: string, g: string, h: string, more: string)
    ensures ((a + b) + ((c + (d + ([':'] + e))) + (f + g))) + (h + more)
         == a + (b + (c + (d + ([':'] + (e + (f + ((g + h) + more)))))))
    ensures var r := a + (b + (c + (d + ([':'] + (e + (f + ((g + h) + more))))))); "" + r == r
  {
  }

  // ---------------------------------------------------------------- the theorem

  lemma RuneIsStrict(style: Style, r: Rune)
    requires RuneFits(style, r)
    ensures StrictRune(r).WellFormed()
  {
  }

  lemma {:induction false} BodyIsStrict(style: Style, b: Body)
    requires BodyFits(style, b)
    ensures WellFormedChars(StrictBody(style, b))
  {
    hide RuneFits, StrictRune, StrChar.WellFormed;
    match b
    case NoRunes =>
    case Elem(r, rest) =>
      RuneIsStrict(style, r);
      FitsRaw(style, r);
      BodyIsStrict(style, rest);
    case Quote(rest) =>
      assert Plain('\'').WellFormed() by { QuotesArePlain(style); }
      BodyIsStrict(style, rest);
    case Nest(inner, rest) =>
      QuotesArePlain(style);
      BodyIsStrict(style, inner);
      BodyIsStrict(style, rest);
  }

  lemma QuotesArePlain(style: Style)
    ensures Plain('\'').WellFormed() && Plain(NestOpen(style)).WellFormed() && Plain(NestClose(style)).WellFormed()
  {
  }

  lemma KeyIsStrict(k: Key, first: bool, wide: bool)
    requires KeyFits(k, first, wide)
    ensures WellFormedChars(StrictKey(k, first, wide))
  {
    match k
    case Quoted(t) => BodyIsStrict(t.style, t.body);
    case Bare(w) => NameIsStrict(w);
  }

  lemma BlankAppend(a: string, b: string)
    requires Blank(a) && Blank(b)
    ensures Blank(a + b)
  {
  }

  /** What is meant is a value of the grammar. */
  lemma {:induction false} IsStrict(v: Loose)
    requires Fits(v)
    ensures WellFormed(Strict(v))
    decreases v
  {
    hide Blank, WellFormedChars, BodyFits;
    match v
    case Token(_) =>
    case LooseStr(t) => BodyIsStrict(t.style, t.body);
    case LooseArray(_, items) => ItemsAreStrict(items);
    case LooseObject(_, members) => MembersAreStrict(members, true);
  }

  lemma {:induction false} ItemsAreStrict(items: LooseItems)
    requires ItemsFit(items)
    ensures WellFormedItems(StrictItems(items)) && Blank(TrailGap(items))
    decreases items
  {
    match items
    case LooseItem(_, _, v, _, post, rest) =>
      IsStrict(v);
      ItemsAreStrict(rest);
      BlankAppend(post, TrailGap(rest));
    case _ =>
  }

  lemma {:induction false} MembersAreStrict(ms: LooseMembers, first: bool)
    requires MembersFit(ms, first)
    ensures WellFormedMembers(StrictMembers(ms, first)) && Blank(MembersTrailGap(ms))
    decreases ms
  {
    hide KeyFits, StrictKey, WellFormedChars;
    match ms
    case LooseMember(wide, _, key, _, _, _, v, _, post, rest) =>
      KeyIsStrict(key, first, wide);
      IsStrict(v);
      MembersAreStrict(rest, false);
      BlankAppend(post, MembersTrailGap(rest));
    case _ =>
  }

  /** Repair turns every such text into the strict JSON text it stands for: the same value, the same
      blanks, none of the defects. */
  lemma RepairMends(before: string, v: Loose, noise: string, after: string)
    requires Blank(before) && Fits(v) && Stray(noise) && Blank(after)
    ensures Repaired(before + (LooseText(v) + (noise + after))) == before + (Render(Strict(v)) + after)
    ensures ValidJson(before + (Render(Strict(v)) + after))
  {
    hide Writes, Follow, CleanAt, LooseText, Fits, Strict, Render, WellFormed, Stray, RunTo, RepairStep, Repaired;
    var s := before + (LooseText(v) + (noise + after));
    var i := |before|;
    var j := i + |LooseText(v)|;
    var k := j + |noise|;
    assert At(s, 0, before + (LooseText(v) + (noise + after)));
    hide At, Blank;
    AtSplit(s, 0, before, LooseText(v) + (noise + after));
    AtSplit(s, i, LooseText(v), noise + after);
    AtSplit(s, j, noise, after);
    StartIsClean(s);
    CleanBlank(s, 0, before);
    FollowEnd(s, j, noise, after);
    BlankWrites(s, 0, before, '\0');
    var p := LooseWrites(s, i, v, '\0');
    var q := StrayWrites(s, j, noise, p);
    BlankWrites(s, k, after, q);
    WritesCompose(s, j, k, |s|, Outside(p), Outside(q), Outside(q), "", after);
    assert "" + after == after;
    WritesCompose(s, i, j, |s|, Outside('\0'), Outside(p), Outside(q), Render(Strict(v)), after);
    WritesCompose(s, 0, i, |s|, Outside('\0'), Outside('\0'), Outside(q), before, Render(Strict(v)) + after);
    WritesWhole(s, q, before + (Render(Strict(v)) + after));
    IsStrict(v);
    assert Renders(before + (Render(Strict(v)) + after), before, Strict(v), after);
  }

  lemma StartIsClean(s: string)
    ensures CleanAt(s, 0)
  {
  }

  lemma FollowEnd(s: string, j: nat, noise: string, after: string)
    requires At(s, j, noise) && At(s, j + |noise|, after) && j + |noise| + |after| == |s| && Stray(noise) && Blank(after)
    ensures Follow(s, j)
  {
    if noise != "" {
      AtIndex(s, j, noise, 0);
      assert noise[0] in noise;
    } else {
      SkipBlank(s, j, after);
    }
  }

  lemma WritesWhole(s: string, p: char, w: string)
    requires Writes(s, 0, |s|, Outside('\0'), Outside(p), w)
    ensures Repaired(s) == w
  {
    assert "" + w == w;
  }

  // ---------------------------------------------------------------- what the escapes mean

  function HexValue(c: char): int
    requires IsHex(c)
  {
    if IsDigit(c) then c as int - '0' as int else if c <= 'F' then c as int - 'A' as int + 10 else c as int - 'a' as int + 10
  }

  /** The code point, or code unit, that an element of a string denotes (RFC 8259, section 7). */
  function CodeOf(c: StrChar): int
    requires c.WellFormed()
  {
    match c
    case Plain(x) => x as int
    case Escape(x) =>
      if x == 'b' then 8 else if x == 't' then 9 else if x == 'n' then 10 else if x == 'f' then 12 else if x == 'r' then 13
      else x as int
    case Unicode(h0, h1, h2, h3) => ((HexValue(h0) * 16 + HexValue(h1)) * 16 + HexValue(h2)) * 16 + HexValue(h3)
  }

  lemma HexIsValue(d: int)
    requires 0 <= d < 16
    ensures IsHex(Hex(d)) && HexValue(Hex(d)) == d
  {
  }

  /** The escape of a control rune denotes that rune. */
  lemma RawMeansItself(c: char)
    requires c as int < 0x20
    ensures StrictRune(Raw(c)).WellFormed() && CodeOf(StrictRune(Raw(c))) == c as int
  {
    HexIsValue(c as int / 16);
    HexIsValue(c as int % 16);
    HexIsValue(0);
  }

  /** Outside double quotes other control runes than newline, carriage return and tab stay as they are, and
      JSON does not allow them. */
  lemma ControlStays(c: char)
    requires c as int < 0x20 && c != '\n' && c != '\r' && c != '\t'
    ensures Repaired([LEFT_DQ, c, RIGHT_DQ]) == ['"', c, '"']
  {
    hide Writes, RunTo, RepairStep, Repaired;
    var s := [LEFT_DQ, c, RIGHT_DQ];
    assert s[0..1] == Opening(Wide) && s[2..3] == Closing(Wide);
    assert At(s, 0, Opening(Wide)) && At(s, 2, Closing(Wide));
    StartIsClean(s);
    CleanMeans(s, 0);
    var q := TextOpens(s, 0, Wide, '\0');
    QuietWrites(s, 1, Wide, 1, q);
    TextCloses(s, 2, Wide, q);
    var m := Mode(ScanIn(Wide, 1), q);
    WritesCompose(s, 1, 2, 3, m, m, Outside(q), [c], "\"");
    WritesCompose(s, 0, 1, 3, Outside('\0'), m, Outside(q), "\"", [c] + "\"");
    WritesWhole(s, q, "\"" + ([c] + "\""));
  }
}
