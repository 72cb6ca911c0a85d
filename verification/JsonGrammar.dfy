/** The grammar of JSON texts (RFC 8259, sections 2 to 7) as concrete syntax trees: a text is valid
    when it is the rendering of a well-formed tree between two runs of whitespace. */
module JsonGrammar {
  predicate IsSpace(c: char) { c == ' ' || c == '\t' || c == '\n' || c == '\r' }

  predicate IsDigit(c: char) { '0' <= c <= '9' }

  predicate IsHex(c: char) { IsDigit(c) || 'a' <= c <= 'f' || 'A' <= c <= 'F' }

  predicate Blank(s: string) { forall c :: c in s ==> IsSpace(c) }

  predicate Digits(s: string) { s != "" && forall c :: c in s ==> IsDigit(c) }

  /** One element of a string: section 7. */
  datatype StrChar = Plain(c: char) | Escape(c: char) | Unicode(h0: char, h1: char, h2: char, h3: char) {
    predicate WellFormed() {
      match this
      case Plain(c) => c as int >= 0x20 && c != '"' && c != '\\'
      case Escape(c) => c in "\"\\/bfnrt"
      case Unicode(a, b, c, d) => IsHex(a) && IsHex(b) && IsHex(c) && IsHex(d)
    }

    function Render(): string {
      match this
      case Plain(c) => [c]
      case Escape(c) => ['\\', c]
      case Unicode(a, b, c, d) => ['\\', 'u', a, b, c, d]
    }
  }

  datatype Value =
    | True | False | Null
    | Number(minus: bool, whole: string, fraction: string, exponent: string)
    | Str(chars: seq<StrChar>)
    | Array(gap: string, items: Items)
    | Object(gap: string, members: Members)

  /** `pre` and `post` are the whitespace around the element. */
  datatype Items = NoItems | Item(pre: string, value: Value, post: string, rest: Items)

  datatype Members = NoMembers
    | Member(pre: string, key: seq<StrChar>, beforeColon: string, afterColon: string, value: Value, post: string, rest: Members)

  /** int: a single zero, or digits not starting with zero (section 6). */
  predicate WholePart(s: string) { Digits(s) && (s[0] == '0' ==> |s| == 1) }

  predicate FractionPart(s: string) { s == "" || (s[0] == '.' && Digits(s[1..])) }

  predicate ExponentPart(s: string) {
    s == "" || ((s[0] == 'e' || s[0] == 'E') &&
                (Digits(s[1..]) || (|s| > 2 && (s[1] == '+' || s[1] == '-') && Digits(s[2..]))))
  }

  predicate WellFormedChars(cs: seq<StrChar>) { forall c :: c in cs ==> c.WellFormed() }

  predicate WellFormed(v: Value) {
    match v
    case Number(_, w, f, e) => WholePart(w) && FractionPart(f) && ExponentPart(e)
    case Str(cs) => WellFormedChars(cs)
    case Array(gap, items) => Blank(gap) && WellFormedItems(items)
    case Object(gap, members) => Blank(gap) && WellFormedMembers(members)
    case _ => true
  }

  predicate WellFormedItems(items: Items) {
    match items
    case NoItems => true
    case Item(pre, v, post, rest) => Blank(pre) && WellFormed(v) && Blank(post) && WellFormedItems(rest)
  }

  predicate WellFormedMembers(ms: Members) {
    match ms
    case NoMembers => true
    case Member(pre, key, bc, ac, v, post, rest) =>
      Blank(pre) && WellFormedChars(key) && Blank(bc) && Blank(ac) && WellFormed(v) && Blank(post) && WellFormedMembers(rest)
  }

  function RenderChars(cs: seq<StrChar>): string {
    if cs == [] then "" else cs[0].Render() + RenderChars(cs[1..])
  }

  function RenderStr(cs: seq<StrChar>): string { ['"'] + (RenderChars(cs) + ['"']) }

  function Render(v: Value): string {
    match v
    case True => "true"
    case False => "false"
    case Null => "null"
    case Number(m, w, f, e) => (if m then "-" else "") + w + f + e
    case Str(cs) => RenderStr(cs)
    case Array(gap, items) => ['['] + (gap + (RenderItems(items, true) + [']']))
    case Object(gap, members) => ['{'] + (gap + (RenderMembers(members, true) + ['}']))
  }

  function Separator(first: bool): string { if first then "" else "," }

  function RenderItems(items: Items, first: bool): string {
    match items
    case NoItems => ""
    case Item(pre, v, post, rest) => Separator(first) + (pre + (Render(v) + (post + RenderItems(rest, false))))
  }

  function RenderMembers(ms: Members, first: bool): string {
    match ms
    case NoMembers => ""
    case Member(pre, key, bc, ac, v, post, rest) =>
      Separator(first) + (pre + (RenderStr(key) + (bc + ([':'] + (ac + (Render(v) + (post + RenderMembers(rest, false))))))))
  }

  ghost predicate Renders(s: string, before: string, v: Value, after: string) {
    Blank(before) && WellFormed(v) && Blank(after) && s == before + (Render(v) + after)
  }

  /** A JSON text: whitespace, one value, whitespace (section 2). */
  ghost predicate ValidJson(s: string) {
    exists before, v, after :: Renders(s, before, v, after)
  }
}
