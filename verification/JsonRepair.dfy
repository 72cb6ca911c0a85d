/** Fault-tolerant JSON for model output (jsonx/jsonx.go): the four-state string scanner, the
    single-pass repair that duplicates it, and the extraction functions that use it. Texts are
    sequences of runes. */
module JsonRepair {
  import opened JsonGrammar
  import opened Options

  const LEFT_DQ := '\U{201C}'
  const RIGHT_DQ := '\U{201D}'
  const LEFT_SQ := '\U{2018}'
  const RIGHT_SQ := '\U{2019}'
  const WIDE_COLON := '\U{FF1A}'
  const WIDE_COMMA := '\U{FF0C}'

  predicate IsWord(c: char) {
    c == '_' || c == '$' || 'a' <= c <= 'z' || 'A' <= c <= 'Z' || IsDigit(c)
  }

  // ---------------------------------------------------------------- lookaround

  function SkipSpaces(s: string, j: nat): (k: nat)
    requires j <= |s|
    ensures j <= k <= |s| && (k < |s| ==> !IsSpace(s[k]))
    decreases |s| - j
  {
    if j < |s| && IsSpace(s[j]) then SkipSpaces(s, j + 1) else j
  }

  function SkipSpacesBack(s: string, j: nat): (k: nat)
    requires j <= |s|
    ensures k <= j
  {
    if j > 0 && IsSpace(s[j - 1]) then SkipSpacesBack(s, j - 1) else j
  }

  function SkipWord(s: string, j: nat): (k: nat)
    requires j <= |s|
    ensures j <= k <= |s| && (k < |s| ==> !IsWord(s[k]))
    ensures forall x :: j <= x < k ==> IsWord(s[x])
    decreases |s| - j
  {
    if j < |s| && IsWord(s[j]) then SkipWord(s, j + 1) else j
  }

  /** A quote at a structural position is an apostrophe when the last non-blank rune before it is a word rune. */
  predicate Apostrophe(s: string, pos: nat)
    requires pos <= |s|
  {
    var j := SkipSpacesBack(s, pos);
    j > 0 && IsWord(s[j - 1])
  }

  /** A quote inside a single-quoted string closes it unless a word rune comes next. */
  predicate SqCloses(s: string, pos: nat)
    requires pos < |s|
  {
    var j := SkipSpaces(s, pos + 1);
    j == |s| || !IsWord(s[j])
  }

  predicate TrailingComma(s: string, pos: nat)
    requires pos <= |s|
  {
    var j := SkipSpaces(s, pos);
    j < |s| && (s[j] == '}' || s[j] == ']')
  }

  predicate KeyPosition(prev: char) { prev == '{' || prev == ',' }

  predicate BareKeyColon(s: string, i: nat)
    requires i <= |s|
  {
    var j := SkipSpaces(s, SkipWord(s, i));
    j < |s| && (s[j] == ':' || s[j] == WIDE_COLON)
  }

  // ---------------------------------------------------------------- the string scanner

  datatype Scan = Scan(inDQ: bool, esc: bool, fw: int, sq: int) {
    predicate Inside() { inDQ || fw > 0 || sq > 0 }
  }

  const OUTSIDE := Scan(false, false, 0, 0)

  function StepScan(sc: Scan, s: string, i: nat): Scan
    requires i < |s|
  {
    var r := s[i];
    if sc.inDQ then
      if sc.esc then sc.(esc := false)
      else if r == '\\' then sc.(esc := true)
      else if r == '"' then sc.(inDQ := false)
      else sc
    else if sc.fw > 0 then
      if r == RIGHT_DQ then sc.(fw := sc.fw - 1)
      else if r == LEFT_DQ then sc.(fw := sc.fw + 1)
      else sc
    else if sc.sq > 0 then
      if r == '\'' && !SqCloses(s, i) then sc
      else if r == '\'' then sc.(sq := sc.sq - 1)
      else if r == RIGHT_SQ then sc.(sq := sc.sq - 1)
      else if r == LEFT_SQ then sc.(sq := sc.sq + 1)
      else sc
    else
      if r == '"' then sc.(inDQ := true)
      else if r == LEFT_DQ then sc.(fw := 1)
      else if r == LEFT_SQ then sc.(sq := 1)
      else if r == '\'' && !Apostrophe(s, i) then sc.(sq := 1)
      else sc
  }

  /** The scanner's state in front of position `i`. */
  function ScanTo(s: string, i: nat): Scan
    requires i <= |s|
  {
    if i == 0 then OUTSIDE else StepScan(ScanTo(s, i - 1), s, i - 1)
  }

  class StrScan {
    var inDQ: bool
    var esc: bool
    var fw: int
    var sq: int

    ghost function View(): Scan reads this { Scan(inDQ, esc, fw, sq) }

    constructor ()
      ensures View() == OUTSIDE
    {
      inDQ, esc, fw, sq := false, false, 0, 0;
    }

    predicate Inside()
      reads this
      ensures Inside() == View().Inside()
    {
      inDQ || fw > 0 || sq > 0
    }

    method Step(r: char, s: string, i: nat)
      requires i < |s| && r == s[i]
      modifies this
      ensures View() == StepScan(old(View()), s, i)
    {
      if inDQ {
        if esc { esc := false; }
        else if r == '\\' { esc := true; }
        else if r == '"' { inDQ := false; }
      } else if fw > 0 {
        if r == RIGHT_DQ { fw := fw - 1; }
        else if r == LEFT_DQ { fw := fw + 1; }
      } else if sq > 0 {
        if r == '\'' && !SqCloses(s, i) {
        } else if r == '\'' { sq := sq - 1; }
        else if r == RIGHT_SQ { sq := sq - 1; }
        else if r == LEFT_SQ { sq := sq + 1; }
      } else {
        if r == '"' { inDQ := true; }
        else if r == LEFT_DQ { fw := 1; }
        else if r == LEFT_SQ { sq := 1; }
        else if r == '\'' && !Apostrophe(s, i) { sq := 1; }
      }
    }
  }

  // ---------------------------------------------------------------- repair, as a step function

  /** Where `repair`'s loop stands: position, scanner state, last structural rune, text written. */
  datatype Loop = Loop(i: nat, sc: Scan, prev: char, out: string)

  function HexDigit(d: int): char
    requires 0 <= d < 16
  {
    "0123456789abcdef"[d]
  }

  /** `\u00xx` for a control rune. */
  function ControlEscape(r: char): string
    requires r as int < 0x20
  {
    "\\u00" + [HexDigit(r as int / 16), HexDigit(r as int % 16)]
  }

  function EscapeLine(r: char): Option<string> {
    if r == '\n' then Some("\\n") else if r == '\r' then Some("\\r") else if r == '\t' then Some("\\t") else None
  }

  function InDQ(sc: Scan, r: char): (Scan, string) {
    if sc.esc then (sc.(esc := false), [r])
    else if r == '\\' then (sc.(esc := true), [r])
    else if r == '"' then (sc.(inDQ := false), [r])
    else if EscapeLine(r).Some? then (sc, EscapeLine(r).value)
    else if r as int < 0x20 then (sc, ControlEscape(r))
    else (sc, [r])
  }

  function InFW(sc: Scan, r: char): (Scan, string) {
    if r == RIGHT_DQ then (sc.(fw := sc.fw - 1), if sc.fw - 1 == 0 then "\"" else [r])
    else if r == LEFT_DQ then (sc.(fw := sc.fw + 1), [r])
    else if EscapeLine(r).Some? then (sc, EscapeLine(r).value)
    else (sc, [r])
  }

  function InSQ(sc: Scan, s: string, i: nat): (Scan, string)
    requires i < |s|
  {
    var r := s[i];
    if r == '\'' && !SqCloses(s, i) then (sc, [r])
    else if r == '\'' then (sc.(sq := sc.sq - 1), "\"")
    else if r == RIGHT_SQ then (sc.(sq := sc.sq - 1), if sc.sq - 1 == 0 then "\"" else [r])
    else if r == LEFT_SQ then (sc.(sq := sc.sq + 1), [r])
    else if EscapeLine(r).Some? then (sc, EscapeLine(r).value)
    else (sc, [r])
  }

  /** A structural rune other than a bare key. */
  function AtStructure(sc: Scan, s: string, i: nat): (Scan, string)
    requires i < |s|
  {
    var r := s[i];
    if r == '"' then (sc.(inDQ := true), [r])
    else if r == LEFT_DQ then (sc.(fw := 1), "\"")
    else if r == LEFT_SQ then (sc.(sq := 1), "\"")
    else if r == RIGHT_DQ || r == RIGHT_SQ then (sc, "")
    else if r == '\'' && !Apostrophe(s, i) then (sc.(sq := 1), "\"")
    else if r == WIDE_COLON then (sc, ":")
    else if r == ',' || r == WIDE_COMMA then (sc, if TrailingComma(s, i + 1) then "" else ",")
    else (sc, [r])
  }

  predicate BareKeyAt(s: string, i: nat, prev: char)
    requires i < |s|
  {
    IsWord(s[i]) && KeyPosition(prev) && BareKeyColon(s, i)
  }

  function RepairStep(s: string, l: Loop): (m: Loop)
    requires l.i < |s|
    ensures l.i < m.i <= |s|
  {
    var r := s[l.i];
    if l.sc.inDQ then
      var (sc, w) := InDQ(l.sc, r);
      Loop(l.i + 1, sc, l.prev, l.out + w)
    else if l.sc.fw > 0 then
      var (sc, w) := InFW(l.sc, r);
      Loop(l.i + 1, sc, l.prev, l.out + w)
    else if l.sc.sq > 0 then
      var (sc, w) := InSQ(l.sc, s, l.i);
      Loop(l.i + 1, sc, l.prev, l.out + w)
    else if BareKeyAt(s, l.i, l.prev) then
      assert IsWord(s[l.i]) && SkipWord(s, l.i) == SkipWord(s, l.i + 1);
      var j := SkipWord(s, l.i);
      Loop(j, l.sc, l.prev, l.out + ("\"" + s[l.i..j] + "\""))
    else
      var (sc, w) := AtStructure(l.sc, s, l.i);
      Loop(l.i + 1, sc, if IsSpace(r) then l.prev else r, l.out + w)
  }

  /** Runs the loop until it stands at or after `n`. */
  function RunTo(s: string, l: Loop, n: nat): (m: Loop)
    requires l.i <= |s| && n <= |s|
    ensures n <= m.i <= |s| && l.i <= m.i
    decreases |s| - l.i
  {
    if l.i >= n then l else RunTo(s, RepairStep(s, l), n)
  }

  const START := Loop(0, OUTSIDE, '\0', "")

  function Repaired(s: string): string { RunTo(s, START, |s|).out }

  lemma RunToNext(s: string, l: Loop)
    requires l.i < |s|
    ensures RunTo(s, RepairStep(s, l), |s|) == RunTo(s, l, |s|)
  {
  }

  /** The rune branches of `repair`; each returns what it writes. */
  method RepairInDQ(sc: StrScan, r: char) returns (w: string)
    modifies sc
    ensures (sc.View(), w) == InDQ(old(sc.View()), r)
  {
    w := [r];
    if sc.esc { sc.esc := false; }
    else if r == '\\' { sc.esc := true; }
    else if r == '"' { sc.inDQ := false; }
    else if r == '\n' { w := "\\n"; }
    else if r == '\r' { w := "\\r"; }
    else if r == '\t' { w := "\\t"; }
    else if r as int < 0x20 { w := ControlEscape(r); }
  }

  method RepairInFW(sc: StrScan, r: char) returns (w: string)
    modifies sc
    ensures (sc.View(), w) == InFW(old(sc.View()), r)
  {
    w := [r];
    if r == RIGHT_DQ {
      sc.fw := sc.fw - 1;
      if sc.fw == 0 { w := "\""; }
    } else if r == LEFT_DQ { sc.fw := sc.fw + 1; }
    else if r == '\n' { w := "\\n"; }
    else if r == '\r' { w := "\\r"; }
    else if r == '\t' { w := "\\t"; }
  }

  method RepairInSQ(sc: StrScan, s: string, i: nat) returns (w: string)
    requires i < |s|
    modifies sc
    ensures (sc.View(), w) == InSQ(old(sc.View()), s, i)
  {
    var r := s[i];
    w := [r];
    if r == '\'' && !SqCloses(s, i) { return; }
    if r == '\'' {
      sc.sq := sc.sq - 1;
      w := "\"";
    } else if r == RIGHT_SQ {
      sc.sq := sc.sq - 1;
      if sc.sq == 0 { w := "\""; }
    } else if r == LEFT_SQ { sc.sq := sc.sq + 1; }
    else if r == '\n' { w := "\\n"; }
    else if r == '\r' { w := "\\r"; }
    else if r == '\t' { w := "\\t"; }
  }

  method RepairStructural(sc: StrScan, s: string, i: nat) returns (w: string)
    requires i < |s|
    modifies sc
    ensures (sc.View(), w) == AtStructure(old(sc.View()), s, i)
  {
    var r := s[i];
    w := [r];
    if r == '"' { sc.inDQ := true; }
    else if r == LEFT_DQ { w := "\""; sc.fw := 1; }
    else if r == LEFT_SQ { w := "\""; sc.sq := 1; }
    else if r == RIGHT_DQ || r == RIGHT_SQ { w := ""; }
    else if r == '\'' && !Apostrophe(s, i) { w := "\""; sc.sq := 1; }
    else if r == WIDE_COLON { w := ":"; }
    else if r == ',' || r == WIDE_COMMA { w := if TrailingComma(s, i + 1) then "" else ","; }
  }

  /** Quotes the bare key at `i` and steps to its end. */
  method QuoteBareKey(s: string, i: nat) returns (w: string, j: nat)
    requires i <= |s|
    ensures j == SkipWord(s, i) && w == "\"" + s[i..j] + "\""
  {
    w, j := "\"", i;
    while j < |s| && IsWord(s[j])
      invariant i <= j <= |s| && SkipWord(s, j) == SkipWord(s, i)
      invariant w == "\"" + s[i..j]
      decreases |s| - j
    {
      w := w + [s[j]];
      j := j + 1;
    }
    w := w + "\"";
  }

  /** The builder loop of `repair`. */
  method Repair(s: string) returns (out: string)
    ensures out == Repaired(s)
  {
    out := "";
    var sc := new StrScan();
    var prev := '\0';
    var i := 0;
    while i < |s|
      invariant 0 <= i <= |s|
      invariant RunTo(s, Loop(i, sc.View(), prev, out), |s|) == RunTo(s, START, |s|)
      decreases |s| - i
    {
      hide InDQ, InFW, InSQ, AtStructure, BareKeyColon, RunTo;
      RunToNext(s, Loop(i, sc.View(), prev, out));
      var r := s[i];
      var w: string;
      if sc.inDQ {
        w := RepairInDQ(sc, r);
      } else if sc.fw > 0 {
        w := RepairInFW(sc, r);
      } else if sc.sq > 0 {
        w := RepairInSQ(sc, s, i);
      } else if IsWord(r) && KeyPosition(prev) && BareKeyColon(s, i) {
        w, i := QuoteBareKey(s, i);
        out := out + w;
        continue;
      } else {
        w := RepairStructural(sc, s, i);
        if !IsSpace(r) { prev := r; }
      }
      out := out + w;
      i := i + 1;
    }
  }

  // ---------------------------------------------------------------- lockstep

  lemma {:induction false} WordsDoNotMove(s: string, i: nat, j: nat)
    requires i <= j <= |s| && !ScanTo(s, i).Inside() && forall x :: i <= x < j ==> IsWord(s[x])
    ensures ScanTo(s, j) == ScanTo(s, i)
  {
    if i < j {
      WordsDoNotMove(s, i, j - 1);
    }
  }

  /** The two copies of the string rules agree: one turn of `repair`'s loop keeps its string state
      equal to the scanner's, over the same runes, also when it jumps over a bare key. */
  lemma StepInLockstep(s: string, l: Loop)
    requires l.i < |s| && l.sc == ScanTo(s, l.i)
    ensures RepairStep(s, l).sc == ScanTo(s, RepairStep(s, l).i)
  {
    if !l.sc.Inside() && BareKeyAt(s, l.i, l.prev) {
      WordsDoNotMove(s, l.i, SkipWord(s, l.i));
    }
  }

  /** Wherever the loop stands in the course of a repair, its string state is the scanner's. */
  lemma {:induction false} Lockstep(s: string, l: Loop, n: nat)
    requires l.i <= |s| && n <= |s| && l.sc == ScanTo(s, l.i)
    ensures RunTo(s, l, n).sc == ScanTo(s, RunTo(s, l, n).i)
    decreases |s| - l.i
  {
    if l.i < n {
      StepInLockstep(s, l);
      Lockstep(s, RepairStep(s, l), n);
    }
  }

  lemma RepairScansLikeScanner(s: string, n: nat)
    requires n <= |s|
    ensures var l := RunTo(s, START, n); n <= l.i <= |s| && l.sc == ScanTo(s, l.i)
  {
    Lockstep(s, START, n);
  }

  // ---------------------------------------------------------------- the lookaround, by positions

  lemma {:induction false} SkipSpacesIs(s: string, j: nat)
    requires j <= |s|
    ensures forall x :: j <= x < SkipSpaces(s, j) ==> IsSpace(s[x])
    decreases |s| - j
  {
    if j < |s| && IsSpace(s[j]) { SkipSpacesIs(s, j + 1); }
  }

  lemma {:induction false} SkipSpacesBackIs(s: string, j: nat)
    requires j <= |s|
    ensures var k := SkipSpacesBack(s, j); (k > 0 ==> !IsSpace(s[k - 1])) && forall x :: k <= x < j ==> IsSpace(s[x])
  {
    if j > 0 && IsSpace(s[j - 1]) { SkipSpacesBackIs(s, j - 1); }
  }

  /** Only blanks stand between `i` and `k`. */
  ghost predicate NextTo(s: string, i: int, k: int) {
    0 <= i && k <= |s| && forall x :: i <= x < k ==> IsSpace(s[x])
  }

  /** A structural quote is an apostrophe if and only if the nearest rune before it that is not blank is a
      word rune. */
  lemma ApostropheIff(s: string, pos: nat)
    requires pos <= |s|
    ensures Apostrophe(s, pos) <==> exists k :: 0 <= k < pos && IsWord(s[k]) && NextTo(s, k + 1, pos)
  {
    hide IsSpace, IsWord;
    SkipSpacesBackIs(s, pos);
    var j := SkipSpacesBack(s, pos);
    WordsAreNotBlank();
    if Apostrophe(s, pos) { assert NextTo(s, j - 1 + 1, pos); }
    if k :| 0 <= k < pos && IsWord(s[k]) && NextTo(s, k + 1, pos) { assert k == j - 1; }
  }

  /** A quote in a single-quoted string closes it if and only if the next rune that is not blank, if any,
      is no word rune; a comma is trailing if and only if that rune closes a bracket. */
  lemma NextRuneIff(s: string, pos: nat)
    requires pos < |s|
    ensures SqCloses(s, pos) <==> !exists k :: pos < k < |s| && IsWord(s[k]) && NextTo(s, pos + 1, k)
    ensures TrailingComma(s, pos + 1) <==> exists k :: pos < k < |s| && (s[k] == '}' || s[k] == ']') && NextTo(s, pos + 1, k)
  {
    SkipSpacesIs(s, pos + 1);
    var j := SkipSpaces(s, pos + 1);
    WordsAreNotBlank();
    assert NextTo(s, pos + 1, j);
    forall k | pos < k < |s| && !IsSpace(s[k]) && NextTo(s, pos + 1, k) ensures k == j {
    }
  }

  lemma WordsAreNotBlank()
    ensures forall c :: IsWord(c) ==> !IsSpace(c)
  {
  }
}
