/**
 The ids of streams: 16 bytes on the wire, text elsewhere. Text is read as generously as Python's `uuid.UUID`
 reads it; the canonical form is the lower-case 8-4-4-4-12 form of section 4 of RFC 9562.
 */
module Uuids {
  import opened Bytes

  type Nibble = d: int | 0 <= d < 16

  function HexChar(d: Nibble): char {
    if d < 10 then ('0' as int + d) as char else ('a' as int + d - 10) as char
  }

  function HexValue(c: char): Option<Nibble> {
    if '0' <= c <= '9' then Some((c - '0') as int)
    else if 'a' <= c <= 'f' then Some((c - 'a') as int + 10)
    else if 'A' <= c <= 'F' then Some((c - 'A') as int + 10)
    else None
  }

  /** Digits of either case have their place among the sixteen as value, and nothing else is a digit. */
  lemma DigitsOfEitherCase(c: char, d: Nibble)
    ensures HexValue(c) == Some(d) <==> c in {"0123456789abcdef"[d], "0123456789ABCDEF"[d]}
    ensures HexChar(d) == "0123456789abcdef"[d]
  {}

  predicate AllHex(s: string) {
    forall i :: 0 <= i < |s| ==> HexValue(s[i]).Some?
  }

  /** The digits that a byte string is written with. */
  predicate LowerHex(s: string) {
    forall i :: 0 <= i < |s| ==> '0' <= s[i] <= '9' || 'a' <= s[i] <= 'f'
  }

  function Hex(bytes: Bytes): (s: string)
    ensures |s| == 2 * |bytes| && LowerHex(s)
  {
    if bytes == [] then ""
    else [HexChar(bytes[0] / 16), HexChar(bytes[0] % 16)] + Hex(bytes[1..])
  }

  function Unhex(s: string): (bytes: Bytes)
    requires |s| % 2 == 0 && AllHex(s)
    ensures |bytes| == |s| / 2
  {
    if s == "" then []
    else [HexValue(s[0]).value * 16 + HexValue(s[1]).value] + Unhex(s[2..])
  }

  function WithoutHyphens(s: string): string {
    if s == "" then "" else (if s[0] == '-' then "" else [s[0]]) + WithoutHyphens(s[1..])
  }

  /** Every occurrence of a word taken out, from left to right. */
  function Remove(s: string, word: string): string
    requires word != ""
    decreases |s|
  {
    if |s| < |word| then s
    else if s[..|word|] == word then Remove(s[|word|..], word)
    else [s[0]] + Remove(s[1..], word)
  }

  function TrimLeft(s: string, chars: set<char>): string {
    if s != "" && s[0] in chars then TrimLeft(s[1..], chars) else s
  }

  function TrimRight(s: string, chars: set<char>): string {
    if s != "" && s[|s| - 1] in chars then TrimRight(s[..|s| - 1], chars) else s
  }

  function Trim(s: string, chars: set<char>): string {
    TrimRight(TrimLeft(s, chars), chars)
  }

  /** What is left of the text when the decoration is gone: the words `urn:` and `uuid:`, braces, hyphens. */
  function Undecorated(s: string): string {
    WithoutHyphens(Trim(Remove(Remove(s, "urn:"), "uuid:"), {'{', '}'}))
  }

  const SPACES: set<char> := {' ', '\t', '\n', '\r', '\U{0B}', '\U{0C}'}

  function WithoutUnderscores(s: string): string {
    if s == "" then "" else (if s[0] == '_' then "" else [s[0]]) + WithoutUnderscores(s[1..])
  }

  /** Digits, with single underscores between them. */
  predicate Numeral(s: string) {
    && s != "" && s[0] != '_' && s[|s| - 1] != '_'
    && (forall i :: 0 <= i < |s| ==> s[i] == '_' || HexValue(s[i]).Some?)
    && (forall i :: 0 <= i < |s| - 1 ==> s[i] != '_' || s[i + 1] != '_')
  }

  function AfterSign(s: string): string {
    if s != "" && s[0] == '+' then s[1..] else s
  }

  function AfterPrefix(s: string): string {
    if |s| >= 2 && s[0] == '0' && s[1] in {'x', 'X'} then
      if |s| >= 3 && s[2] == '_' then s[3..] else s[2..]
    else s
  }

  /** The digits of a number as `int` reads it in base 16. */
  function Digits(s: string): Option<string> {
    var numeral := AfterPrefix(AfterSign(Trim(s, SPACES)));
    if Numeral(numeral) then Some(WithoutUnderscores(numeral)) else None
  }

  function Zeros(n: nat): string {
    seq(n, _ => '0')
  }

  lemma {:induction false} DigitsAreHex(s: string)
    requires forall i :: 0 <= i < |s| ==> s[i] == '_' || HexValue(s[i]).Some?
    ensures AllHex(WithoutUnderscores(s)) && |WithoutUnderscores(s)| <= |s|
  {
    if s != "" { DigitsAreHex(s[1..]); }
  }

  lemma {:induction false} TrimmedIsShorter(s: string, chars: set<char>)
    ensures |TrimLeft(s, chars)| <= |s| && |TrimRight(s, chars)| <= |s|
  {
    if s != "" {
      TrimmedIsShorter(s[1..], chars);
      TrimmedIsShorter(s[..|s| - 1], chars);
    }
  }

  /** Thirty-two characters are read as a number, and the number as sixteen bytes. */
  function Parse(s: string): (bytes: Option<Bytes>)
    ensures bytes.Some? ==> |bytes.value| == 16
  {
    var text := Undecorated(s);
    var digits := Digits(text);
    if |text| == 32 && digits.Some? then
      TrimmedIsShorter(text, SPACES);
      TrimmedIsShorter(TrimLeft(text, SPACES), SPACES);
      DigitsAreHex(AfterPrefix(AfterSign(Trim(text, SPACES))));
      PaddedIsHex(digits.value, 32 - |digits.value|);
      Some(Unhex(Zeros(32 - |digits.value|) + digits.value))
    else None
  }

  lemma PaddedIsHex(digits: string, n: nat)
    requires AllHex(digits)
    ensures AllHex(Zeros(n) + digits)
  {}

  function Format(bytes: Bytes): string
    requires |bytes| == 16
  {
    Hex(bytes[..4]) + "-" + Hex(bytes[4..6]) + "-" + Hex(bytes[6..8]) + "-" + Hex(bytes[8..10]) + "-" + Hex(bytes[10..])
  }

  predicate Canonical(s: string) {
    && |s| == 36
    && s[8] == s[13] == s[18] == s[23] == '-'
    && LowerHex(s[..8]) && LowerHex(s[9..13]) && LowerHex(s[14..18]) && LowerHex(s[19..23]) && LowerHex(s[24..])
  }

  lemma {:induction false} UnhexHex(bytes: Bytes)
    ensures AllHex(Hex(bytes)) && Unhex(Hex(bytes)) == bytes
  {
    LowerIsHex(Hex(bytes));
    if bytes != [] {
      UnhexHex(bytes[1..]);
      var s := Hex(bytes);
      assert s[2..] == Hex(bytes[1..]);
      HexCharValue(bytes[0] / 16);
      HexCharValue(bytes[0] % 16);
    }
  }

  lemma LowerIsHex(s: string)
    requires LowerHex(s)
    ensures AllHex(s)
  {}

  lemma HexCharValue(d: Nibble)
    ensures HexValue(HexChar(d)) == Some(d)
  {}

  lemma HexValueChar(c: char)
    requires '0' <= c <= '9' || 'a' <= c <= 'f'
    ensures HexValue(c).Some? && HexChar(HexValue(c).value) == c
  {}

  lemma OneByteOfText(high: Nibble, low: Nibble)
    ensures (high * 16 + low) / 16 == high && (high * 16 + low) % 16 == low
  {}

  lemma {:induction false} HexUnhex(s: string)
    requires |s| % 2 == 0 && LowerHex(s)
    ensures AllHex(s) && Hex(Unhex(s)) == s
    decreases |s|
  {
    LowerIsHex(s);
    if s != "" {
      HexUnhex(s[2..]);
      HexValueChar(s[0]);
      HexValueChar(s[1]);
      OneByteOfText(HexValue(s[0]).value, HexValue(s[1]).value);
      assert Unhex(s)[1..] == Unhex(s[2..]);
    }
  }

  lemma {:induction false} UnhexAppend(a: string, b: string)
    requires |a| % 2 == 0 && |b| % 2 == 0 && AllHex(a) && AllHex(b)
    ensures AllHex(a + b) && Unhex(a + b) == Unhex(a) + Unhex(b)
    decreases |a|
  {
    if a == "" {
      assert a + b == b;
    } else {
      assert (a + b)[2..] == a[2..] + b;
      UnhexAppend(a[2..], b);
    }
  }

  lemma {:induction false} WithoutHyphensAppend(a: string, b: string)
    ensures WithoutHyphens(a + b) == WithoutHyphens(a) + WithoutHyphens(b)
  {
    if a == "" {
      assert a + b == b;
    } else {
      assert (a + b)[1..] == a[1..] + b;
      WithoutHyphensAppend(a[1..], b);
    }
  }

  lemma {:induction false} NothingToRemove(s: string)
    requires LowerHex(s)
    ensures WithoutHyphens(s) == s
  {
    if s != "" { NothingToRemove(s[1..]); }
  }

  lemma RunAndHyphen(a: string, rest: string)
    requires LowerHex(a)
    ensures WithoutHyphens(a + "-" + rest) == a + WithoutHyphens(rest)
  {
    NothingToRemove(a);
    calc {
      WithoutHyphens(a + "-" + rest);
      { assert a + "-" + rest == a + ("-" + rest); WithoutHyphensAppend(a, "-" + rest); }
      a + WithoutHyphens("-" + rest);
      { HyphenFirst(rest); }
      a + WithoutHyphens(rest);
    }
  }

  lemma HyphenFirst(rest: string)
    ensures WithoutHyphens("-" + rest) == WithoutHyphens(rest)
  {
    assert ("-" + rest)[1..] == rest;
  }

  /** Five runs of digits joined by hyphens are read as the runs, one after the other. */
  lemma JoinedIsParsed(a: string, b: string, c: string, d: string, e: string)
    requires LowerHex(a) && LowerHex(b) && LowerHex(c) && LowerHex(d) && LowerHex(e)
    ensures WithoutHyphens(a + "-" + b + "-" + c + "-" + d + "-" + e) == a + b + c + d + e
  {
    JoinToTheRight(a, b, c, d, e);
    RunAndHyphen(a, b + "-" + (c + "-" + (d + "-" + e)));
    RunAndHyphen(b, c + "-" + (d + "-" + e));
    RunAndHyphen(c, d + "-" + e);
    RunAndHyphen(d, e);
    NothingToRemove(e);
    DigitsToTheLeft(a, b, c, d, e);
  }

  lemma DigitsToTheLeft(a: string, b: string, c: string, d: string, e: string)
    ensures a + (b + (c + (d + e))) == a + b + c + d + e
  {}

  lemma JoinToTheRight(a: string, b: string, c: string, d: string, e: string)
    ensures a + "-" + b + "-" + c + "-" + d + "-" + e == a + "-" + (b + "-" + (c + "-" + (d + "-" + e)))
  {}

  lemma {:induction false} HexAppend(a: Bytes, b: Bytes)
    ensures Hex(a + b) == Hex(a) + Hex(b)
  {
    if a == [] {
      assert a + b == b;
    } else {
      assert (a + b)[1..] == a[1..] + b;
      HexAppend(a[1..], b);
    }
  }

  lemma FormatIsCanonical(bytes: Bytes)
    requires |bytes| == 16
    ensures Canonical(Format(bytes))
  {
    var s := Format(bytes);
    assert s[..8] == Hex(bytes[..4]);
    assert s[9..13] == Hex(bytes[4..6]);
    assert s[14..18] == Hex(bytes[6..8]);
    assert s[19..23] == Hex(bytes[8..10]);
    assert s[24..] == Hex(bytes[10..]);
  }

  lemma FormatOfJoined(a: string, b: string, c: string, d: string, e: string)
    requires |a| == 8 && |b| == |c| == |d| == 4 && |e| == 12
    requires LowerHex(a) && LowerHex(b) && LowerHex(c) && LowerHex(d) && LowerHex(e)
    ensures AllHex(a + b + c + d + e)
    ensures Format(Unhex(a + b + c + d + e)) == a + "-" + b + "-" + c + "-" + d + "-" + e
  {
    LowerIsHex(a + b + c + d + e);
    UnhexParts(a, b, c, d, e);
    HexUnhex(a);
    HexUnhex(b);
    HexUnhex(c);
    HexUnhex(d);
    HexUnhex(e);
  }

  // ---- canonical text

  lemma {:induction false} NothingRemoved(s: string, word: string, k: nat)
    requires k < |word| && word[k] !in s
    ensures Remove(s, word) == s
  {
    if |s| >= |word| {
      assert s[..|word|][k] == s[k] != word[k];
      NothingRemoved(s[1..], word, k);
    }
  }

  lemma {:induction false} NoUnderscores(s: string)
    requires AllHex(s)
    ensures WithoutUnderscores(s) == s
  {
    if s != "" { NoUnderscores(s[1..]); }
  }

  lemma NothingTrimmed(s: string, chars: set<char>)
    requires s != "" && s[0] !in chars && s[|s| - 1] !in chars
    ensures Trim(s, chars) == s
  {}

  lemma LowerHexChar(s: string, i: nat)
    requires LowerHex(s) && i < |s|
    ensures HexValue(s[i]).Some? && s[i] !in SPACES && s[i] !in {'_', '+', 'x', 'X'}
  {}

  lemma LowerHexIsNumeral(s: string)
    requires LowerHex(s) && s != ""
    ensures Numeral(s)
  {
    forall i | 0 <= i < |s| ensures HexValue(s[i]).Some? && s[i] != '_' { LowerHexChar(s, i); }
  }

  /** Plain digits are read as they are. */
  lemma DigitsOfDigits(s: string)
    requires LowerHex(s) && |s| == 32
    ensures Digits(s) == Some(s)
  {
    LowerHexChar(s, 0);
    LowerHexChar(s, 1);
    LowerHexChar(s, 31);
    NothingTrimmed(s, SPACES);
    LowerHexIsNumeral(s);
    NoUnderscores(s);
  }

  lemma CanonicalChars(s: string, c: char)
    requires Canonical(s) && c in s
    ensures c == '-' || '0' <= c <= '9' || 'a' <= c <= 'f'
  {
    var i :| 0 <= i < |s| && s[i] == c;
    if i < 8 { assert s[..8][i] == c; }
    if 8 < i < 13 { assert s[9..13][i - 9] == c; }
    if 13 < i < 18 { assert s[14..18][i - 14] == c; }
    if 18 < i < 23 { assert s[19..23][i - 19] == c; }
    if 23 < i { assert s[24..][i - 24] == c; }
  }

  lemma CanonicalIsPlain(s: string)
    requires Canonical(s)
    ensures Undecorated(s) == WithoutHyphens(s)
  {
    if 'u' in s { CanonicalChars(s, 'u'); }
    NothingRemoved(s, "urn:", 0);
    NothingRemoved(s, "uuid:", 0);
    CanonicalChars(s, s[0]);
    CanonicalChars(s, s[35]);
    NothingTrimmed(s, {'{', '}'});
  }

  lemma CanonicalDigits(s: string)
    requires Canonical(s)
    ensures WithoutHyphens(s) == s[..8] + s[9..13] + s[14..18] + s[19..23] + s[24..]
  {
    assert s == s[..8] + "-" + s[9..13] + "-" + s[14..18] + "-" + s[19..23] + "-" + s[24..];
    JoinedIsParsed(s[..8], s[9..13], s[14..18], s[19..23], s[24..]);
  }

  lemma LowerHexJoined(a: string, b: string, c: string, d: string, e: string)
    requires LowerHex(a) && LowerHex(b) && LowerHex(c) && LowerHex(d) && LowerHex(e)
    ensures LowerHex(a + b + c + d + e)
  {}

  /** Canonical text is always read, as the bytes that its digits stand for. */
  lemma CanonicalIsParsed(s: string)
    requires Canonical(s)
    ensures var digits := WithoutHyphens(s);
            |digits| == 32 && LowerHex(digits) && AllHex(digits) && Parse(s) == Some(Unhex(digits))
  {
    CanonicalIsPlain(s);
    CanonicalDigits(s);
    LowerHexJoined(s[..8], s[9..13], s[14..18], s[19..23], s[24..]);
    var digits := WithoutHyphens(s);
    LowerIsHex(digits);
    DigitsOfDigits(digits);
    assert Zeros(0) + digits == digits;
  }

  lemma FormatDigits(bytes: Bytes)
    requires |bytes| == 16
    ensures WithoutHyphens(Format(bytes)) == Hex(bytes)
  {
    JoinedIsParsed(Hex(bytes[..4]), Hex(bytes[4..6]), Hex(bytes[6..8]), Hex(bytes[8..10]), Hex(bytes[10..]));
    HexOfParts(bytes[..4], bytes[4..6], bytes[6..8], bytes[8..10], bytes[10..]);
    assert bytes[..4] + bytes[4..6] + bytes[6..8] + bytes[8..10] + bytes[10..] == bytes;
  }

  lemma HexOfParts(a: Bytes, b: Bytes, c: Bytes, d: Bytes, e: Bytes)
    ensures Hex(a + b + c + d + e) == Hex(a) + Hex(b) + Hex(c) + Hex(d) + Hex(e)
  {
    HexAppend(a, b);
    HexAppend(a + b, c);
    HexAppend(a + b + c, d);
    HexAppend(a + b + c + d, e);
  }

  /** Reading back what was written. */
  lemma ParseFormat(bytes: Bytes)
    requires |bytes| == 16
    ensures Parse(Format(bytes)) == Some(bytes)
  {
    FormatIsCanonical(bytes);
    CanonicalIsParsed(Format(bytes));
    FormatDigits(bytes);
    UnhexHex(bytes);
  }

  /** Canonical text is the one spelling that comes back unchanged. */
  lemma CanonicalComesBack(s: string)
    requires Parse(s).Some?
    ensures Canonical(s) <==> Format(Parse(s).value) == s
  {
    FormatIsCanonical(Parse(s).value);
    if Canonical(s) {
      var a, b, c, d, e := s[..8], s[9..13], s[14..18], s[19..23], s[24..];
      assert s == a + "-" + b + "-" + c + "-" + d + "-" + e;
      CanonicalIsParsed(s);
      CanonicalDigits(s);
      FormatOfJoined(a, b, c, d, e);
    }
  }

  lemma UnhexParts(a: string, b: string, c: string, d: string, e: string)
    requires |a| == 8 && |b| == |c| == |d| == 4 && |e| == 12
    requires AllHex(a) && AllHex(b) && AllHex(c) && AllHex(d) && AllHex(e)
    ensures AllHex(a + b + c + d + e)
    ensures var bytes := Unhex(a + b + c + d + e);
            && bytes[..4] == Unhex(a) && bytes[4..6] == Unhex(b) && bytes[6..8] == Unhex(c)
            && bytes[8..10] == Unhex(d) && bytes[10..] == Unhex(e)
  {
    UnhexAppend(a, b);
    UnhexAppend(a + b, c);
    UnhexAppend(a + b + c, d);
    UnhexAppend(a + b + c + d, e);
  }

  // ---- every spelling of a number

  ghost predicate Grouped(groups: seq<string>) {
    groups != [] && forall i :: 0 <= i < |groups| ==> groups[i] != "" && AllHex(groups[i])
  }

  function Joined(groups: seq<string>): string
    requires groups != []
    decreases |groups|
  {
    if |groups| == 1 then groups[0] else groups[0] + "_" + Joined(groups[1..])
  }

  function Flat(groups: seq<string>): string {
    if groups == [] then "" else groups[0] + Flat(groups[1..])
  }

  lemma {:induction false} WithoutUnderscoresAppend(a: string, b: string)
    ensures WithoutUnderscores(a + b) == WithoutUnderscores(a) + WithoutUnderscores(b)
  {
    if a == "" {
      assert a + b == b;
    } else {
      assert (a + b)[1..] == a[1..] + b;
      WithoutUnderscoresAppend(a[1..], b);
    }
  }

  lemma {:induction false} NumeralOfGroups(groups: seq<string>)
    requires Grouped(groups)
    ensures Numeral(Joined(groups))
    decreases |groups|
  {
    if |groups| > 1 {
      NumeralOfGroups(groups[1..]);
      NumeralAfterUnderscore(groups[0], Joined(groups[1..]));
    }
  }

  lemma {:induction false} FlatIsJoined(groups: seq<string>)
    requires Grouped(groups)
    ensures WithoutUnderscores(Joined(groups)) == Flat(groups)
    decreases |groups|
  {
    NoUnderscores(groups[0]);
    if |groups| == 1 {
      assert groups[1..] == [];
    } else {
      FlatIsJoined(groups[1..]);
      UnderscoreGoes(groups[0], Joined(groups[1..]));
    }
  }

  lemma UnderscoreGoes(a: string, b: string)
    ensures WithoutUnderscores(a + "_" + b) == WithoutUnderscores(a) + WithoutUnderscores(b)
  {
    var rest := "_" + b;
    assert rest[1..] == b && WithoutUnderscores(rest) == WithoutUnderscores(b);
    assert a + "_" + b == a + rest;
    WithoutUnderscoresAppend(a, rest);
  }

  lemma NumeralAfterUnderscore(group: string, rest: string)
    requires group != "" && AllHex(group) && Numeral(rest)
    ensures Numeral(group + "_" + rest)
  {
    var s := group + "_" + rest;
    forall i | 0 <= i < |s| ensures s[i] == '_' || HexValue(s[i]).Some? {
      if i > |group| { assert s[i] == rest[i - |group| - 1]; }
    }
    forall i | 0 <= i < |s| - 1 ensures s[i] != '_' || s[i + 1] != '_' {
      if i > |group| { assert s[i] == rest[i - |group| - 1] && s[i + 1] == rest[i - |group|]; }
    }
  }

  lemma {:induction false} GroupsOfNumeral(s: string) returns (groups: seq<string>)
    requires Numeral(s)
    ensures Grouped(groups) && s == Joined(groups)
    decreases |s|
  {
    if |s| == 1 {
      groups := [s];
    } else if s[1] == '_' {
      var rest := GroupsOfNumeral(s[2..]);
      groups := [s[..1]] + rest;
      assert groups[1..] == rest && s == s[..1] + "_" + s[2..];
    } else {
      var rest := GroupsOfNumeral(s[1..]);
      groups := [s[..1] + rest[0]] + rest[1..];
      assert groups[1..] == rest[1..] && s == s[..1] + s[1..];
    }
  }

  /** Only single underscores between groups of digits make a numeral. */
  lemma NumeralIff(s: string)
    ensures Numeral(s) <==> exists groups :: Grouped(groups) && s == Joined(groups)
  {
    if Numeral(s) { var groups := GroupsOfNumeral(s); }
    if exists groups :: Grouped(groups) && s == Joined(groups) {
      var groups :| Grouped(groups) && s == Joined(groups);
      NumeralOfGroups(groups);
    }
  }

  predicate OnlyIn(s: string, chars: set<char>) {
    forall i :: 0 <= i < |s| ==> s[i] in chars
  }

  /** The text spells a number: space, a sign, a prefix, groups of digits, space. */
  ghost predicate Spells(s: string, left: string, sign: string, prefix: string, groups: seq<string>, right: string) {
    && OnlyIn(left, SPACES) && OnlyIn(right, SPACES)
    && sign in {"", "+"} && prefix in {"", "0x", "0X", "0x_", "0X_"}
    && Grouped(groups)
    && s == left + (sign + prefix + Joined(groups)) + right
  }

  lemma {:induction false} TrimLeftSplits(s: string, chars: set<char>) returns (left: string)
    ensures s == left + TrimLeft(s, chars) && OnlyIn(left, chars)
    ensures TrimLeft(s, chars) != "" ==> TrimLeft(s, chars)[0] !in chars
  {
    if s != "" && s[0] in chars {
      var rest := TrimLeftSplits(s[1..], chars);
      left := [s[0]] + rest;
      assert s == [s[0]] + s[1..];
    } else {
      left := "";
    }
  }

  lemma {:induction false} TrimRightSplits(s: string, chars: set<char>) returns (right: string)
    ensures s == TrimRight(s, chars) + right && OnlyIn(right, chars)
  {
    if s != "" && s[|s| - 1] in chars {
      var rest := TrimRightSplits(s[..|s| - 1], chars);
      right := rest + [s[|s| - 1]];
      assert s == s[..|s| - 1] + [s[|s| - 1]];
    } else {
      right := "";
    }
  }

  lemma {:induction false} TrimmedCore(left: string, core: string, right: string, chars: set<char>)
    requires OnlyIn(left, chars) && OnlyIn(right, chars)
    requires core != "" && core[0] !in chars && core[|core| - 1] !in chars
    ensures Trim(left + core + right, chars) == core
  {
    LeftTrimmed(left, core + right, chars);
    assert left + core + right == left + (core + right);
    RightTrimmed(core, right, chars);
  }

  lemma {:induction false} LeftTrimmed(left: string, rest: string, chars: set<char>)
    requires OnlyIn(left, chars) && rest != "" && rest[0] !in chars
    ensures TrimLeft(left + rest, chars) == rest
  {
    if left == "" {
      assert left + rest == rest;
    } else {
      assert (left + rest)[1..] == left[1..] + rest;
      LeftTrimmed(left[1..], rest, chars);
    }
  }

  lemma {:induction false} RightTrimmed(rest: string, right: string, chars: set<char>)
    requires OnlyIn(right, chars) && rest != "" && rest[|rest| - 1] !in chars
    ensures TrimRight(rest + right, chars) == rest
    decreases |right|
  {
    if right == "" {
      assert rest + right == rest;
    } else {
      var s := rest + right;
      assert s[..|s| - 1] == rest + right[..|right| - 1];
      RightTrimmed(rest, right[..|right| - 1], chars);
    }
  }

  lemma NumeralEnds(s: string)
    requires Numeral(s)
    ensures s[0] !in SPACES + {'+'} && s[|s| - 1] !in SPACES && (|s| > 1 ==> s[1] !in {'x', 'X'})
  {
    assert HexValue(s[0]).Some? && HexValue(s[|s| - 1]).Some?;
    if |s| > 1 { assert s[1] == '_' || HexValue(s[1]).Some?; }
  }

  lemma SpellingIsRead(s: string, left: string, sign: string, prefix: string, groups: seq<string>, right: string)
    requires Spells(s, left, sign, prefix, groups, right)
    ensures Digits(s) == Some(Flat(groups))
  {
    var numeral := Joined(groups);
    NumeralOfGroups(groups);
    FlatIsJoined(groups);
    CoreIsRead(sign, prefix, numeral);
    SpacedIsRead(left, sign + prefix + numeral, right, numeral);
  }

  /** A sign and a prefix may stand before the numeral. */
  ghost predicate Carries(core: string, numeral: string) {
    && core != "" && core[0] !in SPACES && core[|core| - 1] !in SPACES
    && AfterPrefix(AfterSign(core)) == numeral && Numeral(numeral)
  }

  lemma CoreIsRead(sign: string, prefix: string, numeral: string)
    requires sign in {"", "+"} && prefix in {"", "0x", "0X", "0x_", "0X_"} && Numeral(numeral)
    ensures Carries(sign + prefix + numeral, numeral)
  {
    PrefixIsDropped(prefix, numeral);
    SignIsDropped(sign, prefix + numeral);
    Associative(sign, prefix, numeral);
  }

  lemma SpacedIsRead(left: string, core: string, right: string, numeral: string)
    requires OnlyIn(left, SPACES) && OnlyIn(right, SPACES) && Carries(core, numeral)
    ensures Digits(left + core + right) == Some(WithoutUnderscores(numeral))
  {
    TrimmedCore(left, core, right, SPACES);
  }

  lemma PrefixIsDropped(prefix: string, numeral: string)
    requires prefix in {"", "0x", "0X", "0x_", "0X_"} && Numeral(numeral)
    ensures AfterPrefix(prefix + numeral) == numeral
    ensures (prefix + numeral)[0] !in SPACES + {'+'} && (prefix + numeral)[|prefix + numeral| - 1] !in SPACES
  {
    NumeralEnds(numeral);
    if prefix == "" { assert prefix + numeral == numeral; }
  }

  lemma SignIsDropped(sign: string, rest: string)
    requires sign in {"", "+"} && rest != "" && rest[0] !in SPACES + {'+'} && rest[|rest| - 1] !in SPACES
    ensures AfterSign(sign + rest) == rest
    ensures (sign + rest)[0] !in SPACES && (sign + rest)[|sign + rest| - 1] !in SPACES
  {
    if sign == "" { assert sign + rest == rest; }
  }

  lemma PrefixSplits(s: string) returns (prefix: string)
    ensures prefix in {"", "0x", "0X", "0x_", "0X_"} && s == prefix + AfterPrefix(s)
  {
    prefix := s[..|s| - |AfterPrefix(s)|];
    if |s| >= 2 && s[0] == '0' && s[1] in {'x', 'X'} {
      assert prefix[..2] == [s[0], s[1]];
      if |s| >= 3 && s[2] == '_' { assert prefix == [s[0], s[1], s[2]]; } else { assert prefix == [s[0], s[1]]; }
    }
  }

  lemma CoreIsSpelled(core: string) returns (sign: string, prefix: string, groups: seq<string>)
    requires Numeral(AfterPrefix(AfterSign(core)))
    ensures sign in {"", "+"} && prefix in {"", "0x", "0X", "0x_", "0X_"} && Grouped(groups)
    ensures core == sign + prefix + Joined(groups)
  {
    var unsigned := AfterSign(core);
    sign := SignSplits(core);
    prefix := PrefixSplits(unsigned);
    groups := GroupsOfNumeral(AfterPrefix(unsigned));
    Associative(sign, prefix, Joined(groups));
  }

  lemma Associative(a: string, b: string, c: string)
    ensures a + (b + c) == a + b + c
  {}

  lemma SignSplits(s: string) returns (sign: string)
    ensures sign in {"", "+"} && s == sign + AfterSign(s)
  {
    sign := if s != "" && s[0] == '+' then "+" else "";
  }

  lemma ReadIsSpelled(s: string)
    returns (left: string, sign: string, prefix: string, groups: seq<string>, right: string)
    requires Digits(s).Some?
    ensures Spells(s, left, sign, prefix, groups, right)
  {
    left := TrimLeftSplits(s, SPACES);
    right := TrimRightSplits(TrimLeft(s, SPACES), SPACES);
    var core := Trim(s, SPACES);
    sign, prefix, groups := CoreIsSpelled(core);
    assert s == left + core + right by { assert TrimLeft(s, SPACES) == core + right; }
  }

  /** A text is read as a number, and as these digits, if and only if it spells them: nothing else is read. */
  lemma DigitsIff(s: string, digits: string)
    ensures Digits(s) == Some(digits) <==>
              exists left, sign, prefix, groups, right ::
                Spells(s, left, sign, prefix, groups, right) && digits == Flat(groups)
  {
    if Digits(s).Some? {
      var left, sign, prefix, groups, right := ReadIsSpelled(s);
      SpellingIsRead(s, left, sign, prefix, groups, right);
    }
    if exists left, sign, prefix, groups, right ::
         Spells(s, left, sign, prefix, groups, right) && digits == Flat(groups)
    {
      var left, sign, prefix, groups, right :|
        Spells(s, left, sign, prefix, groups, right) && digits == Flat(groups);
      SpellingIsRead(s, left, sign, prefix, groups, right);
    }
  }

  /** A canonical id is read the same with its urn prefix, in braces, and without its hyphens. */
  lemma DecoratedIsRead(s: string)
    requires Canonical(s)
    ensures Parse("urn:uuid:" + s) == Parse(s)
    ensures Parse("{" + s + "}") == Parse(s)
    ensures Parse(WithoutHyphens(s)) == Parse(s)
  {
    CanonicalIsPlain(s);
    forall c | c in s ensures c !in {'u', 'r', '{', '}'} { CanonicalChars(s, c); }
    UrnIsRemoved(s);
    BracesAreTrimmed(s);
    PlainStaysPlain(s);
    SameText("urn:uuid:" + s, s);
    SameText("{" + s + "}", s);
    SameText(WithoutHyphens(s), s);
  }

  lemma SameText(a: string, b: string)
    requires Undecorated(a) == Undecorated(b)
    ensures Parse(a) == Parse(b)
  {}

  lemma UrnIsRemoved(s: string)
    requires 'u' !in s && 'r' !in s
    ensures Undecorated("urn:uuid:" + s) == Undecorated(s)
  {
    var urn, rest := "urn:uuid:" + s, "uuid:" + s;
    assert urn[..4] == "urn:" && urn[4..] == rest;
    NothingRemoved(rest, "urn:", 1);
    NothingRemoved(s, "urn:", 0);
    NothingRemoved(s, "uuid:", 0);
    assert rest[..5] == "uuid:" && rest[5..] == s;
  }

  lemma BracesAreTrimmed(s: string)
    requires Canonical(s) && 'u' !in s && '{' !in s && '}' !in s
    ensures Undecorated("{" + s + "}") == Undecorated(s)
  {
    var t := "{" + s + "}";
    NothingRemoved(t, "urn:", 0);
    NothingRemoved(t, "uuid:", 0);
    NothingRemoved(s, "urn:", 0);
    NothingRemoved(s, "uuid:", 0);
    TrimmedCore("{", s, "}", {'{', '}'});
    NothingTrimmed(s, {'{', '}'});
  }

  lemma PlainStaysPlain(s: string)
    requires Canonical(s)
    ensures Undecorated(WithoutHyphens(s)) == WithoutHyphens(s)
  {
    var digits := WithoutHyphens(s);
    CanonicalDigits(s);
    LowerHexJoined(s[..8], s[9..13], s[14..18], s[19..23], s[24..]);
    NothingRemoved(digits, "urn:", 0);
    NothingRemoved(digits, "uuid:", 0);
    NothingTrimmed(digits, {'{', '}'});
    NoHyphens(digits);
  }

  lemma {:induction false} NoHyphens(s: string)
    requires '-' !in s
    ensures WithoutHyphens(s) == s
  {
    if s != "" { NoHyphens(s[1..]); }
  }
}
