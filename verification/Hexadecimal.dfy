/**
  Addresses as text: '{:08X}'.format(n) and int(text, 16) in the scripts of
  tools/unitrace/scripts/metrics.
 */
module Hexadecimal {
  import opened Prelude

  const DIGITS := "0123456789ABCDEF"

  function Hex(n: nat): string {
    if n < 16 then [DIGITS[n]] else Hex(n / 16) + [DIGITS[n % 16]]
  }

  function Zeros(n: nat): string {
    if n == 0 then "" else ['0'] + Zeros(n - 1)
  }

  function Format(n: nat): string {
    var digits := Hex(n);
    if |digits| < 8 then Zeros(8 - |digits|) + digits else digits
  }

  predicate IsDigit(c: char) {
    '0' <= c <= '9' || 'A' <= c <= 'F' || 'a' <= c <= 'f'
  }

  function DigitValue(c: char): nat
    requires IsDigit(c)
  {
    if '0' <= c <= '9' then c as int - '0' as int
    else if 'A' <= c <= 'F' then c as int - 'A' as int + 10
    else c as int - 'a' as int + 10
  }

  predicate Digits(text: string) {
    forall i :: 0 <= i < |text| ==> IsDigit(text[i])
  }

  function Value(text: string): nat
    requires Digits(text)
  {
    if text == "" then 0 else 16 * Value(text[..|text| - 1]) + DigitValue(text[|text| - 1])
  }

  /** The characters below 128 that Python's int strips. */
  predicate IsBlank(c: char) {
    c == ' ' || '\t' <= c <= '\r' || '\U{1C}' <= c <= '\U{1F}'
  }

  function Stripped(text: string): string {
    if text == "" then ""
    else if IsBlank(text[0]) then Stripped(text[1..])
    else if IsBlank(text[|text| - 1]) then Stripped(text[..|text| - 1])
    else text
  }

  /** Without the sign. */
  function Unsigned(text: string): string {
    if "+" <= text || "-" <= text then text[1..] else text
  }

  /** Without the prefix of base 16 and the underscore that may follow it. */
  function Unprefixed(text: string): string {
    if "0x" <= text || "0X" <= text then
      if "_" <= text[2..] then text[3..] else text[2..]
    else text
  }

  /** Single underscores are allowed between digits. */
  predicate WellSpaced(text: string) {
    && text != "" && text[0] != '_' && text[|text| - 1] != '_'
    && forall i :: 0 < i < |text| ==> !(text[i - 1] == '_' && text[i] == '_')
  }

  function WithoutUnderscores(text: string): string {
    if text == "" then ""
    else (if text[0] == '_' then "" else [text[0]]) + WithoutUnderscores(text[1..])
  }

  function ParseDigits(text: string): Option<nat> {
    var spaced := Unprefixed(text);
    var digits := WithoutUnderscores(spaced);
    if !WellSpaced(spaced) || !Digits(digits) then None else Some(Value(digits))
  }

  function Signed(negative: bool, n: int): int {
    if negative then -n else n
  }

  /** int(text, 16); None is its ValueError. */
  function ParseHex(text: string): Option<int> {
    var signed := Stripped(text);
    match ParseDigits(Unsigned(signed))
    case None => None
    case Some(n) => Some(Signed("-" <= signed, n))
  }

  predicate Parses(text: string, n: int) {
    ParseHex(text) == Some(n)
  }

  predicate IsCapitalDigit(c: char) {
    '0' <= c <= '9' || 'A' <= c <= 'F'
  }

  /** Written with the digits of a formatted address. */
  predicate HexText(text: string) {
    forall i :: 0 <= i < |text| ==> IsCapitalDigit(text[i])
  }

  lemma {:induction false} NoUnderscores(text: string)
    requires Digits(text)
    ensures WithoutUnderscores(text) == text
  {
    if text == "" {
    } else {
      NoUnderscores(text[1..]);
    }
  }

  lemma PlainDigits(text: string, n: nat)
    requires text != "" && Digits(text) && Value(text) == n
    ensures ParseDigits(text) == Some(n)
  {
    NoUnderscores(text);
    assert IsDigit(text[0]) && IsDigit(text[|text| - 1]);
    if |text| > 1 {
      assert IsDigit(text[1]);
    }
  }

  /** The prefix of base 16 changes nothing. */
  lemma PrefixedDigits(text: string, n: nat)
    requires text != "" && Digits(text) && Value(text) == n
    ensures ParseDigits("0x" + text) == Some(n)
  {
    NoUnderscores(text);
    assert IsDigit(text[0]) && IsDigit(text[|text| - 1]);
    assert WellSpaced(text);
    PrefixGoes(text);
  }

  lemma PrefixGoes(text: string)
    requires text != "" && text[0] != '_'
    ensures Unprefixed("0x" + text) == text
  {
    assert ("0x" + text)[2..] == text;
  }

  /** Texts between two digits have no blanks and no sign. */
  lemma NothingToStrip(text: string)
    requires text != "" && IsDigit(text[0]) && IsDigit(text[|text| - 1])
    ensures Stripped(text) == Unsigned(text) == text && !("-" <= text)
  {}

  lemma NoBlanks(text: string)
    requires text != "" && !IsBlank(text[0]) && !IsBlank(text[|text| - 1])
    ensures Stripped(text) == text
  {}

  lemma MinusStays(text: string)
    requires text != "" && IsDigit(text[|text| - 1])
    ensures Stripped("-" + text) == "-" + text && Unsigned("-" + text) == text
  {
    var signed := "-" + text;
    assert signed[0] == '-' && signed[|signed| - 1] == text[|text| - 1];
    NoBlanks(signed);
    assert signed[1..] == text;
  }

  /** Digits are read as they stand, and negated behind a minus. */
  lemma DigitsParse(text: string, n: nat)
    requires text != "" && Digits(text) && Value(text) == n
    ensures Parses(text, n) && Parses("-" + text, 0 - n)
  {
    PlainDigits(text, n);
    NothingToStrip(text);
    MinusStays(text);
  }

  lemma PrefixedParse(text: string, n: nat)
    requires text != "" && Digits(text) && Value(text) == n
    ensures Parses("0x" + text, n)
  {
    var prefixed := "0x" + text;
    assert prefixed[|prefixed| - 1] == text[|text| - 1];
    PrefixedDigits(text, n);
    NothingToStrip(prefixed);
  }

  lemma {:induction false} HexParses(n: nat)
    ensures HexText(Hex(n)) && Value(Hex(n)) == n && Hex(n) != ""
  {
    if n < 16 {
      assert Hex(n)[..0] == "";
      DigitParses(n);
    } else {
      HexParses(n / 16);
      DigitParses(n % 16);
      assert Hex(n)[..|Hex(n)| - 1] == Hex(n / 16);
    }
  }

  lemma DigitParses(d: nat)
    requires d < 16
    ensures IsCapitalDigit(DIGITS[d]) && DigitValue(DIGITS[d]) == d
  {}

  lemma {:induction false} ZerosParse(n: nat, text: string)
    requires HexText(text)
    ensures HexText(Zeros(n) + text) && Value(Zeros(n) + text) == Value(text)
  {
    if n == 0 {
      assert Zeros(0) + text == text;
    } else {
      ZerosShift(n - 1);
      Associate(Zeros(n - 1), ['0'], text);
      LeadingZero(text);
      ZerosParse(n - 1, ['0'] + text);
    }
  }

  lemma {:induction false} ZerosShift(n: nat)
    ensures ['0'] + Zeros(n) == Zeros(n) + ['0']
  {
    if n == 0 {
    } else {
      ZerosShift(n - 1);
    }
  }

  lemma {:induction false} LeadingZero(text: string)
    requires HexText(text)
    ensures HexText(['0'] + text) && Value(['0'] + text) == Value(text)
  {
    var padded := ['0'] + text;
    if text == "" {
      assert padded[..0] == "";
    } else {
      assert padded[..|padded| - 1] == ['0'] + text[..|text| - 1];
      LeadingZero(text[..|text| - 1]);
    }
  }

  lemma FormatIsHex(n: nat)
    ensures HexText(Format(n)) && Value(Format(n)) == n && Format(n) != ""
  {
    HexParses(n);
    if |Hex(n)| < 8 {
      ZerosParse(8 - |Hex(n)|, Hex(n));
    }
  }

  /** Reading back a formatted address, with or without the usual prefix or a sign, gives the address. */
  lemma FormatParses(n: nat)
    ensures Parses(Format(n), n) && Parses("0x" + Format(n), n) && Parses("-" + Format(n), 0 - n)
  {
    FormatIsHex(n);
    DigitsParse(Format(n), n);
    PrefixedParse(Format(n), n);
  }

  /** The same text with small letters. */
  function Lower(text: string): string {
    seq(|text|, i requires 0 <= i < |text| => if 'A' <= text[i] <= 'F' then text[i] + ('a' - 'A') else text[i])
  }

  lemma {:induction false} LowerSameValue(text: string)
    requires Digits(text)
    ensures Digits(Lower(text)) && Value(Lower(text)) == Value(text)
  {
    if text == "" {
    } else {
      assert Lower(text)[..|text| - 1] == Lower(text[..|text| - 1]);
      LowerSameValue(text[..|text| - 1]);
    }
  }

  /** Small and capital digits are read alike. */
  lemma LowerParses(n: nat)
    ensures Parses(Lower(Format(n)), n) && Parses("0x" + Lower(Format(n)), n)
  {
    FormatIsHex(n);
    LowerSameValue(Format(n));
    DigitsParse(Lower(Format(n)), n);
    PrefixedParse(Lower(Format(n)), n);
  }

  // ------------------------------------------------------------------
  // The numbers meant
  // ------------------------------------------------------------------

  /** Sixteen digits, in their order, with either case of the letters. */
  lemma DigitsMean(d: nat)
    requires d < 16
    ensures Digits(["0123456789ABCDEF"[d]]) && Value(["0123456789ABCDEF"[d]]) == d
    ensures Digits(["0123456789abcdef"[d]]) && Value(["0123456789abcdef"[d]]) == d
  {
    assert Value(["0123456789ABCDEF"[d]][..0]) == 0 && Value(["0123456789abcdef"[d]][..0]) == 0;
  }

  /** A further digit counts units, everything before it sixteen times as much. */
  lemma {:induction false} FurtherDigit(text: string, c: char)
    requires Digits(text) && IsDigit(c)
    ensures Digits(text + [c]) && Value(text + [c]) == 16 * Value(text) + Value([c])
  {
    assert (text + [c])[..|text|] == text;
    assert [c][..0] == "" && Value("") == 0;
  }

  /** A formatted number is no longer than it has to be. */
  lemma FormatIsShort(n: nat)
    ensures 8 <= |Format(n)| && (8 < |Format(n)| ==> Format(n)[0] != '0')
  {
    HexHasNoZero(n);
    ZerosLength(if |Hex(n)| < 8 then 8 - |Hex(n)| else 0);
  }

  lemma {:induction false} ZerosLength(n: nat)
    ensures |Zeros(n)| == n
  {
    if n == 0 {
    } else {
      ZerosLength(n - 1);
    }
  }

  lemma {:induction false} HexHasNoZero(n: nat)
    ensures Hex(n) != "" && (0 < n ==> Hex(n)[0] != '0') && (n == 0 ==> |Hex(n)| == 1)
  {
    if n < 16 {
    } else {
      HexHasNoZero(n / 16);
    }
  }

  /** Blanks around the text change nothing. */
  lemma {:induction false} BlanksAround(text: string)
    ensures ParseHex(" " + text) == ParseHex(text) && ParseHex(text + " ") == ParseHex(text)
  {
    assert (" " + text)[1..] == text;
    BlankBehind(text);
  }

  lemma {:induction false} BlankBehind(text: string)
    ensures Stripped(text + " ") == Stripped(text)
    decreases |text|
  {
    var longer := text + " ";
    if text == "" {
      assert longer[1..] == "";
    } else if IsBlank(text[0]) {
      assert longer[1..] == text[1..] + " ";
      BlankBehind(text[1..]);
    } else {
      assert longer[..|longer| - 1] == text && longer[|longer| - 1] == ' ';
    }
  }

  /** One underscore between digits is skipped; at either end, or two in a row, it is an error. */
  lemma {:induction false} Underscores(a: string, b: string)
    requires a != "" && b != "" && Digits(a) && Digits(b)
    ensures ParseDigits(a + "_" + b) == ParseDigits(a + b)
    ensures ParseDigits(a + "__" + b) == None && ParseDigits("_" + a) == None && ParseDigits(a + "_") == None
  {
    OneBetween(a, b);
    TwoBetween(a, b);
    OneAtEnd(a);
    UnderscoreGoes(a, b);
    PlainDigits(a + b, Value(a + b));
  }

  lemma {:induction false} UnderscoreGoes(a: string, b: string)
    requires Digits(a) && Digits(b)
    ensures WithoutUnderscores(a + "_" + b) == a + b
  {
    if a == "" {
      assert ("" + "_" + b)[1..] == b;
      NoUnderscores(b);
    } else {
      assert (a + "_" + b)[1..] == a[1..] + "_" + b;
      UnderscoreGoes(a[1..], b);
    }
  }

  lemma NoPrefix(text: string)
    requires |text| > 1 ==> text[1] != 'x' && text[1] != 'X'
    ensures Unprefixed(text) == text
  {}

  lemma OneBetween(a: string, b: string)
    requires a != "" && b != "" && Digits(a) && Digits(b)
    ensures WellSpaced(a + "_" + b) && Unprefixed(a + "_" + b) == a + "_" + b
  {
    var text := a + "_" + b;
    assert IsDigit(a[0]) && IsDigit(b[|b| - 1]);
    forall i | 0 < i < |text| ensures !(text[i - 1] == '_' && text[i] == '_') {
      assert i < |a| ==> text[i] == a[i] && IsDigit(a[i]);
      assert i == |a| ==> text[i - 1] == a[i - 1] && IsDigit(a[i - 1]);
      assert i > |a| ==> text[i] == b[i - |a| - 1] && IsDigit(b[i - |a| - 1]);
    }
    assert |a| > 1 ==> IsDigit(a[1]);
    NoPrefix(text);
  }

  lemma TwoBetween(a: string, b: string)
    requires a != "" && b != "" && Digits(a)
    ensures !WellSpaced(a + "__" + b) && Unprefixed(a + "__" + b) == a + "__" + b
  {
    var text := a + "__" + b;
    assert text[|a|] == '_' && text[|a| + 1] == '_';
    assert |a| > 1 ==> IsDigit(a[1]);
    NoPrefix(text);
  }

  lemma OneAtEnd(a: string)
    requires a != "" && Digits(a)
    ensures !WellSpaced("_" + a) && Unprefixed("_" + a) == "_" + a
    ensures !WellSpaced(a + "_") && Unprefixed(a + "_") == a + "_"
  {
    assert IsDigit(a[0]) && (a + "_")[|a|] == '_';
    assert |a| > 1 ==> IsDigit(a[1]);
    NoPrefix("_" + a);
    NoPrefix(a + "_");
  }
}
