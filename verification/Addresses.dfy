/**
  Instruction addresses in an assembly listing: the annotation loop of
  tools/unitrace/scripts/metrics/addrasm.py, the check and the lookup by address
  in tools/unitrace/scripts/metrics/analyzeperfmetrics.py.
 */
module Addresses {
  import opened Prelude
  import opened Hexadecimal

  // ------------------------------------------------------------------
  // Rows
  // ------------------------------------------------------------------

  predicate Contains(s: string, part: string) {
    part <= s || (s != "" && Contains(s[1..], part))
  }

  predicate IsInstruction(row: string) {
    !("//" <= row) && Contains(row, "//")
  }

  function Size(row: string): nat {
    if Contains(row, "Compacted") then 0x8 else 0x10
  }

  function Prefix(ip: nat): string {
    "/* [" + Format(ip) + "] */ "
  }

  /** What a row adds to the address. */
  function Step(row: string): nat {
    if IsInstruction(row) then Size(row) else 0
  }

  /** The address of row i: the sizes of the instructions above it. */
  function Ip(rows: seq<string>, i: nat): nat
    requires i <= |rows|
  {
    if i == 0 then 0 else Ip(rows, i - 1) + Step(rows[i - 1])
  }

  function WithAddress(row: string, ip: nat): string {
    if IsInstruction(row) then Prefix(ip) + row else row
  }

  function AnnotateRow(rows: seq<string>, i: nat): string
    requires i < |rows|
  {
    WithAddress(rows[i], Ip(rows, i))
  }

  function Annotated(rows: seq<string>): seq<string> {
    seq(|rows|, i requires 0 <= i < |rows| => AnnotateRow(rows, i))
  }

  /** The address after a row. */
  method Advance(ip: nat, row: string) returns (next: nat)
    ensures next == ip + Step(row)
  {
    next := ip;
    if IsInstruction(row) {
      if Contains(row, "Compacted") {
        next := ip + 0x8;
      } else {
        next := ip + 0x10;
      }
    }
  }

  method Annotate(rows: seq<string>) returns (out: seq<string>)
    ensures out == Annotated(rows)
  {
    var ip := 0;
    out := [];
    for i := 0 to |rows|
      invariant ip == Ip(rows, i)
      invariant out == Annotated(rows)[..i]
    {
      out := out + [WithAddress(rows[i], ip)];
      ip := Advance(ip, rows[i]);
    }
  }

  predicate HasAddress(row: string, ip: nat) {
    IsInstruction(row) ==> Prefix(ip) <= row
  }

  predicate RowAddressed(rows: seq<string>, i: nat)
    requires i < |rows|
  {
    HasAddress(rows[i], Ip(rows, i))
  }

  /** Every instruction row starts with its own address. */
  ghost predicate Addressed(rows: seq<string>) {
    forall i :: 0 <= i < |rows| ==> RowAddressed(rows, i)
  }

  method CheckAddressed(rows: seq<string>) returns (addressed: bool)
    ensures addressed <==> Addressed(rows)
  {
    var ip := 0;
    addressed := true;
    for i := 0 to |rows|
      invariant ip == Ip(rows, i)
      invariant addressed <==> forall k :: 0 <= k < i ==> RowAddressed(rows, k)
    {
      assert RowAddressed(rows, i) <==> HasAddress(rows[i], ip);
      if !HasAddress(rows[i], ip) {
        addressed := false;
      }
      ip := Advance(ip, rows[i]);
    }
  }

  // ------------------------------------------------------------------
  // The annotated text
  // ------------------------------------------------------------------

  /** The word occurs in the row at position k. */
  ghost predicate OccursAt(row: string, word: string, k: int) {
    0 <= k <= |row| - |word| && row[k..k + |word|] == word
  }

  ghost predicate Occurs(row: string, word: string) {
    exists k :: OccursAt(row, word, k)
  }

  lemma {:induction false} ContainsIff(row: string, word: string)
    ensures Contains(row, word) <==> Occurs(row, word)
  {
    if word <= row {
      assert OccursAt(row, word, 0);
    } else if row == "" {
    } else {
      ContainsIff(row[1..], word);
      if k :| OccursAt(row[1..], word, k) {
        assert row[k + 1..k + 1 + |word|] == row[1..][k..k + |word|];
        assert OccursAt(row, word, k + 1);
      }
      if k :| OccursAt(row, word, k) {
        assert k > 0 && row[k..k + |word|] == row[1..][k - 1..k - 1 + |word|];
        assert OccursAt(row[1..], word, k - 1);
      }
    }
  }

  /** An instruction: a comment in the row, but not at its start. */
  ghost predicate Instruction(row: string) {
    Occurs(row, "//") && !OccursAt(row, "//", 0)
  }

  /** How many of the first n rows are instructions. */
  ghost function Instructions(rows: seq<string>, n: nat): nat
    requires n <= |rows|
  {
    if n == 0 then 0 else Instructions(rows, n - 1) + if Instruction(rows[n - 1]) then 1 else 0
  }

  /** How many of the first n rows are compacted instructions. */
  ghost function CompactedOnes(rows: seq<string>, n: nat): nat
    requires n <= |rows|
  {
    if n == 0 then 0
    else CompactedOnes(rows, n - 1) + if Instruction(rows[n - 1]) && Occurs(rows[n - 1], "Compacted") then 1 else 0
  }

  lemma InstructionIff(row: string)
    ensures IsInstruction(row) <==> Instruction(row)
    ensures Step(row) == if Instruction(row) then (if Occurs(row, "Compacted") then 8 else 16) else 0
  {
    ContainsIff(row, "//");
    ContainsIff(row, "Compacted");
    assert OccursAt(row, "//", 0) <==> "//" <= row;
  }

  /** An address is sixteen bytes for every instruction above, less eight for every compacted one. */
  lemma {:induction false} IpCounts(rows: seq<string>, n: nat)
    requires n <= |rows|
    ensures Ip(rows, n) == 16 * Instructions(rows, n) - 8 * CompactedOnes(rows, n)
  {
    if n == 0 {
    } else {
      IpCounts(rows, n - 1);
      InstructionIff(rows[n - 1]);
    }
  }

  /** The text is the address in at least eight capital hexadecimal digits, with no zero in front beyond that. */
  ghost predicate IsAddress(text: string, ip: int) {
    && HexText(text) && 8 <= |text| && (8 < |text| ==> text[0] != '0')
    && ParseHex(text) == Some(ip)
  }

  /** What a row looks like once it has been annotated: the address in brackets and a comment in front of the row. */
  ghost predicate IsAnnotation(out: string, row: string, ip: int) {
    exists text :: IsAddress(text, ip) && out == "/* [" + text + "] */ " + row
  }

  /** The annotated listing, said about its text. */
  lemma {:induction false} AnnotatedText(rows: seq<string>, i: nat)
    requires i < |rows|
    ensures |Annotated(rows)| == |rows|
    ensures if Instruction(rows[i])
            then IsAnnotation(Annotated(rows)[i], rows[i], 16 * Instructions(rows, i) - 8 * CompactedOnes(rows, i))
            else Annotated(rows)[i] == rows[i]
  {
    InstructionIff(rows[i]);
    IpCounts(rows, i);
    FormatIsAddress(Ip(rows, i));
  }

  lemma FormatIsAddress(n: nat)
    ensures IsAddress(Format(n), n)
  {
    FormatIsHex(n);
    FormatParses(n);
    FormatIsShort(n);
  }

  // ------------------------------------------------------------------
  // Annotating changes neither the instructions nor their sizes
  // ------------------------------------------------------------------

  /** A word none of whose later letters occur in the text in front can only occur behind it. */
  lemma {:induction false} NotAcross(front: string, row: string, word: string)
    requires |word| >= 2 && word[1] !in front
    requires front != "" ==> front[|front| - 1] != word[0]
    ensures Contains(front + row, word) == Contains(row, word)
  {
    if front == "" {
      assert front + row == row;
    } else {
      var s := front + row;
      assert s[1..] == front[1..] + row;
      if |front| > 1 {
        assert front[1..][|front| - 2] == front[|front| - 1];
        assert s[1] == front[1];
      } else {
        assert s[0] == front[0];
      }
      NotAcross(front[1..], row, word);
    }
  }

  lemma {:induction false} ContainsBehind(front: string, row: string, word: string)
    requires Contains(row, word)
    ensures Contains(front + row, word)
  {
    if front == "" {
      assert front + row == row;
    } else {
      assert (front + row)[1..] == front[1..] + row;
      ContainsBehind(front[1..], row, word);
    }
  }

  lemma PrefixChars(ip: nat)
    ensures var front := Prefix(ip);
            && |front| == 4 + |Format(ip)| + 5 && front[..4] == "/* [" && front[4..4 + |Format(ip)|] == Format(ip)
            && front[4 + |Format(ip)|..] == "] */ "
    ensures forall i :: 0 <= i < |Format(ip)| ==> Prefix(ip)[4 + i] == Format(ip)[i] && IsCapitalDigit(Format(ip)[i])
  {
    FormatIsHex(ip);
    var front := Prefix(ip);
    assert front == "/* [" + (Format(ip) + "] */ ");
    assert front[4..4 + |Format(ip)|] == Format(ip);
    forall i | 0 <= i < |Format(ip)| ensures front[4 + i] == Format(ip)[i] && IsCapitalDigit(Format(ip)[i]) {
      assert front[4..4 + |Format(ip)|][i] == front[4 + i];
    }
  }

  lemma NoSmallO(ip: nat)
    ensures 'o' !in Prefix(ip)
  {
    var front, n := Prefix(ip), |Format(ip)|;
    PrefixChars(ip);
    forall i | 0 <= i < |front| ensures front[i] != 'o' {
      if i < 4 {
        assert front[i] == front[..4][i];
      } else if i < 4 + n {
        assert IsCapitalDigit(front[4 + (i - 4)]);
      } else {
        assert front[i] == front[4 + n..][i - 4 - n];
      }
    }
  }

  lemma NoSlashes(front: string, row: string)
    requires |front| > 1 && front[1] != '/'
    ensures !("//" <= front + row)
  {
    assert (front + row)[1] == front[1] && "//"[1] == '/';
  }

  lemma PrefixKeepsRow(ip: nat, row: string)
    requires IsInstruction(row)
    ensures IsInstruction(Prefix(ip) + row) && Size(Prefix(ip) + row) == Size(row)
  {
    var front := Prefix(ip);
    PrefixChars(ip);
    assert front[1] == front[..4][1] == '*';
    NoSlashes(front, row);
    assert front[|front| - 1] == front[4 + |Format(ip)|..][4] == ' ';
    ContainsBehind(front, row, "//");
    NoSmallO(ip);
    NotAcross(front, row, "Compacted");
  }

  lemma AnnotatedRow(rows: seq<string>, i: nat)
    requires i < |rows|
    ensures IsInstruction(AnnotateRow(rows, i)) <==> IsInstruction(rows[i])
    ensures IsInstruction(rows[i]) ==> Size(AnnotateRow(rows, i)) == Size(rows[i])
  {
    if IsInstruction(rows[i]) {
      PrefixKeepsRow(Ip(rows, i), rows[i]);
    }
  }

  lemma {:induction false} AnnotatedIp(rows: seq<string>, i: nat)
    requires i <= |rows|
    ensures Ip(Annotated(rows), i) == Ip(rows, i)
  {
    if i == 0 {
    } else {
      AnnotatedIp(rows, i - 1);
      AnnotatedRow(rows, i - 1);
      assert Annotated(rows)[i - 1] == AnnotateRow(rows, i - 1);
    }
  }

  /** The annotated listing passes the check, with the addresses computed from the original. */
  lemma {:induction false} AnnotatedIsAddressed(rows: seq<string>)
    ensures Addressed(Annotated(rows))
    ensures forall i :: 0 <= i < |rows| ==>
              (IsInstruction(Annotated(rows)[i]) <==> IsInstruction(rows[i])) && Ip(Annotated(rows), i) == Ip(rows, i)
  {
    forall i | 0 <= i < |rows|
      ensures (IsInstruction(Annotated(rows)[i]) <==> IsInstruction(rows[i])) && Ip(Annotated(rows), i) == Ip(rows, i)
      ensures IsInstruction(rows[i]) ==> Prefix(Ip(rows, i)) <= Annotated(rows)[i]
    {
      AnnotatedIp(rows, i);
      AnnotatedRow(rows, i);
    }
  }

  // ------------------------------------------------------------------
  // Lookup by address
  // ------------------------------------------------------------------

  lemma {:induction false} IpIncreases(rows: seq<string>, i: nat, j: nat)
    requires i < j <= |rows| && IsInstruction(rows[i])
    ensures Ip(rows, i) < Ip(rows, j)
  {
    if i + 1 < j {
      IpIncreases(rows, i, j - 1);
    }
  }

  lemma IpDistinct(rows: seq<string>, i: nat, j: nat)
    requires i < |rows| && j < |rows| && i != j && IsInstruction(rows[i]) && IsInstruction(rows[j])
    ensures Ip(rows, i) != Ip(rows, j)
  {
    if i < j {
      IpIncreases(rows, i, j);
    } else {
      IpIncreases(rows, j, i);
    }
  }

  /** What a row that starts with an address looks like: digits up to the first bracket. */
  lemma AddressedRow(ip: nat, row: string)
    requires Prefix(ip) <= row
    ensures 4 + |Format(ip)| < |row| && row[4..4 + |Format(ip)|] == Format(ip) && row[4 + |Format(ip)|] == ']'
    ensures forall i :: 4 <= i < 4 + |Format(ip)| ==> row[i] != ']'
  {
    PrefixChars(ip);
    var front, n := Prefix(ip), |Format(ip)|;
    assert row == front + row[|front|..];
    assert front[4 + n] == front[4 + n..][0];
    forall i | 4 <= i < 4 + n ensures row[i] != ']' {
      assert row[i] == front[4 + (i - 4)];
    }
  }

  /** A row starts with at most one address. */
  lemma PrefixUnique(a: nat, b: nat, row: string)
    requires Prefix(a) <= row && Prefix(b) <= row
    ensures a == b
  {
    AddressedRow(a, row);
    AddressedRow(b, row);
    assert |Format(a)| == |Format(b)|;
    FormatParses(a);
    FormatParses(b);
  }

  /** In an addressed listing, the row found under an address is the one instruction at that address. */
  lemma {:induction false} LookupIsExact(rows: seq<string>, pc: nat, i: nat)
    requires Addressed(rows) && i < |rows| && IsInstruction(rows[i])
    ensures Prefix(pc) <= rows[i] <==> Ip(rows, i) == pc
    ensures Prefix(pc) <= rows[i] ==>
              forall j :: 0 <= j < |rows| && j != i && IsInstruction(rows[j]) ==> !(Prefix(pc) <= rows[j])
  {
    assert RowAddressed(rows, i);
    if Prefix(pc) <= rows[i] {
      PrefixUnique(pc, Ip(rows, i), rows[i]);
      forall j | 0 <= j < |rows| && j != i && IsInstruction(rows[j]) ensures !(Prefix(pc) <= rows[j]) {
        assert RowAddressed(rows, j);
        IpDistinct(rows, i, j);
        if Prefix(pc) <= rows[j] {
          PrefixUnique(pc, Ip(rows, j), rows[j]);
        }
      }
    }
  }

  /** '/* [{:08X}] */ '.format(pc): a negative number is written with a sign. */
  function Pattern(pc: int): string {
    if 0 <= pc then Prefix(pc)
    else
      var digits := Hex(-pc);
      "/* [" + ("-" + (if |digits| < 7 then Zeros(7 - |digits|) + digits else digits)) + "] */ "
  }

  lemma NegativeNowhere(rows: seq<string>, pc: int, i: nat)
    requires Addressed(rows) && i < |rows| && IsInstruction(rows[i]) && pc < 0
    ensures !(Pattern(pc) <= rows[i])
  {
    assert RowAddressed(rows, i);
    PrefixChars(Ip(rows, i));
    FormatIsHex(Ip(rows, i));
    assert IsCapitalDigit(Format(Ip(rows, i))[0]) && Prefix(Ip(rows, i))[4] == rows[i][4];
    assert Pattern(pc)[4] == '-';
  }

  /** The row of the stalled instruction, no row, or the ValueError of int. */
  datatype Found = Row(at: nat) | Nowhere | ValueError

  predicate InstructionAt(rows: seq<string>, i: nat, pc: int) {
    i < |rows| && IsInstruction(rows[i]) && Ip(rows, i) == pc
  }

  /** The loop that looks for the stalled instruction, stopping at the first row that matches. */
  method FindInstruction(rows: seq<string>, text: string) returns (found: Found)
    requires Addressed(rows)
    ensures match found
            case Row(i) => ParseHex(text).Some? && InstructionAt(rows, i, ParseHex(text).value)
            case Nowhere => ParseHex(text).Some? && forall i: nat :: !InstructionAt(rows, i, ParseHex(text).value)
            case ValueError => ParseHex(text).None?
  {
    var parsed := ParseHex(text);
    if parsed == None {
      return ValueError;
    }
    var pc := parsed.value;
    for i := 0 to |rows|
      invariant forall k: nat :: k < i ==> !InstructionAt(rows, k, pc)
    {
      PatternIsExact(rows, pc, i);
      if Matches(rows[i], pc) {
        return Row(i);
      }
    }
    return Nowhere;
  }

  /** The test of the loop. */
  predicate Matches(row: string, pc: int) {
    IsInstruction(row) && Pattern(pc) <= row
  }

  lemma PatternIsExact(rows: seq<string>, pc: int, i: nat)
    requires Addressed(rows) && i < |rows|
    ensures Matches(rows[i], pc) <==> InstructionAt(rows, i, pc)
  {
    if !IsInstruction(rows[i]) {
    } else if 0 <= pc {
      LookupIsExact(rows, pc, i);
    } else {
      NegativeNowhere(rows, pc, i);
    }
  }
}
