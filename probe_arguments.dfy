/** The checks on the probe point (check_arguments) and the accepting
    language of Python's `int(s, 2)`, which check_arguments uses as its
    "is binary" test. */
module ProbeArguments {
  import opened Base
  import opened BinaryStrings

  /** The value passed as probe_data: a Python int (bools included, as in
      Python), or anything else. */
  datatype ProbeBit = IntBit(index: int) | NotAnInt

  predicate IsPySpace(c: char)
  {
    c == ' ' || c == '\t' || c == '\n' || c == '\r' || c as int == 11 || c as int == 12
  }

  function LStrip(s: string): (r: string)
    ensures |r| <= |s|
    ensures |r| > 0 ==> !IsPySpace(r[0])
  {
    if |s| > 0 && IsPySpace(s[0]) then LStrip(s[1..]) else s
  }

  function RStrip(s: string): (r: string)
    ensures |r| <= |s|
    ensures |r| > 0 ==> !IsPySpace(r[|r| - 1])
  {
    if |s| > 0 && IsPySpace(s[|s| - 1]) then RStrip(s[..|s| - 1]) else s
  }

  /** Binary digits with single underscores between them: [01](_?[01])*. */
  predicate DigitRun(s: string)
  {
    && |s| > 0
    && IsBitChar(s[0])
    && IsBitChar(s[|s| - 1])
    && (forall i :: 0 <= i < |s| ==> IsBitChar(s[i]) || s[i] == '_')
    && (forall i :: 0 <= i < |s| - 1 ==> s[i] == '_' ==> s[i + 1] != '_')
  }

  /** True exactly when `int(s, 2)` returns instead of raising ValueError:
      surrounding whitespace, an optional sign, an optional 0b/0B prefix
      (which may be followed by one underscore), then a digit run. */
  predicate ParsesAsBase2Int(s: string)
  {
    var t := RStrip(LStrip(s));
    var u := if |t| > 0 && (t[0] == '+' || t[0] == '-') then t[1..] else t;
    if |u| >= 2 && u[0] == '0' && (u[1] == 'b' || u[1] == 'B') then
      var v := u[2..];
      DigitRun(if |v| > 0 && v[0] == '_' then v[1..] else v)
    else
      DigitRun(u)
  }

  /** Every non-empty string of '0'/'1' characters is accepted by int(s, 2). */
  lemma BinaryParses(s: string)
    requires IsBinary(s) && |s| > 0
    ensures ParsesAsBase2Int(s)
  {
    assert LStrip(s) == s by { assert !IsPySpace(s[0]); }
    assert RStrip(s) == s by { assert !IsPySpace(s[|s| - 1]); }
    assert !IsBitChar('b') && !IsBitChar('B');
  }

  /** int(s, 2) never accepts the empty string. */
  lemma ParsedIsNonEmpty(s: string)
    requires ParsesAsBase2Int(s)
    ensures |s| > 0
  {
  }

  /** check_arguments as written: the probe bit is compared with `>`
      against word_size, so probe_data == word_size passes. */
  function CheckArgumentsAsWritten(probeAddress: string, probeData: ProbeBit, addrSize: nat, wordSize: nat): Outcome
  {
    if !ParsesAsBase2Int(probeAddress) then Fail(ProbeAddressNotBinary)
    else if |probeAddress| != addrSize then Fail(ProbeAddressWrongLength)
    else if !probeData.IntBit? || probeData.index > wordSize || probeData.index < 0 then Fail(ProbeDataInvalid)
    else Pass
  }

  /** check_arguments with the bound the error message states: the probe bit
      must name one of the word_size output pins DOUT[0..word_size-1]. */
  function CheckArguments(probeAddress: string, probeData: ProbeBit, addrSize: nat, wordSize: nat): Outcome
  {
    if !ParsesAsBase2Int(probeAddress) then Fail(ProbeAddressNotBinary)
    else if |probeAddress| != addrSize then Fail(ProbeAddressWrongLength)
    else if !probeData.IntBit? || probeData.index >= wordSize || probeData.index < 0 then Fail(ProbeDataInvalid)
    else Pass
  }

  /** The as-written check lets through a probe bit that names no output
      pin: with a one-bit word, bit 1 is accepted although only DOUT[0]
      exists. */
  lemma AsWrittenAcceptsMissingPin()
    ensures CheckArgumentsAsWritten("1", IntBit(1), 1, 1) == Pass
    ensures CheckArguments("1", IntBit(1), 1, 1) == Fail(ProbeDataInvalid)
  {
    BinaryParses("1");
  }

  /** What the corrected check guarantees when it passes, and that it passes
      every well-formed probe point. */
  lemma CheckArgumentsAccepts(probeAddress: string, probeData: ProbeBit, addrSize: nat, wordSize: nat)
    ensures CheckArguments(probeAddress, probeData, addrSize, wordSize) == Pass ==>
              |probeAddress| == addrSize > 0 && ParsesAsBase2Int(probeAddress)
              && probeData.IntBit? && 0 <= probeData.index < wordSize
    ensures IsBinary(probeAddress) && |probeAddress| == addrSize > 0
              && probeData.IntBit? && 0 <= probeData.index < wordSize ==>
              CheckArguments(probeAddress, probeData, addrSize, wordSize) == Pass
  {
    if ParsesAsBase2Int(probeAddress) { ParsedIsNonEmpty(probeAddress); }
    if IsBinary(probeAddress) && |probeAddress| > 0 { BinaryParses(probeAddress); }
  }

  /** int(s, 2) is more liberal than "a string of '0'/'1'": a sign, blanks,
      a 0b prefix and underscores all pass the first test of check_arguments. */
  lemma CheckArgumentsAcceptsPythonSpellings()
    ensures CheckArguments("-1", IntBit(0), 2, 1) == Pass
    ensures CheckArguments("0b1", IntBit(0), 3, 1) == Pass
    ensures CheckArguments("1_0", IntBit(0), 3, 1) == Pass
    ensures CheckArguments(" 1", IntBit(0), 2, 1) == Pass
  {
    assert LStrip("-1") == "-1" && RStrip("-1") == "-1";
    assert LStrip("0b1") == "0b1" && RStrip("0b1") == "0b1";
    assert LStrip("1_0") == "1_0" && RStrip("1_0") == "1_0";
    assert LStrip(" 1") == "1" && RStrip("1") == "1";
  }

  /** The two malformed addresses named for a 4-bit address bus: a non-binary
      character and a 3-character string. */
  lemma CheckArgumentsRejectsMalformed()
    ensures CheckArguments("10x1", IntBit(0), 4, 8) == Fail(ProbeAddressNotBinary)
    ensures CheckArguments("101", IntBit(0), 4, 8) == Fail(ProbeAddressWrongLength)
    ensures CheckArguments("1010", IntBit(8), 4, 8) == Fail(ProbeDataInvalid)
    ensures CheckArguments("1010", NotAnInt, 4, 8) == Fail(ProbeDataInvalid)
  {
    assert LStrip("10x1") == "10x1" && RStrip("10x1") == "10x1";
    assert !DigitRun("10x1") by { assert "10x1"[2] == 'x'; }
    BinaryParses("101");
    BinaryParses("1010");
  }

  /** Everything a delay stimulus demands of the probe point before any
      simulation: check_arguments, then the inverse-address loop of
      create_test_cycles, which rejects any character other than '0'/'1'. */
  function ValidateProbe(probeAddress: string, probeData: ProbeBit, addrSize: nat, wordSize: nat): Outcome
  {
    match CheckArguments(probeAddress, probeData, addrSize, wordSize)
    case Fail(e) => Fail(e)
    case Pass => if IsBinary(probeAddress) then Pass else Fail(NonBinaryAddress)
  }

  /** A probe point passes iff its address is a binary string of exactly
      addr_size (at least one) bits and its bit names an output pin. */
  lemma ValidateProbeIff(probeAddress: string, probeData: ProbeBit, addrSize: nat, wordSize: nat)
    ensures ValidateProbe(probeAddress, probeData, addrSize, wordSize) == Pass <==>
              IsBinary(probeAddress) && |probeAddress| == addrSize > 0
              && probeData.IntBit? && 0 <= probeData.index < wordSize
  {
    CheckArgumentsAccepts(probeAddress, probeData, addrSize, wordSize);
  }

  /** The same two checks with check_arguments as written. */
  function ValidateProbeAsWritten(probeAddress: string, probeData: ProbeBit, addrSize: nat, wordSize: nat): Outcome
  {
    match CheckArgumentsAsWritten(probeAddress, probeData, addrSize, wordSize)
    case Fail(e) => Fail(e)
    case Pass => if IsBinary(probeAddress) then Pass else Fail(NonBinaryAddress)
  }

  /** As written, a probe point passes iff its address is a binary string of
      exactly addr_size (at least one) bits and its bit is at most word_size:
      one bit more than the output pins, and every point the corrected
      checks pass. */
  lemma ValidateProbeAsWrittenIff(probeAddress: string, probeData: ProbeBit, addrSize: nat, wordSize: nat)
    ensures ValidateProbeAsWritten(probeAddress, probeData, addrSize, wordSize) == Pass <==>
              IsBinary(probeAddress) && |probeAddress| == addrSize > 0
              && probeData.IntBit? && 0 <= probeData.index <= wordSize
    ensures ValidateProbe(probeAddress, probeData, addrSize, wordSize) == Pass ==>
              ValidateProbeAsWritten(probeAddress, probeData, addrSize, wordSize) == Pass
  {
    if ParsesAsBase2Int(probeAddress) { ParsedIsNonEmpty(probeAddress); }
    if IsBinary(probeAddress) && |probeAddress| > 0 { BinaryParses(probeAddress); }
  }
}
