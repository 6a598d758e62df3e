/** Binary strings as the characterizer uses them: probe addresses, their
    bitwise complement (the "inverse address") and all-ones / all-zeros
    data words. */
module BinaryStrings {
  import opened Base

  predicate IsBitChar(c: char) { c == '0' || c == '1' }

  predicate IsBinary(s: string) { forall i :: 0 <= i < |s| ==> IsBitChar(s[i]) }

  /** The level a '0'/'1' character stands for. */
  function BitOf(c: char): Bit { if c == '1' then 1 else 0 }

  function Flip(c: char): char { if c == '0' then '1' else '0' }

  /** The inverse address: every bit of a binary string complemented. */
  function Complement(s: string): (r: string)
    ensures |r| == |s|
    ensures IsBinary(s) ==> IsBinary(r)
    ensures IsBinary(s) ==> forall i :: 0 <= i < |s| ==> BitOf(r[i]) == 1 - BitOf(s[i])
  {
    seq(|s|, i requires 0 <= i < |s| => Flip(s[i]))
  }

  /** Complementing twice gives the binary string back. */
  lemma ComplementInvolutive(s: string)
    requires IsBinary(s)
    ensures Complement(Complement(s)) == s
  {
  }

  /** `c * n` in Python: n copies of one character. */
  function Repeat(c: char, n: nat): (r: string)
    ensures |r| == n
    ensures forall i :: 0 <= i < n ==> r[i] == c
    ensures IsBitChar(c) ==> IsBinary(r)
  {
    seq(n, _ => c)
  }

  /** The index of the first character that is neither '0' nor '1', or the
      length of the string when there is none. */
  function FirstNonBinary(s: string): (k: nat)
    ensures k <= |s|
  {
    FirstNonBinaryFrom(s, 0)
  }

  /** The same search started at position i. */
  function FirstNonBinaryFrom(s: string, i: nat): (k: nat)
    requires i <= |s|
    ensures i <= k <= |s|
    decreases |s| - i
  {
    if i == |s| || !IsBitChar(s[i]) then i else FirstNonBinaryFrom(s, i + 1)
  }

  lemma {:induction false} FirstNonBinaryFromFacts(s: string, i: nat)
    requires i <= |s|
    ensures var k := FirstNonBinaryFrom(s, i);
      (forall j :: i <= j < k ==> IsBitChar(s[j])) && (k < |s| ==> !IsBitChar(s[k]))
    decreases |s| - i
  {
    if i < |s| && IsBitChar(s[i]) {
      FirstNonBinaryFromFacts(s, i + 1);
    }
  }

  lemma {:induction false} FirstNonBinaryFromAt(s: string, i: nat, k: nat)
    requires i <= k <= |s|
    requires forall j :: i <= j < k ==> IsBitChar(s[j])
    requires k < |s| ==> !IsBitChar(s[k])
    ensures FirstNonBinaryFrom(s, i) == k
    decreases k - i
  {
    if i < k {
      FirstNonBinaryFromAt(s, i + 1, k);
    }
  }

  /** Every character before the first non-binary position is a bit, and
      the one at it is not. */
  lemma FirstNonBinaryFacts(s: string)
    ensures var k := FirstNonBinary(s);
      IsBinary(s[..k]) && (k < |s| ==> !IsBitChar(s[k]))
  {
    FirstNonBinaryFromFacts(s, 0);
  }

  /** The first non-binary position is determined by the binary prefix
      before it and the bad character at it. */
  lemma FirstNonBinaryAt(s: string, k: nat)
    requires k <= |s|
    requires IsBinary(s[..k])
    requires k < |s| ==> !IsBitChar(s[k])
    ensures FirstNonBinary(s) == k
  {
    assert forall j :: 0 <= j < k ==> s[..k][j] == s[j];
    FirstNonBinaryFromAt(s, 0, k);
  }

  /** A binary string has no non-binary position. */
  lemma FirstNonBinaryOfBinary(s: string)
    requires IsBinary(s)
    ensures FirstNonBinary(s) == |s|
  {
    assert s[..|s|] == s;
    FirstNonBinaryAt(s, |s|);
  }

  /** The scratch address create_test_cycles builds from a probe address:
      the complement of its characters up to the first one that is not a
      bit. */
  function ScratchAddress(s: string): string
  {
    if |s| == 0 || !IsBitChar(s[0]) then "" else [Flip(s[0])] + ScratchAddress(s[1..])
  }

  lemma {:induction false} ScratchAddressPrefix(s: string, k: nat)
    requires k <= |s|
    requires IsBinary(s[..k])
    requires k < |s| ==> !IsBitChar(s[k])
    ensures ScratchAddress(s) == Complement(s[..k])
  {
    if k == 0 {
      assert s[..k] == [];
    } else {
      assert IsBitChar(s[..k][0]);
      assert s[1..][..k - 1] == s[..k][1..];
      ScratchAddressPrefix(s[1..], k - 1);
      assert Complement(s[..k]) == [Flip(s[0])] + Complement(s[1..][..k - 1]);
    }
  }

  /** The scratch address is the complement of the binary prefix of the
      probe address, and of the whole address when it is binary. */
  lemma ScratchAddressIsComplement(s: string)
    ensures ScratchAddress(s) == Complement(s[..FirstNonBinary(s)])
    ensures IsBinary(s) ==> ScratchAddress(s) == Complement(s)
  {
    FirstNonBinaryFacts(s);
    ScratchAddressPrefix(s, FirstNonBinary(s));
    if IsBinary(s) {
      FirstNonBinaryOfBinary(s);
      assert s[..|s|] == s;
    }
  }

  /** The loop at the top of create_test_cycles: builds the inverse address
      one character at a time and stops at the first character that is not
      a binary digit. */
  method InverseAddress(probe: string) returns (inverse: string, ok: bool)
    ensures ok == IsBinary(probe)
    ensures ok ==> inverse == Complement(probe)
    ensures inverse == ScratchAddress(probe)
  {
    inverse := "";
    var i := 0;
    while i < |probe|
      invariant 0 <= i <= |probe|
      invariant IsBinary(probe[..i])
      invariant inverse == Complement(probe[..i])
    {
      var c := probe[i];
      if c == '0' {
        inverse := inverse + "1";
      } else if c == '1' {
        inverse := inverse + "0";
      } else {
        ScratchAddressPrefix(probe, i);
        ok := false;
        return;
      }
      assert probe[..i + 1] == probe[..i] + [c];
      i := i + 1;
    }
    assert probe[..i] == probe;
    ScratchAddressPrefix(probe, i);
    ok := true;
  }
}
