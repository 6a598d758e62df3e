/** What the test cycles make an ideal memory do: writes store the data
    word at the address, reads return what the address holds. This is the
    reasoning behind the cycle order of create_test_cycles: each probing read
    follows a read of the complement address, which holds the opposite
    word, so the probed output falls at the read0 cycle and rises at the
    read1 cycle, where the delay measures look. */
module ReadBack {
  import opened Base
  import opened BinaryStrings
  import opened TestCycles

  type Memory = map<string, string>

  /** The memory after one cycle. */
  function Apply(mem: Memory, c: CycleSpec): Memory
  {
    if c.kind == Write then mem[c.address := c.data] else mem
  }

  /** The memory before cycle `k`. */
  function MemoryBefore(p: seq<CycleSpec>, k: nat, mem: Memory): Memory
    requires k <= |p|
  {
    if k == 0 then mem else Apply(MemoryBefore(p, k - 1, mem), p[k - 1])
  }

  /** The word a read cycle returns, if its address was ever written. */
  function ReadAt(p: seq<CycleSpec>, k: nat, mem: Memory): Option<string>
    requires k < |p|
  {
    var m := MemoryBefore(p, k, mem);
    if p[k].kind == Read && p[k].address in m then Some(m[p[k].address]) else None
  }

  /** A non-empty binary address differs from its complement. */
  lemma ComplementDiffers(s: string)
    requires IsBinary(s) && |s| > 0
    ensures Complement(s) != s
  {
    assert BitOf(Complement(s)[0]) == 1 - BitOf(s[0]);
  }

  /** Whatever the memory held before, the reads of the test program return
      ones then zeros around read0 and zeros then ones around read1: the
      probed bit goes from 1 to 0 in the read0 cycle and from 0 to 1 in the
      read1 cycle. */
  lemma TestProgramReads(probe: string, wordSize: nat, mem: Memory)
    requires IsBinary(probe) && |probe| > 0
    ensures var p := TestProgram(probe, wordSize);
      && ReadAt(p, Read0Cycle - 1, mem) == Some(Repeat('1', wordSize))
      && ReadAt(p, Read0Cycle, mem) == Some(Repeat('0', wordSize))
      && ReadAt(p, Read1Cycle - 1, mem) == Some(Repeat('0', wordSize))
      && ReadAt(p, Read1Cycle, mem) == Some(Repeat('1', wordSize))
  {
    ComplementDiffers(probe);
    CycleListReads(probe, Complement(probe), Repeat('1', wordSize), Repeat('0', wordSize), mem);
  }

  /** The same for any probe and inverse address that differ and any two
      data words. */
  lemma CycleListReads(probe: string, inverse: string, ones: string, zeros: string, mem: Memory)
    requires probe != inverse
    ensures var p := TestCycleList(probe, inverse, ones, zeros);
      && ReadAt(p, Read0Cycle - 1, mem) == Some(ones)
      && ReadAt(p, Read0Cycle, mem) == Some(zeros)
      && ReadAt(p, Read1Cycle - 1, mem) == Some(zeros)
      && ReadAt(p, Read1Cycle, mem) == Some(ones)
  {
    CycleListMemory(probe, inverse, ones, zeros, mem);
  }

  /** The memory before the read0 and the read1 cycle. */
  lemma CycleListMemory(probe: string, inverse: string, ones: string, zeros: string, mem: Memory)
    ensures var p := TestCycleList(probe, inverse, ones, zeros);
      && MemoryBefore(p, Read0Cycle - 1, mem) == mem[inverse := ones][probe := zeros]
      && MemoryBefore(p, Read0Cycle, mem) == mem[inverse := ones][probe := zeros]
      && MemoryBefore(p, Read1Cycle - 1, mem) == mem[inverse := ones][probe := zeros][probe := ones][inverse := zeros]
      && MemoryBefore(p, Read1Cycle, mem) == mem[inverse := ones][probe := zeros][probe := ones][inverse := zeros]
  {
    var p := TestCycleList(probe, inverse, ones, zeros);
    var m4 := mem[inverse := ones][probe := zeros];
    assert MemoryBefore(p, 1, mem) == mem;
    assert MemoryBefore(p, 2, mem) == mem[inverse := ones];
    assert MemoryBefore(p, 3, mem) == m4;
    ThirdToSeventh(p, m4, mem);
  }

  /** Cycles 3 to 6 of the test program leave the memory alone but for
      the write at cycle 6. */
  lemma ThirdToSeventh(p: seq<CycleSpec>, m: Memory, mem: Memory)
    requires |p| == 11 && MemoryBefore(p, 3, mem) == m
    requires p[3].kind != Write && p[4].kind != Write && p[5].kind != Write && p[6].kind == Write
    ensures MemoryBefore(p, 4, mem) == m && MemoryBefore(p, 5, mem) == m
    ensures MemoryBefore(p, 7, mem) == m[p[6].address := p[6].data]
  {
  }
}
