/** The canonical test program of create_test_cycles and the per-cycle,
    per-pin buffers that add_noop / add_read / add_write fill. The buffers
    are described here as a value (`Waveforms`); the class in delay.dfy
    holds them as fields and its methods are proved to move them exactly
    as `Step` does. */
module TestCycles {
  import opened Base
  import opened BinaryStrings

  datatype OpKind = Noop | Read | Write

  /** One call of add_noop, add_read or add_write. */
  datatype CycleSpec = CycleSpec(kind: OpKind, comment: string, address: string, data: string)

  /** A cycle comment: the cycle number, its start time and the label. */
  datatype CycleComment = CycleComment(index: nat, time: real, text: string)

  /** The buffers of one stimulus: the running time, one entry per cycle in
      the comment, time and control lists, and one list per data bit and per
      address bit. */
  datatype Waveforms = Waveforms(
    tCurrent: real,
    comments: seq<CycleComment>,
    times: seq<real>,
    web: seq<Bit>,
    oeb: seq<Bit>,
    csb: seq<Bit>,
    data: seq<seq<Bit>>,
    addr: seq<seq<Bit>>)

  /** (web, oeb, csb) levels pushed for each kind of cycle. */
  function Controls(k: OpKind): (Bit, Bit, Bit)
  {
    match k
    case Noop => (1, 1, 1)
    case Read => (1, 0, 0)
    case Write => (0, 1, 0)
  }

  /** A word add_data / add_address accepts for n pins. */
  predicate WordOk(s: string, n: nat) { |s| == n && IsBinary(s) }

  /** How many pin lists add_data / add_address extend before they stop:
      none on a length mismatch, otherwise up to the first bad character. */
  function LaneProgress(s: string, n: nat): (k: nat)
    ensures k <= n && k <= |s|
    ensures WordOk(s, n) ==> k == n
  {
    if |s| != n then 0
    else if IsBinary(s) then |s|
    else FirstNonBinary(s)
  }

  /** The pin lists after the first n of them received the bit of s at
      their position. */
  function AppendBits(lanes: seq<seq<Bit>>, s: string, n: nat): seq<seq<Bit>>
  {
    seq(|lanes|, i requires 0 <= i < |lanes| =>
      if i < n && i < |s| then lanes[i] + [BitOf(s[i])] else lanes[i])
  }

  /** The verdict of add_data / add_address on a word for n pins: the
      length check comes first, then the characters. */
  function WordCheck(s: string, n: nat, sizeError: Error, bitError: Error): (r: Outcome)
    ensures r == Pass <==> WordOk(s, n)
    ensures r.Fail? ==> r.error == if |s| != n then sizeError else bitError
  {
    if |s| != n then Fail(sizeError)
    else if IsBinary(s) then Pass
    else Fail(bitError)
  }

  /** Whether one add_* call runs to the end. */
  predicate StepOk(w: Waveforms, c: CycleSpec)
  {
    WordOk(c.data, |w.data|) && WordOk(c.address, |w.addr|)
  }

  /** The verdict of one add_* call on buffers with wordSize data lanes and
      addrSize address lanes: the data word is checked first. */
  function CycleOutcome(c: CycleSpec, wordSize: nat, addrSize: nat): (r: Outcome)
    ensures r == Pass <==> WordOk(c.data, wordSize) && WordOk(c.address, addrSize)
    ensures r.Fail? && WordOk(c.data, wordSize) ==> r.error == InvalidAddressSize || r.error == NonBinaryAddress
  {
    match WordCheck(c.data, wordSize, InvalidDataWordSize, NonBinaryData)
    case Fail(e) => Fail(e)
    case Pass => WordCheck(c.address, addrSize, InvalidAddressSize, NonBinaryAddress)
  }

  /** The buffers after one add_* call that runs to the end: one entry on
      every list, the running time one period later. */
  function Step(w: Waveforms, c: CycleSpec, period: real): Waveforms
  {
    // add_noop numbers its comment by the time list, the others by the comment list
    var index := if c.kind == Noop then |w.times| else |w.comments|;
    var (web, oeb, csb) := Controls(c.kind);
    Waveforms(w.tCurrent + period,
              w.comments + [CycleComment(index, w.tCurrent, c.comment)],
              w.times + [w.tCurrent],
              w.web + [web], w.oeb + [oeb], w.csb + [csb],
              AppendBits(w.data, c.data, |w.data|),
              AppendBits(w.addr, c.address, |w.addr|))
  }

  /** The buffers after any add_* call, including the partly extended pin
      lists left behind when add_data or add_address stops. */
  function PartialStep(w: Waveforms, c: CycleSpec, period: real): (v: Waveforms)
    ensures StepOk(w, c) ==> v == Step(w, c, period)
  {
    var index := if c.kind == Noop then |w.times| else |w.comments|;
    var (web, oeb, csb) := Controls(c.kind);
    var data := AppendBits(w.data, c.data, LaneProgress(c.data, |w.data|));
    var addr := if WordOk(c.data, |w.data|)
      then AppendBits(w.addr, c.address, LaneProgress(c.address, |w.addr|))
      else w.addr;
    Waveforms(w.tCurrent + period,
              w.comments + [CycleComment(index, w.tCurrent, c.comment)],
              w.times + [w.tCurrent],
              w.web + [web], w.oeb + [oeb], w.csb + [csb],
              data, addr)
  }

  /** The buffers as create_test_cycles resets them. */
  function Empty(wordSize: nat, addrSize: nat): Waveforms
  {
    Waveforms(0.0, [], [], [], [], [], NoLanes(wordSize), NoLanes(addrSize))
  }

  /** n empty pin lists. */
  function NoLanes(n: nat): seq<seq<Bit>>
  {
    seq(n, _ => [])
  }

  /** The buffers after running the cycles of p in order from the reset state. */
  function Build(p: seq<CycleSpec>, period: real, wordSize: nat, addrSize: nat): Waveforms
    decreases |p|
  {
    if |p| == 0 then Empty(wordSize, addrSize)
    else Step(Build(p[..|p| - 1], period, wordSize, addrSize), p[|p| - 1], period)
  }

  /** The buffers after the first k cycles of p, counted without slicing. */
  function BuildFirst(p: seq<CycleSpec>, k: nat, period: real, wordSize: nat, addrSize: nat): Waveforms
    requires k <= |p|
  {
    if k == 0 then Empty(wordSize, addrSize)
    else Step(BuildFirst(p, k - 1, period, wordSize, addrSize), p[k - 1], period)
  }

  lemma {:induction false} BuildFirstIsBuild(p: seq<CycleSpec>, k: nat, period: real, wordSize: nat, addrSize: nat)
    requires k <= |p|
    ensures BuildFirst(p, k, period, wordSize, addrSize) == Build(p[..k], period, wordSize, addrSize)
  {
    if k > 0 {
      BuildFirstIsBuild(p, k - 1, period, wordSize, addrSize);
      assert p[..k][..k - 1] == p[..k - 1];
    }
  }

  /** Building every cycle one by one builds the whole program. */
  lemma BuildAll(p: seq<CycleSpec>, period: real, wordSize: nat, addrSize: nat)
    ensures BuildFirst(p, |p|, period, wordSize, addrSize) == Build(p, period, wordSize, addrSize)
  {
    BuildFirstIsBuild(p, |p|, period, wordSize, addrSize);
    assert p[..|p|] == p;
  }

  lemma BuildSnoc(p: seq<CycleSpec>, k: nat, period: real, wordSize: nat, addrSize: nat)
    requires k < |p|
    ensures Build(p[..k + 1], period, wordSize, addrSize) == Step(Build(p[..k], period, wordSize, addrSize), p[k], period)
  {
    assert p[..k + 1][..k] == p[..k];
  }

  predicate DataWellFormed(p: seq<CycleSpec>, wordSize: nat)
  {
    forall i :: 0 <= i < |p| ==> WordOk(p[i].data, wordSize)
  }

  predicate WellFormed(p: seq<CycleSpec>, wordSize: nat, addrSize: nat)
  {
    forall i :: 0 <= i < |p| ==> WordOk(p[i].data, wordSize) && WordOk(p[i].address, addrSize)
  }

  /** One complete add_* call appends exactly one entry to every list. */
  lemma StepComplete(v: Waveforms, c: CycleSpec, period: real)
    requires StepOk(v, c)
    ensures var w := Step(v, c, period);
      && w.tCurrent == v.tCurrent + period
      && w.times == v.times + [v.tCurrent]
      && w.comments == v.comments + [CycleComment(if c.kind == Noop then |v.times| else |v.comments|, v.tCurrent, c.comment)]
      && w.web == v.web + [Controls(c.kind).0]
      && w.oeb == v.oeb + [Controls(c.kind).1]
      && w.csb == v.csb + [Controls(c.kind).2]
      && |w.data| == |v.data| && |w.addr| == |v.addr|
      && (forall b :: 0 <= b < |v.data| ==> w.data[b] == v.data[b] + [BitOf(c.data[b])])
      && (forall a :: 0 <= a < |v.addr| ==> w.addr[a] == v.addr[a] + [BitOf(c.address[a])])
  {
  }

  lemma WellFormedPrefix(p: seq<CycleSpec>, n: nat, wordSize: nat, addrSize: nat)
    requires n <= |p| && WellFormed(p, wordSize, addrSize)
    ensures WellFormed(p[..n], wordSize, addrSize)
  {
    forall i | 0 <= i < n ensures WordOk(p[..n][i].data, wordSize) && WordOk(p[..n][i].address, addrSize) {
      assert p[..n][i] == p[i];
    }
  }

  /** Running cycles with the right word lengths keeps one list per pin,
      each holding one entry per cycle. */
  lemma {:induction false} BuildLanes(p: seq<CycleSpec>, period: real, wordSize: nat, addrSize: nat)
    requires WellFormed(p, wordSize, addrSize)
    ensures var w := Build(p, period, wordSize, addrSize);
      && |w.data| == wordSize && |w.addr| == addrSize
      && (forall b :: 0 <= b < wordSize ==> |w.data[b]| == |p|)
      && (forall a :: 0 <= a < addrSize ==> |w.addr[a]| == |p|)
  {
    if |p| > 0 {
      var n := |p| - 1;
      WellFormedPrefix(p, n, wordSize, addrSize);
      BuildLanes(p[..n], period, wordSize, addrSize);
      var v := Build(p[..n], period, wordSize, addrSize);
      StepComplete(v, p[n], period);
      assert Build(p, period, wordSize, addrSize) == Step(v, p[n], period);
    }
  }

  /** The running time after |p| cycles is |p| periods. */
  lemma {:induction false} BuildClock(p: seq<CycleSpec>, period: real, wordSize: nat, addrSize: nat)
    ensures Build(p, period, wordSize, addrSize).tCurrent == |p| as real * period
  {
    if |p| > 0 {
      var n := |p| - 1;
      BuildClock(p[..n], period, wordSize, addrSize);
      var v := Build(p[..n], period, wordSize, addrSize);
      assert Build(p, period, wordSize, addrSize) == Step(v, p[n], period);
      assert |p| as real * period == (n as real) * period + period;
    }
  }

  /** Every add_* call, complete or not, adds one entry to the time,
      comment and control lists. */
  lemma {:induction false} BuildShape(p: seq<CycleSpec>, period: real, wordSize: nat, addrSize: nat)
    ensures var w := Build(p, period, wordSize, addrSize);
      && |w.times| == |p| && |w.comments| == |p|
      && |w.web| == |p| && |w.oeb| == |p| && |w.csb| == |p|
  {
    if |p| > 0 {
      var n := |p| - 1;
      BuildShape(p[..n], period, wordSize, addrSize);
      var v := Build(p[..n], period, wordSize, addrSize);
      assert Build(p, period, wordSize, addrSize) == Step(v, p[n], period);
    }
  }

  /** Cycle i starts at i * period and is commented with its own number,
      start time and label. */
  lemma {:induction false} BuildTimes(p: seq<CycleSpec>, period: real, wordSize: nat, addrSize: nat)
    ensures var w := Build(p, period, wordSize, addrSize);
      && |w.times| == |p| && |w.comments| == |p|
      && forall i :: 0 <= i < |p| ==>
           w.times[i] == i as real * period && w.comments[i] == CycleComment(i, i as real * period, p[i].comment)
  {
    if |p| > 0 {
      var n := |p| - 1;
      BuildTimes(p[..n], period, wordSize, addrSize);
      BuildClock(p[..n], period, wordSize, addrSize);
      var v := Build(p[..n], period, wordSize, addrSize);
      var w := Build(p, period, wordSize, addrSize);
      assert w.times == v.times + [v.tCurrent];
      assert w.comments == v.comments + [CycleComment(n, v.tCurrent, p[n].comment)];
      forall i | 0 <= i < |p|
        ensures w.times[i] == i as real * period && w.comments[i] == CycleComment(i, i as real * period, p[i].comment)
      {
        if i < n {
          assert p[..n][i] == p[i];
          assert w.times[i] == v.times[i] && w.comments[i] == v.comments[i];
        }
      }
    }
  }

  /** Cycle i carries the (web, oeb, csb) levels of its kind. */
  lemma {:induction false} BuildControls(p: seq<CycleSpec>, period: real, wordSize: nat, addrSize: nat)
    ensures var w := Build(p, period, wordSize, addrSize);
      && |w.web| == |p| && |w.oeb| == |p| && |w.csb| == |p|
      && forall i :: 0 <= i < |p| ==> (w.web[i], w.oeb[i], w.csb[i]) == Controls(p[i].kind)
  {
    if |p| > 0 {
      var n := |p| - 1;
      BuildControls(p[..n], period, wordSize, addrSize);
      var v := Build(p[..n], period, wordSize, addrSize);
      var w := Build(p, period, wordSize, addrSize);
      assert w.web == v.web + [Controls(p[n].kind).0];
      assert w.oeb == v.oeb + [Controls(p[n].kind).1];
      assert w.csb == v.csb + [Controls(p[n].kind).2];
      forall i | 0 <= i < n ensures (w.web[i], w.oeb[i], w.csb[i]) == Controls(p[i].kind) {
        assert p[..n][i] == p[i];
      }
    }
  }

  /** When every data word has the right length and is binary, cycle i
      carries on every data pin the bit its data string has there. */
  lemma {:induction false} BuildData(p: seq<CycleSpec>, period: real, wordSize: nat, addrSize: nat)
    requires DataWellFormed(p, wordSize)
    ensures var w := Build(p, period, wordSize, addrSize);
      && |w.data| == wordSize
      && (forall b :: 0 <= b < wordSize ==> |w.data[b]| == |p|)
      && (forall b, i :: 0 <= b < wordSize && 0 <= i < |p| ==> w.data[b][i] == BitOf(p[i].data[b]))
  {
    if |p| > 0 {
      var n := |p| - 1;
      var q := p[..n];
      assert forall i :: 0 <= i < n ==> q[i] == p[i];
      BuildData(q, period, wordSize, addrSize);
      var v := Build(q, period, wordSize, addrSize);
      var w := Build(p, period, wordSize, addrSize);
      assert LaneProgress(p[n].data, wordSize) == wordSize;
      assert w.data == AppendBits(v.data, p[n].data, wordSize);
      forall b | 0 <= b < wordSize ensures w.data[b] == v.data[b] + [BitOf(p[n].data[b])] { }
    }
  }

  /** For well-formed cycles, cycle i carries on every address pin the bit
      its address string has there. */
  lemma {:induction false} BuildAddress(p: seq<CycleSpec>, period: real, wordSize: nat, addrSize: nat)
    requires WellFormed(p, wordSize, addrSize)
    ensures var w := Build(p, period, wordSize, addrSize);
      && |w.addr| == addrSize
      && (forall a :: 0 <= a < addrSize ==> |w.addr[a]| == |p|)
      && (forall a, i :: 0 <= a < addrSize && 0 <= i < |p| ==> w.addr[a][i] == BitOf(p[i].address[a]))
  {
    BuildLanes(p, period, wordSize, addrSize);
    if |p| > 0 {
      var n := |p| - 1;
      var q := p[..n];
      assert forall i :: 0 <= i < n ==> q[i] == p[i];
      BuildAddress(q, period, wordSize, addrSize);
      BuildLanes(q, period, wordSize, addrSize);
      var v := Build(q, period, wordSize, addrSize);
      var w := Build(p, period, wordSize, addrSize);
      assert WordOk(p[n].data, |v.data|);
      assert LaneProgress(p[n].address, addrSize) == addrSize;
      assert w.addr == AppendBits(v.addr, p[n].address, addrSize);
      forall a | 0 <= a < addrSize ensures w.addr[a] == v.addr[a] + [BitOf(p[n].address[a])] { }
    }
  }

  // Indices create_test_cycles records, counted from the cycles it adds.
  const Write0Cycle: nat := 2
  const Read0Cycle: nat := 4
  const IdleCycle: nat := 5
  const Write1Cycle: nat := 6
  const Read1Cycle: nat := 9

  /** The labels create_test_cycles gives its cycles. */
  const IdleStartLabel := "Idle cycle (no positive clock edge)"
  const WriteOnesScratchLabel := "W data 1 address 0..00"
  const WriteZeroProbeLabel := "W data 0 address 11..11 to write value"
  const ReadOnesScratchLabel := "R data 1 address 00..00 to set DOUT caps"
  const ReadZeroProbeLabel := "R data 0 address 11..11 to check W0 worked"
  const IdleAfterRead0Label := "Idle cycle (if read takes >1 cycle)"
  const WriteOneProbeLabel := "W data 1 address 11..11 to write value"
  const WriteZerosScratchLabel := "W data 0 address 00..00 to clear DIN caps"
  const ReadZerosScratchLabel := "R data 0 address 00..00 to clear DOUT caps"
  const ReadOneProbeLabel := "R data 1 address 11..11 to check W1 worked"
  const IdleEndLabel := "Idle cycle (if read takes >1 cycle))"

  /** The eleven cycles of create_test_cycles, in order, for a probe
      address, its scratch address and the all-ones and all-zeros words. */
  function TestCycleList(probe: string, inverse: string, ones: string, zeros: string): (p: seq<CycleSpec>)
    ensures |p| == 11
  {
    [ CycleSpec(Noop, IdleStartLabel, inverse, zeros),
      CycleSpec(Write, WriteOnesScratchLabel, inverse, ones),
      CycleSpec(Write, WriteZeroProbeLabel, probe, zeros),
      CycleSpec(Read, ReadOnesScratchLabel, inverse, zeros),
      CycleSpec(Read, ReadZeroProbeLabel, probe, zeros),
      CycleSpec(Noop, IdleAfterRead0Label, inverse, zeros),
      CycleSpec(Write, WriteOneProbeLabel, probe, ones),
      CycleSpec(Write, WriteZerosScratchLabel, inverse, zeros),
      CycleSpec(Read, ReadZerosScratchLabel, inverse, zeros),
      CycleSpec(Read, ReadOneProbeLabel, probe, zeros),
      CycleSpec(Noop, IdleEndLabel, probe, zeros) ]
  }

  /** The test program of a probe address: the scratch address is its
      complement and the data words are word-size runs of ones and zeros. */
  function TestProgram(probe: string, wordSize: nat): seq<CycleSpec>
  {
    TestCycleList(probe, Complement(probe), Repeat('1', wordSize), Repeat('0', wordSize))
  }

  /** The cycles that drive the probe address itself. */
  predicate ProbeCycle(i: nat) { i == 2 || i == 4 || i == 6 || i == 9 || i == 10 }

  /** The cycles that drive an all-ones data word. */
  predicate OnesCycle(i: nat) { i == 1 || i == 6 }

  /** The program has eleven cycles, each recorded index points at a cycle
      of its role, the probe cycles use the probe address and all others
      its complement, and only cycles 1 and 6 write ones. */
  lemma TestProgramShape(probe: string, wordSize: nat)
    ensures var p := TestProgram(probe, wordSize);
      && |p| == 11
      && p[Write0Cycle].kind == Write && p[Write1Cycle].kind == Write
      && p[Read0Cycle].kind == Read && p[Read1Cycle].kind == Read
      && p[IdleCycle].kind == Noop
      && (forall i :: 0 <= i < 11 ==> p[i].address == if ProbeCycle(i) then probe else Complement(probe))
      && (forall i :: 0 <= i < 11 ==> p[i].data == Repeat(if OnesCycle(i) then '1' else '0', wordSize))
    ensures IsBinary(probe) ==> WellFormed(TestProgram(probe, wordSize), wordSize, |probe|)
  {
  }

  /** For a binary probe address every cycle of the program passes both
      word checks when the address has addrSize bits, and otherwise every
      cycle stops at the address length check. */
  lemma TestProgramOutcomes(probe: string, wordSize: nat, addrSize: nat)
    requires IsBinary(probe)
    ensures var p := TestProgram(probe, wordSize);
      forall i :: 0 <= i < |p| ==>
        CycleOutcome(p[i], wordSize, addrSize) == if |probe| == addrSize then Pass else Fail(InvalidAddressSize)
  {
    TestProgramShape(probe, wordSize);
  }

  /** Create_test_cycles' timing for a binary probe address: eleven cycles
      at multiples of the period and the running time at eleven periods. */
  lemma TestCyclesTiming(probe: string, wordSize: nat, period: real)
    requires IsBinary(probe)
    ensures var w := Build(TestProgram(probe, wordSize), period, wordSize, |probe|);
      && |w.times| == 11 && w.tCurrent == 11.0 * period
      && (forall i :: 0 <= i < 11 ==> w.times[i] == i as real * period)
  {
    var p := TestProgram(probe, wordSize);
    BuildClock(p, period, wordSize, |probe|);
    BuildTimes(p, period, wordSize, |probe|);
  }

  /** The kinds of the eleven test cycles, in order. */
  const TestKinds: seq<OpKind> := [Noop, Write, Write, Read, Read, Noop, Write, Write, Read, Read, Noop]

  lemma TestCycleKinds(probe: string, inverse: string, ones: string, zeros: string)
    ensures forall i :: 0 <= i < 11 ==> TestCycleList(probe, inverse, ones, zeros)[i].kind == TestKinds[i]
  {
  }

  /** The control levels of cycles of the test kinds. */
  lemma KindLevels(web: seq<Bit>, oeb: seq<Bit>, csb: seq<Bit>)
    requires |web| == 11 && |oeb| == 11 && |csb| == 11
    requires forall i :: 0 <= i < 11 ==> (web[i], oeb[i], csb[i]) == Controls(TestKinds[i])
    ensures web == [1, 0, 0, 1, 1, 1, 0, 0, 1, 1, 1]
    ensures oeb == [1, 1, 1, 0, 0, 1, 1, 1, 0, 0, 1]
    ensures csb == [1, 0, 0, 0, 0, 1, 0, 0, 0, 0, 1]
  {
  }

  /** Create_test_cycles' control program for a binary probe address: the
      (web, oeb, csb) levels of every cycle. */
  lemma TestCyclesControls(probe: string, wordSize: nat, period: real)
    requires IsBinary(probe)
    ensures var w := Build(TestProgram(probe, wordSize), period, wordSize, |probe|);
      && w.web == [1, 0, 0, 1, 1, 1, 0, 0, 1, 1, 1]
      && w.oeb == [1, 1, 1, 0, 0, 1, 1, 1, 0, 0, 1]
      && w.csb == [1, 0, 0, 0, 0, 1, 0, 0, 0, 0, 1]
  {
    var p := TestProgram(probe, wordSize);
    BuildControls(p, period, wordSize, |probe|);
    TestCycleKinds(probe, Complement(probe), Repeat('1', wordSize), Repeat('0', wordSize));
    var w := Build(p, period, wordSize, |probe|);
    KindLevels(w.web, w.oeb, w.csb);
  }

  /** Create_test_cycles' data and address patterns for a binary probe
      address: ones on the data pins exactly in cycles 1 and 6, and on every
      address pin the probe bit in the probe cycles and its complement in
      all the others. */
  lemma TestCyclesPins(probe: string, wordSize: nat, period: real)
    requires IsBinary(probe)
    ensures var w := Build(TestProgram(probe, wordSize), period, wordSize, |probe|);
      && |w.data| == wordSize && |w.addr| == |probe|
      && (forall b :: 0 <= b < wordSize ==> w.data[b] == [0, 1, 0, 0, 0, 0, 1, 0, 0, 0, 0])
      && (forall a :: 0 <= a < |probe| ==> |w.addr[a]| == 11)
      && (forall a, i :: 0 <= a < |probe| && 0 <= i < 11 ==>
            w.addr[a][i] == if ProbeCycle(i) then BitOf(probe[a]) else 1 - BitOf(probe[a]))
  {
    var p := TestProgram(probe, wordSize);
    TestProgramShape(probe, wordSize);
    BuildData(p, period, wordSize, |probe|);
    BuildAddress(p, period, wordSize, |probe|);
    var w := Build(p, period, wordSize, |probe|);
    forall b | 0 <= b < wordSize ensures w.data[b] == [0, 1, 0, 0, 0, 0, 1, 0, 0, 0, 0] {
      assert forall i :: 0 <= i < 11 ==> w.data[b][i] == BitOf(p[i].data[b]);
    }
  }
}
