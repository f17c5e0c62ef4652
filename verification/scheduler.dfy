/**
 The validation part of xPortStartScheduler and vPortValidateInterruptPriority.

 The start sequence probes the GIC's implemented priority bits by writing
 0xFF to the first priority byte and reading back which bits stuck
 (section 3.3 of the ARM GIC Architecture Specification v2.0), checks the
 processor is not in User mode (mode field, bits [4:0] of the CPSR, section
 B1.3 of the ARMv7-A Architecture Reference Manual) and checks GICC_BPR.
 The first context restore itself lives in assembly that is not part of this
 model: a start that gets that far is reported as FirstTaskStarted.
 */
module Scheduler {
  import opened Words
  import opened Config
  import opened PortState

  /** __LINE__ of each configASSERT reached here. */
  const PriorityBitsLine: nat := 444
  const UserModeLine: nat := 466
  const RunningPriorityLine: nat := 855
  const BinaryPointLine: nat := 867

  /** The probe loop: shift right until bit 0 is set. It does not terminate
      for zero, which callers must rule out. */
  function ShiftToBit0(v: uint8): (r: uint8)
    requires v != 0
    ensures r % 2 == 1 && 0 < r <= v
    decreases v
  {
    if v % 2 == 1 then v else ShiftToBit0(v / 2)
  }

  /** Bits a GIC with `bits` implemented priority bits leaves set after 0xFF
      is written: the top `bits` bits of the byte. */
  function ReadBackOfAllOnes(bits: nat): (r: uint8)
    requires 1 <= bits <= 8
    ensures r >= 0x80
  {
    Pow2Split(bits, 8 - bits);
    Pow2Monotone(8 - bits, 7);
    0x100 - Pow2(8 - bits)
  }

  lemma {:induction false} ShiftUndoesPow2(x: nat, k: nat)
    requires x % 2 == 1 && x * Pow2(k) < 0x100
    ensures ShiftToBit0(x * Pow2(k)) == x
  {
    if k > 0 {
      assert x * Pow2(k) == 2 * (x * Pow2(k - 1));
      assert (x * Pow2(k)) % 2 == 0;
      assert (x * Pow2(k)) / 2 == x * Pow2(k - 1);
      ShiftUndoesPow2(x, k - 1);
    }
  }

  /** The probe recovers the largest priority value the GIC implements:
      2^bits - 1. */
  lemma ProbeFindsImplementedBits(bits: nat)
    requires 1 <= bits <= 8
    ensures ShiftToBit0(ReadBackOfAllOnes(bits)) == Pow2(bits) - 1
  {
    var mask: nat := Pow2(bits) - 1;
    ReadBackFactors(bits);
    MaskIsOdd(bits);
    assert ReadBackOfAllOnes(bits) == mask * Pow2(8 - bits);
    ShiftUndoesPow2(mask, 8 - bits);
  }

  lemma MaskIsOdd(bits: nat)
    requires bits >= 1
    ensures (Pow2(bits) - 1) % 2 == 1
  {
    var half := Pow2(bits - 1);
    assert Pow2(bits) - 1 == (half - 1) * 2 + 1;
    DivModUnique(Pow2(bits) - 1, 2, half - 1, 1);
  }

  /** The read-back is the implemented-bits mask shifted up to the top of the byte. */
  lemma ReadBackFactors(bits: nat)
    requires 1 <= bits <= 8
    ensures ReadBackOfAllOnes(bits) == (Pow2(bits) - 1) * Pow2(8 - bits)
  {
    var hi: int, lo: int := Pow2(bits), Pow2(8 - bits);
    Pow2Monotone(8 - bits, 7);
    Pow2Split(bits, 8 - bits);
    assert (hi - 1) * lo == hi * lo - lo;
  }

  lemma {:induction false} Pow2Monotone(a: nat, b: nat)
    requires a <= b
    ensures Pow2(a) <= Pow2(b)
  {
    if a < b {
      Pow2Monotone(a, b - 1);
    }
  }

  lemma {:induction false} Pow2Split(a: nat, b: nat)
    ensures Pow2(a + b) == Pow2(a) * Pow2(b)
  {
    if a > 0 {
      Pow2Split(a - 1, b);
    }
  }

  datatype StartOutcome =
    | ProbeHangs(m: Machine)                   // the read-back was 0: the shift loop never ends
    | StartAssertFailed(m: Machine, line: nat) // configASSERT halted the start
    | ReturnedZero(m: Machine)                 // xPortStartScheduler returned 0
    | FirstTaskStarted(m: Machine)             // handed to the first context restore

  /** xPortStartScheduler up to the first context restore. `readBack` is the
      value the priority byte holds after 0xFF is written to it. */
  function StartScheduler(m: Machine, c: PortConstants, readBack: uint8): (r: StartOutcome)
    ensures r.ProbeHangs? <==> readBack == 0
    ensures r.FirstTaskStarted? <==>
              && readBack != 0 && ShiftToBit0(readBack) == c.lowestPriority
              && ModeBits(m.hw.apsr) != UserMode
              && BinaryPoint(m.hw.bpr) <= c.maxBinaryPoint
    ensures r.StartAssertFailed? && r.line == PriorityBitsLine <==>
              readBack != 0 && ShiftToBit0(readBack) != c.lowestPriority
    ensures r.StartAssertFailed? && r.line == UserModeLine <==>
              readBack != 0 && ShiftToBit0(readBack) == c.lowestPriority && ModeBits(m.hw.apsr) == UserMode
    ensures r.StartAssertFailed? ==> r.line == PriorityBitsLine || r.line == UserModeLine
    // the clobbered priority byte is restored only once the probe assertion passed
    ensures r.ProbeHangs? || (r.StartAssertFailed? && r.line == PriorityBitsLine) ==>
              r.m == m.(hw := m.hw.(prio0 := readBack))
    ensures r.ReturnedZero? || (r.StartAssertFailed? && r.line == UserModeLine) ==> r.m == m
    ensures r.FirstTaskStarted? ==>
              r.m == m.(hw := m.hw.(cpuIrqEnabled := false, tickArmed := true))
  {
    var original := m.hw.prio0;
    var m := m.(hw := m.hw.(prio0 := readBack));
    if readBack == 0 then
      ProbeHangs(m)
    else
      var maxPriority := ShiftToBit0(readBack);
      match ConfigAssert(Truth(maxPriority == c.lowestPriority), m, PriorityBitsLine)
      case AssertFailed(s, line) => StartAssertFailed(s, line)
      case Continue(m) =>
        var m := m.(hw := m.hw.(prio0 := original));
        var mode := ModeBits(m.hw.apsr);
        match ConfigAssert(Truth(mode != UserMode), m, UserModeLine)
        case AssertFailed(s, line) => StartAssertFailed(s, line)
        case Continue(m) =>
          if BinaryPoint(m.hw.bpr) <= c.maxBinaryPoint then
            // CPSID i, then configSETUP_TICK_INTERRUPT() = vSetupTickInterrupt()
            var m := m.(hw := m.hw.(cpuIrqEnabled := false));
            FirstTaskStarted(m.(hw := m.hw.(tickArmed := true)))
          else
            ReturnedZero(m)
  }

  /** On a GIC that implements `bits` priority bits the start gets past the
      probe exactly when portLOWEST_INTERRUPT_PRIORITY is 2^bits - 1. */
  lemma StartMatchesImplementedBits(m: Machine, c: PortConstants, bits: nat)
    requires 1 <= bits <= 8
    ensures var r := StartScheduler(m, c, ReadBackOfAllOnes(bits));
            (r.StartAssertFailed? && r.line == PriorityBitsLine) <==> c.lowestPriority != Pow2(bits) - 1
  {
    ProbeFindsImplementedBits(bits);
  }

  /** vPortValidateInterruptPriority: the running priority must be at or
      below (numerically at or above) the API threshold, and the binary point
      must leave every priority bit a pre-emption bit. */
  function ValidateInterruptPriority(m: Machine, c: PortConstants): (r: Outcome<Machine>)
    ensures r.state == m
    ensures r.Continue? <==> m.hw.rpr >= ApiMask(c) && BinaryPoint(m.hw.bpr) <= c.maxBinaryPoint
    ensures r.AssertFailed? ==> r.line == (if m.hw.rpr < ApiMask(c) then RunningPriorityLine else BinaryPointLine)
  {
    match ConfigAssert(Truth(m.hw.rpr >= ApiMask(c)), m, RunningPriorityLine)
    case AssertFailed(s, line) => AssertFailed(s, line)
    case Continue(m) =>
      ConfigAssert(Truth(BinaryPoint(m.hw.bpr) <= c.maxBinaryPoint), m, BinaryPointLine)
  }

  /** A started scheduler has a binary point that the run-time validation
      accepts: an ISR at or below the threshold passes it. */
  lemma StartedSchedulerPassesValidation(m: Machine, c: PortConstants, readBack: uint8)
    requires StartScheduler(m, c, readBack).FirstTaskStarted?
    ensures var s := StartScheduler(m, c, readBack).m;
            forall rpr: uint32 :: rpr >= ApiMask(c) ==>
              ValidateInterruptPriority(s.(hw := s.hw.(rpr := rpr)), c).Continue?
  {
  }
}
