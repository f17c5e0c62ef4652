/**
 The GIC priority-mask controller (ulPortSetInterruptMask,
 vPortClearInterruptMask) and the critical-section nesting counter built on
 it (vPortEnterCritical, vPortExitCritical).

 Every PMR write is bracketed by CPSID i / CPSIE i, so on leaving any of
 these routines the CPU-level IRQ flag is set again; the barriers are not
 modelled.
 */
module Critical {
  import opened Words
  import opened Config
  import opened PortState

  const pdFALSE: uint32 := 0
  const pdTRUE: uint32 := 1
  const NoCriticalNesting: uint32 := 0
  /** __LINE__ of the interrupt-context assertion in vPortEnterCritical. */
  const EnterFromIsrLine: nat := 734

  /** portCLEAR_INTERRUPT_MASK: PMR := 0xFF with CPU IRQs disabled around the write. */
  function ClearMask(hw: Hardware): (r: Hardware)
    ensures r.pmr == UnmaskValue && r.cpuIrqEnabled
    ensures r.(pmr := hw.pmr, cpuIrqEnabled := hw.cpuIrqEnabled) == hw
  {
    hw.(pmr := UnmaskValue, cpuIrqEnabled := true)
  }

  datatype MaskResult = MaskResult(hw: Hardware, alreadyMasked: uint32)

  /** ulPortSetInterruptMask: raises PMR to the API threshold and reports
      (pdTRUE) whether it was already there. */
  function SetInterruptMask(hw: Hardware, c: PortConstants): (r: MaskResult)
    requires c.Valid()
    ensures r.hw.pmr == ApiMask(c) && r.hw.cpuIrqEnabled
    ensures r.alreadyMasked == pdTRUE <==> hw.pmr == ApiMask(c)
    ensures r.alreadyMasked == pdFALSE || r.alreadyMasked == pdTRUE
    ensures r.hw.(pmr := hw.pmr, cpuIrqEnabled := hw.cpuIrqEnabled) == hw
  {
    // CPSID i
    var hw := hw.(cpuIrqEnabled := false);
    var (hw, ret) :=
      if hw.pmr == ApiMask(c) then (hw, pdTRUE)
      else (hw.(pmr := ApiMask(c)), pdFALSE);
    // CPSIE i
    MaskResult(hw.(cpuIrqEnabled := true), ret)
  }

  /** vPortClearInterruptMask: only pdFALSE (the mask was not already raised)
      unmasks; any other value leaves the hardware alone. */
  function ClearInterruptMask(hw: Hardware, newMaskValue: uint32): (r: Hardware)
    ensures newMaskValue == pdFALSE ==> r.pmr == UnmaskValue && r.cpuIrqEnabled
    ensures newMaskValue != pdFALSE ==> r == hw
    ensures r.(pmr := hw.pmr, cpuIrqEnabled := hw.cpuIrqEnabled) == hw
  {
    if newMaskValue == pdFALSE then ClearMask(hw) else hw
  }

  /** The save/restore pairing: clearing with the value the set returned puts
      PMR back exactly when it was already at the threshold or fully unmasked. */
  lemma SetThenClearRestoresMask(hw: Hardware, c: PortConstants)
    requires c.Valid()
    ensures var s := SetInterruptMask(hw, c);
            var after := ClearInterruptMask(s.hw, s.alreadyMasked);
            && after.cpuIrqEnabled
            && (after.pmr == hw.pmr <==> hw.pmr == ApiMask(c) || hw.pmr == UnmaskValue)
  {
  }

  /** vPortEnterCritical. The assertion is reached only on the 0 -> 1 step. */
  function EnterCritical(m: Machine, c: PortConstants): (r: Outcome<Machine>)
    requires c.Valid()
    ensures r.state.hw.pmr == ApiMask(c) && r.state.hw.cpuIrqEnabled
    ensures r.state.hw.(pmr := m.hw.pmr, cpuIrqEnabled := m.hw.cpuIrqEnabled) == m.hw
    ensures r.state.g == m.g.(criticalNesting := AddU32(m.g.criticalNesting, 1))
    ensures r.AssertFailed? <==> m.g.criticalNesting == 0 && m.g.interruptNesting != 0
    ensures r.AssertFailed? ==> r.line == EnterFromIsrLine
  {
    var hw := SetInterruptMask(m.hw, c).hw;
    var m := Machine(hw, m.g.(criticalNesting := AddU32(m.g.criticalNesting, 1)));
    if m.g.criticalNesting == 1 then
      ConfigAssert(Truth(m.g.interruptNesting == 0), m, EnterFromIsrLine)
    else
      Continue(m)
  }

  /** vPortExitCritical: a count of zero is left alone; otherwise it is
      decremented and the mask is cleared only on reaching zero. */
  function ExitCritical(m: Machine): (r: Machine)
    ensures m.g.criticalNesting == NoCriticalNesting ==> r == m
    ensures m.g.criticalNesting > NoCriticalNesting ==>
              r.g == m.g.(criticalNesting := m.g.criticalNesting - 1)
    ensures m.g.criticalNesting == 1 ==> r.hw == ClearMask(m.hw)
    ensures m.g.criticalNesting != 1 ==> r.hw == m.hw
  {
    if m.g.criticalNesting > NoCriticalNesting then
      var m := m.(g := m.g.(criticalNesting := m.g.criticalNesting - 1));
      if m.g.criticalNesting == NoCriticalNesting then m.(hw := ClearMask(m.hw)) else m
    else
      m
  }

  /** n successive vPortEnterCritical calls, stopping at a failed assertion. */
  function EnterMany(m: Machine, c: PortConstants, n: nat): Outcome<Machine>
    requires c.Valid()
  {
    if n == 0 then Continue(m)
    else
      match EnterMany(m, c, n - 1)
      case AssertFailed(s, line) => AssertFailed(s, line)
      case Continue(s) => EnterCritical(s, c)
  }

  /** n successive vPortExitCritical calls. */
  function ExitMany(m: Machine, n: nat): Machine
  {
    if n == 0 then m else ExitCritical(ExitMany(m, n - 1))
  }

  /** From task level with no nesting, n entries never assert, count up to n
      and leave PMR at the threshold after every one of them. */
  lemma {:induction false} EnterManyFromTaskLevel(m: Machine, c: PortConstants, n: nat)
    requires c.Valid()
    requires m.g.criticalNesting == 0 && m.g.interruptNesting == 0
    requires n < WordModulus
    ensures EnterMany(m, c, n).Continue?
    ensures var s := EnterMany(m, c, n).state;
            && s.g == m.g.(criticalNesting := n)
            && (n > 0 ==> s.hw.pmr == ApiMask(c) && s.hw.cpuIrqEnabled)
            && s.hw.(pmr := m.hw.pmr, cpuIrqEnabled := m.hw.cpuIrqEnabled) == m.hw
  {
    if n > 0 {
      EnterManyFromTaskLevel(m, c, n - 1);
    }
  }

  /** Fewer exits than the current count only count down: the mask is never touched. */
  lemma {:induction false} ExitManyBelowCount(m: Machine, k: nat)
    requires k < m.g.criticalNesting
    ensures ExitMany(m, k).hw == m.hw
    ensures ExitMany(m, k).g == m.g.(criticalNesting := m.g.criticalNesting - k)
  {
    if k > 0 {
      ExitManyBelowCount(m, k - 1);
    }
  }

  /** Exiting exactly as many times as the count unmasks, on the last exit. */
  lemma ExitManyToZero(m: Machine)
    requires m.g.criticalNesting > 0
    ensures ExitMany(m, m.g.criticalNesting).g == m.g.(criticalNesting := 0)
    ensures ExitMany(m, m.g.criticalNesting).hw == ClearMask(m.hw)
  {
    ExitManyBelowCount(m, m.g.criticalNesting - 1);
  }

  /** Balanced nesting: n entries from task level then n exits end at count 0
      with every priority unmasked, and PMR holds the threshold at every
      point in between. */
  lemma BalancedCriticalSections(m: Machine, c: PortConstants, n: nat)
    requires c.Valid()
    requires m.g.criticalNesting == 0 && m.g.interruptNesting == 0
    requires 0 < n < WordModulus
    ensures EnterMany(m, c, n).Continue?
    ensures forall j :: 1 <= j <= n ==> EnterMany(m, c, j).state.hw.pmr == ApiMask(c)
    ensures forall i :: 0 <= i < n ==> ExitMany(EnterMany(m, c, n).state, i).hw.pmr == ApiMask(c)
    ensures var last := ExitMany(EnterMany(m, c, n).state, n);
            last.g == m.g && last.hw.pmr == UnmaskValue && last.hw.cpuIrqEnabled
  {
    forall j | 1 <= j <= n
      ensures EnterMany(m, c, j).state.hw.pmr == ApiMask(c)
    {
      EnterManyFromTaskLevel(m, c, j);
    }
    EnterManyFromTaskLevel(m, c, n);
    var top := EnterMany(m, c, n).state;
    forall i | 0 <= i < n
      ensures ExitMany(top, i).hw.pmr == ApiMask(c)
    {
      ExitManyBelowCount(top, i);
    }
    ExitManyToZero(top);
  }

  /** Before the first task runs the count is 9999: fewer than 9999 exits
      cannot unmask interrupts and only count down, leaving the other
      start-up globals (no interrupt nesting, no pending yield, no FPU
      context) as they were; the 9999th exit unmasks. */
  lemma StartupNestingKeepsMask(hw: Hardware, k: nat)
    requires k < 9999
    ensures var m := Machine(hw, InitialGlobals);
            && ExitMany(m, k).hw == hw
            && ExitMany(m, k).g == Globals(9999 - k, 0, false, false)
            && ExitMany(m, 9999).hw.pmr == UnmaskValue
            && ExitMany(m, 9999).g == Globals(0, 0, false, false)
  {
    var m := Machine(hw, InitialGlobals);
    ExitManyBelowCount(m, k);
    ExitManyToZero(m);
  }
}
