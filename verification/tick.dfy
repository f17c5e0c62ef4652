/**
 FreeRTOS_Tick_Handler: the periodic timer ISR. The kernel's
 xTaskIncrementTick is a collaborator outside the port, so its verdict is an
 input; configCLEAR_TICK_INTERRUPT expands to nothing in this configuration.
 */
module Tick {
  import opened Words
  import opened PortState
  import Critical

  /** The state the kernel's tick increment runs in: PMR raised to the API
      threshold (written with CPU IRQs briefly disabled). */
  function TickMasked(m: Machine, c: PortConstants): (r: Machine)
    requires c.Valid()
    ensures r.hw.pmr == ApiMask(c) && r.hw.cpuIrqEnabled
    ensures r.g == m.g
  {
    var hw := m.hw.(cpuIrqEnabled := false);   // CPSID i
    var hw := hw.(pmr := ApiMask(c));           // PMR := threshold
    m.(hw := hw.(cpuIrqEnabled := true))        // CPSIE i
  }

  /** One tick: mask, let the kernel advance time (`incremented` is its
      verdict), pend a yield if it asked for one, then unmask. */
  function TickHandler(m: Machine, c: PortConstants, incremented: bool): (r: Machine)
    requires c.Valid()
    ensures r.hw.pmr == UnmaskValue && r.hw.cpuIrqEnabled
    ensures r.hw.(pmr := m.hw.pmr, cpuIrqEnabled := m.hw.cpuIrqEnabled) == m.hw
    ensures r.g.yieldRequired <==> m.g.yieldRequired || incremented
    ensures r.g.criticalNesting == m.g.criticalNesting
    ensures r.g.interruptNesting == m.g.interruptNesting && r.g.taskHasFPU == m.g.taskHasFPU
  {
    var s := TickMasked(m, c);
    var s := if incremented then s.(g := s.g.(yieldRequired := true)) else s;
    s.(hw := Critical.ClearMask(s.hw))
  }

  /** A run of ticks, one kernel verdict per tick. */
  function Ticks(m: Machine, c: PortConstants, verdicts: seq<bool>): Machine
    requires c.Valid()
  {
    if |verdicts| == 0 then m
    else TickHandler(Ticks(m, c, verdicts[..|verdicts| - 1]), c, verdicts[|verdicts| - 1])
  }

  /** The tick never clears a pending yield: after a run of ticks one is
      pending exactly when it was before or some tick's increment asked for
      it; the critical nesting count is never touched and, after at least one
      tick, every priority is unmasked. */
  lemma {:induction false} TicksAccumulateYield(m: Machine, c: PortConstants, verdicts: seq<bool>)
    requires c.Valid()
    ensures var r := Ticks(m, c, verdicts);
            && (r.g.yieldRequired <==> m.g.yieldRequired || true in verdicts)
            && r.g.criticalNesting == m.g.criticalNesting
            && r.g.interruptNesting == m.g.interruptNesting
            && (|verdicts| > 0 ==> r.hw.pmr == UnmaskValue)
  {
    if |verdicts| > 0 {
      var init := verdicts[..|verdicts| - 1];
      TicksAccumulateYield(m, c, init);
      assert verdicts == init + [verdicts[|verdicts| - 1]];
      assert true in verdicts <==> true in init || verdicts[|verdicts| - 1];
    }
  }
}
