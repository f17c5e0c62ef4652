/**
 State of the Cortex-A9 port layer: the slice of the GIC CPU interface and
 of the CPU that the port touches, the port's own globals, and the constants
 that the port's portmacro.h supplies (portmacro.h is not part of this model,
 so those constants are parameters with the relations the port relies on).
 */
module PortState {
  import opened Words
  import Config

  /** Writing this to GICC_PMR unmasks every priority but the lowest. */
  const UnmaskValue: uint32 := 0xFF
  /** The mode field of the APSR/CPSR is bits [4:0], so `psr & 0x1F` is
      `psr % ModeFieldSize`. */
  const ModeFieldSize: nat := 0x20
  const UserMode: nat := 0x10
  /** `bpr & portBINARY_POINT_BITS` (0x03) is `bpr % BinaryPointFieldSize`. */
  const BinaryPointFieldSize: nat := 4

  /** The hardware the port reads and writes. `apsr` is the whole status
      register; its mode field is `ModeBits(apsr)`. `tickArmed` records that
      the tick collaborator (vSetupTickInterrupt) has been called. */
  datatype Hardware = Hardware(
    pmr: uint32,
    bpr: uint32,
    rpr: uint32,
    prio0: uint8,
    cpuIrqEnabled: bool,
    apsr: uint32,
    tickArmed: bool)

  /** The port.c globals ulCriticalNesting, ulPortInterruptNesting,
      ulPortYieldRequired and ulPortTaskHasFPUContext. */
  datatype Globals = Globals(
    criticalNesting: uint32,
    interruptNesting: uint32,
    yieldRequired: bool,
    taskHasFPU: bool)

  datatype Machine = Machine(hw: Hardware, g: Globals)

  /** portPRIORITY_SHIFT, portLOWEST_INTERRUPT_PRIORITY and
      portMAX_BINARY_POINT_VALUE. */
  datatype PortConstants = PortConstants(priorityShift: nat, lowestPriority: nat, maxBinaryPoint: nat)
  {
    /** The relations the port depends on: the shifted API priority is a
        valid 8-bit GICC_PMR value and the lowest priority fits the 8-bit
        priority field the probe reads back. */
    predicate Valid()
    {
      && ApiMask(this) <= 0xFF
      && lowestPriority <= 0xFF
    }
  }

  /** configMAX_API_CALL_INTERRUPT_PRIORITY << portPRIORITY_SHIFT: the PMR
      value that masks every interrupt allowed to call the kernel API. */
  function ApiMask(c: PortConstants): nat
  {
    Config.MaxApiCallInterruptPriority * Pow2(c.priorityShift)
  }

  function ModeBits(psr: uint32): (m: nat)
    ensures m < ModeFieldSize
  {
    psr % ModeFieldSize
  }

  function BinaryPoint(bpr: uint32): (b: nat)
    ensures b < BinaryPointFieldSize
  {
    bpr % BinaryPointFieldSize
  }

  /** The globals as initialised before any task runs: a non-zero nesting
      count keeps interrupts masked until the first task's frame (nesting 0)
      is restored; no yield is pending and no task owns an FPU context. */
  const InitialGlobals: Globals := Globals(9999, 0, false, false)

  /** The relations hold for the values a 256-priority GIC port uses. */
  lemma ConstantsForConfiguredGic()
    ensures PortConstants(0, 255, 0).Valid()
    ensures ApiMask(PortConstants(0, 255, 0)) == 200
    ensures !PortConstants(1, 255, 0).Valid()
  {
  }
}
