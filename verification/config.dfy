/**
 The application's static kernel configuration (FreeRTOSConfig.h) as the port
 layer sees it: the numeric constants it is parameterised by, the
 compile-time guards port.c places on them, and the configASSERT macro.
 */
module Config {

  const MaxPriorities: nat := 10
  const TotalHeapSize: nat := 65 * 1024
  const UniqueInterruptPriorities: nat := 256
  const UsePortOptimisedTaskSelection: nat := 1
  const MaxApiCallInterruptPriority: nat := 200
  const UseTaskFpuSupport: nat := 1

  /** The preprocessor guards of port.c, which refuse to compile a port whose
      configuration breaks them. */
  predicate PortGuardsHold(maxApiPriority: nat, uniquePriorities: nat, optimisedSelection: nat, maxPriorities: nat)
  {
    && maxApiPriority != 0
    && maxApiPriority <= uniquePriorities
    && (optimisedSelection == 1 ==> maxPriorities <= 32)
    // guards against a security-extension GIC halving the visible priorities
    && maxApiPriority > uniquePriorities / 2
  }

  /** Only FPU support modes 1 and 2 compile: any other value hits #error. */
  predicate FpuSupportValid(mode: nat)
  {
    mode == 1 || mode == 2
  }

  lemma ConfigurationPassesPortGuards()
    ensures PortGuardsHold(MaxApiCallInterruptPriority, UniqueInterruptPriorities,
                           UsePortOptimisedTaskSelection, MaxPriorities)
    ensures 0 < MaxApiCallInterruptPriority <= UniqueInterruptPriorities
    ensures MaxApiCallInterruptPriority > UniqueInterruptPriorities / 2
    ensures MaxPriorities <= 32
  {
  }

  /** The half-range guard is not vacuous: the boundary value itself is refused. */
  lemma HalfRangeGuardIsStrict(uniquePriorities: nat)
    requires uniquePriorities >= 2
    ensures !PortGuardsHold(uniquePriorities / 2, uniquePriorities, 0, 0)
    ensures !PortGuardsHold(0, uniquePriorities, 0, 0)
  {
  }

  lemma ConfiguredFpuSupportIsFlagOnly()
    ensures FpuSupportValid(UseTaskFpuSupport) && UseTaskFpuSupport == 1
  {
  }

  lemma HeapSizeIsWordMultiple()
    ensures TotalHeapSize == 66560 && TotalHeapSize % 4 == 0
  {
  }

  /** The result of a step that may reach configASSERT: vAssertCalled never
      returns, so a failed assertion halts with the state at that point and the
      __LINE__ it was raised on. */
  datatype Outcome<S> = Continue(state: S) | AssertFailed(state: S, line: nat)

  /** configASSERT(x): calls vAssertCalled(line, file) exactly when x is zero. */
  function ConfigAssert<S>(x: int, s: S, line: nat): (r: Outcome<S>)
    ensures r.AssertFailed? <==> x == 0
    ensures r.state == s
    ensures r.AssertFailed? ==> r.line == line
  {
    if x == 0 then AssertFailed(s, line) else Continue(s)
  }

  /** C truth value of a comparison, as fed to configASSERT. */
  function Truth(b: bool): (x: int)
    ensures x == 0 <==> !b
  {
    if b then 1 else 0
  }
}
