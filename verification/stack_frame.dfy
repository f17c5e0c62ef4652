/**
 The initial task frame built by pxPortInitialiseStack, and the order in
 which the context-restore path pops a frame back into registers.

 A task stack is a sequence of 32-bit words indexed by word address; the
 builder writes downwards from the index it is given. The restore order
 (FPU flag, optional FPU block, critical nesting, R0-R12, R14, then PC and
 SPSR for RFEIA) is the one the port's own restore simulation walks.
 */
module StackFrame {
  import opened Words
  import Config
  import opened PortState

  const InitialSpsr: Word := 0x1F         // System mode, ARM state, IRQ and FIQ enabled
  const ThumbModeBit: Word := 0x20
  const InterruptDisableBit: Word := 0x80
  const ThumbModeAddress: Word := 0x01
  const NoCriticalNesting: Word := 0
  const NoFloatingPointContext: Word := 0
  /** 32 double-precision registers plus FPSCR. */
  const FpuRegisterWords: nat := 32 * 2 + 1

  /** Debug sentinel loaded into R1..R12 of a new task. */
  function Sentinel(k: nat): Word
    requires 1 <= k <= 12
  {
    [0x01010101, 0x02020202, 0x03030303, 0x04040404, 0x05050505, 0x06060606,
     0x07070707, 0x08080808, 0x09090909, 0x10101010, 0x11111111, 0x12121212][k - 1]
  }

  /** Words below the given top that the builder writes, besides the top word itself. */
  function FrameDepth(fpuMode: nat): nat
    requires Config.FpuSupportValid(fpuMode)
  {
    if fpuMode == 1 then 19 else 19 + FpuRegisterWords
  }

  datatype FrameResult = FrameResult(stack: seq<Word>, top: nat, g: Globals)

  /** The status word a task starts with: System mode with interrupts
      enabled, plus the Thumb bit when the entry address has bit 0 set. */
  function StartSpsr(code: Word): Word
  {
    if code & ThumbModeAddress != 0 then InitialSpsr | ThumbModeBit else InitialSpsr
  }

  /** The nineteen words pxPortInitialiseStack writes from pxTopOfStack
      downwards, listed here from the lowest address up: critical nesting,
      R0, R1..R12, R14, then PC below SPSR as RFEIA expects, and the two
      NULL words it writes first. */
  function CoreFrame(code: Word, params: Word, exitAddr: Word): (f: seq<Word>)
    ensures |f| == 19
  {
    [NoCriticalNesting, params] + seq(12, i requires 0 <= i < 12 => Sentinel(i + 1))
    + [exitAddr, code, StartSpsr(code), 0, 0]
  }

  /** The words below the core frame: the no-FPU flag alone in mode 1; in
      mode 2 the pdTRUE flag under the zeroed (memset) FPU register block. */
  function FpuHeader(fpuMode: nat): (h: seq<Word>)
    requires Config.FpuSupportValid(fpuMode)
    ensures |h| == FrameDepth(fpuMode) - 18
  {
    if fpuMode == 1 then [NoFloatingPointContext] else [1] + seq(FpuRegisterWords, _ => 0)
  }

  /** Overwrites s[p .. p + |block|] with block. */
  function Splice(s: seq<Word>, p: nat, block: seq<Word>): (r: seq<Word>)
    requires p + |block| <= |s|
    ensures |r| == |s|
    ensures forall i :: 0 <= i < |s| && (i < p || p + |block| <= i) ==> r[i] == s[i]
    ensures forall j :: 0 <= j < |block| ==> r[p + j] == block[j]
  {
    s[..p] + block + s[p + |block|..]
  }

  /** pxPortInitialiseStack: the frame written below `top` (pxTopOfStack) for a
      task entered at `code` with argument `params`; `exitAddr` is
      portTASK_RETURN_ADDRESS. The caller guarantees the stack has room. Only
      the words in [result, top] change; in FPU mode 2 the global FPU flag is
      set as well. */
  function InitialiseStack(stack: seq<Word>, top: nat, code: Word, params: Word, exitAddr: Word,
                           fpuMode: nat, g: Globals): (r: FrameResult)
    requires Config.FpuSupportValid(fpuMode)
    requires FrameDepth(fpuMode) <= top < |stack|
    ensures |r.stack| == |stack|
    ensures r.top == top - FrameDepth(fpuMode)
    ensures forall i :: 0 <= i < |stack| && (i < r.top || top < i) ==> r.stack[i] == stack[i]
    ensures forall j :: 0 <= j < 19 ==> r.stack[top - 18 + j] == CoreFrame(code, params, exitAddr)[j]
    ensures forall j :: 0 <= j < FrameDepth(fpuMode) - 18 ==> r.stack[r.top + j] == FpuHeader(fpuMode)[j]
    ensures r.g == if fpuMode == 2 then g.(taskHasFPU := true) else g
  {
    var p := top - FrameDepth(fpuMode);
    var s := Splice(stack, p, FpuHeader(fpuMode) + CoreFrame(code, params, exitAddr));
    FrameResult(s, p, if fpuMode == 2 then g.(taskHasFPU := true) else g)
  }

  /** vPortTaskUsesFPU (compiled only when FPU support is not 2): the running
      task now owns an FPU context. The FPSCR write is not modelled. */
  function TaskUsesFpu(g: Globals, fpuMode: nat): (r: Globals)
    requires fpuMode != 2
    ensures r.taskHasFPU
    ensures r.criticalNesting == g.criticalNesting && r.interruptNesting == g.interruptNesting
    ensures r.yieldRequired == g.yieldRequired
  {
    g.(taskHasFPU := true)
  }

  /** The FPU support mode is fixed when the port is built, not read from the
      global flag: once a task has registered FPU use, a frame built for a
      new task in mode 1 is still the flag-only frame with a zero FPU flag,
      and building it leaves the registered flag set. */
  lemma TaskUsesFpuKeepsFlagOnlyFrame(stack: seq<Word>, top: nat, code: Word, params: Word, exitAddr: Word,
                                      g: Globals)
    requires 19 <= top < |stack|
    ensures var r := InitialiseStack(stack, top, code, params, exitAddr, 1, TaskUsesFpu(g, 1));
            && r.top == top - 19
            && r.stack == InitialiseStack(stack, top, code, params, exitAddr, 1, g).stack
            && r.stack[r.top] == NoFloatingPointContext
            && r.g.taskHasFPU
  {
    var r := InitialiseStack(stack, top, code, params, exitAddr, 1, TaskUsesFpu(g, 1));
    assert r.stack[r.top + 0] == FpuHeader(1)[0];
  }

  /** A task context as the restore path sees it. */
  datatype TaskContext = TaskContext(
    fpuFlag: Word,
    fpuRegs: seq<Word>,
    criticalNesting: Word,
    regs: seq<Word>,      // R0..R12
    lr: Word,
    pc: Word,
    cpsr: Word)

  /** Pops a frame starting at p, lowest address first: the FPU flag, the
      FPU block when the flag is not portNO_FLOATING_POINT_CONTEXT, the
      critical nesting count, R0..R12, R14, then PC and CPSR as RFEIA loads
      them. None when the frame would run past the end of the stack. */
  function RestoreView(stack: seq<Word>, p: nat): (c: Option<TaskContext>)
    ensures c.Some? ==> |c.value.regs| == 13
  {
    if p >= |stack| then None
    else
      var flag := stack[p];
      var q := if flag != NoFloatingPointContext then p + 1 + FpuRegisterWords else p + 1;
      if q + 17 > |stack| then None
      else
        Some(TaskContext(flag, stack[p + 1 .. q], stack[q], stack[q + 1 .. q + 14],
                         stack[q + 14], stack[q + 15], stack[q + 16]))
  }

  lemma CoreFrameFields(code: Word, params: Word, exitAddr: Word)
    ensures var f := CoreFrame(code, params, exitAddr);
            && f[0] == NoCriticalNesting && f[1] == params
            && (forall k :: 1 <= k <= 12 ==> f[1 + k] == Sentinel(k))
            && f[14] == exitAddr && f[15] == code && f[16] == StartSpsr(code)
            && f[17] == 0 && f[18] == 0
  {
    var f := CoreFrame(code, params, exitAddr);
    var mid := seq(12, i requires 0 <= i < 12 => Sentinel(i + 1));
    assert f == [NoCriticalNesting, params] + mid + [exitAddr, code, StartSpsr(code), 0, 0];
    forall k | 1 <= k <= 12
      ensures f[1 + k] == Sentinel(k)
    {
      assert f[1 + k] == mid[k - 1];
    }
  }

  lemma FpuHeaderFields(fpuMode: nat)
    requires Config.FpuSupportValid(fpuMode)
    ensures FpuHeader(fpuMode)[0] == (if fpuMode == 1 then NoFloatingPointContext else 1)
    ensures forall i :: 1 <= i < |FpuHeader(fpuMode)| ==> FpuHeader(fpuMode)[i] == 0
  {
  }

  lemma StartSpsrFields(code: Word)
    ensures StartSpsr(code) == (if code & 1 != 0 then 0x3F else 0x1F)
    ensures StartSpsr(code) & 0x1F == 0x1F
    ensures StartSpsr(code) & InterruptDisableBit == 0
    ensures StartSpsr(code) & ThumbModeBit != 0 <==> code & ThumbModeAddress != 0
  {
  }

  /** Launching a freshly built frame enters `code` with `params` in R0, a
      nesting count of zero and a System-mode, interrupts-enabled CPSR whose
      Thumb bit follows bit 0 of the entry address; the FPU flag says whether
      a (zeroed) FPU block was restored. */
  lemma InitialFrameRestoresEntry(stack: seq<Word>, top: nat, code: Word, params: Word, exitAddr: Word,
                                  fpuMode: nat, g: Globals)
    requires Config.FpuSupportValid(fpuMode)
    requires FrameDepth(fpuMode) <= top < |stack|
    ensures var r := InitialiseStack(stack, top, code, params, exitAddr, fpuMode, g);
            var c := RestoreView(r.stack, r.top);
            && c.Some?
            && c.value.pc == code
            && c.value.regs[0] == params
            && (forall k :: 1 <= k <= 12 ==> c.value.regs[k] == Sentinel(k))
            && c.value.lr == exitAddr
            && c.value.criticalNesting == NoCriticalNesting
            && c.value.cpsr & 0x1F == 0x1F
            && c.value.cpsr & InterruptDisableBit == 0
            && (c.value.cpsr & ThumbModeBit != 0 <==> code & ThumbModeAddress != 0)
            && (fpuMode == 1 <==> c.value.fpuFlag == NoFloatingPointContext)
            && |c.value.fpuRegs| == (if fpuMode == 1 then 0 else FpuRegisterWords)
            && (forall i :: 0 <= i < |c.value.fpuRegs| ==> c.value.fpuRegs[i] == 0)
  {
    var r := InitialiseStack(stack, top, code, params, exitAddr, fpuMode, g);
    FpuHeaderFields(fpuMode);
    assert r.stack[r.top + 0] == FpuHeader(fpuMode)[0];
    forall i | r.top + 1 <= i < top - 18
      ensures r.stack[i] == 0
    {
      assert r.stack[r.top + (i - r.top)] == FpuHeader(fpuMode)[i - r.top];
    }
    RestoreSeesCoreFrame(r.stack, r.top, top - 18, code, params, exitAddr);
  }

  /** The restore path, started at a flag word whose FPU block (if any) ends
      just below a core frame, pops exactly that core frame. */
  lemma RestoreSeesCoreFrame(s: seq<Word>, p: nat, q: nat, code: Word, params: Word, exitAddr: Word)
    requires p < q && q + 19 <= |s|
    requires q == if s[p] != NoFloatingPointContext then p + 1 + FpuRegisterWords else p + 1
    requires forall j :: 0 <= j < 19 ==> s[q + j] == CoreFrame(code, params, exitAddr)[j]
    ensures var c := RestoreView(s, p);
            && c.Some?
            && c.value.fpuFlag == s[p]
            && c.value.fpuRegs == s[p + 1 .. q]
            && c.value.pc == code
            && c.value.regs[0] == params
            && (forall k :: 1 <= k <= 12 ==> c.value.regs[k] == Sentinel(k))
            && c.value.lr == exitAddr
            && c.value.criticalNesting == NoCriticalNesting
            && c.value.cpsr == StartSpsr(code)
  {
    var core := CoreFrame(code, params, exitAddr);
    CoreFrameFields(code, params, exitAddr);
    var ctx := RestoreView(s, p).value;
    assert ctx.criticalNesting == s[q + 0] == core[0];
    assert ctx.regs[0] == s[q + 1] == core[1];
    forall k | 1 <= k <= 12
      ensures ctx.regs[k] == Sentinel(k)
    {
      assert ctx.regs[k] == s[q + (1 + k)] == core[1 + k];
    }
    assert ctx.lr == s[q + 14] == core[14];
    assert ctx.pc == s[q + 15] == core[15];
    assert ctx.cpsr == s[q + 16] == core[16];
  }

  /** The FPU-mode-1 frame walked upward from the returned pointer p: twenty
      words, flag, nesting, R0..R12, R14, PC, SPSR and the two zero guards. */
  lemma FlagOnlyFrameLayout(stack: seq<Word>, top: nat, code: Word, params: Word, exitAddr: Word, g: Globals)
    requires 19 <= top < |stack|
    ensures var r := InitialiseStack(stack, top, code, params, exitAddr, 1, g);
            var p := r.top;
            && p == top - 19
            && r.stack[p] == 0 && r.stack[p + 1] == 0
            && r.stack[p + 2] == params
            && (forall k :: 1 <= k <= 12 ==> r.stack[p + 2 + k] == Sentinel(k))
            && r.stack[p + 15] == exitAddr
            && r.stack[p + 16] == code
            && r.stack[p + 17] == (if code & 1 != 0 then 0x3F else 0x1F)
            && r.stack[p + 18] == 0 && r.stack[p + 19] == 0
            && r.stack[..p] == stack[..p] && r.stack[p + 20..] == stack[p + 20..]
  {
    var r := InitialiseStack(stack, top, code, params, exitAddr, 1, g);
    var core := CoreFrame(code, params, exitAddr);
    CoreFrameFields(code, params, exitAddr);
    var p := r.top;
    var q := p + 1;
    assert r.stack[p] == FpuHeader(1)[0];
    assert r.stack[q + 0] == core[0];
    assert r.stack[q + 1] == core[1];
    forall k | 1 <= k <= 12
      ensures r.stack[p + 2 + k] == Sentinel(k)
    {
      assert r.stack[q + (1 + k)] == core[1 + k];
    }
    assert r.stack[q + 14] == core[14];
    assert r.stack[q + 15] == core[15];
    assert r.stack[q + 16] == core[16];
    assert r.stack[q + 17] == core[17];
    assert r.stack[q + 18] == core[18];
    StartSpsrFields(code);
    assert r.stack[..p] == stack[..p];
    assert r.stack[p + 20..] == stack[p + 20..];
  }

  /** The configured build (FPU support 1) reserves exactly 20 words. */
  lemma ConfiguredFrameSize()
    ensures FrameDepth(Config.UseTaskFpuSupport) + 1 == 20
    ensures FrameDepth(2) + 1 == 85
  {
  }
}
