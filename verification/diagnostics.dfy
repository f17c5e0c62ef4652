/**
 The diagnostic helpers of the memory-debug programs and of vAssertCalled:
 decoding the processor mode from a CPSR value (mode field M[4:0], section
 B1.3.1 of the ARMv7-A Architecture Reference Manual), the per-cycle painting
 patterns, and the classification of a failed assertion by file and line.
 */
module Diagnostics {
  import opened Words
  import opened PortState
  import Uart

  // ---- processor mode ---------------------------------------------------

  datatype Mode = User | Supervisor | System | Abort | Undefined | Irq | Fiq | Unknown(bits: nat)

  /** The switch of analyze_execution_context in main_memory_debug.c. */
  function DecodeMode(cpsr: uint32): (m: Mode)
    ensures m.Unknown? ==> m.bits == ModeBits(cpsr)
  {
    match ModeBits(cpsr)
    case 0x10 => User
    case 0x13 => Supervisor
    case 0x1F => System
    case 0x17 => Abort
    case 0x1B => Undefined
    case 0x12 => Irq
    case 0x11 => Fiq
    case other => Unknown(other)
  }

  /** The mode field each named mode stands for. */
  function ModeBitsOf(m: Mode): nat
  {
    match m
    case User => 0x10
    case Supervisor => 0x13
    case System => 0x1F
    case Abort => 0x17
    case Undefined => 0x1B
    case Irq => 0x12
    case Fiq => 0x11
    case Unknown(bits) => bits
  }

  /** Decoding loses nothing: the mode names the CPSR's mode field, and a
      named mode comes back from its own encoding. */
  lemma DecodeModeRoundTrip(cpsr: uint32, m: Mode)
    ensures ModeBitsOf(DecodeMode(cpsr)) == ModeBits(cpsr)
    ensures !m.Unknown? ==> DecodeMode(ModeBitsOf(m)) == m
  {
  }

  /** Only the mode field matters: bits above it (flags, Thumb, masks) do not
      change the decoded mode. */
  lemma DecodeIgnoresUpperBits(cpsr: uint32, upper: nat)
    requires cpsr + 0x20 * upper < WordModulus
    ensures DecodeMode(cpsr + 0x20 * upper) == DecodeMode(cpsr)
  {
    DivModUnique(cpsr + 0x20 * upper, 0x20, cpsr / 0x20 + upper, cpsr % 0x20);
  }

  /** What main_memory_debug.c prints for the mode. */
  function ModeText(cpsr: uint32): (s: string)
    ensures DecodeMode(cpsr).Unknown? ==> s == "Unknown (" + Uart.PrefixedHex(ModeBits(cpsr)) + ")"
  {
    match DecodeMode(cpsr)
    case User => "User (0x10)"
    case Supervisor => "Supervisor (0x13)"
    case System => "System (0x1F)"
    case Abort => "Abort (0x17)"
    case Undefined => "Undefined (0x1B)"
    case Irq => "IRQ (0x12)"
    case Fiq => "FIQ (0x11)"
    case Unknown(bits) => "Unknown (" + Uart.PrefixedHex(bits) + ")"
  }

  datatype MinimalMode = MinUser | MinSupervisor | MinSystem | Other

  /** The shorter switch in minimal_memory_debug.c. */
  function DecodeModeMinimal(cpsr: uint32): (m: MinimalMode)
    ensures m == Other <==> ModeBits(cpsr) !in {0x10, 0x13, 0x1F}
  {
    match ModeBits(cpsr)
    case 0x10 => MinUser
    case 0x13 => MinSupervisor
    case 0x1F => MinSystem
    case _ => Other
  }

  function Collapse(m: Mode): MinimalMode
  {
    match m
    case User => MinUser
    case Supervisor => MinSupervisor
    case System => MinSystem
    case _ => Other
  }

  /** The minimal decode is the full one with Abort, Undefined, IRQ, FIQ and
      unknown modes folded into Other. */
  lemma MinimalDecodeCollapsesFull(cpsr: uint32)
    ensures DecodeModeMinimal(cpsr) == Collapse(DecodeMode(cpsr))
  {
  }

  // ---- painting patterns ------------------------------------------------

  const PatternStack: Word := 0xDEAD_BEEF
  const PatternData: Word := 0x1234_5678
  const PatternHeap: Word := 0xCAFE_BABE
  const PatternTest: Word := 0x55AA_55AA
  const PatternCycles: Word := 0xAAAA_AAAA

  /** patterns[] of both programs, indexed by region. */
  function BasePattern(region: nat): Word
    requires region < 4
  {
    [PatternStack, PatternData, PatternHeap, PatternTest][region]
  }

  /** `(i == 3) ? (PATTERN_SIZE >> 2) : (REGION_SIZE >> 2)`: 4 MiB of words
      for the pattern area, 1 MiB for the other three. */
  function RegionWords(region: nat): (n: nat)
    requires region < 4
    ensures n * 4 == (if region == 3 then 0x40_0000 else 0x10_0000)
  {
    if region == 3 then 0x40_0000 / 4 else 0x10_0000 / 4
  }

  /** minimal_memory_debug.c: `patterns[i] ^ (cycle << 24)`. */
  function RegionPattern(region: nat, cycle: uint32): Word
    requires region < 4
  {
    BasePattern(region) ^ ((cycle as Word) << 24)
  }

  /** The cycle number shows in the top byte and nowhere else, so a memory
      dump tells which pass wrote a word; within a pass the four regions
      keep distinct patterns. */
  lemma RegionPatternEncodesCycle(region: nat, cycle: uint32)
    requires region < 4
    ensures (RegionPattern(region, cycle) ^ BasePattern(region)) >> 24 == (cycle as Word) & 0xFF
    ensures RegionPattern(region, cycle) & 0xFF_FFFF == BasePattern(region) & 0xFF_FFFF
    ensures forall other :: 0 <= other < 4 && other != region ==>
              RegionPattern(other, cycle) != RegionPattern(region, cycle)
  {
    var c := cycle as Word;
    assert (BasePattern(region) ^ (c << 24)) ^ BasePattern(region) == c << 24;
    assert (c << 24) >> 24 == c & 0xFF;
    assert (c << 24) & 0xFF_FFFF == 0;
    forall other | 0 <= other < 4 && other != region
      ensures RegionPattern(other, cycle) != RegionPattern(region, cycle)
    {
      assert BasePattern(other) & 0xFF_FFFF != BasePattern(region) & 0xFF_FFFF;
      assert RegionPattern(other, cycle) & 0xFF_FFFF == BasePattern(other) & 0xFF_FFFF;
    }
  }

  /** main_memory_debug.c: `PATTERN_CYCLES ^ (cycle_counter << 16)`, in 32 bits. */
  function DynamicPattern(cycle: uint32): Word
  {
    PatternCycles ^ ((cycle as Word) << 16)
  }

  /** The low half is always 0xAAAA and the high half carries the cycle
      counter's low 16 bits, so the counter can be read off a dump. */
  lemma DynamicPatternEncodesCycle(cycle: uint32)
    ensures DynamicPattern(cycle) & 0xFFFF == 0xAAAA
    ensures (DynamicPattern(cycle) ^ PatternCycles) >> 16 == (cycle as Word) & 0xFFFF
  {
    var c := cycle as Word;
    assert (PatternCycles ^ (c << 16)) ^ PatternCycles == c << 16;
    assert (c << 16) >> 16 == c & 0xFFFF;
    assert (c << 16) & 0xFFFF == 0;
  }

  /** Slots of the pattern area that receive a stamp: every 1024th word. */
  const StampCount: nat := 1024
  const StampStride: nat := 1024

  /** `pattern_area[i * 1024] = dynamic_pattern + i` for i below 1024, in
      wrapping 32-bit addition. The other words are left alone. */
  method StampPatternArea(area: seq<uint32>, pattern: uint32) returns (r: seq<uint32>)
    requires |area| >= StampCount * StampStride
    ensures |r| == |area|
    ensures forall k :: 0 <= k < StampCount ==> r[Slot(k)] == AddU32(pattern, k)
    ensures forall j :: 0 <= j < |area| && !IsSlot(j) ==> r[j] == area[j]
  {
    r := area;
    var i := 0;
    while i < StampCount
      invariant 0 <= i <= StampCount && |r| == |area|
      invariant forall k :: 0 <= k < i ==> r[Slot(k)] == AddU32(pattern, k)
      invariant forall j :: 0 <= j < |area| && !IsSlotBelow(j, i) ==> r[j] == area[j]
    {
      SlotsDistinct(i);
      r := r[Slot(i) := AddU32(pattern, i)];
      forall j | 0 <= j < |area| && !IsSlotBelow(j, i + 1)
        ensures r[j] == area[j]
      {
        assert j != Slot(i);
      }
      i := i + 1;
    }
    forall j | 0 <= j < |area| && !IsSlot(j)
      ensures r[j] == area[j]
    {
    }
  }

  /** Index of the i-th stamped word. */
  function Slot(i: nat): (j: nat)
    ensures i < StampCount ==> j < StampCount * StampStride
  {
    i * StampStride
  }

  predicate IsSlotBelow(j: nat, n: nat)
  {
    exists k :: 0 <= k < n && j == Slot(k)
  }

  predicate IsSlot(j: nat)
  {
    IsSlotBelow(j, StampCount)
  }

  /** Slot i is none of the slots before it. */
  lemma SlotsDistinct(i: nat)
    ensures forall k :: 0 <= k < i ==> Slot(k) < Slot(i)
  {
    forall k | 0 <= k < i
      ensures Slot(k) < Slot(i)
    {
      assert (i - k) * StampStride >= StampStride by {
        MulAtLeast(i - k, StampStride);
      }
      assert Slot(i) - Slot(k) == (i - k) * StampStride;
    }
  }

  /** Each stamp minus the cycle's pattern, in 32-bit arithmetic, gives back
      its slot number. */
  lemma StampRecoversSlot(pattern: uint32, i: nat)
    requires i < StampCount
    ensures (AddU32(pattern, i) - pattern) % WordModulus == i
  {
    var s := AddU32(pattern, i);
    if pattern + i >= WordModulus {
      DivModUnique(s - pattern, WordModulus, -1, i);
    } else {
      DivModUnique(s - pattern, WordModulus, 0, i);
    }
  }

  // ---- vAssertCalled ----------------------------------------------------

  /** What the analysis section of vAssertCalled says about a failed assertion. */
  datatype AssertNote =
    | CpuModeNote                // lines 410-420
    | BinaryPointNote            // lines 430-450
    | CriticalNestingNote        // lines 470-480
    | InterruptNestingNote       // lines 490-500 (main.c only)
    | OtherPortLine(line: nat)   // any other port.c line, printed back
    | NotPortFile                // the file name does not contain "port."

  /** The classification in main.c. */
  function ClassifyAssert(line: uint32, isPortFile: bool): (n: AssertNote)
    ensures !isPortFile <==> n == NotPortFile
    ensures n == CpuModeNote <==> isPortFile && 410 <= line <= 420
    ensures n == BinaryPointNote <==> isPortFile && 430 <= line <= 450
    ensures n == CriticalNestingNote <==> isPortFile && 470 <= line <= 480
    ensures n == InterruptNestingNote <==> isPortFile && 490 <= line <= 500
    ensures n.OtherPortLine? ==> n.line == line
  {
    if !isPortFile then NotPortFile
    else if 410 <= line <= 420 then CpuModeNote
    else if 430 <= line <= 450 then BinaryPointNote
    else if 470 <= line <= 480 then CriticalNestingNote
    else if 490 <= line <= 500 then InterruptNestingNote
    else OtherPortLine(line)
  }

  /** The classification in main_memory_debug.c, which has no interrupt-nesting range. */
  function ClassifyAssertDebug(line: uint32, isPortFile: bool): (n: AssertNote)
    ensures n != InterruptNestingNote
  {
    if !isPortFile then NotPortFile
    else if 410 <= line <= 420 then CpuModeNote
    else if 430 <= line <= 450 then BinaryPointNote
    else if 470 <= line <= 480 then CriticalNestingNote
    else OtherPortLine(line)
  }

  /** The two programs classify alike except on lines 490-500 of port.c,
      which only main.c names. */
  lemma ClassificationsDifferOnlyOnInterruptNesting(line: uint32, isPortFile: bool)
    ensures ClassifyAssertDebug(line, isPortFile) != ClassifyAssert(line, isPortFile) <==>
              isPortFile && 490 <= line <= 500
    ensures isPortFile && 490 <= line <= 500 ==> ClassifyAssertDebug(line, isPortFile) == OtherPortLine(line)
  {
  }

  /** The table does not match the port.c it ships with: of that file's eight
      assertions (lines 393, 444, 466, 713, 734, 855, 867 and 876) only the
      priority-bit probe at 444 falls in a named range, and it is reported as
      a binary-point assertion; the real binary-point assertion (867) and all
      the others come out unnamed. */
  lemma AssertTableMissesPortLines()
    ensures ClassifyAssert(444, true) == BinaryPointNote
    ensures forall line :: line in {393, 466, 713, 734, 855, 867, 876} ==> ClassifyAssert(line, true) == OtherPortLine(line)
  {
  }

  /** "port." occurs in s at k. */
  predicate PortDotAt(s: string, k: nat)
  {
    k + 5 <= |s| && s[k..k + 5] == "port."
  }

  /** "port." at p, character by character. */
  lemma PortDotChars(s: string, p: nat)
    ensures p + 5 <= |s| ==> (PortDotAt(s, p) <==>
              s[p] == 'p' && s[p + 1] == 'o' && s[p + 2] == 'r' && s[p + 3] == 't' && s[p + 4] == '.')
  {
    if p + 5 > |s| {
      return;
    }
    var w := s[p..p + 5];
    assert w[0] == s[p] && w[1] == s[p + 1] && w[2] == s[p + 2] && w[3] == s[p + 3] && w[4] == s[p + 4];
    if s[p] == 'p' && s[p + 1] == 'o' && s[p + 2] == 'r' && s[p + 3] == 't' && s[p + 4] == '.' {
      assert w == "port.";
    }
  }

  /** The unrolled comparison `*p == 'p' && *(p+1) == 'o' && ...` at
      position p, stopping at the first mismatch. Returns whether all five
      matched and the furthest index it read. */
  function MatchPortDot(mem: seq<char>, p: nat): (r: (bool, nat))
    requires '\0' in mem && p < |Uart.CString(mem)|
    ensures p <= r.1 <= |Uart.CString(mem)|
    ensures r.0 <==> PortDotAt(Uart.CString(mem), p)
  {
    var s := Uart.CString(mem);
    var n := |s|;
    assert forall j :: p <= j <= n && mem[j] != '\0' ==> j < n;
    PortDotChars(s, p);
    if mem[p] != 'p' then (false, p)
    else if mem[p + 1] != 'o' then (false, p + 1)
    else if mem[p + 2] != 'r' then (false, p + 2)
    else if mem[p + 3] != 't' then (false, p + 3)
    else if mem[p + 4] != '.' then (false, p + 4)
    else (true, p + 4)
  }

  /** The port-file scan of vAssertCalled (both programs). The flag is set
      exactly when the file name contains "port.", and thanks to the
      short-circuit no byte beyond the terminating NUL is ever read. */
  method ScanForPortFile(mem: seq<char>) returns (isPort: bool, furthest: nat)
    requires '\0' in mem
    ensures isPort <==> exists k :: 0 <= k < |Uart.CString(mem)| && PortDotAt(Uart.CString(mem), k)
    ensures furthest <= |Uart.CString(mem)|
  {
    var name := Uart.CString(mem);
    isPort := false;
    furthest := 0;
    var p := 0;
    while mem[p] != '\0'
      invariant p <= |name| && furthest <= |name|
      invariant forall k :: 0 <= k < p ==> !PortDotAt(name, k)
      decreases |name| - p
    {
      var (matched, last) := MatchPortDot(mem, p);
      if last > furthest {
        furthest := last;
      }
      if matched {
        isPort := true;
        return;
      }
      p := p + 1;
    }
  }
}
