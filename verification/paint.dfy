/**
 paint_memory_region, in main_memory_debug.c and minimal_memory_debug.c
 (the two differ only in how they print numbers): fill a region with one
 word, report progress every 16K words, then read the region back and count
 mismatches, giving up after ten.

 Painting is modelled on a sequence of words. The read-back is a separate
 input: the point of the routine is to notice memory that does not keep what
 was written, so the words it verifies are whatever the hardware returns.
 */
module Paint {
  import opened Words

  /** Words between progress lines: `(i & 0x3FFF) == 0`. */
  const ProgressStride: nat := 0x4000
  /** The verify loop stops once it has counted this many mismatches. */
  const MaxReportedErrors: nat := 10

  /** The paint loop: `start[i] = pattern` for every i below `wordCount`, with
      a progress line carrying `i >> 14` at each non-zero multiple of 16384. */
  method PaintRegion(mem: seq<uint32>, wordCount: nat, pattern: uint32) returns (r: seq<uint32>, progress: seq<nat>)
    requires wordCount <= |mem|
    ensures |r| == |mem|
    ensures forall j :: 0 <= j < wordCount ==> r[j] == pattern
    ensures forall j :: wordCount <= j < |mem| ==> r[j] == mem[j]
    ensures |progress| == if wordCount == 0 then 0 else (wordCount - 1) / ProgressStride
    ensures forall k :: 0 <= k < |progress| ==> progress[k] == k + 1
  {
    r := mem;
    progress := [];
    var i := 0;
    while i < wordCount
      invariant 0 <= i <= wordCount && |r| == |mem|
      invariant forall j :: 0 <= j < i ==> r[j] == pattern
      invariant forall j :: i <= j < |mem| ==> r[j] == mem[j]
      invariant |progress| == if i == 0 then 0 else (i - 1) / ProgressStride
      invariant forall k :: 0 <= k < |progress| ==> progress[k] == k + 1
    {
      r := r[i := pattern];
      if i % ProgressStride == 0 && i > 0 {
        ProgressStep(i);
        progress := progress + [i / ProgressStride];
      } else if i > 0 {
        ProgressSame(i);
      }
      i := i + 1;
    }
  }

  /** At a multiple of the stride the count of progress lines goes up by one. */
  lemma ProgressStep(i: nat)
    requires i > 0 && i % ProgressStride == 0
    ensures i / ProgressStride == (i - 1) / ProgressStride + 1
    ensures i / ProgressStride == (i + 1 - 1) / ProgressStride
  {
    var q := i / ProgressStride;
    DivModUnique(i - 1, ProgressStride, q - 1, ProgressStride - 1);
  }

  /** Between multiples of the stride it stays put. */
  lemma ProgressSame(i: nat)
    requires i > 0 && i % ProgressStride != 0
    ensures (i + 1 - 1) / ProgressStride == (i - 1) / ProgressStride
  {
    var q, m := i / ProgressStride, i % ProgressStride;
    DivModUnique(i - 1, ProgressStride, q, m - 1);
  }

  /** How many of the words differ from the pattern. */
  function Mismatches(words: seq<uint32>, pattern: uint32): (n: nat)
    ensures n <= |words|
    ensures n == 0 <==> forall j :: 0 <= j < |words| ==> words[j] == pattern
  {
    if |words| == 0 then 0
    else Mismatches(words[..|words| - 1], pattern) + (if words[|words| - 1] != pattern then 1 else 0)
  }

  /** Counting over a longer prefix never finds fewer mismatches. */
  lemma {:induction false} MismatchesGrow(words: seq<uint32>, pattern: uint32, i: nat)
    requires i <= |words|
    ensures Mismatches(words[..i], pattern) <= Mismatches(words, pattern)
  {
    if i < |words| {
      assert words[..|words| - 1][..i] == words[..i];
      MismatchesGrow(words[..|words| - 1], pattern, i);
    } else {
      assert words[..i] == words;
    }
  }

  /** The verify loop, `i < word_count && errors < 10`, over the words read back. */
  method VerifyRegion(readBack: seq<uint32>, wordCount: nat, pattern: uint32) returns (errors: nat)
    requires wordCount <= |readBack|
    ensures errors <= MaxReportedErrors
    ensures errors == Min(MaxReportedErrors, Mismatches(readBack[..wordCount], pattern))
    ensures errors == 0 <==> forall j :: 0 <= j < wordCount ==> readBack[j] == pattern
  {
    errors := 0;
    var i := 0;
    while i < wordCount && errors < MaxReportedErrors
      invariant 0 <= i <= wordCount
      invariant errors == Mismatches(readBack[..i], pattern) <= MaxReportedErrors
    {
      assert readBack[..i + 1][..i] == readBack[..i];
      if readBack[i] != pattern {
        errors := errors + 1;
      }
      i := i + 1;
    }
    assert readBack[..wordCount][..i] == readBack[..i];
    MismatchesGrow(readBack[..wordCount], pattern, i);
  }

  function Min(a: nat, b: nat): (m: nat)
    ensures m <= a && m <= b && (m == a || m == b)
  {
    if a <= b then a else b
  }
}
