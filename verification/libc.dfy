/**
 The freestanding memcpy and memset that main.c and main_memory_debug.c
 supply (the two copies are identical). Memory is a sequence of bytes and a
 pointer is an index into it; the returned pointer is the index passed in.
 */
module Libc {
  import opened Words

  /** The copy loop reads each source byte before anything could overwrite
      it: the destination does not start inside the source. */
  predicate ForwardCopySafe(dest: nat, src: nat, n: nat)
  {
    dest <= src || src + n <= dest
  }

  /** memcpy: `d[i] = s[i]` for i from 0 up to n. */
  method Memcpy(mem: seq<uint8>, dest: nat, src: nat, n: nat) returns (r: seq<uint8>, ret: nat)
    requires dest + n <= |mem| && src + n <= |mem|
    ensures ret == dest && |r| == |mem|
    ensures forall j :: 0 <= j < |mem| && !(dest <= j < dest + n) ==> r[j] == mem[j]
    ensures ForwardCopySafe(dest, src, n) ==> forall j :: dest <= j < dest + n ==> r[j] == mem[src + (j - dest)]
  {
    r := mem;
    var i := 0;
    while i < n
      invariant 0 <= i <= n && |r| == |mem|
      invariant forall j :: 0 <= j < |mem| && !(dest <= j < dest + i) ==> r[j] == mem[j]
      invariant ForwardCopySafe(dest, src, n) ==> forall j :: dest <= j < dest + i ==> r[j] == mem[src + (j - dest)]
    {
      assert ForwardCopySafe(dest, src, n) ==> r[src + i] == mem[src + i];
      r := r[dest + i := r[src + i]];
      i := i + 1;
    }
    ret := dest;
  }

  /** `(char)c`: the low eight bits of the int, as two's complement keeps them. */
  function ByteOf(c: int): (b: uint8)
    ensures (b - c) % 0x100 == 0
  {
    c % 0x100
  }

  /** memset: `p[i] = c` for i from 0 up to n. */
  method Memset(mem: seq<uint8>, s: nat, c: int, n: nat) returns (r: seq<uint8>, ret: nat)
    requires s + n <= |mem|
    ensures ret == s && |r| == |mem|
    ensures forall j :: s <= j < s + n ==> r[j] == ByteOf(c)
    ensures forall j :: 0 <= j < |mem| && !(s <= j < s + n) ==> r[j] == mem[j]
  {
    r := mem;
    var i := 0;
    while i < n
      invariant 0 <= i <= n && |r| == |mem|
      invariant forall j :: s <= j < s + i ==> r[j] == ByteOf(c)
      invariant forall j :: 0 <= j < |mem| && !(s <= j < s + i) ==> r[j] == mem[j]
    {
      r := r[s + i := ByteOf(c)];
      i := i + 1;
    }
    ret := s;
  }

  /** The reference copy: the source block spliced over the destination. */
  function Copied(mem: seq<uint8>, dest: nat, src: nat, n: nat): (r: seq<uint8>)
    requires dest + n <= |mem| && src + n <= |mem|
    ensures |r| == |mem|
  {
    mem[..dest] + mem[src..src + n] + mem[dest + n..]
  }

  /** When the copy is forward-safe the loop computes exactly the splice. */
  lemma MemcpyIsSplice(mem: seq<uint8>, dest: nat, src: nat, n: nat, r: seq<uint8>)
    requires dest + n <= |mem| && src + n <= |mem| && ForwardCopySafe(dest, src, n)
    requires |r| == |mem|
    requires forall j :: 0 <= j < |mem| && !(dest <= j < dest + n) ==> r[j] == mem[j]
    requires forall j :: dest <= j < dest + n ==> r[j] == mem[src + (j - dest)]
    ensures r == Copied(mem, dest, src, n)
  {
    var c := Copied(mem, dest, src, n);
    forall j | 0 <= j < |mem|
      ensures r[j] == c[j]
    {
      if dest <= j < dest + n {
        assert c[j] == mem[src + (j - dest)];
      }
    }
  }
}
