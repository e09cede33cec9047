/** The memory-fill passes at the end of `main`: a block of `arraySize`
    bytes is written either with the constant 0x77 (`std::fill`, `memset`,
    a pointer loop, `std::fill` over a vector) or with a running counter
    reduced modulo 256 (`std::generate` with a counting lambda, a pointer
    loop). A block is modelled as the sequence of its bytes, and each pass
    returns the block it leaves behind. */
module Buffers {
  import opened CInt

  /** `const int arraySize = 1920 * 1080 * 10`. */
  const ArraySize: int := 1920 * 1080 * 10

  /** The constant every fill pass writes. */
  const FillValue: int := 0x77

  /** `make_unique<unsigned char[]>(n)` and `vector<unsigned char>(n)` both
      value-initialise their elements: `n` zero bytes. */
  function NewBlock(n: nat): (b: seq<byte>)
    ensures |b| == n
    ensures forall k :: 0 <= k < n ==> b[k] == 0
  {
    seq(n, _ => 0)
  }

  /** The `int` counter `i` never overflows: the block's size, and so every
      index and counter value of the passes, is a 32-bit `int`. */
  lemma ArraySizeIsInt32()
    ensures IsInt32(ArraySize)
    ensures ArraySize == 20736000
  {
  }

  /** `std::fill(first, last, value)`: every position of `[first, last)` is
      assigned `value`, converted to `unsigned char`; no other byte changes. */
  method StdFill(block: seq<byte>, first: int, last: int, value: int) returns (r: seq<byte>)
    requires 0 <= first <= last <= |block|
    ensures |r| == |block|
    ensures forall k :: first <= k < last ==> r[k] == ToUChar(value)
    ensures forall k :: 0 <= k < |block| && !(first <= k < last) ==> r[k] == block[k]
  {
    r := block;
    var it := first;
    while it != last
      invariant first <= it <= last
      invariant |r| == |block|
      invariant forall k :: first <= k < it ==> r[k] == ToUChar(value)
      invariant forall k :: 0 <= k < |block| && !(first <= k < it) ==> r[k] == block[k]
    {
      r := r[it := ToUChar(value)];
      it := it + 1;
    }
  }

  /** `memset(p, value, count)`: the first `count` bytes become `value`
      converted to `unsigned char`; the bytes after them are untouched. */
  function Memset(block: seq<byte>, value: int, count: int): (r: seq<byte>)
    requires 0 <= count <= |block|
    ensures |r| == |block|
    ensures forall k :: 0 <= k < count ==> r[k] == ToUChar(value)
    ensures forall k :: count <= k < |block| ==> r[k] == block[k]
  {
    seq(count, _ => ToUChar(value)) + block[count..]
  }

  /** `for (int i = 0; i < n; i++) *p++ = value;` with `p` at the start of the
      block: the first `n` bytes become `value`, and the pointer, captured by
      reference, is left `n` bytes further on, so exactly `n` bytes are
      touched. A non-positive `n` writes nothing. */
  method PointerFill(block: seq<byte>, n: int, value: int) returns (r: seq<byte>, p: int)
    requires n <= |block|
    ensures |r| == |block|
    ensures p == if n > 0 then n else 0
    ensures forall k :: 0 <= k < p ==> r[k] == ToUChar(value)
    ensures forall k :: p <= k < |block| ==> r[k] == block[k]
  {
    r := block;
    p := 0;
    var i := 0;
    while i < n
      invariant 0 <= i == p <= if n > 0 then n else 0
      invariant |r| == |block|
      invariant forall k :: 0 <= k < p ==> r[k] == ToUChar(value)
      invariant forall k :: p <= k < |block| ==> r[k] == block[k]
    {
      r := r[p := ToUChar(value)];
      p := p + 1;
      i := i + 1;
    }
  }

  /** `std::generate(first, last, [&i]() { return (i++) % 256; })`: position
      `first + j` receives the counter's `j`-th value, `counter + j`, through
      C++'s truncating `%` and the conversion to `unsigned char`. The lambda
      holds `i` by reference, so the caller's counter ends `last - first`
      higher; it must not overflow on the way. No other byte changes. */
  method StdGenerate(block: seq<byte>, first: int, last: int, counter: int)
    returns (r: seq<byte>, counter': int)
    requires 0 <= first <= last <= |block|
    requires IsInt32(counter) && IsInt32(counter + (last - first))
    ensures |r| == |block|
    ensures counter' == counter + (last - first)
    ensures forall k :: first <= k < last ==>
              r[k] == ToUChar(Rem256(counter + (k - first)))
    ensures forall k :: 0 <= k < |block| && !(first <= k < last) ==> r[k] == block[k]
  {
    r := block;
    counter' := counter;
    var it := first;
    while it != last
      invariant first <= it <= last
      invariant counter' == counter + (it - first)
      invariant |r| == |block|
      invariant forall k :: first <= k < it ==>
                  r[k] == ToUChar(Rem256(counter + (k - first)))
      invariant forall k :: 0 <= k < |block| && !(first <= k < it) ==> r[k] == block[k]
    {
      var g := Rem256(counter');
      counter' := counter' + 1;
      r := r[it := ToUChar(g)];
      it := it + 1;
    }
  }

  /** `for (int i = 0; i < n; i++) *p++ = i % 256;` with `p` at the start of
      the block: byte `k` of the first `n` becomes `k % 256`, the pointer ends
      `n` bytes further on, and the rest of the block is untouched. */
  method PointerGenerate(block: seq<byte>, n: int) returns (r: seq<byte>, p: int)
    requires n <= |block|
    ensures |r| == |block|
    ensures p == if n > 0 then n else 0
    ensures forall k :: 0 <= k < p ==> r[k] as int == k % 256
    ensures forall k :: p <= k < |block| ==> r[k] == block[k]
  {
    r := block;
    p := 0;
    var i := 0;
    while i < n
      invariant 0 <= i == p <= if n > 0 then n else 0
      invariant |r| == |block|
      invariant forall k :: 0 <= k < p ==> r[k] as int == k % 256
      invariant forall k :: p <= k < |block| ==> r[k] == block[k]
    {
      NonNegRemToUChar(i);
      r := r[p := ToUChar(Rem256(i))];
      p := p + 1;
      i := i + 1;
    }
  }

  /** The four constant-fill passes of `main`, each on a fresh block of
      `arraySize` bytes: `std::fill` over a raw block, `memset` of
      `arraySize * sizeof(unsigned char)` bytes, the pointer loop, and
      `std::fill` over a vector. Every byte ends as 0x77, the pointer loop
      advances by exactly `arraySize`, and the four blocks are identical. */
  method FillPasses() returns (a: seq<byte>, b: seq<byte>, c: seq<byte>, d: seq<byte>, end: int)
    ensures |a| == ArraySize
    ensures forall k :: 0 <= k < ArraySize ==> a[k] == 0x77
    ensures b == a && c == a && d == a
    ensures end == ArraySize
  {
    a := StdFill(NewBlock(ArraySize), 0, ArraySize, FillValue);
    b := Memset(NewBlock(ArraySize), FillValue, ArraySize * 1);
    c, end := PointerFill(NewBlock(ArraySize), ArraySize, FillValue);
    var v := NewBlock(ArraySize);
    d := StdFill(v, 0, |v|, FillValue);
  }

  /** The three generate passes of `main`, each on a fresh block of
      `arraySize` bytes: `std::generate` with a counter starting at 0 over a
      raw block, the pointer loop, and `std::generate` over a vector. Byte
      `k` ends as `k % 256` in every one, both counters end at `arraySize`,
      the pointer loop advances by exactly `arraySize`, and the three blocks
      are identical. */
  method GeneratePasses() returns (a: seq<byte>, b: seq<byte>, c: seq<byte>,
                                   counter: int, end: int, vectorCounter: int)
    ensures |a| == ArraySize
    ensures forall k :: 0 <= k < ArraySize ==> a[k] as int == k % 256
    ensures b == a && c == a
    ensures counter == ArraySize
    ensures end == ArraySize
    ensures vectorCounter == ArraySize
  {
    counter := 0;
    a, counter := StdGenerate(NewBlock(ArraySize), 0, ArraySize, counter);
    forall k | 0 <= k < ArraySize
      ensures a[k] as int == k % 256
    {
      NonNegRemToUChar(k);
    }
    b, end := PointerGenerate(NewBlock(ArraySize), ArraySize);
    var v := NewBlock(ArraySize);
    vectorCounter := 0;
    c, vectorCounter := StdGenerate(v, 0, |v|, vectorCounter);
    forall k | 0 <= k < ArraySize
      ensures c[k] as int == k % 256
    {
      NonNegRemToUChar(k);
    }
  }
}
