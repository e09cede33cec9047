/** `struct A<N>`: a table of `N` 32-bit `int`s whose `constexpr`
    constructor stores `fibCE(i + 37)` at every index `i`, so that
    `constexpr auto tmp = A<N>()` is computed entirely by the compiler. */
module FibTable {
  import opened CInt
  import opened Fibonacci

  /** The table's contents: what `A<N>().arr` holds. */
  datatype Table = Table(arr: seq<int32>)

  /** The instantiations whose construction is defined. `int arr[N] = {0}`
      needs at least one element, so `N >= 1`. For `N > 10` the constructor
      would compute `fibCE(47)`, which overflows the 32-bit `long int`: in
      `constexpr auto tmp = A<N>()` that rejects the program, and in a
      construction at run time it is undefined behaviour. */
  predicate Instantiable(n: int) {
    1 <= n <= 10
  }

  /** The value the constructor stores at index `i`. */
  function Entry(i: int): (v: int) {
    FibCE(i + 37)
  }

  /** The bound on `N` is exact: every stored value fits an `int` precisely
      when `N <= 10`. */
  lemma {:induction false} TableFitsIff(n: int)
    ensures (forall i :: 0 <= i < n ==> IsInt32(Entry(i))) <==> n <= 10
  {
    if n <= 10 {
      forall i | 0 <= i < n
        ensures IsInt32(Entry(i))
      {
        FibAgree(i + 37);
        FibFitsInt32(i + 37);
      }
    } else {
      FibAgree(47);
      FibFitsInt32(47);
      assert !IsInt32(Entry(10));
    }
  }

  /** The constructor `A()`: the array starts as all zeros and the loop
      `for (i = 0; i != N; ++i) arr[i] = fibCE(i + 37)` fills it. */
  method Construct(n: int) returns (t: Table)
    requires Instantiable(n)
    ensures |t.arr| == n
    ensures forall i :: 0 <= i < n ==> t.arr[i] as int == FibCE(i + 37)
    ensures forall i :: 0 <= i < n ==> t.arr[i] > 0
  {
    var arr: seq<int32> := seq(n, _ => 0);
    TableFitsIff(n);
    var i := 0;
    while i != n
      invariant 0 <= i <= n
      invariant |arr| == n
      invariant forall k :: 0 <= k < i ==> arr[k] as int == FibCE(k + 37)
      invariant forall k :: 0 <= k < i ==> arr[k] > 0
    {
      assert IsInt32(Entry(i));
      FibAgree(i + 37);
      FibNonNeg(i + 37);
      arr := arr[i := FibCE(i + 37) as int32];
      i := i + 1;
    }
    t := Table(arr);
  }

  /** `main` builds `A<4>` at compile time and copies its four entries into a
      local `int arr[4]`: the Fibonacci numbers 37 to 40. */
  method MainTable() returns (arr: seq<int32>)
    ensures arr == [24157817, 39088169, 63245986, 102334155]
  {
    var tmp := Construct(4);
    arr := seq(4, _ => 0);
    var i := 0;
    while i < 4
      invariant 0 <= i <= 4
      invariant |arr| == 4
      invariant arr[..i] == tmp.arr[..i]
    {
      arr := arr[i := tmp.arr[i]];
      i := i + 1;
    }
    FibValues();
    FibAgree(37);
    FibAgree(38);
    FibAgree(39);
    FibAgree(40);
    assert arr == tmp.arr[..4];
  }
}
