/** The two naive Fibonacci functions of constexpr.cpp: `fib`, evaluated at
    run time, and `fibCE`, its `constexpr` twin that the compiler may
    evaluate during translation. Both take an `int` and return a
    `long int`, which is 32 bits wide on the program's Windows target. */
module Fibonacci {
  import opened CInt

  /** `fib(n)`: `n` itself for every `n <= 1`, negative `n` included,
      otherwise the sum of the two preceding values. */
  function Fib(n: int): (r: int)
    decreases if n < 0 then 0 else n
  {
    if n <= 1 then n else Fib(n - 1) + Fib(n - 2)
  }

  /** `fibCE(n)`: the same recursion, declared `constexpr`. */
  function FibCE(n: int): (r: int)
    decreases if n < 0 then 0 else n
  {
    if n <= 1 then n else FibCE(n - 1) + FibCE(n - 2)
  }

  /** An independent, linear-time reference: the pair (F(k), F(k+1)) of the
      textbook Fibonacci sequence, built upwards from (0, 1). */
  function FibPair(k: nat): (p: (int, int))
  {
    if k == 0 then (0, 1)
    else var prev := FibPair(k - 1); (prev.1, prev.0 + prev.1)
  }

  /** `fib` and `fibCE` compute the same value for every argument. */
  lemma {:induction false} FibAgree(n: int)
    ensures Fib(n) == FibCE(n)
    decreases if n < 0 then 0 else n
  {
    if n > 1 {
      FibAgree(n - 1);
      FibAgree(n - 2);
    }
  }

  /** For non-negative arguments the naive recursion computes the textbook
      Fibonacci numbers, as given by the linear reference. */
  lemma {:induction false} FibMatchesPair(k: nat)
    ensures FibPair(k) == (Fib(k), Fib(k + 1))
  {
    if k > 0 {
      FibMatchesPair(k - 1);
    }
  }

  /** Non-negative arguments give non-negative results, and arguments of at
      least 1 give results of at least 1. */
  lemma {:induction false} FibNonNeg(n: int)
    ensures n >= 0 ==> Fib(n) >= 0
    ensures n >= 1 ==> Fib(n) >= 1
    decreases if n < 0 then 0 else n
  {
    if n > 2 {
      FibNonNeg(n - 1);
      FibNonNeg(n - 2);
    }
  }

  /** From 1 upwards the sequence never decreases. */
  lemma {:induction false} FibMonotone(m: int, n: int)
    requires 1 <= m <= n
    ensures Fib(m) <= Fib(n)
    decreases n - m
  {
    if m < n {
      FibMonotone(m, n - 1);
      FibNonNeg(n - 2);
    }
  }

  /** The values `main` prints and stores: `fib(35)`, `fibCE(40)`, and the
      two ends of the 32-bit range. */
  lemma FibValues()
    ensures Fib(35) == 9227465
    ensures Fib(37) == 24157817 && Fib(38) == 39088169
    ensures Fib(39) == 63245986 && Fib(40) == 102334155
    ensures Fib(46) == 1836311903
    ensures Fib(47) == 2971215073
    ensures FibCE(40) == 102334155
    ensures IsInt32(Fib(46)) && !IsInt32(Fib(47))
  {
    assert FibPair(10) == (55, 89);
    assert FibPair(20) == (6765, 10946);
    assert FibPair(30) == (832040, 1346269);
    assert FibPair(35) == (9227465, 14930352);
    assert FibPair(37) == (24157817, 39088169);
    assert FibPair(39) == (63245986, 102334155);
    assert FibPair(46) == (1836311903, 2971215073);
    FibMatchesPair(35);
    FibMatchesPair(37);
    FibMatchesPair(39);
    FibMatchesPair(46);
    FibAgree(40);
  }

  /** For every 32-bit argument, the result fits the 32-bit `long int`
      exactly when the argument is at most 46. */
  lemma FibFitsInt32(n: int)
    requires IsInt32(n)
    ensures IsInt32(Fib(n)) <==> n <= 46
  {
    if n <= 1 {
    } else if n <= 46 {
      FibNonNeg(n);
      FibMonotone(n, 46);
      FibValues();
    } else {
      FibMonotone(47, n);
      FibValues();
    }
  }
}
