/** The string built by the task handed to `async` near the end of `main`:
    starting from the empty string it appends one character per iteration,
    `s = s + 'A'`, 200 times, and returns the result through the future.
    The task runs alone and touches no shared state, so it is modelled as
    a sequential loop; the loop is stated for any character and count. */
module Builder {

  /** The reference: `n` copies of `c`. */
  function Repeat(c: char, n: nat): (s: string)
    ensures |s| == n
    ensures forall k :: 0 <= k < n ==> s[k] == c
  {
    seq(n, _ => c)
  }

  /** Number of occurrences of `c` in `s`. */
  function Count(s: string, c: char): (n: nat)
    ensures n <= |s|
  {
    multiset(s)[c]
  }

  /** `string s = ""; for (int i = 0; i < count; i++) s = s + c; return s;`:
      the result is `count` copies of `c`, or empty when `count` is not
      positive. */
  method AppendRepeated(c: char, count: int) returns (s: string)
    ensures |s| == if count > 0 then count else 0
    ensures forall k :: 0 <= k < |s| ==> s[k] == c
    ensures Count(s, c) == |s|
    ensures s == Repeat(c, if count > 0 then count else 0)
  {
    s := "";
    var i := 0;
    while i < count
      invariant 0 <= i <= if count > 0 then count else 0
      invariant s == Repeat(c, i)
      invariant Count(s, c) == i
    {
      RepeatByAppend(c, i + 1);
      s := s + [c];
      i := i + 1;
    }
  }

  /** Appending one character at a time builds the reference string. */
  lemma {:induction false} RepeatByAppend(c: char, n: nat)
    ensures n > 0 ==> Repeat(c, n) == Repeat(c, n - 1) + [c]
    ensures Count(Repeat(c, n), c) == n
  {
    if n > 0 {
      assert Repeat(c, n) == Repeat(c, n - 1) + [c];
      RepeatByAppend(c, n - 1);
    }
  }

  /** The task of `async` at the end of `main`: 200 characters, all `'A'`. */
  method AsyncTask() returns (s: string)
    ensures s == Repeat('A', 200)
    ensures Count(s, 'A') == 200
  {
    s := AppendRepeated('A', 200);
  }
}
