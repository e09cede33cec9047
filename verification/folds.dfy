/** The two variadic templates built on C++17 fold expressions: `sum`, a
    unary left fold over `+`, and `push_back_vec`, a fold over the comma
    operator that appends every argument to a vector. A parameter pack is
    modelled as a sequence of its arguments, in order. */
module Folds {

  /** `(... + args)`: the unary left fold, `((a1 + a2) + ...) + an`. An empty
      pack does not compile, since `+` has no identity for unary folds. */
  function Sum(args: seq<int>): (r: int)
    requires |args| >= 1
    decreases |args|
  {
    if |args| == 1 then args[0]
    else Sum(args[..|args| - 1]) + args[|args| - 1]
  }

  /** `(init + ... + args)`: the binary left fold with an initial value. */
  function SumLeftInit(init: int, args: seq<int>): (r: int)
    decreases |args|
  {
    if |args| == 0 then init
    else SumLeftInit(init, args[..|args| - 1]) + args[|args| - 1]
  }

  /** `(args + ...)`: the unary right fold, `a1 + (a2 + (... + an))`. */
  function SumRight(args: seq<int>): (r: int)
    requires |args| >= 1
    decreases |args|
  {
    if |args| == 1 then args[0]
    else args[0] + SumRight(args[1..])
  }

  /** `(args + ... + init)`: the binary right fold with an initial value. */
  function SumRightInit(args: seq<int>, init: int): (r: int)
    decreases |args|
  {
    if |args| == 0 then init
    else args[0] + SumRightInit(args[1..], init)
  }

  /** The left fold over a concatenation continues the fold of the first
      part. */
  lemma {:induction false} SumLeftInitAppend(init: int, a: seq<int>, b: seq<int>)
    ensures SumLeftInit(init, a + b) == SumLeftInit(SumLeftInit(init, a), b)
    decreases |b|
  {
    if |b| > 0 {
      var ab := a + b;
      var front := b[..|b| - 1];
      assert ab[..|ab| - 1] == a + front;
      assert ab[|ab| - 1] == b[|b| - 1];
      SumLeftInitAppend(init, a, front);
      assert SumLeftInit(init, ab) == SumLeftInit(init, a + front) + b[|b| - 1];
      var mid := SumLeftInit(init, a);
      assert SumLeftInit(mid, b) == SumLeftInit(mid, front) + b[|b| - 1];
    } else {
      assert a + b == a;
    }
  }

  /** The unary left fold is the binary one started from the first argument. */
  lemma {:induction false} SumIsLeftInit(args: seq<int>)
    requires |args| >= 1
    ensures Sum(args) == SumLeftInit(args[0], args[1..])
    decreases |args|
  {
    if |args| > 1 {
      var front := args[..|args| - 1];
      SumIsLeftInit(front);
      assert front[1..] + [args[|args| - 1]] == args[1..];
      SumLeftInitAppend(args[0], front[1..], [args[|args| - 1]]);
      assert [args[|args| - 1]][..0] == [];
    }
  }

  /** The right fold with an initial value adds it once to the plain right
      fold. */
  lemma {:induction false} SumRightInitShift(args: seq<int>, init: int)
    ensures SumRightInit(args, init) == SumRightInit(args, 0) + init
    decreases |args|
  {
    if |args| > 0 {
      SumRightInitShift(args[1..], init);
    }
  }

  /** The left fold with an initial value adds it once to the plain left fold
      started from 0. */
  lemma {:induction false} SumLeftInitShift(init: int, args: seq<int>)
    ensures SumLeftInit(init, args) == init + SumLeftInit(0, args)
    decreases |args|
  {
    if |args| > 0 {
      SumLeftInitShift(init, args[..|args| - 1]);
    }
  }

  /** Left and right folds of `+` agree: the four unfoldings listed beside
      `sum` ("all work here, difference is how they unfold") give the same
      value on every non-empty pack, taking 0 as the initial value. */
  lemma {:induction false} SumFoldsAgree(args: seq<int>)
    requires |args| >= 1
    ensures Sum(args) == SumLeftInit(0, args)
    ensures Sum(args) == SumRight(args)
    ensures Sum(args) == SumRightInit(args, 0)
    decreases |args|
  {
    LeftInitIsRightInit(args);
    RightIsRightInit(args);
    SumIsLeftInit(args);
    SumLeftInitShift(args[0], args[1..]);
    SumLeftInitAppend(0, [args[0]], args[1..]);
    assert [args[0]] + args[1..] == args;
    assert [args[0]][..0] == [];
  }

  /** The left fold from 0 equals the right fold into 0. */
  lemma {:induction false} LeftInitIsRightInit(args: seq<int>)
    ensures SumLeftInit(0, args) == SumRightInit(args, 0)
    decreases |args|
  {
    if |args| > 0 {
      LeftInitIsRightInit(args[1..]);
      SumLeftInitShift(args[0], args[1..]);
      SumLeftInitAppend(0, [args[0]], args[1..]);
      assert [args[0]] + args[1..] == args;
      assert [args[0]][..0] == [];
    }
  }

  /** The unary right fold is the binary one into 0. */
  lemma {:induction false} RightIsRightInit(args: seq<int>)
    requires |args| >= 1
    ensures SumRight(args) == SumRightInit(args, 0)
    decreases |args|
  {
    if |args| > 1 {
      RightIsRightInit(args[1..]);
    }
  }

  /** The call in `main`: `sum(45, 66, 88, 109)` prints 308. */
  lemma MainSum()
    ensures Sum([45, 66, 88, 109]) == 308
  {
    assert [45, 66, 88, 109][..3] == [45, 66, 88];
    assert [45, 66, 88][..2] == [45, 66];
    assert [45, 66][..1] == [45];
  }

  /** `v.push_back(x)`: one more element, at the end. */
  function PushBack<T>(v: seq<T>, x: T): (r: seq<T>)
    ensures |r| == |v| + 1
    ensures r[..|v|] == v
    ensures r[|v|] == x
  {
    v + [x]
  }

  /** `push_back_vec(v, args...)`: `(v.push_back(args), ...)` expands to
      `v.push_back(a1), (v.push_back(a2), ...)`, and the comma operator
      evaluates its left operand first, so the arguments are pushed one at
      a time in argument order. The old contents stay as a prefix and the
      arguments follow them in order. */
  function PushBackVec<T>(v: seq<T>, args: seq<T>): (r: seq<T>)
    ensures |r| == |v| + |args|
    ensures r[..|v|] == v
    ensures r[|v|..] == args
    decreases |args|
  {
    if |args| == 0 then v
    else PushBackVec(PushBack(v, args[0]), args[1..])
  }

  /** Pushing a pack is concatenation with the vector's old contents. */
  lemma PushBackVecIsConcat<T>(v: seq<T>, args: seq<T>)
    ensures PushBackVec(v, args) == v + args
  {
  }

  /** Two calls in a row push the same elements as one call with both packs. */
  lemma PushBackVecTwice<T>(v: seq<T>, a: seq<T>, b: seq<T>)
    ensures PushBackVec(PushBackVec(v, a), b) == PushBackVec(v, a + b)
  {
  }
}
