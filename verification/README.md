# constexpr.cpp in Dafny

A model of the deterministic pieces of `constexpr.cpp`, a C++17 scratchpad
that shows off fold expressions, `constexpr` evaluation and memory-fill
loops. The modelled pieces are:

- the naive Fibonacci pair `fib` / `fibCE` (`fibonacci.dfy`, module `Fibonacci`);
- the compile-time table `A<N>`, whose constructor stores `fibCE(i + 37)` at
  every index (`fib_table.dfy`, module `FibTable`);
- the variadic helpers `sum` (a unary left fold over `+`) and `push_back_vec`
  (a fold over the comma operator) (`folds.dfy`, module `Folds`);
- the buffer passes in `main` over a block of `arraySize = 1920 * 1080 * 10`
  bytes. These are the four constant fills with 0x77 (`std::fill`, `memset`,
  a pointer loop, `std::fill` over a vector) and the three `i % 256`
  generators (`std::generate` with a counting lambda, a pointer loop,
  `std::generate` over a vector) (`buffers.dfy`, module `Buffers`);
- the task passed to `async` that appends `'A'` to a string 200 times
  (`builder.dfy`, module `Builder`).

`cint.dfy` (module `CInt`) holds the C++ scalar types of the program's
Windows/MinGW target. It includes `windows.h` and calls `Sleep`, and on that
target `int` and `long int` are both 32 bits wide. The module also covers
`unsigned char` conversion (reduction modulo 256) and C++'s truncating `%`.

A parameter pack is modelled as a sequence of its arguments. A byte block is
modelled as a sequence of bytes: each pass takes the block and returns the
block it leaves behind. A pointer that a lambda captures by reference and
advances is returned as its final offset from the start of the block.
Timing lambdas (`timerFunc`) only wrap these passes, so the passes are
modelled directly and no clock appears.

## Model

| member | source | states |
|---|---|---|
| Fibonacci.Fib | constexpr.cpp:34-37 | the naive double recursion of `fib`, returning `n` itself for `n <= 1` (negative `n` included); FibMatchesPair ties it to the textbook Fibonacci sequence and FibFitsInt32 bounds it to the 32-bit `long int` |
| Fibonacci.FibCE | constexpr.cpp:39-42 | the `constexpr` twin `fibCE`; FibAgree proves it equal to `fib` everywhere |
| Fibonacci.FibAgree | constexpr.cpp:34-42 | `fib(n)` and `fibCE(n)` are equal for every `n`, negative `n` included |
| Fibonacci.FibMatchesPair | constexpr.cpp:34-37 | for every `k >= 0`, the naive double recursion gives the same pair `(F(k), F(k+1))` as an independent linear-time Fibonacci definition |
| Fibonacci.FibNonNeg | constexpr.cpp:34-37 | `fib(n) >= 0` for `n >= 0` and `fib(n) >= 1` for `n >= 1` |
| Fibonacci.FibMonotone | constexpr.cpp:34-37 | from 1 upwards, `fib` never decreases |
| Fibonacci.FibValues | constexpr.cpp:159-164 | `fib(35) = 9227465` and `fibCE(40) = 102334155` (the values `main` prints); `fib(37..40)`; `fib(46)` is the largest value that fits 32 bits and `fib(47) = 2971215073` does not fit |
| Fibonacci.FibFitsInt32 | constexpr.cpp:34-37 | for every 32-bit argument `n`, `fib(n)` fits the 32-bit `long int` result exactly when `n <= 46` (both directions) |
| FibTable.TableFitsIff | constexpr.cpp:47-54 | every value `fibCE(i + 37)` with `i < N` fits an `int` exactly when `N <= 10`, so the bound on instantiable `N` is tight |
| FibTable.Construct | constexpr.cpp:47-54 | for every instantiable `N` (1 to 10), `A<N>().arr` has `N` entries, entry `i` is `fibCE(i + 37)`, and every entry is positive |
| FibTable.MainTable | constexpr.cpp:166-171 | the `int arr[4]` copied out of `A<4>` is `[24157817, 39088169, 63245986, 102334155]` |
| Folds.Sum | constexpr.cpp:58-60 | `sum`'s unary left fold `(... + args)`, defined for non-empty packs only (an empty pack does not compile); SumFoldsAgree and MainSum give its value |
| Folds.SumFoldsAgree | constexpr.cpp:58-64 | on every non-empty pack, the unary left fold `(... + args)` that `sum` uses equals the three other unfoldings listed beside it, modelled as SumLeftInit `(0 + ... + args)`, SumRight `(args + ...)` and SumRightInit `(args + ... + 0)` |
| Folds.SumIsLeftInit | constexpr.cpp:58-64 | the unary left fold equals the binary left fold that starts from the first argument and adds the rest in order |
| Folds.SumLeftInitAppend | constexpr.cpp:58-64 | a left fold over a concatenation continues from the left fold of its first part |
| Folds.MainSum | constexpr.cpp:173 | `sum(45, 66, 88, 109) == 308` |
| Folds.PushBack | constexpr.cpp:84 | one `v.push_back(x)`: the vector grows by one, its old contents are an unchanged prefix, and `x` is the new last element |
| Folds.PushBackVec | constexpr.cpp:81-85 | `push_back_vec(v, a1..an)` grows `v` by `n`, keeps the old contents as an unchanged prefix, and the suffix is exactly `a1..an` in argument order |
| Folds.PushBackVecIsConcat | constexpr.cpp:81-85 | `push_back_vec(v, args...)` leaves `v` as its old contents followed by the pack |
| Folds.PushBackVecTwice | constexpr.cpp:81-85 | pushing pack `a` and then pack `b` gives the same vector as pushing `a` followed by `b` in one call |
| Buffers.NewBlock | constexpr.cpp:199-232 | a freshly made block of `n` bytes (`make_unique<unsigned char[]>` at lines 200, 205, 210, 221, 227, or `vector<unsigned char>` at lines 215, 232) has length `n` and holds zeros |
| Buffers.ArraySizeIsInt32 | constexpr.cpp:196 | `arraySize` is 20736000, which fits an `int`, so the `int` loop counters never overflow |
| Buffers.StdFill | constexpr.cpp:202 | `std::fill(first, last, v)` sets every byte in `[first, last)` to `v` as an `unsigned char` and changes nothing outside that range |
| Buffers.Memset | constexpr.cpp:207 | `memset(p, v, count)` sets the first `count` bytes to `v` as an `unsigned char` and leaves the rest as it was |
| Buffers.PointerFill | constexpr.cpp:212 | the `*pBlock++ = 0x77` loop sets the first `n` bytes, leaves the rest untouched, and moves the pointer exactly `n` bytes (0 when `n <= 0`) |
| Buffers.StdGenerate | constexpr.cpp:220-224 | `std::generate` with `[&i]() { return (i++) % 256; }` stores at `first + j` the counter's `j`-th value, taken through the truncating `%` and the `unsigned char` conversion; the caller's counter ends `last - first` higher; nothing outside `[first, last)` changes |
| Buffers.PointerGenerate | constexpr.cpp:229 | the `*pBlock++ = i % 256` loop makes byte `k` of the first `n` equal `k % 256`, moves the pointer by exactly `n`, and leaves the rest untouched |
| Buffers.FillPasses | constexpr.cpp:196-217 | each of the four constant-fill passes leaves all `arraySize` bytes equal to 0x77; the four blocks are identical; the pointer loop advances by exactly `arraySize` |
| Buffers.GeneratePasses | constexpr.cpp:220-235 | each of the three generate passes leaves byte `k` equal to `k % 256`, so every byte is in `[0, 255]`; the three blocks are identical; both lambda counters end at `arraySize` and the pointer loop advances by exactly `arraySize` |
| CInt.ToUChar | constexpr.cpp:202-229 | converting an `int` to `unsigned char`, as every store into the blocks does, gives the one byte congruent to it modulo 256, and keeps values already in `[0, 255]` |
| CInt.Rem256 | constexpr.cpp:224-229 | C++'s `a % 256` differs from `a` by a multiple of 256, has the sign of `a` (truncation toward zero), and is smaller than 256 in magnitude |
| CInt.NonNegRemToUChar | constexpr.cpp:229 | for a non-negative `int`, C++'s `i % 256` converted to `unsigned char` is the residue of `i` modulo 256 |
| Builder.AppendRepeated | constexpr.cpp:301 | the loop `s = s + c` run `count` times from `""` returns `count` copies of `c` (empty when `count <= 0`), and `c` occurs exactly `|s|` times |
| Builder.RepeatByAppend | constexpr.cpp:301 | `n` copies of `c` are `n - 1` copies followed by one more `c`, and contain `c` exactly `n` times |
| Builder.AsyncTask | constexpr.cpp:301-304 | the string returned by the `async` task has 200 characters, all `'A'` |

## Left out

- Fibonacci.FibValues: does not model a 64-bit `long int`. On a target where `long` is 64 bits, `fib` would not overflow until a larger argument; the model assumes the 32-bit Windows target.
- Fibonacci.FibFitsInt32: a run-time `fib(n)` with `n > 46` overflows `long int`, which is undefined behaviour. The model returns the mathematical value and proves exactly where the 32-bit range ends; it does not model wrap-around.
- Folds.SumFoldsAgree: `sum` is generic in its argument types. Only packs of integers are modelled, with unbounded arithmetic. Signed overflow of `int` additions is not modelled; the call in `main` stays far inside the 32-bit range.
- Folds.PushBackVec: modelled for vectors whose element type equals the argument type. Converting each argument to the vector's element type, and allocation failure, are not modelled.
- Buffers.StdGenerate: requires that the counter stays a 32-bit `int` for every increment. A counter that would pass `INT_MAX` is signed overflow, which is undefined behaviour, so the model does not say what such a pass stores. In `main` the counter starts at 0 and ends at `arraySize`.
- Builder.AppendRepeated: allocation failure while the string grows is not modelled.
- The two-thread append under a mutex (`threadFunc`, started with `thread` and with `async` on `'x'` and `'o'`, using `scoped_lock` and `Sleep`): its only property concerns interleavings under a lock, which is concurrency and outside this sequential model.
- `timerFunc` and `printTimer`: they read the wall clock and write to the console.
- `FoldPrint`, the `boost::core::demangle` calls and all `cout` output: console I/O and a foreign library call.
- `foo` / `make_foo`: a compile-time demonstration of `explicit` constructors with no run-time behaviour; the code after its first `return` is unreachable.
- `fnoe`: an exception demonstration whose only effect is a console line.
- The `if (0 and 5)` and `decltype` demonstrations and the comment blocks that list C++ keywords and library facilities: they have no behaviour beyond printing.
- The time each buffer pass takes (what the program measures) is not modelled; only the contents the passes leave are.
