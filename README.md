# CppExamples in Dafny

A Dafny model of the deterministic cores of the CppExamples teaching
repository (ata6502/CppExamples). Each topic gets its own module:

- **UniqueHandle** and **SmartClasses**: the `unique_handle<Traits>` resource
  owner (`CppSqlite/unique_handle.h`) and its smaller sibling in
  `SmartClasses.h`. The owner is a class with a `value` field. The traits
  class is an object that logs every `Close` call, so the contracts say
  exactly when a handle is closed.
- **Gcd**, **Factorial**, **Power**, **Hanoi**, **ReverseEnumerator**: the
  recursive examples. Console output becomes a returned sequence (of moves,
  of printed values, of printed lines).
- **Strings**: `Trim`, `substr`, `clear()` and the C-string copy loop.
- **Templates**: `Min`/`Max`, `Accumulator`, `SumAndProduct`,
  `SumProductAverage`, the variadic `adder` and `matches`, `Factorial<n>`,
  `Increment` and `FindExtreme`.
- **Numbers**: the decimal-digit extraction, the temp and XOR swaps, and the
  integer literals.
- **MoveSemantics**: the swap lambdas on `int&` and the `Resource` class
  with its copy, move and swap operations.
- **Containers**, **Arrays**, **Lambda**, **OperatorOverloading**: the
  container, array, lambda and `Book` comparison examples.
- **Algorithms**: the standard algorithms those examples call
  (`std::count`, `count_if`, `find_if`, `unique_copy`, `remove_if`'s
  survivors, sorting, ordered-container iteration).
- **CInt**: C++'s 32-bit `int` range and its truncating `/` and `%`.

Several files of the repository are byte-identical copies of each other. In
those cases one model serves both files:

- `Recursion/GreatestCommonDivisor.h` and `GreatestCommonDivisor.h`.
- `Recursion/CalculateFactorial.h` and
  `CppExamples/Examples/Recursion/CalculateFactorial.h`.
- The two `CalculatePower.h` files.
- The two `TowerOfHanoi.h` files.

The older and newer editions of the Templates, Numbers, MoveSemantics,
Containers, Arrays, Lambda and OperatorOverloading examples share the code
they have in common.

Where the source changes state step by step, the model does too:

- The handle, `Accumulator`, `Resource`, `std::string`, `std::set` and the
  mutable lambda are classes.
- The copy loop, `Sum`, the fills, `remove_if`, `generate`, the histogram,
  the odd-finder, `Increment` and the digit methods are methods with loops
  or sequential assignments.
- Each of these is proved against a specification function or a closed form.

The simple lambdas of the Lambda examples are plain definitions without
contracts of their own: `doubleValue` is Lambda.DoubleValue, the
`increaseValue` that captures `x` by value is Lambda.IncreaseValue, the
returned `[x]{ return 2 * x; }` is Lambda.ReturnLambda and the echoing
lambda is Lambda.Identity. What they compute is stated by the demos that
call them (Lambda.BasicLambdaDemo, Lambda.CaptureVariables,
Lambda.ReturnLambdaDemo and Lambda.IdentityDemo). The generic `cat` lambda
is the same `+` on ints and strings that the Templates model already
defines, Templates.IntPlus and Templates.Concat.

## Model

| member | source | states |
|---|---|---|
| UniqueHandle.Traits.constructor | CppSqlite/unique_handle.h:20-25 | the traits start with the given invalid sentinel and an empty close log |
| UniqueHandle.Traits.Close | CppSqlite/unique_handle.h:31 | every `Traits::Close` call is appended to the log, and it can never be called with the invalid sentinel |
| UniqueHandle.Handle.Close | CppSqlite/unique_handle.h:27-33 | the private Close closes the held handle exactly when it is valid, and nothing else |
| UniqueHandle.Handle.constructor | CppSqlite/unique_handle.h:41-44 | constructing from a value holds that value and closes nothing |
| UniqueHandle.Handle.Empty | CppSqlite/unique_handle.h:41-44 | default construction holds `Traits::invalid()` and closes nothing |
| UniqueHandle.Handle.Move | CppSqlite/unique_handle.h:46-49 | the move constructor takes the source's value, leaves the source invalid and closes nothing |
| UniqueHandle.Handle.MoveAssign | CppSqlite/unique_handle.h:51-59 | move assignment from another handle is `reset(other.release())`: it closes the old value exactly when it was valid and differs from the incoming one, and the source ends invalid; self-assignment changes nothing |
| UniqueHandle.Handle.Destroy | CppSqlite/unique_handle.h:61-64 | the destructor closes the held handle iff it is valid |
| UniqueHandle.Handle.IsValid | CppSqlite/unique_handle.h:66-69 | `operator bool` holds iff the value differs from `Traits::Invalid()` |
| UniqueHandle.Handle.Get | CppSqlite/unique_handle.h:71-75 | `get()` returns the held value and changes nothing |
| UniqueHandle.Handle.GetAddressOf | CppSqlite/unique_handle.h:77-87 | only an empty handle may hand out its address; afterwards it owns what was written there |
| UniqueHandle.Handle.Release | CppSqlite/unique_handle.h:89-95 | `release()` returns the old value, leaves the handle invalid and closes nothing |
| UniqueHandle.Handle.Reset | CppSqlite/unique_handle.h:97-108 | `reset(v)` closes the old value exactly when it differs from `v` and is valid, then holds `v`; the result is whether `v` is valid |
| UniqueHandle.Handle.Swap | CppSqlite/unique_handle.h:110-115 | member swap exchanges the two values and closes nothing |
| UniqueHandle.SwapHandles | CppSqlite/unique_handle.h:118-124 | the free swap exchanges the two values |
| UniqueHandle.ComparisonsAgree | CppSqlite/unique_handle.h:126-166 | the six comparison operators compare `get()` values and agree with one another over a strict total order on raw handles |
| UniqueHandle.Eq | CppSqlite/unique_handle.h:126-131 | `==` holds for the same handle, and equal handles with the same invalid value are both valid or both not |
| UniqueHandle.Ne | CppSqlite/unique_handle.h:133-138 | `!=` holds exactly when `==` does not |
| UniqueHandle.Lt | CppSqlite/unique_handle.h:140-145 | over an irreflexive order, handles in `<` are never `==` |
| UniqueHandle.Ge | CppSqlite/unique_handle.h:147-152 | over a strict total order, `>=` is `>` or `==` |
| UniqueHandle.Gt | CppSqlite/unique_handle.h:154-159 | `left > right` is `right < left` |
| UniqueHandle.Le | CppSqlite/unique_handle.h:161-166 | over a strict total order, `<=` is `<` or `==` |
| UniqueHandle.ReplaceThenDestroy | CppSqlite/unique_handle.h:97-108 | resetting an owning handle to another value and destroying it closes the old value and then the new one, each once |
| UniqueHandle.MoveThenDestroyBoth | CppSqlite/unique_handle.h:46-64 | after a move, destroying both handles closes the resource exactly once |
| UniqueHandle.MoveAssignThenDestroyBoth | CppSqlite/unique_handle.h:51-64 | move-assigning into an owning handle closes its old value; destroying both handles then closes the moved value once |
| UniqueHandle.SwapThenDestroyBoth | CppSqlite/unique_handle.h:110-124 | after a swap each handle is closed once, by its new owner |
| UniqueHandle.FillThenRelease | CppSqlite/unique_handle.h:77-95 | a handle filled through `get_address_of` and then released hands out the value and closes nothing |
| SmartClasses.NullHandleTraits | SmartClasses.h:131-148 | `null_handle_traits::invalid()` is nullptr, and nothing has been closed yet |
| SmartClasses.DefaultNullHandle | SmartClasses.h:51-68 | a default-constructed `null_handle` holds nullptr and converts to false |
| SmartClasses.ResetSameThenOther | SmartClasses.h:94-108 | resetting to the held handle closes nothing; resetting to another closes the old one once; the destructor closes the last one |
| SmartClasses.ResetToNull | SmartClasses.h:94-126 | `reset()` on an owning handle closes it once and leaves it invalid; a second `reset()` closes nothing |
| SmartClasses.ReleaseThenDestroy | SmartClasses.h:79-89 | `release()` returns the handle without closing it, so the destructor closes nothing |
| SmartClasses.DestroyOwning | SmartClasses.h:58-61 | the destructor closes exactly the owned handle, and nothing for nullptr |
| CInt.Div | CppExamples/Templates.h:65 | C++ `/` truncates toward zero: the magnitude is the quotient of the magnitudes, and the sign is the product of the signs |
| CInt.Rem | Recursion/GreatestCommonDivisor.h:10 | C++ `%` takes the dividend's sign, is smaller than the divisor in magnitude and satisfies `a == b*(a/b) + a%b` |
| CInt.DivRemIdentity | Recursion/GreatestCommonDivisor.h:10 | the truncating quotient times the divisor plus the dividend-signed remainder of the magnitudes gives back the dividend |
| CInt.NonNegativeAgrees | CppExamples/Numbers.h:97-100 | for a non-negative dividend and positive divisor C++'s `/` and `%` are the mathematical quotient and remainder |
| Gcd.Gcd | Recursion/GreatestCommonDivisor.h:8-14 | `gcd` terminates for every non-zero divisor, because the divisor's magnitude falls, and never returns 0 |
| Gcd.GcdDividesBoth | Recursion/GreatestCommonDivisor.h:10-13 | the result divides both arguments |
| Gcd.CommonDivisorDividesGcd | Recursion/GreatestCommonDivisor.h:12-13 | every common divisor of the arguments divides the result |
| Gcd.GcdIsGreatest | Recursion/GreatestCommonDivisor.h:20-24 | no common divisor is larger in magnitude than the result |
| Gcd.GcdPositive | GreatestCommonDivisor.h:8-14 | for a non-negative dividend and a positive divisor the result is positive |
| Gcd.GcdDemos | Recursion/GreatestCommonDivisor.h:24-32 | gcd(48,18) = 6, gcd(45,60) = 15, gcd(60,45) = 15 |
| Factorial.Factorial | Recursion/CalculateFactorial.h:8-14 | `factorial(n)` for n >= 0 is at least 1 |
| Factorial.FactorialMonotone | Recursion/CalculateFactorial.h:12-13 | factorial does not decrease |
| Factorial.FactorialFitsInt32 | Recursion/CalculateFactorial.h:8-22 | n! fits a 32-bit `int` iff n <= 12 |
| Factorial.FactorialFitsInt64 | CppExamples/Examples/Recursion/CalculateFactorial.h:8-14 | up to 20! every factorial fits a 64-bit signed integer |
| Factorial.Wrap32 | Recursion/CalculateFactorial.h:13 | 32-bit wrap-around: the result is in range, congruent to the input modulo 2^32, and equal to it when already in range |
| Factorial.Wrap32Thirteen | Recursion/CalculateFactorial.h:22 | 6227020800 wraps to 1932053504 |
| Factorial.FactorialAsWritten | Recursion/CalculateFactorial.h:8-14 | the factorial computed with 32-bit products always lies in `int`'s range |
| Factorial.AsWrittenExactUpTo12 | Recursion/CalculateFactorial.h:8-21 | up to 12 the 32-bit computation equals n! |
| Factorial.AsWrittenThirteenWraps | Recursion/CalculateFactorial.h:22 | the call factorial(13) yields 1932053504 instead of 6227020800 |
| Factorial.FactorialDemos | Recursion/CalculateFactorial.h:20-57 | 7! = 5040, 10! = 3628800 and 5! = 120 |
| Factorial.Decimal | Recursion/CalculateFactorial.h:47 | `cout << n` prints at least one character, all of them decimal digits |
| Factorial.DecimalRoundTrip | Recursion/CalculateFactorial.h:33 | reading the printed decimal back gives the number |
| Factorial.Digit | Recursion/CalculateFactorial.h:47 | a digit value below 10 prints as the character for that value |
| Factorial.TraceShape | Recursion/CalculateFactorial.h:27-50 | visualize(n) prints 2 lines per nested call, starting with its call line and ending with its return line at the entry depth |
| Factorial.Indentation | Recursion/CalculateFactorial.h:32 | the indentation loop prints `count` copies of the bar |
| Factorial.Visualizer.constructor | Recursion/CalculateFactorial.h:29 | the static counter starts at 0 and nothing is printed |
| Factorial.Visualizer.Enter | Recursion/CalculateFactorial.h:32-34 | entry prints the call line at the current depth and increments the counter |
| Factorial.Visualizer.Leave | Recursion/CalculateFactorial.h:45-47 | exit decrements the counter and prints the return line at the restored depth |
| Factorial.Visualizer.Visualize | Recursion/CalculateFactorial.h:35-49 | visualize(n) returns n!, restores the static counter to its entry value, and prints exactly the trace for n at the entry depth |
| Factorial.VisualizeLines | CppExamples/Examples/Recursion/CalculateFactorial.h:52-58 | visualize(n) returns n! and prints 2 lines per level, the last being its own return line |
| Power.PowerAdd | CppExamples/Recursion/CalculatePower.h:15 | power(b, m + n) = power(b, m) * power(b, n) |
| Power.PowerOfSquare | CppExamples/Recursion/CalculatePower.h:11-15 | power(b*b, k) = power(b, 2k) |
| Power.PowerSign | CppExamples/Examples/Recursion/CalculatePower.h:8-16 | a positive base gives a positive power; a negative base gives a negative power exactly for odd exponents |
| Power.PowerDemos | CppExamples/Recursion/CalculatePower.h:23-25 | 2^8 = 256, 5^4 = 625, 11^2 = 121 |
| Power.Power | CppExamples/Recursion/CalculatePower.h:8-16 | for every exp >= 1, power agrees with an independent square-and-multiply definition of base^exp |
| Power.PowBySquaringStep | CppExamples/Recursion/CalculatePower.h:15 | the square-and-multiply definition also peels off one factor of base at a time |
| Hanoi.MovesBetweenPegs | Recursion/TowerOfHanoi.h:29-34 | with three distinct labels every move goes between two different pegs among them |
| Hanoi.MovesDemo | Recursion/TowerOfHanoi.h:15-24 | towerOfHanoi(3,1,3,2) emits 1→3, 1→2, 3→2, 1→3, 2→1, 2→3, 1→3 |
| Hanoi.RunConcat | Recursion/TowerOfHanoi.h:31-33 | playing two move lists in a row is playing their concatenation |
| Hanoi.RunThree | Recursion/TowerOfHanoi.h:11-13 | the three steps of towerOfHanoi, played in a row, play as one move list |
| Hanoi.MiddleStep | Recursion/TowerOfHanoi.h:12 | with the smaller disks parked on temp, moving the largest disk from source to dest is legal |
| Hanoi.LastStep | Recursion/TowerOfHanoi.h:13 | moving the parked disks onto the largest completes the tower on dest |
| Hanoi.MovesSolve | Recursion/TowerOfHanoi.h:11-13 | the moves never put a disk on a smaller one, carry the whole tower from source to dest and leave every other peg as it was |
| Hanoi.DemoSolves | TowerOfHanoi.h:41-48 | the demo's three disks all end on peg 3 by legal moves |
| Hanoi.Moves | Recursion/TowerOfHanoi.h:27-35 | num <= 0 emits nothing; num disks take 2^num - 1 moves |
| Hanoi.MovesUnfold | Recursion/TowerOfHanoi.h:29-34 | the moves of num disks are those of num - 1 disks to temp, the largest disk, then num - 1 disks from temp |
| ReverseEnumerator.Rev | Recursion/ReverseEnumerator.h:21-32 | the reference reversal: position k holds element n-1-k |
| ReverseEnumerator.RevRev | Recursion/ReverseEnumerator.h:21-32 | reversing twice gives the original |
| ReverseEnumerator.ReverseOfPrint | Recursion/ReverseEnumerator.h:42-45 | `reverse(a, n-1, 0)` outputs what `print(a, 0, n)` outputs, reversed |
| ReverseEnumerator.EnumeratorDemo | Recursion/ReverseEnumerator.h:39-46 | {0,1,2,3,4} prints as 0 1 2 3 4 and 4 3 2 1 0 |
| ReverseEnumerator.Print | Recursion/ReverseEnumerator.h:8-19 | `print(a, i, n)` outputs a[i..n], and nothing when i >= n |
| ReverseEnumerator.Reverse | Recursion/ReverseEnumerator.h:21-32 | `reverse(a, i, f)` outputs a[f..i+1] backwards, and nothing when i < f |
| ReverseEnumerator.RevSnoc | Recursion/ReverseEnumerator.h:25-26 | reversing a sequence with one more element at the end puts that element first |
| Strings.Front | CppExamples/Strings.h:35 | `find_if_not` from the front: the first non-space position, or the end; all before it are spaces |
| Strings.BackBase | CppExamples/Strings.h:38-43 | `find_if_not` from the back, as a base iterator: one past the last non-space, or the beginning; all after it are spaces |
| Strings.TrimAsWrittenBlank | CppExamples/Strings.h:43 | `Trim(" ")` builds a reversed range |
| Strings.TrimAsWritten | CppExamples/Strings.h:31-44 | the range built by Trim is reversed (invalid) exactly for non-empty all-whitespace strings |
| Strings.Trim | CppExamples/Strings.h:31-44 | the trimmed string is no longer than the input |
| Strings.TrimAgrees | CppExamples/Strings.h:31-44 | wherever Trim as written is defined it gives the corrected Trim, and the corrected Trim gives "" elsewhere |
| Strings.TrimIsCore | CppExamples/Strings.h:33-43 | Trim is the slice between whitespace-only ends, interior whitespace kept, with no space at either end; it is empty iff the input is all whitespace |
| Strings.TrimIdempotent | CppExamples/Strings.h:31-44 | trimming twice trims no more than once |
| Strings.TrimDemo | CppExamples/Strings.h:138-139 | `Trim(" \t zzz \r\n ") == "zzz"` |
| Strings.Find | CppExamples/Strings.h:130 | `find(c)` is the first position holding c, or npos iff c is absent |
| Strings.Substr | CppExamples/Strings.h:111-135 | `substr(pos, count)` copies min(count, size - pos) characters from pos; a position past the end throws |
| Strings.SubstrDemos | CppExamples/Strings.h:111-135 | `string("abcdef", 2, 3) == "cde"` and the substring of "A@B" from '@' is "@B" |
| Strings.SubstrOfMissing | CppExamples/Strings.h:130-134 | taking `substr` at the position of a missing character throws |
| Strings.StdString.constructor | CppExamples/Strings.h:111 | a string holds the characters it is built from |
| Strings.StdString.Clear | CppExamples/Strings.h:105 | `clear()` leaves no characters |
| Strings.StdString.Size | CppExamples/Strings.h:93 | `size()` counts the characters, which is `strlen(c_str())` when none is a null |
| Strings.StdString.Empty | CppExamples/Strings.h:92 | `empty()` holds exactly when `size()` is 0 |
| Strings.StdString.CStr | CppExamples/Strings.h:95-109 | `c_str()` is the characters followed by one null terminator, so `strlen` of it is the length |
| Strings.Strlen | CppExamples/Strings.h:287 | `strlen` is the position of the first null character |
| Strings.ClearDemo | CppExamples/Strings.h:105-109 | after `clear()` the string is empty, its size is 0 and its `c_str()` has length 0 |
| Strings.CopyCString | CppExamples/Strings.h:280-283 | the copy loop copies src up to and including its terminator and writes nothing past it |
| Strings.NewCharArray | CppExamples/Strings.h:281 | `char a[] = "..."` holds exactly the characters |
| Strings.StrlenDemo | CppExamples/Strings.h:286-287 | `strlen("abcde")` is 5 |
| Strings.CopyDemo | CppExamples/Strings.h:280-287 | copying "abcde" into a 20-char buffer gives "abcde", and strlen of the source is 5 |
| Templates.Min | CppExamples/Templates.h:212-216 | Min returns one of its arguments |
| Templates.Max | CppExamples/Templates.h:218-222 | Max returns one of its arguments |
| Templates.MinMaxBounds | Templates.h:22-32 | under a strict total order Min is not above either argument and Max not below either; on ties both return b |
| Templates.MinMaxInt | CppExamples/Templates.h:212-222 | for ints Min is the smaller, Max the larger, and together they are the two arguments |
| Templates.MinMaxDemos | Templates.h:71-79 | Min(2,8) = 2, Max(2,8) = 8, Min('e','c') = 'c', Max('e','c') = 'e' |
| Templates.AccumulateSum | CppExamples/Templates.h:157 | accumulating ints adds them to the start |
| Templates.AccumulateConcat | Templates.h:49 | accumulating strings concatenates them after the start |
| Templates.FlattenSnoc | Templates.h:49 | concatenating one more string appends it |
| Templates.Accumulator.constructor | Templates.h:48 | the total starts at `start` |
| Templates.Accumulator.AddAssign | CppExamples/Templates.h:152-161 | `+=` adds t to the total, returns the new total, and keeps the total equal to the accumulation of everything added |
| Templates.AccumulatorDemo | CppExamples/Templates.h:177-185 | 0 + 3 + 7 = 10 and "" + "Hello" + "World" = "HelloWorld" |
| Templates.AccumulatorTestDemo | Templates.h:58-69 | the first `+=` returns 3; the totals are 10 and "hello world" |
| Templates.Accumulator.GetTotal | CppExamples/Templates.h:158 | the total is the accumulation, from `start`, of every value added |
| Templates.SumProductAverage | CppExamples/Templates.h:142-149 | sum and product of the three ints, and their average truncated toward zero: within 1 of the true mean with the sum's sign |
| Templates.SumProductDemos | CppExamples/Templates.h:104-116 | (2,3) gives (5,6) and (2,3,4) gives (9,24,3) |
| Templates.PlusAndConcatAssociative | CppExamples/Templates.h:436 | int `+` and string concatenation are associative |
| Templates.AccumulateCons | CppExamples/Templates.h:436 | accumulating from the front element is starting from it |
| Templates.AccumulateFront | CppExamples/Templates.h:436 | for an associative `+` a left operand can be pulled out of an accumulation |
| Templates.AdderDemos | CppExamples/Templates.h:461-465 | adder("a","b","c") = "abc" and adder over the ints 1,2,3,4 = 10 |
| Templates.Adder | CppExamples/Templates.h:425-437 | for an associative `+`, `adder` (a fold from the right) equals an Accumulator run (a fold from the left) |
| Templates.AdderStep | CppExamples/Templates.h:436 | one step of `first + adder(args...)` extends the left fold by its first argument |
| Templates.SumAndProduct | CppExamples/Templates.h:56-59 | the roots of x^2 - sum*x + prod are exactly a and b |
| Templates.Root | CppExamples/Templates.h:56-59 | x is a root of x^2 - (a+b)x + ab exactly when x is a or b |
| Templates.Matches | CppExamples/Templates.h:445-459 | `matches(t, u, vals...)` iff t is among u, vals... |
| Templates.MatchesDemos | CppExamples/Templates.h:470-491 | matches(1,2) false, matches(1,2-1) true, matches(1,2,1) true, matches(1,2,3,4,5) false, matches("A","B","A") true |
| Templates.TemplateFactorialDemos | CppExamples/Templates.h:586-601 | Factorial<4> = 24, Factorial<0> = 1, and Factorial<n> = n * Factorial<n-1> |
| Templates.Shifted | CppExamples/Templates.h:614-617 | every element raised by N |
| Templates.ShiftedTwice | CppExamples/Templates.h:635-641 | incrementing by m then by n is incrementing by m + n |
| Templates.IncrementAll | CppExamples/Templates.h:614-641 | the range-for over `Increment<int, N>` raises every element by N in place |
| Templates.MaxElement | CppExamples/Templates.h:626 | `max_element` returns a position in the vector |
| Templates.MaxElementIsFirstGreatest | CppExamples/Templates.h:621-627 | under a strict total order the position found holds an element no other exceeds, and every element before it is smaller |
| Templates.FindExtreme | CppExamples/Templates.h:621-627 | the extreme is an element of the non-empty vector |
| Templates.FindExtremeInt | CppExamples/Templates.h:643-649 | with std::less FindExtreme is the maximum, with std::greater the minimum |
| Templates.IncrementDemo | CppExamples/Templates.h:629-650 | nums goes {6,2,3,4,5,1} to {7,3,4,5,6,2} to {9,5,6,7,8,4}; the extremes are 9 and 4 |
| Templates.ShiftedDemo | CppExamples/Templates.h:635-641 | the two increments of the demo |
| Templates.FindExtremeDemo | CppExamples/Templates.h:645-649 | FindExtreme of {9,5,6,7,8,4} is 9 with std::less and 4 with std::greater |
| Numbers.DecimalDigits | CppExamples/Numbers.h:93-112 | the four digits are each between 0 and 9 |
| Numbers.DigitsRecompose | CppExamples/Numbers.h:96-112 | a number up to 9999 is recomposed from its digits, and no other digits 0..9 recompose to it |
| Numbers.SameValueSameDigits | CppExamples/Numbers.h:96-112 | equal values mean equal digits |
| Numbers.Method1Digits | CppExamples/Numbers.h:97-100 | on non-negative n, C++'s `n/1000`, `n%1000/100`, `n%100/10`, `n%10` pick the places |
| Numbers.Method1 | CppExamples/Numbers.h:96-101 | Method #1 gives the decimal digits of every n in 0..9999 |
| Numbers.Method2Digits | CppExamples/Numbers.h:104-111 | each `n /= 10` exposes the next place |
| Numbers.Method2 | CppExamples/Numbers.h:103-112 | Method #2 gives the digits of the last four places and leaves n / 10000, so 0 for a four-digit n |
| Numbers.ShowDecimalDigits | Numbers.h:88-110 | 8125 gives 8,1,2,5 by both methods and n ends at 0 |
| Numbers.SwapWithTemp | CppExamples/Numbers.h:117-123 | the temporary swap exchanges n1 and n2 |
| Numbers.XorSwapSteps | CppExamples/Numbers.h:125-128 | XOR-ing with the same value twice gives back the original |
| Numbers.SwapWithXor | CppExamples/Numbers.h:125-128 | the XOR swap exchanges n1 and n2 |
| Numbers.SwapNumbers | Numbers.h:112-126 | after both swaps (3, 8) is back to (3, 8), by way of (8, 3) |
| Numbers.WithoutSeparators | CppExamples/Numbers.h:151-152 | removing the digit separators leaves none |
| Numbers.SeparatorsIgnored | CppExamples/Numbers.h:151-152 | digit separators do not change a literal's value |
| Numbers.BinaryLiteralDemo | CppExamples/Numbers.h:146 | 0b001010110 is 86 |
| Numbers.SeparatedLiteralDemo | CppExamples/Numbers.h:151 | 1'000'000 is one million |
| Numbers.LiteralValue | CppExamples/Numbers.h:146-152 | a literal of d digits in base b is below b^d |
| Numbers.AppendDigit | CppExamples/Numbers.h:146-152 | appending a digit keeps a value below b^d below b^(d+1) |
| Numbers.RegroupedThousand | CppExamples/Numbers.h:152 | 1'00'0 is one thousand |
| Numbers.RegroupedLiteralDemo | CppExamples/Numbers.h:152 | 1'00'0'00'0 is one million too |
| MoveSemantics.RValueDemo | MoveSemantics.h:13-46 | `get()` is 83, whether bound to an rvalue reference or moved from |
| MoveSemantics.Cell.constructor | MoveSemantics.h:67 | an int object holds its initial value |
| MoveSemantics.SwapByCopy | MoveSemantics.h:52-65 | the `swap` lambda exchanges x and y |
| MoveSemantics.SwapByMove | MoveSemantics.h:72-78 | `betterSwap` exchanges x and y |
| MoveSemantics.StdSwap | MoveSemantics.h:84 | `std::swap` exchanges x and y |
| MoveSemantics.Swapping | CppExamples/MoveSemantics.h:77-112 | from (2, 5) the three swaps end at (5, 2) |
| MoveSemantics.Resource.Default | CppExamples/MoveSemantics.h:117-121 | the default constructor gives the empty name |
| MoveSemantics.Resource.Named | CppExamples/MoveSemantics.h:123-127 | the named constructor holds the name |
| MoveSemantics.Resource.Copy | CppExamples/MoveSemantics.h:129-133 | the copy constructor copies the name |
| MoveSemantics.Resource.Move | CppExamples/MoveSemantics.h:135-143 | the move constructor takes the name and leaves the source's name empty |
| MoveSemantics.Resource.CopyAssign | CppExamples/MoveSemantics.h:150-156 | copy assignment copies the name, self-assignment included |
| MoveSemantics.Resource.MoveAssign | CppExamples/MoveSemantics.h:158-169 | move assignment from another object takes its name and clears it; self move-assignment changes nothing |
| MoveSemantics.Resource.Swap | CppExamples/MoveSemantics.h:171-175 | member swap exchanges the two names |
| MoveSemantics.SwapResources | CppExamples/MoveSemantics.h:181-185 | the free swap exchanges the two names |
| MoveSemantics.CopyThenMove | CppExamples/MoveSemantics.h:129-169 | a copy leaves the original intact, a move empties the moved-from copy, and self move-assignment keeps the name |
| MoveSemantics.ReverseSwaps | CppExamples/MoveSemantics.h:255-258 | `std::reverse` on n elements swaps position k with n-1-k for k below n/2 |
| MoveSemantics.SwapAt | CppExamples/MoveSemantics.h:255 | swapping two distinct elements of the vector changes those two names only |
| MoveSemantics.ReversedUpTo | CppExamples/MoveSemantics.h:255 | the names after the first i swaps have the same length |
| MoveSemantics.ReverseStep | CppExamples/MoveSemantics.h:255 | one more swap extends the reversed part by one position at each end |
| MoveSemantics.Reversed | CppExamples/MoveSemantics.h:255 | reversal keeps the length |
| MoveSemantics.ReversedUpToEnds | CppExamples/MoveSemantics.h:255 | before any swap nothing is reversed; after n/2 swaps everything is |
| MoveSemantics.ReverseResources | CppExamples/MoveSemantics.h:254-258 | `std::reverse` with the Resource swap leaves the names reversed and makes exactly the swaps of ReverseSwaps |
| MoveSemantics.ReverseFive | CppExamples/MoveSemantics.h:255-258 | A..E reverse to E..A by the swaps A↔E and B↔D |
| MoveSemantics.ReverseDemo | CppExamples/MoveSemantics.h:245-259 | the vector A, B, C, D, E is reversed by two swaps, A↔E and B↔D, and C stays in the middle |
| Containers.KeyEquals | CppExamples/Containers.h:149-153 | FileKey equality holds iff name and id are both equal |
| Containers.KeyEqualsIsEquivalence | CppExamples/Containers.h:146-153 | FileKey equality is reflexive, symmetric and transitive |
| Containers.EqualKeysHashEqually | CppExamples/Containers.h:159-174 | whatever the library hashes are, equal keys give equal `hash(Name) ^ hash(Id)` |
| Containers.HashKey | CppExamples/Containers.h:170-174 | the hash is the exclusive-or of the two library hashes: either library hash is recovered from it by the other, and equal library hashes give 0 |
| Containers.RemoveIf | CppExamples/Containers.h:973 | `remove_if` moves the elements that fail the predicate to the front in order, returns the new end, and leaves the tail as it was |
| Containers.RemoveEraseKeepsTheRest | CppExamples/Containers.h:972-979 | remove-then-erase removes exactly the matching elements, keeps every other one with its multiplicity, and works piece by piece |
| Containers.RemoveThenErase | CppExamples/Containers.h:973-978 | before the erase the vector is the survivors followed by the old tail; after it, the survivors |
| Containers.RemovingElements | CppExamples/Containers.h:966-985 | {3,4,1,3,2,5} becomes 4,1,2,5,2,5 after remove_if and 4,1,2,5 after the erase, both ways |
| Containers.RemoveThreesDemo | CppExamples/Containers.h:968-979 | dropping the 3s of {3,4,1,3,2,5} leaves 4,1,2,5 |
| Containers.FillField | CppExamples/Containers.h:987-1007 | the nested fill sets `field[x][y] == x*cols + y` for every cell |
| Containers.CellNumbersAreDistinct | CppExamples/Containers.h:998-1006 | the numbers written are below rows*cols and different cells get different numbers |
| Containers.RowStartsBelow | CppExamples/Containers.h:999-1005 | a later row starts after an earlier row ends |
| Containers.Vector2D | Containers.h:204-224 | the 5x3 field counts 0 to 14 row by row |
| Containers.Histogram | CppExamples/Containers.h:699-704 | the histogram's keys are the alphabetic characters of the text, each mapped to its number of occurrences |
| Containers.Letters | CppExamples/Containers.h:701-703 | a character is a key iff it is alphabetic and occurs in the text |
| Containers.CharLessIsTotal | CppExamples/Containers.h:706 | `<` on char is a strict total order, as `std::map` requires |
| Containers.CountPieces | CppExamples/Containers.h:694 | a character's count in "to be, or not to be" is the sum of its counts in the words |
| Containers.HistogramLetters | CppExamples/Containers.h:694-704 | the letters of "to be, or not to be" are b, e, n, o, r, t |
| Containers.HistogramCountB | CppExamples/Containers.h:694 | b occurs twice |
| Containers.HistogramCountE | CppExamples/Containers.h:694 | e occurs twice |
| Containers.HistogramCountN | CppExamples/Containers.h:694 | n occurs once |
| Containers.HistogramCountO | CppExamples/Containers.h:694 | o occurs 4 times |
| Containers.HistogramCountR | CppExamples/Containers.h:694 | r occurs once |
| Containers.HistogramCountT | CppExamples/Containers.h:694 | t occurs 3 times |
| Containers.HistogramOrder | CppExamples/Containers.h:706-708 | the map's keys are enumerated as b, e, n, o, r, t |
| Containers.HistogramValues | CppExamples/Containers.h:703 | a map is determined by its keys and their values |
| Containers.HistogramDemo | CppExamples/Containers.h:690-710 | the histogram is b:2, e:2, n:1, o:4, r:1, t:3, iterated in that key order |
| Containers.OddElements | CppExamples/Containers.h:947-953 | the repeated `find_if` outputs exactly the odd elements, in order |
| Containers.NoneKept | CppExamples/Containers.h:952 | a stretch with no odd element contributes nothing |
| Containers.OddDemo | CppExamples/Containers.h:947 | the sorted vector {1,2,3,3,4,5} gives 1335 |
| Containers.MinExists | CppExamples/Containers.h:547 | a non-empty set has a least key |
| Containers.MinIsUnique | CppExamples/Containers.h:547 | the least key is unique |
| Containers.IntSet.constructor | CppExamples/Containers.h:516 | a set built from a list holds its keys |
| Containers.IntSet.Emplace | CppExamples/Containers.h:525-543 | `emplace(x)` reports an insertion iff x was absent, and the set then contains x |
| Containers.IntSet.EraseKey | CppExamples/Containers.h:551-553 | `erase(key)` returns 1 if the key was present and 0 otherwise, and removes it |
| Containers.IntSet.EraseFirst | CppExamples/Containers.h:545-549 | `erase(begin(c))` removes the least key and returns the next one, or end |
| Containers.IntSet.Contains | CppExamples/Containers.h:555-558 | `find(key) != end` iff the key is in the set |
| Containers.SetInsertDemo | CppExamples/Containers.h:516-543 | {1,2,4,5,3} has five keys; inserting 0 and emplacing 6 succeeds, and emplacing 6 again does not |
| Containers.SetEraseDemo | CppExamples/Containers.h:545-558 | erase(begin) leaves 1 first, erase(6) removes one key, erase(123) none, 3 is found and 123 is not |
| Containers.SetDemoMinimums | CppExamples/Containers.h:547-549 | 0 is the least key of the demo set, and 1 after it is erased |
| Containers.SetOrderDemo | CppExamples/Containers.h:516-522 | {1,2,4,5,3} is enumerated as 1,2,3,4,5 |
| Containers.Counting | CppExamples/Containers.h:958 | `n++` called count times yields n, n+1, ... |
| Containers.CountingSplit | CppExamples/Containers.h:963 | counting on continues where it stopped |
| Containers.Generate | CppExamples/Containers.h:955-958 | `generate` with `[&n] { return n++; }` fills the vector with n, n+1, ... and leaves n advanced by the size |
| Containers.GenerateN | CppExamples/Containers.h:960-963 | `generate_n` into a back_inserter appends count counter values and advances n by count |
| Containers.GenerateDemo | CppExamples/Containers.h:955-963 | generate gives {1,2,3,4,5}; generate_n on five zeros gives {0,0,0,0,0,1,2,3,4,5} |
| Containers.SortedLiteral | Containers.h:145 | 1 2 3 3 4 5 is sorted |
| Containers.SortedIsPermutation | Containers.h:138-145 | 1 2 3 3 4 5 is a permutation of {3,4,1,3,2,5} |
| Containers.SortDemo | Containers.h:138-146 | every sorted permutation of {3,4,1,3,2,5} is 1 2 3 3 4 5 |
| Containers.CountDemo | Containers.h:148-150 | the sorted vector holds two 3s |
| Containers.UniqueCopyDemo | Containers.h:152-159 | unique_copy of the sorted vector gives 1 2 3 4 5 |
| Containers.FindIfDemo | Containers.h:165-168 | the first element divisible by 5 is 5, at a position inside the vector |
| Containers.Insert | Containers.h:185-188 | `map::insert` adds a missing key and leaves an existing one alone |
| Containers.MapContainer | Containers.h:173-202 | the map iterates by ascending key 1, 2, 3 whatever the insertion order; find(2) gives book3 and books[1] gives book1 |
| Algorithms.SumConcat | CppExamples/Arrays.h:49-50 | the sum of a concatenation is the sum of the sums |
| Algorithms.Count | Containers.h:149 | `std::count` is the element's multiplicity, at most the length |
| Algorithms.Keep | CppExamples/Containers.h:973 | the survivors satisfy the predicate and are no more than the input |
| Algorithms.CountIf | CppExamples/Lambda.h:77-78 | `count_if` is at most the length |
| Algorithms.KeepConcat | CppExamples/Containers.h:973 | the survivors of a concatenation are the survivors of each part, in order |
| Algorithms.KeepMultiset | CppExamples/Containers.h:973 | exactly the elements satisfying the predicate survive, with their multiplicities |
| Algorithms.CountIfIsKeepLength | CppExamples/Lambda.h:77-78 | `count_if` counts exactly the elements that satisfy the predicate |
| Algorithms.FindIf | Containers.h:167 | `find_if` is the first position from `from` whose element satisfies the predicate, or the end |
| Algorithms.UniqueCopy | Containers.h:153-154 | `unique_copy` keeps the first element and every value, and leaves no two equal neighbours; that only neighbours are merged is in Algorithms.UniqueCopyStreams |
| Algorithms.UniqueCopyOfSorted | Containers.h:152-159 | on sorted input `unique_copy` leaves every value once, strictly increasing |
| Algorithms.UniqueCopyStreams | Containers.h:153-154 | `unique_copy` of the empty range is empty, and one more element is written exactly when it differs from the one before it |
| Algorithms.UniqueCopyKeepsDistantRepeats | Containers.h:153-154 | only neighbouring duplicates are dropped: {1,2,1} stays {1,2,1} |
| Algorithms.SortedSplit | Containers.h:141 | the head of a sorted sequence is its least element and the rest is sorted |
| Algorithms.HeadTail | Containers.h:141 | the tail's multiset is the whole minus the head |
| Algorithms.SortedIsUnique | Containers.h:140-141 | only one arrangement of a multiset is sorted, so std::sort's result is determined |
| Algorithms.LeastExists | Containers.h:190-191 | a non-empty set under a strict total order has a least element |
| Algorithms.Least | Containers.h:190-191 | the least element, by name |
| Algorithms.LeastIsUnique | Containers.h:190-191 | the least element is unique |
| Algorithms.IncreasingSplit | Containers.h:190-191 | an increasing enumeration starts with the least key and continues with the others |
| Algorithms.Ascending | Containers.h:190-192 | iterating an ordered container visits every key once, in increasing order |
| Algorithms.PrependLeast | Containers.h:190-191 | the least key followed by an increasing enumeration of the others is an increasing enumeration of all |
| Algorithms.AscendingUnfold | Containers.h:190-191 | Ascending starts with the least key and continues with Ascending of the rest |
| Algorithms.AscendingSameHead | Containers.h:190-191 | any increasing enumeration starts where Ascending starts |
| Algorithms.AscendingIsUnique | Containers.h:185-192 | any increasing enumeration of the keys is the one Ascending gives |
| Arrays.Initialized | CppExamples/Arrays.h:15-18 | an initialiser list fills the first elements and zeros the rest |
| Arrays.InitializationDemo | Arrays.h:15-18 | `{4,5,6}` in 6 gives 4,5,6,0,0,0; `{0}` zero-fills 10; `{7,8,9}` sizes 3 |
| Arrays.SizeofCountIsLength | CppExamples/Arrays.h:25-26 | `sizeof(a)/sizeof(a[0])` is the element count for a local array and pointer size over element size for a pointer |
| Arrays.SizeofDemo | CppExamples/Arrays.h:101-115 | 5 for `{1,2,3,4,5}`, 3 for `int a[3]`, 2 for `new int[4]` |
| Arrays.SizeofCount | CppExamples/Arrays.h:25-26 | `sizeof(a)/sizeof(int)` is the largest count of elements that fits in the bytes |
| Arrays.Sum | CppExamples/Arrays.h:45-52 | `Sum<N>` is the sum of all the elements |
| Arrays.SumSplits | Arrays.h:45-52 | the sum does not depend on where the array is split |
| Arrays.SumLiterals | CppExamples/Arrays.h:56-57 | the demo arrays sum to 15 and 9 |
| Arrays.SumDemo | CppExamples/Arrays.h:54-58 | `Sum` gives 15 for {1,2,3,4,5} and 9 for {1,3,5} |
| Arrays.CountRange | CppExamples/Arrays.h:66-67 | `std::count` over a pointer range counts the value's occurrences in [first, last) |
| Arrays.CountRangeEndExclusive | Arrays.h:66-67 | the element at the end pointer is not counted |
| Arrays.CountFirstHalf | CppExamples/Arrays.h:66 | the first nine elements hold six 3s |
| Arrays.CountSecondHalf | CppExamples/Arrays.h:66 | the last nine elements hold three 3s |
| Arrays.CountDemo | CppExamples/Arrays.h:64-67 | six 3s in a[0..8], though the array holds nine |
| Arrays.FillRowMajor | CppExamples/Arrays.h:88-90 | the row-major loop sets every cell |
| Arrays.FillColumnMajor | CppExamples/Arrays.h:93-95 | the column-major loop sets every cell, the same final state |
| Arrays.FillDemo | Arrays.h:81-88 | the 3x6 array is all 1 after either fill |
| Arrays.SetCell | CppExamples/Arrays.h:76 | `a[i][j] = v` changes that cell and no other |
| Arrays.CellDemo | Arrays.h:91-94 | {{1,0},{0,1}} with `a[0][1] = 8` is {{1,8},{0,1}} |
| Lambda.BasicLambdaDemo | CppExamples/Lambda.h:54-83 | 8, 6, 3 and "ab", and count_if of odd values in {1,2,3} is 2 |
| Lambda.CaptureVariables | CppExamples/Lambda.h:94-98 | increaseValue(3) is 7 both before and after x = 10 |
| Lambda.ReturnLambdaDemo | CppExamples/Lambda.h:133-148 | ReturnLambda(3)() is 6 |
| Lambda.IdentityDemo | Lambda.h:61-67 | "Aye!" gives "Aye!", and the two calls give "Call1 Call2 " |
| Lambda.MixingLambda.constructor | CppExamples/Lambda.h:167 | `[=]` copies x and y into the lambda |
| Lambda.MixingLambda.Call | CppExamples/Lambda.h:167-180 | one call shifts y into x and the element into y, and returns three times the element plus the old y |
| Lambda.Mixed | CppExamples/Lambda.h:167-180 | `for_each` keeps the vector's length |
| Lambda.ForEachMixing | Lambda.h:104-133 | `for_each` with the mutable lambda leaves every element tripled plus the element before it (the captured y for the first) |
| Lambda.Unmixed | CppExamples/Lambda.h:167-180 | the inverse keeps the length |
| Lambda.MixedCons | CppExamples/Lambda.h:167-180 | the mixing unfolds one element at a time |
| Lambda.UnmixedMixed | CppExamples/Lambda.h:167-180 | the mixing loses no information: the original vector is recovered from the result and the captured y |
| Lambda.MutableLambdaDemo | CppExamples/Lambda.h:156-188 | {1,2,3,4} becomes {4,7,11,15} and the caller's x and y stay 1 |
| Lambda.GenerateNDemo | CppExamples/Lambda.h:190-203 | both generate_n calls give 0,1,2; the by-value counter leaves n at 0, the by-reference one at 3 |
| Lambda.FibonacciDemo | CppExamples/Lambda.h:268-278 | fib(7) = 13 |
| Lambda.Fibonacci | CppExamples/Lambda.h:268-276 | the result is positive exactly from 1 on, and -1 below 1 |
| Lambda.FibonacciNondecreasing | CppExamples/Lambda.h:275 | from 2 on the sequence does not decrease |
| OperatorOverloading.BookLessIsStrictOrder | CppExamples/OperatorOverloading.h:28-31 | Book < Book is irreflexive, transitive and asymmetric; books of equal price are incomparable |
| OperatorOverloading.OverloadsAgree | CppExamples/OperatorOverloading.h:28-57 | comparing two books is comparing one with the other's price, from either side |
| OperatorOverloading.MixedComparisonsMirror | OperatorOverloading.h:27-46 | `book < n` and `n < book` never both hold, and both fail exactly when the price is n |
| OperatorOverloading.BookReport | CppExamples/OperatorOverloading.h:59-81 | BookTest writes three clauses: "cheaper" iff b1's price is below b2's, "less than $90" iff b2's is below 90, "more than $200" iff b1's is above 200 |
| OperatorOverloading.BookTestDemo | OperatorOverloading.h:48-78 | with prices 100 and 80 the comparisons are false, true, false and the output is the documented one |

## Left out

- Console output is not written anywhere. Each printed value, move, line or
  clause is returned as a sequence or a datatype value instead. `print` and
  `cout` formatting (precision, `std::hex`, separators) are not modelled.
- The deleted copy constructor and copy assignment of `unique_handle` have
  no counterpart. A Dafny class has no implicit copy, so ownership cannot be
  duplicated in the model either.
- `Traits::Close`, and `CloseHandle` under `VERIFY` in `null_handle_traits`,
  are taken to succeed. The model only records each call.
- The asserting `get_address_of` is a precondition (the handle must be
  empty). In a release build the source would silently leak the held handle.
- The ordering of raw handles used by the comparison operators is a
  parameter.
- `std::hash<string>` and `std::hash<int>` are parameters: unseen library
  functions.
- Overflow is not modelled. Integers are unbounded in:
  - `power` (`long int`);
  - `Sum`, `Accumulator<int>`, `SumAndProduct`, `adder`, fibonacci and
    `Increment`;
  - the histogram and set counters;
  - `visualize` (`unsigned long`).

  Only `factorial` models its 32-bit wrap-around, in FactorialAsWritten,
  because its demo does overflow.
- Power.Power: an exponent below 1 never terminates in the source, so the
  model requires `exp >= 1`.
- Factorial.Factorial: a negative argument never terminates in the source,
  so the model takes a natural number.
- `gcd(INT_MIN, -1)` traps in C++. The model computes with unbounded
  integers and returns -1.
- Floating-point parts are not modelled:
  - `Vector2D` in both OperatorOverloading files;
  - the mixed int/double/float and complex `SumProductAverage`;
  - the float `Book` accumulator;
  - `accumulate(..., 0.0f)`;
  - the double `Min`/`Max` demo;
  - `RoundAndTruncate`;
  - `SpecifyReturnType`.
- Templates.AdderDemos: `adder(1, 2.2, 3, 4)` truncates a double. The demo
  is stated with the ints 1, 2, 3, 4, which give the same 10.
- MoveSemantics.Resource.Move: a moved-from `std::string` is left in a
  valid but unspecified state. The model follows the source's comment and
  empties it, as common library implementations do.
- Containers.RemoveIf: the values `remove_if` leaves past the new end are
  unspecified by the standard. The model keeps the old values there, as the
  common implementation and the source's comment do.
- `std::sort` is not run. Containers.SortDemo states that any sorted
  permutation of the input is the documented output.
- Map and set iteration order is the ghost function Algorithms.Ascending,
  which specifies the order; it is not executed.
- `vector<vector<int>>` is a two-dimensional array. `sizeof` assumes a 4-byte
  `int` and an 8-byte pointer.
- Trim's `isspace` is the "C" locale's. `isalpha` is ASCII letters only.
- Templates.Min and Templates.Max: their own contracts only say that the
  result is one of the arguments. The order properties are in
  Templates.MinMaxBounds and Templates.MinMaxInt.
- Strings.Trim: its own contract only bounds the length. The slice, the
  ends and idempotence are in Strings.TrimIsCore and Strings.TrimIdempotent.
- Gcd.Gcd: its own contract only says the result is non-zero. Divisibility
  and maximality are in the lemmas beside it.
- The raw-string, `wstring`, `to_string`, `stringstream`, `replace` and
  `CharType` parts of the Strings examples are not modelled. They are
  library formatting and conversions with no logic of the example's own.
- The tuple, `Triple` and `WriteColumn` demos and the expansion-rule demos
  of the variadic templates are not modelled. They print type-dependent
  counts only.

## Findings

| source | as written | input that shows it | evidently intended | confidence | as-written member | corrected member |
|---|---|---|---|---|---|---|
| CppExamples/Strings.h:35-43 | `string{ front, back.base() }` with `front` from the first non-space and `back.base()` one past the last non-space | `" "`: `front` is `end(s)` and `back.base()` is `begin(s)`, a reversed range (undefined behaviour) | an all-whitespace string trims to "" | high; not executed | Strings.TrimAsWritten | Strings.TrimIsCore |
| Recursion/CalculateFactorial.h:8-22 | `int factorial(int n)` called with 13 | 13! = 6227020800 exceeds `int`; with 32-bit wrap-around the call yields 1932053504 | a result type wide enough for 13! (64 bits holds up to 20!) | high; not executed | Factorial.AsWrittenThirteenWraps | Factorial.FactorialFitsInt64 |
