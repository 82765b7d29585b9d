# fibonacci-flower in Dafny

A model of the three small Java programs of the fibonacci-flower repository:

- **`Fibonacci`** and **`Lucas`**: generator objects that hold a pair
  `(last, current)`, advance it by `current' = current + last, last' = current`
  in Java `long` arithmetic, and append every new `current` to a list. Their
  `main` runs `N - 3` steps for an argument `N > 3` and prints the list.
- **`FibonacciFlower`** (phyllotaxis simulation): the nested `Seeds` class keeps an
  append-only list of seed positions. It evaluates a repulsive potential
  (GROWTH / distance, summed over the seeds), and it grid-searches the
  meristem circle for the angle where that potential is lowest. The `run`
  loop creates a seed at that angle every `periodicity` time steps. It then
  moves every seed one explicit Euler step outward along its own ray, and it
  stops once the step counter exceeds `end`.

Files and modules:

| file | module | models |
|---|---|---|
| `int_math.dfy` | `IntMath` | absolute value, maximum, uniqueness of integer quotients |
| `java_ints.dfy` | `JavaInts` | 64-bit wrap-around of `long`, Java's truncating `/` and `%` |
| `recurrences.dfy` | `Recurrences` | the Fibonacci and Lucas numbers, and where they leave the `long` range |
| `pair_generator.dfy` | `PairGenerator` | the state and the `update`/`step`/`nsteps` code both generator classes share |
| `fibonacci.dfy` | `FibonacciSeq` | the `Fibonacci` class: constructor, invariant, `main` |
| `lucas.dfy` | `LucasSeq` | the `Lucas` class: constructor, invariant, `main` |
| `seed_field.dfy` | `SeedField` | the `Seeds` class: storage, getters, drift, potential |
| `angle_search.dfy` | `AngleSearch` | `Seeds.potential_min` |
| `growth.dfy` | `Growth` | `FibonacciFlower.run` |

Each generator is an immutable record. Each operation is a pure function, and
the class invariant is a predicate that every step preserves. The two classes
carry the same `update`, `step` and `nsteps` code line for line, so the model
defines them once, in `PairGenerator`, and each class adds its constructor,
its invariant and its `main`. The invariant
uses the recurrence as Java computes it, wrapping at 64 bits. Separate lemmas
show that no wrap occurs for `N <= 92`, and that one does occur from
`N = 93` on. The two classes differ in `numbers_index`. The `Fibonacci`
constructor counts each of its three additions, so the index always equals
the list length. The `Lucas` constructor adds two values but counts once, so
the index stays one below the list length. Both `Valid` predicates record this.

The flower positions are exact reals. `Math.cos`, `Math.sin`, `Math.sqrt`,
`Math.atan2` and the reciprocal `1./d` are fields of a `Maths` record of
arbitrary functions. Every statement about the flower therefore holds whatever
those functions return. The selection rule of `potential_min` is proved in
full: it returns the angle of the first sample with the smallest potential if
that potential is below 1000000, and 2π otherwise. The schedule of `run` is
proved exactly: the number of passes, and the number of seeds as the
multiples of the period among the time steps.

Behaviour of the code that is easy to misread:

- A seed created in a pass also drifts in that same pass, because `add` runs
  before the drift loop. After six passes with period 3, seed 1 (created in
  pass 3) has therefore moved three times (`Growth.TickMovesEverySeed`).
- An index at or past the end of the list yields the point (0, 0)
  (`SeedField.Pos`).
- The loop tests `t_count > end` after the body, so at least one pass runs
  even when `end` is negative (`Growth.Run`).
- The angle scan stops strictly below 2π, so 2π is never a sample. The
  initial `phi_crit = 2π` is returned only when no sample has a potential
  below 1000000.

## Model

| member | source | states |
|---|---|---|
| `JavaInts.WrapLong` | Fibonacci.java:54 | the value a `long` holds after `current += last`: it lies in the 64-bit range, agrees with the exact sum modulo 2^64, and equals it when the sum is in range |
| `JavaInts.JavaRem` | FibonacciFlower.java:72 | Java's `%`: `(a/b)*b + a%b == a` with truncating division; the remainder has the dividend's sign and, for the non-negative step counter, equals the Euclidean remainder |
| `Recurrences.FibLongLimit` | Fibonacci.java:16 | F(92) fits in a `long` and F(93) does not |
| `Recurrences.LucasLongLimit` | Lucas.java:16 | L(90) fits in a `long` and L(91) does not, overshooting by less than 2^64 |
| `PairGenerator.Update` | Fibonacci.java:43-50 | `update` (also Lucas.java:39-46) appends exactly `current`, keeps every earlier entry, leaves `current` and `last` unchanged, and moves `numbers_index` in step with the list length |
| `PairGenerator.Step` | Fibonacci.java:52-57 | `step` (also Lucas.java:48-53): `current' == current + last` wrapped to 64 bits, `last' == current`; the list grows by exactly the new `current` and keeps its prefix; the wrapping recurrence and the last-two-entries shape are preserved, and so is the gap between `numbers_index` and the length |
| `PairGenerator.NSteps` | Fibonacci.java:59-64 | `nsteps(n)` (also Lucas.java:55-60) adds exactly max(n, 0) entries, keeps the existing ones, and preserves the recurrence shape and the index gap |
| `PairGenerator.NStepsNonPositive` | Fibonacci.java:59-64 | a non-positive `n` changes nothing |
| `PairGenerator.NStepsAdd` | Fibonacci.java:59-64 | `nsteps(a)` followed by `nsteps(b)` is `nsteps(max(a, 0) + max(b, 0))` for all integer counts: each call performs exactly its count of steps, and a non-positive count none |
| `PairGenerator.MainSteps` | Fibonacci.java:71-76 | both `main` methods (also Lucas.java:67-72) request max(N, 3) - 3 steps |
| `FibonacciSeq.New` | Fibonacci.java:29-41 | the constructor leaves `numbers == [1,1,2]`, `last == 1`, `current == 2`, `numbers_index == 3`, and establishes the class invariant |
| `FibonacciSeq.NStepsKeepsValid` | Fibonacci.java:52-64 | stepping any number of times keeps the class invariant: the list still starts 1, 1, follows the wrapping recurrence, and `numbers_index` equals its length |
| `FibonacciSeq.Main` | Fibonacci.java:68-79 | the printed list has exactly max(N, 3) entries, and `numbers_index` equals that length |
| `FibonacciSeq.ValidIsExactBelow92` | Fibonacci.java:29-57 | in any state reachable under the invariant, each of the first 92 entries is the exact Fibonacci number F(i+1) and a positive `long` |
| `FibonacciSeq.ShortValidIsFibPrefix` | Fibonacci.java:29-57 | a list of at most 92 entries is exactly F(1), ..., F(length) |
| `FibonacciSeq.MainIsExactUpTo92` | Fibonacci.java:16 | for N <= 92, `main` prints a prefix of the Fibonacci sequence, and every value is a positive `long` |
| `FibonacciSeq.MainWrapsFrom93` | Fibonacci.java:16 | for N >= 93, entry 92 is F(93) - 2^64, a negative number: the bound 92 is tight |
| `LucasSeq.New` | Lucas.java:29-37 | the constructor leaves `numbers == [2,1]`, `last == 2`, `current == 1`, `numbers_index == 1` (two additions, one increment), and establishes the invariant |
| `LucasSeq.NStepsKeepsValid` | Lucas.java:48-60 | stepping any number of times keeps the class invariant: the list still starts 2, 1, follows the wrapping recurrence, and `numbers_index` stays one below its length |
| `LucasSeq.Main` | Lucas.java:64-75 | the printed list has N - 1 entries for N > 3 and 2 otherwise; `numbers_index` is one less than that |
| `LucasSeq.ValidIsExactBelow91` | Lucas.java:29-53 | in any state reachable under the invariant, each of the first 91 entries is the exact Lucas number L(i) and a positive `long` |
| `LucasSeq.ShortValidIsLucasPrefix` | Lucas.java:29-53 | a list of at most 91 entries is exactly L(0), ..., L(length - 1) |
| `LucasSeq.MainIsExactUpTo92` | Lucas.java:16 | for N <= 92, `main` prints a prefix of the Lucas sequence, and every value is a positive `long` |
| `LucasSeq.MainWrapsFrom93` | Lucas.java:16 | for N >= 93, entry 91 is L(91) - 2^64, a negative number |
| `SeedField.Empty` | FibonacciFlower.java:111-114 | a new field has no seeds and satisfies `nSeeds == |pos|` |
| `SeedField.Pol2Cart` | FibonacciFlower.java:169-174 | the Cartesian point (r * cos phi, r * sin phi) of polar (r, phi), with cos and sin arbitrary functions; `SeedField.OutwardIsRadial` uses it to state the drift law in polar form |
| `SeedField.Add` | FibonacciFlower.java:117-121 | `add` appends exactly the Cartesian point of (r, phi), increments `nSeeds`, leaves earlier seeds unchanged, and preserves `nSeeds == |pos|` |
| `SeedField.Pos` | FibonacciFlower.java:125-132 | `pos(i)` is the stored seed for 0 <= i < nSeeds and (0, 0) for i >= nSeeds; a negative index is excluded |
| `SeedField.PosAfterAdd` | FibonacciFlower.java:117-132 | after `add`, the getter returns the new seed at the old count, the old seeds below it, and (0, 0) past the end |
| `SeedField.Phi` | FibonacciFlower.java:142-146 | the angle `atan2(y, x)` of the position the getter returns for seed i; `SeedField.RadialStepIsOutward` shows the drift reads it from the seed's own stored position |
| `SeedField.Drift` | FibonacciFlower.java:150-157 | each coordinate of the result is the old coordinate plus `dt * speed` in that coordinate |
| `SeedField.RadialVel` | FibonacciFlower.java:177-183 | a velocity of magnitude `radial_speed` along the direction `Phi` gives for seed i, built from cos and sin of that angle |
| `SeedField.RadialStep` | FibonacciFlower.java:160-165 | one `drift` of `coords` with seed i's radial velocity at speed VR; `SeedField.RadialStepIsOutward` and `SeedField.OutwardIsRadial` state what that step does to a seed |
| `SeedField.RadialStepIsOutward` | FibonacciFlower.java:160-183 | `radial_step(i, pos(i))` moves seed i by `dt * VR` along the direction `atan2` reports for the seed's own position |
| `SeedField.OutwardIsRadial` | FibonacciFlower.java:177-183 | when `atan2` recovers the angle of a point with polar form (rho, theta), one drift step gives the point with polar form (rho + dt*VR, theta): drift is purely radial |
| `SeedField.Potential` | FibonacciFlower.java:186-200 | `potential(position)`: the skip-or-add sum over the `nSeeds` stored seeds; its value is fixed by `SeedField.PotentialOver`, `SeedField.PotentialOfOne` and `SeedField.PotentialSplit` |
| `SeedField.PotentialOver` | FibonacciFlower.java:186-200 | with no seeds the potential is 0 |
| `SeedField.PotentialOfOne` | FibonacciFlower.java:191-198 | one seed contributes GROWTH times the reciprocal of the square root of its squared distance to the query point, or nothing when it sits exactly on it; with `SeedField.PotentialSplit` this fixes the potential of every list of seeds |
| `SeedField.PotentialSplit` | FibonacciFlower.java:191-198 | the potential of a field split into two parts is the sum of the parts' potentials: each seed contributes independently |
| `SeedField.PotentialSkipsCoincident` | FibonacciFlower.java:192-193 | a seed exactly at the query point contributes nothing, so the potential at a seed's own position leaves that seed out |
| `SeedField.PotentialOfCoincidentIsZero` | FibonacciFlower.java:186-200 | if every seed coincides exactly with the query point, the potential is 0 |
| `AngleSearch.SampleAngle` | FibonacciFlower.java:204-208 | samples are 0, 0.05, 0.10, ..., and exactly 126 of them lie below 2π |
| `AngleSearch.Samples` | FibonacciFlower.java:208-211 | entry k is the potential at the point of the circle at sample angle k |
| `AngleSearch.Scan` | FibonacciFlower.java:208-214 | the `for` loop as a recursion over sample index k, carrying `pot` and `phi_crit` and replacing both only on a strictly smaller potential; `AngleSearch.ScanSelects` states the angle it ends on |
| `AngleSearch.FirstMinUnique` | FibonacciFlower.java:210-213 | at most one sample is the first strict minimum |
| `AngleSearch.ScanSelects` | FibonacciFlower.java:208-215 | the loop ends with the angle of the first strict minimum of all samples that lies below the sentinel, or 2π when none lies below |
| `AngleSearch.PotentialMin` | FibonacciFlower.java:203-216 | `potential_min` returns the angle of the first sample whose potential is minimal (ties keep the earlier angle) if it is below 1000000; it returns 2π if and only if no sample is below 1000000 |
| `AngleSearch.PotentialMinIsFirstMin` | FibonacciFlower.java:203-216 | the result is 2π or the angle of a sample that is the first strict minimum |
| `AngleSearch.EmptyFieldPicksAngleZero` | FibonacciFlower.java:205-213 | on an empty field every sample ties at 0, and the strict comparison keeps the first sample, angle 0 |
| `Growth.DriftFrom` | FibonacciFlower.java:81-84 | the drift loop keeps the seed count and `nSeeds == |pos|` |
| `Growth.DriftPass` | FibonacciFlower.java:79-85 | the whole drift pass keeps the seed count and `nSeeds == |pos|` |
| `Growth.DriftFromPointwise` | FibonacciFlower.java:81-84 | the in-place loop from index i leaves earlier seeds alone and moves every later seed as if from its old position: no update reads another seed's new position |
| `Growth.DriftPassPointwise` | FibonacciFlower.java:79-85 | the drift pass touches every index, and each seed moves exactly one outward step computed from its own position |
| `Growth.Nucleates` | FibonacciFlower.java:72 | the test `t_count % periodicity == 0` with Java's remainder; since `t_count` is never negative, `JavaInts.JavaRem` makes it divisibility of `t_count` by abs(periodicity) |
| `Growth.Tick` | FibonacciFlower.java:72-86 | one pass adds exactly one seed when `t_count % periodicity == 0` and none otherwise, and it keeps `nSeeds == |pos|` |
| `Growth.TickMovesEverySeed` | FibonacciFlower.java:72-85 | in one pass every existing seed moves one step; a seed created in that pass sits on the meristem circle at the minimising angle and moves one step as well |
| `Growth.NucleationsCount` | FibonacciFlower.java:72 | over time steps 0..t-1, the seeds created are the multiples of the period: ceiling(t / abs(periodicity)) of them |
| `Growth.Simulate` | FibonacciFlower.java:70-92 | after n passes from the empty field the field is consistent and holds one seed per multiple of the period below n |
| `Growth.FirstSeedAtAngleZero` | FibonacciFlower.java:67-85 | the first pass creates the first seed at angle 0 on the meristem circle, and the seed has moved one step by the end of the pass |
| `Growth.DefaultRunSeedCount` | FibonacciFlower.java:35-36 | with period 3 and end 3250, the loop runs 3251 passes and leaves 1084 seeds |
| `Growth.Run` | FibonacciFlower.java:67-92 | `run` on a new object (the only call the program's `main` makes, so the field starts empty) performs exactly max(end, 0) + 1 passes (t_count = 0..end), even when `end` is negative, and ends in the state those passes produce; with `Growth.Simulate` and `Growth.NucleationsCount` that state holds ceiling(passes / abs(periodicity)) seeds |

## Left out

- `ratio` in both generator classes: it is a `double` division that is only printed.
- `Integer.parseInt(args[0])` and printing: `Main` takes the integer argument and returns the state that would be printed.
- The `int` counters `numbers_index` and `nSeeds` are unbounded integers. An `ArrayList` cannot hold 2^31 entries, so they cannot wrap before the list fails.
- Floating-point rounding, infinities, NaN and signed zero: positions, potentials and angles are exact reals. The exact `==` skip test in `potential` is modelled as equality of real pairs.
- The numeric values of `Math.cos`, `Math.sin`, `Math.sqrt`, `Math.atan2` and `1./d` are arbitrary functions in the model. As a result, properties that depend on actual values are not stated, such as "one seed at angle 0 makes the minimiser choose about π".
- The floating-point accumulation `angle += dphi`: sample k is taken as exactly k * 0.05. `2*Math.PI` is its 16-digit decimal form.
- `Seeds.r(i)`: it is used only by the painter.
- `paint`, the Swing window, the `main` of `FibonacciFlower`, `Thread.sleep` and `repaint`: these are presentation and pacing.
- The `synchronized (seeds.pos)` blocks: they only exclude the painting thread, and the model is sequential.
- A zero `periodicity` is excluded by precondition. Java would throw `ArithmeticException` on `t_count % 0`, and the class fixes the period at 3.
- SeedField.Drift: the Java loop works on arrays of any length. The model specialises it to the two-element arrays every caller passes, so the "same length" part holds by typing.
- SeedField.Pos: a negative index is excluded by precondition, because the Java getter would pass it to `List.get` and throw.
- The O(N²) cost of nucleation: it is a performance property, not a functional one.
