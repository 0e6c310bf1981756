# Dice groups: validation, shorthand and roll-and-keep

A Dafny model of the `dice` package of rand-table. A dice group is a number of
identical dice, each with a number of sides. When the group is rolled, the
lowest `DropLow` faces and the highest `DropHigh` faces are discarded. What is
left is added up into an unbounded total.

The model covers:

- the five validation rules and the order in which they are checked;
- the five error kinds, each with its integer payloads and its message text;
- construction with `New` / `NewExt`;
- the shorthand text (`5d20L2H1`);
- the injectable random source;
- the roll itself. The roll draws `Number` faces, sorts them in place, cuts the
  sorted faces into a dropped-low prefix, a kept middle and a dropped-high
  suffix, and sums the kept middle.

Files, one module each:

| file | module | models |
|---|---|---|
| `wrappers.dfy` | `Wrappers` | Go's `error` result (`Option`) and `(*Dice, error)` pair (`Result`) |
| `decimal.dfy` | `Decimal` | the `%d` text of an integer, and a parser used only to state that the text determines the number |
| `errors.dfy` | `DiceErrors` | `pkg/dice/errors.go`: the error kinds and their messages |
| `rand.dfy` | `RandSource` | `pkg/dice/rand.go`: the `Rand` interface, and the two test sources of `pkg/dice/dice_test.go` |
| `sorting.dfy` | `IntSort` | the in-place sort of the raw faces, and a reference sort on values |
| `dice.dfy` | `DiceSpec` | `Dice`, `Validate`, `New`, `NewExt`, `String` |
| `roll.dfy` | `DiceRoll` | `Results`, `RollResults`, `RollRand`, and the roll scenarios of the tests |

### How the random source is modelled

The random source is a class `Rand`:

- `state` is a natural number that each draw replaces.
- `step` is a constant function. From the current state and the bound `n`, it gives the value drawn and the next state.
- `Honest(step)` (`Rand.Valid()`) is the interface's promise: every draw with a bound `n > 0` lies in `[0, n)`.

`Draws` and `After` give the values of `k` successive draws and the state after them. With them, a roll is fully determined by the source's starting state. The two test sources are `MaxStep`, which always returns `n - 1`, and `IterStep`, a counter taken modulo `n`.

## Model

| member | source | states |
|---|---|---|
| `Decimal.ParseNatText` | pkg/dice/errors.go:10 | reading back the decimal digits of a natural number gives that number |
| `Decimal.ParseIntText` | pkg/dice/errors.go:10 | reading back the `%d` text of any integer, negative ones included, gives that integer |
| `Decimal.IntTextInjective` | pkg/dice/errors.go:10 | two integers have the same `%d` text exactly when they are equal |
| `Decimal.IntText` | pkg/dice/errors.go:10 | Go's `%d` text of an integer is non-empty and starts with '-' exactly when the integer is negative |
| `Decimal.IntTextShape` | pkg/dice/dice.go:52-59 | a `%d` text is non-empty, holds only digits and '-', and starts with '-' exactly for negatives |
| `Decimal.NumeralSplit` | pkg/dice/dice.go:52 | a numeral followed by text that cannot continue it, such as a letter or a space, is split in only one way |
| `DiceErrors.Prefix` | pkg/dice/errors.go:9-35 | the fixed text in front of each kind's first number; the five texts are longer than 10 characters and differ at character 10 ('d', 's', 'l', 'h', 'i') |
| `DiceErrors.Payload` | pkg/dice/errors.go:9-35 | the `%d` part of each message is non-empty and holds a space exactly for the too-many-dropped kind (`low + high >= num`) |
| `DiceErrors.Message` | pkg/dice/errors.go:9-35 | each error's text is its kind's fixed prefix followed by a non-empty payload |
| `DiceErrors.MessageMark` | pkg/dice/errors.go:9-35 | the five message prefixes differ at character 10, so the message tells the kind |
| `DiceErrors.MessageInjective` | pkg/dice/errors.go:9-35 | two errors have equal messages exactly when they are the same kind with the same payloads |
| `DiceErrors.TooManyDroppedTail` | pkg/dice/errors.go:33-35 | the too-many-dropped message determines its three payloads: low, then high, then number |
| `RandSource.Draws` | pkg/dice/rand.go:8-10 | `k` successive draws give exactly `k` values |
| `RandSource.DrawsInRange` | pkg/dice/rand.go:8-10 | every draw of an honest source with bound `n` lies in `[0, n)` |
| `RandSource.Rand.constructor` | pkg/dice/dice_test.go:24-32 | a source starts in the given state with the given draw function |
| `RandSource.Rand.Intn` | pkg/dice/rand.go:8-10 | a draw returns the value of the source's step and moves to its next state; for an honest source the value lies in `[0, n)` |
| `RandSource.MaxStep` | pkg/dice/dice_test.go:15-22 | the constant-maximum source draws n - 1, which lies in [0, n), and keeps its state |
| `RandSource.IterStep` | pkg/dice/dice_test.go:24-32 | the counting source draws within [0, n), draws its counter itself while the counter is below n, and increments the counter |
| `RandSource.TestSourcesHonest` | pkg/dice/dice_test.go:15-32 | the constant-maximum source and the counting source both keep the `[0, n)` contract |
| `IntSort.Insert` | pkg/dice/dice.go:119 | inserting adds exactly one copy of the element and keeps the length plus one |
| `IntSort.InsertSorted` | pkg/dice/dice.go:119 | inserting into a sorted sequence keeps it sorted |
| `IntSort.SortSeq` | pkg/dice/dice.go:119 | the reference sort returns a sorted permutation of its input |
| `IntSort.SortedUnique` | pkg/dice/dice.go:119 | two sorted sequences with the same multiset are equal, so sorting is deterministic |
| `IntSort.SortSeqOfSorted` | pkg/dice/dice.go:119 | sorting a sequence that is already sorted leaves it unchanged |
| `IntSort.SortInts` | pkg/dice/dice.go:119 | the in-place sort leaves the array sorted and a permutation of what it held, namely the reference sort of its old contents |
| `IntSort.SiftDown` | pkg/dice/dice.go:119 | one insertion step extends the sorted prefix by one element, leaves the elements after it unchanged, and keeps the array's multiset |
| `DiceSpec.Validate` | pkg/dice/dice.go:71-89 | validation succeeds exactly when number >= 1, sides >= 2, dropLow >= 0, dropHigh >= 0 and dropLow + dropHigh < number all hold |
| `DiceSpec.ValidateReportsFirstViolation` | pkg/dice/dice.go:72-86 | when several rules are broken, validation reports the first in the order count, sides, drop-low, drop-high, too many dropped, carrying the field values |
| `DiceSpec.NewExt` | pkg/dice/dice.go:34-46 | either the group with exactly the given fields and no error, or no group and exactly the error validation gives |
| `DiceSpec.New` | pkg/dice/dice.go:28-30 | a group dropping nothing; it fails only when number < 1 (count error first) or sides < 2 |
| `DiceSpec.String` | pkg/dice/dice.go:49-60 | the shorthand starts with `{number}d{sides}` and is longer than that exactly when dice are dropped low or high |
| `DiceSpec.StringShape` | pkg/dice/dice.go:49-60 | the shorthand is `{number}d{sides}`, then `L{dropLow}` only if dropLow > 0, then `H{dropHigh}` only if dropHigh > 0 |
| `DiceSpec.StringInjective` | pkg/dice/dice.go:49-60 | the shorthand is canonical: groups with non-negative drop counts have equal texts exactly when they are equal |
| `DiceSpec.ConstructionExamples` | pkg/dice/dice_test.go:44-150 | the constructions and errors the tests expect, e.g. `New(0, 20)` fails with the count error and `NewExt(2, 20, 1, 1)` with the too-many-dropped error (1, 1, 2) |
| `DiceSpec.ShorthandExamples` | pkg/dice/dice_test.go:245-269 | the shorthand texts the tests expect: `2d20`, `2d20L1`, `2d20H1`, `3d20L1H1` |
| `DiceSpec.ValidateAsWritten` | pkg/dice/dice.go:71-89 | validation as Go evaluates it, with the too-many-dropped sum taken modulo 2^64: it accepts exactly the valid groups plus those whose first four rules hold and whose drop counts add up past the largest 64-bit int |
| `DiceSpec.ValidateAsWrittenDiffers` | pkg/dice/dice.go:84-86 | validation with Go's 64-bit sum differs from the intended one exactly when the first four rules hold and dropLow + dropHigh exceeds the largest 64-bit int |
| `DiceSpec.TooManyDroppedOverflow` | pkg/dice/dice.go:84-86 | 2d20 dropping 9223372036854775807 low and 1 high passes Go's check, although its dropped-low slice would be longer than the two faces (and its kept slice would run backwards) |
| `DiceSpec.ValidBoundsSlices` | pkg/dice/dice.go:121-127 | for a group validation accepts, every slice bound of the roll lies in range: 0 <= dropLow <= number - dropHigh <= number |
| `DiceRoll.Split` | pkg/dice/dice.go:121-133 | slicing sorted faces keeps them as raw, keeps number - dropLow - dropHigh faces, and drops dropLow low and dropHigh high |
| `DiceRoll.Outcome` | pkg/dice/dice.go:112-133 | the reference outcome of a roll keeps all `number` faces as raw and keeps number - dropLow - dropHigh of them |
| `DiceRoll.OutcomeRaw` | pkg/dice/dice.go:112-119 | the raw faces of a roll have length number, are sorted ascending, and are a permutation of the drawn faces |
| `DiceRoll.SplitPartitions` | pkg/dice/dice.go:121-133 | dropped-low ++ kept ++ dropped-high is the raw faces; the parts have dropLow, number - dropLow - dropHigh and dropHigh elements; the total is the sum of the kept faces |
| `DiceRoll.SplitOrdered` | pkg/dice/dice.go:119-127 | on sorted faces, every kept face is >= every dropped-low face and <= every dropped-high face |
| `DiceRoll.SumBounds` | pkg/dice/dice.go:129-133 | a sum of faces in [1, sides] lies between the count and the count times sides |
| `DiceRoll.FacesInRange` | pkg/dice/dice.go:115-117 | each face drawn from an honest source (draw + 1) lies in [1, sides] |
| `DiceRoll.OutcomeFacesInRange` | pkg/dice/dice.go:115-119 | when every drawn face lies in [1, sides], so does every raw face of the outcome |
| `DiceRoll.OutcomeValueBounds` | pkg/dice/dice.go:129-133 | the total lies between the number of kept dice and that number times the sides |
| `DiceRoll.RollResults` | pkg/dice/dice.go:109-136 | the roll makes `number` draws with bound `sides` in order and returns their faces sorted, split and summed, as the reference outcome says; the source ends in the state after those draws; with an honest source every raw face lies in [1, sides] |
| `DiceRoll.SplitSorted` | pkg/dice/dice.go:121-133 | slicing the sorted faces and adding the kept ones one at a time gives the reference split and total |
| `DiceRoll.RollRand` | pkg/dice/dice.go:100-102 | the total returned is the total of the detailed roll; with an honest source it lies between the kept count and the kept count times sides |
| `DiceRoll.MaxSourceScenario` | pkg/dice/dice_test.go:184-197 | the constant-maximum source on 2d20 gives raw [20, 20], all kept, nothing dropped, total 40 |
| `DiceRoll.SequentialAfter` | pkg/dice/dice_test.go:28-32 | whatever the bound, the counting source's state is the seed plus the number of draws |
| `DiceRoll.SequentialDraws` | pkg/dice/dice_test.go:28-32 | while the counter stays below the bound, the counting source draws consecutive values |
| `DiceRoll.SequentialFaces` | pkg/dice/dice_test.go:203 | five d20 from the counting source at counter c <= 15 show c+1 to c+5 (1 to 5 from zero) |
| `DiceRoll.SequentialDropLow` | pkg/dice/dice_test.go:198-212 | 5d20 dropping 3 low with the counting source keeps the two highest faces (4 and 5, total 9 from zero) |
| `DiceRoll.SequentialDropHigh` | pkg/dice/dice_test.go:213-227 | 5d20 dropping 3 high keeps the two lowest faces (1 and 2, total 3 from zero) |
| `DiceRoll.SequentialDropBoth` | pkg/dice/dice_test.go:228-242 | 5d20 dropping 2 of each end keeps the middle face (3, total 3 from zero) |
| `DiceRoll.RollSequentialDropBoth` | pkg/dice/dice_test.go:228-242 | building 5d20L2H2 and rolling it with a fresh counting source gives dropped-low [1, 2], kept [3], dropped-high [4, 5], total 3 |

## Left out

- `stdRand`, `StdRand` and the zero-argument `Roll` (pkg/dice/rand.go:12-20, pkg/dice/dice.go:94-96) are not modelled. They forward to Go's global `math/rand` generator, a foreign call. Its only statable property is the `[0, n)` contract, which `Honest` already captures.
- How uniform and how good the draws are statistically is left out, because it is a probabilistic property.
- `RollResults` on an invalid group is left out. The Go code may panic there, so the model makes `Valid(d)` a precondition of the roll.
- `Intn` with a bound `n <= 0` is excluded by a precondition, because Go's generator panics on it. A valid group always draws with `sides >= 2`.
- Go's `sort.Ints` is a pattern-defeating quicksort. The model sorts with insertion sort instead. The result is still fixed, because a sorted permutation is unique (`SortedUnique`).
- Slice aliasing is not modelled. In Go, `DroppedLow`, `Kept` and `DroppedHigh` share `Raw`'s backing array, and `Results` is returned by pointer. Nothing writes to them after the roll returns, so the model uses immutable sequences and a `Results` value.
- Go's nil slice and empty slice are both the empty sequence.
- Error values are modelled by their kind, payloads and message text. Their identity as Go `error` interface values is not.
- `big.Int` arithmetic is Dafny's unbounded `int`.
- The `Dice` fields are unbounded integers. Go's 64-bit `int` shows up only in `ValidateAsWritten`, where its overflow changes the outcome (see Findings). A face value never overflows, because `Intn(Sides) + 1 <= Sides`.
- Deserialising a `Dice` from JSON or YAML is not part of this model. The doc comment of `Validate` mentions it.
- A random source's state is a natural number, and each draw depends only on that state and the bound. A source with richer state must encode it as a number.

## Findings

| source | as written | input that shows it | evidently intended | confidence | as-written member | corrected member |
|---|---|---|---|---|---|---|
| pkg/dice/dice.go:84 | (modelled by `DiceSpec.ValidateAsWritten`) `d.DropLow+d.DropHigh >= d.Number` is evaluated in 64-bit `int`, so the sum can wrap around to a negative number | Number 2, Sides 20, DropLow 9223372036854775807, DropHigh 1. The sum wraps to -9223372036854775808, which is below 2, so `Validate` returns nil. `RollResults` then takes `Raw[:9223372036854775807]` at pkg/dice/dice.go:122 from a slice of two faces, and panics there. | reject the group with the too-many-dropped error (9223372036854775807, 1, 2). The doc comment says a validated group can be rolled without a panic. | high (not executed) | `DiceSpec.TooManyDroppedOverflow` | `DiceSpec.ValidBoundsSlices` |
