# Fifteen puzzle launcher — verified model

This project models the sequential logic of the command-line launcher of a
sliding-tile ("fifteen") puzzle solver, `brs.fifteen.Fifteen`. The model covers
three parts:

- **Goal layout** (`getTerminalState`). Builds the solved board: tiles 1, 2, …
  in row-major order with the blank 0 in the last cell, stored in Java `byte`s
  and cached in a static field. Module `TerminalState`. The cache is an
  explicit input and output. The Java exceptions the construction can throw
  are explicit results: a negative length, and an index past the end when the
  board has more cells than `size`, or when `size` is 0.
- **Argument parsing** (`parseArgs`). A left-to-right fold over the tokens that
  updates an immutable `Config` record. The record stands for the static
  fields `isShowStatistic`, `isReadInStream`, `sideSize` and `stepCount`. The
  scan ends normally, on `-h` (help), on an unknown argument, or on a
  number-format error. Module `Arguments`.
- **Scrambling** (`generateStartState`). From the goal layout, applies randomly
  drawn actions, counting only the ones the rules accept. The random draws are
  a supplied sequence of indices. The rules are a record holding the goal
  layout, the action table and the transition function. Module `Scramble`.

Java's integer semantics live in `JavaInt`: the `int` range, the signed `byte`
with its wrapping `(byte)` conversion, and `Integer.parseInt` as a partial
function. `Wrappers` holds `Option` (a nullable reference) and `Result` (a
value or an exception).

The solved layout is "1 … n²−1 then 0" only while the board has at most 128
cells. `getTerminalState` counts in a `byte`, so from a side length of 12 upwards the
counter wraps past 127 and the layout holds negative numbers. The model
follows the code here (`GoalLayoutWraps`).

## Model

| member | source | states |
|---|---|---|
| `TerminalState.GetTerminalState` | src/main/java/brs/fifteen/Fifteen.java:144-156 | A cached layout is returned unchanged whatever the arguments. A negative size throws and leaves the cache null. More visited cells than `size` throws an index error at `size`, after the first `size` cells were counted and the array cached. `size` 0 throws at index -1. Otherwise the result equals the reference `GoalLayout` and is cached. |
| `TerminalState.GoalLayoutIsPermutation` | src/main/java/brs/fifteen/Fifteen.java:147-153 | On a square board of at most 128 cells, every cell lies in 0..size−1 and no two cells are equal. Tile 0 is only in the last cell. `GoalPosition` inverts the layout, so every value 0..size−1 occurs. |
| `TerminalState.GoalLayoutWraps` | src/main/java/brs/fifteen/Fifteen.java:147-150 | On a square board of more than 128 cells, cell 127 holds the wrapped byte −128. |
| `JavaInt.ToByte` | src/main/java/brs/fifteen/Fifteen.java:150 | The `(byte)` result is congruent to its input modulo 256 and equals it when the input is already in the byte range. |
| `JavaInt.ByteIncrement` | src/main/java/brs/fifteen/Fifteen.java:147-150 | Pre-incrementing a byte that holds `(byte) x` yields `(byte) (x + 1)`, so the counter `k` is the wrapped count of increments. |
| `JavaInt.ParseInt` | src/main/java/brs/fifteen/Fifteen.java:182 | `Integer.parseInt` fails on anything that is not a numeral, with an error naming the input. A value it returns is an `int`. The input's digits are leading zeros followed by the canonical decimal spelling of the value's magnitude. A negative value comes with a leading `-`, and a leading `-` never gives a positive value. |
| `JavaInt.DigitsCanonical` | src/main/java/brs/fifteen/Fifteen.java:182 | Every non-empty digit string is some leading zeros followed by the canonical decimal spelling of its value (the parse→print half of the round trip). |
| `JavaInt.ParseIntDecimal` | src/main/java/brs/fifteen/Fifteen.java:188 | Every `int`, `Integer.MIN_VALUE` included, spelt as `Integer.toString` spells it, parses back to itself (the print→parse half of the round trip). |
| `JavaInt.ParseIntRejectsOption` | src/main/java/brs/fifteen/Fifteen.java:180-191 | A minus sign followed by a non-digit never parses, so the option names `-s` and `-c` always fail. |
| `Arguments.ParseArgs` | src/main/java/brs/fifteen/Fifteen.java:163-166 | A null or empty argument array leaves every setting unchanged and completes normally. |
| `Arguments.ScanMatchesExpected` | src/main/java/brs/fifteen/Fifteen.java:167-193 | From any position, the scan equals the reference outcome `Expected`. Leading `-v` tokens set the statistics flag. The first other token decides the stop: end of input, `-h`, a number-format error on `-s`/`-c` with the stream flag cleared, or an unknown argument. |
| `Arguments.ParseArgsOutcome` | src/main/java/brs/fifteen/Fifteen.java:163-194 | `parseArgs` on any array gives the reference outcome, and never changes `sideSize` or `stepCount`. |
| `Arguments.ParseArgsCompletes` | src/main/java/brs/fifteen/Fifteen.java:167-193 | Parsing completes normally if and only if every token is `-v`. |
| `Arguments.VerboseContinues` | src/main/java/brs/fifteen/Fifteen.java:176-179 | A leading `-v` gives the same outcome as parsing the remaining tokens with the statistics flag already set. |
| `Arguments.FirstNotVerboseShift` | src/main/java/brs/fifteen/Fifteen.java:176-179 | After one dropped leading token, the first non-`-v` position moves back by exactly one. |
| `Arguments.UnknownArgumentAborts` | src/main/java/brs/fifteen/Fifteen.java:192 | A non-option token after only `-v` tokens aborts with an unknown-argument error naming it. The statistics flag is already set if any `-v` came before; nothing else changes. |
| `Arguments.NumericOptionFails` | src/main/java/brs/fifteen/Fifteen.java:180-191 | `-s` or `-c` after only `-v` tokens clears the stream flag. It then stops with a number-format error on the option name itself, whatever follows. |
| `Arguments.HelpStops` | src/main/java/brs/fifteen/Fifteen.java:168-175 | `-h` ends the scan with the help outcome and the settings as they stood. |
| `Arguments.SideOptionRejectsValue` | src/main/java/brs/fifteen/Fifteen.java:180-191 | As written, `-s 3` and `-c 3` stop with a number-format error on the option name. They do not store 3. |
| `Arguments.ScanIntendedReadsValue` | src/main/java/brs/fifteen/Fifteen.java:180-191 | In the corrected scan, `-s t` or `-c t` clears the stream flag when `Integer.parseInt` accepts `t` with value `n`. This covers signs, leading zeros and `Integer.MIN_VALUE`. The scan stores `n` as side length or step count and continues after the value. |
| `Arguments.ScanIntendedReadsSpelling` | src/main/java/brs/fifteen/Fifteen.java:180-191 | In the corrected scan, `-s` or `-c` followed by any `int` in its `Integer.toString` spelling stores that value. |
| `Scramble.Scramble` | src/main/java/brs/fifteen/Fifteen.java:125-133 | With no moves owed, the layout is returned as it is. Without actions, a positive count throws as `nextInt(0)` does. Otherwise the accepted actions, applied in order, lead from the start layout to the result. There are exactly `stepCount` of them, or fewer with the rest still owed when the draws run out. Every one comes from the action table. |
| `Scramble.GenerateStartState` | src/main/java/brs/fifteen/Fifteen.java:119-134 | With `swapCount <= 0` the result is the goal layout itself. When it finishes, the result is the goal layout after exactly `swapCount` accepted actions. |
| `Scramble.RejectedChoiceIsFree` | src/main/java/brs/fifteen/Fifteen.java:126-131 | A draw whose action is rejected changes neither the layout nor the number of moves still owed. |
| `Scramble.AcceptedChoiceCounts` | src/main/java/brs/fifteen/Fifteen.java:126-131 | A draw whose action is accepted moves to the new layout and uses up exactly one move. |
| `Scramble.ScrambleFollowsWalk` | src/main/java/brs/fifteen/Fifteen.java:120-133 | The scramble finishes if and only if the reference walk (every accepted draw, with no move limit) has at least `stepCount` actions. It then applied exactly the walk's first `stepCount` actions. Otherwise it applied the whole walk and still owes the difference. |

## Left out

- The A* search engine, the search states and the puzzle rules (`Astar`, `State`, `FifteenState`, `FifteenRules`, `FifteenRules2`) are not part of this model. `doAction`, `getActions` and `getTerminateState` appear only as fields of the `Rules` record.
- `main` is left out: console-encoding setup, printing the solution and statistics, and wall-clock timing are I/O.
- `readStartState` reads standard input, and `showHelp` reads a resource file and exits the process. Both are I/O. `-h` is modelled only as the `Help` stop. The path where reading the help file throws an `IOException` and the scan continues is not modelled.
- `java.util.Random` is replaced by an explicit sequence of draws. The loop in `generateStartState` keeps drawing forever while actions are rejected. `OutOfChoices` marks where the supplied draws end; `generateStartState` itself never ends that way.
- Scramble.GenerateStartState: stated for a finite draw sequence. The loop in `generateStartState` need not terminate if every drawn move is rejected forever.
- JavaInt.ParseInt: accepts ASCII digits only. Java's `Character.digit` also accepts other Unicode decimal digits.
- TerminalState.GetTerminalState: does not model `OutOfMemoryError` for a huge `size`.
- A `null` element inside the argument array is not modelled: the JVM never passes one to `main`.

## Findings

| source | as written | input that shows it | evidently intended | confidence | as-written member | corrected member |
|---|---|---|---|---|---|---|
| src/main/java/brs/fifteen/Fifteen.java:180-191 | `-s` and `-c` pass the option token `args[i]` itself to `Integer.parseInt`, which always throws; the `i++` that would skip the next token is never reached | arguments `-s 3`: the scan stops with a NumberFormatException on `-s` and the side length stays 4 | parse the following token `args[i + 1]` as the value, then skip it | high (not executed) | `Arguments.SideOptionRejectsValue` | `Arguments.ScanIntendedReadsValue` |
