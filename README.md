# Kakuro constraint engine in Dafny

This project models the constraint engine of a console Kakuro game. The board
is a `Width × Height` grid of squares. Row `y = 0` is the bottom row. Each
square has a fixed kind:

- **Even**: holds a digit from 2, 4, 6, 8;
- **Odd**: holds a digit from 1, 3, 5, 7, 9;
- **Parity**: holds any digit 1–9;
- **Sum**: a clue square with a rightward sum, a downward sum or both;
- **Block**: holds nothing.

A rightward (X) run starts right after its clue square. A downward (Y) run
starts below its clue square. Each run is the stretch of fillable squares up to
the next Sum or Block square or the edge of the board.

The model covers:

- the square itself (`Container.cs`): its guarded `Value` setter and its three
  constructors;
- the three position lists built when a board is loaded, and their final order;
- the run scanners: kinds along a run, digits already placed;
- the combination generator `CartesianProduct` with `CheckRepetionsArray`;
- the run checkers `CheckSumX/Y` and `CheckRepetionsX/Y`, and the global `CheckAll`;
- the forward check `CheckIfThereAreStillPossibleCombinationsX/Y`;
- the backtracking solver `SolveCombinationsUsingXAxisRun/YAxisRun`, which
  writes candidate tuples onto the board in place;
- the axis choice of `SolveCombinations`.

Modules:

- `Optional`: the `Option` type, for C#'s nullable `int?`.
- `Containers`: the square kinds, the legal digits of each kind, and the class
  `Container`. Its kind and clue sums are `const`. Its `value` changes only
  through `SetValue`. A constructor that throws in C# is a static factory
  returning `None`.
- `Combinations`: the generator, written twice.
  - `Stage` and `Combinations` are the level-by-level computation as functions.
  - `CartesianProduct` is the source's loop, proved equal to them.
  - The result is characterised exactly: soundness, completeness and strict
    lexicographic order.
- `Grid`: pure views of the board.
  - `Layout`: the kinds and clue sums.
  - `Values`: the digits.
  - Runs, walks and back-scans to a clue, as position sequences.
  - The meaning of each check as a predicate: `SumOk`, `RepsOk`,
    `CanStillComplete`, `CrossingOk`.
- `Locations`: the order in which the file reader meets squares, the list
  reversal, and the `(x, y)` sort of the downward-clue list.
- `Board`: the class `Kakuro`. It holds the grid (`array2<Container>`), the
  three lists, and the mutable `isSolved` and `combinationsTraversed`.
  - Its methods are the source's loops, each proved against the predicates of
    `Grid`.
  - The X and Y versions of each operation are one method with an `Axis`
    parameter. "Forward" means x + 1 for X and y − 1 for Y.
  - The ghost field `values` mirrors the digits of the square objects. The
    solver's writes keep the mirror exact.

## Model

| member | source | states |
|---|---|---|
| Containers.CsRemainder2 | Container.cs:26-30 | C#'s `value % 2` truncates toward zero: the result differs from n by an even number, lies in −1..1, and has the sign of n. It is 0 exactly for even n. |
| Containers.SetterAccepts | Container.cs:24-41 | The four guards of the setter let a non-null digit through exactly when it is legal for the kind: Even {2,4,6,8}, Odd {1,3,5,7,9}, Parity 1–9, and never on Sum or Block. |
| Containers.Container.SetValue | Container.cs:19-44 | Null is always accepted. A digit is accepted iff it is legal for the kind. A rejected assignment leaves the stored value unchanged. The square keeps its invariant. |
| Containers.Container.constructor | Container.cs:12-16 | Kind and clue sums are assigned once and are `const` afterwards. The value starts out null. It accepts only what one of the three public constructors would build (sums only on a Sum square, at least one, each at least 3), so the square starts out valid. |
| Containers.Container.OfType | Container.cs:49-70 | Succeeds iff the kind is Even, Odd or Parity. It yields an empty square of that kind without sums. |
| Containers.Container.OfTypeAndValue | Container.cs:76-97 | Succeeds iff the kind is fillable and the preset digit passes the setter. It yields a square of that kind holding the digit. |
| Containers.Container.OfSums | Container.cs:102-122 | With both sums null it yields a Block. Otherwise it yields a Sum square with those sums. It fails exactly when a present sum is below 3. |
| Combinations.Digits | Kakuro.cs:504-509 | The domains E, O and P in strictly ascending order, holding exactly the even digits, the odd digits and 1–9. |
| Combinations.CheckRepetionsArray | Kakuro.cs:479-496 | True iff no value occurs twice. |
| Combinations.IsExcluded | Kakuro.cs:581-589 | True iff the digit is one of the excluded numbers. |
| Combinations.SumOf | Kakuro.cs:603-607 | The running-sum loop computes the total of the tuple. |
| Combinations.FirstLevel | Kakuro.cs:539-572 | The first level keeps, in domain order, each single digit that is not excluded and whose value is below the target (equal to it when the run has one square). A null target keeps nothing. |
| Combinations.ExtendPartial | Kakuro.cs:579-625 | One partial tuple is extended, in domain order, by each digit that is not excluded, makes no repeat, and keeps the sum below the target (equal at the last level). |
| Combinations.NextLevel | Kakuro.cs:577-627 | A later level is the concatenation, in the previous level's order, of each partial tuple's kept extensions. |
| Combinations.CartesianProduct | Kakuro.cs:502-645 | The result is exactly the tuples that have one digit per kind from the kind's domain, no excluded digit, no repeated digit, and sum equal to the target. They come in strictly increasing lexicographic order. |
| Combinations.StageMembers | Kakuro.cs:577-626 | After level n the kept partial tuples are exactly the viable ones. Viable means: length n, each digit from its kind's domain and not excluded, distinct, and with sum below the target (equal at the last level). |
| Combinations.ViablePrefix | Kakuro.cs:567-622 | Dropping the last digit of a viable tuple leaves a viable tuple, because every digit is at least 1. So pruning on `sum < target` never loses a combination. |
| Combinations.CombinationsExact | Kakuro.cs:541-626 | Soundness and completeness: a tuple is generated iff it is a combination of the kinds, exclusions and target. |
| Combinations.CombinationsEmpty | Kakuro.cs:531-567 | Empty kinds or a null target yield no tuple at all. |
| Combinations.CombinationsSorted | Kakuro.cs:539-579 | The output is strictly increasing in lexicographic order of the ascending domains, so it holds no duplicates. |
| Grid.WalkLength | Kakuro.cs:655-707 | A scan meets only in-grid fillable squares. It stops at the board edge or at the first square that is not fillable. |
| Grid.Run | Kakuro.cs:760-774 | The run of a clue is the scan that starts one step after it: x + 1 for X, y − 1 for Y. |
| Grid.ClueOf | Kakuro.cs:267-279 | The back-scan from a fillable square stops on a Sum square, and the square lies on that clue's run. |
| Grid.LetterDigits | Kakuro.cs:533-535 | A kind's letter draws exactly the digits the kind's setter accepts. |
| Grid.DistinctStep | Kakuro.cs:294-305 | Once a digit repeats among the set squares scanned so far, it repeats in the whole run. So the early `return false` is sound. |
| Grid.SumStep | Kakuro.cs:391-397 | An unset square means the run is not fully set, so the early `return false` is sound. Otherwise the running sum grows by the square's digit. |
| Grid.RunSolved | Kakuro.cs:363-442 | On a run whose set digits suit their squares, the sum and repetition checks pass iff every square is set and the run's digits, in order, are a tuple the generator yields for the clue. |
| Grid.Remaining | Kakuro.cs:894-897 | A null clue sum stays null, and a present one stays present once the used digits are taken off it. |
| Locations.FileOrderSpec | Kakuro.cs:84-166 | The reader's list holds exactly the board's selected squares, each once, in reading order: top row first, each row left to right. |
| Locations.Reversed | Kakuro.cs:169 | `ArrayList.Reverse`: element i of the result is element n − 1 − i of the input. |
| Locations.SortByColumn | Kakuro.cs:170 | `ArrayList.Sort` on `(x, y)` tuples: the result is sorted by column, then row. It is a permutation of the input and keeps a list without repeats free of repeats. |
| Board.ReadLocations | Kakuro.cs:84-166 | The three lists the reader builds are the right-clue, down-clue and fillable squares in file order. |
| Board.ReadRow | Kakuro.cs:84-150 | One file row, left to right, appends each fillable square to the EOP list. It appends each Sum square to LS when it has a left sum and to RS when it has a right sum. |
| Board.CombinationFits | Kakuro.cs:955-959 | Every generated tuple for a run has one digit per square, each legal for its square, so the setter never throws while the solver writes. |
| Board.ChooseAxis | Kakuro.cs:844-861 | Y is chosen iff the Y average run weight is strictly below the X average. An empty list averages to NaN and never selects Y. |
| Board.SubtractUsed | Kakuro.cs:894-897 | The subtraction loop yields the clue sum less the used digits. A null sum stays null. |
| Board.Kakuro.constructor | Kakuro.cs:84-172 | After loading, the board is valid. The three lists are the reader's lists after the final reordering. Nothing is solved and the counter is 0. |
| Board.Kakuro.ListOrder | Kakuro.cs:169-172 | LocationsRS and LocationsEOP hold exactly their squares in reverse reading order: bottom row first, each row right to left. LocationsLS holds exactly its squares by descending column, each column top-down. None holds a square twice. |
| Board.Kakuro.LoadedClues | Kakuro.cs:121-134 | Every entry of LocationsRS and LocationsLS is a Sum square on the board, and no entry appears twice. |
| Board.Kakuro.GetTypesInSum | Kakuro.cs:651-709 | One letter E, O or P per fillable square met walking from (x, y) forwards, or backwards with `reverse`, until the edge or a Sum or Block square. |
| Board.Kakuro.GetNumbersAlreadyUsedInSum | Kakuro.cs:714-757 | Exactly the digits on the forward walk from (x, y), in walk order, with unset squares skipped. |
| Board.Kakuro.BackToClue | Kakuro.cs:267-279 | The back-scan ends on the clue of the run through (x, y). |
| Board.Kakuro.RepeatFree | Kakuro.cs:280-310 | True iff no digit occurs twice among the set squares of the clue's run. Unset squares are ignored. |
| Board.Kakuro.CheckRepetions | Kakuro.cs:265-360 | `CheckRepetionsX/Y`: true iff no digit repeats on the run whose clue the back-scan from (x, y) reaches. |
| Board.Kakuro.SumMatches | Kakuro.cs:378-400 | False at the first unset square. Otherwise true iff the digits add up to the clue's sum for the axis. A null sum gives false. |
| Board.Kakuro.CheckSum | Kakuro.cs:363-442 | `CheckSumX/Y`: as SumMatches, for the run whose clue the back-scan from (x, y) reaches. |
| Board.Kakuro.CheckClue | Kakuro.cs:449-460 | One clue passes iff its sum check and its repetition check both pass. |
| Board.Kakuro.CheckList | Kakuro.cs:449-472 | True iff every clue of the axis's list passes both checks. |
| Board.Kakuro.CheckAll | Kakuro.cs:445-476 | True iff every LocationsRS clue passes the X checks and every LocationsLS clue passes the Y checks. It changes no square and leaves IsSolved equal to its answer. |
| Board.Kakuro.GetCombinations | Kakuro.cs:760-774 | `GetCombinationsX/Y`: exactly the generator's tuples for the kinds of the clue's run and its sum for the axis, with nothing excluded. |
| Board.Kakuro.MoveToClue | Kakuro.cs:877-889 | From a square that reaches its clue, the move stops on that clue. |
| Board.Kakuro.StillPossible | Kakuro.cs:865-939 | True iff at least one tuple exists for these inputs: the kinds between the clue and (x, y), nearest first; the digits placed from (x, y) to the end of the run, as exclusions; and the clue sum less those digits. |
| Board.Kakuro.CheckCrossing | Kakuro.cs:981-1001 | The crossing check after writing square p. If the square before p on the crossing run is its clue, that clue's sum and repetition checks. If it is fillable, the forward check at p. At a Block, pass. |
| Board.Kakuro.CrossChecks | Kakuro.cs:979-1002 | True iff the crossing check of every written square of the run passes (`CrossingsOk`). It stops at the first failure. |
| Board.Kakuro.WriteCombination | Kakuro.cs:955-959 | The tuple's digits land on the run's squares in order, through the setter, and no other square changes. |
| Board.Kakuro.Place | Kakuro.cs:958 | The setter accepts the legal digit, and only that square changes. |
| Board.Kakuro.Solve | Kakuro.cs:943-1013 | See the solver contract below. |
| Board.Kakuro.TryCombinations | Kakuro.cs:948-1010 | The `foreach` over the level's tuples, in generator order. On a solved board it tries nothing and changes nothing. Otherwise it tries every tuple when the board stays unsolved, and a board it solves satisfies every clue. Afterwards the last tuple tried is on the run. When the crossing checks look only behind them (`AllChecksBehind`), the tuple that solved the board is the first one that leads to a solution (`Searched`). |
| Board.Kakuro.NoneSolvesFirstAll | Kakuro.cs:948-1010 | The record of failed tuples means: no tuple before position j, written onto the level's run, leads to a solution. |
| Board.Kakuro.FailsAll | Kakuro.cs:943-1012 | The search from a level fails (`Fails`) iff no tuple of the level's clue leads to a solution (`SolvedBy`). At the last level that means: written onto the run, the tuple satisfies every clue. Below it: the crossing checks of the run pass and the search from the next level, on the board with the tuple written, does not fail. |
| Board.Kakuro.SolvedByWritten | Kakuro.cs:955-1008 | The board the level judges is the board the level started from with the tuple written onto its run. So at the last level `CheckAll` succeeds iff the tuple leads to a solution. Below it, the tuple leads to a solution iff the crossing checks on the written board pass and the next level's search from that board does not fail. |
| Board.Kakuro.SolvedByOff | Kakuro.cs:955-1010 | Whether a tuple leads to a solution depends only on the squares off the runs from this level on, when the crossing checks of those levels read no later level's run. So the tuples tried before it, which write only those runs, do not change the verdict on it. |
| Board.Kakuro.LeadsOff | Kakuro.cs:948-1010 | The same for the verdicts on a whole list of tuples, so a failing search from the next level fails whatever an earlier tuple left on the later runs. |
| Grid.CrossingAgree | Kakuro.cs:981-1001 | A crossing check gives the same answer on two boards that agree on the squares it reads (`CheckedSquares`): the crossing run when the square before p is its clue, and the walk forward from p when that square is fillable. |
| Board.Kakuro.LoadedChecksBehind | Kakuro.cs:979-1002 | On every loaded board, no crossing check of a level reads a square of a later level's run (`AllChecksBehind`). The X solver fills rows bottom-up and its checks look down their columns. The Y solver fills columns right to left and its checks look right along their rows. |
| Board.Kakuro.LaterClue | Kakuro.cs:169-172 | In the solver's order, a later X clue is on the same row or higher, and a later Y clue is in the same column or further left. |
| Board.Kakuro.TryCombination | Kakuro.cs:955-1010 | One candidate. Afterwards the level's run holds the tuple, square by square. Only squares of this level's run and later ones are written. At the last level IsSolved holds iff every clue passes its checks, and the counter grows exactly when the board becomes solved. When the crossing checks look only behind them, IsSolved holds iff the tuple leads to a solution from the board the pass started on. |
| Board.Kakuro.Judge | Kakuro.cs:961-1010 | At the last level no square changes, IsSolved holds iff CheckAll's condition holds, and a failing candidate is not counted. Below it, the candidate is always counted. When a crossing check fails, nothing else changes: no recursion, no square written, not solved. When the deeper checks look only behind them, IsSolved holds iff the crossing checks pass and the search from the next level does not fail. |
| Board.Kakuro.Descend | Kakuro.cs:977-1007 | When a crossing check of the run fails, the next level does not run: digits, IsSolved and the counter stay as they were. When all pass, the next level runs: if its clue has any tuple, one of them is left written on its run. A solved board satisfies every clue. When the deeper checks look only behind them, the board ends solved iff the crossing checks pass and the search from the next level does not fail. |
| Board.Kakuro.RunsApart | Kakuro.cs:948-1010 | No square of one level's run lies on the run of a later clue. So the deeper levels never overwrite the tuple written at this level. |
| Board.Kakuro.RunKept | Kakuro.cs:955-1010 | If the deeper levels change only squares of later runs, the level's run still holds the tuple written on it. |
| Grid.RunClues | Kakuro.cs:267-279 | The back-scan from any square of a clue's run ends on that clue. |
| Board.Kakuro.RunScore | Kakuro.cs:791-804 | The weight, in tenths, of the fillable squares of the clue's run: 4 for Even, 5 for Odd, 9 for Parity. |
| Board.Kakuro.CombinationScore | Kakuro.cs:779-807 | The total weight, in tenths, of the runs of the axis's clues: the average's numerator. |
| Board.Kakuro.SolveCombinations | Kakuro.cs:844-861 | The solver runs from level 0 along the axis ChooseAxis picks: unless the board was already solved, a tuple of the first clue is left on its run whenever that clue has one. Squares outside that axis's runs keep their digits. A board found solved satisfies every clue. When the crossing checks look only behind them, as on every loaded board (`Board.Kakuro.LoadedChecksBehind`), a board not solved on entry ends solved iff the search from level 0 does not fail. |

Solver contract (`Board.Kakuro.Solve`):

- the board stays valid;
- when IsSolved was already true on entry, nothing is tried and nothing changes;
- when the board becomes solved, every clue passes its checks;
- only squares on the runs of this level's clue and later ones are written;
- the counter never decreases;
- at the last level the counter grows exactly when the board becomes solved;
- the tuples are tried in the generator's order, and `tried` counts them. When the board stays unsolved, every tuple was tried. When it becomes solved, at least one was;
- the last tuple tried stays written on the level's run. So when the board stays unsolved, the run holds the level's last tuple, as the source leaves it;
- the search is exhaustive at every level. `SolvedBy` says a tuple, written onto the level's run, leads to a solution. At the last level that means every clue passes. Below it, it means the crossing checks pass and the search from the next level does not fail (`Fails`). When the crossing checks from this level on read no square of a later level's run (`AllChecksBehind`, which holds on every loaded board), the board becomes solved iff some tuple leads to a solution, and the tuple found is the first such tuple (`NoneSolvesFirst`, `SolvedBy`).

## Left out

- Reading the board file in the `Kakuro` constructor (Kakuro.cs:32-187) is I/O and is not modelled. This covers line splitting, `int.Parse`, `ParseInt`, the try/catch that prints errors, and the exceptions for malformed files. `Board.Kakuro.constructor` starts from a grid of squares that already exist, and `Board.ReadLocations` replays only the list building.
- `Print`, `RandomizeValues`, `Container.RandomizeValue`, `GetPrintArray`, `SetColor`, the colour properties, the `Random` field and the `Characters` enum are rendering and randomness. They are not modelled.
- `ApplicationPlay.cs` (console user interface) and `Program.cs` (console menu) are not part of this model. Neither is the `WriteLine` in the Y solver.
- Exceptions become results. A constructor that throws returns `None`, and a rejected setter value returns `false`. The generator's "unknown letter" exception cannot arise: the kinds are the datatype `Letter`.
- C#'s 32-bit `int` is modelled as an unbounded integer. Digits are 1–9. A clue sum close enough to the limits for `sum -= digit` or the running sum to overflow is not modelled.
- `Board.ChooseAxis`: it compares the averages exactly, in tenths, not as IEEE doubles. A comparison that rounding of 0.4, 0.5 and 0.9 would decide differently in the source is not modelled.
- `Board.Kakuro.SolveCombinations`: the source scores `this` and solves the board passed as an argument. Its only caller passes the same board, so the model uses `this` for both. It requires a non-empty LocationsRS, because the source indexes `LocationsRS[0]` when X is chosen.
- `Board.Kakuro.CheckRepetions`, `Board.Kakuro.CheckSum` and `Board.Kakuro.BackToClue` require that the back-scan reaches a Sum square through fillable squares (`ReachesClue`). The source's back-scan (Kakuro.cs:267-279) neither moves nor stops on a Block, so there it loops forever; past the left or top edge it indexes outside the array.
- `Board.Kakuro.StillPossible` and `Board.Kakuro.MoveToClue` require `ReachesClue` too, for a different reason. The source's move to the clue (Kakuro.cs:877-889, 915-929) stops only on a Sum square or at the edge. So it steps over a Block and reads the sum of a farther clue. In the X version it stops at column 0 whatever that square is, and reads its right sum, which is null unless it is a Sum square. In the Y version it reads row `Height`, outside the array. The kinds it pairs with that sum end at the Block. The model leaves out these paths; on them the forward check answers for a run that is not the square's own.
- `Board.Kakuro.GetTypesInSum` and `Board.Kakuro.GetNumbersAlreadyUsedInSum` require that the coordinate the source's loop does not test stays on the board (`CrossOk`). Otherwise the source indexes outside the array.
- `Board.Kakuro.Solve`, `Board.Kakuro.TryCombination`, `Board.Kakuro.Judge`, `Board.Kakuro.Descend` and `Board.Kakuro.SolveCombinations` require the solver's axis to be `Crossable`. `Board.Kakuro.SolveCombinations` requires it only for the axis it chooses. `Crossable` constrains every level but the last, where the source runs only `CheckAll`. It requires two things of each run square p there (`CrossReady`, also required by `Board.Kakuro.CheckCrossing` and `Board.Kakuro.CrossChecks`):
  - the square before p on the crossing run is on the board, since the source reads it at `y + 1` / `x − 1` (Kakuro.cs:983, 1056);
  - when that square is fillable, the forward check's back-scan from p reaches its clue, for the reason given for `Board.Kakuro.StillPossible` above.

  A Sum or Block square before p is allowed, and a Block passes, as in the source.
- `Board.Kakuro.Solve` and `Board.Kakuro.SolveCombinations` state exhaustiveness (`Fails`) under `AllChecksBehind`, which `Board.Kakuro.LoadedChecksBehind` proves for every board the constructor loads. They do not require `Loaded()` itself, which would add the whole loading contract to every solver proof. On a grid that does not satisfy the condition, a deeper level's leftover digits can change an earlier crossing check, and the model states only the other clauses there.
- `Board.Kakuro.RunScore` and `Board.Kakuro.CombinationScore` require the square after each clue to be on the board, because the source reads it before testing the edge.
- `Board.Kakuro.WriteCombination`: it requires the digits to be legal for their squares. The solver only passes generated tuples (`Board.CombinationFits`), so the setter's exception path is never taken there.
- The X and Y variants of each checker, scanner, forward check and solver are merged into one method with an `Axis` parameter.
- `LocationsLS.Sort()` is modelled by an insertion sort on `(x, y)`. The lists hold no repeats, so any correct sort gives the same list.
- The source's dictionaries of seen digits are sets, and its `ArrayList`s are sequences.
- These helpers are splits of one source loop into steps: `Board.Kakuro.ScanKind`, `Board.Kakuro.Look` and `Board.Kakuro.Peek` (one test of a scan loop), `Board.Kakuro.TryNext` (one turn of the solver's `foreach`), `Board.Kakuro.LeadsAt`, `Board.Kakuro.NoneSolvesStep` and `Board.Kakuro.FirstLeads` (one tuple of the record of failed tuples), and the `...Step` lemmas of `Grid` (one iteration of a fold).
