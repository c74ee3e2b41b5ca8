# aoc-2024 in Dafny

A model, with proofs, of the Advent of Code 2024 solutions in the Rust
repository aoc-2024. Each puzzle in that repository is a self-contained
binary (`src/bin/dayN/main.rs`), and they share a small grid and coordinate
library (`src/utils.rs`). The model gives each of these files its own
module:

| file | module | what it models |
|---|---|---|
| utils.dfy | Utils | `Direction`, `CoordVec::transform_coord`, the row-major `Grid` class and its two iterators |
| numbers.dfy, sums.dfy | Numbers, Sums | arithmetic facts (powers, Euclidean division, shifts, xor, decimal digits) and sums over finite sets and maps, shared by the puzzle modules |
| day17.dfy | Day17 | the three-bit computer: bit-packed program encoding, 3-bit decoding, the `Computer` registers, pc and output, the eight opcodes, `run`, and the hand-specialised `pseudo_computer` |
| day17_search.dfy | Day17Search | the layered base-8 search of part 2 for the smallest A that makes the program print itself |
| day1.dfy | Day1 | sorted pairwise distance of two id columns |
| day2.dfy | Day2 | report safety and the single-level dampener |
| day4.dfy | Day4 | the word search's window getters and counts |
| day6.dfy | Day6 | the guard's walk with turn points, loop detection and the obstacle trials |
| day7.dfy | Day7 | operator insertion with decimal concatenation, both worklist searches |
| day8.dfy | Day8 | antenna grouping and antinode rays |
| day9.dfy | Day9 | disk-map expansion, block compaction, whole-file compaction, checksums |
| day10.dfy | Day10 | hiking-trail enumeration and the two counts |
| day11.dfy | Day11 | stone blinking with a count map and a memo |
| day12.dfy, day12_sides.dfy | Day12, Day12Sides | the region flood fill with its perimeter set, and the fence and side prices |
| day13.dfy | Day13 | the exact 2 x 2 integer solver and the token cost |
| day15.dfy, day15_moves.dfy, day15_robot.dfy | Day15, Day15Moves, Day15Robot | warehouse parsing and widening, the rules of one robot move, and the in-place `simulate_robot` |
| day18.dfy | Day18 | the heap-based shortest path over the memory grid and the first blocking byte |
| day19.dfy | Day19 | towel matching and the adjacency-matrix count of arrangements |

The operations that work by mutation become mutation here. The `Grid`,
`Computer`, `World` and stone-count map are classes whose methods state
their whole new state. Loops become `while` loops with invariants. The
in-place disk compaction of day 9 works on an `array`. Each method is
proved against a specification function or predicate, and lemmas about
that specification state what the puzzle promises. Integers are unbounded.
Where the Rust code would overflow or panic (for example `2usize.pow`,
`stone * 2024`, day 13's i64 products, an out-of-range slice, or an
`expect`), a precondition or an error result takes its place. The overflows
that are not modelled are listed under "Left out".

Two behaviours of day 17's `run` deserve a note. An empty program does not
halt: `run` slices the program before it tests pc against the length, so the
first fetch panics (`Day17.EmptyProgramFaults`). A jump past the program end
is not reported as an error either; it panics on the next fetch. The model's
`Computer.Run` requires the next instruction to be in the program, and
`RunFor` reports `Faulted` otherwise.

Day 18's search bounds a step up in the second coordinate by `bounds.0`
(src/bin/day18/main.rs:93). The model's search follows that rule
(`Day18.OptionsAsWritten`); on the square grid of `main` it is the intended
rule (`Day18.OptionsAgreeOnSquare`). See "Findings".

## Model

| member | source | states |
|---|---|---|
| Utils.ToVec2 | src/utils.rs:9-18 | each direction is a unit step: Up is row -1, Down row +1, Left column -1, Right column +1, one each |
| Utils.OppositeDirectionsCancel | src/utils.rs:10-17 | opposite directions' steps sum to (0, 0), and the opposite of the opposite is the direction |
| Utils.CoordVec.TransformCoord | src/utils.rs:30-41 | Some exactly when the displaced coordinate lies in [0, rows) x [0, cols), and then it is the coordinate plus the vector |
| Utils.TransformThereAndBack | src/utils.rs:30-41 | a step and the opposite step return to the start |
| Utils.LinearInBounds | src/utils.rs:62-64 | an in-bounds coordinate's index is below rows * cols and converts back to the coordinate |
| Utils.LinearInjective | src/utils.rs:62-64 | two in-bounds coordinates share an index exactly when they are equal |
| Utils.UpdateChangesOneCell | src/utils.rs:66-69 | setting one cell changes that cell and no other |
| Utils.LinearBelowSize | src/utils.rs:62-73 | with an in-range column, the index is below rows * cols exactly when the row is in range |
| Utils.CoordAtInBounds | src/utils.rs:62-64 | every index below rows * cols is the index of an in-bounds coordinate |
| Utils.Grid.Zeros | src/utils.rs:50-56 | a valid rows x cols grid whose rows * cols cells all hold the default |
| Utils.Grid.Set | src/utils.rs:66-69 | the data is the old data with the coordinate's row-major cell replaced |
| Utils.Grid.Row | src/utils.rs:75-77 | row r has cols cells, the j-th being the cell (r, j) |
| Utils.Grid.IndexedIter | src/utils.rs:86-91 | a fresh iterator over this grid that yields the cells in row-major order with their coordinates |
| Utils.Grid.Iter | src/utils.rs:79-84 | a fresh iterator over this grid starting at (0, 0) |
| Utils.RowMajorExactlyOnce | src/utils.rs:125-144 | every in-bounds coordinate appears in the row-major listing, and no coordinate twice |
| Utils.IndexedGridIterator.constructor | src/utils.rs:86-91 | the iterator starts at (0, 0) with every cell still to yield |
| Utils.IndexedGridIterator.Next | src/utils.rs:128-143 | None once everything is yielded, otherwise the next (coordinate, value) of the row-major listing, which then leaves the remainder |
| Utils.RowTailIsSlice | src/utils.rs:102-117 | the tail of a row is the corresponding slice of the data |
| Utils.LastColumnLength | src/utils.rs:107-108 | the last column from row r0 on has rows - r0 cells |
| Utils.GridIterator.constructor | src/utils.rs:79-84 | the iterator starts at (0, 0) |
| Utils.GridIterator.Next | src/utils.rs:102-117 | None once everything is yielded, otherwise the next value of what the source's index walk visits, which then leaves the remainder |
| Utils.GridIteratorYieldsRowZeroThenLastColumn | src/utils.rs:107-111 | from (0, 0) the iterator yields row 0 and then only the last cell of each later row: rows + cols - 1 values, not rows * cols |
| Utils.RowMajorIterator.constructor | src/utils.rs:79-84 | the corrected iterator starts with all the grid's cells still to yield |
| Utils.RowMajorIterator.Next | src/utils.rs:102-117 | the corrected iterator yields the cells one by one in row-major order, then None |
| Day17.XorBelowWord | src/bin/day17/main.rs:107-110 | the exclusive-or of two usize values is a usize value |
| Day17.CodeOf | src/bin/day17/main.rs:37-55 | every opcode has a 3-bit code that names it |
| Day17.OpcodeCodesRoundTrip | src/bin/day17/main.rs:43-53 | each code 0 .. 7 names exactly one opcode, whose code it is |
| Day17.PackBitsIsSum | src/bin/day17/main.rs:61 | the or of the three shifted bits is their weighted sum |
| Day17.U8From3BitValue | src/bin/day17/main.rs:57-63 | Ok exactly for three bits, and then a value below 8; InvalidBitCount otherwise |
| Day17.ReadIsPacked | src/bin/day17/main.rs:61 | the value read is the u8 the shifts and the or build |
| Day17.OpcodeTryFrom | src/bin/day17/main.rs:37-55 | Ok exactly for three bits, and then the opcode whose code the bits hold |
| Day17.StoreInstruction | src/bin/day17/main.rs:194-198 | three bits are pushed per value |
| Day17.StoreInstructionBits | src/bin/day17/main.rs:195-197 | the masks 1, 2 and 4 push the three low binary digits, least significant first |
| Day17.StoreThenRead | src/bin/day17/main.rs:194-198 | storing a value and reading the three bits back gives the value modulo 8 |
| Day17.ReadThenStore | src/bin/day17/main.rs:57-63 | reading three bits and storing the value gives the same bits |
| Day17.Encode | src/bin/day17/main.rs:200-206 | the program bit vector has three bits per value |
| Day17.EncodeSnoc | src/bin/day17/main.rs:201-206 | one more value appends its three bits |
| Day17.EncodeWindow | src/bin/day17/main.rs:154-155 | window i of an encoded program holds value i modulo 8 |
| Day17.ParseU8 | src/bin/day17/main.rs:202-204 | a piece parses exactly when it is a nonempty string of digits with a value below 256 |
| Day17.ParsedValues | src/bin/day17/main.rs:201-206 | one u8 per piece |
| Day17.ParsedPrefixStep | src/bin/day17/main.rs:201-206 | one more parsed piece adds its three bits to the encoded prefix |
| Day17.ParseProgram | src/bin/day17/main.rs:185-209 | Ok exactly when every piece is a u8, and then the encoding of the values; InvalidProgramFormat otherwise |
| Day17.ExecuteControl | src/bin/day17/main.rs:101-147 | every instruction but JNZ moves pc on by 6; JNZ jumps to its operand exactly when A is not 0 |
| Day17.ExecuteRegisters | src/bin/day17/main.rs:101-147 | only ADV writes A and never raises it, only BXL, BST, BXC and BDV write B, only CDV writes C, and BST and CDV write three-bit values |
| Day17.ExecuteOutput | src/bin/day17/main.rs:131-135 | OUT appends one three-bit value and nothing else writes the output |
| Day17.ExecuteFits | src/bin/day17/main.rs:101-147 | registers stay below 2^64 |
| Day17.RunForFacts | src/bin/day17/main.rs:254 | a run only appends output, keeps registers usize, halts only at the program's end, and faults only when no further step can run |
| Day17.EmptyProgramFaults | src/bin/day17/main.rs:153-155 | the empty program panics on its first fetch |
| Day17.Computer.constructor | src/bin/day17/main.rs:74-81 | the given registers, pc 0 and no output |
| Day17.Computer.Reset | src/bin/day17/main.rs:83-89 | A = a, B = C = 0, pc 0 and the output cleared |
| Day17.Computer.OperandToCombo | src/bin/day17/main.rs:91-99 | the combo value of the machine state |
| Day17.Computer.Adv | src/bin/day17/main.rs:101-105 | the state becomes the effect of ADV |
| Day17.Computer.Bxl | src/bin/day17/main.rs:107-110 | the state becomes the effect of BXL |
| Day17.Computer.Bst | src/bin/day17/main.rs:112-116 | the state becomes the effect of BST |
| Day17.Computer.Jnz | src/bin/day17/main.rs:118-124 | the state becomes the effect of JNZ |
| Day17.Computer.Bxc | src/bin/day17/main.rs:126-129 | the state becomes the effect of BXC |
| Day17.Computer.Out | src/bin/day17/main.rs:131-135 | the state becomes the effect of OUT |
| Day17.Computer.Bdv | src/bin/day17/main.rs:137-141 | the state becomes the effect of BDV |
| Day17.Computer.Cdv | src/bin/day17/main.rs:143-147 | the state becomes the effect of CDV |
| Day17.Computer.Run | src/bin/day17/main.rs:153-173 | the state becomes one step of the program, and the result is true exactly when pc is then the program length |
| Day17.Computer.RunToHalt | src/bin/day17/main.rs:254 | the loop of runs leaves the state of RunFor: halted, still running after fuel steps, or stopped where a step would panic |
| Day17.CodeIsU8 | src/bin/day17/main.rs:269 | every value of the hard-coded program is a u8 |
| Day17.CodeBelow8 | src/bin/day17/main.rs:269 | every value of the hard-coded program is a three-bit value |
| Day17.Program | src/bin/day17/main.rs:269 | the hard-coded program is 48 bits long: eight instructions |
| Day17.CodeInstructions | src/bin/day17/main.rs:269 | the program is BST 4, BXL 2, CDV 5, BXC 7, BXL 3, OUT 5, ADV 3, JNZ 0 |
| Day17.FetchEncoded | src/bin/day17/main.rs:154-155 | instruction k of an encoded program is opcode value 2k and operand value 2k + 1, each reduced to three bits |
| Day17.FetchWindows | src/bin/day17/main.rs:154-155 | the instruction at pc is read from the two three-bit windows there |
| Day17.ProgramDecodes | src/bin/day17/main.rs:269 | decoding the encoded program gives back its eight instructions |
| Day17.PseudoDigit | src/bin/day17/main.rs:240-245 | each printed value is below 8 |
| Day17.PseudoOutputShape | src/bin/day17/main.rs:237-248 | the pseudo computer prints nothing exactly for A = 0, and only three-bit values |
| Day17.PseudoComputer | src/bin/day17/main.rs:237-248 | the loop appends to the output exactly the digits PseudoOutput gives for A |
| Day17.PassPrintsPseudoDigit | src/bin/day17/main.rs:238-248 | one pass through the eight instructions prints the pseudo digit of A, divides A by 8, and jumps back exactly when A is then nonzero |
| Day17.RunForUnfold | src/bin/day17/main.rs:254 | a step that does not halt leaves the rest of the run |
| Day17.RunBst | src/bin/day17/main.rs:112-116 | the first instruction sets B to A mod 8 |
| Day17.RunBxl2 | src/bin/day17/main.rs:107-110 | the second instruction flips B with 2 |
| Day17.RunCdv | src/bin/day17/main.rs:143-147 | the third instruction sets C to the three low bits of A >> B |
| Day17.RunBxc | src/bin/day17/main.rs:126-129 | the fourth instruction sets B to B xor C |
| Day17.RunBxl3 | src/bin/day17/main.rs:107-110 | the fifth instruction flips B with 3 |
| Day17.RunOut | src/bin/day17/main.rs:131-135 | the sixth instruction prints B mod 8 |
| Day17.RunAdv | src/bin/day17/main.rs:101-105 | the seventh instruction divides A by 8 |
| Day17.RunJnz | src/bin/day17/main.rs:118-124 | the last instruction jumps back to 0, or the run halts once A is 0 |
| Day17.OnePass | src/bin/day17/main.rs:254 | from pc 0 the program runs one pass and then halts or is back at pc 0 |
| Day17.PassPrints | src/bin/day17/main.rs:238-247 | one pass prints the pseudo digit for A and divides A by 8 |
| Day17.RunMatchesPseudo | src/bin/day17/main.rs:237-254 | from pc 0 with A > 0 the computer halts having printed exactly what the pseudo computer prints |
| Day17.ComputerMatchesPseudo | src/bin/day17/main.rs:237-281 | for every A > 0 the hard-coded program halts with the pseudo computer's output |
| Day17.ZeroPass | src/bin/day17/main.rs:238-248 | the pass from A = 0 prints 1 and halts |
| Day17.ZeroStartDiffers | src/bin/day17/main.rs:237-254 | with A = 0 the computer prints 1 while the pseudo computer prints nothing |
| Day17Search.PseudoOutputAt | src/bin/day17/main.rs:239-247 | output value i is the pseudo digit of A shifted right by 3i |
| Day17Search.OutputLongerThan | src/bin/day17/main.rs:239-247 | the output is longer than i exactly when A has a nonzero bit from 3i up |
| Day17Search.DigitFromReadBits | src/bin/day17/main.rs:240-245 | a digit depends only on the three low bits of A and the three bits the shift selects |
| Day17Search.ReadBitsInTen | src/bin/day17/main.rs:242 | the bits the shift reads lie among the ten low bits |
| Day17Search.PseudoDigitLocal | src/bin/day17/main.rs:240-245 | a digit depends on the ten low bits of A only |
| Day17Search.WindowDigit | src/bin/day17/main.rs:279-287 | the bits fixed after step j decide every output position up to j |
| Day17Search.PseudoDigitOfZero | src/bin/day17/main.rs:240-245 | the digit of 0 is 1 |
| Day17Search.ZeroWindowPrintsOne | src/bin/day17/main.rs:279-287 | a candidate whose ten bits at position j are zero prints 1 there |
| Day17Search.GoodWindow | src/bin/day17/main.rs:282-287 | filter j accepts the low bits of a value whose output starts with the program, when the top window is nonzero |
| Day17Search.SurvivorPrintsProgram | src/bin/day17/main.rs:273-293 | every value the search keeps prints the program, possibly followed by more values |
| Day17Search.SurvivorRunsProgram | src/bin/day17/main.rs:297-302 | the computer run on a kept value halts with output starting with the program, and printing exactly the program exactly when the value is below 2^48 |
| Day17Search.PrefixSolutionSurvives | src/bin/day17/main.rs:273-293 | every value below 2^55 whose output starts with the program, and whose windows at positions 2 and 8 are nonzero, is kept |
| Day17Search.SurvivesStep | src/bin/day17/main.rs:276-291 | a candidate of step idx + 1 is a candidate of step idx with one more octal digit on top that passes filter idx |
| Day17Search.QuotientBound | src/bin/day17/main.rs:279 | below 8p exactly when the digit at p is below 8 |
| Day17Search.QuotientBelow | src/bin/day17/main.rs:279 | a value below n * p has a quotient below n |
| Day17Search.Minimum | src/bin/day17/main.rs:297 | the least element of a nonempty list, and in it |
| Day17Search.Digits | src/bin/day17/main.rs:277-279 | one extension per digit |
| Day17Search.KeepSnoc | src/bin/day17/main.rs:282-290 | one more candidate is kept exactly when it passes the filter |
| Day17Search.KeepAppend | src/bin/day17/main.rs:276-292 | filtering splits over concatenation |
| Day17Search.KeepMembers | src/bin/day17/main.rs:282-290 | a value is kept exactly when it is in the list and passes the filter |
| Day17Search.DigitsMembers | src/bin/day17/main.rs:277-279 | the extensions are the values with the candidate as low part and a digit below 8 at p |
| Day17Search.ExpandMembers | src/bin/day17/main.rs:276-279 | the expanded list holds exactly the values below 8p whose low part is an old candidate |
| Day17Search.KeepStep | src/bin/day17/main.rs:280-290 | the check on the printed list decides whether the candidate is appended |
| Day17Search.ExtendOption | src/bin/day17/main.rs:277-291 | the eight digits are tried in order and those passing filter idx appended |
| Day17Search.SearchStep | src/bin/day17/main.rs:274-292 | one step keeps, in list order, the extensions of all old candidates that pass filter idx |
| Day17Search.StepMembers | src/bin/day17/main.rs:274-292 | after a step the candidates are those below 8p whose low part was a candidate, passing filter idx |
| Day17Search.StepKeepsSurvivors | src/bin/day17/main.rs:273-293 | if the list holds exactly the survivors of the first idx filters, one step gives exactly the survivors of idx + 1 filters |
| Day17Search.FindQuine | src/bin/day17/main.rs:265-297 | the least value every filter keeps, or None exactly when no value survives and the `unwrap` panics |
| Day1.AbsDiff | src/bin/day1/main.rs:27 | the distance is zero exactly when the two ids are equal, and it is what the smaller id lacks to reach the larger |
| Day1.TotalDistance | src/bin/day1/main.rs:24-28 | the zipped sum is zero exactly when the columns agree at every index below the shorter length |
| Day1.TotalDistanceSymmetric | src/bin/day1/main.rs:24-28 | swapping the two columns does not change the total |
| Day1.Sort | src/bin/day1/main.rs:18-19 | the column ends ascending and holds the same multiset of ids |
| Day1.InsertAt | src/bin/day1/main.rs:18-19 | one insertion step grows the sorted prefix by one and keeps the multiset |
| Day1.SortedUnique | src/bin/day1/main.rs:18-19 | two sorted arrangements of one multiset are the same sequence |
| Day1.TotalListDistance | src/bin/day1/main.rs:18-28 | both columns end sorted and permuted, and the answer is the zipped distance sum of the sorted columns |
| Day1.OrderIndependent | src/bin/day1/main.rs:18-28 | the answer depends only on the multisets of ids read, not on their order |
| Day2.Windows | src/bin/day2/main.rs:4-9 | `windows(2)` yields len - 1 pairs (none for a shorter report), the i-th being levels i and i + 1 |
| Day2.WindowsAreAdjacentPairs | src/bin/day2/main.rs:4-9 | a pair is a window exactly when it is two adjacent levels |
| Day2.IncreasingAdjacent | src/bin/day2/main.rs:4 | `all_increasing` holds exactly when every level is below the next |
| Day2.DecreasingAdjacent | src/bin/day2/main.rs:5 | `all_decreasing` holds exactly when every level is above the next |
| Day2.GradualAdjacent | src/bin/day2/main.rs:6-10 | `gradual` holds exactly when adjacent levels differ by 1 to 3 |
| Day2.IncreasingIsStrictlySorted | src/bin/day2/main.rs:4 | an increasing report is strictly increasing between any two positions |
| Day2.ShortReportIsSafe | src/bin/day2/main.rs:25 | a report of fewer than two levels passes the star-1 filter |
| Day2.Remove | src/bin/day2/main.rs:34-37 | deleting level idx keeps the other levels in order, one shorter |
| Day2.FillWithout | src/bin/day2/main.rs:32-37 | the scratch buffer ends holding the report without level idx |
| Day2.IsDampenedSafe | src/bin/day2/main.rs:31-39 | true exactly when deleting some one level leaves a safe report |
| Day2.SafeIsDampened | src/bin/day2/main.rs:25-39 | every report safe under star 1 is accepted by the dampener |
| Day2.CountSafe | src/bin/day2/main.rs:23-26 | the count is at most the number of reports and equals it exactly when every report is safe |
| Day2.CountDampenedSafe | src/bin/day2/main.rs:29-41 | the star-2 count is the number of reports the dampener accepts |
| Day2.DampenedCountsMore | src/bin/day2/main.rs:23-41 | the star-2 count is at least the star-1 count |
| Day4.WordSearch.constructor | src/bin/day4/main.rs:11-17 | `zeros` builds a rows x cols grid of zero bytes |
| Day4.WordSearch.Set | src/bin/day4/main.rs:19-22 | `set` changes exactly the byte at row * cols + col |
| Day4.WordSearch.Window | src/bin/day4/main.rs:32-70 | each getter returns the n bytes read from (row, col) along its orientation; after its assertions every read is in the data, and inside the grid except on the left diagonal |
| Day4.WordSearch.AssertedWindowInside | src/bin/day4/main.rs:32-60 | the assertions of `horizontal`, `vertical` and `diagonal_right` keep every read of the window inside the grid |
| Day4.WordSearch.LeftWindowInside | src/bin/day4/main.rs:62-70 | a left diagonal starting inside the grid reads only inside the data |
| Day4.WordSearch.CountedWindowsFit | src/bin/day4/main.rs:86-104 | every start position the four counts enumerate passes its getter's assertions |
| Day4.WordSearch.FindAllNeedles | src/bin/day4/main.rs:72-107 | the count is the number of matching windows over every start position, summed over the four orientations |
| Day4.WordSearch.FindAllNeedlesReversed | src/bin/day4/main.rs:72-107 | searching for a word or for its reverse gives the same count |
| Day4.WordSearch.FindAllSams | src/bin/day4/main.rs:109-132 | the count is the number of top-left corners whose two crossing diagonals read MAS forwards or backwards |
| Day4.MatchesIff | src/bin/day4/main.rs:75-84 | for words of the needle's length, `cmp_needle` holds exactly when the word is the needle or its reverse |
| Day4.MatchesReversed | src/bin/day4/main.rs:75-84 | `cmp_needle` gives the same answer for a needle and its reverse |
| Day4.Reverse | src/bin/day4/main.rs:79-83 | the reversed word has the k-th byte from the end at position k |
| Day4.WindowOf | src/bin/day4/main.rs:36-37 | a window of n reads has n bytes |
| Day4.CountRectCard | src/bin/day4/main.rs:86-89 | counting the filtered cartesian product counts exactly the set of start positions that hit |
| Day4.HitSetReversed | src/bin/day4/main.rs:86-104 | reversing the needle finds the same set of windows |
| Day4.NeedleTotalReversed | src/bin/day4/main.rs:86-106 | the summed count is the same for a needle and its reverse |
| Day6.RotateCcw | src/bin/day6/main.rs:52-59 | the new direction is the old unit step turned a quarter clockwise in (row, column) terms |
| Day6.RotateFourTimes | src/bin/day6/main.rs:52-59 | four turns return to the start, no turn keeps the direction, two turns reverse it |
| Day6.MovePoint | src/bin/day6/main.rs:61-96 | the neighbour is one unit step away, and inside the grid it exists exactly when that step stays on the grid |
| Day6.MovePointIsTransform | src/bin/day6/main.rs:61-96 | inside the grid, `move_point` agrees with the shared `transform_coord` |
| Day6.FromAscii | src/bin/day6/main.rs:113-124 | a cell results exactly for the seven map characters; the rest are the source's `unreachable!` |
| Day6.AsciiRoundTrip | src/bin/day6/main.rs:113-140 | `from_ascii` and `to_ascii` are inverse on cells and on the parsable characters |
| Day6.LocateGuard | src/bin/day6/main.rs:150-162 | the scan finds no guard exactly when there is none, and otherwise the last guard cell in row-major order with its direction |
| Day6.World.constructor | src/bin/day6/main.rs:150-169 | `World::new` keeps the grid and records the last guard cell and its direction; the source asserts a guard exists |
| Day6.World.SetCell | src/bin/day6/main.rs:24-27 | `Grid::set` changes exactly one cell and leaves the guard alone |
| Day6.World.FindNextTurnpoint | src/bin/day6/main.rs:201-221 | the route grows by a straight run from pos in dir; the result is the guard's next state after the run, a turn in place when an obstacle is ahead, None when the guard leaves |
| Day6.World.Walk | src/bin/day6/main.rs:171-199 | Some(route) is the guard's whole route off the map; None means the route comes back to a state it was in; with no guard the route is empty |
| Day6.TrajectoriesAgree | src/bin/day6/main.rs:201-221 | the guard's rule is deterministic: two routes from one state agree where both are defined |
| Day6.TrajectoryPeriodic | src/bin/day6/main.rs:181-186 | after a repeated state a route repeats with the same period |
| Day6.LoopsOrLeaves | src/bin/day6/main.rs:171-199 | no route both leaves the grid and loops, so `walk`'s two answers exclude each other |
| Day6.LeavingRouteIsSimple | src/bin/day6/main.rs:181-195 | a route that leaves the grid repeats no state |
| Day6.StatesBound | src/bin/day6/main.rs:176 | a rows x cols grid has at most 4 * rows * cols guard states, which bounds `walk`'s loop |
| Day6.LoopFound | src/bin/day6/main.rs:182-185 | a state inserted twice into `visited_spaces` proves the route loops |
| Day6.VisitedPositions | src/bin/day6/main.rs:264-268 | the distinct cells of a route: each cell of the route is in it, and only those |
| Day6.VisitedAreVisits | src/bin/day6/main.rs:263-269 | on a route that leaves the grid, part one counts exactly the cells the guard ever stands on |
| Day6.SameLoops | src/bin/day6/main.rs:289-301 | boards with obstacles on the same cells loop from the same states, so visited marks do not matter |
| Day6.TriedAll | src/bin/day6/main.rs:277-303 | after the last step the record holds exactly the candidate cells, each true when one of its trials loops |
| Day6.TryCell | src/bin/day6/main.rs:283-301 | one trial records whether the guard, started from path[i] with an obstacle on the cell, loops, and empties the cell again |
| Day6.TryObstacles | src/bin/day6/main.rs:276-303 | the results hold exactly the cells the route steps forwards into, each true exactly when an obstacle there makes the guard loop from the state before that step; tried cells end empty and every other cell is unchanged |
| Day7.TableIsPowersOfTen | src/bin/day7/main.rs:14-32 | entry i of `I64_LOG_10_TABLE` is 10^(i+1) - 1, the last one 10^17 - 1 |
| Day7.Digits | src/bin/day7/main.rs:36 | the digit count is at least 1 and 10 to its power exceeds the number |
| Day7.ConcatIsShift | src/bin/day7/main.rs:35-44 | `concat_i64` reaches `unreachable!()` exactly when right is above 10^17 - 1; otherwise, for a nonnegative right operand it shifts left by the digits of right and adds right, and a negative right operand is shifted by one digit |
| Day7.ConcatScanPast | src/bin/day7/main.rs:37-43 | a right operand above every table entry falls through the whole scan to `unreachable!()` |
| Day7.ConcatScanShift | src/bin/day7/main.rs:37-41 | the table scan from any entry not yet passed finds the power of ten just above right |
| Day7.ProductBelowConcat | src/bin/day7/main.rs:107-117 | decimal concatenation gives at least the product and the left operand, so the pruning of line 107 never drops a concatenation that fits |
| Day7.PanicNeedsLargeTerm | src/bin/day7/main.rs:35-44 | a reached `unreachable!()` needs a term after the first above 10^17 - 1, so terms within the table never panic |
| Day7.OptionPanics | src/bin/day7/main.rs:107-117 | an option whose next term is above the table and whose product with it passes the prune test reaches the panic |
| Day7.EvalPrefixLocal | src/bin/day7/main.rs:53-92 | the value of a prefix depends only on the operators inside it |
| Day7.EvalPrefixSnoc | src/bin/day7/main.rs:53-92 | one more operator applies it to the value so far and the next term, strictly left to right |
| Day7.EvalPrefixGrows | src/bin/day7/main.rs:56-82 | with positive terms a longer prefix never evaluates to less, so a value above the result can be dropped |
| Day7.LevelDrop | src/bin/day7/main.rs:104-139 | the three options one level deeper weigh less than the option they replace, which ends both searches |
| Day7.Offer | src/bin/day7/main.rs:107-138 | one candidate ends the search when it is the result at the last operator, is dropped above the result, or is queued; queued entries stay options and a solution's path stays covered |
| Day7.OfferAll | src/bin/day7/main.rs:107-138 | the three candidates of one option are offered in the source's order and pruning; it stops with ok false only at a reached panic of `concat_i64` |
| Day7.SearchStep | src/bin/day7/main.rs:104-139 | one round either panics at a reached concatenation or keeps every queued entry an option, keeps a solution's path covered, and lowers the queue's weight |
| Day7.FindOperators | src/bin/day7/main.rs:98-142 | found only when some operators give the result; without a panic and with positive terms, found whenever some do; a panic (ok false) needs a reached option whose next term is above the table and whose product passes the prune test; terms within the table never panic |
| Day7.SeqOffer | src/bin/day7/main.rs:56-91 | one candidate is collected at the last operator when it hits the result, or queued at its end; collected sequences are solutions |
| Day7.SeqStep | src/bin/day7/main.rs:53-93 | one round either panics at the unconditional concatenation of an option whose next term is above the table, or keeps every solution collected or ahead of a queued option and lowers the queue's weight |
| Day7.FindOperatorsWithOpSequences | src/bin/day7/main.rs:47-96 | every returned sequence evaluates to the result; without a panic and with positive terms every sequence that does is returned; a panic needs a reached option whose next term is above the table; terms within the table never panic |
| Day7.TotalCalibration | src/bin/day7/main.rs:166-169 | without a panic and with positive terms the total is the sum of the results of the equations that can be made true; a panic comes from one equation's reached concatenation, and terms within the table never panic |
| Day8.RowCells | src/bin/day8/main.rs:16-19 | line i's bytes tagged with (i, j), one per byte, in order |
| Day8.FilterPosSnoc | src/bin/day8/main.rs:20-26 | one more cell adds its position to its own byte's list only |
| Day8.RecordStep | src/bin/day8/main.rs:21-27 | recording one cell keeps every key mapped to the row-major list of its byte's positions, with `.` skipped |
| Day8.RecordRow | src/bin/day8/main.rs:17-27 | recording one line keeps the antenna map grouped |
| Day8.GroupAntennas | src/bin/day8/main.rs:14-28 | the map has a key per frequency that occurs, mapped to its positions in row-major order |
| Day8.CellsSound | src/bin/day8/main.rs:16-19 | every tagged position is a real cell holding its byte |
| Day8.CellsInOrder | src/bin/day8/main.rs:16-19 | the tags come in row-major order |
| Day8.CellsComplete | src/bin/day8/main.rs:16-19 | every cell of the input is tagged |
| Day8.GroupedFacts | src/bin/day8/main.rs:14-28 | each list is strictly row-major, lists only cells holding its frequency, and every antenna is listed under its frequency |
| Day8.RayMember | src/bin/day8/main.rs:43-55 | the walk visits exactly the in-grid points start + m * d, m >= 0 |
| Day8.RaySound | src/bin/day8/main.rs:43-48 | every cell the walk visits is on the ray and in the grid |
| Day8.RayComplete | src/bin/day8/main.rs:43-48 | every in-grid point of the ray is visited |
| Day8.WalkRay | src/bin/day8/main.rs:43-48 | one `while !out_of_bounds` walk inserts exactly the cells of the ray |
| Day8.PairAntinodes | src/bin/day8/main.rs:39-55 | a pair adds the ray from the second antenna away from the first and the ray from the first away from the second |
| Day8.RowStep | src/bin/day8/main.rs:38-56 | one more pair (i, j) adds its two rays |
| Day8.RowAntinodes | src/bin/day8/main.rs:38-56 | the inner loop adds the rays of every pair (i, j), j > i |
| Day8.ListAntinodes | src/bin/day8/main.rs:35-57 | the two loops add the rays of every pair i < j of the list |
| Day8.ListNodesMember | src/bin/day8/main.rs:37-57 | a point is added for a list exactly when it lies on a ray of one of its pairs |
| Day8.RowUnionMember | src/bin/day8/main.rs:38 | a point is in the inner loop's union exactly when some pair (i, k) contributes it |
| Day8.ListUnionMember | src/bin/day8/main.rs:37-38 | a point is in the outer loop's union exactly when some pair (a, k), a < k, contributes it |
| Day8.Antinodes | src/bin/day8/main.rs:33-58 | a point is an antinode exactly when it lies on a ray of a pair of one frequency, whatever order the map yields |
| Day8.CountAntinodes | src/bin/day8/main.rs:8-60 | the count is the number of distinct antinodes of the grouped antennas |
| Day8.AntinodeInBounds | src/bin/day8/main.rs:30-55 | every antinode lies inside rows x (length of the first line) |
| Day8.AntennaIsAntinode | src/bin/day8/main.rs:43-55 | an antenna of a frequency with two or more antennas is itself an antinode |
| Day8.PairOnLine | src/bin/day8/main.rs:39-55 | a pair's antinodes lie on its line, and the pair is two distinct cells |
| Day8.AntinodeOnLine | src/bin/day8/main.rs:33-58 | every antinode is first + k * (second - first) for two distinct antennas of one frequency |
| Day9.RunValuePair | src/bin/day9/main.rs:132-144 | digit 2 * id describes file id and the digit after it free space |
| Day9.Repeat | src/bin/day9/main.rs:133-135 | a run of n copies of one block value |
| Day9.LayoutPrefix | src/bin/day9/main.rs:132-144 | a shorter disk map describes a prefix of the blocks |
| Day9.LayoutAt | src/bin/day9/main.rs:132-144 | digit k fills sizes[k] blocks from the sum of the earlier digits on, with file k / 2 for even k and free space for odd k |
| Day9.ExpandDisk | src/bin/day9/main.rs:125-144 | the expanded disk is the layout the disk map describes |
| Day9.WriteFile | src/bin/day9/main.rs:133-135 | the inner loop writes n blocks of the file's id from ptr on and leaves the rest free |
| Day9.SkipGap | src/bin/day9/main.rs:140-143 | skipping a gap leaves its blocks free |
| Day9.ChecksumUpdate | src/bin/day9/main.rs:39-44 | changing one block changes the checksum by exactly that block's term |
| Day9.ChecksumMoveLeft | src/bin/day9/main.rs:35-36 | moving a file block from j to a free i < j lowers the checksum by (j - i) times its id |
| Day9.ScanFree | src/bin/day9/main.rs:23-25 | the scan stops at the first free block at or after its start |
| Day9.ScanFile | src/bin/day9/main.rs:27-29 | the scan stops at the last file block at or before its start |
| Day9.MoveBlock | src/bin/day9/main.rs:35-36 | the file block moves to the free block and its old place is freed: a permutation |
| Day9.BrokenLoopCompacted | src/bin/day9/main.rs:31-33 | when the cursors cross, no free block precedes a file block |
| Day9.BlockStep | src/bin/day9/main.rs:22-37 | one round either ends with the disk compacted and unchanged, or moves one block left and narrows the cursors |
| Day9.CompactFileFirst | src/bin/day9/main.rs:22-25 | a leading file block stays in place when the disk is compacted |
| Day9.CompactPermutes | src/bin/day9/main.rs:35-36 | compaction only relocates blocks: the multiset is unchanged |
| Day9.CompactCompacted | src/bin/day9/main.rs:18-47 | a compacted disk has no free block before a file block |
| Day9.AppendFreeCompacted | src/bin/day9/main.rs:27-29 | a free block after a compacted disk keeps it compacted |
| Day9.PrependFileCompacted | src/bin/day9/main.rs:23-25 | a file block before a compacted disk keeps it compacted |
| Day9.CompactExample | src/bin/day9/main.rs:18-47 | blocks 0 . . 1 2 compact to 0 2 1 . . with checksum 4: the last file block fills the first free block |
| Day9.PeelFiles | src/bin/day9/main.rs:23-25 | file blocks the free cursor skips are left where they are by compaction of the rest |
| Day9.PeelFrees | src/bin/day9/main.rs:27-29 | free blocks the file cursor skips stay free at the end of the compaction |
| Day9.SwapStep | src/bin/day9/main.rs:35-36 | moving the last file block of a window into its first free block leaves the window's compaction unchanged |
| Day9.ScanCompacting | src/bin/day9/main.rs:22-29 | both cursor scans keep the disk on its way to the compaction of the input |
| Day9.SwapCompacting | src/bin/day9/main.rs:35-36 | the block move keeps the disk on its way to the compaction of the input |
| Day9.CompactingDone | src/bin/day9/main.rs:31-33 | once the cursors cross, the disk is the compaction of the input |
| Day9.FirstStar | src/bin/day9/main.rs:18-47 | the final disk is the compaction of the input, which is a permutation with no free block before a file block, blocks only moved left, and the answer is its checksum |
| Day9.FillRange | src/bin/day9/main.rs:100-101 | `fill` sets exactly the blocks of [lo, hi) |
| Day9.NextFile | src/bin/day9/main.rs:61-76 | the scan finds the last whole run of one file id at or below ptr, exactly when such a block exists |
| Day9.FindFreeRun | src/bin/day9/main.rs:78-92 | no window the scan passed from free_space_min on fits the file; the run it stops at fits the file when it lies left of it; failure only when the disk ends with a file block |
| Day9.NoFitBetween | src/bin/day9/main.rs:80-92 | the windows the scan passed over fit no n free blocks |
| Day9.OffsetMonotone | src/bin/day9/main.rs:132-144 | the write cursor never decreases along the disk map |
| Day9.MovePermutes | src/bin/day9/main.rs:100-101 | a whole-file move only relocates blocks: the multiset is unchanged |
| Day9.MoveKeepsFileLoop | src/bin/day9/main.rs:94-104 | moving the found file into the found run is a whole-file move into the leftmost fitting run left of it, and keeps the loop state |
| Day9.MoveFile | src/bin/day9/main.rs:94-102 | the file moves into the run, free_space_min rises past it when the run started there, and the move is recorded in the trace |
| Day9.StayNoRoom | src/bin/day9/main.rs:78-92 | when the free-run scan passes the file without a fit, no run left of the file fits it |
| Day9.FileStep | src/bin/day9/main.rs:60-105 | one round either records at most one whole-file move, keeps the loop state and lowers the file cursor, or leaves the disk unchanged in the cases where the source's scans run off the disk; a successful round is a Round: the found file moves into the leftmost fitting run left of it, or stays exactly when none fits |
| Day9.RoundsAppend | src/bin/day9/main.rs:60-105 | a round after a chain of rounds extends the chain |
| Day9.FoundFileUnique | src/bin/day9/main.rs:61-76 | the file a round takes is determined by the disk and the cursor |
| Day9.PlacedUnique | src/bin/day9/main.rs:78-104 | the disk after placing a file is determined: the leftmost fitting run, or no change |
| Day9.RoundUnique | src/bin/day9/main.rs:60-105 | one round's disk and next cursor are determined by the disk and cursor before it |
| Day9.RoundsAgree | src/bin/day9/main.rs:60-105 | two chains of rounds from the same start agree at every common position |
| Day9.RoundsCursor | src/bin/day9/main.rs:60 | every round but the last starts with a positive cursor |
| Day9.RoundsUnique | src/bin/day9/main.rs:49-115 | two chains from the same start that both end at cursor 0 are the same chain, so the final disk is determined by the input |
| Day9.SecondStar | src/bin/day9/main.rs:49-115 | the disk goes through a trace of whole-file moves, each into the leftmost fitting free run left of the file; on success it goes through a chain of rounds, one per file cursor position, from the input to cursor 0, no-move rounds included, which fixes the final disk; the result is a permutation of the input and the answer its checksum; failure only for an empty disk, a disk without free blocks, or one that starts free or ends with a file block |
| Day10.Snapshot | src/bin/day10/main.rs:22-26 | the heights the grid holds, as a valid rows x cols snapshot |
| Day10.Child | src/bin/day10/main.rs:23-27 | a child of a partial trail is an on-map orthogonal neighbour of its last cell, exactly one higher |
| Day10.ClimbHeight | src/bin/day10/main.rs:20-37 | along a climbing path the height grows by exactly one per step |
| Day10.DirectionOf | src/bin/day10/main.rs:23-24 | every orthogonal neighbour on the map is reached from the cell by one of the four directions |
| Day10.ChildrenDiffer | src/bin/day10/main.rs:23-29 | two different directions extend a trail by different cells |
| Day10.StepCompletes | src/bin/day10/main.rs:27-34 | a trail extended by a one-higher neighbour and then completed completes the original trail |
| Day10.CompleteSound | src/bin/day10/main.rs:20-37 | every trail the search finds below a partial trail completes it: it climbs by one per orthogonal step and ends at height 9 |
| Day10.CompleteHead | src/bin/day10/main.rs:23-34 | every trail found below a direction range continues with the child of one of those directions |
| Day10.BranchInside | src/bin/day10/main.rs:23 | the trails below one direction are among those of every direction range containing it |
| Day10.CompleteComplete | src/bin/day10/main.rs:20-37 | every completion of a partial trail is found by the search below it |
| Day10.CompleteOnce | src/bin/day10/main.rs:20-37 | the search finds no trail twice |
| Day10.BranchOnce | src/bin/day10/main.rs:27-34 | the search below one direction finds no trail twice |
| Day10.BranchesDisjoint | src/bin/day10/main.rs:23-34 | no trail is found below two different directions |
| Day10.BranchHead | src/bin/day10/main.rs:28-29 | a trail found below a direction continues with that direction's child |
| Day10.TrailheadSearch | src/bin/day10/main.rs:14-38 | from a trailhead the search finds exactly the hiking trails, each at most once |
| Day10.ZerosFrom | src/bin/day10/main.rs:7-10 | the listed cells are exactly the cells of height 0 from the given position on |
| Day10.TrailHeads | src/bin/day10/main.rs:7-10 | the trailheads are exactly the cells of height 0 |
| Day10.Explore | src/bin/day10/main.rs:15-38 | the worklist loop collects, as a multiset, exactly the complete trails of the search from the trailhead |
| Day10.ExpandTrail | src/bin/day10/main.rs:20-37 | one pop keeps the found plus pending trails equal to the search's total, and the pending node count falls |
| Day10.ExpandDir | src/bin/day10/main.rs:24-35 | one direction either completes a trail at height 9 or pushes it to the front, keeping the loop invariant |
| Day10.CalculateTrails | src/bin/day10/main.rs:6-43 | the map's keys are exactly the trailheads and each entry holds the trails the search finds from its key |
| Day10.Pick | src/bin/day10/main.rs:46-47 | the entry visited first is a key of the map |
| Day10.ScoreAtMostRating | src/bin/day10/main.rs:48-54 | a list of trails reaches no more peaks than it has trails |
| Day10.SumEntriesMono | src/bin/day10/main.rs:46-55 | a bound on every entry bounds the sum over the map |
| Day10.FirstStarAtMostSecond | src/bin/day10/main.rs:45-70 | the total of the scores never exceeds the total of the ratings |
| Day10.ExploredTrails | src/bin/day10/main.rs:40-64 | an entry holds exactly the hiking trails from its trailhead, without duplicates, so its length is the rating |
| Day10.ExploredPeaks | src/bin/day10/main.rs:49-53 | an entry's peaks are exactly the height-9 cells some hiking trail from the trailhead ends at |
| Day11.SplitNumberIfEven | src/bin/day11/main.rs:6-21 | a split happens exactly for a positive number with an even count of decimal digits |
| Day11.SplitHalves | src/bin/day11/main.rs:14-19 | the halves rebuild the number (left * 10^h + right), the right half is below 10^h and the left half is positive with exactly h digits |
| Day11.Blink | src/bin/day11/main.rs:23-31 | a stone splits exactly when its digit count is even; otherwise it becomes one positive stone that fits a usize |
| Day11.BlinkSplitKeepsDigits | src/bin/day11/main.rs:24-25 | a split stone's halves keep its digits in order |
| Day11.Occurrences | src/bin/day11/main.rs:65-73 | a blink makes no more stones engraved t than it makes stones |
| Day11.ScaledOccurrences | src/bin/day11/main.rs:65-73 | num stones blinking add num for each resulting stone engraved t |
| Day11.InsertOrIncrement | src/bin/day11/main.rs:33-39 | the key is present afterwards with its old count (0 if missing) plus inc, and every other key keeps its count |
| Day11.TotalInsertOrIncrement | src/bin/day11/main.rs:33-39 | the number of stones grows by exactly inc |
| Day11.TotalPointwise | src/bin/day11/main.rs:76-80 | count maps that agree on every key, missing keys counting 0, stand for the same number of stones |
| Day11.BlinkCached | src/bin/day11/main.rs:58-64 | the memoised lookup returns the stone's blink and the memo stays correct |
| Day11.AddBlinked | src/bin/day11/main.rs:65-73 | num stones' blink is added to the scratch counts, per engraved number and in total |
| Day11.Gather | src/bin/day11/main.rs:57-74 | after the scan the scratch map counts, for every number, the stones all current stones blink into, and the total is the round's total |
| Day11.Transfer | src/bin/day11/main.rs:76-80 | the new counts equal the scratch counts, totals agree, keys are kept, and the scratch map is zeroed |
| Day11.TransferOne | src/bin/day11/main.rs:77-80 | moving one pending scratch count keeps the transfer invariant and shrinks the pending set |
| Day11.TransferStep | src/bin/day11/main.rs:77-80 | one insert_or_increment plus zeroing moves one key from pending to done |
| Day11.StoneCounts.constructor | src/bin/day11/main.rs:47-54 | one count per distinct engraved number, an empty scratch map and an empty memo |
| Day11.StoneCounts.Round | src/bin/day11/main.rs:57-80 | after one round every number's count is what the previous stones blink into, the total is the round's total, and the memo stays correct |
| Day11.TotalAllZero | src/bin/day11/main.rs:76 | a map of zero counts stands for no stones |
| Day11.GatherStep | src/bin/day11/main.rs:57-74 | blinking one more key extends the gathered counts and the total by that key's share |
| Day11.RoundTotalStep | src/bin/day11/main.rs:57-74 | one more key adds its count times the width of its blink to the round total |
| Day11.RoundCountStep | src/bin/day11/main.rs:57-74 | one more key adds its count times its blink's occurrences of t |
| Day12.Plot.Step | src/utils.rs:30-41 | the neighbour one step in a direction when it is on the map, and None exactly when that step leaves it |
| Day12.Snapshot | src/bin/day12/main.rs:21 | the plants the grid holds, shaped as the grid |
| Day12.DirectionTo | src/bin/day12/main.rs:30-32 | every on-map orthogonal neighbour is reached by one of the four directions |
| Day12.ConnectedExtend | src/bin/day12/main.rs:37-42 | a same-plant neighbour of a connected plot is connected |
| Day12.ConnectedInClosed | src/bin/day12/main.rs:28-64 | a set holding the start and closed under same-plant links holds everything connected to it |
| Day12.RegionClosed | src/bin/day12/main.rs:37-42 | a region holds every same-plant neighbour of its plots |
| Day12.OffGridIsStep | src/bin/day12/main.rs:53-61 | the neighbour written for an edge plot is the position one step off the map, on the frame around it |
| Day12.CellFencesMeaning | src/bin/day12/main.rs:43-61 | a plot's fence pieces are exactly its sides facing the edge or another plant |
| Day12.FencesMeaning | src/bin/day12/main.rs:24-61 | a perimeter entry is exactly a plot of the set with the position across one of its bordering sides |
| Day12.VisitNeighbour | src/bin/day12/main.rs:31-62 | for one direction: a same-plant neighbour joins the area, leaves the tasks and is pushed if unvisited; otherwise one fence piece is added and an unvisited other-plant neighbour becomes a task |
| Day12.VisitNeighbours | src/bin/day12/main.rs:30-63 | the four directions together: the area, tasks, fence pieces and stack as the directions' visits compose |
| Day12.FillStep | src/bin/day12/main.rs:28-63 | one turn of the flood fill keeps the fill invariant |
| Day12.FillDone | src/bin/day12/main.rs:28-64 | with the stack empty the area is the region of the popped task cell, the perimeter its fence pieces and the tasks gain its unvisited other-plant neighbours |
| Day12.VisitPlot | src/bin/day12/main.rs:28-63 | one turn keeps the invariant and the unvisited plots or the stack shrink |
| Day12.ExploreRegion | src/bin/day12/main.rs:21-64 | the area is the region of the popped task cell, the perimeter its fence pieces, the visited set grows by exactly the area and the tasks lose the area and gain the unvisited other-plant neighbours |
| Day12.LeastExists | src/bin/day12/main.rs:20 | a nonempty set of coordinates has a lexicographically least element |
| Day12.PopFirst | src/bin/day12/main.rs:20 | `pop_first` takes out the least coordinate and nothing else |
| Day12.AreasMeaning | src/bin/day12/main.rs:65 | a plot is in the gardens' areas exactly when it is in one garden |
| Day12.SurveyStep | src/bin/day12/main.rs:20-66 | adding one explored region keeps the outer loop's invariant |
| Day12.GridCovered | src/bin/day12/main.rs:18 | from (0, 0) closure under neighbours reaches every plot |
| Day12.FindGardens | src/bin/day12/main.rs:14-66 | the gardens are the regions of the map with their fence pieces, pairwise disjoint and covering every plot |
| Day12Sides.KeysAdd | src/bin/day12/main.rs:94-110 | a fence piece adds its key of an orientation when the orientation keeps it |
| Day12Sides.Collect | src/bin/day12/main.rs:107-110 | the list holds exactly the keys of the orientation |
| Day12Sides.Insert | src/bin/day12/main.rs:111 | inserting adds the element and keeps the rest |
| Day12Sides.InsertSorted | src/bin/day12/main.rs:111 | inserting into a sorted list keeps it sorted |
| Day12Sides.SortPoints | src/bin/day12/main.rs:111 | the sorted list is sorted and a permutation of the input |
| Day12Sides.SortedElems | src/bin/day12/main.rs:111 | sorting keeps the set of keys |
| Day12Sides.CountSides | src/bin/day12/main.rs:113-125 | one side for the first key plus one for every key that starts another line or leaves a gap |
| Day12Sides.SidesAreStarts | src/bin/day12/main.rs:113-125 | on sorted keys the count is the number of straight sides, the keys whose predecessor on their line is not a key |
| Day12Sides.StartsGrow | src/bin/day12/main.rs:115-122 | appending a key past the greatest adds a side exactly when the loop's test says so |
| Day12Sides.StartsNonempty | src/bin/day12/main.rs:125 | a nonempty set of keys has at least one side |
| Day12Sides.Facing | src/bin/day12/main.rs:94-103 | each orientation faces one of the four directions |
| Day12Sides.Extreme | src/bin/day12/main.rs:94-103 | a region has a plot furthest in each orientation |
| Day12Sides.ExtremeBorders | src/bin/day12/main.rs:94-103 | the furthest plot borders in the facing direction |
| Day12Sides.FacingKey | src/bin/day12/main.rs:94-103 | that bordering side is kept by the orientation |
| Day12Sides.KeysNonempty | src/bin/day12/main.rs:113 | every region has keys in every orientation, so `v[0]` never panics |
| Day12Sides.OrientationSides | src/bin/day12/main.rs:107-125 | one orientation's count is its number of straight sides |
| Day12Sides.SidesOf | src/bin/day12/main.rs:105-126 | the count is the sum of straight sides over the four orientations |
| Day12Sides.FourSides | src/bin/day12/main.rs:105-126 | every garden has at least four sides |
| Day12Sides.SidesCost | src/bin/day12/main.rs:89-132 | the sum over the gardens of sides times area |
| Day12Sides.GardensKeyed | src/bin/day12/main.rs:113 | every garden of a division has keys in every orientation |
| Day12Sides.Prices | src/bin/day12/main.rs:14-135 | the two totals are area times fence pieces and area times sides, summed over a division of the map into its regions |
| Day13.SolveSystem | src/bin/day13/main.rs:37-50 | None when the determinant does not divide the first numerator or a.1 does not divide the back-substituted rest; a returned pair solves both equations, and a pair is returned exactly when an integer solution exists |
| Day13.ExactDivision | src/bin/day13/main.rs:38-41 | an exact multiple has remainder 0 and both Euclidean and truncating division give its factor |
| Day13.EuclidExact | src/bin/day13/main.rs:38 | an exact multiple has Euclidean remainder 0 and quotient its factor |
| Day13.ProductOfDifference | src/bin/day13/main.rs:38-41 | a multiple of d plus a remainder below abs(d) that equals another multiple leaves no remainder |
| Day13.AbsProduct | src/bin/day13/main.rs:38-41 | the absolute value of a product is the product of the absolute values |
| Day13.TruncExact | src/bin/day13/main.rs:41-47 | truncating division of an exact multiple gives its factor |
| Day13.DivThenMul | src/bin/day13/main.rs:41-47 | dividing a multiple and multiplying back is the identity |
| Day13.EliminateU | src/bin/day13/main.rs:38-41 | any solution makes the first numerator the determinant times v |
| Day13.Eliminate | src/bin/day13/main.rs:38-41 | eliminating u from the two equations leaves a1*c0 - a0*c1 = v * det |
| Day13.Substitute | src/bin/day13/main.rs:43-49 | v from the elimination and u from the second equation also satisfy the first |
| Day13.NonzeroFactor | src/bin/day13/main.rs:37-50 | a zero product with a nonzero factor has a zero other factor |
| Day13.NoSolutionWhenDetDoesNotDivide | src/bin/day13/main.rs:38-40 | the first early return is taken only when the system has no integer solution |
| Day13.NoSolutionWhenA1DoesNotDivide | src/bin/day13/main.rs:43-45 | the second early return is taken only when the system has no integer solution |
| Day13.BackSubstitution | src/bin/day13/main.rs:41-49 | the pair the source returns solves the system |
| Day13.SolutionIsUnique | src/bin/day13/main.rs:37-50 | with a nonzero determinant, any solution, negative presses included, is the one returned |
| Day13.ZeroA1WithoutDivision | src/bin/day13/main.rs:38-40 | buttons (1, 0) and (0, 2) with the prize at (5, 3) return None at the first test, with a.1 zero and never divided by |
| Day13.MachineCost | src/bin/day13/main.rs:78-83 | a machine without an integer solution costs nothing |
| Day13.SolvedMachineCost | src/bin/day13/main.rs:78-83 | a machine whose system has a solution (u, v) costs 3u + v |
| Day13.TotalCost | src/bin/day13/main.rs:76-102 | the total is 0 when no machine has a solution |
| Day13.TotalCostAppend | src/bin/day13/main.rs:76-102 | the total splits over any split of the machine list |
| Day15.EntityByte | src/bin/day15/main.rs:29-39 | every entity is written as one of the six map bytes |
| Day15.TryFrom | src/bin/day15/main.rs:26-40 | Ok exactly for the six map bytes, and then the entity written as that byte; otherwise OutOfRange carrying the byte |
| Day15.EntityRoundTrip | src/bin/day15/main.rs:26-40 | every entity is read back from its byte |
| Day15.Widen | src/bin/day15/main.rs:71-77 | each narrow byte becomes two bytes |
| Day15.WidenRow | src/bin/day15/main.rs:68-79 | a row doubles in length and bytes 2j and 2j + 1 are the widened form of byte j |
| Day15.TransformMapToWide | src/bin/day15/main.rs:65-81 | every row is widened and the row count is kept |
| Day15.WidenRowShape | src/bin/day15/main.rs:65-81 | a widened row has its boxes as `[]` pairs, no narrow box, only map bytes, and the robot exactly at twice its old column |
| Day15.Half | src/bin/day15/main.rs:72-75 | a wide column comes from column k / 2 |
| Day15.PairsShape | src/bin/day15/main.rs:72-78 | a row of widened pairs has whole boxes, no narrow box and the robot only in even columns |
| Day15.PairsPaired | src/bin/day15/main.rs:72-78 | a row of widened pairs has every `[` followed by `]` and every `]` after `[` |
| Day15.WidenPair | src/bin/day15/main.rs:72-75 | each pair is two map bytes, no narrow box, `[` exactly with `]`, and the robot only in front and only for `@` |
| Day15.WidenedCell | src/bin/day15/main.rs:68-78 | the two bytes at 2j and 2j + 1 of a widened row are the pair of byte j |
| Day15.ParsedStep | src/bin/day15/main.rs:56 | setting cell (i, j) to the parsed entity extends the parsed prefix by one cell |
| Day15.RobotStep | src/bin/day15/main.rs:53-55 | looking at one more byte keeps robot_pos the last `@` seen so far |
| Day15.RowEnd | src/bin/day15/main.rs:51-58 | the end of row i is the start of row i + 1 |
| Day15.ScanDone | src/bin/day15/main.rs:60-62 | after the scan, when the map has an `@`, robot_pos is the last `@` in row-major order |
| Day15.ParseMap | src/bin/day15/main.rs:42-63 | Err exactly when the map holds a byte that is not an entity, carrying such a byte; otherwise a rows x cols grid of the map's entities and the position of its last `@` |
| Day15.ParseRow | src/bin/day15/main.rs:52-57 | the row's cells hold their entities and robot_pos is updated, or a byte that is not an entity is reported |
| Day15Moves.Board.Put | src/utils.rs:66-69 | a set keeps the board's size and validity |
| Day15Moves.PutCell | src/utils.rs:66-69 | a set changes exactly the cell it names |
| Day15Moves.BoardsEqual | src/bin/day15/main.rs:102-250 | boards of one size that agree on every cell are equal |
| Day15Moves.Next | src/bin/day15/main.rs:118-120 | a step stays on the board |
| Day15Moves.NextIsTransform | src/bin/day15/main.rs:116-120 | the step is what `transform_coord` with the direction's vector computes |
| Day15Moves.NextBack | src/bin/day15/main.rs:116-120 | a step in direction d is undone by the step in the opposite direction, and only then |
| Day15Moves.AheadNext | src/bin/day15/main.rs:127-131 | along a ray the loop's `transform_coord` steps to the next cell until the border |
| Day15Moves.NotWallHasRoom | src/bin/day15/main.rs:118-120 | a cell that is not a wall of a walled-in board has a neighbour in every direction, so the `expect` never fires |
| Day15Moves.FirstStop | src/bin/day15/main.rs:127-144 | the first free or walled cell along the ray, reached by the border at the latest, with only boxes before it |
| Day15Moves.StopHere | src/bin/day15/main.rs:132-143 | a loop standing at a free or walled cell has found the first one |
| Day15Moves.StopLater | src/bin/day15/main.rs:127-144 | a loop standing at a box looks one step further, and the border is not yet reached |
| Day15Moves.Shifted | src/bin/day15/main.rs:231-237 | moving every cell of a set one step gives a board of the same size whose cells are the shifted cells |
| Day15Moves.ShiftKeepsWalls | src/bin/day15/main.rs:231-237 | a shift that is a move writes no wall and removes none |
| Day15Moves.ShiftedTarget | src/bin/day15/main.rs:233-234 | a moved cell's content lands one step ahead |
| Day15Moves.ShiftKeepsPairs | src/bin/day15/main.rs:194-243 | a shift that is a move keeps two-cell boxes whole |
| Day15Moves.LeftStaysPaired | src/bin/day15/main.rs:231-237 | after such a shift every `[` has `]` to its right |
| Day15Moves.MovedRight | src/bin/day15/main.rs:231-237 | a moved `[` still has its `]` beside it |
| Day15Moves.StayingLeft | src/bin/day15/main.rs:231-237 | a `[` that stays keeps its `]` |
| Day15Moves.RightStaysPaired | src/bin/day15/main.rs:231-237 | after such a shift every `]` has `[` to its left |
| Day15Moves.MovedLeft | src/bin/day15/main.rs:231-237 | a moved `]` still has its `[` beside it |
| Day15Moves.StayingRight | src/bin/day15/main.rs:231-237 | a `]` that stays keeps its `[` |
| Day15Moves.SameWallsTrans | src/bin/day15/main.rs:111-249 | keeping the walls composes over moves |
| Day15Moves.SameWallsEnclosed | src/bin/day15/main.rs:111-249 | a board with the same walls as a walled-in one is walled in |
| Day15Moves.Front | src/bin/day15/main.rs:118-120 | the robot always has a cell in front of it, one step ahead |
| Day15Moves.PutKeepsWalls | src/bin/day15/main.rs:122-125 | writing something other than a wall over something other than a wall keeps the walls |
| Day15Moves.PutKeepsPaired | src/bin/day15/main.rs:122-139 | writing no half over no half keeps boxes whole |
| Day15Moves.PutKeepsRobot | src/bin/day15/main.rs:122-139 | writing no robot away from the robot keeps it the only one |
| Day15Moves.PutMovesRobot | src/bin/day15/main.rs:123-125 | writing the robot ahead and a free cell behind moves the only robot |
| Day15Moves.StepWarehouse | src/bin/day15/main.rs:122-140 | stepping into a free cell, or pushing a row of boxes one box further, keeps the warehouse and its walls |
| Day15Moves.ShiftWarehouse | src/bin/day15/main.rs:231-242 | a shift that moves the robot along keeps the warehouse, with the robot one step ahead |
| Day15Moves.ShiftMovesRobot | src/bin/day15/main.rs:239-242 | the shifted robot is the only one, one step ahead |
| Day15Moves.RunShiftOk | src/bin/day15/main.rs:146-163 | pushing a row of things sideways into a free cell is a move |
| Day15Moves.RunStep | src/bin/day15/main.rs:155-162 | every cell of the pushed row moves with what it runs into |
| Day15Moves.RunPartner | src/bin/day15/main.rs:146-169 | the other half of a box in a sideways-pushed row is pushed too |
| Day15Moves.HalfAhead | src/bin/day15/main.rs:148-169 | a half box between the robot and the stop is in the pushed row |
| Day15Moves.InRun | src/bin/day15/main.rs:159-162 | the cells before the stop belong to the pushed row |
| Day15Moves.LayerInRoom | src/bin/day15/main.rs:194-228 | a layer of boxes lies strictly between the robot and the border |
| Day15Moves.NextLayerOk | src/bin/day15/main.rs:195-224 | the next row of entities after an unblocked one is a layer of whole boxes one line further |
| Day15Moves.ContribCell | src/bin/day15/main.rs:198-216 | a cell a layer cell runs into is half of a box one line further whose other half is collected too |
| Day15Moves.FirstLayerOk | src/bin/day15/main.rs:171-192 | the first row of entities is the whole box in front of the robot |
| Day15Moves.LayersShiftOk | src/bin/day15/main.rs:194-237 | unblocked layers shift as a move: every collected cell is followed by what it runs into |
| Day15Moves.LayerMoves | src/bin/day15/main.rs:197-221 | one cell of an unblocked layer moves |
| Day15Moves.MoveKeepsWarehouse | src/bin/day15/main.rs:111-249 | every move keeps a walled-in board of whole boxes with one robot, and either changes nothing or steps the robot one cell in its direction |
| Day15Moves.StepOkFree | src/bin/day15/main.rs:122-125 | the step into a free cell is such a move |
| Day15Moves.StepOkBoxes | src/bin/day15/main.rs:126-140 | the push of a row of boxes into a free cell is such a move |
| Day15Moves.StepOkRun | src/bin/day15/main.rs:146-163 | the sideways push of two-cell boxes is such a move |
| Day15Moves.ShiftLeavesFree | src/bin/day15/main.rs:240 | the robot's old cell holds no robot after the shift |
| Day15Moves.LayersMove | src/bin/day15/main.rs:230-243 | unblocked layers and the robot behind them shift as such a move |
| Day15Moves.MoveNarrow | src/bin/day15/main.rs:122-144 | without two-cell boxes, the robot moves exactly when the first cell past the boxes in front of it is free |
| Day15Moves.MoveByte | src/bin/day15/main.rs:103-109 | every direction has a move byte |
| Day15Moves.MoveDirRoundTrip | src/bin/day15/main.rs:103-109 | the four move bytes name the four directions, one each |
| Day15Moves.Simulate | src/bin/day15/main.rs:111-249 | after the moves the board is still a warehouse with the original walls |
| Day15Moves.SimulateAppend | src/bin/day15/main.rs:111 | the moves of ms + ms' are those of ms, then those of ms' |
| Day15Moves.GpsPut | src/bin/day15/main.rs:272-275 | a set changes the GPS sum by the cell's weight, removed if the old content counted and added if the new one does |
| Day15Moves.GpsUpToUpdate | src/bin/day15/main.rs:272-275 | the same on every prefix of the row-major cells |
| Day15Moves.ParsedWarehouse | src/bin/day15/main.rs:42-63 | a walled-in map with one robot and whole boxes parses to a warehouse with the robot where parse_map reports it |
| Day15Moves.WideMapShape | src/bin/day15/main.rs:65-81 | the widened map is rectangular, twice as wide, walled in, of entity bytes, with one robot and whole `[]` boxes |
| Day15Moves.WideWalled | src/bin/day15/main.rs:72 | widening keeps the map walled in |
| Day15Moves.WideSingleRobot | src/bin/day15/main.rs:75 | widening keeps at most one robot, and keeps it when there is one |
| Day15Moves.MapRobot | src/bin/day15/main.rs:53-55 | the one `@` is the last `@` |
| Day15Moves.Parsed | src/bin/day15/main.rs:268-279 | a puzzle map's parsed board is a warehouse of the map's size |
| Day15Moves.MapCellsParsed | src/bin/day15/main.rs:51-58 | cells equal to the map's entities are parsed cells |
| Day15Moves.LastRobotUnique | src/bin/day15/main.rs:53-55 | only one position is the last `@` |
| Day15Moves.ParsedUnique | src/bin/day15/main.rs:42-63 | what parse_map reports for a puzzle map is exactly Parsed |
| Day15Moves.NarrowPuzzle | src/bin/day15/main.rs:268-279 | a walled-in narrow map with one robot is a puzzle map, and so is its widened form |
| Day15Robot.StepFrom | src/bin/day15/main.rs:118-120 | the cell one step from a cell that is no wall exists, so the `expect` never fires |
| Day15Robot.MoveRobot | src/bin/day15/main.rs:112-245 | one move of `simulate_robot` leaves exactly the board and robot position of the rule Move |
| Day15Robot.PushBoxes | src/bin/day15/main.rs:126-144 | the push of a row of narrow boxes leaves the board and robot of Move |
| Day15Robot.PushRow | src/bin/day15/main.rs:146-169 | the sideways push of two-cell boxes leaves the board and robot of Move |
| Day15Robot.ScanRow | src/bin/day15/main.rs:147-169 | the scan collects the entities up to the first free or walled cell, in order, and says whether that cell is free |
| Day15Robot.ScanMore | src/bin/day15/main.rs:149-151 | standing on a box the scan has a next cell, so the `expect` never fires |
| Day15Robot.ScanNext | src/bin/day15/main.rs:166-168 | stepping onto another box appends it to the entities |
| Day15Robot.ScanEnd | src/bin/day15/main.rs:153-165 | stepping onto a free or walled cell ends the scan at the first stop |
| Day15Robot.RunShiftedCell | src/bin/day15/main.rs:154-162 | after the push each cell of the row holds what was one step behind it, and the robot's old cell is free |
| Day15Robot.RunShiftedAhead | src/bin/day15/main.rs:159-162 | a cell ahead of the robot gets the entity one step behind it |
| Day15Robot.RunStart | src/bin/day15/main.rs:154-157 | the robot's two writes start the shifted row |
| Day15Robot.WriteRow | src/bin/day15/main.rs:159-162 | the write loop leaves exactly the row shifted one cell on |
| Day15Robot.WriteNext | src/bin/day15/main.rs:160-161 | one turn of the write loop steps one cell on and extends the shifted part |
| Day15Robot.RowWriteStep | src/bin/day15/main.rs:160-161 | writing the entity of the cell behind extends the shifted part by one cell |
| Day15Robot.PartlyExtend | src/bin/day15/main.rs:231-237 | writing the shifted entity of one more cell extends the shifted part |
| Day15Robot.RowWritten | src/bin/day15/main.rs:159-163 | once all cells of the row are written the board is the full shift |
| Day15Robot.PushLayers | src/bin/day15/main.rs:170-244 | the vertical push of two-cell boxes leaves the board and robot of Move |
| Day15Robot.CollectLayers | src/bin/day15/main.rs:171-228 | `entity_rows` is empty exactly when some layer runs into a wall; otherwise its rows are the layers, one line apart, holding exactly the cells that move |
| Day15Robot.CollectStart | src/bin/day15/main.rs:171-192 | the first row starts the collection |
| Day15Robot.CollectBlocked | src/bin/day15/main.rs:217-220 | a layer that runs into a wall blocks the push |
| Day15Robot.CollectEnd | src/bin/day15/main.rs:223-225 | an empty next row ends the collection with all moving cells gathered |
| Day15Robot.CollectNext | src/bin/day15/main.rs:227 | a nonempty next row is pushed and the collection goes on |
| Day15Robot.MoveVertical | src/bin/day15/main.rs:170-244 | a vertical push at a two-cell box changes nothing when a layer is blocked, and otherwise shifts the layers and the robot one line |
| Day15Robot.LayersBlocked | src/bin/day15/main.rs:217-220 | the layered search reports a blocked push once one layer runs into a wall |
| Day15Robot.LayersUnfold | src/bin/day15/main.rs:194-228 | an unblocked layer is followed by the next one |
| Day15Robot.LayersEnd | src/bin/day15/main.rs:223-225 | with no boxes further on, the layers seen are all that move |
| Day15Robot.NextRowShaped | src/bin/day15/main.rs:227 | the tagged next layer is a well-shaped next row with the layer's cells |
| Day15Robot.LayerAppend | src/bin/day15/main.rs:227 | appending a tagged layer adds its cells |
| Day15Robot.FirstRow | src/bin/day15/main.rs:171-192 | the first row holds both halves of the box in front of the robot, tagged with their entities |
| Day15Robot.NextRow | src/bin/day15/main.rs:194-222 | one round reports a wall exactly when the last row is blocked, and otherwise collects the next layer |
| Day15Robot.ScanCell | src/bin/day15/main.rs:197-220 | one cell of the last row meets a wall, which blocks the layer, or contributes both halves of the box it runs into |
| Day15Robot.RowStep | src/bin/day15/main.rs:197-221 | handling one cell moves it to the done part and adds its contribution to the new row |
| Day15Robot.ContribTag | src/bin/day15/main.rs:198-216 | a cell running into `[` adds it and the `]` to its right, into `]` adds it and the `[` to its left, and otherwise adds nothing |
| Day15Robot.TagEmpty | src/bin/day15/main.rs:223 | a layer whose tagged row is empty is empty |
| Day15Robot.TagShaped | src/bin/day15/main.rs:227 | a tagged layer is a well-shaped next row |
| Day15Robot.RobotBehind | src/bin/day15/main.rs:239-241 | neither the robot nor the cell behind it is in any row |
| Day15Robot.WriteLayers | src/bin/day15/main.rs:230-237 | popping the rows farthest first and moving their cells leaves exactly the board with all collected cells shifted one line |
| Day15Robot.BeyondGrows | src/bin/day15/main.rs:231 | the rows written so far lie beyond the row being written |
| Day15Robot.LayerWriteStep | src/bin/day15/main.rs:232-236 | the next cell to write has not moved, nor has the cell behind it |
| Day15Robot.WriteLayerRow | src/bin/day15/main.rs:232-236 | the inner write loop extends the shift by the row's cells |
| Day15Robot.MoveCell | src/bin/day15/main.rs:233-235 | writing the entity one line on and freeing its cell extends the shift by that cell |
| Day15Robot.ShiftedNone | src/bin/day15/main.rs:230-237 | shifting no cell changes nothing |
| Day15Robot.ShiftOneMore | src/bin/day15/main.rs:233-235 | moving one more cell whose cell behind has not moved extends the shift |
| Day15Robot.ShiftRobotLast | src/bin/day15/main.rs:239-242 | the robot's writes after the layers complete the shift with the robot |
| Day15Robot.SimulateRobot | src/bin/day15/main.rs:102-250 | the grid ends as the moves, made one after the other by the rule Move, leave it |
| Day15Robot.GpsSum | src/bin/day15/main.rs:272-275 | the sum over `indexed_iter` of `i * 100 + j` for the cells holding e is the GPS sum of the board |
| Day15Robot.RowMajorEntry | src/utils.rs:128-143 | entry n of the row-major listing is the coordinate and value of data[n] |
| Day15Robot.GpsStep | src/bin/day15/main.rs:274 | one more cell adds its GPS coordinate exactly when it holds e |
| Day15Robot.Stars | src/bin/day15/main.rs:252-290 | star 1 is the GPS sum of the boxes after the moves on the map, and star 2 that of the left halves after the moves on the widened map |
| Day15Robot.RunMap | src/bin/day15/main.rs:268-275 | parsing a puzzle map, running the moves and summing gives the GPS sum of the simulated board |
| Day18.CmpNat | src/bin/day18/main.rs:13-15 | Less exactly when a < b and Equal exactly when a == b |
| Day18.CmpReversesScore | src/bin/day18/main.rs:11-18 | a lower score compares greater, so the max-heap pops a lowest score first |
| Day18.CmpTotalOrder | src/bin/day18/main.rs:11-24 | the order is antisymmetric, equal only on equal elements, and transitive, as `Ord` demands |
| Day18.Pop | src/bin/day18/main.rs:46 | a greatest element, hence one of lowest score, leaves the queue and nothing else changes |
| Day18.OptionsAsWritten | src/bin/day18/main.rs:54-105 | a cell is considered exactly when it is an orthogonal neighbour whose step up in either coordinate stays below bounds.0, as line 93 writes the second bound |
| Day18.OptionsAsWrittenLeavesGrid | src/bin/day18/main.rs:93 | on bounds (3, 1) the written rule considers (0, 1) from (0, 0), although its second coordinate is not below bounds.1 and the intended rule rejects it |
| Day18.Options | src/bin/day18/main.rs:54-105 | the intended rule: an orthogonal neighbour that steps past neither coordinate's own bound |
| Day18.OptionsInBounds | src/bin/day18/main.rs:54-105 | from an in-bounds cell every intended option is in bounds |
| Day18.OptionsAgreeOnSquare | src/bin/day18/main.rs:136 | on a square grid, the one `main` uses, the written rule is the intended one |
| Day18.WayExtend | src/bin/day18/main.rs:54-105 | a way extended by a step onto a free option is a way one step longer |
| Day18.ZeroWay | src/bin/day18/main.rs:50-51 | a way of no steps ends where it starts |
| Day18.WayPrefix | src/bin/day18/main.rs:54-105 | every cell on a way is reached by the way's prefix, in as many steps as its place |
| Day18.MoreBytesFewerWays | src/bin/day18/main.rs:180-182 | more fallen bytes only remove ways |
| Day18.MapSumRemove | src/bin/day18/main.rs:34 | the sum of the table does not depend on the key taken first |
| Day18.MapSumUpdate | src/bin/day18/main.rs:63 | an insert changes the table's sum by the difference |
| Day18.MapSumAbsent | src/bin/day18/main.rs:34 | removing a missing key keeps the sum |
| Day18.Region | src/bin/day18/main.rs:42-106 | the cells the search can touch: the rectangle spanned by the start and the square of side bounds.0 |
| Day18.GrowsNone | src/bin/day18/main.rs:54-105 | a block that queues nothing changes nothing |
| Day18.GrowsTrans | src/bin/day18/main.rs:54-105 | the four blocks compose |
| Day18.GrowsPush | src/bin/day18/main.rs:59-64 | queueing a free option with score + 1 that beats its distance is a relax step |
| Day18.Relax | src/bin/day18/main.rs:54-66 | a free option ends in the table with at most score + 1; no other entry changes and entries only fall |
| Day18.RelaxedByCases | src/bin/day18/main.rs:54-105 | when each of the four blocks left its free option in the table within score + 1, the cell is relaxed |
| Day18.Expand | src/bin/day18/main.rs:54-105 | after the four blocks, with the written bounds, every free option of the popped cell is in the table within score + 1 |
| Day18.RelaxFrom | src/bin/day18/main.rs:54-105 | one more block continues the relax steps, keeps the table's keys and raises no entry |
| Day18.OptionsInRegion | src/bin/day18/main.rs:54-105 | options of a cell of the region stay in it |
| Day18.SearchStep | src/bin/day18/main.rs:42-106 | one turn of the loop, popping a least score, keeps the search invariant |
| Day18.RegionStep | src/bin/day18/main.rs:54-105 | the table grows and stays in the region |
| Day18.QueueStep | src/bin/day18/main.rs:54-105 | every queued element names a table cell no nearer than its score, and a length some way from the start has |
| Day18.TableStep | src/bin/day18/main.rs:54-105 | every table cell is queued with its distance or finished |
| Day18.DistanceKept | src/bin/day18/main.rs:57 | a settled cell and the popped cell keep their distances, since a lowered distance would be shorter than some way |
| Day18.DoneStep | src/bin/day18/main.rs:46-105 | every finished cell, the popped one included, is settled: its distance is no longer than any way to it and its free options are within one more |
| Day18.SettledKept | src/bin/day18/main.rs:54-105 | a settled cell stays settled through a turn |
| Day18.FirstOutside | src/bin/day18/main.rs:42-106 | the first cell of a way outside the finished cells exists when its last cell is outside them |
| Day18.Frontier | src/bin/day18/main.rs:42-106 | any way to an unfinished cell has a queued element no longer than the way |
| Day18.FirstOutsideNear | src/bin/day18/main.rs:42-106 | the first unfinished cell of a way is in the table at a distance no larger than its place on the way |
| Day18.SearchMeasure | src/bin/day18/main.rs:42-106 | the untouched cells or the sum of the table plus the queue length fall on every turn |
| Day18.Unreachable | src/bin/day18/main.rs:43-45 | an empty queue means the end cannot be reached |
| Day18.Shortest | src/bin/day18/main.rs:46-52 | a least-score element popped at the end is no longer than any way to the end |
| Day18.SearchInit | src/bin/day18/main.rs:32-40 | the search starts with the start queued at distance 0 |
| Day18.PoppedReachable | src/bin/day18/main.rs:46-52 | a popped element is as far from the start as its score says |
| Day18.FindShortestPath | src/bin/day18/main.rs:26-109 | Some(n) exactly for the length n of a shortest way to the end under the written neighbour rule; None exactly when no way reaches the end |
| Day18.NonSquareSearch | src/bin/day18/main.rs:93 | on bounds (3, 1) the search returns Some(1) for the cell (0, 1), past the grid's single column |
| Day18.Fallen | src/bin/day18/main.rs:141-158 | the set of the first n bytes |
| Day18.FallenNext | src/bin/day18/main.rs:180 | one more byte adds its cell |
| Day18.BlockedStaysBlocked | src/bin/day18/main.rs:166-186 | once the end is cut off, further bytes keep it cut off |
| Day18.FirstBlock | src/bin/day18/main.rs:166-186 | the first byte after the first 1024 after whose fall no way is left, or None when every way stays open |
| Day18.Solve | src/bin/day18/main.rs:133-188 | part one's score is the length of a shortest way, None exactly when the end is cut off (the source then panics in `unwrap`), and part two reports the first blocking byte |
| Day19.FindFrom | src/bin/day19/main.rs:15 | an occurrence at or after from with none between from and it, or None when there is none from from on |
| Day19.Find | src/bin/day19/main.rs:15 | the first occurrence of the towel in the pattern, or None exactly when it does not occur |
| Day19.FindNoneFrom | src/bin/day19/main.rs:15 | finding nothing in `pattern[idx..]` means no occurrence from idx on in the pattern |
| Day19.FindSomeFrom | src/bin/day19/main.rs:15-16 | a hit in `pattern[idx..]` at f is an occurrence at idx + f with none before it from idx, inside the pattern unless the towel is empty |
| Day19.MatchTowel | src/bin/day19/main.rs:11-21 | every pushed match is an occurrence of the towel with its span, and every occurrence (self-overlapping ones included) is pushed |
| Day19.MatchTowelsInPattern | src/bin/day19/main.rs:4-25 | the matches are exactly the occurrences of the towels in the pattern, each with its span |
| Day19.SplitsAreSplits | src/bin/day19/main.rs:41-49 | every listed arrangement cuts the pattern into towels |
| Day19.SplitsComplete | src/bin/day19/main.rs:41-49 | every arrangement of towels making the pattern is listed |
| Day19.SplitsDistinct | src/bin/day19/main.rs:41-49 | no arrangement is listed twice |
| Day19.PrefixDecomposes | src/bin/day19/main.rs:43-45 | the arrangements reaching position i are counted by where their last towel starts |
| Day19.SpanIsTowel | src/bin/day19/main.rs:30-34 | a span (c, i) is matched exactly when the piece of pattern between c and i is a towel |
| Day19.AdjIsTowels | src/bin/day19/main.rs:30-34 | above the diagonal the matrix holds 1 exactly where the piece between row and column is a towel |
| Day19.FillAdjacency | src/bin/day19/main.rs:31-34 | a zero matrix gets a 1 exactly at every match span |
| Day19.PathsToRow | src/bin/day19/main.rs:42-46 | the inner sum is the number of arrangements of the first i stripes |
| Day19.CountAllTowelArrangements | src/bin/day19/main.rs:26-52 | the count is the number of ways to cut the pattern into towels |
| Day19.ArrangementsAreCuts | src/bin/day19/main.rs:26-52 | the listed arrangements are exactly the cuts into towels, each once |
| Day19.IsPatternPossible | src/bin/day19/main.rs:54-57 | true exactly when some arrangement of towels makes the pattern |
| Day19.Answers | src/bin/day19/main.rs:71-81 | the number of possible patterns and the total number of arrangements |
| Day19.PossibleAtMostArrangements | src/bin/day19/main.rs:71-81 | the first answer never exceeds the second |

## Left out

- Input and output: `read_lines`, every `println!` and `dbg!`, the print helpers (`print_grid` of days 12 and 15, `print_map` of day 18, `print_world`), the `Display` of day 6's `World`, and the print-only test `diff_a` of day 17. These are presentation. The models take already-read lines or parsed values and return what `main` prints.
- Text parsing: the regex parsers of day 17 (`parse_register`, `parse_input` and the regex part of `parse_program`) and of day 13 (`parse_button`, `parse_prize`), and the splitting of input lines into numbers in days 1, 2, 7, 9, 10, 11, 18 and 19. Their behaviour is the regex and string library's. Only the bit-packing loop of `parse_program` is modelled.
- src/bin/day3/main.rs, src/bin/day5/main.rs, src/bin/day14/main.rs and src/bin/day16/main.rs are not part of this model. Day 3 is regex matching. Day 5 relies on `sort_by` with a comparator that is not a total order. Day 14 is an interactive brute-force loop. Day 16 has no stable contract: its goal is looked up as `Start`, and it relies on a panic when the goal is unreachable.
- Library internals (`bitvec`, `itertools`, the standard collections): a `BitVec` is a `seq<bool>`, a `HashMap`, `HashSet` or `BTreeSet` a `map` or `set`, a `BinaryHeap` a multiset with greatest-element extraction, and a `VecDeque` a `seq`.
- Iteration order of hash maps and sets: where the source iterates a `HashMap` or `HashSet` (day 8's antenna map, day 10's trail map, day 11's count map, day 12's perimeter set), the model leaves the order open. It proves the result for every order.
- Integer widths: all integers are unbounded. Day 17 keeps registers below 2^64 and requires `2usize.pow` not to overflow. Day 11 requires `stone * 2024` to fit a usize. Day 13 requires the i64 products not to overflow. The answer sums are not bounded: day 1's `u32` sum, and the usize or i64 sums of days 9, 10, 12, 13 and 19. Day 12's `as i32` casts are not bounded either.
- Day7.FindOperators, Day7.FindOperatorsWithOpSequences and Day7.TotalCalibration: the i64 arithmetic is unbounded in the model. This covers `res * next_term` and `res + next_term`, the `concat_i64` result `left * (I64_LOG_10_TABLE[i] + 1) + right`, the prune tests against `result`, and `main`'s i64 total. Where one of these leaves the i64 range, the source panics in a debug build or wraps in a release build, and a wrapped value can pass a prune test. The model's answers are those of exact integer arithmetic.
- Day7.FindOperators, Day7.FindOperatorsWithOpSequences and Day7.TotalCalibration: a reached `unreachable!()` of `concat_i64` is reported as ok false. The ensures give a necessary condition for it (ConcatPanics) and a sufficient condition for its absence (every term within the table), not the exact set of panicking inputs, which depends on the search order.
- Day19.MatchTowel and Day19.MatchTowelsInPattern: stripes are sequences of characters, and offsets count characters. The source's `find` and `pattern[idx..]` count bytes, and `idx += first + 1` can land inside a multi-byte character, where the slice panics. The model agrees with the source on ASCII input only.
- Day17.Computer.RunToHalt: the source's `while !computer.run()` loop has no bound. The model runs for at most fuel steps and reports Running when the fuel runs out. A program that never halts is therefore not told apart from one that halts later.
- Day17Search.FindQuine: the `total_iterations` counter is only printed, and is left out.
- Day17Search.FindQuine: after the last layer the options are the values whose output starts with the program, and `main` takes the least. The model proves exactly this, and proves that a survivor prints exactly the program when it is below 2^48. It does not prove that no smaller A outside the search prints the program, except through Day17Search.PrefixSolutionSurvives, which needs the output windows at positions 2 and 8 to be nonzero.
- Day6.TryObstacles: each trial starts from the guard's state just before the candidate cell, as the source does. It is not shown to answer the question of an obstacle placed before the walk starts.
- Day9.SecondStar: when the source would panic the model reports failure. That ensures states only a necessary condition for failure, not the exact set of panicking inputs.
- Day11.StoneCounts.Round: each round requires every stone to be blinkable without overflow. The model does not establish this across the 100 rounds of `main`, which are Round repeated. Sorting and printing of the final keys are left out.
- Day13.SolveSystem: a zero determinant, and a zero `a.1` once the determinant divides the first numerator, are divisions by zero in the source (a `rem_euclid` panic), so both are preconditions (Divisible); a zero `a.1` with a non-dividing determinant is modelled and returns None. Overflow of the i64 arithmetic the source reaches is a precondition (NoOverflow).
- Day15.ParseMap: the source asserts only a non-empty first line and a robot. The model also requires every row to be as long as the first. A longer row is written by `Grid::set` into the next row's cells, or past the end where the write panics; a shorter row leaves default cells. The model does not cover those maps. An unparsable byte, which makes the source's `unwrap` panic, is an `Err` result here.
- Day15Robot.SimulateRobot: the precondition `Warehouse` asks for four things. The map is walled, which the source's `expect` relies on. The tracked cell holds a robot, and it is the only robot on the map. Every `[` has its `]` to the right and every `]` its `[` to the left, so boxes are whole; the source's pair asserts check this only on vertical pushes. The moves are only `^ v < >`, else `unreachable!` fires. No source assert forbids a second `@` or a split box. The model does not cover such maps.
- Day15Robot.Stars: the map must have exactly one `@` (`SingleRobot`), be rectangular and walled, and hold only narrow bytes. `parse_map` would accept a second `@` and track the last one. The model does not cover that map.
- Day12Sides.SortPoints: `v.sort()` is modelled by an insertion sort. On these keys any correct sort gives the same sorted sequence.
- Day12Sides.Prices: the `if false` debug blocks of `find_gardens` are dead code and are left out. The `v[0]` of the side count is proved never to panic (Day12Sides.KeysNonempty). The costs are stated for some division of the map into its regions, which is unique up to the order of the gardens.
- Day18.FindShortestPath: bounds.0 must be positive, since `bounds.0 - 1` underflows otherwise. The second bound is not used at all, as in the source.
- Day18.Solve: the byte list and grid size are parameters; the parsing of byte coordinates is left out.

## Findings

| source | as written | input that shows it | evidently intended | confidence | as-written member | corrected member |
|---|---|---|---|---|---|---|
| src/bin/day18/main.rs:93 | the bound for stepping up in the second coordinate is `bounds.0`, the first coordinate's bound | bounds (3, 1), start (0, 0), end (0, 1): the search considers (0, 1), which is off the grid, and returns Some(1) (Day18.NonSquareSearch) | the second coordinate is bounded by `bounds.1`; on the square grid of `main` the two rules agree, so its answers are unaffected | not executed | Day18.OptionsAsWrittenLeavesGrid | Day18.Options |
| src/utils.rs:107-111 | at the end of a row, `GridIterator::next` moves to the next row but keeps the column | a 2 x 2 grid yields 3 values, not 4: row 0, then only (1, 1) | the column resets to 0, giving row-major order over every cell | not executed | Utils.GridIteratorYieldsRowZeroThenLastColumn | Utils.RowMajorIterator.Next |
