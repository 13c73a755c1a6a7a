# Advent of Code 2021 solvers, modelled in Dafny

The repository holds one solver per puzzle of Advent of Code 2021. Each
solver parses its puzzle text, runs a small discrete algorithm and returns
a number. This project models the solvers of days 1 to 18 and 20 to 25:
one Dafny module per Rust file under `src/solutions/`. A second day 21
module, `DiracDicePractice`, follows the practice game from positions 1
and 1 round by round to its end. Each amphipod burrow has a second module,
`BurrowShallowSearch` and `BurrowDeepSearch`, for the best-first search of
its `solution`: which grids a sequence of valid moves reaches from the
start, and the loop over the heap.

Two modules are shared:
- `Burrow` holds what the two amphipod burrows (`day23_a.rs`, `day23_b.rs`)
  have in common: the amphipod kinds and step costs, the route search
  `find_path`/`get_path_map` over an adjacency table, move application and
  the heap order.
- `Sorting` is the stable sort that `sort`, `sort_by` and `sort_by_key`
  stand for in days 7 to 10 and 14.

Each module follows its source file:
- Code that is expressions and recursion becomes datatypes, functions and
  lemmas.
- Code that updates state step by step becomes methods with loops. A
  method's loop is proved equal to a specification function, and the
  promises of the source are proved about that function.
- Objects whose methods update their own fields become classes:
  - `Foldable` (day 13) and `Polymer` (day 14);
  - `Grid` (day 15) and `BitStream` (day 16);
  - `SnailfishNumber` (day 18) and `ImageEnhancement` (day 20);
  - `PracticeGame` and `WinCache` (day 21), `Memo` (day 24).
- In-place grid and bucket updates keep their arrays: the lanternfish
  buckets, the ALU registers, the chiton tiles and the sea-cucumber grid.

Text parsing is modelled where the source's parse decides something, such
as which characters are accepted or how words map to commands. Where a
parse only splits lines and reads numbers, the model takes the parsed
values as inputs. Rust's fixed-width integers are unbounded `nat`/`int`.
Where an unsigned subtraction could underflow, the model mostly states the
condition under which it does not, as a precondition or a lemma; the one
exception, the day 14 score, states exactly when the `u64` difference
would go below zero.

## Model

| member | source | states |
|---|---|---|
| SonarSweep.RawCountShift | src/solutions/day01.rs:24-33 | the loop, which starts from a previous depth of 0, counts one extra increase exactly when the first depth is positive |
| SonarSweep.GetDepthIncreases | src/solutions/day01.rs:22-35 | after subtracting one, the result is the number of strict increases between consecutive depths whenever the first depth is positive (one fewer when it is 0) |
| SonarSweep.Windows | src/solutions/day01.rs:15-18 | one window sum per depth, the last windows padded with zeros |
| SonarSweep.WindowsCompare | src/solutions/day01.rs:15-18 | the sum of window n+1 exceeds that of window n exactly when depth n+3 exceeds depth n; the last window is the last depth alone |
| SonarSweep.SolutionB | src/solutions/day01.rs:12-20 | the count of increases among the window sums when the first window sum is positive, one fewer when it is 0 |
| Dive.ParseLine | src/solutions/day02.rs:23-48 | the command word determines the direction (each direction from exactly one word) and the number is the distance |
| Dive.DepthATotals | src/solutions/day02.rs:53-63 | the part-one depth is total down minus total up |
| Dive.AimIsDepthA | src/solutions/day02.rs:74-86 | the part-two aim is always the part-one depth |
| Dive.SolutionA | src/solutions/day02.rs:50-67 | the answer is total forward times (total down minus total up) |
| Dive.SolutionB | src/solutions/day02.rs:69-91 | the answer is total forward times the aim-weighted depth, and the final aim is down minus up |
| BinaryDiagnostic.ParseLine | src/solutions/day03.rs:10-17 | one bit per character, 1 exactly for the character '1' |
| BinaryDiagnostic.ToNumberBound | src/solutions/day03.rs:65-68 | a w-bit number is below 2^w |
| BinaryDiagnostic.ComplementSum | src/solutions/day03.rs:44-68 | two bitwise-complementary numbers of width w add up to 2^w - 1 |
| BinaryDiagnostic.GetBitcount | src/solutions/day03.rs:31-42 | each position holds the number of inputs with a 1 there |
| BinaryDiagnostic.GetGammaEpsilon | src/solutions/day03.rs:44-63 | gamma has a 1 exactly where the count reaches the cutoff, epsilon is its complement, and the two add up to 2^w - 1 |
| BinaryDiagnostic.SolutionA | src/solutions/day03.rs:19-29 | gamma has a 1 exactly where more than half the inputs have a 1, gamma + epsilon = 2^w - 1, and the answer is gamma times epsilon |
| BinaryDiagnostic.MostCommonBit | src/solutions/day03.rs:111-132 | 1 exactly when at least half of the numbers have a 1 at the position (ties go to 1) |
| BinaryDiagnostic.GetMostCommonBit | src/solutions/day03.rs:111-132 | the counting loop computes the most common bit |
| BinaryDiagnostic.Keep | src/solutions/day03.rs:96-102 | the filter keeps exactly the numbers whose bit agrees (oxygen) or disagrees (scrubber) with the given bit |
| BinaryDiagnostic.KeepCounts | src/solutions/day03.rs:96-102 | each number the filter keeps appears as many times as in the input, and a number it rejects not at all |
| BinaryDiagnostic.RatingIsInput | src/solutions/day03.rs:89-109 | a rating, when there is one, is one of the input numbers |
| BinaryDiagnostic.MostCommonKeepsSome | src/solutions/day03.rs:94-102 | filtering on the most common bit never empties the list |
| BinaryDiagnostic.MostCommonRatingDefined | src/solutions/day03.rs:89-109 | for distinct inputs the oxygen rating always exists |
| BinaryDiagnostic.KeepDistinct | src/solutions/day03.rs:96-102 | filtering keeps the numbers distinct |
| BinaryDiagnostic.GetRating | src/solutions/day03.rs:89-109 | the loop computes the rating of the filter sequence |
| BinaryDiagnostic.SolutionB | src/solutions/day03.rs:78-87 | the oxygen rating is the value of the survivor of filtering by the most common bit, the scrubber rating that of filtering by the least common bit; both are input numbers, and the answer is their product |
| Bingo.New | src/solutions/day04.rs:10-21 | a board holds its 25 numbers, nothing marked, nothing called |
| Bingo.CountMarked | src/solutions/day04.rs:71-74 | the count of marked cells reaches the line length exactly when the whole line is marked |
| Bingo.HasBingo | src/solutions/day04.rs:66-95 | true exactly when some row or some column is fully marked |
| Bingo.FirstIndex | src/solutions/day04.rs:31-36 | the first position holding the number, or none exactly when the number is absent |
| Bingo.CallNumber | src/solutions/day04.rs:23-47 | a board with bingo is unchanged; otherwise the first cell with the number gets marked, nothing else changes, the call is counted and remembered |
| Bingo.MarksStay | src/solutions/day04.rs:23-47 | marks are never removed, and a bingo stays a bingo |
| Bingo.BingoFreezes | src/solutions/day04.rs:25-28 | once a board has bingo, calling further numbers leaves it unchanged |
| Bingo.CallsCounted | src/solutions/day04.rs:44 | while a board has no bingo, every call is counted |
| Bingo.SumUnmarkedBound | src/solutions/day04.rs:58-61 | the unmarked sum is at most the total, and equal to it when nothing is marked |
| Bingo.GetScore | src/solutions/day04.rs:49-64 | none exactly without bingo; otherwise the unmarked sum times the last number |
| Bingo.Round | src/solutions/day04.rs:117-119 | every board gets the number called |
| Bingo.PlayAll | src/solutions/day04.rs:141-146 | the loop leaves every board as itself after calling all the numbers |
| Bingo.RoundsAreCalls | src/solutions/day04.rs:115-119 | after a sequence of rounds each board is itself after calling that sequence |
| Bingo.FirstScore | src/solutions/day04.rs:121-131 | none exactly when no board has bingo; otherwise the score of the first board that has |
| Bingo.SolutionA | src/solutions/day04.rs:111-135 | the answer comes from the first round in which some board has bingo, and is the first winning board's score |
| Bingo.LastToWin | src/solutions/day04.rs:148-149 | the last board after a stable sort by calls counted: it has the most calls, and every later board has fewer |
| Bingo.FindLastToWin | src/solutions/day04.rs:148-149 | the scan finds the board the sort puts last |
| Bingo.SolutionB | src/solutions/day04.rs:137-153 | the score of the board that was still counting calls the longest, with its own last number |
| HydrothermalVenture.New | src/solutions/day05.rs:14-21 | a line takes its four coordinates in order from the parsed numbers |
| HydrothermalVenture.NCloser | src/solutions/day05.rs:54-61 | the value moves n steps from v1 towards v2 and stops at v2: it stays between the two, at distance min(n, \|v1-v2\|) from v1 |
| HydrothermalVenture.Points | src/solutions/day05.rs:37-45 | one point per step plus one, running from the line's start to its end |
| HydrothermalVenture.PointsDistinct | src/solutions/day05.rs:37-45 | a line never visits the same point twice, so each of its points is counted once |
| HydrothermalVenture.Intersect | src/solutions/day05.rs:33-52 | the map counts one more line at exactly the line's points, and nothing else changes |
| HydrothermalVenture.CoverageCovered | src/solutions/day05.rs:83-89 | a point is covered by some line exactly when it is one of the points of a line |
| HydrothermalVenture.CountOverlaps | src/solutions/day05.rs:83-96 | the answer is the number of points covered by at least two lines |
| HydrothermalVenture.AxisLines | src/solutions/day05.rs:66-69 | keeps exactly the lines that are horizontal or vertical, each as many times as in the input |
| HydrothermalVenture.AxisLineSafe | src/solutions/day05.rs:37-45 | on an axis-parallel line the unsigned subtraction of n_closer never underflows |
| HydrothermalVenture.SolutionA | src/solutions/day05.rs:64-72 | the number of points where at least two axis-parallel lines cross |
| Lanternfish.Census | src/solutions/day06.rs:1-10 | nine buckets, one per timer value |
| Lanternfish.DayTotal | src/solutions/day06.rs:33-45 | one day adds exactly as many fish as there were fish with timer 0 |
| Lanternfish.DaysGrow | src/solutions/day06.rs:31-47 | the population never shrinks |
| Lanternfish.CountTotal | src/solutions/day06.rs:1-10 | the buckets count every fish once |
| Lanternfish.Parse | src/solutions/day06.rs:1-10 | the array holds the census, and its sum is the number of fish |
| Lanternfish.Rotate | src/solutions/day06.rs:34-45 | the inner loop writes the next day's census into the zeroed scratch array |
| Lanternfish.Clear | src/solutions/day06.rs:47 | every bucket of the scratch array is 0 afterwards |
| Lanternfish.Solve | src/solutions/day06.rs:22-51 | the answer is the total after the given number of days, and at least the initial count |
| Whales.Parsed | src/solutions/day07.rs:3-8 | keeps exactly the tokens that parse as numbers |
| Whales.Parse | src/solutions/day07.rs:3-13 | the result is sorted and a permutation of the parsed numbers |
| Whales.FuelLast | src/solutions/day07.rs:24-26 | the fuel total adds the distance of the last crab |
| Whales.MedianMinimises | src/solutions/day07.rs:15-29 | the fuel to the median position (index len/2 of the sorted list) is at most the fuel to any position |
| Whales.SolutionAAsWritten | src/solutions/day07.rs:15-29 | the source's answer: the fuel to the crab at index len/2 for even lengths and at index len/2 + 1 for odd lengths |
| Whales.MedianOffByOne | src/solutions/day07.rs:18-23 | for the crabs 0, 0, 10 the code as written answers 20 although 10 is attainable |
| Whales.SolutionA | src/solutions/day07.rs:15-29 | corrected: the answer is at most the fuel to any position, and is the fuel to one of the crabs' positions |
| Whales.CostIsTriangle | src/solutions/day07.rs:53-56 | n(n+1)/2 is the sum 1 + 2 + ... + n |
| Whales.TotalAtLeastFuel | src/solutions/day07.rs:46-51 | the part-two cost is never below the part-one cost |
| Whales.SolutionB | src/solutions/day07.rs:31-44 | the answer is the smaller of the totals at the mean and one below it |
| Sorting.InsertBy | src/solutions/day08.rs:58 | inserting into a list sorted by key keeps it sorted and adds exactly the new element |
| Sorting.SortBy | src/solutions/day08.rs:58 | the stable sort by key yields a list sorted by the key and a permutation of its input |
| Sorting.InsertByStable | src/solutions/day04.rs:148 | an inserted element goes in front of every element with the same key, and the others keep their order |
| Sorting.SortByStable | src/solutions/day04.rs:148 | the sort is stable: for every key, the elements with that key appear in the order they had in the input |
| Sorting.Sort | src/solutions/day07.rs:10 | the sorted list is ordered and a permutation of its input |
| SevenSegment.SolutionA | src/solutions/day08.rs:3-18 | the count is the number of output words of length 2, 3, 4 or 7 |
| SevenSegment.Parse | src/solutions/day08.rs:74-82 | each word's letters are sorted and are a permutation of the word's |
| SevenSegment.New | src/solutions/day08.rs:51-72 | the patterns are ordered longest first and are a permutation of the parsed ones; the outputs are kept; every wire may still be any segment |
| SevenSegment.SolvedIsValid | src/solutions/day08.rs:181-189 | a solved state (one candidate per wire) is valid (no wire without candidates) |
| SevenSegment.Candidates | src/solutions/day08.rs:106-119 | the digits a pattern of a given length can show: one for lengths 2, 3 and 4, three for 5 and 6, none for 7, each of that length |
| SevenSegment.Complement | src/solutions/day08.rs:137 | the wires not lit in the cluster |
| SevenSegment.Narrow | src/solutions/day08.rs:127-145 | narrowing keeps the wires and only removes candidates |
| SevenSegment.Retain | src/solutions/day08.rs:131-142 | the loop over wires keeps, for each listed wire, the candidates inside (or outside) the pattern, and leaves other wires alone |
| SevenSegment.TwoRetains | src/solutions/day08.rs:127-145 | the two retain loops together narrow every lit wire to the pattern's segments and every unlit wire to the others |
| SevenSegment.UpdateSegmentMaps | src/solutions/day08.rs:127-145 | the child state is the parent with its candidates narrowed by the cluster and the digit pattern |
| SevenSegment.Children | src/solutions/day08.rs:106-125 | at most three children, none once the patterns are used up, each with the last pattern removed and the outputs kept |
| SevenSegment.Expand | src/solutions/day08.rs:106-125 | the method builds exactly the children |
| SevenSegment.Digit | src/solutions/day08.rs:165-178 | the digit shown by a sorted segment string: k exactly for the pattern of k, and 0 for anything unknown |
| SevenSegment.SolvedReadable | src/solutions/day08.rs:157-161 | in a solved state every output wire maps to a segment, so `map` never unwraps nothing |
| SevenSegment.Map | src/solutions/day08.rs:157-178 | the segments a cluster's wires drive read as a digit from 0 to 9 |
| SevenSegment.MapDisplayClusters | src/solutions/day08.rs:147-155 | the four output digits, most significant first, form the four-digit value |
| SevenSegment.ChildFits | src/solutions/day08.rs:127-145 | the k-th child's candidates agree with the cluster showing the k-th candidate digit |
| SevenSegment.ChildRefines | src/solutions/day08.rs:106-145 | a child of a state reachable from the start is reachable too, with one more pattern accounted for |
| SevenSegment.WeightPermutation | src/solutions/day08.rs:101 | re-sorting the stack does not change its weight, the measure that makes the search end |
| SevenSegment.PrefixOrder | src/solutions/day08.rs:101 | on prefixes of one pattern list, the lexicographic order the stack sort uses is the order of lengths |
| SevenSegment.SolvedAnswer | src/solutions/day08.rs:92-95 | a solved state reached from the start can be read, and its reading is an answer |
| SevenSegment.Consider | src/solutions/day08.rs:90-100 | a solved child is returned as an answer; otherwise a valid child is pushed and the stack stays within the weight bound |
| SevenSegment.PushChildren | src/solutions/day08.rs:91-100 | the loop over the children returns an answer reachable from the start, or a stack of reachable states whose weight grows by at most one share per child |
| SevenSegment.Visit | src/solutions/day08.rs:87-101 | one pop: an answer, or a stack of reachable states of smaller weight |
| SevenSegment.Solve | src/solutions/day08.rs:84-104 | any value returned is the reading of a solved state reachable from the start |
| SmokeBasin.ParseLine | src/solutions/day09.rs:11-16 | keeps only decimal digits, each below 10 |
| SmokeBasin.ParseRender | src/solutions/day09.rs:11-16 | parsing a row written as digits gives the row back |
| SmokeBasin.RiskLevel | src/solutions/day09.rs:27-42 | the risk is 0 or the height plus one |
| SmokeBasin.RiskLevelIsLow | src/solutions/day09.rs:27-42 | the risk is positive exactly when the point is lower than each of its existing up, left, right and down neighbours |
| SmokeBasin.RowLowsMembers | src/solutions/day09.rs:21-23 | the low points listed for a row are exactly its cells with a positive risk |
| SmokeBasin.LowPointsMembers | src/solutions/day09.rs:47-48 | the points kept by the filter are exactly the grid cells with a positive risk |
| SmokeBasin.LowPointsAreLow | src/solutions/day09.rs:47-48 | the points kept by the filter are exactly the low points |
| SmokeBasin.RowRiskIsLows | src/solutions/day09.rs:21-23 | the risk sum of a row is the risk sum of its low points |
| SmokeBasin.SolutionA | src/solutions/day09.rs:18-25 | the answer is the sum of the risk levels of the low points |
| SmokeBasin.LowPointsRisk | src/solutions/day09.rs:21-23 | summing the risk over every cell equals summing it over the low points |
| SmokeBasin.Neighbours | src/solutions/day09.rs:74-83 | the neighbours of a point are exactly the adjacent cells inside the grid whose height is not 9 |
| SmokeBasin.AroundAdjacent | src/solutions/day09.rs:76-80 | the four checks yield exactly the adjacent cells inside the grid |
| SmokeBasin.ExpandNode | src/solutions/day09.rs:74-83 | the method returns exactly the neighbours, at most four |
| SmokeBasin.DropNines | src/solutions/day09.rs:82 | the filter keeps exactly the cells whose height is not 9 |
| SmokeBasin.NeighboursAround | src/solutions/day09.rs:74-83 | the neighbours are the adjacent cells minus those of height 9 |
| SmokeBasin.WalkStays | src/solutions/day09.rs:57-72 | a walk from inside a set closed under neighbours stays inside it |
| SmokeBasin.PopKeeps | src/solutions/day09.rs:61-69 | one pop keeps every stacked or visited cell's neighbours visited or stacked, and popping an already visited cell pushes nothing |
| SmokeBasin.PushUnvisited | src/solutions/day09.rs:65-68 | the stack gains, in order, exactly the spreads not yet in the basin |
| SmokeBasin.AddWalks | src/solutions/day09.rs:65-68 | every pushed spread gets a walk from the start, and the walks already known are kept |
| SmokeBasin.GetBasinSize | src/solutions/day09.rs:57-72 | the visited set is exactly the cells reachable from the start through cells of height other than 9, and the size is its cardinality |
| SmokeBasin.FillStep | src/solutions/day09.rs:61-69 | one iteration keeps the flood-fill invariant and adds the popped cell to the basin |
| SmokeBasin.FilledIsComponent | src/solutions/day09.rs:71 | when the stack is empty, the basin is exactly the start's component |
| SmokeBasin.BasinSizes | src/solutions/day09.rs:49 | one basin size per low point |
| SmokeBasin.SolutionB | src/solutions/day09.rs:44-55 | the answer is the product of the three largest basin sizes, one size per low point |
| SyntaxScoring.RemovePairSame | src/solutions/day10.rs:39-42 | a replace that removes nothing leaves the text unchanged, and then the text holds no such pair |
| SyntaxScoring.PassFixed | src/solutions/day10.rs:36-43 | when a pass of the four replaces does not shorten the text, no adjacent matching pair is left |
| SyntaxScoring.SimplifiedShape | src/solutions/day10.rs:33-45 | the simplified text holds no adjacent matching pair and is no longer than the input |
| SyntaxScoring.Simplify | src/solutions/day10.rs:33-45 | the loop computes the simplified text |
| SyntaxScoring.FirstCloser | src/solutions/day10.rs:26 | the position of the first closing bracket, or none exactly when there is no closing bracket |
| SyntaxScoring.Utf8Width | src/solutions/day10.rs:26 | a character takes 1 to 4 bytes in UTF-8, exactly 1 when it is ASCII |
| SyntaxScoring.ByteOffset | src/solutions/day10.rs:26 | the byte offset that `find` reports for a character is never below its character index |
| SyntaxScoring.ByteOffsetAscii | src/solutions/day10.rs:26-28 | the byte offset equals the character index exactly when every earlier character is ASCII |
| SyntaxScoring.ScanAt | src/solutions/day10.rs:26-28 | no closer gives none; otherwise the character read at the first closer's byte offset, taken as a character index, which lies at or after that closer |
| SyntaxScoring.FirstError | src/solutions/day10.rs:23-31 | the first illegal closer: none exactly when the simplified line has no closer; on a bracket line, the closer at which the stack reading is corrupted |
| SyntaxScoring.ScanAscii | src/solutions/day10.rs:26-28 | on ASCII text the scan reads exactly the first closer |
| SyntaxScoring.WideCharHidesError | src/solutions/day10.rs:26-28 | on the line "\u{e9})" the scan reports no error although ')' is the first illegal closer |
| SyntaxScoring.WideCharMisreads | src/solutions/day10.rs:26-28 | on the line "\u{e9})a)" the scan yields 'a', a character `solution_a` declares unreachable, although ')' is the first illegal closer |
| SyntaxScoring.SimplifiedAscii | src/solutions/day10.rs:33-45 | simplifying only deletes characters, so ASCII text stays ASCII |
| SyntaxScoring.ScanForError | src/solutions/day10.rs:23-31 | the result is the character at the first closer's byte offset read as a character index (none past the end or without a closer); on an ASCII line it is the first illegal closer |
| SyntaxScoring.Validate | src/solutions/day10.rs:47-55 | none exactly when the simplified line holds a closing bracket; otherwise the simplified line, which holds only openers |
| SyntaxScoring.Complete | src/solutions/day10.rs:57-67 | the completion is the reversed list of openers, each swapped for its closer |
| SyntaxScoring.RunSimplified | src/solutions/day10.rs:33-45 | removing matched pairs does not change what a bracket-matching stack reads |
| SyntaxScoring.ReducedRun | src/solutions/day10.rs:23-31 | on a text without matched pairs, the stack reading is corrupted at the first closer, or incomplete with all the openers |
| SyntaxScoring.ScanIsStackReading | src/solutions/day10.rs:23-31 | the source's replace-based scan agrees with the usual bracket-matching stack: the first illegal closer, or the unclosed openers |
| SyntaxScoring.CompleteCloses | src/solutions/day10.rs:57-67 | reading the completion after the unclosed openers closes them all |
| SyntaxScoring.CompletionCloses | src/solutions/day10.rs:87-92 | an incomplete line followed by its completion is balanced |
| SyntaxScoring.ErrorScore | src/solutions/day10.rs:75-82 | each illegal closer scores 3, 57, 1197 or 25137 |
| SyntaxScoring.Digit | src/solutions/day10.rs:103-110 | each closer is worth 1 to 4 |
| SyntaxScoring.ScoreInjective | src/solutions/day10.rs:101-111 | different completions score differently (the score is a base-5 number) |
| SyntaxScoring.GetScore | src/solutions/day10.rs:101-111 | a completion scores 0 exactly when it is empty |
| SyntaxScoring.AsciiErrorTotal | src/solutions/day10.rs:70-85 | on ASCII lines every scanned character is a closer, and the summed points are those of the first illegal closers |
| SyntaxScoring.SolutionA | src/solutions/day10.rs:70-85 | requires that every scanned character is a closer (anything else reaches `unreachable!`); the answer sums the points of the scanned characters, which on ASCII lines are the first illegal closers |
| SyntaxScoring.SolutionB | src/solutions/day10.rs:87-99 | the answer is the middle element of the sorted completion scores, and one of them; only accepted lines must consist of brackets, a corrupted line may hold anything |
| DumboOctopus.AroundIsNeighbourhood | src/solutions/day11.rs:26-30 | the adjacent list of a cell is exactly the other cells inside the grid at most one row and one column away |
| DumboOctopus.DigitValue | src/solutions/day11.rs:25 | an energy level is a digit, at most 9 |
| DumboOctopus.New | src/solutions/day11.rs:13-38 | one octopus per character, also past the first line's width, with that digit as its energy, not flashing, adjacent to its neighbourhood clipped to the rows and the first line's width |
| DumboOctopus.NewWellFormed | src/solutions/day11.rs:13-48 | a new grid can be stepped (every queued cell holds an octopus) exactly when no line is shorter than the first; longer lines are allowed; it starts settled |
| DumboOctopus.NewIsSettled | src/solutions/day11.rs:13-38 | a fresh rectangular grid is well formed and settled (no flashes, energies at most 9), with symmetric neighbourhoods |
| DumboOctopus.Visit | src/solutions/day11.rs:46-60 | a flashing octopus is skipped; otherwise its energy goes up by one, it flashes exactly when it passes 9, and then its neighbours are queued; no other octopus changes |
| DumboOctopus.Charge | src/solutions/day11.rs:48-58 | the loop body for one cell performs Visit: the new octopi and the queued neighbours are Visit's |
| DumboOctopus.Round | src/solutions/day11.rs:45-61 | one pass over the queue keeps the neighbourhoods and the flashing octopi, and strictly reduces the non-flashing ones whenever it queues more work |
| DumboOctopus.Cascade | src/solutions/day11.rs:42-62 | the propagation keeps the grid's cells and neighbourhoods, and never changes an octopus that already flashed |
| DumboOctopus.Reset | src/solutions/day11.rs:64-70 | every flashing octopus returns to energy 0 and stops flashing |
| DumboOctopus.StepSpec | src/solutions/day11.rs:40-72 | a step keeps the grid's shape and neighbour lists, counts at most one flash per octopus, and leaves every non-flashing octopus outside the queued rectangle (from a line longer than the first) unchanged |
| DumboOctopus.ExtrasStay | src/solutions/day11.rs:42-47 | an octopus outside the queued rectangle that is not flashing keeps its state through any number of steps, since no worklist ever holds it |
| DumboOctopus.StepSettles | src/solutions/day11.rs:40-72 | a step from a settled grid ends settled: nothing flashing and every energy at most 9 |
| DumboOctopus.DarkIffAllFlashed | src/solutions/day11.rs:40-72 | after a step every energy is 0 exactly when every octopus of the queued rectangle flashed during it and every octopus outside it was already at 0 |
| DumboOctopus.TotalFlashesBound | src/solutions/day11.rs:85-91 | n steps give at most n flashes per octopus |
| DumboOctopus.Pass | src/solutions/day11.rs:45-61 | the loop over the queue computes one round |
| DumboOctopus.ResetFlashing | src/solutions/day11.rs:64-70 | the loop counts the flashing octopi and resets them |
| DumboOctopus.Step | src/solutions/day11.rs:40-72 | the worklist loops compute the step, on any grid whose queued cells all hold octopi, including one with lines longer than the first |
| DumboOctopus.SolutionA | src/solutions/day11.rs:82-93 | the answer is the total of flashes over 100 steps, at most 100 per octopus, also on a grid with lines longer than the first |
| DumboOctopus.AnyAwake | src/solutions/day11.rs:99 | some octopus has a non-zero energy exactly when the grid is not all dark |
| DumboOctopus.FirstDarkStep | src/solutions/day11.rs:99-103 | the step that makes the grid dark is one in which every octopus of the queued rectangle flashes |
| DumboOctopus.SolutionB | src/solutions/day11.rs:95-105 | the answer is the first number of steps after which every energy is 0, and in that step all octopi of the queued rectangle flashed; an answer exists only if every octopus outside the rectangle started at 0 |
| PassagePathing.AddNeighbour | src/solutions/day12.rs:57-73 | the neighbour is appended to the cave's list, which is created when missing; other caves are unchanged |
| PassagePathing.AdjacencyMembers | src/solutions/day12.rs:52-77 | the caves in the map are exactly those named by some edge, and b is a neighbour of a exactly when an edge joins them in either direction |
| PassagePathing.Parse | src/solutions/day12.rs:52-77 | the fold builds the adjacency of the edges |
| PassagePathing.NewPath | src/solutions/day12.rs:88-94 | a path starts at "start" with the given revisit allowance |
| PassagePathing.Contains | src/solutions/day12.rs:96-99 | true exactly when the path holds the cave |
| PassagePathing.Append | src/solutions/day12.rs:106-113 | the cave is appended, and the allowance is lost on a revisit |
| PassagePathing.Children | src/solutions/day12.rs:21-46 | each pushed path extends the current one by an admitted neighbour (not start, not end, and not a forbidden revisit) |
| PassagePathing.ChildrenAdmitted | src/solutions/day12.rs:36-45 | every admitted neighbour is pushed |
| PassagePathing.EndsCount | src/solutions/day12.rs:30-34 | the count added for a neighbour list is the number of times "end" occurs in it |
| PassagePathing.ChildPartial | src/solutions/day12.rs:36-45 | extending a valid partial path by an admitted neighbour keeps it a valid partial path |
| PassagePathing.EndComplete | src/solutions/day12.rs:30-34 | a valid partial path followed by "end" is a complete path: a walk from start to end visiting small caves at most once (or one of them twice when allowed) |
| PassagePathing.Explore | src/solutions/day12.rs:20-46 | one pop pushes exactly the children and counts the ends among the neighbours |
| PassagePathing.PopExtends | src/solutions/day12.rs:20-45 | a complete path extending a stacked path goes on into a cave listed for its last cave: into "end", where it stops, or into a cave the loop admits, so that the pushed path is again a prefix of it |
| PassagePathing.PopCoveredTop | src/solutions/day12.rs:20-45 | a complete path extending the popped path is that path ended at "end" or extends one of the paths pushed for it |
| PassagePathing.PopCoveredListed | src/solutions/day12.rs:18-46 | after a pop whose last cave has a list, every complete path is still counted or extends some stacked path |
| PassagePathing.PopCoveredDropped | src/solutions/day12.rs:18-20 | a path whose last cave has no list is dropped without losing any complete path: none extends it |
| PassagePathing.ChildrenShape | src/solutions/day12.rs:21-46 | each pushed path is the popped path one listed cave longer, and that cave is not "end" |
| PassagePathing.ChildrenDistinct | src/solutions/day12.rs:21-46 | with no cave listed twice, the paths pushed for one pop are all different |
| PassagePathing.PopPrefixFree | src/solutions/day12.rs:18-46 | replacing the popped path by its children keeps the stack free of a path that is a prefix of another |
| PassagePathing.PopApart | src/solutions/day12.rs:18-46 | after a pop no stacked path is a prefix of a counted path, including the ones just counted at "end" |
| PassagePathing.PopDistinct | src/solutions/day12.rs:29-34 | the path counted at "end" (at most once when "end" is listed once) was not counted before |
| PassagePathing.PopRest | src/solutions/day12.rs:18-20 | dropping the top of the stack keeps it prefix free and apart from the counted paths |
| PassagePathing.PopUnique | src/solutions/day12.rs:18-46 | with no cave listed twice as a neighbour, one pop keeps the stack prefix free, apart from the counted paths, and the counted paths different |
| PassagePathing.Solve | src/solutions/day12.rs:13-50 | every path counted is a complete path, every complete path is counted when the stack empties, the count is the number of paths found, and no path is counted twice when no cave is listed twice as a neighbour |
| PassagePathing.SolutionA | src/solutions/day12.rs:3-6 | the answer counts exactly the paths from "start" to "end" that enter no small cave twice, each once when no edge is repeated |
| PassagePathing.SolutionB | src/solutions/day12.rs:8-11 | the answer counts exactly the paths from "start" to "end" that enter at most one small cave twice, each once when no edge is repeated |
| TransparentOrigami.Reflect | src/solutions/day13.rs:43-50 | a coordinate below the fold line stays, one at or past it is mirrored to 2*value - c, and either way it ends at or before the line |
| TransparentOrigami.FoldedX | src/solutions/day13.rs:38-56 | after a fold along x every dot lies at or left of the fold line |
| TransparentOrigami.FoldedY | src/solutions/day13.rs:58-76 | after a fold along y every dot lies at or above the fold line |
| TransparentOrigami.FoldedXAdd | src/solutions/day13.rs:41-52 | folding one more dot adds exactly its mirror image (the loop's insertion step) |
| TransparentOrigami.FoldedYAdd | src/solutions/day13.rs:61-72 | folding one more dot adds exactly its mirror image (the loop's insertion step) |
| TransparentOrigami.FoldedXSmaller | src/solutions/day13.rs:38-56 | a fold never increases the number of dots |
| TransparentOrigami.FoldedYSmaller | src/solutions/day13.rs:58-76 | a fold never increases the number of dots |
| TransparentOrigami.FoldedXMirror | src/solutions/day13.rs:38-56 | a point is in the folded sheet exactly when it lies at or left of the line and it or its mirror image was a dot |
| TransparentOrigami.FoldedYMirror | src/solutions/day13.rs:58-76 | a point is in the folded sheet exactly when it lies at or above the line and it or its mirror image was a dot |
| TransparentOrigami.FoldSheet | src/solutions/day13.rs:29-36 | a fold keeps or lowers the dot count and sets the folded dimension to value - 1 while the other stays |
| TransparentOrigami.FoldAll | src/solutions/day13.rs:143-146 | folding a sequence of instructions never increases the dot count |
| TransparentOrigami.MaxXIsMax | src/solutions/day13.rs:108 | the parsed width bound is at least every dot's x and is attained unless it is 0 |
| TransparentOrigami.MaxYIsMax | src/solutions/day13.rs:109 | the parsed height bound is at least every dot's y and is attained unless it is 0 |
| TransparentOrigami.DotsAtMost | src/solutions/day13.rs:102-113 | the parsed sheet holds at most as many dots as input lines |
| TransparentOrigami.Line | src/solutions/day13.rs:83-91 | a rendered row has cols + 1 cells followed by CR LF |
| TransparentOrigami.LinesLength | src/solutions/day13.rs:81-92 | n rendered rows take n * (cols + 3) characters |
| TransparentOrigami.LinesPrefix | src/solutions/day13.rs:81-92 | the rows rendered so far are a prefix of the full rendering |
| TransparentOrigami.RenderShape | src/solutions/day13.rs:78-95 | the rendering has (rows + 1) * (cols + 3) characters; the cell of column col in row row is '#' exactly when (col, row) is a dot, else '.', and each row ends with CR LF |
| TransparentOrigami.Foldable.constructor | src/solutions/day13.rs:24-27 | a new sheet has no dots and zero extent |
| TransparentOrigami.Foldable.FoldAlongX | src/solutions/day13.rs:38-56 | the loop replaces the dots by their fold along x, sets cols to value - 1 and keeps rows |
| TransparentOrigami.Foldable.FoldAlongY | src/solutions/day13.rs:58-76 | the loop replaces the dots by their fold along y, sets rows to value - 1 and keeps cols |
| TransparentOrigami.Foldable.FoldAlong | src/solutions/day13.rs:29-36 | the new state is the fold of the old one |
| TransparentOrigami.Foldable.Stringify | src/solutions/day13.rs:78-95 | the nested loops produce exactly the rendering of the sheet |
| TransparentOrigami.Parse | src/solutions/day13.rs:98-113 | a fresh sheet holding the parsed dots and their maximum coordinates |
| TransparentOrigami.SolutionA | src/solutions/day13.rs:133-138 | the answer is the dot count after the first fold, and at most the number of input dots |
| TransparentOrigami.SolutionB | src/solutions/day13.rs:140-148 | the answer is the rendering of the sheet after all folds |
| Polymerization.TotalRemove | src/solutions/day14.rs:7 | the total of a count map is one entry plus the total of the rest |
| Polymerization.TotalUpdate | src/solutions/day14.rs:22-23 | overwriting one entry changes the total by the difference |
| Polymerization.SumOrderTotal | src/solutions/day14.rs:42 | summing the counts along any iteration order of the map gives its total |
| Polymerization.PairCountsTotal | src/solutions/day14.rs:19-24 | a template of n characters yields n - 1 pairs in all |
| Polymerization.PairCountsKeys | src/solutions/day14.rs:19-24 | a pair is counted exactly when it occurs at some position of the template |
| Polymerization.RulesFromKeys | src/solutions/day14.rs:26-35 | the rule map has exactly the pairs named on the rule lines as keys |
| Polymerization.RuleProducts | src/solutions/day14.rs:28-33 | the last rule line for a pair gives its two products: first character + inserted, inserted + second character |
| Polymerization.ProductsOfPair | src/solutions/day14.rs:29-32 | inserting z between x and y yields the pairs xz and zy |
| Polymerization.AddKeys | src/solutions/day14.rs:50-56 | adding a pair's products touches exactly the two product keys |
| Polymerization.AddTotal | src/solutions/day14.rs:45-56 | adding a pair's products raises the total by twice its count |
| Polymerization.AddDistinct | src/solutions/day14.rs:50-56 | for distinct products each gains the pair's count |
| Polymerization.Accumulate | src/solutions/day14.rs:44-57 | one fold step adds the pair's count to both products (the corrected equal-products branch) |
| Polymerization.StepCountsSnoc | src/solutions/day14.rs:42-58 | folding one more pair adds its products to the map built so far |
| Polymerization.StepSum | src/solutions/day14.rs:42-58 | the new total is twice the sum of the counts folded |
| Polymerization.StepDoubles | src/solutions/day14.rs:40-60 | one step doubles the number of pairs |
| Polymerization.AddAgrees | src/solutions/day14.rs:45-56 | the source's fold step and the corrected one agree when the products differ |
| Polymerization.AsWrittenAgrees | src/solutions/day14.rs:40-60 | the step as written equals the corrected step when no rule has equal products |
| Polymerization.AsWrittenOvercounts | src/solutions/day14.rs:45-49 | for template "BAA" with rules BA -> A and AA -> A the corrected step matches the pair counts of the grown polymer "BAAAA", while the step as written yields AA four times instead of three |
| Polymerization.Polymer.constructor | src/solutions/day14.rs:13-38 | the state is the template's pair counts and the rules are built from the rule lines |
| Polymerization.Polymer.Step | src/solutions/day14.rs:40-60 | the new state is the corrected step of the old one along the map's iteration order; the rules are unchanged |
| Polymerization.CharCounts | src/solutions/day14.rs:78-84 | the element counts total the pair counts they are built from |
| Polymerization.CountChars | src/solutions/day14.rs:78-84 | the fold counts each pair under its first character, along an iteration order covering every pair |
| Polymerization.CountPair | src/solutions/day14.rs:79-83 | one fold step adds the pair's count to its first character |
| Polymerization.CharCountsSnoc | src/solutions/day14.rs:79-83 | folding one more pair raises only its first character's count |
| Polymerization.Entries | src/solutions/day14.rs:84-86 | the collected entries are exactly the map's (element, count) pairs |
| Polymerization.Extremes | src/solutions/day14.rs:85-89 | the first and last entries after sorting by count are a least and a most frequent element |
| Polymerization.Pow2 | src/solutions/day14.rs:76 | powers of two are positive |
| Polymerization.DoubledIsPower | src/solutions/day14.rs:76 | doubling n i times gives n * 2^i |
| Polymerization.StepKeys | src/solutions/day14.rs:44 | when every product of a rule has a rule, every pair after a step has a rule (the unwrap cannot fail) |
| Polymerization.PairCounts | src/solutions/day14.rs:19-24 | every counted pair occurs at least once |
| Polymerization.StepCountsGet | src/solutions/day14.rs:42-58 | after a step the count of a pair is the sum, over the pairs folded, of each one's count times how many of its two products are that pair |
| Polymerization.StepOrderFree | src/solutions/day14.rs:42-58 | two iteration orders of the hash map give the same new pair counts |
| Polymerization.RulesFromInserts | src/solutions/day14.rs:26-35 | lines "XY -> Z" give rules that turn XY into XZ and ZY |
| Polymerization.Grow | src/solutions/day14.rs:40-60 | the polymer one insertion step later has 2n - 1 elements and keeps its last element |
| Polymerization.GrowPairs | src/solutions/day14.rs:44 | when every product has a rule, every pair of the grown polymer has a rule again |
| Polymerization.GrowN | src/solutions/day14.rs:76 | the polymer after n insertion steps keeps its last element and all its pairs have rules |
| Polymerization.GrowCounts | src/solutions/day14.rs:42-58 | the count of a pair in the grown polymer is the sum of the contributions of the template's pairs |
| Polymerization.GrowStep | src/solutions/day14.rs:40-60 | a step of the pair counts, in any iteration order, gives the pair counts of the polymer one insertion step later |
| Polymerization.IterateGrows | src/solutions/day14.rs:76 | the pair counts after n steps are the pair counts of the polymer after n insertion steps |
| Polymerization.CharCountsGet | src/solutions/day14.rs:78-84 | an element's count adds up the counts of the pairs that start with it |
| Polymerization.FirstsCount | src/solutions/day14.rs:78-84 | the pairs of a polymer that start with an element number its occurrences before the last position |
| Polymerization.CharCountsOccurrences | src/solutions/day14.rs:78-92 | the element counts of a polymer's pairs, plus one for its last element, are the element's occurrences in the polymer |
| Polymerization.GrownCounts | src/solutions/day14.rs:73-96 | under insertion rules the element counts (plus the last element) are the occurrences in the grown polymer, and the answer is the occurrences of the most common chosen element less those of the least |
| Polymerization.Score | src/solutions/day14.rs:78-96 | the element counts are folded from the pair counts along an iteration order; the answer is the largest count less the smallest, each raised by one when its element is the template's last; the difference is at least -1, and below zero exactly when the least and most counts tie and only the least element is the template's last (the `u64` underflow) |
| Polymerization.Solve | src/solutions/day14.rs:73-96 | the pair counts are those of the template after the steps, of which there are (n - 1) * 2^steps; the element counts are folded from them; the answer is the most frequent count less the least, each raised by one when its element ends the template; with rules "XY -> Z" the counts are the element occurrences of the grown polymer and the answer the difference of two of them |
| Polymerization.ScoreOfGrown | src/solutions/day14.rs:73-96 | the score taken from the pair counts after n steps counts the characters of those pair counts, and with rules "XY -> Z" describes the polymer grown n times |
| Polymerization.SolutionA | src/solutions/day14.rs:63-66 | the answer of solve after 10 steps, with the same ties to the polymer grown 10 times; the answer is below zero (the `u64` underflow) exactly when the least and most counts tie and only the least element ends the template |
| Polymerization.SolutionB | src/solutions/day14.rs:68-71 | the answer of solve after 40 steps, with the same ties to the polymer grown 40 times; the answer is below zero (the `u64` underflow) exactly when the least and most counts tie and only the least element ends the template |
| Chiton.Wrap | src/solutions/day15.rs:70-71 | a risk of 1 to 9 stays; any positive risk ends in 1..9 and keeps its value modulo 9 |
| Chiton.Reduce | src/solutions/day15.rs:71 | the subtract-nine loop computes the wrapped risk |
| Chiton.TileCoords | src/solutions/day15.rs:73-74 | a copied cell's coordinates give back its tile and its original coordinates |
| Chiton.TileBelow | src/solutions/day15.rs:60 | a cell of the five-fold grid lies in one of the five tiles |
| Chiton.TileUnique | src/solutions/day15.rs:73-74 | a cell of the expanded grid is written by exactly one original cell and tile |
| Chiton.ExpandedRange | src/solutions/day15.rs:70-71 | every expanded risk stays within 1..9 |
| Chiton.TileValue | src/solutions/day15.rs:70-75 | the copy of cell (x, y) in tile (mx, my) holds the wrapped risk a[x, y] + mx + my |
| Chiton.FillTiles | src/solutions/day15.rs:66-77 | the tile loops write every copy of one cell and nothing else |
| Chiton.FillColumn | src/solutions/day15.rs:68-76 | the inner loop writes the copies in one column of tiles and nothing else |
| Chiton.SetCopy | src/solutions/day15.rs:73-75 | one write stores the copy at its cell and changes nothing else |
| Chiton.ColumnCell | src/solutions/day15.rs:68-76 | one more tile row extends the written cells by exactly the new copy |
| Chiton.Grid.constructor | src/solutions/day15.rs:44-56 | the grid holds the parsed digits, with len_x rows and len_y columns |
| Chiton.Grid.Expand | src/solutions/day15.rs:58-84 | the grid becomes five times larger each way and each cell holds the expanded risk of its original |
| Chiton.WalkSnoc | src/solutions/day15.rs:119 | extending a walk by an adjacent cell adds that cell's risk to its cost |
| Chiton.StepPath | src/solutions/day15.rs:113-124 | a step is refused exactly when it leaves the grid; otherwise it lands on the moved cell with the risk increased by that cell's value and a heuristic at least two above the risk |
| Chiton.Somes | src/solutions/day15.rs:110 | flattening keeps exactly the present paths |
| Chiton.Next | src/solutions/day15.rs:103-111 | at most four successors, each adjacent, inside the grid, with the risk of the entered cell added |
| Chiton.NextComplete | src/solutions/day15.rs:103-111 | every adjacent cell inside the grid has a successor |
| Chiton.Lowest | src/solutions/day15.rs:127-133 | the heap pops a path of smallest heuristic (the reversed ordering makes the max-heap a min-heap) |
| Chiton.Improve | src/solutions/day15.rs:24-28 | a successor lowers the best-known risk of its cell only when cheaper, and is then pushed; every other cell keeps its risk |
| Chiton.Relax | src/solutions/day15.rs:22-29 | after the loop no cell's risk grew, and every lowered cell has a pending path at its new risk |
| Chiton.Round | src/solutions/day15.rs:20-30 | one pop keeps every recorded risk backed by a real walk and every settled cell relaxed |
| Chiton.WalkBound | src/solutions/day15.rs:16-33 | once every cell is relaxed, the risk recorded for a walk's last cell is at most the walk's cost |
| Chiton.RemoveSound | src/solutions/day15.rs:20 | popping a path keeps the remaining heap backed by walks |
| Chiton.Solve | src/solutions/day15.rs:16-33 | the answer is at most the cost of every walk from the top-left corner to the bottom-right one, and when below u32::MAX it is the cost of such a walk |
| Chiton.SolutionA | src/solutions/day15.rs:3-7 | the lowest total risk on the parsed grid |
| Chiton.SolutionB | src/solutions/day15.rs:9-14 | the lowest total risk on the five-fold expanded grid, whose cells hold the wrapped risk of their original plus the tile offsets |
| PacketDecoder.ToBits | src/solutions/day16.rs:10 | an n-bit binary rendering has n bits |
| PacketDecoder.ValueBound | src/solutions/day16.rs:30 | an n-bit binary number is below 2^n |
| PacketDecoder.ValueToBits | src/solutions/day16.rs:10-30 | reading back the n-bit rendering of v < 2^n gives v |
| PacketDecoder.ToBitsValue | src/solutions/day16.rs:10-30 | rendering the value of a bit string at its own width gives it back |
| PacketDecoder.HexDigit | src/solutions/day16.rs:10 | a character is a hexadecimal digit exactly when it is 0-9, a-f or A-F, and its value is below 16 |
| PacketDecoder.Nibble | src/solutions/day16.rs:10 | a digit's `{:04b}` rendering has four bits and reads back as the digit |
| PacketDecoder.HexBits | src/solutions/day16.rs:8-12 | the bit string has four bits per hexadecimal digit |
| PacketDecoder.HexBitsDigits | src/solutions/day16.rs:10 | the k-th group of four bits is the rendering of the k-th digit and reads back as its value |
| PacketDecoder.ParsePacketF | src/solutions/day16.rs:44-54 | a parsed packet consumes at least its six header bits and is well formed |
| PacketDecoder.LiteralF | src/solutions/day16.rs:56-67 | a literal consumes at least one five-bit group and gathers at least four value bits |
| PacketDecoder.OperatorF | src/solutions/day16.rs:69-78 | an operator consumes its length type bit and yields well-formed subpackets |
| PacketDecoder.BitLengthF | src/solutions/day16.rs:80-86 | the bit-length form consumes its 15-bit length and yields well-formed subpackets |
| PacketDecoder.NumPacketsF | src/solutions/day16.rs:88-98 | the count form consumes its 11-bit count and yields well-formed subpackets |
| PacketDecoder.CountF | src/solutions/day16.rs:92-96 | reading n packets yields exactly n well-formed packets |
| PacketDecoder.ParseAllF | src/solutions/day16.rs:33-42 | parsing until no one bit is left yields well-formed packets |
| PacketDecoder.ParseAllCons | src/solutions/day16.rs:36-40 | while a one bit is left, the packets are the next packet followed by the packets of the rest |
| PacketDecoder.ParseAllDone | src/solutions/day16.rs:14-36 | a stream with no one bit left parses to no packets |
| PacketDecoder.BitStream.FromHex | src/solutions/day16.rs:8-12 | the stream holds the bits of the hexadecimal input |
| PacketDecoder.BitStream.Any | src/solutions/day16.rs:14-17 | the stream has more to parse exactly when some remaining bit is 1 |
| PacketDecoder.BitStream.Of | src/solutions/day16.rs:84 | a substream holds exactly the given bits |
| PacketDecoder.BitStream.Read | src/solutions/day16.rs:19-24 | the first n bits are returned and removed from the stream |
| PacketDecoder.BitStream.ReadAsBin | src/solutions/day16.rs:26-31 | the first n bits are removed and their binary value, below 2^n, is returned |
| PacketDecoder.BitStream.Parse | src/solutions/day16.rs:33-42 | the loop returns the packets of the whole stream and stops when no one bit is left |
| PacketDecoder.BitStream.ParsePacket | src/solutions/day16.rs:44-54 | the method consumes and returns the next packet |
| PacketDecoder.BitStream.ParseLiteral | src/solutions/day16.rs:56-67 | the loop consumes the five-bit groups up to the one with a zero lead bit and returns the value of their four-bit payloads |
| PacketDecoder.BitStream.ParseOperator | src/solutions/day16.rs:69-78 | an operator yields the subpackets read by the form its length type bit selects |
| PacketDecoder.BitStream.ParseFromBitLength | src/solutions/day16.rs:80-86 | the subpackets are those of the next num_bits bits, parsed as a substream |
| PacketDecoder.BitStream.ParseFromNumPackets | src/solutions/day16.rs:88-98 | the loop reads exactly the announced number of subpackets |
| PacketDecoder.Min | src/solutions/day16.rs:134 | the minimum is one of the values and at most each of them |
| PacketDecoder.Max | src/solutions/day16.rs:135 | the maximum is one of the values and at least each of them |
| PacketDecoder.Evaluate | src/solutions/day16.rs:117-141 | a minimum packet's value is that of one child and at most every child's, a maximum packet's is that of one child and at least every child's, and a comparison packet's is 0 or 1 |
| PacketDecoder.Values | src/solutions/day16.rs:119-123 | the values are those of the subpackets, in order |
| PacketDecoder.SolutionB | src/solutions/day16.rs:169-173 | the answer is the value of the first packet of the transmission |
| PacketDecoder.VersionSumAppend | src/solutions/day16.rs:156 | version sums and packet counts add over concatenation |
| PacketDecoder.VersionSumLevels | src/solutions/day16.rs:154-165 | the version sum of a level is its top versions plus the version sum of the next level down |
| PacketDecoder.SolutionA | src/solutions/day16.rs:150-167 | the level-by-level loop sums the versions of every packet of the tree |
| PacketDecoder.DigitsBound | src/solutions/day16.rs:56-67 | enough four-bit groups are used to hold the value |
| PacketDecoder.Pow2Add | src/solutions/day16.rs:30 | 2^(a+b) = 2^a * 2^b |
| PacketDecoder.LiteralGroups | src/solutions/day16.rs:56-67 | a literal parses back to exactly the bits it was grouped from |
| PacketDecoder.ParseEncode | src/solutions/day16.rs:44-98 | parsing an encoded packet gives the packet back and leaves the rest of the stream |
| PacketDecoder.ParseHeader | src/solutions/day16.rs:46-47 | the header fields read back as the encoded version and type |
| PacketDecoder.ReadLiteral | src/solutions/day16.rs:48-50 | type 4 selects the literal form |
| PacketDecoder.ReadOperator | src/solutions/day16.rs:48-51 | every other type selects the operator form |
| PacketDecoder.OperatorEncode | src/solutions/day16.rs:69-98 | an operator encoded with a packet count parses back to its subpackets |
| PacketDecoder.ReadCount | src/solutions/day16.rs:71-90 | length type 1 reads the 11-bit count and then that many packets |
| PacketDecoder.CountEncode | src/solutions/day16.rs:92-96 | n encoded packets parse back as n packets |
| PacketDecoder.CountCons | src/solutions/day16.rs:92-96 | one more packet ahead of n packets parses as n + 1 packets |
| PacketDecoder.Zeros | src/solutions/day16.rs:10 | zero padding of length k |
| PacketDecoder.HasOnePrefix | src/solutions/day16.rs:14-17 | a stream with a one bit keeps it under any suffix |
| PacketDecoder.ZerosHaveNoOne | src/solutions/day16.rs:14-17 | padding alone ends the parse |
| PacketDecoder.TransmissionEncode | src/solutions/day16.rs:33-42 | an encoded packet followed by zero padding parses to exactly that packet |
| PacketDecoder.EncodedHasOne | src/solutions/day16.rs:14-36 | an encoded packet contains a one bit, so the parse loop does not stop before it |
| PacketDecoder.OneAt | src/solutions/day16.rs:16 | a stream with a one bit at some position is not all zeros |
| TrickShot.HitsIff | src/solutions/day17.rs:42-55 | a probe hits exactly when some step of its trajectory is in the target area while every earlier step stays in the valid region |
| TrickShot.ReachesStep | src/solutions/day17.rs:46-52 | from a valid position, reaching the target in k + 1 steps is reaching it in k steps after one update |
| TrickShot.CheckSolution | src/solutions/day17.rs:42-55 | the loop answers exactly whether the probe launched with the given velocity hits |
| TrickShot.TrajectoryAdd | src/solutions/day17.rs:49-52 | m + n steps are m steps followed by n steps |
| TrickShot.Velocities | src/solutions/day17.rs:51-52 | after k steps the y velocity has dropped by k and a non-negative x velocity stays non-negative (drag stops at zero) |
| TrickShot.XMonotone | src/solutions/day17.rs:49-51 | with a non-negative x velocity the x position never decreases |
| TrickShot.Falling | src/solutions/day17.rs:50-52 | once the y velocity is not positive the probe never rises above its current height |
| TrickShot.YAbove | src/solutions/day17.rs:50-52 | an earlier height is at least the start or at least any later height |
| TrickShot.EarlyStopSafe | src/solutions/day17.rs:46-60 | stopping once x exceeds x_max or y falls below y_min loses no hit: any trajectory that ever enters the target is reported |
| TrickShot.TriFormula | src/solutions/day17.rs:6 | the triangle number of n is n(n+1)/2 |
| TrickShot.TriMonotone | src/solutions/day17.rs:6 | triangle numbers grow with n |
| TrickShot.HeightBound | src/solutions/day17.rs:50-52 | a probe launched upward with speed v rises at most Tri(v) |
| TrickShot.Apex | src/solutions/day17.rs:50-52 | after v steps it is exactly Tri(v) higher |
| TrickShot.Return | src/solutions/day17.rs:50-52 | after 2v + 1 steps it is back at its launch height moving down at v + 1 |
| TrickShot.XStalls | src/solutions/day17.rs:49-51 | once the steps reach the x velocity the probe has stopped at x + Tri(vx) |
| TrickShot.SolutionA | src/solutions/day17.rs:3-8 | for a target below the start, (y_min + 1) * y_min / 2 is the triangle number of -y_min - 1 |
| TrickShot.TooFastMisses | src/solutions/day17.rs:3-8 | an upward speed of -y_min or more overshoots a target below the start |
| TrickShot.HighestBound | src/solutions/day17.rs:3-8 | no hitting trajectory rises above the answer of solution_a |
| TrickShot.HighestAttained | src/solutions/day17.rs:3-8 | when some x velocity stalls inside the target's x range, launching up at -y_min - 1 hits and reaches that height |
| TrickShot.SolutionB | src/solutions/day17.rs:10-17 | the count is the number of velocities in 1..=x_max by y_min..=-y_min that hit |
| TrickShot.ColumnsStep | src/solutions/day17.rs:13 | one more x velocity adds the hits of its column, which are new |
| TrickShot.HitSetColumns | src/solutions/day17.rs:13 | the columns up to x_max make up the whole searched range |
| TrickShot.CountColumn | src/solutions/day17.rs:13-15 | for one x velocity the inner count is the number of y velocities in y_min..=-y_min that hit |
| Snailfish.Leaves | src/solutions/day18.rs:30-69 | the flat element list of a number, one element per regular number with its nesting depth, is never empty |
| Snailfish.LeavesDepth | src/solutions/day18.rs:64 | inside a pair every element is at least as deep as the pair |
| Snailfish.FirstDeep | src/solutions/day18.rs:83 | the search finds the first element at depth 4, or reports that there is none |
| Snailfish.FirstBig | src/solutions/day18.rs:100 | the search finds the first element of value 10 or more, or reports that there is none |
| Snailfish.FirstEq | src/solutions/day18.rs:126 | the search finds the first neighbouring elements of equal depth, or reports that there are none |
| Snailfish.FirstDeepAppend | src/solutions/day18.rs:83 | the first deep element of a concatenation is found in the left part first |
| Snailfish.FirstBigAppend | src/solutions/day18.rs:100 | the first big element of a concatenation is found in the left part first |
| Snailfish.ExplodeLeaves | src/solutions/day18.rs:81-96 | on the flat list, explode does what exploding the leftmost pair nested inside four pairs does on the tree: the pair becomes 0 and its values go to the nearest regular numbers on either side |
| Snailfish.ExplodeStep | src/solutions/day18.rs:81-96 | the agreement between tree and list explosion carries from the two halves of a pair to the pair |
| Snailfish.ExplodeBottom | src/solutions/day18.rs:81-96 | a pair at depth 4 explodes the same way on the tree and on the list |
| Snailfish.SplitLeaves | src/solutions/day18.rs:98-112 | the tree has a regular number of 10 or more exactly when the list has one, and splitting the leftmost one into the pair (n/2, n - n/2) matches the list's split |
| Snailfish.CollapseLeaves | src/solutions/day18.rs:124-130 | a pair always has two neighbouring elements of equal depth, and merging the first such two is collapsing the leftmost innermost pair of the tree |
| Snailfish.CollapseMag | src/solutions/day18.rs:127 | collapsing a pair into 3 * left + 2 * right keeps the magnitude |
| Snailfish.LeavesDeeper | src/solutions/day18.rs:117 | nesting a number one level deeper raises every element's depth by one |
| Snailfish.AddIsPair | src/solutions/day18.rs:116-117 | joining the lists and deepening them gives the list of the pair of the two numbers |
| Snailfish.ExplodeSteps | src/solutions/day18.rs:86-94 | the writes and the removal of explode compute the exploded list |
| Snailfish.ExplodeRound | src/solutions/day18.rs:73-77 | when the list has a deep element, exploding it is one reduction step of the tree and keeps depths at most 4 |
| Snailfish.SplitRound | src/solutions/day18.rs:73-77 | when nothing explodes, a split is one reduction step; with no split the number is reduced and has depths at most 3 |
| Snailfish.ExplodeDepths | src/solutions/day18.rs:81-96 | exploding keeps every depth at most 4 |
| Snailfish.SplitDepths | src/solutions/day18.rs:98-112 | with no element at depth 4, splitting keeps every depth at most 4 |
| Snailfish.ReduceTreeReduced | src/solutions/day18.rs:71-79 | a reduced number has no pair to explode and no number to split |
| Snailfish.ParseShow | src/solutions/day18.rs:50-69 | parsing the text of a number gives its elements with their depths followed by the rest |
| Snailfish.ParseNumber | src/solutions/day18.rs:50-69 | parsing the text of a number gives back its element list |
| Snailfish.SnailfishNumber.Parse | src/solutions/day18.rs:50-69 | the loop over the characters builds the parsed element list |
| Snailfish.SnailfishNumber.Copy | src/solutions/day18.rs:30-41 | a clone has the same elements |
| Snailfish.SnailfishNumber.Explode | src/solutions/day18.rs:81-96 | reports whether some element is at depth 4 and, if so, replaces the list by its exploded form, else leaves it unchanged |
| Snailfish.SnailfishNumber.Split | src/solutions/day18.rs:98-112 | reports whether some element is 10 or more and, if so, replaces the list by its split form, else leaves it unchanged |
| Snailfish.SnailfishNumber.Reduce | src/solutions/day18.rs:71-79 | the loop ends with the list of the reduced tree, with nothing left to explode or split and depths at most 3 |
| Snailfish.SnailfishNumber.Add | src/solutions/day18.rs:114-119 | the sum is the reduced pair of the two numbers |
| Snailfish.SnailfishNumber.Magnitude | src/solutions/day18.rs:121-132 | the collapsing loop computes the magnitude of the tree: 3 * left + 2 * right, recursively |
| Snailfish.SumReduced | src/solutions/day18.rs:5-8 | the running sum is a reduced number |
| Snailfish.ParseAll | src/solutions/day18.rs:135-138 | one fresh number per line, holding that line's elements |
| Snailfish.SolutionA | src/solutions/day18.rs:1-10 | the answer is the magnitude of the left-to-right sum of all numbers |
| Snailfish.SumMagnitude | src/solutions/day18.rs:22-23 | the magnitude of the reduced sum of two numbers |
| Snailfish.BoundedStep | src/solutions/day18.rs:18-25 | the running largest bounds one more pair |
| Snailfish.BoundedRow | src/solutions/day18.rs:16-26 | finishing the inner loop moves on to the next number |
| Snailfish.LargestWith | src/solutions/day18.rs:18-25 | the inner loop keeps the largest magnitude over the pairs seen so far and records which pair attains it |
| Snailfish.BoundedAll | src/solutions/day18.rs:15-27 | after both loops every ordered pair of distinct numbers is bounded by the answer |
| Snailfish.SolutionB | src/solutions/day18.rs:12-28 | the answer is at least the magnitude of the sum of every ordered pair of distinct numbers and is attained by one (0 when there are fewer than two) |
| TrenchMap.IndexOf | src/solutions/day20.rs:73-78 | the index built from k neighbour bits, bit p weighted 2^p, is below 2^k |
| TrenchMap.IndexBound | src/solutions/day20.rs:73-79 | the nine-bit index is below 512, so the table lookup is in range |
| TrenchMap.IndexAgrees | src/solutions/day20.rs:73-78 | two windows with the same neighbour bits give the same index |
| TrenchMap.IndexUniform | src/solutions/day20.rs:73-78 | a neighbourhood of equal bits gives index 0 or 511 |
| TrenchMap.Border | src/solutions/day20.rs:56 | the new border row has the image's width and holds only the outside pixel |
| TrenchMap.Pad | src/solutions/day20.rs:51-58 | extending the image adds one row above and below and one column on each side |
| TrenchMap.Run | src/solutions/day20.rs:14 | running the steps leaves a non-empty image |
| TrenchMap.PadShift | src/solutions/day20.rs:51-58 | padding only shifts the image by one row and one column; every pixel, inside or outside, is unchanged |
| TrenchMap.OffWindow | src/solutions/day20.rs:82-87 | every position off the stored image reads as the outside pixel |
| TrenchMap.OffNeighbour | src/solutions/day20.rs:82-87 | every neighbour of a position beyond the padded border reads as the outside pixel |
| TrenchMap.StepInside | src/solutions/day20.rs:61-67 | a pixel of the padded image sees the neighbourhood of the shifted pixel of the old one |
| TrenchMap.StepOutside | src/solutions/day20.rs:61-68 | beyond the border every neighbourhood is uniform, so the outside pixel becomes the table entry of its uniform index |
| TrenchMap.StepEnhances | src/solutions/day20.rs:48-69 | one step keeps the image framed and, at every position of the infinite image, computes one enhancement of the old image, shifted by one |
| TrenchMap.RunEnhances | src/solutions/day20.rs:11-14 | after n steps the outside pixel is lit exactly when table[0] is lit and n is odd, and the image is the n-fold enhancement of the input, shifted by n |
| TrenchMap.RunFrom | src/solutions/day20.rs:14 | the same for the steps that remain after some have been done |
| TrenchMap.AgreeAfter | src/solutions/day20.rs:14 | one more enhancement composes with the k - 1 already applied |
| TrenchMap.EnhanceShift | src/solutions/day20.rs:61-67 | enhancement commutes with shifting the image |
| TrenchMap.CountRowBound | src/solutions/day20.rs:17 | a row has no more lit pixels than pixels |
| TrenchMap.ImageEnhancement.Parse | src/solutions/day20.rs:31-46 | the table is the template with '#' as lit, the outside pixel is dark, and the image is one row per line followed by the empty row the parse loop leaves |
| TrenchMap.ImageEnhancement.GetPixel | src/solutions/day20.rs:82-87 | a negative position or one past the stored rows reads as the outside pixel; any position reads as the infinite image's pixel |
| TrenchMap.ImageEnhancement.NextPixel | src/solutions/day20.rs:71-80 | the new pixel is the table entry at the index of its nine neighbours |
| TrenchMap.ImageEnhancement.RecomputedRow | src/solutions/day20.rs:63-66 | one row of the new image is recomputed from the old one |
| TrenchMap.ImageEnhancement.Recomputed | src/solutions/day20.rs:61-67 | every row of the new image is recomputed from the old one |
| TrenchMap.ImageEnhancement.Step | src/solutions/day20.rs:48-69 | the image becomes its padded enhancement, the outside pixel flips when table[0] is lit, and the table is unchanged |
| TrenchMap.CountRowPixels | src/solutions/day20.rs:17 | the count of lit pixels of one row |
| TrenchMap.CountPixels | src/solutions/day20.rs:15-18 | the sum of the lit pixels over all rows |
| TrenchMap.Solve | src/solutions/day20.rs:11-20 | the count of lit pixels of the stored image after the given number of steps |
| TrenchMap.SolutionA | src/solutions/day20.rs:1-4 | the count of lit pixels after two steps |
| TrenchMap.SolutionB | src/solutions/day20.rs:6-9 | the count of lit pixels after fifty steps |
| DiracDice.Pair.Set | src/solutions/day21.rs:19-26 | writing one player's slot changes only that slot |
| DiracDice.WrapTen | src/solutions/day21.rs:76-77 | subtracting 10 while above 10 brings any position into 1..10 |
| DiracDice.WrapTenMod | src/solutions/day21.rs:76-77 | the wrapped position is (p - 1) mod 10 + 1 |
| DiracDice.WrapTenLaps | src/solutions/day21.rs:76-77 | whole laps of ten spaces do not change the wrapped position |
| DiracDice.TurnRolls | src/solutions/day21.rs:17-28 | a turn rolls the next three faces of the deterministic die, moves the player by their sum, adds the landing space to that player's score, and leaves the other player alone |
| DiracDice.ThreeRolls | src/solutions/day21.rs:19-23 | 3 * (dice_value + 1) is the sum of the three faces rolled, up to the die's wrap past 100, and the die value advances by three modulo 100 |
| DiracDice.Play | src/solutions/day21.rs:29-33 | the practice game ends with a player at 1000 or more |
| DiracDice.PlayTracks | src/solutions/day21.rs:29-33 | playing keeps the die in step with the roll count and rolls at least three times |
| DiracDice.Answer | src/solutions/day21.rs:34 | the answer is the losing player's score times the number of rolls |
| DiracDice.AsWrittenDiffers | src/solutions/day21.rs:34 | the source's answer agrees when player 1 wins and is larger when player 2 wins |
| DiracDice.PracticeGame.constructor | src/solutions/day21.rs:13-16 | the game starts at the given positions with zero scores and no rolls |
| DiracDice.PracticeGame.TakeTurn | src/solutions/day21.rs:17-28 | the state becomes the turn of the given player, and the new score is returned |
| DiracDice.PlayPractice | src/solutions/day21.rs:29-33 | the loop plays the game to its end |
| DiracDice.SolutionAAsWritten | src/solutions/day21.rs:11-35 | the source's answer: player 2's score times the number of rolls |
| DiracDice.SolutionA | src/solutions/day21.rs:11-35 | corrected: the losing player's score times the number of rolls |
| DiracDice.Entry | src/solutions/day21.rs:65 | each entry of the Dirac table is a total of three three-sided rolls, 3 to 9, with a positive frequency |
| DiracDice.Advance | src/solutions/day21.rs:75-79 | the player to move lands on a space in 1..10, adds it to their score, the other player is unchanged, and the turn passes |
| DiracDice.PairTimes | src/solutions/day21.rs:91-92 | multiplying a win count by a positive frequency does not lower it |
| DiracDice.Wins | src/solutions/day21.rs:62-95 | every game state leads to at least one finished universe |
| DiracDice.WinsUpTo | src/solutions/day21.rs:73-93 | the partial sums over the table are positive once a total is added |
| DiracDice.RollSplitGroups | src/solutions/day21.rs:65 | splitting on the 27 outcomes of three rolls groups into the seven totals with their frequencies |
| DiracDice.Regroup | src/solutions/day21.rs:65 | the frequencies 1, 3, 6, 7, 6, 3, 1 are those of the sums of three three-sided rolls |
| DiracDice.WinsCountsRolls | src/solutions/day21.rs:62-95 | the win counts of the table-driven recursion are the counts of the reference recursion that rolls the die three times per turn, one universe per outcome |
| DiracDice.WinsUpToGroups | src/solutions/day21.rs:73-93 | the accumulation over the seven table entries is the frequency-weighted sum of their win counts |
| DiracDice.WinCache.constructor | src/solutions/day21.rs:39 | the cache starts empty and every entry it will hold is a state's true win count |
| DiracDice.Move | src/solutions/day21.rs:75-79 | the loop-based move computes the advanced state |
| DiracDice.SolveRecursive | src/solutions/day21.rs:62-95 | the result is the number of universes each player wins from the state; the cache only grows and stays correct |
| DiracDice.CachedWins | src/solutions/day21.rs:80-89 | a cache hit or a recursive call gives the true win counts, and the cache only grows and stays correct |
| DiracDice.SolutionB | src/solutions/day21.rs:37-43 | the answer is the larger of the two players' win counts from the start |
| DiracDicePractice.FirstDie | src/solutions/day21.rs:19-23 | the die face before player 1's turn in round k ends in the digit of 6 * (k mod 5) |
| DiracDicePractice.SecondDie | src/solutions/day21.rs:19-23 | the die face before player 2's turn in round k ends in the digit of 6 * (k mod 10) + 3 |
| DiracDicePractice.FirstWrap | src/solutions/day21.rs:19-20 | from 1, player 1's move in round k lands on the tabulated space for k + 1, which repeats every 5 rounds |
| DiracDicePractice.SecondWrap | src/solutions/day21.rs:19-20 | from 1, player 2's move in round k lands on the tabulated space for k + 1, which repeats every 10 rounds |
| DiracDicePractice.FirstScore | src/solutions/day21.rs:26 | player 1's score after k + 1 rounds is that after k rounds plus the space landed on |
| DiracDicePractice.SecondScore | src/solutions/day21.rs:26 | player 2's score after k + 1 rounds is that after k rounds plus the space landed on |
| DiracDicePractice.FirstTurn | src/solutions/day21.rs:17-28 | player 1's turn from the state after k rounds is the tabulated half round |
| DiracDicePractice.SecondTurn | src/solutions/day21.rs:17-28 | player 2's turn completes the tabulated state after k + 1 rounds |
| DiracDicePractice.RoundStep | src/solutions/day21.rs:29-33 | one round from the tabulated state after k rounds gives the tabulated state after k + 1 rounds |
| DiracDicePractice.ScoresBelow | src/solutions/day21.rs:31-32 | up to round 181 neither score reaches 1000, so the loop does not stop |
| DiracDicePractice.PlayRound | src/solutions/day21.rs:29-33 | a round in which nobody reaches 1000 leaves the rest of the game to the state after it |
| DiracDicePractice.SkipRounds | src/solutions/day21.rs:29-33 | the game from the state after k rounds is the game from the state after any later round up to 181 |
| DiracDicePractice.LastRoundFromOneOne | src/solutions/day21.rs:11-34 | the game from start positions 1 and 1 ends with player 2 on 1005 and player 1 on 548 after 1092 rolls, so the source answers 1097460 where the loser's score gives 598416 |
| ReactorReboot.EmptyIffNoPoint | src/solutions/day22.rs:88-91 | a cuboid is empty exactly when it contains no point |
| ReactorReboot.OverlapsIffShared | src/solutions/day22.rs:93-100 | overlap is symmetric, cuboids that do not overlap share no point, and two non-empty cuboids overlap exactly when they share one |
| ReactorReboot.CoveredAppend | src/solutions/day22.rs:44 | a point is covered by a joined list exactly when one of the parts covers it |
| ReactorReboot.DisjointAppend | src/solutions/day22.rs:44 | joining two disjoint lists with no common point keeps the list disjoint |
| ReactorReboot.NonEmptyOnlyFacts | src/solutions/day22.rs:116 | dropping empty cuboids keeps every covered point and disjointness |
| ReactorReboot.CutsApart | src/solutions/day22.rs:109-191 | when the removed cuboid is non-empty the six cuts share no point |
| ReactorReboot.CutsFacts | src/solutions/day22.rs:121-191 | each cut keeps the state, lies inside the original and apart from the removed cuboid, and together the cuts cover exactly the points of the original outside the removed cuboid |
| ReactorReboot.SubtractFacts | src/solutions/day22.rs:102-119 | at most six pieces, each inside the original with its state, none empty, disjoint when the removed cuboid is non-empty, covering exactly the original minus the removed cuboid |
| ReactorReboot.FlatSubtractFacts | src/solutions/day22.rs:48-50 | subtracting a cuboid from every piece of a list removes exactly its points and keeps the list lit, non-empty and disjoint |
| ReactorReboot.CoveredSnoc | src/solutions/day22.rs:38-43 | a point is covered by a list exactly when its front or its last cuboid covers it |
| ReactorReboot.CarveFacts | src/solutions/day22.rs:37-43 | carving the active cuboids out of the new one leaves exactly its points not yet lit, in disjoint non-empty pieces |
| ReactorReboot.RebootLit | src/solutions/day22.rs:27-55 | every active cuboid is on, a point is covered exactly when the last step containing it turns it on, and the active cuboids are disjoint |
| ReactorReboot.NewSubregions | src/solutions/day22.rs:37-43 | the inner loop carves each active cuboid out of the new one |
| ReactorReboot.GetActiveCuboids | src/solutions/day22.rs:27-55 | the loop computes the active cuboids of the reboot steps |
| ReactorReboot.PointsMembers | src/solutions/day22.rs:193-198 | the point set of a cuboid holds exactly the points it contains |
| ReactorReboot.SplitCount | src/solutions/day22.rs:193-198 | a cuboid cut into two parts with no common point has as many points as both parts together |
| ReactorReboot.CountLine | src/solutions/day22.rs:193-198 | a line of cubes has z_max - z_min + 1 points |
| ReactorReboot.CountSlab | src/solutions/day22.rs:193-198 | a slab has (y_max - y_min + 1) * (z_max - z_min + 1) points |
| ReactorReboot.CountPoints | src/solutions/day22.rs:193-198 | a non-empty cuboid has the product of its three side lengths as points |
| ReactorReboot.VolumeCounts | src/solutions/day22.rs:193-198 | the volume of a non-empty cuboid is its number of points |
| ReactorReboot.UnionMembers | src/solutions/day22.rs:3-24 | the union of the point sets holds exactly the covered points |
| ReactorReboot.SumVolumesCounts | src/solutions/day22.rs:21-24 | summing the volumes of disjoint non-empty cuboids counts the points of their union |
| ReactorReboot.LitInside | src/solutions/day22.rs:27-55 | a lit point lies in some step's cuboid |
| ReactorReboot.ActiveCountsLit | src/solutions/day22.rs:19-25 | the points of the active cuboids are exactly the lit points, and the summed volume is their number |
| ReactorReboot.ClampAllFacts | src/solutions/day22.rs:4-13 | clamping to -50..50 keeps disjointness and keeps exactly the covered points inside the region |
| ReactorReboot.ClampedCountsLit | src/solutions/day22.rs:1-17 | the clamped volume sum counts the lit points inside -50..50 on every axis |
| ReactorReboot.SolutionA | src/solutions/day22.rs:1-17 | the answer is the number of lit points in the initialization region |
| ReactorReboot.SolutionB | src/solutions/day22.rs:19-25 | the answer is the number of lit points |
| Burrow.StepCost | src/solutions/day23_a.rs:133-140 | an empty cell costs nothing and each amphipod kind costs 1, 10, 100 or 1000 energy per step |
| Burrow.FromChar | src/solutions/day23_a.rs:156-166 | A, B, C and D are exactly the letters read as amphipods; anything else is an empty cell |
| Burrow.EdgeCost | src/solutions/day23_a.rs:352-372 | the step cost from a cell to a listed neighbour, found exactly when the neighbour is listed |
| Burrow.Rooms | src/solutions/day23_a.rs:432 | the cells of a found path, in order |
| Burrow.UnseenShrinks | src/solutions/day23_a.rs:403-426 | visiting more cells never raises the number of unseen cells, and a newly visited one lowers it |
| Burrow.EdgeWalkRoute | src/solutions/day23_a.rs:432-434 | a found list of (cell, cost) steps is a walk of the adjacency whose cost is the summed costs |
| Burrow.FirstEdgeCost | src/solutions/day23_a.rs:352-372 | in a neighbour list without repeats the lookup returns the listed cost |
| Burrow.SumCostsLeading | src/solutions/day23_a.rs:404-433 | the zero-cost start entry adds nothing to the distance |
| Burrow.Unvisited | src/solutions/day23_a.rs:409-412 | the filter keeps, in order, exactly the neighbours not yet visited |
| Burrow.PushedShape | src/solutions/day23_a.rs:414-427 | the paths pushed are exactly the current path extended by each unvisited neighbour other than the goal |
| Burrow.Found | src/solutions/day23_a.rs:419-423 | a path is found exactly when the goal is an unvisited neighbour, and it is the current path extended by that step |
| Burrow.PushConnections | src/solutions/day23_a.rs:414-427 | the loop over the connections pushes the extended paths, marks their cells visited and records the path to the goal |
| Burrow.PushSnoc | src/solutions/day23_a.rs:414-427 | one more connection either records the found path or pushes one path and visits one cell |
| Burrow.ExtendPartial | src/solutions/day23_a.rs:416-417 | extending a partial path by a newly visited neighbour keeps it a walk without repeated cells |
| Burrow.SearchInit | src/solutions/day23_a.rs:402-404 | the search starts with the start cell visited and the one-cell path on the stack |
| Burrow.SearchExhausted | src/solutions/day23_a.rs:405-430 | an empty stack without a found path means the visited cells form a closed component that excludes the goal |
| Burrow.ExpandTop | src/solutions/day23_a.rs:405-427 | popping the top path and pushing its connections keeps the search invariant |
| Burrow.SearchStep | src/solutions/day23_a.rs:405-430 | a round that does not find the goal keeps the search invariant |
| Burrow.StepPartial | src/solutions/day23_a.rs:414-427 | every path on the stack stays a partial path |
| Burrow.StepCovered | src/solutions/day23_a.rs:403-426 | every visited cell was expanded or ends a path on the stack |
| Burrow.StepClosed | src/solutions/day23_a.rs:409-427 | after expanding a cell every neighbour of it is visited |
| Burrow.PushedNewRoom | src/solutions/day23_a.rs:425-426 | pushing a path visits a new cell |
| Burrow.StepProgress | src/solutions/day23_a.rs:405-430 | each round visits a new cell or shrinks the stack, so the search ends |
| Burrow.FoundWalk | src/solutions/day23_a.rs:419-423 | the found path starts at the start cell, is a walk, visits no cell twice and ends at the goal |
| Burrow.FoundRoute | src/solutions/day23_a.rs:432-434 | the returned route and distance describe a real route from start to goal |
| Burrow.FindPath | src/solutions/day23_a.rs:400-434 | the path runs from room1 to room2 and is a real route with its distance; an empty route means room2 cannot be reached, which cannot happen in a connected burrow |
| Burrow.Ends | src/solutions/day23_a.rs:383-395 | the destinations listed for a cell are every other cell except hall-to-hall, in order |
| Burrow.GetPathMap | src/solutions/day23_a.rs:374-398 | every cell has an entry listing one path to each allowed destination |
| Burrow.ClosedUp | src/solutions/day23_a.rs:352-372 | a closed set holding a cell holds its parent in the table's tree |
| Burrow.ClosedDown | src/solutions/day23_a.rs:352-372 | a closed set holding a parent holds its child |
| Burrow.ClosedHoldsRoot | src/solutions/day23_a.rs:352-372 | a non-empty closed set holds the root |
| Burrow.ClosedHoldsAll | src/solutions/day23_a.rs:352-372 | a closed set holding the root holds every cell |
| Burrow.ConnectedByParents | src/solutions/day23_a.rs:352-372 | a symmetric table with a spanning parent tree is connected |
| Burrow.ApplyConserves | src/solutions/day23_a.rs:284-291 | a move empties its start, puts the amphipod at its end, adds its cost, changes no other cell and keeps the amphipods |
| Burrow.GenerateFromMoves | src/solutions/day23_a.rs:282-293 | one successor grid per move, each the move applied to the grid |
| Burrow.PopIndex | src/solutions/day23_a.rs:327-334 | the heap pops a grid that nothing in the heap outranks: most amphipods home first, then lowest cost |
| BurrowShallow.Table | src/solutions/day23_a.rs:352-372 | the adjacency has one neighbour list per cell |
| BurrowShallow.RowShape | src/solutions/day23_a.rs:352-372 | every listed neighbour is a cell, lists the cell back at the same cost, and appears once |
| BurrowShallow.TableShape | src/solutions/day23_a.rs:352-372 | the table is well formed, without repeated neighbours and symmetric |
| BurrowShallow.TableParents | src/solutions/day23_a.rs:352-372 | every cell but the first is joined to an earlier one |
| BurrowShallow.TableConnected | src/solutions/day23_a.rs:352-372 | every cell can reach every other one, so find_path always finds a route |
| BurrowShallow.PathMap | src/solutions/day23_a.rs:374-398 | every listed path is a real route between its ends |
| BurrowShallow.ListedPathStart | src/solutions/day23_a.rs:374-398 | a path listed for a cell starts there and is a route to a cell |
| BurrowShallow.ValidPathRules | src/solutions/day23_a.rs:180-209 | an amphipod in its own second room, or in its first room above a matching one, does not move; a blocked route is refused; a room destination must be its own and either the back room or above a matching amphipod; a clear move out to the hall is accepted |
| BurrowShallow.HomewardOnly | src/solutions/day23_a.rs:266-279 | keeps exactly the moves that end in the amphipod's own room |
| BurrowShallow.AllMovesInside | src/solutions/day23_a.rs:250-264 | every collected move joins two cells |
| BurrowShallow.MovesForInside | src/solutions/day23_a.rs:256-261 | every move for one amphipod joins two cells |
| BurrowShallow.MovesForSource | src/solutions/day23_a.rs:256-261 | each move comes from a valid listed path, costing its distance times the amphipod's step cost |
| BurrowShallow.MovesForHas | src/solutions/day23_a.rs:256-261 | every valid listed path gives a move |
| BurrowShallow.AllMovesSource | src/solutions/day23_a.rs:250-264 | each collected move is a move of an occupied cell |
| BurrowShallow.AllMovesHas | src/solutions/day23_a.rs:250-264 | every move of an occupied cell is collected |
| BurrowShallow.PathMapInside | src/solutions/day23_a.rs:374-398 | every listed path joins two cells |
| BurrowShallow.AllMoveSound | src/solutions/day23_a.rs:247-264 | every collected move takes an amphipod along a valid listed route to an empty cell at the route's cost |
| BurrowShallow.AllMoveComplete | src/solutions/day23_a.rs:247-264 | every valid route of every amphipod is collected |
| BurrowShallow.HomewardFilter | src/solutions/day23_a.rs:266-279 | when some move reaches a home room only such moves remain, otherwise all moves remain |
| BurrowShallow.ValidMoveSound | src/solutions/day23_a.rs:247-280 | every returned move is a sound move along a valid route |
| BurrowShallow.GetValidMoves | src/solutions/day23_a.rs:247-280 | the loop computes the valid moves of the grid |
| BurrowShallow.NumCorrect | src/solutions/day23_a.rs:307-324 | at most 8 amphipods are counted home, and 8 exactly when the burrow is solved |
| BurrowShallowSearch.ReachableMove | src/solutions/day23_a.rs:22-23 | a valid move applied to a grid reached from the start by valid moves gives another such grid |
| BurrowShallowSearch.TraceConserves | src/solutions/day23_a.rs:282-293 | along any sequence of valid moves the cells, the multiset of amphipods and a cost no lower than the start's are kept |
| BurrowShallowSearch.ReachableConserves | src/solutions/day23_a.rs:282-293 | a grid reached by valid moves has the start's cells and amphipods and at least its cost |
| BurrowShallowSearch.SuccessorsReachable | src/solutions/day23_a.rs:22-23 | every successor of a grid reached by valid moves is reached by valid moves, with the start's amphipods |
| BurrowShallowSearch.Successors | src/solutions/day23_a.rs:22-23 | one successor per valid move, each reached from the start by valid moves |
| BurrowShallowSearch.PushSuccessors | src/solutions/day23_a.rs:23-35 | the heap gains exactly the successors not yet considered and cheaper than the best so far; the considered table keeps each grid's own cost |
| BurrowShallowSearch.Solve | src/solutions/day23_a.rs:3-38 | a best below usize::MAX is the cost of a solved grid reached from the start by a sequence of valid moves, and every grid expanded was reached that way, unsolved, and costing at most the best at its time |
| BurrowDeep.Table | src/solutions/day23_b.rs:502-530 | the adjacency of the deep burrow has one neighbour list per cell |
| BurrowDeep.RowShape | src/solutions/day23_b.rs:502-530 | every listed neighbour is a cell, lists the cell back at the same cost, and appears once |
| BurrowDeep.TableShape | src/solutions/day23_b.rs:502-530 | the table is well formed, without repeated neighbours and symmetric |
| BurrowDeep.TableParents | src/solutions/day23_b.rs:502-530 | every cell but the first is joined to an earlier one |
| BurrowDeep.TableConnected | src/solutions/day23_b.rs:502-530 | every cell can reach every other one, so find_path always finds a route |
| BurrowDeep.MovesForSource | src/solutions/day23_b.rs:255-261 | each move comes from a listed path with an empty route that is valid for the amphipod, at its distance times the step cost |
| BurrowDeep.MovesForHas | src/solutions/day23_b.rs:255-261 | every listed path with an empty route that is valid gives a move |
| BurrowDeep.ValidMovesSource | src/solutions/day23_b.rs:249-264 | each collected move is a move of an occupied cell |
| BurrowDeep.ValidMovesHas | src/solutions/day23_b.rs:249-264 | every move of an occupied cell is collected |
| BurrowDeep.PathMap | src/solutions/day23_b.rs:532-559 | every listed path is a real route between its ends |
| BurrowDeep.GetValidMoves | src/solutions/day23_b.rs:246-266 | the loop computes the valid moves of the grid |
| BurrowDeep.ValidMoveSound | src/solutions/day23_b.rs:246-302 | a move takes an amphipod that is not settled in its own room group along a listed route to an empty cell that is a hall or its own room above matching amphipods, at the route's cost |
| BurrowDeep.ListedPathStart | src/solutions/day23_b.rs:532-559 | a path listed for a cell starts there |
| BurrowDeep.ValidMoveComplete | src/solutions/day23_b.rs:246-266 | every valid path with an empty route gives a move |
| BurrowDeep.SettledStays | src/solutions/day23_b.rs:271 | an amphipod settled in its own room above matching amphipods never moves |
| BurrowDeep.SolvedIsAllMatching | src/solutions/day23_b.rs:377-395 | the burrow is solved exactly when every room cell holds its own kind |
| BurrowDeep.RunFromBottom | src/solutions/day23_b.rs:400-415 | the nested count from the back of a room is at most the room's depth |
| BurrowDeep.RunFull | src/solutions/day23_b.rs:400-415 | the count reaches the depth exactly when the whole room holds the kind |
| BurrowDeep.HeuristicSolved | src/solutions/day23_b.rs:397-465 | the heuristic is at most 16 and exactly 16 when the burrow is solved |
| BurrowDeepSearch.ReachableMove | src/solutions/day23_b.rs:24-25 | a valid move applied to a grid reached from the start by valid moves gives another such grid |
| BurrowDeepSearch.TraceConserves | src/solutions/day23_b.rs:364-375 | along any sequence of valid moves the cells, the multiset of amphipods and a cost no lower than the start's are kept |
| BurrowDeepSearch.ReachableConserves | src/solutions/day23_b.rs:364-375 | a grid reached by valid moves has the start's cells and amphipods and at least its cost |
| BurrowDeepSearch.SuccessorsReachable | src/solutions/day23_b.rs:24-25 | every successor of a grid reached by valid moves is reached by valid moves, with the start's amphipods |
| BurrowDeepSearch.Successors | src/solutions/day23_b.rs:24-25 | one successor per valid move, each reached from the start by valid moves |
| BurrowDeepSearch.KeptPrefix | src/solutions/day23_b.rs:25-37 | the successors the inner loop pushes are successors cheaper than the best so far |
| BurrowDeepSearch.KeptListed | src/solutions/day23_b.rs:25-37 | a successor is among those pushed exactly when it is kept: cheaper than the best and, if its occupancy is listed, cheaper than the listed cost and every earlier successor with that occupancy |
| BurrowDeepSearch.LowestStep | src/solutions/day23_b.rs:27-35 | after one more successor the lowest listed cost moves to it exactly when it is cheaper than the listed cost and every earlier successor with that occupancy |
| BurrowDeepSearch.TableStep | src/solutions/day23_b.rs:27-36 | one turn of the inner loop keeps each listed cost at the lowest seen so far and pushes the successor exactly when it is kept |
| BurrowDeepSearch.PushSuccessors | src/solutions/day23_b.rs:25-37 | the heap becomes the old heap followed by exactly the kept successors in their order: a successor whose occupancy is listed at a cost no higher, or was met earlier in the loop at a cost no higher, is dropped; a cheaper one is pushed when below the best; each listed cost becomes the lowest of its old value and the costs of the successors with that occupancy; no occupancy is added to the table |
| BurrowDeepSearch.Solve | src/solutions/day23_b.rs:5-40 | a best below usize::MAX is the cost of a solved grid reached from the start by a sequence of valid moves, and every grid expanded was reached that way, unsolved, and costing at most the best at its time |
| Alu.TruncatingDivision | src/solutions/day24.rs:147-158 | the ALU's div and mod truncate toward zero: a = b * q + r with |r| < |b| and r taking the sign of a, agreeing with Euclidean division on non-negative operands |
| Alu.Exec | src/solutions/day24.rs:147-158 | an instruction writes only its target register; inp stores the input digit; eql stores 1 exactly when the operands are equal, else 0 |
| Alu.Eval | src/solutions/day24.rs:147-158 | evaluating in place on the register array performs the instruction |
| Alu.RunToInput | src/solutions/day24.rs:44-50 | running stops at the next inp instruction or at the end of the program |
| Alu.After | src/solutions/day24.rs:39-50 | feeding a digit moves strictly forward in the program |
| Alu.Search | src/solutions/day24.rs:20-73 | a found answer is a non-empty sequence of digits 1 to 9 |
| Alu.TryFrom | src/solutions/day24.rs:36-69 | trying the digits from the k-th on yields, when it succeeds, a non-empty digit sequence |
| Alu.SearchFirst | src/solutions/day24.rs:20-73 | the search fails exactly when no digit sequence leaves z at 0, and otherwise returns an accepted sequence that comes first in the digit order among all accepted ones: the largest model number, or the smallest when reversed |
| Alu.TryFromFirst | src/solutions/day24.rs:36-69 | trying the digits from the k-th on finds the first accepted sequence whose first digit is not before the k-th, or there is none |
| Alu.DeeperFound | src/solutions/day24.rs:51-56 | when the rest of the program accepts after a digit, that digit followed by the first accepted rest comes first |
| Alu.DeeperFails | src/solutions/day24.rs:57-60 | when the rest of the program accepts nothing after a digit, no accepted sequence starts with it |
| Alu.LastInput | src/solutions/day24.rs:63-68 | after the last input the digit is accepted exactly when z is 0 |
| Alu.AcceptsNonEmpty | src/solutions/day24.rs:38-41 | every accepted sequence has at least one digit |
| Alu.EncodeCons | src/solutions/day24.rs:53 | the result r = result * 10 + digit puts the digit in the units place |
| Alu.EncodeSingle | src/solutions/day24.rs:66-67 | a one-digit result is the digit |
| Alu.Memo.constructor | src/solutions/day24.rs:16 | the cache starts empty |
| Alu.RecordFailure | src/solutions/day24.rs:71 | recording a failed state keeps every cached entry a true failure |
| Alu.SearchStart | src/solutions/day24.rs:36 | the search tries the digits from the first in order |
| Alu.TryFromEnd | src/solutions/day24.rs:71-72 | after the ninth digit the search fails |
| Alu.TryFromStep | src/solutions/day24.rs:36-69 | one digit: recurse at the next inp and stop if it succeeds, else accept at the end when z is 0, else go on to the next digit |
| Alu.RunToNextInput | src/solutions/day24.rs:44-50 | the loop evaluates instructions in place up to the next inp |
| Alu.FeedDigit | src/solutions/day24.rs:39-50 | a copy of the registers receives the digit and runs to the next input |
| Alu.SolveRecursive | src/solutions/day24.rs:20-73 | the result is the reversed-digit number of the first accepted sequence, or None when none exists; the cache holds only failures while nothing has been found |
| Alu.NatString | src/solutions/day24.rs:17 | the decimal rendering of a number is a non-empty string of digits |
| Alu.NatStringRoundTrip | src/solutions/day24.rs:17 | reading back the decimal rendering gives the number |
| Alu.ReverseSnoc | src/solutions/day24.rs:17 | reversing a string with one more character puts it first |
| Alu.AnswerSpellsDigits | src/solutions/day24.rs:17-53 | the reversed decimal rendering of the encoded result spells the digit sequence in input order |
| Alu.Solve | src/solutions/day24.rs:13-18 | the answer spells the first accepted digit sequence in the chosen order, which is accepted and comes before every other accepted one |
| Alu.SolutionA | src/solutions/day24.rs:3-6 | the answer spells an accepted model number, the largest by SearchFirst |
| Alu.SolutionB | src/solutions/day24.rs:8-11 | the answer spells an accepted model number, the smallest by SearchFirst |
| Alu.RegisterNames | src/solutions/day24.rs:112-122 | the register parser accepts exactly w, x, y, z |
| Alu.OperandRoundTrip | src/solutions/day24.rs:129-133 | an operand, register or number, parses back from its text |
| Alu.ParseRoundTrip | src/solutions/day24.rs:110-145 | every instruction parses back from its words |
| Alu.ParseProgram | src/solutions/day24.rs:110-145 | a parsed program has one instruction per line, each the parse of its line |
| SeaCucumber.FromChar | src/solutions/day25.rs:46-55 | exactly '.', '>' and 'v' are accepted (any other character is the panic, here None), and each reads back as its character |
| SeaCucumber.ParseRow | src/solutions/day25.rs:6 | a parsed row has one cell per character, each the reading of its character |
| SeaCucumber.ParseGrid | src/solutions/day25.rs:5-7 | a parsed grid has one row per line, each the parse of its line |
| SeaCucumber.Target | src/solutions/day25.rs:23 | an east-facing cucumber looks one column right and a south-facing one one row down, wrapping around the edges, and the cell looked at is in the grid |
| SeaCucumber.TargetSource | src/solutions/day25.rs:23 | the cell a cucumber would come from and the cell it would go to are inverse to each other |
| SeaCucumber.Step | src/solutions/day25.rs:20-30 | a half-step keeps the grid's shape |
| SeaCucumber.StepMoves | src/solutions/day25.rs:21-29 | in a half-step every cucumber of the herd whose target was empty leaves its cell and fills its target, every blocked one stays, and any other cell changes only if it was empty and a cucumber moves into it; all moves are decided on the old grid |
| SeaCucumber.StepFixedIff | src/solutions/day25.rs:17-27 | a half-step leaves the grid unchanged exactly when no cucumber of the herd can move |
| SeaCucumber.TargetsCount | src/solutions/day25.rs:23-25 | distinct cucumbers have distinct targets |
| SeaCucumber.TargetsFilled | src/solutions/day25.rs:25 | every target was empty and holds the herd afterwards |
| SeaCucumber.StayersStay | src/solutions/day25.rs:23 | the cucumbers that cannot move stay where they are |
| SeaCucumber.NewHerdFrom | src/solutions/day25.rs:25-26 | afterwards the herd is exactly its stayers and the targets of its movers |
| SeaCucumber.MovingHerdCount | src/solutions/day25.rs:21-29 | the moving herd keeps its number of cucumbers |
| SeaCucumber.OtherHerdStays | src/solutions/day25.rs:21-29 | the other herd does not move during a half-step |
| SeaCucumber.StepKeepsHerds | src/solutions/day25.rs:18-31 | a half-step keeps the number of east-facing and of south-facing cucumbers |
| SeaCucumber.Round | src/solutions/day25.rs:18-31 | a round, the east half-step and then the south one, keeps the grid's shape |
| SeaCucumber.RoundFixedIff | src/solutions/day25.rs:14-32 | a round leaves the grid unchanged exactly when no cucumber moves in it, which is when stopped stays true |
| SeaCucumber.Rounds | src/solutions/day25.rs:14-32 | repeated rounds keep the grid's shape |
| SeaCucumber.SettleFirstStill | src/solutions/day25.rs:14-33 | the round count n is at least 1, the n-th round is the first in which nothing moves, and every earlier round moves something |
| SeaCucumber.RoundsShift | src/solutions/day25.rs:14-32 | n rounds are one round followed by n - 1 rounds |
| SeaCucumber.MovedBeforeNext | src/solutions/day25.rs:21-27 | the moved flag after a cell is the flag before it or that cell's move |
| SeaCucumber.RowDone | src/solutions/day25.rs:21 | finishing a row is starting the next one |
| SeaCucumber.Ends | src/solutions/day25.rs:20-30 | the scan starts with the copy of the grid and, after the last cell, holds the half-step |
| SeaCucumber.ProcessCell | src/solutions/day25.rs:23-28 | processing one cell extends the copy by that cell's move |
| SeaCucumber.WriteMove | src/solutions/day25.rs:25-26 | the two writes of a move fill the target and empty the start |
| SeaCucumber.MovesAt | src/solutions/day25.rs:23 | the test of the source, the cell holds the herd and its wrapped neighbour is empty, is exactly a move |
| SeaCucumber.ProcessRow | src/solutions/day25.rs:21-29 | processing one row extends the copy by that row's moves |
| SeaCucumber.HalfStep | src/solutions/day25.rs:20-30 | the new grid is the half-step of the old one, and stopped is cleared exactly when some cucumber of the herd moves |
| SeaCucumber.ProcessMover | src/solutions/day25.rs:23-28 | a moving cucumber's start becomes empty and its target holds the herd |
| SeaCucumber.ProcessStill | src/solutions/day25.rs:23 | a cell that does not move changes nothing |
| SeaCucumber.CountRounds | src/solutions/day25.rs:9-33 | the loop counts the rounds up to and including the first in which nothing moves |
| SeaCucumber.SettleUnfold | src/solutions/day25.rs:14-32 | a round in which something moves adds one to the count of the rounds after it |
| SeaCucumber.NewGrid | src/solutions/day25.rs:5-7 | the array holds the parsed cells |
| SeaCucumber.SolutionA | src/solutions/day25.rs:3-34 | input with a foreign character gives no answer (the panic); otherwise the answer is the number of the first round in which no cucumber moves |

## Left out

- `src/main.rs`: reading the input files and printing the answers; it is I/O only.
- `src/solutions/day19.rs`: scanner alignment rests on an `f64` metric built with `sqrt` and rounding, and on two hash maps iterating in the same order. No integer contract captures it.
- Parsing that only splits text into lines and words and reads numbers with `parse::<u32>()` is not modelled. The models take the parsed values as inputs. This covers `parse` in days 1, 5, 6, 10 and 17, the fold lines of day 13 (`src/solutions/day13.rs:115-128`), `TargetArea::new` (`src/solutions/day17.rs:30-40`), the step lines of day 22 (`src/solutions/day22.rs:71-81`) and the start positions of day 21 (`src/solutions/day21.rs:3-9`).
- `Grid::parse` of both burrows and the debug helpers `Room::from`, `to_char` and `to_str`. They read fixed line and column offsets of the text, so the initial grid is a parameter.
- Integer widths: `u32`, `u64`, `usize`, `i32` and `i64` are unbounded here, and overflow is not modelled. Where an unsigned subtraction could underflow, the model proves it cannot or requires what prevents it, except for Polymerization.Score (below).
- `HashMap`/`HashSet` iteration order is not fixed by the source. Where a result could depend on it (day 14), the order is a ghost parameter. Elsewhere the model uses sets and maps, whose results do not depend on order.
- Whales.SolutionB: the mean in part two is computed with `f64` division and `round`, so it is taken as an integer parameter.
- SonarSweep.GetDepthIncreases: requires the loop to count at least one increase, because the final `u32` `- 1` underflows otherwise. When the first depth is 0, the answer is one short of the true number of increases. SonarSweep.SolutionB has the same requirement.
- Dive.SolutionA: requires that no prefix of the commands drives the depth below 0, the `u32` underflow of `src/solutions/day02.rs:61`. Dive.SolutionB requires the same of the aim (`src/solutions/day02.rs:80`).
- Bingo.LastToWin: the stable `sort_by_key` of `src/solutions/day04.rs:148` is modelled by the element it puts last, the last board with the most calls counted.
- DumboOctopus.SolutionB: the source's `while` loop runs until the grid is all dark, which may never happen. A `fuel` count of steps bounds it, and running out gives no answer.
- PassagePathing.Solve: the count is proved exact (every legal path counted, none twice) only when no cave's list names a neighbour twice; an edge given twice in the input makes the source count the same path more than once, and the model states only that every counted path is legal and every legal path is counted.
- PassagePathing.IsSmall: "small cave" is ASCII `a`-`z`. Rust's `is_lowercase` also accepts other Unicode lower-case letters.
- PassagePathing.Solve: the source's stack loop may run forever when two big caves are adjacent. A `fuel` count of pops bounds it, and running out gives no answer.
- TransparentOrigami.Foldable.FoldAlongX: requires every dot to lie within twice the fold value, since `2 * value - x` underflows a `u32` otherwise. FoldAlongY has the same requirement.
- Polymerization.Solve: requires a rule for every pair that can occur (the source's `unwrap`). It steps with the corrected fold `Add`, not the fold as written at `src/solutions/day14.rs:45-49`. The two agree unless some rule's two products are the same pair (AsWrittenAgrees); for such rules the answer is the intended one, not the program's. The ties to the grown polymer hold for rules of the form "XY -> Z" only. The `u64` difference of the most and least common counts is an unbounded integer.
- Polymerization.Score: the source's `most_count - least_count` is a `u64` and underflows when every character count ties and only the least common character, as sorted, is the template's last. The model's `int` result is then -1; the contract says exactly when that happens (the case needs a tie, so the order of the hash map decides between 0 and the underflow). SolutionA and SolutionB carry the same condition.
- Polymerization.SolutionA: as Polymerization.Solve, with 10 steps: the corrected fold is used.
- Polymerization.SolutionB: as Polymerization.Solve, with 40 steps: the corrected fold is used.
- Chiton.Solve: a `fuel` count bounds the number of heap pops, and running out gives no answer. `BinaryHeap` is a sequence from which an element of least heuristic is taken.
- PacketDecoder.EncodePacket: the encoder used for the round trip writes operators with length type 1 only. Length type 0 is parsed, but is not in the round trip.
- Snailfish.SnailfishNumber.Reduce: the source's `reduce` loops until nothing changes, so a `fuel` count bounds the rounds, and running out reports failure. Inputs are assumed to be renderings of snailfish trees nested at most four deep, as the puzzle promises.
- `SnailfishNumber::new` (`src/solutions/day18.rs:45-48`) is never called and is not modelled.
- TrenchMap.Solve: requires a template of at least 512 characters, the index range of `next_pixel`. The proof that the window is the enhanced infinite image assumes that a lit template entry 0 goes with an unlit entry 511. Otherwise the infinite image is lit everywhere after one step.
- DiracDice.SolveRecursive: the cache is a map from state to win counts. It is proved to hold only true counts, but its memory and `HashMap` behaviour are not modelled.
- ReactorReboot.Subtract: pieces are pairwise disjoint only when the removed cuboid is non-empty, so the disjointness lemmas require that. `Volume` takes the `abs_diff` of each side as the source does, but when a step's cuboid is empty (inverted on some axis) the model does not tie the answers to the lit points: the ties to `LitPoints` in ReactorReboot.SolutionA and ReactorReboot.SolutionB hold only under `NoneEmpty`.
- BurrowShallowSearch.Solve: proves soundness, that an answer below `usize::MAX` is the cost of a solved burrow reached from the start by valid moves. Optimality is not claimed, because the heap is ordered by a heuristic and the visited table is overwritten. A `fuel` count bounds the pops.
- BurrowDeepSearch.Solve: proves the same soundness for the four-deep burrow, that an answer below `usize::MAX` is the cost of a solved burrow reached from the start by valid moves. Optimality is not claimed, for the same reasons (a heuristic heap order and an overwritten visited table), and a `fuel` count bounds the pops.
- BurrowShallowSearch.Solve: the visited table is keyed by the whole grid, occupancy and cost. The source's `Hash`, which uses occupancy only, affects only bucket placement.
- SmokeBasin.SolutionA: requires every row of the height map to be as long as the first (`Rectangular`). The source takes the width from row 0 only (`src/solutions/day09.rs:21`), so it ignores the extra cells of a longer row, and `heightmap[row].get(col+1)` (`src/solutions/day09.rs:34`) still reads such a cell as a right neighbour, while a shorter row makes the indexing panic; ragged maps are not modelled.
- SmokeBasin.SolutionB: requires the same `Rectangular` map. The source scans and grows basins within row 0's width (`src/solutions/day09.rs:47`, `src/solutions/day09.rs:79`), and the low-point test it reuses reads past that width on a longer row; ragged maps are not modelled.
- DumboOctopus.NewIsSettled: requires every line as long as the first (`Rectangular`), because its symmetric-neighbourhood clause fails for the octopi past the first line's width. Longer lines are otherwise modelled: DumboOctopus.NewWellFormed, DumboOctopus.Step, DumboOctopus.SolutionA and DumboOctopus.SolutionB accept them, and DumboOctopus.ExtrasStay proves the extra octopi are never charged. A line shorter than the first makes `step` panic (`get_mut(cell).unwrap()`); `WellFormed` excludes it.
- Chiton.SolutionA: requires every row as long as the first. The source takes the width from row 0 (`src/solutions/day15.rs:54`) and ignores the extra cells of a longer row, or panics on a shorter one; ragged grids are not modelled.
- Chiton.SolutionB: requires the same equal-length rows as Chiton.SolutionA, for the same reason (`src/solutions/day15.rs:54`).
- Alu.Solve: requires that some digit sequence is accepted (`Search(...).Some?`), which is the source's `result.unwrap()` at `src/solutions/day24.rs:17`; the source panics when no model number exists. Alu.SolutionA and Alu.SolutionB carry the same requirement.
- Alu.Safe: the search requires every `div` and `mod` operand to be a non-zero literal. The source accepts any program and panics at run time on a zero divisor.
- Alu.ParseInstruction: "alphabetic" is ASCII letters, words are given already split, and `i64` overflow of literals is not modelled.
- Alu.SolveRecursive: the success entries the source writes into its cache are stored under the state after the next input, not under the state being searched. This is modelled as written. These entries are never read, because every caller returns at once.
- SeaCucumber.SolutionA: the source's `while !stopped` loop runs forever if the herds never come to rest. SolutionA requires the herds to come to rest within the ghost `fuel`; inputs on which the source's loop never ends are excluded. Rows of unequal length are excluded by `Rectangular`; the source indexes `grid[0]`, which panics on empty input.

## Findings

| source | as written | input that shows it | evidently intended | confidence | as-written member | corrected member |
|---|---|---|---|---|---|---|
| src/solutions/day07.rs:18-23 | the median index is `len / 2 + 1` for an odd number of crabs | crabs at 0, 0, 10: index 2 picks 10 and the fuel is 20, while aligning at 0 costs 10 | the median index `len / 2` for every length, which minimises the fuel | not executed | Whales.MedianOffByOne | Whales.MedianMinimises |
| src/solutions/day14.rs:45-49 | when a rule's two products are the same pair, the entry becomes `2 * (existing + count)`, doubling counts already added this step | template "BAA", rules BA -> A and AA -> A, BA visited first: AA is counted 4 times instead of 3 | add `2 * count` to the existing entry | not executed | Polymerization.AsWrittenOvercounts | Polymerization.GrowStep |
| src/solutions/day21.rs:34 | the answer multiplies `scores[1]` by the number of rolls whoever won | start positions 1 and 1: player 2 wins with 1005, player 1 has 548, 1092 rolls; as written 1097460, intended 598416 | the loser's score times the number of rolls | not executed | DiracDice.AsWrittenDiffers | DiracDice.Answer |
| src/solutions/day10.rs:26-28 | `find` returns the byte offset of the first closer and `chars().nth` reads it as a character index | the line "\u{e9})": no error is reported, so the line scores 0 instead of 3; on "\u{e9})a)" the scan reads 'a' and reaches `unreachable!` | read the character at the first closer's own position | not executed | SyntaxScoring.WideCharHidesError | SyntaxScoring.FirstError |
