# Advent of Code 2023, days 1 to 12, in Dafny

This project models the puzzle solutions of the Rust repository `adventofcode-2023` (one crate
per day, `dayNN/src/lib.rs`). Each day is one Dafny module that works on already parsed input.
The model keeps the source's own algorithm. It also states the property the algorithm is meant
to have and proves the two agree.

| file | module | puzzle |
|---|---|---|
| `day01.dfy` | `Calibration` | Trebuchet calibration. The first and the last digit of a line, written as a digit or as a word. |
| `day02.dfy` | `CubeGames` | Cube games. Which games fit the 12/13/14 limits, and the power of the smallest bag. |
| `day03.dfy` | `GearRatios` | Engine schematic. The sum of the numbers next to a symbol. |
| `day04.dfy` | `Scratchcards` | Scratchcards. Doubling scores, and copies won by matches. |
| `day05.dfy` | `SeedMaps` | Seed-to-location maps. Applying range layers, and skipping stretches of seeds that shift together. |
| `day06.dfy` | `BoatRaces` | Boat races. Counting the hold times that beat the record. |
| `day07.dfy` | `CamelCards` | Camel cards. Hand types with jokers, ordering hands, and the winnings. |
| `day08.dfy` | `DesertMap` | Haunted wasteland. Walk lengths on a left/right network, and their least common multiple. |
| `day09.dfy` | `Mirage` | Mirage maintenance. Extrapolation from the pyramid of differences, forwards and backwards. |
| `day10.dfy` | `PipeMaze` | Pipe maze. Walking the loop, and counting enclosed tiles with a scanline. |
| `day11.dfy` | `CosmicExpansion` | Cosmic expansion. Widening empty rows and columns, and summing pairwise distances. |
| `day12.dfy`, `day12_arrangements.dfy` | `HotSprings`, `SpringArrangements` | Hot springs. Counting the arrangements of damaged springs with a memo table. |
| `sorting.dfy` | `Sorting` | `sort`/`sort_by_key` of the standard library, used on days 5, 7 and 11. |
| `divisibility.dfy` | `Divisibility` | `gcd`/`lcm` with the values the `num` crate returns, used on day 8. |
| `wrappers.dfy` | `Wrappers` | `Option`. |

Loops and in-place updates of the source are methods with loops and arrays. Each is proved
against a function that specifies it. Iterator chains are functions. Most panics of the source
(`unwrap` of a missing value, `unreachable!`, an index out of range, a missing map key) become a
`None` result. A few become preconditions instead, each listed under "## Left out": the
non-empty checker list of `Calibration.ParseLine`, the distinct cards of `CamelCards.DrawCmp`,
the positive groups and the room of `HotSprings`, and the non-negative values of
`SeedMaps.Part2`.

## Model

| member | source | states |
|---|---|---|
| Calibration.FindFrom | day01/src/lib.rs:9-11 | `find`: the first offset at or after `from` where the pattern occurs, and `None` exactly when it occurs nowhere there |
| Calibration.RFindBelow | day01/src/lib.rs:18-20 | `rfind`: the last offset below `upto` where the pattern occurs, and `None` exactly when there is none |
| Calibration.LeftmostIdx | day01/src/lib.rs:7-14 | `i32::MAX` exactly when the pattern does not occur, otherwise the offset of its first occurrence |
| Calibration.RightmostIndex | day01/src/lib.rs:16-23 | `i32::MIN` exactly when the pattern does not occur, otherwise the offset of its last occurrence |
| Calibration.MinByKey | day01/src/lib.rs:34-38 | `min_by_key`: the index of a least key, the first one among ties |
| Calibration.MaxByKey | day01/src/lib.rs:39-43 | `max_by_key`: the index of a greatest key, the last one among ties |
| Calibration.ParseLine | day01/src/lib.rs:33-46 | the tens digit comes from a checker whose pattern occurs earliest and the units digit from one whose pattern occurs latest; with the digits 1 to 9 the value lies between 11 and 99 |
| Calibration.Part2Checker | day01/src/lib.rs:76-98 | eighteen checkers: the nine digit checkers of part 1, then the words for 1 to 9 in order |
| Calibration.Part1 | day01/src/lib.rs:48-65 | with the digit checkers, the sum over n lines lies between 11·n and 99·n |
| Calibration.Part2 | day01/src/lib.rs:67-74 | with the digit and word checkers, the sum over n lines lies between 11·n and 99·n |
| Calibration.ParseLineRange | day01/src/lib.rs:33-46 | with checkers for the digits 1 to 9, every line's value lies between 11 and 99 |
| Calibration.CheckersWellBuilt | day01/src/lib.rs:49-98 | both checker lists hold the digits 1 to 9 in order, and no pattern is a prefix of another |
| Calibration.FirstDigitIsEarliest | day01/src/lib.rs:34-38 | the first digit is that of the checker whose pattern occurs earliest in the line |
| Calibration.LastDigitIsLatest | day01/src/lib.rs:39-43 | the last digit is that of the checker whose pattern occurs latest in the line |
| Calibration.NoMatchLine | day01/src/lib.rs:33-46 | a line without any match gets the first checker's digit as tens and the last checker's as units |
| Calibration.ParseOne | day01/src/lib.rs:122-126 | the unit test: "one" reads as 11 with the second checker list |
| Calibration.SumLines | day01/src/lib.rs:60-64 | the sum over n lines lies between 11·n and 99·n |
| CubeGames.FoldMentions | day02/src/lib.rs:44-53 | a colour never mentioned in a draw counts 0, and a mentioned colour gets its last mentioned count |
| CubeGames.MaxDraw | day02/src/lib.rs:88-96 | per colour, the fold is at least every draw's count and equals one of them, or is 0 |
| CubeGames.PossibleIffMaxima | day02/src/lib.rs:75-79 | a game passes the filter exactly when its per-colour maxima are within 12, 13 and 14 |
| CubeGames.Part1 | day02/src/lib.rs:70-82 | the sum is 0 exactly when every possible game has id 0 |
| CubeGames.Power | day02/src/lib.rs:88-98 | the power is 0 exactly when some colour appears in no draw |
| CubeGames.Part2 | day02/src/lib.rs:84-101 | the sum is at least the power of every game |
| CubeGames.EmptyGame | day02/src/lib.rs:70-101 | a game without draws is possible and has power 0 |
| CubeGames.PowerBound | day02/src/lib.rs:88-98 | the power is at least the product of any single draw's counts |
| CubeGames.Part1Bounds | day02/src/lib.rs:70-82 | the sum of the possible ids is at most the sum of all ids, and equal to it when every game is possible |
| GearRatios.CheckIdx | day03/src/lib.rs:38-41 | a cell is a symbol exactly when it lies in the grid and is neither a digit nor '.'; cells outside the grid count as '.' |
| GearRatios.TouchesPart | day03/src/lib.rs:43-75 | the four scans find a symbol exactly when one lies in the box one cell around the number |
| GearRatios.RunStart | day03/src/lib.rs:11-15 | where the run of digits ending at a column starts: every cell in it is a digit, and the cell before it is not |
| GearRatios.ValueAppend | day03/src/lib.rs:13-14 | `num_acc * 10 + digit` is the decimal value of the digits read so far |
| GearRatios.PartNumberAt | day03/src/lib.rs:17-24 | the number closed at a non-digit or at the row end is added exactly when it is positive and touches a symbol |
| GearRatios.ColumnStep | day03/src/lib.rs:11-25 | a digit extends the current run and closes nothing, and any other cell closes the run and starts a new one |
| GearRatios.Part1 | day03/src/lib.rs:5-35 | `part1` with the accumulators reset after every number is the sum of the positive numbers that touch a symbol |
| GearRatios.ScanRow | day03/src/lib.rs:8-31 | one row of the scan adds the part numbers closed in that row |
| GearRatios.CloseNumber | day03/src/lib.rs:17-24 | the amount added when a number closes is its part-number value |
| GearRatios.StaleLengthCounterexample | day03/src/lib.rs:17-24 | on the grid "*..." / "0.5.", `part1` as written gives 5 where the intended sum is 0 |
| GearRatios.StepAsWritten | day03/src/lib.rs:11-25 | one cell of the loop as written keeps the scan state whenever the accumulators were reset (a digit, a positive pending number, or no pending length); a non-digit with nothing pending changes nothing |
| GearRatios.RowAsWritten | day03/src/lib.rs:8-31 | on a row without zero-valued digit runs, the row as written adds the part numbers of that row |
| GearRatios.Part1AsWritten | day03/src/lib.rs:5-35 | on a grid without zero-valued digit runs, `part1` as written is the intended sum |
| Scratchcards.MatchCount | day04/src/lib.rs:45-47 | the number of entries of `yours` found in `winning`, duplicates counted: 0 exactly when none is found, all exactly when every one is |
| Scratchcards.MatchCountAppend | day04/src/lib.rs:57-61 | match counts add up over a split of `yours` |
| Scratchcards.DoublingIsPower | day04/src/lib.rs:48 | the doubling fold gives 0 for no matches and 2^(m−1) for m ≥ 1 matches |
| Scratchcards.Score | day04/src/lib.rs:45-48 | 0 points without matches, and 2^(m−1) for m ≥ 1 matches |
| Scratchcards.Part1 | day04/src/lib.rs:41-51 | the sum is 0 exactly when no card has a match |
| Scratchcards.Copies | day04/src/lib.rs:54-66 | every card ends with at least one copy |
| Scratchcards.NoMatchesNoWins | day04/src/lib.rs:63-66 | without any matches no card wins copies of another |
| Scratchcards.TotalCopiesBounds | day04/src/lib.rs:69 | the total is at least the number of cards, and equal to it when no card matches |
| Scratchcards.Propagate | day04/src/lib.rs:63-66 | processing card `idx` adds its count to the next `matches` entries, clipped to the end, and changes nothing else |
| Scratchcards.Part2 | day04/src/lib.rs:53-70 | `part2` is the total number of copies, at least the number of cards |
| SeedMaps.BuildMappings | day05/src/lib.rs:56-65 | every layer keeps its descriptions and gets its old mappings plus one per description, sorted by range start |
| SeedMaps.BuildLayer | day05/src/lib.rs:58-63 | one layer of `build_mappings`, with the same contract |
| SeedMaps.PushDescribed | day05/src/lib.rs:58-62 | the pushes append the mapping of each description in order |
| SeedMaps.BuiltFromParse | day05/src/lib.rs:56-65 | a freshly parsed layer ends sorted, with exactly one mapping per description |
| SeedMaps.ApplyLayer | day05/src/lib.rs:79-96 | a layer shifts the value by the offset of a mapping that contains it, or leaves it unchanged when no mapping contains it |
| SeedMaps.ApplyLayerFirst | day05/src/lib.rs:81-91 | the first mapping containing the value shifts it by its offset |
| SeedMaps.ApplyLayerNone | day05/src/lib.rs:96 | a value no mapping contains passes a layer unchanged |
| SeedMaps.PassesGap | day05/src/lib.rs:82-85 | values in a stretch that no mapping touches pass the layer unchanged |
| SeedMaps.ShiftsInRange | day05/src/lib.rs:87-90 | values inside the first mapping that covers a stretch all shift by its offset |
| SeedMaps.FindLocationWithRange | day05/src/lib.rs:75-100 | the location is the value after all layers, and the valid range ends past the seed; with non-negative values every seed in it lands at location + offset |
| SeedMaps.LayerStep | day05/src/lib.rs:79-97 | one layer of the walk keeps the location and the valid range in step |
| SeedMaps.Part1 | day05/src/lib.rs:66-73 | on sorted layers, the lowest location of the listed seeds, attained by one of them; `None` exactly when there are no seeds, where `unwrap` panics |
| SeedMaps.Part2 | day05/src/lib.rs:102-117 | no larger than the location of any seed in any range, and either `i64::MAX` or attained by one of them |
| BoatRaces.CountFaster | day06/src/lib.rs:19-26 | the number of hold times below `time` whose distance beats the record, at most `time` |
| BoatRaces.BeatsSymmetric | day06/src/lib.rs:21 | holding `t` and holding `time − t` travel as far, and holding 0 never wins |
| BoatRaces.WinnersContiguous | day06/src/lib.rs:20-25 | the winning hold times form one interval |
| BoatRaces.WinningBounds | day06/src/lib.rs:20-25 | at most n − 1 of the first n hold times win |
| BoatRaces.Part1 | day06/src/lib.rs:16-28 | `zip` cuts to the shorter list, the winning counts are multiplied, and the empty product is 1 |
| BoatRaces.AfterColon | day06/src/lib.rs:36-38 | `split_once(':')`: the text after the first ':', and `None` exactly when there is none |
| BoatRaces.RemoveSpaces | day06/src/lib.rs:39 | `replace(' ', "")` leaves no space and does not grow |
| BoatRaces.RemoveSpacesKeeps | day06/src/lib.rs:39 | every character other than a space is kept, as often as it occurs |
| BoatRaces.RemoveSpacesConcat | day06/src/lib.rs:39 | spaces are removed piece by piece, so the kept characters stay in their order |
| BoatRaces.Unsigned | day06/src/lib.rs:40 | one leading '+' is dropped, and nothing else changes |
| BoatRaces.ParseNumber | day06/src/lib.rs:40 | `parse::<u64>` succeeds exactly on an optional '+' followed by decimal digits, at least one, whose value fits in `u64`, and gives that value |
| BoatRaces.ParseDecimal | day06/src/lib.rs:40 | every `u64` value reads back from its decimal form, with or without a leading '+' |
| BoatRaces.ParseOverflow | day06/src/lib.rs:40 | 2^64 does not parse |
| BoatRaces.ParseLoneSign | day06/src/lib.rs:40 | "+", "" and "-1" do not parse |
| BoatRaces.DigitsConcat | day06/src/lib.rs:39-40 | the value of the joined digits is the first part shifted by the length of the second, plus the second |
| BoatRaces.ReadKerned | day06/src/lib.rs:33-41 | `None` exactly when the line has no ':' or the text after the first one, spaces removed, does not parse; the value fits in `u64` |
| BoatRaces.ReadKernedSign | day06/src/lib.rs:33-41 | "Time: +7" reads as 7 |
| BoatRaces.ReadKernedSpaces | day06/src/lib.rs:33-41 | "T: 7 15" reads as 715 |
| BoatRaces.Part2 | day06/src/lib.rs:31-60 | `None` exactly when a line fails to read; otherwise the winning count of the single kerned race, at most its time |
| CamelCards.Compare | day07/src/lib.rs:17 | `cmp` on integers: `Equal` and `Less` exactly when equal and smaller |
| CamelCards.CardCmp | day07/src/lib.rs:8-36 | `Card::cmp` orders cards by rank J < 2 … 9 < T < F < Q < K < A |
| CamelCards.RankInjective | day07/src/lib.rs:8-36 | different cards have different ranks |
| CamelCards.CardCmpTotalOrder | day07/src/lib.rs:8-36 | `Card::cmp` is a total order: `Equal` exactly on equal cards, antisymmetric and transitive |
| CamelCards.LeadingJokers | day07/src/lib.rs:59 | `take_while` counts the jokers at the front of the sorted hand |
| CamelCards.IsFiveOfAKind | day07/src/lib.rs:79-88 | the loop answers whether the jokers and the remaining cards make five of a kind |
| CamelCards.MakesFour | day07/src/lib.rs:89-96 | the window test holds exactly when the 4 − numJ cards from position numJ, or from numJ + 1, are all equal |
| CamelCards.MakesFullHouse | day07/src/lib.rs:98-112 | never with two jokers; on sorted cards a full house leaves only two distinct cards besides the jokers |
| CamelCards.MakesThree | day07/src/lib.rs:114-126 | always with two jokers; otherwise exactly when one of the three windows of 3 − numJ cards after the jokers is uniform |
| CamelCards.EqualNeighbours | day07/src/lib.rs:132 | 0 exactly when no two neighbours are equal, and at most one per neighbouring pair |
| CamelCards.CountPairs | day07/src/lib.rs:128-133 | at least the number of jokers, equal to it exactly when no two neighbours are equal, and at most one pair per neighbouring pair plus the joker |
| CamelCards.Classify | day07/src/lib.rs:61-76 | four or more jokers give five of a kind, three at least four of a kind, two at least three of a kind |
| CamelCards.JokersCounted | day07/src/lib.rs:56-59 | the leading jokers of the sorted hand are all the jokers of the hand |
| CamelCards.StandardTypeReordered | day07/src/lib.rs:55-77 | the hand type depends only on the cards, not on their order |
| CamelCards.HandTypeWithoutJokers | day07/src/lib.rs:55-77 | without jokers `hand_type` is the standard type by card counts |
| CamelCards.ReplaceJokers | day07/src/lib.rs:55-77 | every joker replaced by one card, the rest unchanged |
| CamelCards.BestAmong | day07/src/lib.rs:55-77 | a non-joker card at least as frequent as every other non-joker card |
| CamelCards.MostFrequentExists | day07/src/lib.rs:55-77 | every valid hand has such a most frequent card |
| CamelCards.HandTypeOf | day07/src/lib.rs:55-133 | `hand_type` is the standard type of the hand with every joker turned into a most frequent other card |
| CamelCards.FirstDifferenceFound | day07/src/lib.rs:149-155 | two different hands of equal length have a first differing card |
| CamelCards.CardsKeyOrder | day07/src/lib.rs:149-155 | the base-15 card key orders hands as their first differing card does |
| CamelCards.DrawCmp | day07/src/lib.rs:137-158 | `Draw::cmp` compares hand type first, then cards left to right, which is the order of one integer key |
| CamelCards.DrawCmpTotalOrder | day07/src/lib.rs:137-158 | `Draw::cmp` is a total order on valid draws with distinct hands |
| CamelCards.RewriteJacks | day07/src/lib.rs:219-225 | every 'J' becomes 'F', nothing else changes |
| CamelCards.RewriteJacksFacts | day07/src/lib.rs:216-226 | after the rewrite a hand has no joker, so its type is the standard type |
| CamelCards.RewriteKeepsDistinct | day07/src/lib.rs:219-225 | the rewrite keeps distinct hands distinct when no hand holds an 'F' |
| CamelCards.SortOrderIsUnique | day07/src/lib.rs:226 | any arrangement strictly ascending under `Draw::cmp` is the sorted one, so `sort` has one result |
| CamelCards.Score | day07/src/lib.rs:226-231 | the slice is sorted by the draw order, and the total is the rank-weighted sum of bids |
| CamelCards.Total | day07/src/lib.rs:227-231 | the sum of (rank + 1) · bid |
| CamelCards.Part1 | day07/src/lib.rs:216-232 | the winnings of the rewritten draws in sorted order |
| CamelCards.Part2 | day07/src/lib.rs:234-242 | the winnings of the draws in sorted order |
| DesertMap.Walk | day08/src/lib.rs:74-80 | the walk starts at `start`, and after a move it stands on the left or right neighbour of some node |
| DesertMap.FirstArrivalMeaning | day08/src/lib.rs:69-84 | the walk length is the least step that stands on a node ending in 'Z', and `None` exactly when none does within the bound |
| DesertMap.NoArrivalAfterDeadEnd | day08/src/lib.rs:75 | after a node without a mapping (a panic in the source) the walk never arrives |
| DesertMap.CycleLength | day08/src/lib.rs:69-84 | `get_cycle_length` returns the first arrival step |
| DesertMap.ArrivedAtStart | day08/src/lib.rs:73 | the length is 0 exactly when the start already ends in 'Z' |
| DesertMap.WalkRestarts | day08/src/lib.rs:72-80 | after whole rounds of instructions the walk continues as a fresh walk from where it stands |
| DesertMap.Part1 | day08/src/lib.rs:56-58 | the walk length from "AAA" |
| DesertMap.StopsAtAnyZ | day08/src/lib.rs:73 | part 1 stops at any node ending in 'Z', not only at "ZZZ" |
| DesertMap.Part2 | day08/src/lib.rs:60-67 | `None` exactly when some start does not arrive; otherwise the least common multiple of the walk lengths of all starts ending in 'A' |
| DesertMap.Part2Determined | day08/src/lib.rs:60-67 | that least common multiple does not depend on the order of the starts, and is 1 without starts |
| Divisibility.Gcd | day08/src/lib.rs:66 | the gcd that `num::integer` returns is positive unless both arguments are 0 |
| Divisibility.Lcm | day08/src/lib.rs:66 | the lcm is 0 exactly when one of the arguments is 0 |
| Divisibility.GcdDivides | day08/src/lib.rs:66 | the gcd divides both arguments |
| Divisibility.GcdGreatest | day08/src/lib.rs:66 | every common divisor divides the gcd |
| Divisibility.LcmMultiple | day08/src/lib.rs:66 | `lcm(a, b)` is a multiple of both |
| Divisibility.LcmLeast | day08/src/lib.rs:66 | `lcm(a, b)` divides every common multiple |
| Divisibility.LcmOfEmpty | day08/src/lib.rs:65 | the fold's start value 1 is the least common multiple of nothing |
| Divisibility.LcmOfInsert | day08/src/lib.rs:66 | one fold step gives the least common multiple of one more number |
| Divisibility.LcmOfUnique | day08/src/lib.rs:65-66 | a set has one least common multiple |
| Mirage.BuildPyramid | day09/src/lib.rs:14-19 | the difference rows are pushed until a row is all zero |
| Mirage.CalcNext | day09/src/lib.rs:13-37 | `calc_next` is the forward extrapolation: the last element plus the extrapolation of the difference row |
| Mirage.CalcPrev | day09/src/lib.rs:43-67 | `calc_prev` is the backward extrapolation: the first element minus that of the difference row |
| Mirage.ExtendedDiffs | day09/src/lib.rs:20-36 | the extended row's differences are the extended difference row, at either end |
| Mirage.ConstantRow | day09/src/lib.rs:13-37 | a constant row continues with the same constant both ways |
| Mirage.ExtrapolateNegate | day09/src/lib.rs:13-37 | negating the row negates the extrapolation |
| Mirage.BackIsReversedForward | day09/src/lib.rs:43-67 | extrapolating backwards is extrapolating the reversed row forwards |
| Mirage.Part1 | day09/src/lib.rs:39-41 | the sum of the forward extrapolations |
| Mirage.Part2 | day09/src/lib.rs:68-70 | the sum of the backward extrapolations |
| Mirage.Part2IsReversedPart1 | day09/src/lib.rs:39-70 | part 2 equals part 1 on the reversed rows |
| PipeMaze.Apply | day10/src/lib.rs:16-23 | a step reaches a neighbouring tile, from which the opposite step is possible |
| PipeMaze.ApplyOpposite | day10/src/lib.rs:16-23 | a step followed by the opposite step comes back, and no step stands still |
| PipeMaze.TurnDomain | day10/src/lib.rs:54-95 | `next_pos` is defined on exactly twelve (tile, direction) pairs |
| PipeMaze.TurnReversible | day10/src/lib.rs:54-95 | walking a pipe backwards leaves where the forward walk entered |
| PipeMaze.Turn | day10/src/lib.rs:59-93 | a turn happens only on one of the six pipe tiles and never sends the walk back the way it came |
| PipeMaze.NextPos | day10/src/lib.rs:54-95 | `None` off the grid and on a tile that is not a pipe; otherwise a neighbouring tile, left in a direction other than back |
| PipeMaze.IndexOf | day10/src/lib.rs:29 | `position`: the first index holding the character, and `None` exactly when there is none |
| PipeMaze.FindStartFrom | day10/src/lib.rs:27-36 | the first 'S' in row-major order from a given row on, and `None` exactly when none of those rows holds one |
| PipeMaze.FindStart | day10/src/lib.rs:26-37 | `find_start` returns the first 'S' in row-major order, and `None` exactly when no row holds one |
| PipeMaze.FirstBackMeaning | day10/src/lib.rs:43-49 | the loop length is the least step that is back on 'S', and `None` exactly when none is within the bound |
| PipeMaze.NoReturnAfterPanic | day10/src/lib.rs:54-95 | after a step off the grid or onto a tile that does not connect, the walk never returns |
| PipeMaze.WalkLoop | day10/src/lib.rs:40-49 | the walk returns the first return to 'S' and the set of positions visited |
| PipeMaze.Part1 | day10/src/lib.rs:39-52 | half of the number of tiles entered, and `None` exactly when there is no start or no return |
| PipeMaze.ScanCell | day10/src/lib.rs:115-158 | cells off the path and '-' change nothing; an on-path cell fails exactly when it is not a pipe; only the vertical pipe, 'F' and '7' flip the side, and the count never shrinks |
| PipeMaze.ScanFailurePersists | day10/src/lib.rs:155 | once a cell fails, the whole count fails |
| PipeMaze.CountInside | day10/src/lib.rs:112-161 | the nested loops compute the row-by-row scan count |
| PipeMaze.Part2 | day10/src/lib.rs:97-162 | the scan count over the loop's positions, with the start tile read as `start_char` |
| PipeMaze.RowCountsEnclosed | day10/src/lib.rs:112-161 | on a row crossed as a closed loop crosses it, the scan counts exactly the off-path cells with an odd number of crossings to their left |
| PipeMaze.GridCountsEnclosed | day10/src/lib.rs:112-161 | on such a grid the count of `part2` is the number of enclosed tiles by the parity rule |
| CosmicExpansion.RowGalaxies | day11/src/lib.rs:16-19 | the '#' positions of one row, left to right |
| CosmicExpansion.FindGalaxies | day11/src/lib.rs:11-22 | exactly the positions holding '#', in strictly increasing row-major order |
| CosmicExpansion.StepExpansion | day11/src/lib.rs:29-35 | after each galaxy of the sorted slice, the running expansion is the number of empty lines below its original coordinate |
| CosmicExpansion.ExpandAxis | day11/src/lib.rs:25-35 | sort by the coordinate, then shift every galaxy by (factor − 1) times the number of galaxy-free lines below its original coordinate |
| CosmicExpansion.ShiftSorted | day11/src/lib.rs:27-35 | the loop over the sorted slice shifts each galaxy by the empty lines below it, measured on coordinates before expansion |
| CosmicExpansion.Expand | day11/src/lib.rs:24-48 | the row pass, then the column pass |
| CosmicExpansion.ExpandedIsShiftEach | day11/src/lib.rs:24-48 | `expand` keeps the galaxies, reordered: each moved by (factor − 1) times the empty rows above it and the empty columns left of it |
| CosmicExpansion.ExpandFactorOne | day11/src/lib.rs:24-48 | with factor 1 no galaxy moves, and `expand` only reorders |
| CosmicExpansion.ShiftMonotone | day11/src/lib.rs:27-35 | for factor ≥ 1, strictly ordered lines stay strictly ordered and equal lines stay equal |
| CosmicExpansion.DistanceAfterExpansion | day11/src/lib.rs:50-72 | after expansion two galaxies are their old distance apart plus factor − 1 for every empty row and column between them |
| CosmicExpansion.PairSumPermutation | day11/src/lib.rs:55-59 | the sum over all pairs does not depend on the order of the galaxies |
| CosmicExpansion.SumOfDistances | day11/src/lib.rs:50-72 | find, expand in place, and sum `abs_diff` over all pairs: the pair sum of the galaxies shifted one by one |
| CosmicExpansion.Part1 | day11/src/lib.rs:50-60 | the pair sum with every empty line doubled |
| CosmicExpansion.Part2 | day11/src/lib.rs:62-72 | the pair sum with every empty line replaced by a million |
| SpringArrangements.ResolutionsExact | day12/src/lib.rs:27-59 | the list of resolutions holds exactly the strings that replace every '?' by '#' or '.' |
| SpringArrangements.ResolutionsCount | day12/src/lib.rs:27-59 | there are 2^(number of '?') resolutions |
| SpringArrangements.ResolutionsDistinct | day12/src/lib.rs:27-59 | no resolution is listed twice |
| SpringArrangements.WaysIsPending | day12/src/lib.rs:27-59 | the arrangement count equals the count of the cell-by-cell automaton |
| SpringArrangements.PendingNoGroups | day12/src/lib.rs:28-34 | without groups there is one arrangement when every cell may be operational, else none |
| HotSprings.CanPlaceGroup | day12/src/lib.rs:61-73 | a group fits at the front exactly when its cells may be damaged and the cell after it, if any, may be operational |
| HotSprings.PlaceGroups | day12/src/lib.rs:28-34 | without groups at most one arrangement: none while a '#' remains, one when every cell is '.' |
| HotSprings.NoGroupsInOperational | day12/src/lib.rs:41-54 | groups never fit into a row of '.' cells: the count is 0 |
| HotSprings.PlaceGroupsCorrect | day12/src/lib.rs:27-59 | `place_groups` counts exactly the resolutions whose damaged runs are the group list |
| HotSprings.PlaceGroupsMemo | day12/src/lib.rs:27-59 | the memoised recursion returns the un-memoised count and keeps every memo entry correct |
| HotSprings.FindCombinations | day12/src/lib.rs:22-25 | with a fresh memo table, the number of arrangements of the row |
| HotSprings.TotalCountIsTotalWays | day12/src/lib.rs:75-77 | the summed counts are the summed arrangement numbers |
| HotSprings.Part1 | day12/src/lib.rs:75-77 | the sum of the arrangement counts of all rows |
| HotSprings.UnfoldFields | day12/src/lib.rs:82-87 | the fields repeated `repeat` times, joined by '?' |
| HotSprings.UnfoldedLength | day12/src/lib.rs:82-87 | the unfolded fields are repeat · n + repeat − 1 long |
| HotSprings.RepeatSum | day12/src/lib.rs:88 | the repeated group list sums to repeat times the original sum |
| HotSprings.UnfoldOnce | day12/src/lib.rs:79-89 | unfolding once changes nothing |
| HotSprings.UnfoldFeasible | day12/src/lib.rs:79-89 | an unfolded row still has room for its groups |
| HotSprings.Part2 | day12/src/lib.rs:79-92 | every row is unfolded in place, and the result is the sum of the counts of the unfolded rows |
| Sorting.SortByKey | day05/src/lib.rs:63 | the result is ordered by the key and is a permutation of the input |
| Sorting.InsertSorted | day05/src/lib.rs:63 | inserting into a sorted list keeps it sorted |
| Sorting.SortInPlace | day11/src/lib.rs:26 | the slice afterwards holds its old contents sorted by the key |
| Sorting.SortedUnique | day07/src/lib.rs:226 | two sorted permutations of each other under an injective key are equal |

## Left out

- Parsing (`parse`, the `nom` parsers, `split_once`/`lines` plumbing) is not modelled, except the day 6 part 2 line reading. The models take the parsed values.
- The `#[test]` functions and the `Debug` implementations are left out, except the unit test modelled by `Calibration.ParseOne`.
- Machine integers (`u32`, `u64`, `i32`, `i64`, `isize`, `usize`) are unbounded `int`/`nat`. Overflow, which panics in debug builds and wraps in release builds, is not modelled. Exceptions are the `i32::MAX`/`i32::MIN` sentinels of day 1 and the `i64::MAX` start value of day 5, which are kept as constants, and the `u64` range of `parse::<u64>` on day 6, where a value above `u64::MAX` fails to parse.
- Calibration.ParseLine: requires a non-empty checker list, where `min_by_key(...).unwrap()` panics. Both lists the source passes are constants of nine and eighteen checkers. It also requires lines shorter than `i32::MAX`, so that the `as i32` offsets do not wrap.
- Calibration: lines are sequences of characters. The source's `find`/`rfind` return byte offsets, which agree with character offsets only on ASCII text.
- DesertMap.CycleLength and PipeMaze.WalkLoop: the walks of the source may run forever. They carry a `fuel` bound, and `None` stands for "no arrival within the bound" as well as for the panic on a missing key or an `unreachable!` tile.
- DesertMap.Part2: `HashMap::keys` yields keys in an unspecified order. The model picks starts in arbitrary order and proves the result does not depend on it. `u64` overflow of the lcm is not modelled.
- SeedMaps.BuildMappings: `BuiltFrom` states the sorted result as a permutation of the old mappings plus the new ones, sorted by start. It does not state the stable order among mappings with equal starts.
- SeedMaps.Part1: requires layers sorted by range start, which `build_mappings` produces (`SeedMaps.BuiltFromParse`). The walk of `find_location_with_range` relies on that order.
- SeedMaps.Part2: requires every seed range to start at a non-negative seed, and every mapping to send its range to non-negative values. Without these the skip-ahead can land on a value that is not covered. Those inputs are not modelled.
- SeedMaps.FindLocationWithRange: the offset property of the valid range is stated only for non-negative seeds and destinations, for the same reason.
- CamelCards: hands must have five cards from the alphabet "23456789TJQKA", plus 'F' after the part 1 rewrite. `Draw::cmp` requires two different draws to have different cards, where the source hits `unreachable!`.
- CamelCards.RewriteKeepsDistinct: requires that no hand already holds an 'F'. Real inputs do not.
- PipeMaze.GridCountsEnclosed: the shape of a closed loop along a row (`WellFormedRow`) is a hypothesis. It is not derived from the walk.
- PipeMaze.Part2: with a `start_char` that is not a pipe, the scan meets an `unreachable!`. The model returns `None` there.
- CosmicExpansion.ExpandedIsShiftEach: requires non-negative coordinates, which `find_galaxies` guarantees. `ExpandAxis` itself is modelled for any coordinates: gaps are then counted from the smallest coordinate when it is negative.
- CosmicExpansion.DistanceAfterExpansion: requires non-negative coordinates and a factor of at least 1. Part 1 uses 2 and part 2 uses 1000000.
- CosmicExpansion.ShiftMonotone: requires a factor of at least 1. With a factor of 0 or below, empty lines shrink and the order can change.
- CosmicExpansion.ExpandAxis: the source writes the row pass and the column pass out twice. The model writes one pass parameterised by the axis and calls it twice.
- Sorting.SortByKey: the insertion sort keeps elements with equal keys in their input order, as the standard library's stable sort does. Its contract states only order and permutation.
- HotSprings: group sizes must be positive, and the fields must have room for all groups (`Feasible`). A group of size 0 can let the loop reach `fields[i]` with `i == fields.len()` (day12/src/lib.rs:50), an index panic. A row without room makes `fields.len() - min_required_space` underflow (day12/src/lib.rs:42).
- HotSprings.PlaceGroupsCorrect: the link to the specification also needs fields made of '#', '.' and '?' only.

## Findings

| source | as written | input that shows it | evidently intended | confidence | as-written member | corrected member |
|---|---|---|---|---|---|---|
| day03/src/lib.rs:17-24 | `num_acc` and `len_acc` are reset only when `num_acc > 0`, so a number with value 0 leaves its length behind and the next number's box reaches too far left | the grid "*..." / "0.5.": the 5 is counted because of the '*' above the 0, giving 5 | reset after every run of digits, so only positive numbers next to a symbol count; the sum is 0 here | not executed | GearRatios.StaleLengthCounterexample | GearRatios.Part1 |
