# Advent of Code 2021 puzzle cores in Dafny

This project models the computational cores of twenty small Python puzzle
scripts (Advent of Code 2021, days 1 to 20). Each script is independent; each
becomes one Dafny module in its own file (`day01.dfy` … `day20.dfy`), and
`common.dfy` holds the shared vocabulary: the Python exceptions a script can
raise (as the `Error` datatype of a `Result`), sums, `str.strip`, `str.split`,
`int()` on ASCII literals and a sort.

Every script reads its puzzle input from a file and prints through a command
line interface. Neither is modelled: each model starts from the lines, numbers
or trees that the reading code produces. An exception the script would raise
on some input is modelled as an `Err` result where the model can follow
it. A few members instead exclude such inputs with a precondition, and each
is named under "## Left out" (among them `Day11Octopus.FlashOctopus`,
`Day11Octopus.SimulateRound`, `Day12Caves.FindPaths` and
`Day15Chiton.FindLowestRiskLevel`).

## Model

| member | source | states |
|---|---|---|
| `Decimal.ParseInt` | day4.py:116 | `int()` of a token succeeds exactly when it is an optional sign followed by one or more ASCII digits; anything else is the ValueError |
| `Decimal.ParseInts` | day4.py:116 | a list of tokens parses exactly when every token is a literal, giving one value per token, each that token's `int()` |
| `Decimal.ParseRenderInt` | day4.py:116 | the decimal rendering of every integer, sign included, reads back as that integer |
| `Text.TrimStartShape` | day4.py:109 | stripping the front removes a prefix made only of whitespace and leaves a string that does not start with whitespace |
| `Text.TrimEndShape` | day4.py:109 | stripping the back removes a suffix made only of whitespace and leaves a string that does not end with whitespace |
| `Text.StripUnchanged` | day2.py:25 | a string that neither starts nor ends with whitespace is its own `strip()` |
| `Text.StripEmptyIffAllSpace` | day4.py:109-110 | `line.strip()` is empty, the blank-line test, exactly when the line is all whitespace |
| `Text.Split` | day4.py:116 | `str.split(sep)` gives at least one piece and no piece contains the separator |
| `Text.JoinSplit` | day4.py:116 | joining the pieces of `str.split(sep)` with the separator gives the string back |
| `Text.NonEmpty` | day4.py:116 | the pieces kept by `if character` are non-empty pieces of the split, and every non-empty piece is kept |
| `Common.SortAscending` | day10.py:92 | `sort()` leaves the scores in ascending order and a permutation of the input |
| `Day1Sonar.CountIncreases` | day1.py:29-35 | the count equals the number of indices i > 0 with s[i-1] < s[i] |
| `Day1Sonar.IncreasesBound` | day1.py:29-35 | a sequence of n readings has at most n-1 increases (none when empty) |
| `Day1Sonar.StrictlyIncreasingCountsAll` | day1.py:22-27 | a strictly increasing sequence of length n has exactly n-1 increases |
| `Day1Sonar.ExampleIncreases` | day1.py:22-27 | the documented example gives 7 and the empty input gives 0 |
| `Day1Sonar.WindowSums` | day1.py:83-92 | a window longer than the input is the ValueError of parsing an empty line; otherwise the n-w+1 sums of w consecutive readings, in order |
| `Day1Sonar.WindowOfOne` | day1.py:73-74 | a window of one reproduces the readings |
| `Day1Sonar.WindowRisesIffEnteringExceedsLeaving` | day1.py:84-91 | consecutive window sums rise exactly when the reading entering the window exceeds the one leaving it |
| `Day2Dive.CourseUpdate` | day2.py:22-29 | a line is accepted iff its stripped form ends in a digit, and then moves by exactly that last digit; "forward" moves only horizontally, every other line only vertically, "down" lines down and lines that start with neither "forward" nor "down" up |
| `Day2Dive.RenderedShape` | day2.py:24-26 | a rendered command is its own strip and starts with "forward" / "down" exactly when it is that command |
| `Day2Dive.CourseUpdateSingleDigit` | day2.py:24-29 | every command with a single-digit amount reads back as its meaning |
| `Day2Dive.CourseUpdateDropsLeadingDigits` | day2.py:25 | "forward 10" is read as a move of 0 instead of 10 |
| `Day2Dive.CourseUpdateCorrected` | day2.py:22-29 | the corrected reading accepts the same lines as the original |
| `Day2Dive.CourseUpdateCorrectedRoundTrip` | day2.py:22-29 | the corrected reading gives back every rendered command, whatever its amount |
| `Day2Dive.CourseUpdates` | day2.py:22-29 | the parsed list has one update per line, each the reading of that line |
| `Day2Dive.FinalPosition` | day2.py:49-52 | part one's position is the componentwise sum of all updates |
| `Day2Dive.FinalPositionWithAim` | day2.py:64-69 | part two's aim is the running vertical sum and the depth adds forward times the aim after each update |
| `Day2Dive.TurningDoesNotMove` | day2.py:66-68 | an up/down update changes the aim but neither the horizontal position nor the depth |
| `Day2Dive.LevelCourseStaysAtSurface` | day2.py:64-68 | without vertical updates the aim and the depth stay 0 |
| `Day2Dive.ExamplePositions` | day2.py:16-20 | the documented course gives 150 for part one and 900 for part two |
| `Day3Diagnostic.IntListToBinAppend` | day3.py:84 | appending a digit doubles the value and adds the digit |
| `Day3Diagnostic.BinaryBounds` | day3.py:84 | n binary digits denote a value in [0, 2^n) |
| `Day3Diagnostic.Complement` | day3.py:105 | the epsilon row has a 1 exactly where the gamma row has a 0 |
| `Day3Diagnostic.ComplementSum` | day3.py:105-107 | gamma plus epsilon is 2^n - 1 for a binary gamma row |
| `Day3Diagnostic.ExampleIntListToBin` | day3.py:72-84 | the documented conversions: [0,1] is 1, [1,0,1,0,1,0,1] is 85, [2,5,7] is 25, [] is 0 |
| `Day3Diagnostic.MinWidth` | day3.py:56 | zip keeps the length of the shortest row |
| `Day3Diagnostic.AddColumns` | day3.py:56 | the running column totals are truncated to the shorter operand |
| `Day3Diagnostic.MostCommonBits` | day3.py:53-58 | an empty input raises StopIteration; otherwise one bit per column of the shortest row, 1 iff twice the column total reaches the row count (ties give 1) |
| `Day3Diagnostic.SelectKeeps` | day3.py:125-127 | a round keeps exactly the rows whose digit at the position equals (oxygen) or differs from (CO2) the criteria bit, and never more copies of a row than the input has |
| `Day3Diagnostic.SelectCounts` | day3.py:125-127 | a kept row keeps every one of its duplicates and a dropped row keeps none |
| `Day3Diagnostic.SelectAppend` | day3.py:125-127 | the list comprehension works row by row in input order: selecting from a concatenation concatenates the selections |
| `Day3Diagnostic.SelectCountsOnes` | day3.py:125-127 | on binary rows the oxygen selection of 1s keeps as many rows as the column total, and of 0s the rest |
| `Day3Diagnostic.SelectPartitions` | day3.py:125-134 | the oxygen and CO2 selections for one criteria bit together keep every row once |
| `Day3Diagnostic.MajoritySelectionNonEmpty` | day3.py:124-127 | keeping the majority bit never empties a non-empty set of binary rows |
| `Day3Diagnostic.DistinctRowsDisagree` | day3.py:123 | distinct rows of one width cannot agree on all digits |
| `Day3Diagnostic.OxygenRound` | day3.py:123-128 | an oxygen round keeps a non-empty set of rows that agree on one more leading digit |
| `Day3Diagnostic.Rating` | day3.py:120-138 | the loop's result is `RatingRounds`, the recursive definition of the rounds (keep the rows matching the column's criteria bit, move one column on, stop at one row, IndexError when no row is left or a column is past the shortest row); the rating is one of the input rows; an empty input is an IndexError; the oxygen rating of distinct binary rows of one width always exists |
| `Day3Diagnostic.SharingSelect` | day3.py:124-127 | the round at the column just past p on the rows that begin with p keeps exactly the rows that begin with p extended by the kept bit, in input order |
| `Day3Diagnostic.RoundsFollow` | day3.py:122-135 | a rating reached from the rows sharing a prefix begins with that prefix and is favoured at every later column |
| `Day3Diagnostic.FollowLast` | day3.py:122 | once at most one row shares the prefix, that row is the rating and no longer prefix is shared by two rows |
| `Day3Diagnostic.RatingFavours` | day3.py:120-138 | a rating is an input row, and at every column where more than one input row shares its digits so far, its digit is the most common bit of those rows (oxygen, ties to 1) or the least common one (CO2 on binary rows, ties to 0) |
| `Day4Bingo.Where` | day4.py:46 | the cells holding the number, in row-major order |
| `Day4Bingo.MatchesAreCellsHoldingNumber` | day4.py:46 | the reported cells are exactly the cells holding the number, each once |
| `Day4Bingo.BingoBoard.constructor` | day4.py:19-23 | a new board has all counters and hits at zero |
| `Day4Bingo.BingoBoard.PlayRound` | day4.py:46-53 | a number on two or more cells raises and changes nothing; on no cell changes nothing; on one cell (r, c) raises row r's and column c's counters by one, sets that hit, and lowers the unmarked sum by the number if the cell was not hit yet |
| `Day4Bingo.BingoBoard.Mark` | day4.py:50-53 | the counter and hit updates of one marked cell, and nothing else |
| `Day4Bingo.BingoBoard.FinishedIffLineComplete` | day4.py:72 | while no cell was marked twice, the board is finished exactly when some row or column is fully hit |
| `Day4Bingo.RowCountIsMarkedColumns` | day4.py:51 | with distinct marks a row counter is the number of marked columns of that row |
| `Day4Bingo.ColCountIsMarkedRows` | day4.py:52 | with distinct marks a column counter is the number of marked rows of that column |
| `Day4Bingo.MarkingRemovesCell` | day4.py:53 | marking an unmarked cell removes exactly its value from the unmarked sum |
| `Day4Bingo.UnmarkedOfZeros` | day4.py:149-153 | on a board with no cell hit, the unmarked sum over the first i cells in row-major order is the sum of those cells |
| `Day4Bingo.CalcScore` | day4.py:149-154 | the score is the drawn number times the sum of the cells not hit |
| `Day4Bingo.GroupsSplitAtBlanks` | day4.py:108-115 | the groups hold no blank line and, concatenated, hold every non-blank line in order |
| `Day4Bingo.AssignRow` | day4.py:117 | a row index past 5 is an IndexError; five values fill the row, one value is broadcast, any other count is a ValueError; other rows are untouched |
| `Day4Bingo.FillBoard` | day4.py:116-118 | a group fills a board exactly when it has at most five lines, each parsing to five values or one; row k is then line k's five values, or its one value broadcast, and the rows below the last line stay zero |
| `Day4Bingo.PendingErrorFinal` | day4.py:108-119 | once a line raises, the later lines do not change the outcome |
| `Day4Bingo.ReadBoards` | day4.py:106-119 | the boards are those of the blank-separated groups: each non-empty group closed by a blank line, then always the last group; the first malformed line raises |
| `Day5Vents.Normalise` | day5.py:36-41 | a line is kept iff it is horizontal, vertical or at 45 degrees; straight lines get ascending coordinates, diagonals keep their endpoints |
| `Day5Vents.SliceBound` | day5.py:80 | a slice bound lies in [0, n] and a bound already in range is unchanged |
| `Day5Vents.StraightCoversBox` | day5.py:80 | a straight segment inside the field raises exactly the cells of its bounding box, once each |
| `Day5Vents.DescendingSliceIsEmpty` | day5.py:80 | a straight segment whose coordinates descend raises no cell |
| `Day5Vents.DiagonalCellsOnce` | day5.py:75-78 | a diagonal inside the field raises each of its points (one per step from x1 to x2) once and no other cell |
| `Day5Vents.StepOfPoint` | day5.py:78 | the i-th point of a diagonal is i steps from its start on both axes |
| `Day5Vents.PointOfStep` | day5.py:78 | a cell i steps from the start on both axes is the i-th point |
| `Day5Vents.StraightOnly` | day5.py:79 | the filtered segments are all straight |
| `Day5Vents.WithoutDiagonals` | day5.py:73-80 | without diagonals every counter is what the straight segments alone give |
| `Day5Vents.CountStep` | day5.py:73-80 | each further segment adds its own hits to every counter |
| `Day5Vents.MisfitStays` | day5.py:74-78 | one diagonal leaving the field makes the whole input raise |
| `Day5Vents.OverlapsBound` | day5.py:82 | the number of overlapping cells is at most the number of cells |
| `Day5Vents.AddStraight` | day5.py:80 | the slice update raises exactly the cells the clipped slice covers, by one |
| `Day5Vents.AddDiagonal` | day5.py:75-78 | succeeds iff every point of the diagonal is a valid index, and then raises each counter by the number of points on it |
| `Day5Vents.CountOverlaps` | day5.py:82 | the result is the number of cells covered at least twice |
| `Day5Vents.CalcPointsOverlapping` | day5.py:71-82 | an IndexError iff a drawn diagonal leaves the field; otherwise the number of cells that two or more drawn segments cover |
| `Day6Lanternfish.Pad` | day6.py:65-66 | the padded distribution has length max(len, offset+1), starts with the input and continues with zeros |
| `Day6Lanternfish.Progress` | day6.py:67-71 | stepping keeps the number of buckets |
| `Day6Lanternfish.ProgressPopulation` | day6.py:64-71 | the result is the padded distribution stepped once per day (no step for a negative count) |
| `Day6Lanternfish.StepKeepsLength` | day6.py:69 | a day keeps the number of buckets |
| `Day6Lanternfish.StepAt` | day6.py:68-70 | bucket t after a day holds the next bucket (the old head for the last one), plus the old head at the respawn offset |
| `Day6Lanternfish.StepGrowsByHead` | day6.py:68-70 | a day adds exactly the old head to the population, which never shrinks |
| `Day6Lanternfish.ProgressNeverShrinks` | day6.py:67-70 | the population after any number of days is at least the starting one |
| `Day6Lanternfish.NoDaysIsPadding` | day6.py:64-71 | zero days return the padded input, which starts with the input |
| `Day6Lanternfish.Examples` | day6.py:51-60 | the documented progressions for one to three days, with offsets 6 and 1 |
| `Day6Lanternfish.CountOfAppend` | day6.py:26-27 | counting the fish at a timer distributes over concatenation |
| `Day6Lanternfish.CountOfAgeOne` | day6.py:35-39 | a fish at 0 restarts at the offset and adds one at the last timer; any other fish counts down |
| `Day6Lanternfish.CountAfterDay` | day6.py:35-39 | after a day, timer t holds the fish from t+1, plus those from 0 when t is the last timer or the offset |
| `Day6Lanternfish.NoneBeyond` | day6.py:25-27 | no fish is counted at a timer outside the buckets |
| `Day6Lanternfish.HistogramOfAgedFish` | day6.py:35-70 | the bucket step applied to the histogram of the fish is the histogram of the fish aged by one day |
| `Day7Crabs.CostPart2ClosedForm` | day7.py:11-33 | n steps cost n(n+1)/2 for n >= 0, and nothing for n <= 0 |
| `Day7Crabs.CostPart2Examples` | day7.py:24-31 | the documented costs 0, 1, 3 and 500500 for 0, 1, 2 and 1000 steps |
| `Day7Crabs.MaxOf` | day7.py:60 | the largest position is one of the positions and no position exceeds it |
| `Day7Crabs.Scan` | day7.py:59-66 | the result is the total at target 0 or at a scanned target reached through strictly falling totals, where the next scanned target would not fall |
| `Day7Crabs.OptimalPosition` | day7.py:36-66 | an empty list is a ValueError; otherwise the outcome of the scan over targets 1 to max-1 |
| `Day7Crabs.NeverWorseThanStart` | day7.py:59-66 | the result never exceeds the total at target 0 |
| `Day7Crabs.DescendsBelow` | day7.py:62-63 | along falling totals a later target is no worse than an earlier one |
| `Day7Crabs.ScanOutcomeUnique` | day7.py:59-66 | the scan's outcome is determined by the positions and the cost |
| `Day7Crabs.CostsAreConvex` | day7.py:11-39 | both costs have non-negative, never shrinking increments (the assumed absence of local minima) |
| `Day7Crabs.OneCrabConvex` | day7.py:61 | for one crab the increments of its cost grow along the targets |
| `Day7Crabs.TotalConvex` | day7.py:61 | the increments of the total grow along the targets |
| `Day7Crabs.RiseStays` | day7.py:60-65 | once the total stops falling it never falls below that value again |
| `Day7Crabs.ScanFindsMinimum` | day7.py:36-66 | with such a cost the scan stops at the least total over all targets it could reach |
| `Day7Crabs.AsWrittenMissesLargestPosition` | day7.py:60 | as written, a single crab at 1 is charged 1 although target 1 costs 0 |
| `Day7Crabs.OptimalPositionCorrected` | day7.py:36-66 | scanning up to the largest position itself, the result is the least total over every target from 0 to the largest position |
| `Day7Crabs.ExampleSmallLinear` | day7.py:49-50 | the documented example [0,1,2] with linear cost gives 2 |
| `Day7Crabs.ExampleSmallTriangular` | day7.py:51-52 | the documented example [0,1,2] with part two's cost gives 2 |
| `Day7Crabs.ExampleCrabsLinear` | day7.py:53-54 | the documented ten crabs with linear cost give 37 |
| `Day8Segments.LastOfLength` | day8.py:50-53 | the pattern found has n wires and is one of the patterns; finding none means no pattern has n wires |
| `Day8Segments.FindLast` | day8.py:50-53 | the search loop ends holding the last pattern with n wires, or nothing |
| `Day8Segments.LastSplit` | day8.py:56-57 | a six-wire pattern holding exactly one wire of the pair exists only if the pair's two wires differ |
| `Day8Segments.Resolve` | day8.py:56-64 | the loop leaves the mapping with the pair resolved by the last six-wire pattern that splits it, and unchanged when none does |
| `Day8Segments.MarkDigit` | day8.py:69-71 | one three-wire pattern sends each of its wires outside the pair to 'a' |
| `Day8Segments.MarkTop` | day8.py:67-71 | the loop sends every wire of every three-wire pattern outside the pair to 'a' and keeps the other entries |
| `Day8Segments.Without` | day8.py:77-80 | every wire kept is a wire of the pattern outside the dropped set |
| `Day8Segments.Filter` | day8.py:97-100 | the loop keeps, in order, the wires outside the dropped set |
| `Day8Segments.FindMapping` | day8.py:28-112 | a NameError when there is no two- or four-wire pattern, an AssertionError at the first stage whose size check fails, otherwise the mapping built stage by stage |
| `Day8Segments.SplitFresh` | day8.py:56-64 | resolving a pair of two new wires adds exactly two entries, valued hit and miss, and keeps every old entry |
| `Day8Segments.SplitStale` | day8.py:56-64 | resolving a pair that reuses an assigned wire adds at most one entry, so the size check after it fails |
| `Day8Segments.AssignFresh` | day8.py:67-72 | sending new wires to one segment adds exactly those wires, adds that segment as a value when there are any, and keeps every old entry |
| `Day8Segments.ExtrasOutsidePair` | day8.py:69-70 | no wire sent to 'a' is a wire of the two-wire pattern |
| `Day8Segments.StageTwo` | day8.py:56-64 | passing the first size check means a splitting pattern was found and the two wires got 'f' and 'c' |
| `Day8Segments.StageThree` | day8.py:67-72 | passing the second size check means exactly one extra wire, sent to 'a' |
| `Day8Segments.LaterStage` | day8.py:85-93 | a later stage passes its size check only when a splitting pattern resolves two new wires |
| `Day8Segments.NineShape` | day8.py:95-111 | from five assigned wires, success adds 'g' and 'e' and keeps the rest |
| `Day8Segments.FourShape` | day8.py:74-111 | from three assigned wires, success adds 'b', 'd', 'g' and 'e' and keeps the rest |
| `Day8Segments.StagesFrom` | day8.py:56-72 | the wires of the two-wire and three-wire stages keep their 'c'/'f' and 'a' in the final mapping, which uses all seven segments |
| `Day8Segments.StagesShape` | day8.py:47-111 | after the two-wire pattern, success means seven entries on the seven segments, the two-wire rule and the single 'a' wire |
| `Day8Segments.MappingShape` | day8.py:28-112 | on success the mapping has seven entries using each segment once; of the two-wire pattern's wires the one lit in the splitting six-wire pattern gets 'f', the other 'c'; the one extra wire of the three-wire patterns gets 'a' |
| `Day8Segments.DigitsOf` | day8.py:147-153 | when every pattern decodes there is one digit per pattern |
| `Day8Segments.DigitsCollected` | day8.py:147-153 | digits collected pattern by pattern, in order, are the decoded digits |
| `Day8Segments.TranslatePattern` | day8.py:149-151 | the inner loop succeeds exactly when every wire is in the mapping, and then yields the wires translated one by one |
| `Day8Segments.Decode` | day8.py:115-154 | a KeyError for a wire missing from the mapping or segments missing from the table; otherwise `int` of the digit string, a ValueError when there are no patterns |
| `Day8Segments.TableSorted` | day8.py:135-146 | every key of the seven-segment table is already in sorted order |
| `Day8Segments.TableLengths` | day8.py:135-146 | every table value is a decimal digit, and lengths 2, 3, 4 and 7 belong to 1, 7, 4 and 8 alone |
| `Day8Segments.CodesPermute` | day8.py:149-152 | two orders of the same wires translate to the same codes in some order |
| `Day8Segments.DigitIgnoresOrder` | day8.py:148-153 | a pattern and any reordering of it decode alike, errors included |
| `Day8Segments.DigitRoundTrip` | day8.py:148-153 | a digit's segments sent through a wiring and shown in any order decode, through the inverse mapping, to that digit |
| `Day8Segments.DigitsAreDecimal` | day8.py:135-153 | every decoded digit is a decimal digit |
| `Day8Segments.DecodeValue` | day8.py:154 | no patterns give a ValueError; otherwise the number is the decimal value of the digits, leading zeros allowed |
| `Day8Segments.DecodeRoundTrip` | day8.py:115-154 | a whole display wired through w and shown in any order decodes, through the inverse mapping, to the digits it spells |
| `Day8Segments.EasyByLength` | day8.py:177 | a decodable pattern has 2, 3, 4 or 7 wires exactly when it is a 1, 7, 4 or 8 respectively |
| `Day8Segments.FirstDecodeExample` | day8.py:128-129 | the documented decode of "cf fc acf" with the identity wiring is 117 |
| `Day8Segments.SecondDecodeExample` | day8.py:130-131 | the documented decode with wire b driving segment f is 117 |
| `Day8Segments.ThirdDecodeExample` | day8.py:132-133 | the documented decode with wires b and f swapped is 417 |
| `Day8Segments.CountEasyDigits` | day8.py:174-178 | the nested loops count the easy patterns over all displays |
| `Day8Segments.EasyCountPositions` | day8.py:176-178 | a display's count is the number of positions holding a pattern of 2, 3, 4 or 7 wires |
| `Day8Segments.EasyAreOneFourSevenEight` | day8.py:177 | when a display decodes, its easy patterns are exactly its 1s, 4s, 7s and 8s |
| `Day9Basins.CheckLow` | day9.py:52-62 | the four-neighbour test raises IndexError exactly when the row below is too short to hold the column, and otherwise answers whether the cell is strictly lower than every in-grid neighbour |
| `Day9Basins.AppendRowRisks` | day9.py:51-64 | one row appends the risks of its low cells, left to right; IndexError exactly when the next row is shorter than the first |
| `Day9Basins.FindRiskLevels` | day9.py:43-65 | the nested loops produce the specified risk list or the specified error (IndexError for an empty or short-rowed map, AssertionError for a longer row) |
| `Day9Basins.RowLowsMembers` | day9.py:51-64 | a row's low list holds exactly the low cells of that row left of the column |
| `Day9Basins.RowLowsOrder` | day9.py:51-64 | a row's low list is in increasing column order |
| `Day9Basins.LowsBeforeMembers` | day9.py:49-64 | the cells collected over the first r rows are exactly the low cells of those rows |
| `Day9Basins.LowsBeforeOrder` | day9.py:49-64 | the collected cells are in row-major order |
| `Day9Basins.RiskLevelsOfLowPoints` | day9.py:43-65 | the risk list exists exactly for a non-empty rectangular map, and is then height + 1 of every low point, each once, in row-major order |
| `Day9Basins.ExampleLowCells` | day9.py:38-39 | in the first documented map only the centre cell is a low point |
| `Day9Basins.RiskLevelsExample` | day9.py:38-39 | the first documented map gives the risk list [1] |
| `Day9Basins.PushesErrStays` | day9.py:100-104 | once a neighbour read raises IndexError, the rest of the neighbour loop is never reached |
| `Day9Basins.QueueNeighbours` | day9.py:100-104 | the neighbour loop appends the in-grid neighbours that are not 9, in the order up, right, down, left, or raises the IndexError of the first short row it reads |
| `Day9Basins.FillBasin` | day9.py:91-104 | the breadth-first loop yields what the flood specification gives from the start cell |
| `Day9Basins.FindSizeBasins` | day9.py:82-107 | the function as written, popped cells rebinding the row variable included, yields the specified result |
| `Day9Basins.FindSizeBasinsCorrected` | day9.py:82-107 | with the row variable kept, the function yields the corrected specified result |
| `Day9Basins.BasinClosed` | day9.py:103 | a basin holds its start and every open neighbour of its cells |
| `Day9Basins.BasinIsOpen` | day9.py:90 | a basin holds only cells whose height is not 9 |
| `Day9Basins.PushesOpen` | day9.py:100-104 | on rows long enough the neighbour loop queues exactly the open neighbours of the cell |
| `Day9Basins.FloodFills` | day9.py:94-104 | from a state of the loop the flood succeeds, adds exactly the basin of the start to the cells seen before it, counts the basin's cells, and that basin shares no cell with them |
| `Day9Basins.FloodFromStart` | day9.py:91-104 | from an unseen open start, with the seen cells a union of whole basins, the flood adds exactly the start's basin and its size is the basin's size |
| `Day9Basins.UnionHolds` | day9.py:98 | every basin found is inside the set of seen cells |
| `Day9Basins.UnionOfBasins` | day9.py:87-105 | whole basins found so far form a closed set of open cells whose size is the sum of the recorded sizes |
| `Day9Basins.UnionClosed` | day9.py:87-105 | a union of basins is closed under open neighbours and holds only open cells |
| `Day9Basins.UnionSize` | day9.py:87-105 | the recorded sizes of pairwise disjoint basins sum to the size of their union |
| `Day9Basins.UnionDisjoint` | day9.py:96-98 | a basin disjoint from each earlier basin is disjoint from their union |
| `Day9Basins.ScanStep` | day9.py:90-105 | adding the basin of an unseen open cell keeps the scan a list of distinct whole basins |
| `Day9Basins.ScanVisit` | day9.py:90-105 | a visit from an unseen open cell succeeds, appends that cell's whole basin and marks the cell seen |
| `Day9Basins.VisitFillsBasin` | day9.py:90-105 | the flood from an unseen open cell adds exactly its basin, disjoint from the cells already seen |
| `Day9Basins.SearchKeeps` | day9.py:88-105 | any property of scans that a visit keeps holds of the scan's result, and the corrected scan sees every open cell |
| `Day9Basins.VisitKeepsWholeBasins` | day9.py:90-105 | every visit keeps the scan a list of distinct whole basins |
| `Day9Basins.ScanFindsBasins` | day9.py:82-105 | on a map whose rows are long enough, both scans succeed and record distinct whole basins with their sizes; the corrected scan records every open cell |
| `Day9Basins.BasinSizesCorrected` | day9.py:82-107 | the corrected result is the basin sizes sorted ascending, and they sum to the number of cells that are not 9 |
| `Day9Basins.FloodReadable` | day9.py:94-104 | a successful flood has read every cell it marks seen |
| `Day9Basins.SearchFails` | day9.py:88-103 | a scan that reaches a row shorter than the first raises IndexError |
| `Day9Basins.BasinScanCorrectedOk` | day9.py:82-107 | the corrected result exists exactly when the map is non-empty and no row is shorter than the first |
| `Day9Basins.ExamplePushes` | day9.py:100-104 | on the map [[0,9,0],[0,0,9]] the neighbour loop queues the open neighbours of three cells |
| `Day9Basins.ExampleFlood` | day9.py:91-104 | on that map the flood from (0, 0) fills three cells and ends on (1, 0) |
| `Day9Basins.ExampleScanAsWritten` | day9.py:88-105 | on that map the scan as written finds one basin of three cells and stops |
| `Day9Basins.AsWrittenMissesBasin` | day9.py:95 | on that map the code as written returns [3] and never sees the open cell (0, 2), which the corrected scan counts |
| `Day10Syntax.IndexIn` | day10.py:47-49 | `list.index` on the opener or closer table finds c exactly when it is there, at its first position |
| `Day10Syntax.Completion` | day10.py:54 | the completion has one closer per open bracket, the i-th closing the i-th bracket from the top of the stack |
| `Day10Syntax.AnalyseLine` | day10.py:43-54 | the stack loop over one stripped line yields the specified outcome: the mismatching closer, the completion, or the IndexError or ValueError it raises |
| `Day10Syntax.OutcomesPerLine` | day10.py:41-54 | the generator yields each line's outcome in order, or raises the exception of the first line that fails |
| `Day10Syntax.FeedAppend` | day10.py:45-52 | reading s then t is reading t from the stack s leaves, unless s stopped or raised |
| `Day10Syntax.ClosersEmptyStack` | day10.py:47-54 | a string of closers empties a stack exactly when it is that stack's completion |
| `Day10Syntax.CompletionFinishes` | day10.py:53-54 | for an incomplete line, the completion is the one string of closers after which no bracket is left open |
| `Day10Syntax.CompletionCompletes` | day10.py:53-54 | an incomplete line with its completion appended leaves no bracket open |
| `Day10Syntax.CorruptStops` | day10.py:49-52 | a corrupt line stays corrupt at the same closer whatever follows it |
| `Day10Syntax.StoppedAt` | day10.py:49-52 | a read that stops does so at a closer that does not close the innermost open bracket of the text before it |
| `Day10Syntax.StopsAtMismatch` | day10.py:49-52 | a closer that does not close the innermost open bracket stops the read there |
| `Day10Syntax.CorruptIff` | day10.py:45-52 | a line is corrupt at c exactly when some position holds the closer c, the text before it reads without error, and its completion is non-empty and does not start with c |
| `Day10Syntax.CorruptIsCloser` | day10.py:74-75 | the reported character is always a closer, so part one's table lookup scores it 3, 57, 1197 or 25137 |
| `Day10Syntax.CorruptScoresBounds` | day10.py:74-75 | each corrupt line's closer adds between 3 and 25137 points |
| `Day10Syntax.SyntaxErrorScoreBounds` | day10.py:74-75 | part one's total exists exactly when every line reads, lies between 3 and 25137 points per corrupt line, and so is zero exactly when no line is corrupt |
| `Day10Syntax.OutcomesAppend` | day10.py:41-54 | the generator over two blocks of lines yields the first block's outcomes then the second's, or the exception of the first block, else of the second |
| `Day10Syntax.CorruptScoresAppend` | day10.py:74 | the list comprehension over the outcomes scores two blocks of outcomes block by block |
| `Day10Syntax.SyntaxErrorScoreAppend` | day10.py:74 | part one's total over two blocks of lines is the sum of the blocks' totals; an exception in the first block wins over one in the second |
| `Day10Syntax.WeightedSumShift` | day10.py:91 | starting the powers of 5 one higher multiplies the weighted sum by 5 |
| `Day10Syntax.CompletionScoreAppend` | day10.py:91 | appending a closer multiplies the score by 5 and adds the closer's points: the first closer is the most significant base-5 digit |
| `Day10Syntax.CompletionScoreInjective` | day10.py:87-91 | two strings of closers with the same score are equal |
| `Day10Syntax.NonEmptyScores` | day10.py:87-91 | a non-empty string of closers scores above zero |
| `Day10Syntax.MiddleScore` | day10.py:88-93 | the loop scores the incomplete lines, sorts the scores and takes the one at index floor(n / 2), or raises the exception of the analysis |
| `Day10Syntax.MiddleIsMedian` | day10.py:92-93 | the middle score exists exactly when some line is incomplete, and floor(n / 2) of the other scores are at most it and the rest at least it |
| `Day10Syntax.SortedSplit` | day10.py:92-93 | in a sorted sequence the element at index floor(n / 2) has the ones before it no larger and the ones after it no smaller |
| `Day11Octopus.CellsCard` | day11.py:166 | an n-by-m grid has n * m octopuses |
| `Day11Octopus.UnflashedDecreases` | day11.py:64 | marking an octopus with the sentinel lowers the number of unflashed octopuses, which bounds the recursion |
| `Day11Octopus.AfterChild` | day11.py:75-79 | the flash of a neighbour that reached 10 composes with the flash under way: levels stay "start plus one per flashed neighbour", and the flash counts add up |
| `Day11Octopus.NeverLower` | day11.py:72-74 | a cascade only raises levels: an octopus that has not flashed is at least at its starting level |
| `Day11Octopus.FlashOctopus` | day11.py:36-80 | from levels of at least -1 and an unflashed start, the grid ends in a state where the start has flashed, every unflashed octopus is raised once per neighbour that flashed, a raised octopus that has not flashed is at 9 or below, and the flashes come in an order in which each (the start aside) was raised to 10 by flashes before it; hence they are the least set closed under igniting, and the count returned is their number |
| `Day11Octopus.OrderLeast` | day11.py:72-79 | flashes listed so that each is ignited by those before it lie inside every set that is closed under igniting |
| `Day11Octopus.OrderedAppend` | day11.py:75-79 | the flashes of a neighbour's own cascade, listed after the flashes so far, still ignite in order when counted from the levels before the outer flash |
| `Day11Octopus.CascadedUnique` | day11.py:36-80 | the outcome of `flash_octopus` is determined: from the same levels and start, the levels (and so the count) are always the same |
| `Day11Octopus.FarNinesStayPut` | day11.py:69-79 | flashing (0, 0) in [[0, 0, 0, 9, 9]] makes one flash, and the far 9s stay at 9 |
| `Day11Octopus.ExampleFlash` | day11.py:56-57 | the docstring example: the 10 in the middle of a grid of 1s flashes alone, leaving 2s around a -1 |
| `Day11Octopus.VisitNeighbour` | day11.py:67-79 | one pass of the neighbour loop moves the flash from "neighbours from (i, j) on still to raise" to "from (i, j + 1) on", adding the flashes of the neighbour's own cascade to the count and extending the ignition order with them |
| `Day11Octopus.RaiseAll` | day11.py:114-116 | every level is raised by one |
| `Day11Octopus.FlashAll` | day11.py:117-121 | from non-negative levels, the grid ends in a cascade in which every octopus that has not flashed is at 9 or below, the flashes are the least set that holds every octopus at 10 or above and every octopus its flashed neighbours raise to 10, and the count is the number of octopuses that flashed |
| `Day11Octopus.SettlesUnique` | day11.py:117-121 | the flash phase of a round is determined: from the same raised levels it always ends in the same levels |
| `Day11Octopus.QuietPairStaysQuiet` | day11.py:117-121 | in [[8, 8]] no octopus flashes: the two 9s could only reach 10 by flashing each other |
| `Day11Octopus.ExampleRound` | day11.py:104-105 | the docstring example: the 9 in the middle of a grid of 0s flashes alone and the round ends with 2s around a 0 |
| `Day11Octopus.ResetFlashed` | day11.py:122-125 | the sentinel is set back to 0 in the columns before the bound, and a bound past the end of the rows is an index error raised in the first row, after that row has been reset |
| `Day11Octopus.SimulateRound` | day11.py:83-126 | as written: an empty grid is an index error; otherwise the round raises, flashes and resets columns below the number of rows, so a grid with fewer columns than rows is an index error and a wider grid keeps the sentinel in its last columns |
| `Day11Octopus.SimulateRoundCorrected` | day11.py:83-126 | with the reset covering every column: the grid after the round is the settled (least, hence unique) cascade of the raised levels with every flashed octopus at 0, and the count is the number that flashed |
| `Day11Octopus.RoundDigits` | day11.py:104-109 | from single-digit levels a round ends with single-digit levels, and the octopuses at 0 are exactly those that flashed |
| `Day11Octopus.SyncIffAllZero` | day11.py:166-171 | a round's flash count equals the number of octopuses exactly when every octopus is at 0 after it |
| `Day11Octopus.WideGridKeepsSentinel` | day11.py:123 | in the grid [[0, 9]] the reset loop as written leaves the flashed octopus at -1, and a reset over every column sets it to 0 |
| `Day11Octopus.SyncRound` | day11.py:165-172 | an empty grid is an index error; otherwise `history` holds the grid after each round, the first a round of the starting grid and each later one a round of the one before it (a settled cascade of the raised levels, then reset); the number returned is that of the first of these rounds after which every octopus is at 0, no earlier round ended that way, and the grid is left as after that round |
| `Day12Caves.Children` | day12.py:58-70 | every state queued for a cave's neighbours is at one of those neighbours and is what the visiting rules make of the move there; there are at most as many as neighbours |
| `Day12Caves.ChildrenHas` | day12.py:58-70 | every neighbour the visiting rules allow is queued |
| `Day12Caves.StepDecreases` | day12.py:59-70 | when no two big caves are neighbours, every move the rules allow lowers a bounded potential (small caves left, the unused second visit, being in a small cave), so the search ends |
| `Day12Caves.QueueNeighbours` | day12.py:58-70 | the neighbour loop appends the allowed states in neighbour order: a cave not yet recorded (recorded if small), or, in the second mode with no cave entered twice, a recorded cave other than "start" and "end", marked as the one entered twice |
| `Day12Caves.Expand` | day12.py:53-70 | visiting a state that is not at "end" replaces it in the queue by its children, keeping the number of paths still to be counted and lowering the number of states still to be visited |
| `Day12Caves.FindPaths` | day12.py:35-71 | the breadth-first loop returns the number of tails of the search tree from "start" |
| `Day12Caves.RecordsInitial` | day12.py:51 | the first queued state describes the walk consisting of "start" alone |
| `Day12Caves.RecordsStep` | day12.py:59-63 | a queued move extends the walk by the neighbour: the small caves on the walk are recorded and big ones never are, and the cave entered twice stays the only one |
| `Day12Caves.RecordsEnd` | day12.py:55-57 | a walk whose state is at "end" is a path through the caves |
| `Day12Caves.RecordsCanStep` | day12.py:59-70 | a walk that a path through the caves continues is not at "end", and the next cave of the path is one the rules allow |
| `Day12Caves.TailsSound` | day12.py:51-70 | every tail of a walk's state completes the walk to a path through the caves |
| `Day12Caves.TailsComplete` | day12.py:51-70 | every path through the caves that continues a walk is found among the tails of the walk's state |
| `Day12Caves.CountedPaths` | day12.py:35-71 | what is counted from "start" is exactly the walks from "start" that end on reaching "end", never re-enter "start", follow the table, and enter each small cave at most once or, in the second mode, at most one small cave twice |
| `Day12Caves.TailsDistinct` | day12.py:58-70 | when no neighbour is listed twice, no path is reached twice |
| `Day12Caves.CountIsNumberOfPaths` | day12.py:35-71 | when no neighbour is listed twice, the count is the number of distinct paths |
| `Day12Caves.DirectExample` | day12.py:46-47 | the documented table start-end gives 1 in either mode |
| `Day12Caves.BigCaveExample` | day12.py:48-49 | the documented table with the big cave A gives 1 in either mode |
| `Day13Origami.SkipNonDigits` | day13.py:25 | characters other than digits in front of the text are skipped: they add no number |
| `Day13Origami.RunFirst` | day13.py:25 | a maximal run of digits is read as one number, its decimal value (leading zeros included), before the numbers of the rest |
| `Day13Origami.ExtractListed` | day13.py:25 | numbers written in decimal with separators that hold no digit are read back exactly, in order |
| `Day13Origami.MinusIgnored` | day13.py:25 | a minus sign is not part of a number: the rendering of -n is read as n |
| `Day13Origami.ExtractPairExample` | day13.py:18-19 | "10,4" is read as [10, 4] |
| `Day13Origami.ExtractEmbeddedExample` | day13.py:20-21 | "x=408z" is read as [408] |
| `Day13Origami.ExtractFoldExample` | day13.py:22-23 | "fold along x=0" is read as [0] |
| `Day13Origami.FoldCoordMirror` | day13.py:70-72 | a folded coordinate lies on the kept side of the line at the same distance from it, a coordinate and its mirror image fold to the same place, and folding it again changes nothing |
| `Day13Origami.FoldPoint` | day13.py:70-72 | a folded dot is again a pair |
| `Day13Origami.FoldOnce` | day13.py:70-72 | folding every dot succeeds exactly when every dot is a pair; otherwise it is the ValueError of unpacking |
| `Day13Origami.FoldOnceMoves` | day13.py:70-72 | a fold keeps every dot, duplicates included, in order: the coordinate across the line stays when it is before the line and is mirrored to 2p minus itself otherwise, and the other coordinate does not change |
| `Day13Origami.FoldOnceIdempotent` | day13.py:70-72 | folding twice along the same line gives what folding once does |
| `Day13Origami.FoldNeverAddsDots` | day13.py:94-96 | a fold never raises the number of distinct dots that the set counts: dots only merge |
| `Day13Origami.Line` | day13.py:68-69 | an instruction has a fold line exactly when it contains a digit; otherwise reading its first number is the IndexError |
| `Day13Origami.Fold` | day13.py:51-73 | the loop returns the dots after applying the instructions one after the other, or the error of the first instruction that fails |
| `Day13Origami.FoldAllErrStays` | day13.py:67-68 | once an instruction fails, the later ones change nothing |
| `Day13Origami.FoldAllAppend` | day13.py:67 | folding by a list a + b is folding by a, then folding the result by b |
| `Day13Origami.FoldAllFirst` | day13.py:67-73 | the first instruction is applied first, the rest to its result |
| `Day13Origami.FoldAlongXExample` | day13.py:62-63 | the documented fold along x=0 gives [(-1, 0), (-1, 0)] |
| `Day13Origami.FoldAlongYExample` | day13.py:64-65 | the documented fold along y=3 gives [(1, 0), (-1, -4)] |
| `Day14Polymer.AddGet` | day14.py:54-55 | `counter[k] += n` raises the count of k by n and leaves every other count as it was; a missing key counts as 0 |
| `Day14Polymer.AddKeys` | day14.py:54-55 | after `counter[k] += n` the keys are the old keys and k; a counter keeps one entry per key, and positive counts stay positive when n is positive |
| `Day14Polymer.Expand` | day14.py:44 | one step of the polymer inserts the element of its rule into each adjacent pair: it keeps the first and last elements and turns length n into 2n - 1 |
| `Day14Polymer.ExpandWeight` | day14.py:52-56 | in the grown polymer each adjacent pair AB with rule C has become the two adjacent pairs AC and CB |
| `Day14Polymer.BreakdownStructure` | day14.py:52-56 | the loop fills a fresh counter entry by entry and returns exactly the step function's result, the KeyError included |
| `Day14Polymer.BreakdownOk` | day14.py:54 | the step succeeds exactly when every counted pair has a rule; otherwise it is the KeyError |
| `Day14Polymer.BreakdownWeighted` | day14.py:53-55 | each pair AB with rule C hands its count to both AC and CB: any weighting of the new counts equals the old counts weighted by the spread weights |
| `Day14Polymer.BreakdownShape` | day14.py:52-56 | the new counter has one entry per key, and its counts are positive when the old ones are |
| `Day14Polymer.BreakdownCounts` | day14.py:54-55 | the new count of a pair is what the pairs that produce it hand over, and the total number of pairs doubles |
| `Day14Polymer.InitialCounter` | day14.py:103-105 | the loop counts the adjacent pairs of the template left to right, into the counter the pair-counting function describes |
| `Day14Polymer.PairsWeighted` | day14.py:104-105 | the counted pairs are exactly the adjacent pairs of the template, occurrence by occurrence, with one entry per key and positive counts |
| `Day14Polymer.PairCountsRepresent` | day14.py:103-105 | the initial counter stands for the template: every weighting of its counts is that of the template's adjacent pairs |
| `Day14Polymer.InitialCounts` | day14.py:103-105 | the initial counter holds each adjacent pair once per occurrence, and len - 1 pairs in all (0 for an empty template) |
| `Day14Polymer.CoveredIffRuled` | day14.py:54 | a counter that stands for a polymer has a rule for each key exactly when each adjacent pair of the polymer has one |
| `Day14Polymer.StepRepresents` | day14.py:107-108 | one step of the counter stands for one step of the polymer, with positive counts |
| `Day14Polymer.StepsRepresent` | day14.py:107-108 | after n steps the counter stands for the polymer grown n times, whose last element is the template's; the counting meets the KeyError exactly when the growth meets a pair without a rule |
| `Day14Polymer.StepsErrStays` | day14.py:107-108 | once a step raises, the later steps are not reached |
| `Day14Polymer.CharsCounts` | day14.py:77-78 | each element is counted once for each pair it starts, weighted by the pair's count |
| `Day14Polymer.CharsKeys` | day14.py:77-78 | the counted elements are the first elements of the counted pairs, one entry each |
| `Day14Polymer.PathFirsts` | day14.py:79-80 | the first elements of the adjacent pairs plus the last element, counted once more, give each element's number of occurrences |
| `Day14Polymer.PathFirstKeys` | day14.py:79-80 | the first elements of the counted pairs and the last element are exactly the elements of the polymer |
| `Day14Polymer.CountsTally` | day14.py:76-80 | for a counter that stands for polymer t, the element counter holds each element of t once, with its number of occurrences in t |
| `Day14Polymer.SeqMax` | day14.py:81 | `max` of the counts is one of them and no smaller than any |
| `Day14Polymer.SeqMin` | day14.py:81 | `min` of the counts is one of them and no larger than any |
| `Day14Polymer.TallySpread` | day14.py:81 | max minus min of such counts is the occurrences of a most common element minus those of a least common one |
| `Day14Polymer.GetPuzzleAnswer` | day14.py:76-81 | the loop and `max - min` return the answer function's result; an empty template is the IndexError of `poly_template[-1]` |
| `Day14Polymer.AnswerMeaning` | day14.py:76-81 | for a counter that stands for polymer t ending in the template's last element, the answer is the count of the most common element of t minus that of the least common |
| `Day14Polymer.Polymerize` | day14.py:99-112 | the initial count, n steps and the answer return the spec result; the first step that raises ends the run |
| `Day14Polymer.PolymerMeaning` | day14.py:99-112 | an empty template is the IndexError, and a growth that meets a pair without a rule is the KeyError |
| `Day14Polymer.PolymerGrown` | day14.py:99-112 | when the polymer grows n times into t, the printed answer is the occurrences of the most common element of t minus those of the least common |
| `Day14Polymer.BreakdownExample` | day14.py:47-48 | `Counter(AB = 1)` with AB -> C becomes AC: 1, CB: 1 |
| `Day14Polymer.BreakdownTwoRulesExample` | day14.py:49-50 | `Counter(AB = 1, BC = 4)` with AB -> C and BC -> A becomes AC: 5, CB: 1, BA: 4 |
| `Day14Polymer.PuzzleAnswerExample` | day14.py:73-74 | the counter AC: 5, BA: 4, CB: 1 with template "ABC" gives 3 |
| `Day15Chiton.StepIffAdjacent` | day15.py:55-56 | the four row and column deltas reach exactly the cells one step up, right, down or left |
| `Day15Chiton.Wrap` | day15.py:78-79 | subtracting 9 while above 9 leaves a value in 1 to 9 that agrees with the input modulo 9, and leaves 1 to 9 unchanged |
| `Day15Chiton.TiledRisk` | day15.py:73-79 | the loop computes the tiled risk of a cell: the input's risk at the cell's position in its tile, plus the tile's row and column index, wrapped |
| `Day15Chiton.RiskRange` | day15.py:73-79 | for input risks 1 to 9 every tiled risk is again in 1 to 9 and equals the raised input risk modulo 9 |
| `Day15Chiton.LowestUnique` | day15.py:37-45 | the lowest total risk of a cell is one number |
| `Day15Chiton.PathExtend` | day15.py:80 | extending a path by an adjacent cell of the cave adds that cell's risk to its cost |
| `Day15Chiton.CostSplit` | day15.py:80 | a path costs at least a proper prefix of it plus the risk of its last cell |
| `Day15Chiton.BorderIsPath` | day15.py:86-87 | the bottom-right cell is reachable: the top row followed by the last column is a path to it |
| `Day15Chiton.GroundedPath` | day15.py:89-94 | an entry pushed for a neighbour carries the cost of a path ending next to it, so popping it gives a path to it of that cost plus its risk |
| `Day15Chiton.LowerBound` | day15.py:63-64 | every path to an unsettled cell leaves the settled region through a queued entry, so it costs at least the least queued distance plus the cell's risk |
| `Day15Chiton.PopLowest` | day15.py:64-83 | the cell of the least popped entry, if unsettled, gets its lowest total risk |
| `Day15Chiton.PopSettled` | day15.py:82-85 | a popped entry never undercuts the stored cost of a settled cell, so a stored cost is never overwritten |
| `Day15Chiton.SkipKeeps` | day15.py:65-85 | dropping an entry outside the cave or for a settled cell keeps the search state |
| `Day15Chiton.Pushes` | day15.py:89-94 | the four pushed entries carry the new cost and the neighbours in the order of the delta tables |
| `Day15Chiton.PushesGrounded` | day15.py:89-94 | every entry left in the queue after the pushes carries the cost of a real path |
| `Day15Chiton.SettleKeeps` | day15.py:82-94 | storing the lowest cost of the popped cell and pushing its neighbours keeps the search state |
| `Day15Chiton.QueueHoldsTarget` | day15.py:63-87 | the queue cannot run dry before the bottom-right cell is settled |
| `Day15Chiton.HeapPop` | day15.py:64 | `heappop` removes one entry that is least in tuple order (distance, then row, then column) and keeps all the others |
| `Day15Chiton.PushNeighbours` | day15.py:89-94 | the loop appends the four neighbour entries in order |
| `Day15Chiton.SearchSkip` | day15.py:65-85 | the skipped entries of the search loop keep its invariant |
| `Day15Chiton.SearchPop` | day15.py:82 | a stored cost is never above the popped cost of its cell |
| `Day15Chiton.SearchSettle` | day15.py:82-94 | storing the popped cost and pushing the neighbours keeps the search loop's invariant |
| `Day15Chiton.SearchEnd` | day15.py:63-87 | when the loop ends the bottom-right cell holds its lowest total risk |
| `Day15Chiton.Visit` | day15.py:65-85 | a popped entry outside the tiled cave, or one whose cost does not undercut its cell's table entry, is dropped and the search state is kept; otherwise its cell was unsettled, its cost is the entry's distance plus the cell's wrapped risk, the table records it, and settling it and queueing its neighbours keeps the search state |
| `Day15Chiton.FindLowestRiskLevel` | day15.py:37-98 | an empty input, an empty first row or no repetitions is the IndexError; otherwise the result plus the start's raw risk is the lowest total risk of a path from the top-left cell to the bottom-right one of the tiled cave |
| `Day15Chiton.PotentialBound` | day15.py:48-49 | a per-cell bound that the start meets and that rises by at most a cell's risk per step is below the cost of every path |
| `Day15Chiton.SmallCavePotential` | day15.py:48-49 | the table of lowest risks of the 3x3 example is such a bound |
| `Day15Chiton.SmallCavePath` | day15.py:48-49 | down, right, down, right is a path of total risk 20 through the 3x3 example |
| `Day15Chiton.SmallCaveExample` | day15.py:48-49 | the lowest total risk of the 3x3 example's last cell is 20, so the search returns 20 - 1 = 19 |
| `Bits.BitsValueBound` | day16.py:57-59 | a field of w bits read with `int(..., 2)` is below 2^w |
| `Day16Packets.BinValue` | day16.py:57-59 | reading back n written in w bits gives n when n is below 2^w |
| `Day16Packets.Slice` | day16.py:57-85 | a slice starting inside the bits is non-empty, at most as long as asked, and exactly the asked bits when they all exist |
| `Day16Packets.Literal` | day16.py:60-67 | a literal that parses ends after its start and leaves the version sum unchanged |
| `Day16Packets.MinOf` | day16.py:99-100 | `min` of non-empty values is one of them and no larger than any |
| `Day16Packets.MaxOf` | day16.py:101-102 | `max` of non-empty values is one of them and no smaller than any |
| `Day16Packets.Parse` | day16.py:34-110 | a packet that parses starts inside the bits and ends after its start |
| `Day16Packets.Operator` | day16.py:68-110 | an operator packet that parses ends after its start |
| `Day16Packets.ByLength` | day16.py:70-81 | sub-packets framed by a length end exactly that many bits after the start of the first |
| `Day16Packets.ByCount` | day16.py:82-90 | sub-packets framed by a count give exactly that many more values |
| `Day16Packets.ParseBitsTransmission` | day16.py:34-110 | the recursive procedure with its loops returns what the parser function gives: value, next position and version sum, or the same error |
| `Day16Packets.ReadLiteral` | day16.py:60-67 | the `while True` loop over the 5-bit groups computes the literal of the parser function |
| `Day16Packets.ReadByLength` | day16.py:70-81 | the loop that parses sub-packets until the length is used up computes the length framing of the parser function |
| `Day16Packets.ReadByCount` | day16.py:82-90 | the `for` loop over the counted sub-packets computes the count framing of the parser function |
| `Day16Packets.ApplyOperator` | day16.py:91-110 | the product loop and the operator chain compute sum, product, min, max and the three comparisons, with min/max of no values a ValueError, a comparison of fewer than two values an IndexError and any other type the AssertionError |
| `Day16Packets.Field` | day16.py:57-85 | a number below 2^w written in w bits at pos reads back as that number, and what follows it starts w bits later |
| `Day16Packets.Flag` | day16.py:66-70 | a single bit written at pos reads back, and what follows starts one bit later |
| `Day16Packets.GroupBits` | day16.py:64-66 | the first 5-bit group of a literal holds its continuation bit and its digit, and the other groups follow |
| `Day16Packets.LiteralEncode` | day16.py:60-67 | the encoded groups of a literal parse to the hexadecimal number of the groups and end right after the last group |
| `Day16Packets.LiteralMore` | day16.py:63-66 | a group with lead bit 1 adds its digit and hands on to the next group |
| `Day16Packets.LiteralLast` | day16.py:63-67 | a group with lead bit 0 adds its digit and ends the literal after it |
| `Day16Packets.LiteralHeader` | day16.py:56-62 | a header of type 4 hands the groups after it to the literal loop, with the version added to the sum |
| `Day16Packets.OperatorHeader` | day16.py:56-68 | a header of any other type hands the rest to the operator branch, with the version added to the sum |
| `Day16Packets.CountOperator` | day16.py:82-93 | with length type 1 the count after the flag bit decides how many sub-packets are parsed, and the operator applies to their values |
| `Day16Packets.LengthOperator` | day16.py:70-93 | with length type 0 the length after the flag bit decides where the sub-packets end, and the operator applies to their values |
| `Day16Packets.CountParse` | day16.py:82-90 | a counted operator packet whose header has been read parses its encoded sub-packets to their values, end and versions |
| `Day16Packets.LengthParse` | day16.py:70-81 | a length-framed operator packet whose header has been read parses its encoded sub-packets to their values, end and versions |
| `Day16Packets.OperatorBits` | day16.py:57-85 | the version, type, flag bit and length or count of an encoded operator read back, and its body follows |
| `Day16Packets.KindBits` | day16.py:59-85 | the type, flag bit and length or count of an encoded operator read back |
| `Day16Packets.FlagBits` | day16.py:70-85 | the flag bit and the length or count after it read back |
| `Day16Packets.ParseEncodeAt` | day16.py:34-110 | every well-formed packet, written anywhere in the bits, parses back to its value, the position right after its encoding, and the version sum plus its own and all nested versions |
| `Day16Packets.ParseLiteralAt` | day16.py:56-67 | the round trip for a literal packet |
| `Day16Packets.ParseOperatorAt` | day16.py:56-110 | the round trip for an operator packet |
| `Day16Packets.ParseOperatorFields` | day16.py:68-93 | the round trip for an operator packet laid out field by field |
| `Day16Packets.ParseCountFields` | day16.py:82-93 | the round trip for an operator packet with length type 1 |
| `Day16Packets.ParseLengthFields` | day16.py:70-93 | the round trip for an operator packet with length type 0 |
| `Day16Packets.ByLengthEncode` | day16.py:76-81 | the encodings of sub-packets parse, under a length equal to their total size, to their values in order, their end and their versions |
| `Day16Packets.ByLengthStep` | day16.py:76-81 | one sub-packet of a length-framed body parses, and the loop goes on with the rest or stops exactly at the end |
| `Day16Packets.ByCountEncode` | day16.py:87-90 | the encodings of n sub-packets parse, under a count of n, to their values in order, their end and their versions |
| `Day16Packets.ByCountStep` | day16.py:87-90 | one sub-packet of a counted body parses, and the loop goes on with the other count - 1 |
| `Day16Packets.KindBound` | day16.py:59 | a type field is below 8, even when the end of the bits cuts it short |
| `Day16Packets.LiteralFailsOnlyAtEnd` | day16.py:63-67 | the group loop fails only by running out of bits, with the ValueError of an empty slice |
| `Day16Packets.ParseNeverAsserts` | day16.py:59-110 | no bits make the parser reach the failing assert: every readable type is 4 or one the operator chain handles |
| `Day16Packets.OperatorNeverAsserts` | day16.py:68-110 | the operator branch, nested packets included, never reaches the failing assert |
| `Day16Packets.ByLengthNeverAsserts` | day16.py:76-81 | the length-framed loop never reaches the failing assert |
| `Day16Packets.ByCountNeverAsserts` | day16.py:87-90 | the counted loop never reaches the failing assert |
| `Day16Packets.HexValue` | day16.py:25 | a hexadecimal digit is worth less than 16 |
| `Day16Packets.HexBits` | day16.py:25-28 | the reference encoding has four bits per hexadecimal digit |
| `Day16Packets.Binary` | day16.py:25 | `bin(n)[2:]` has at least one digit |
| `Day16Packets.BinZero` | day16.py:26-27 | zero in w bits is w zeros |
| `Day16Packets.BinaryPadded` | day16.py:25-28 | the binary digits of n below 2^w are at most w, and padding them with zeros in front to w gives n in w bits |
| `Day16Packets.BinSplit` | day16.py:25 | q shifted left by m bits plus d below 2^m, in w + m bits, is q in w bits followed by d in m bits |
| `Day16Packets.HexBitsNumber` | day16.py:25-28 | the number of a hexadecimal string is below 2^(4 digits), and in that many bits it is the four-bit encodings of its digits one after another |
| `Day16Packets.ReadMessage` | day16.py:23-29 | an empty or non-hexadecimal stripped text is the ValueError; otherwise the padded binary string is the four-bit encodings of the hexadecimal digits one after another |
| `Day16Packets.Example2021Code` | day16.py:49-50 | the first docstring transmission is the encoding of a version-6 literal with groups 7, 14, 5 |
| `Day16Packets.Example2021` | day16.py:49-50 | it parses to 2021, ending at 21, with version sum 6 |
| `Day16Packets.Example1957Code` | day16.py:51-52 | the second docstring transmission is the encoding of a version-6 literal with groups 7, 10, 5 |
| `Day16Packets.Example1957` | day16.py:51-52 | it parses to 1957, ending at 21, with version sum 6 |
| `Day16Packets.Example110Code` | day16.py:53-54 | the third docstring transmission is the encoding of a version-6 literal with groups 6, 14 |
| `Day16Packets.Example110` | day16.py:53-54 | it parses to 110, ending at 16, with version sum 6 |
| `Day17Probe.Fly` | day17.py:67-91 | the simulation loop (move, track the highest y, gravity, drag towards zero, inclusive target test after each step, stop once outside the box) reports the shot's peak exactly when the shot function does |
| `Day17Probe.SearchColumn` | day17.py:66-91 | the inner loop over y in range(-search_space, search_space) adds the column's hits to the count and raises the running maximum to the column's highest peak |
| `Day17Probe.FindPossibleVelocities` | day17.py:63-92 | the nested loops return the highest peak of a landing shot (starting from `-sys.maxsize - 1`) and the number of landing shots of the grid |
| `Day17Probe.CountIsHitSet` | day17.py:65-91 | the count is the number of distinct grid velocities whose shot lands: each velocity is counted at most once |
| `Day17Probe.CountBound` | day17.py:65-66 | the count is at most search_space * 2 search_space, and 0 when the grid is empty |
| `Day17Probe.FlightAtLeast` | day17.py:80-89 | a reported peak is never below the height the running maximum started from |
| `Day17Probe.MaxHeightIsHighest` | day17.py:63-89 | no landing shot goes higher than the reported height, some landing shot reaches it, and it is `-sys.maxsize - 1` when no shot lands |
| `Day17Probe.TriTwice` | day17.py:82-86 | 1 + 2 + ... + n is n (n + 1) / 2 |
| `Day17Probe.VerticalAfter` | day17.py:79-82 | after k steps the height is k v - (0 + 1 + ... + (k - 1)) and the vertical velocity v - k |
| `Day17Probe.HorizontalAfter` | day17.py:78-86 | a shot to the right slows by one per step and stops after v steps, at 1 + 2 + ... + v |
| `Day17Probe.RiseAtMost` | day17.py:79-82 | a shot up at speed v never goes above 1 + 2 + ... + v |
| `Day17Probe.RiseApex` | day17.py:79-82 | it is there after v and after v + 1 steps |
| `Day17Probe.RiseReturns` | day17.py:79-82 | it stays at or above its start for 2 v + 1 steps and is at -(v + 1) after 2 v + 2 |
| `Day17Probe.RiseFalls` | day17.py:79-82 | a shot down is below its start after every step |
| `Day17Probe.FlightMisses` | day17.py:74-91 | a trajectory that never enters the target is not reported |
| `Day17Probe.FlightBelow` | day17.py:74-91 | a reported peak is at most the highest point of the trajectory |
| `Day17Probe.FlightHits` | day17.py:74-91 | a trajectory that stays in the box before each step and first enters the target after step k is reported with the highest y of its steps up to k |
| `Day17Probe.HighShotMisses` | day17.py:79-88 | with the target below the start, a shot up at speed -y_start or more is never in the target after a step |
| `Day17Probe.ShotPeakBound` | day17.py:79-89 | with the target below the start, no landing shot peaks above 1 + 2 + ... + (-y_start - 1) |
| `Day17Probe.TrickShotLands` | day17.py:74-91 | the shot up at speed -y_start - 1, with a horizontal speed that stops inside the target's columns in time, lands on its bottom row with that peak |
| `Day17Probe.TrickShot` | day17.py:63-92 | when such a shot is in the grid and inside the box, the reported height is 1 + 2 + ... + (-y_start - 1) |
| `Day17Probe.ExampleSmallTarget` | day17.py:54-57 | the target (20, 30, -10, -5) gives the highest point 45, with search_space 200 or 500 |
| `Day17Probe.ExampleLargeTarget` | day17.py:58-59 | the target (135, 155, -102, -78) gives the highest point 5151 |
| `Day18Snailfish.Flat` | day18.py:11 | the leaf view of a number is never empty |
| `Day18Snailfish.First` | day18.py:99-110 | the index of the first leaf with a property is at most the length, and the leaf there has the property |
| `Day18Snailfish.FirstIsFirst` | day18.py:99-110 | no leaf before that index has the property |
| `Day18Snailfish.FirstConcat` | day18.py:103-109 | in a concatenation the first such leaf is the left part's, or else the right part's shifted by the left part's length |
| `Day18Snailfish.FlatDepths` | day18.py:101-104 | every leaf of a number d pairs deep lies between d and d + height pairs deep, and some leaf lies at exactly d + height |
| `Day18Snailfish.DeepIffHeight` | day18.py:101-104 | a leaf five pairs deep exists exactly when d + height reaches five |
| `Day18Snailfish.BumpFirstConcat` | day18.py:36-38 | raising the first leaf of a concatenation raises the first leaf of its left part |
| `Day18Snailfish.BumpLastConcat` | day18.py:63-65 | raising the last leaf of a concatenation raises the last leaf of its right part |
| `Day18Snailfish.AddLeftSpec` | day18.py:34-38 | `None` leaves the number as it is; a regular number is added to the first leaf only and the nesting stays; adding a pair to a regular number is a TypeError |
| `Day18Snailfish.AddRightSpec` | day18.py:61-65 | the mirror image: only the last leaf changes |
| `Day18Snailfish.AddLeftExamples` | day18.py:25-32 | the four documented add_left results |
| `Day18Snailfish.AddRightExamples` | day18.py:52-59 | the four documented add_right results |
| `Day18Snailfish.BeforeConcatLeft` | day18.py:104-106 | the leaves before an exploding pair in the left part are the left part's |
| `Day18Snailfish.AfterConcatLeft` | day18.py:104-106 | the leaves after it are the left part's followed by the right part, whose first leaf is raised when the pair ends the left part |
| `Day18Snailfish.BeforeConcatRight` | day18.py:107-109 | for a pair in the right part, the left part comes first, its last leaf raised when the pair starts the right part |
| `Day18Snailfish.AfterConcatRight` | day18.py:107-109 | the leaves after a pair in the right part are the right part's |
| `Day18Snailfish.ExplodeCalm` | day18.py:99-110 | with no leaf five pairs deep, explode returns (False, None, number, None) with the number unchanged |
| `Day18Snailfish.Regroup` | day18.py:106 | concatenation regroups |
| `Day18Snailfish.JoinAtEdge` | day18.py:106 | an empty middle part drops out of a concatenation |
| `Day18Snailfish.BurstJoinLeft` | day18.py:104-106 | the burst left part followed by the right part, raised by the right value when no leaf followed the pair, is the burst whole |
| `Day18Snailfish.BurstJoinRight` | day18.py:107-109 | the left part, raised by the left value when no leaf preceded the pair, followed by the burst right part is the burst whole |
| `Day18Snailfish.BurstsAtLeft` | day18.py:104-106 | an explosion in the left part is one of the whole pair, with nothing handed back on the right |
| `Day18Snailfish.BurstsAtRight` | day18.py:107-109 | an explosion in the right part is one of the whole pair, with nothing handed back on the left |
| `Day18Snailfish.ExplodeLeftStep` | day18.py:104-106 | when the left part explodes, explode returns its left value, the new left part with the right value added to the right part, and no right value |
| `Day18Snailfish.ExplodeRightStep` | day18.py:107-109 | when only the right part explodes, explode returns no left value, the left part with the left value added, the new right part and its right value |
| `Day18Snailfish.BurstsInLeft` | day18.py:103-106 | the explosion of a pair in the left part, as explode computes it and on the leaves |
| `Day18Snailfish.LeftEnds` | day18.py:103-106 | leaves of the left part keep their index in a concatenation |
| `Day18Snailfish.BurstsInRight` | day18.py:107-109 | the explosion of a pair in the right part, as explode computes it and on the leaves |
| `Day18Snailfish.RightEnds` | day18.py:107-109 | leaves of the right part are shifted by the left part's length |
| `Day18Snailfish.ExplodeInnermost` | day18.py:101-102 | a pair of two regular numbers four pairs deep becomes 0 and hands both values back |
| `Day18Snailfish.ExplodeBurst` | day18.py:99-110 | in a number nested at most five deep, the first leaf five pairs deep and the next one form the exploding pair: its leaves become one 0 four pairs deep, the leaf before it (if any) gains its left value, the leaf after it (if any) its right value; the left value is handed back exactly when no leaf precedes it, the right value exactly when none follows; the number gets no deeper |
| `Day18Snailfish.ExplodeQuiet` | day18.py:99-110 | when nothing explodes, no pair is four deep and the number comes back unchanged |
| `Day18Snailfish.ExplodeFires` | day18.py:99-110 | on a number nested at most five deep explode never raises, fires exactly when a pair is nested four deep, and makes the number no deeper |
| `Day18Snailfish.ExplodeExamples` | day18.py:92-97 | the three documented explode results |
| `Day18Snailfish.SplitCalm` | day18.py:139-148 | with no regular number of 10 or more, split returns (False, number) unchanged |
| `Day18Snailfish.HalveConcatLeft` | day18.py:144-146 | halving a leaf of the left part halves it in the concatenation |
| `Day18Snailfish.HalveConcatRight` | day18.py:147-148 | halving a leaf of the right part halves it at the shifted index |
| `Day18Snailfish.SplitsInLeft` | day18.py:143-146 | a split in the left part is a split of the pair at the same leaf |
| `Day18Snailfish.SplitsInRight` | day18.py:143-148 | a split in the right part, when the left part does not split, is a split of the pair at the shifted leaf |
| `Day18Snailfish.SplitBurst` | day18.py:139-148 | split replaces exactly the first leaf of 10 or more by the pair of its halves (rounded down, rounded up) one pair deeper, which add up to it and differ by at most one |
| `Day18Snailfish.SplitHeight` | day18.py:139-148 | a split makes the number at most one pair deeper |
| `Day18Snailfish.SplitKeepsTotal` | day18.py:139-148 | a split keeps the sum of the regular numbers |
| `Day18Snailfish.SplitExamples` | day18.py:132-137 | the three documented split results |
| `Day18Snailfish.Add` | day18.py:167-175 | the loop returns what the reduction function gives for the pair of the two numbers |
| `Day18Snailfish.ReduceRound` | day18.py:168-174 | one round on a number nested at most five deep explodes exactly when a pair is four deep, and otherwise splits or stops with the number |
| `Day18Snailfish.ReduceReduces` | day18.py:167-175 | whatever the loop returns has no pair nested four deep and no regular number of 10 or more |
| `Day18Snailfish.ReduceNeverFails` | day18.py:167-175 | from a number nested at most five deep the loop never raises |
| `Day18Snailfish.ReduceMoreFuel` | day18.py:167-175 | more rounds never change an answer already reached |
| `Day18Snailfish.AddReduces` | day18.py:151-175 | the sum of two numbers nested at most four deep is, once the loop ends, a reduced number and never an error |
| `Day18Snailfish.AddExamples` | day18.py:162-165 | the two documented sums |
| `Day18Snailfish.Scale` | day18.py:193-195 | scaling the weights keeps the number of leaves |
| `Day18Snailfish.DotConcat` | day18.py:193-195 | the weighted sum of a concatenation is the sum of the parts' |
| `Day18Snailfish.DotScale` | day18.py:193-195 | scaling every weight by k scales the weighted sum by k |
| `Day18Snailfish.MagnitudeWeighs` | day18.py:193-195 | the magnitude is the sum of the regular numbers, each weighted by 3 for every pair whose left part holds it and 2 for every pair whose right part holds it |
| `Day18Snailfish.MagnitudeExamples` | day18.py:188-191 | the documented magnitudes 35 and 1384 |
| `Day19Scanner.AddSub` | day19.py:67-98 | adding back a subtracted vector (and subtracting an added one) gives the original, and the difference is zero exactly when the vectors are equal |
| `Day19Scanner.VectorExamples` | day19.py:77-96 | the documented results (0, 1, -1) of `sub_vectors` and (2, 7, 13) of `add_vectors` |
| `Day19Scanner.ManhattanMetric` | day19.py:101-115 | the Manhattan distance is symmetric, zero exactly between equal points, obeys the triangle inequality and is unchanged when both points move by the same vector |
| `Day19Scanner.ManhattanExample` | day19.py:111-113 | the documented distance 3621 |
| `Day19Scanner.TurnAll` | day19.py:58-62 | turning a scan keeps one beacon per beacon |
| `Day19Scanner.PermutationsArePermutations` | day19.py:52 | each of the six tuples `permutations([0, 1, 2])` yields is a permutation of the three axes |
| `Day19Scanner.FlipSets` | day19.py:53-56 | each permutation comes with four sets of axes to negate |
| `Day19Scanner.Group` | day19.py:57-63 | the four orientations of one permutation pair it with each of its flip sets in turn, and each is a valid orientation |
| `Day19Scanner.OrientationsUpTo` | day19.py:52-63 | the first n permutations give 4n valid orientations |
| `Day19Scanner.Orientations` | day19.py:51-64 | there are 24 orientations, all valid |
| `Day19Scanner.OrientationAt` | day19.py:52-63 | orientation t pairs permutation t / 4 with its flip set t % 4 |
| `Day19Scanner.FirstOrientationIsIdentity` | day19.py:52-61 | the first orientation leaves every beacon where it is |
| `Day19Scanner.TurnIsLinear` | day19.py:61 | turning commutes with subtraction and keeps every Manhattan distance |
| `Day19Scanner.DisplacedTwoIffOdd` | day19.py:53-55 | a permutation moves exactly two axes exactly when it is odd |
| `Day19Scanner.FlipSetParity` | day19.py:53-56 | every flip set of a permutation negates an odd number of axes exactly when the permutation is odd |
| `Day19Scanner.ProperRotations` | day19.py:51-64 | each of the 24 orientations is a proper rotation: its negations and its permutation have the same parity |
| `Day19Scanner.TurnScan` | day19.py:58-62 | the innermost loop turns every beacon of the scan in order |
| `Day19Scanner.GroupPositions` | day19.py:57-63 | the loop over the flip sets yields the scan turned by each of the permutation's four orientations |
| `Day19Scanner.PotentialPositions` | day19.py:37-64 | `calculate_potential_beacon_positions` yields the scan turned by each of the 24 orientations, in order |
| `Day19Scanner.Row` | day19.py:130-131 | one known beacon against the first m candidates gives m entries |
| `Day19Scanner.AppendEntry` | day19.py:131 | one append to the defaultdict extends only that offset's list and adds the offset to the keys when it is new |
| `Day19Scanner.Append` | day19.py:131 | the append keeps the map and its insertion order in step with the entries appended so far |
| `Day19Scanner.FillDiffs` | day19.py:128-131 | the two loops leave in `diffs` exactly the entries of every known beacon against every candidate, in loop order |
| `Day19Scanner.MatchOffset` | day19.py:128-144 | the scan of the keys returns the first offset, in insertion order, whose list holds twelve pairs or more, or none |
| `Day19Scanner.BucketEmpty` | day19.py:128-131 | an offset that never occurs has an empty list |
| `Day19Scanner.BucketMembers` | day19.py:128-131 | an offset's list holds exactly the index pairs of the entries with that offset |
| `Day19Scanner.GridShape` | day19.py:129-131 | every entry records the offset known[i] - cand[j] of its own index pair |
| `Day19Scanner.GridOrder` | day19.py:129-130 | the loops visit the index pairs in strictly increasing order |
| `Day19Scanner.GridComplete` | day19.py:129-131 | every index pair has its entry |
| `Day19Scanner.RowEntries` | day19.py:130-131 | one row's entries are in loop order, entry k being candidate k's offset |
| `Day19Scanner.BucketInLoopOrder` | day19.py:131 | each list keeps the loop order, so it holds no pair twice |
| `Day19Scanner.KeysHaveBuckets` | day19.py:131-132 | every key has a non-empty list and no key occurs twice |
| `Day19Scanner.FirstFullSpec` | day19.py:132-144 | the scan stops at the first key with twelve pairs or more, and finds none exactly when every key has fewer |
| `Day19Scanner.PairsSpec` | day19.py:128-131 | the pairs with offset off are exactly the (i, j) that off moves candidate j onto known beacon i, each once |
| `Day19Scanner.PairsSound` | day19.py:128-131 | every pair listed for an offset lines up a candidate with a known beacon |
| `Day19Scanner.PairsComplete` | day19.py:128-131 | every pair that the offset lines up is listed |
| `Day19Scanner.MatchSpec` | day19.py:128-144 | a match is an offset shared by twelve or more pairs, and there is none exactly when every offset is shared by fewer |
| `Day19Scanner.Translate` | day19.py:138-141 | moving the beacons keeps one per beacon |
| `Day19Scanner.PlacedEarlierAppend` | day19.py:134 | appending to `found` keeps every earlier entry placed against one before it |
| `Day19Scanner.AppendAxes` | day19.py:124 | appending a placement appends its scanner to the placed scanners |
| `Day19Scanner.AppendUnplaced` | day19.py:124-134 | appending an unplaced scanner removes exactly it from the unplaced ones |
| `Day19Scanner.AppendPlacement` | day19.py:134-143 | appending a scanner placed against an entry keeps `found` valid |
| `Day19Scanner.FirstMatch` | day19.py:125-147 | the loop over the orientations returns the first one that matches and its offset, with no earlier one matching, or none exactly when no orientation matches |
| `Day19Scanner.TryPlace` | day19.py:124-147 | one unplaced scanner is placed at its first matching orientation against the entry, or not at all exactly when no orientation matches |
| `Day19Scanner.ExtendFound` | day19.py:134-143 | appending a scanner placed against an entry keeps `found` valid, keeps its prefix and leaves one scanner fewer unplaced |
| `Day19Scanner.PlaceAgainst` | day19.py:123-147 | the loop over all scanners for one entry keeps `found` valid, only appends, and places each appended scanner once |
| `Day19Scanner.ProcessScanners` | day19.py:118-148 | an empty list of scans is the IndexError of `scanner_input[0]`; otherwise `found` starts with scanner 0 at the origin, holds each scanner at most once, and places every later scanner against an earlier entry at its first matching orientation and offset |
| `Day19Scanner.PlacedByShares` | day19.py:133-143 | a placed scanner's moved beacons coincide with twelve or more distinct beacons of the entry it was placed against |
| `Day19Scanner.PlacedShares` | day19.py:118-148 | every scanner in `found` after the first shares twelve or more beacons with an earlier entry |
| `Day20Image.Neighbours` | day20.py:51-52 | the neighbourhood has nine cells |
| `Day20Image.IndexBound` | day20.py:56 | the index is below 512, the assertion of the source |
| `Day20Image.BitsValueSnoc` | day20.py:49-55 | reading one more bit doubles the value and adds the bit |
| `Day20Image.BitsValuePrefix` | day20.py:49-55 | the same for a prefix growing by one bit |
| `Day20Image.BitsValueNine` | day20.py:49-55 | nine bits weigh 256 down to 1 |
| `Day20Image.IndexWeights` | day20.py:49-55 | the index weighs the neighbourhood row by row, the top-left cell 256 down to the bottom-right cell 1 |
| `Day20Image.IndexOfLocal` | day20.py:51-54 | the index depends only on the nine cells around the pixel |
| `Day20Image.IndexUniform` | day20.py:49-55 | a uniform dark neighbourhood reads 0 and a uniform lit one 511 |
| `Day20Image.WeightedNine` | day20.py:49-55 | the bits added one at a time with weight `2 ** bit` make the binary value of the neighbourhood |
| `Day20Image.NeighbourhoodIndex` | day20.py:49-56 | the inner loops compute the pixel's index, below 512 |
| `Day20Image.LeastExists` | day20.py:43-46 | a non-empty image has a pixel of least row (column) |
| `Day20Image.GreatestExists` | day20.py:43-46 | and one of greatest row (column) |
| `Day20Image.Least` | day20.py:43-45 | `min` is a row (column) of a stored pixel and at most every other |
| `Day20Image.Greatest` | day20.py:44-46 | `max` is a row (column) of a stored pixel and at least every other |
| `Day20Image.Bounds` | day20.py:43-46 | the four `min`/`max` calls give the bounding box of a non-empty image |
| `Day20Image.EnhanceWindow` | day20.py:43-59 | a round on a non-empty image looks at the bounding box widened by 5 below and 10 above |
| `Day20Image.StoredNextCol` | day20.py:48-58 | one more column of a row adds that pixel exactly when its rule character differs from `on` |
| `Day20Image.StoredNextRow` | day20.py:47-58 | one more row adds that row's pixels |
| `Day20Image.FitsRow` | day20.py:47-48 | every row of a window whose indices all fit the rule fits |
| `Day20Image.EnhanceRow` | day20.py:48-58 | the loop over one row's columns succeeds exactly when every index fits the rule, is otherwise an IndexError, and adds the row's pixels whose rule character differs from `on` |
| `Day20Image.EnhanceRows` | day20.py:47-58 | the loop over the rows succeeds exactly when every index in the window fits, is otherwise an IndexError, and gives the window's pixels whose rule character differs from `on` |
| `Day20Image.ApplyEnhancement` | day20.py:31-59 | `apply_image_enhancement` is `Enhance`; it is the ValueError of `min([])` exactly when the image is empty |
| `Day20Image.Background` | day20.py:47-55 | a pixel outside the window sees only the background, index 0 when `on` and 511 otherwise |
| `Day20Image.StoredMember` | day20.py:47-58 | a pixel is stored exactly when it lies in the window and its rule character differs from `on` |
| `Day20Image.EnhanceOk` | day20.py:31-59 | with a rule of 512 characters a round on a non-empty image succeeds |
| `Day20Image.EnhanceFits` | day20.py:47-58 | the result holds the window's pixels whose rule character differs from `on` |
| `Day20Image.EnhanceInside` | day20.py:47-58 | inside the window the result, read with the opposite `on`, is the enhanced picture |
| `Day20Image.EnhanceOutside` | day20.py:47-58 | outside the window the result reads as `on`, while the enhanced picture there is the rule's first character (dark background) or last (lit background) |
| `Day20Image.EnhanceRepresents` | day20.py:31-59 | the result, read with the opposite `on`, is the enhanced picture everywhere exactly when the rule turns the background into the kind of pixel the result does not store |
| `Day20Image.RoundsStayFailed` | day20.py:81-82 | once a round raises, the rounds after it are that error |
| `Day20Image.RoundStep` | day20.py:81-82 | one round at a pixel turns a depiction of a picture into its enhancement there |
| `Day20Image.RoundDepicts` | day20.py:81-82 | one round turns a depiction of a picture into a depiction of its enhancement, with the polarity flipped |
| `Day20Image.RoundsBefore` | day20.py:81-82 | a round that succeeds follows one that succeeded |
| `Day20Image.RoundsStart` | day20.py:79-82 | before any round the image, read with `on` true, depicts its lit pixels |
| `Day20Image.RoundsAdvance` | day20.py:81-82 | a round keeps the depiction, with the polarity flipped |
| `Day20Image.RoundsDepict` | day20.py:81-82 | after m + 1 rounds the stored set depicts the m + 1 times enhanced picture |
| `Day20Image.RoundsRepresent` | day20.py:81-82 | for a rule that lights a dark background and darkens a lit one, after n rounds the stored set, read with `on` = (n % 2 == 0), is the n times enhanced picture, and after an even number of rounds holds exactly its lit pixels |
| `Day20Image.RoundsNext` | day20.py:81-82 | round n enhances round n - 1's non-empty result with `on` = ((n - 1) % 2 == 0) |
| `Day20Image.Enhancements` | day20.py:97-98 | the driver loop runs `Rounds` for the given number of rounds (2 in `part_1`, 50 in `part_2`) |

## Left out

- Reading the input files, the click command line interfaces, the doctest
  commands and all printing.
- Decimal.ParseInt: Python's `int()` also accepts surrounding whitespace
  (" 5 "), underscores between digits ("1_0" is 10) and decimal digits of
  other scripts; the model reads an optional sign and ASCII digits only and
  returns a ValueError for those forms.
- Text.Strip: Python's `str.strip()` also removes the separators \x1c to
  \x1f and Unicode whitespace such as \x85 and \xa0; the model removes only
  space, tab, newline, carriage return, vertical tab and form feed.
- Day1Sonar.WindowSums: takes the readings as integers; the `int(line.strip())`
  of each line is not modelled, and a negative window (a ValueError of `deque`)
  is excluded by the type `nat`.
- Day4Bingo.CalcScore, Day4Bingo.AssignRow, Day4Bingo.BingoBoard.PlayRound:
  the source stores board cells and hits as numpy float64 arrays, so
  `calc_score` returns a float64 (4512.0 rather than 4512), a cell value
  above 2^53 rounds when a row is assigned, and `np.where` compares the drawn
  number with the rounded floats. The model keeps cells, hits and the score
  as unbounded integers.
- Text.NonEmpty: the contract states which pieces are kept, both ways, but
  not that they keep the order and multiplicity of the split.
- Day5Vents.CalcPointsOverlapping: the field counters are numpy `uint8` and
  would wrap after 255 hits on one cell; the model counts with unbounded
  integers. The reader `read_as_2d_line` (file parsing) is modelled only by
  its case split, `Normalise`; the documented doctest results of
  `calc_points_overlaping` are not restated as lemmas.
  The field size is a `nat`: a negative size, for which numpy's allocation
  raises a ValueError, is excluded by the type.
- Day6Lanternfish.ProgressPopulation: the padding in the source extends the
  caller's list in place (`+=` on the argument); the model returns the padded
  population and does not model that aliasing. A negative respawn offset
  (Python's negative indexing) is excluded by the type `nat`. The 256-day
  documented sum is not restated. `read_distribution` (file reading and
  bucketing) is replaced by the `Histogram` of a list of timers.
- Day7Crabs.OptimalPosition: the cost is any total function on distances.
  `cost_function_part2` recurses once per step under a recursion limit of
  10000, so a first call on a distance near that limit raises RecursionError
  instead of returning a value; that exception is not modelled. `lru_cache`
  changes no value and is not modelled either. The documented part-two result 168 for the ten crabs is not
  restated as a lemma.

- Day8Segments.FindMapping: Python's `assert` statements are taken as always
  enabled. The two documented `find_mapping` results are not restated as
  lemmas; `MappingShape` states what every successful result satisfies.
  `read_as_block_output` (line splitting) and the sum over displays in
  `part_2` are not modelled.
- Day8Segments.Decode: `sorted` on a string orders characters by code point;
  the model sorts the character codes and keys the table by the codes of its
  segment strings, which are in one-to-one correspondence.
- Day9Basins.FindSizeBasins: the errors of the code as written on short rows
  are not characterised; the result is proved to exist only for maps whose
  rows are all at least as long as the first.
- Day9Basins: the second risk example and the two basin examples of the
  docstrings are not restated as lemmas; a smaller map exhibits the row
  rebinding. `read_height_map` (file reading) is not modelled.
- Day10Syntax: the docstring examples read a data file that is not part of
  this model, so they are not restated. The generator's laziness is not
  modelled: the outcomes are computed for all lines, and an exception in any
  line ends both parts, as it does when the generator is consumed.
- Day10Syntax.ErrorPoints and ClosePoints: a lookup of a non-closer would be a
  KeyError; no such lookup happens (CorruptIsCloser, CompletionIsClosers), so
  those entries are 0.
- Day11Octopus: the grid is a rectangular `array2`; the ragged lists of
  lists Python would accept are not modelled. The cascade is specified by
  its outcome: the least set of flashes closed under igniting, which fixes
  the levels and the count (CascadedUnique, SettlesUnique); the order in
  which the recursion visits cells is not part of the contract. Only the
  first docstring examples of `flash_octopus` and `simulate_round` are
  restated as lemmas (ExampleFlash, ExampleRound).
- Day11Octopus.FlashOctopus: requires the start octopus not to hold the
  sentinel and no level below -1; the source calls it only on an octopus
  at 10 or above, and levels come from single digits raised by one.
- Day11Octopus.SimulateRound: requires no level below -1 (a level of -2
  would read as flashed after the raise).
- Day11Octopus.SyncRound: the search of `part_2` never stops if no round
  syncs; the model gives up after `fuel` rounds. It uses the corrected
  round and takes single-digit levels. The 100-round flash sum of `part_1`
  is a plain loop over rounds and is not modelled.
- Day12Caves: the table is looked up as the `defaultdict(list)` that
  `read_adjacency_list` builds, so a cave without an entry has no neighbours;
  a plain `dict` (as in the docstring examples) would raise KeyError on
  reaching such a cave. `read_adjacency_list` (file reading) is not
  modelled. Small caves are those whose name has no ASCII upper-case letter;
  `str.lower` on other alphabets is not modelled.
- Day12Caves.FindPaths: requires that no big cave lists a big cave (itself
  included) among its neighbours. The source does not return exactly when a
  cycle of big caves is reachable from "start" (two big caves that list each
  other, say); an input with a big-to-big entry that lies on no such cycle
  does return in the source, but the model excludes it. A
  neighbour listed twice is counted twice, as in the source; only
  `CountIsNumberOfPaths` excludes repeated neighbours.
- Day13Origami: `\d` in a Python 3 pattern also matches decimal digits of
  other scripts; the model reads ASCII digits only. Dots are kept as the
  lists of integers read from their lines (a folded dot is a pair); tuples
  and lists are not told apart. `read_instruction` (file reading and
  splitting) and the grid printing of `part_2` are not modelled; the count
  of distinct dots in `part_1` is covered only by `FoldNeverAddsDots`.
- Day14Polymer: a pair key is a pair of characters and a rule inserts one
  character, which is what lines of the form "AB -> C" give; rules whose
  right side is empty or longer (keys that are not two characters long) are
  not modelled. `read_polymer` (file reading and splitting) is not modelled.
  `part_2` is `part_1` with 40 steps instead of 10: `Polymerize` takes the
  number of steps. A `Counter` is kept as its entries in insertion order;
  Python compares counters as dicts, and the examples state the model's
  entry order.
- Day15Chiton.FindLowestRiskLevel: requires every row to be at least as
  long as the first. With a shorter row the source raises an IndexError or
  not depending on which cells the search reaches before the target, which
  the model does not follow. The result is stated as the lowest total risk
  and not as a number: for the second docstring example (the 3x3 cave tiled
  10 times, 198) no lemma gives the number.
- Day15Chiton: the priority queue is a sequence from which `HeapPop` takes a
  least entry in tuple order. `heapq`'s array layout is not modelled, and
  neither is which of several equal least entries is popped; equal entries
  are the same tuple, so this changes nothing. `read_risk_level` (file
  reading) is not modelled. `part_1` and `part_2` are `FindLowestRiskLevel`
  with 1 and 5 repetitions.
- Day16Packets: bits are booleans (`true` for the character "1"); a
  character other than "0" or "1" in the bit string is not modelled. The
  global `sum_versions` is passed in and handed back as part of the result;
  that the global is never reset between calls is not modelled. When the
  parser fails, the versions it added before the error are not returned.
  The `indent` parameter is unused by the source and left out. `part_1` and
  `part_2` are the version sum and the value of `Parse` at position 0 of
  the message.
- Day16Packets.ReadMessage: takes the text of the file. `int(hex, 16)` also
  accepts a `0x` prefix, underscores between digits, a sign and decimal
  digits of other scripts (such as the Arabic-Indic three); those forms are
  not modelled and are reported as a ValueError.
- Day17Probe: `read_target_area` (file reading and the regular expression)
  and the command line are not modelled; the target is given as its four
  bounds. The loops take the search range and the highest expected y as
  parameters, as the source does.
- Day17Probe.ExampleSmallTarget, Day17Probe.ExampleLargeTarget: state the
  highest point of the docstring examples only. The numbers of landing
  shots (112, 968 and 177) and the example with search_space 100 (-25) would
  need every one of tens of thousands of shots followed and are not stated.
- Day18Snailfish: the numbers are read with `eval` in the source; the model
  takes them as a `Number` datatype. `part_1` (a left fold of `add` over the
  lines, then `magnitude`) and `part_2` (the largest magnitude over ordered
  pairs of different lines) are command line glue and not modelled.
- Day18Snailfish.Add: the `while True` loop is not proved to stop; the model
  runs it for at most `fuel` rounds and gives `None` when they run out.
  `ReduceMoreFuel` shows that more rounds do not change an answer.
- Day18Snailfish.Split: `math.ceil(number / 2)` goes through a float; the
  model uses (number + 1) / 2, which differs from the float computation only
  for numbers above 2^53.
- Day18Snailfish.ExplodeBurst: proved for numbers nested at most five deep, as
  every sum of two reduced numbers is; deeper numbers can hand a pair to
  `add_left`/`add_right`, the TypeError that `Explode` models but no lemma
  characterises.
- Day19Scanner: `read_scanners` (file reading) is not modelled; the scans
  are given as lists of vectors. `part_1` (the set union of the placed
  beacons) and `part_2` (the largest Manhattan distance between placed
  scanners) are command line glue over `process_scanners` and are not
  modelled. The `defaultdict(list)` of offsets is a map together with the
  list of its keys in insertion order, which is the order Python iterates
  a dict in.
- Day19Scanner.ProcessScanners: states what every entry of `found` is, not
  that every scanner ends up in it. Whether the search places all scanners
  depends on the geometry of the input (each scanner must overlap a placed
  one in twelve beacons), and that is not proved.
- Day20Image: `read_input` (file reading) and the printing of `len(image)`
  are not modelled; `part_1` and `part_2` are `Enhancements` with 2 and 50
  rounds. `2 ** bit` with `bit` from 8 down to 0 is the weight `Weighted`
  gives each neighbour.
- Day20Image.RoundsRepresent: the stored set is proved to be the enhanced
  picture only for a rule of 512 characters whose first character is '#'
  and whose last is '.', the rules the alternating polarity is made for.
  For other rules `EnhanceRepresents` shows which rounds are exact; the
  result of the code as written is still given by `Rounds` for every rule.

## Findings

| source | as written | input that shows it | evidently intended | confidence | as-written member | corrected member |
|---|---|---|---|---|---|---|
| day2.py:25 | the amount is `int(line.strip()[-1])`, the last character only | "forward 10" moves by 0 | the whole number after the direction word | not executed | `Day2Dive.CourseUpdateDropsLeadingDigits` | `Day2Dive.CourseUpdateCorrectedRoundTrip` |
| day7.py:60 | the scan runs over `range(1, max(positions))`, which stops before the largest position | one crab at position 1 with linear cost gives 1, while moving to 1 costs 0 | targets up to and including the largest position | not executed | `Day7Crabs.AsWrittenMissesLargestPosition` | `Day7Crabs.OptimalPositionCorrected` |
| day9.py:95 | `(row,column) = queue.popleft()` rebinds the loop variable `row`, so after a basin the column loop goes on in the row of the last popped cell | [[0,9,0],[0,0,9]] gives [3] and cell (0, 2) is never visited | the scan continues in the row it was in, finding basins of sizes 1 and 3 | not executed | `Day9Basins.AsWrittenMissesBasin` | `Day9Basins.BasinSizesCorrected` |
| day11.py:123 | the reset loop bounds its columns by `range(num_row)`, the number of rows | [[0, 9]] ends the round with -1 in its second cell; [[0], [0]] raises IndexError | columns bounded by `num_col` | not executed | `Day11Octopus.WideGridKeepsSentinel` | `Day11Octopus.SimulateRoundCorrected` |
