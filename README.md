# Treasure-hunt scan counter, modelled in Dafny

`thcount.go` counts the barcodes scanned at the check-in of a treasure
hunt. Every car has a clue sheet. Each scanned barcode is a code
`{car}-{command}-{payload}`, for example `5-CL-A` (car 5 handed in the
barcode of clue A) or `5-EM-12` (car 5 handed in emergency envelope 12
unopened). A bit still unset at the count means the car used that item:
the program reports unscanned emergencies as opened and unscanned clues as
visited.

The store (`countData`) holds:
- a 100 × 53 boolean table: per car a "scanned" flag at index 0, emergencies 1..26 at indices 1..26, and clues A..Z at indices 27..52;
- the last scan time of each car;
- check-in and check-out times;
- one record per scanner.

`processCode` interprets one code against the store. The reports read
the table back:
- the emergencies whose barcode has not been scanned, which the program reports as opened;
- the clue letters not scanned, which the program reports as visited, as circular runs (`y-a, c-f, m`);
- the per-car counts, the car list, the tab-separated text file and the overall tally.

A worker goroutine reads chunks from a serial scanner and cuts them into
lines. It carries unfinished text from one read to the next. It stops after
more than ten read errors with no successful read in between (an EOF
neither counts as an error nor resets the count).

The project has six modules:

- `GoStrings` models the Go library functions the core calls: `strings.Split`, joining, `strings.TrimSpace`, `strconv.Atoi`, `strconv.Itoa`, `strings.ToLower`, and the first UTF-8 byte of a string.
- `ScanCodes` holds the table's constants, the parser of a code, and the codes on which Go indexes past a row and panics.
- `Streaks` provides the clue runs of `getCarClues` (`ClueRuns`) and their text (`ClueList`). `ClueRunsAreMaximal` proves that the runs are exactly the maximal circular runs of unset clue positions: no position twice, the run through Z and A first, the others ascending.
- `Reports` provides the emergency list, the solve counts, the car summaries and car list, the tally (as written, and as evidently intended), the scanned-car count and the text file.
- `StoreModel` is the store as a value. `Process` is one `processCode` call, `Ingest` is one chunk read by a worker, and `Run`/`Worker` is a worker's loop over a sequence of read results. Their lemmas cover:
  - refusals;
  - the flag bit;
  - what each command changes and what it leaves alone;
  - idempotence and commutation;
  - the invariant that every set bit lies in a row whose flag is set;
  - scanner counts;
  - the carried text;
  - the error counter.
- `CountStore` has the class `CountData`, with the table as an `array2<bool>` and the other arrays as `array`s. The operating mode is a `const` field and `quit` is a field. Every modelled Go method is a Dafny method with the same loops (the one loop nest of `getCarClues` is split over `RolloverStreak`, `LinearStreaks`, `ClueStreaks` and `FormatStreaks`), proved equal to the functions of `Reports` and `StoreModel`.

Time is an `int` argument, and 0 stands for Go's zero `time.Time`. One
read result carries one time, which stands for every clock reading made
while its chunk is processed. A read of
the serial port is a `ReadResult`: bytes read at a time, EOF, or another
error.

## Model

| member | source | states |
|---|---|---|
| ScanCodes.Parse | thcount.go:354-369 | a code is blank, not three `-`-fields, a car of 100 or more, or a car below 100 with a command and a payload free of `-` |
| ScanCodes.ParseRefuses | thcount.go:354-369 | unfolds Parse: processCode refuses exactly the non-empty codes that are not three fields or name a car of 100 or more |
| ScanCodes.ParseFormatCode | thcount.go:358-369 | parsing a printed code `car-cmd-payload` gives back its parts, or refuses a car of 100 or more |
| ScanCodes.ParseClueExample | thcount.go:358-364 | "5-CL-A" is car 5, command CL, payload A |
| ScanCodes.ParseTwoFieldsExample | thcount.go:358-362 | "5-BADCMD" has two fields and is refused |
| ScanCodes.ParseCar100Example | thcount.go:363-369 | "100-CL-A" names a car past the table |
| ScanCodes.ClueIndexRange | thcount.go:393-396 | the byte arithmetic of CL stays inside a row exactly for first characters '&'..'Z'; for A..Z it selects 26 + (L - 64) |
| GoStrings.Split | thcount.go:358 | the pieces of a split hold no separator and there is at least one |
| GoStrings.JoinSplit | thcount.go:495 | joining the pieces of a split with the separator gives back the string |
| GoStrings.SplitJoin | thcount.go:358 | splitting a join of separator-free pieces gives back the pieces |
| GoStrings.SplitLastAfterSep | thcount.go:495 | text that ends in a newline splits with an empty last piece |
| GoStrings.TrimLeftSuffix | thcount.go:497 | left trimming drops exactly the leading white space |
| GoStrings.TrimRightPrefix | thcount.go:497 | right trimming drops exactly the trailing white space |
| GoStrings.TrimSpaceWithin | thcount.go:497 | trimming adds no character |
| GoStrings.TrimSpaceKeeps | thcount.go:497 | a string with no white space at either end is kept as it is |
| GoStrings.Atoi | thcount.go:363 | an unsigned input reads as a non-negative number |
| GoStrings.Itoa | thcount.go:160 | at least one digit, no leading zero |
| GoStrings.AtoiItoa | thcount.go:160 | Atoi reads back what Itoa writes |
| Reports.UnsetIndicesWithin | thcount.go:151-164 | the emergency list names only unset indices of the range |
| Reports.UnsetIndicesAscending | thcount.go:151-164 | the emergency list is strictly ascending, so no index twice |
| Reports.UnsetIndicesComplete | thcount.go:151-164 | every unset emergency index of the range is listed |
| Reports.UnsetListStep | thcount.go:154-161 | one more index: a set bit adds nothing, an unset one adds ", i", or "i" to an empty list |
| Reports.EmergencyListAllUnset | thcount.go:151-164 | no emergency scanned gives "1, 2, …, 26", the decimals of 1..26 joined by ", " |
| Reports.EmergencyListAllSet | thcount.go:151-164 | every emergency scanned gives "" |
| CountStore.CountData.GetCarEmergencies | thcount.go:151-164 | the loop builds the emergency list of the car's row |
| Streaks.RunFrom | thcount.go:185-195 | the start of the run of unset positions ending at j: all unset up to j, its predecessor set or the bound |
| Streaks.RunTo | thcount.go:200-210 | the end of the run of unset positions starting at i: all unset from i, its successor set or the bound |
| Streaks.LinearRunsAreMaximal | thcount.go:216-238 | the linear pass yields maximal runs inside its range, ascending, covering exactly its unset positions |
| Streaks.ClueRunsRollover | thcount.go:180-214 | unfolds ClueRuns in the rollover case: with Z and A unset, the whole alphabet if every clue is unset, else the run through Z and A followed by the runs between its ends |
| Streaks.ClueRunsPlain | thcount.go:181-238 | unfolds ClueRuns in the other case: with Z or A set, the runs are those of the linear pass over A..Z |
| Streaks.ClueRunsAreMaximal | thcount.go:180-238 | the runs cover exactly the unset clue positions, no position twice. Each run is maximal on the circle A..Z, except the whole alphabet. A run through Z and A comes first exactly when Z and A are unset and not all clues are. The other runs do not wrap and are in ascending order |
| Streaks.WholeAlphabetRun | thcount.go:196-198 | with every clue unset, the single run A..Z is the maximal circular description |
| Streaks.ClueListAllUnset | thcount.go:196-251 | no clue scanned gives "a-z" |
| Streaks.ClueListAllSet | thcount.go:216-251 | every clue scanned gives "" |
| Streaks.ClueListWrapExample | thcount.go:180-251 | only Y, Z and A unset gives "y-a" |
| Streaks.ClueListOnlyM | thcount.go:216-251 | only M unset gives "m" |
| Streaks.Rendered | thcount.go:241-249 | one text per run |
| Streaks.RenderedNoTab | thcount.go:245-248 | a rendered run holds no tab |
| Streaks.ClueListNoTab | thcount.go:239-251 | the clue report holds no tab |
| GoStrings.ToLowerAvoids | thcount.go:251 | lower-casing brings in no character outside a..z |
| CountStore.CountData.RolloverStreak | thcount.go:180-214 | the two rollover loops find the run through Z and A (or the whole alphabet), the bounds of the middle pass, and 26 exactly when all clues are unset |
| CountStore.CountData.LinearStreaks | thcount.go:216-238 | the linear loop returns the linear runs of its range |
| CountStore.CountData.ClueStreaks | thcount.go:173-238 | the streaks getCarClues builds are the clue runs of the row |
| CountStore.FormatStreaks | thcount.go:239-250 | the formatting loop writes the rendered runs joined by ", " |
| CountStore.CountData.GetCarClues | thcount.go:166-252 | getCarClues returns the clue list of the car's row |
| Reports.CountSetPlusUnset | thcount.go:338-351 | every index of a range is counted as set or listed as unset, never both |
| Reports.SolveCountRange | thcount.go:338-351 | both counts lie in 0..26 and 26 minus each is the number of unset emergencies (clues) |
| CountStore.CountData.GetSolveCount | thcount.go:338-351 | the loop counts the set bits at 1..26 and at 27..52 |
| Reports.CarSummaryCounts | thcount.go:284-294 | a car's entry holds its flag, and its emergencies and clues are the unset counts, in 0..26 |
| Reports.CarList | thcount.go:281-298 | 100 entries: the zero entry at 0, then the summary of each car 1..99 |
| CountStore.CountData.BuildCar | thcount.go:284-295 | the entry buildCarData fills in for car i is its summary |
| CountStore.CountData.BuildCarData | thcount.go:281-298 | the loop returns the car list of the table and scan times |
| Reports.DecimalsAreDigits | thcount.go:160 | every listed emergency is written in decimal digits only |
| Reports.EmergencyListNoTab | thcount.go:151-164 | the emergency report holds no tab |
| Reports.TextLineOfCar | thcount.go:301-303 | the line written for car 1..99 splits on tabs into "", the car number, "0", the car's clue report and its emergency report with the newline |
| Reports.TextLineFields | thcount.go:303 | given tab-free lists, a line splits on tabs into "", the car number, "0", the clue list and the emergency list with the newline |
| CountStore.CountData.WriteTextStream | thcount.go:300-312 | the text written is the lines of cars 1..99 in order |
| Reports.ScannedCarsPositive | thcount.go:254-267 | the count of scanned cars 1..99 is positive exactly when some car 1..99 has its flag set |
| CountStore.CountData.HasCars | thcount.go:254-267 | hasCars is true exactly when some car 1..99 has its flag set |
| CountStore.CountData.Status | thcount.go:269-279 | status counts the cars 1..99 with their flag set |
| CountStore.CountData.SaveData | thcount.go:314-336 | text is saved exactly when some car has been scanned, and it is the text stream of the car list |
| Reports.TallyBounds | thcount.go:436-453 | the totals are 2600 each; counted emergencies at most 2600, counted clues at most 2700 |
| Reports.TallyOverCounts | thcount.go:446-450 | on a full table getTally reports 2700 counted clues out of 2600 |
| Reports.IntendedTallyBounds | thcount.go:436-453 | the intended tally never counts more than its totals |
| CountStore.CountData.GetTally | thcount.go:436-453 | the nested loops compute the tally as written, over cars 0..99 |
| StoreModel.Initial | thcount.go:78-84 | the empty store is well formed |
| StoreModel.Dispatch | thcount.go:371-432 | the switch keeps the store well formed |
| StoreModel.Process | thcount.go:353-434 | processCode keeps the store well formed |
| StoreModel.ProcessEmpty | thcount.go:354-357 | "" is accepted and changes nothing |
| StoreModel.ProcessRefused | thcount.go:358-369 | a code that is not three fields or names car 100 or more is refused and changes nothing |
| StoreModel.ProcessRefusesTwoFields | thcount.go:358-362 | "5-BADCMD" is refused and changes nothing |
| StoreModel.ProcessRefusesCar100 | thcount.go:366-369 | "100-CL-A" is refused and changes nothing |
| StoreModel.ProcessResult | thcount.go:353-434 | processCode returns true exactly for the blank code and the three-field codes with a car below 100 |
| StoreModel.ProcessSetsFlag | thcount.go:370-433 | every code naming a car in range is accepted, and except CLEAR it leaves the car's flag set |
| StoreModel.ProcessOnlyFlags | thcount.go:370-424 | unknown commands, SAVE, STATUS and CA outside check-in/check-out mode set the flag and change nothing else |
| StoreModel.ProcessQuit | thcount.go:372-375 | QUIT sets the flag and quit, nothing else |
| StoreModel.ProcessCheckInOut | thcount.go:402-431 | CA in check-in (check-out) mode sets the flag and stamps only that car's check-in (check-out) time |
| StoreModel.ProcessClue | thcount.go:393-397 | CL with a letter L in A..Z sets exactly the flag and bit 26 + (L - 64) and stamps the car's scan time |
| StoreModel.ProcessEmergency | thcount.go:398-401 | EM with n < 53 sets exactly the flag and bit n (a clue bit when n > 26) and stamps the car's scan time |
| StoreModel.ProcessClearAll | thcount.go:376-381 | CLEAR for car 0 empties the whole table, car 0's flag included, and every check time; scan times and scanners stay |
| StoreModel.ProcessClearCar | thcount.go:382-388 | CLEAR for another car empties only that row, flag included |
| StoreModel.ProcessLocal | thcount.go:370-432 | except CLEAR for car 0, a code changes its own car's row, scan time and check times alone, and QUIT sets quit |
| StoreModel.CarEffectIdempotent | thcount.go:370-432 | a car's effect applied again at the same time changes nothing more |
| StoreModel.ProcessIdempotent | thcount.go:353-434 | processing the same code twice at the same time equals processing it once |
| StoreModel.ProcessIdempotentTable | thcount.go:370-401 | re-applying a code at any later time leaves the table as after one application |
| StoreModel.ProcessKeepsScanners | thcount.go:353-434 | processCode never changes the scanner records |
| StoreModel.ProcessFrame | thcount.go:370-432 | except CLEAR for car 0, no other car's row, scan time or check times change |
| StoreModel.ProcessMonotone | thcount.go:370-432 | except CLEAR, no code unsets a bit |
| StoreModel.ProcessCommutes | thcount.go:370-432 | codes for two different cars (not CLEAR for car 0) commute |
| StoreModel.EmptyTableFlagsCover | thcount.go:379 | in the empty table every set bit is in a flagged row, trivially |
| StoreModel.ProcessKeepsFlagsCover | thcount.go:370-401 | every code keeps every set bit in a row whose flag is set |
| StoreModel.FeedOne | thcount.go:497-501 | one piece: trimmed and processed, and this scanner's count rises by one exactly when it is accepted |
| StoreModel.Feed | thcount.go:496-512 | over a chunk's pieces the scanner's count rises by the number of accepted pieces, other scanners stay, the flag invariant is kept |
| StoreModel.CarryAfterNewline | thcount.go:491-511 | a chunk ending in a newline carries nothing to the next read |
| StoreModel.CarryRefused | thcount.go:505-511 | carried text is empty, or a single line that processCode refused |
| StoreModel.Ingest | thcount.go:490-512 | one read: the scanner's last scan time becomes now and its count rises by the accepted pieces; other scanners stay |
| StoreModel.Run | thcount.go:460-511 | the worker loop keeps the store well formed |
| StoreModel.FailuresCount | thcount.go:472-480 | failed reads only raise the error count while it stays at most 10 |
| StoreModel.ElevenFailuresQuit | thcount.go:465-480 | eleven failed reads in a row set quit and end the worker, whatever follows |
| StoreModel.SuccessResetsErrors | thcount.go:471-489 | up to ten failures followed by a successful (empty) read leave no trace |
| StoreModel.NonEmptyReadResets | thcount.go:471-511 | up to ten failures followed by a read with data: the chunk is ingested and the count restarts from 0 |
| StoreModel.EofIgnored | thcount.go:471-480 | an EOF changes nothing, the error count included |
| StoreModel.RunKeepsFlagsCover | thcount.go:460-511 | a worker's run keeps every set bit in a row whose flag is set |
| CountStore.CountData.constructor | thcount.go:78-84 | a new store is the empty store in the given mode |
| CountStore.CountData.SetCell | thcount.go:370-400 | one bit of the table is set, nothing else |
| CountStore.CountData.ClearRow | thcount.go:384-386 | the loop makes one row all false |
| CountStore.CountData.Command | thcount.go:371-432 | the switch changes the store as the value model's Dispatch says |
| CountStore.CountData.ProcessCode | thcount.go:353-434 | the new store and the result are those of the value model's Process |
| CountStore.CountData.FeedCode | thcount.go:497-501 | one trimmed piece is processed and counted as FeedOne says |
| CountStore.CountData.FeedCodes | thcount.go:496-512 | the pieces are fed in order as Feed says, and the text carried on is Carry of the pieces |
| CountStore.CountData.IngestChunk | thcount.go:490-512 | one read chunk changes the store as Ingest says and returns the carried text |
| CountStore.CountData.Worker | thcount.go:455-517 | the worker loop changes the store as the value model's Worker says |

## Left out

- Serial-port discovery and opening, the HTTP server and its templates, the outbound-IP lookup, `main`'s command-line handling and the commented-out handlers are not part of this model. They are operating-system, network and UI code.
- The "leader" sort of the web page is left out. It relies on `sort.SliceStable` with a comparator that is not a strict weak order, so there is no ordering to prove.
- `readState`/`writeState` (JSON files) and the file creation in `saveData` are left out. `CountData.SaveData` returns the text `writeTextStream` would write, or `None` when `hasCars` is false, instead of creating a file. `CountData.WriteTextStream` returns the whole text; a writer that fails part-way, where Go returns the error of `io.WriteString` early, is not modelled.
- `CountData.ProcessCode` does not call `saveData` (QUIT, CLEAR of car 0, SAVE), `status` (STATUS) or the count-mode printout (CA). These only write files and logs and do not change the store.
- Logging, printing, the `debug` switch and the real clock are left out. Time is an argument.
- Goroutines, the channel and the unsynchronised sharing of the store and of `quit` between workers are left out. One worker runs at a time.
- `StoreModel.Run`, `StoreModel.Ingest`, `CountData.FeedCodes`, `CountData.IngestChunk` and `CountData.Worker` require a scanner number below 20. Go starts one worker per serial port found, and a 21st port would make `count.scanners[workerId]` index past the array and panic. That error path is not modelled.
- `StoreModel.Ingest` gives the scanner's last scan time and every CL, EM and check-in/check-out stamp of one chunk the single time of the read. Go reads the clock anew at each of these, so stamps within one chunk can differ there.
- `CountData.Worker` ends when its sequence of read results is used up, where Go's loop keeps reading forever. The 256-byte read buffer is not modelled: a chunk is any string. A multi-byte character split between two reads is not modelled either, since chunks are strings of characters.
- `CountData.ProcessCode`, `StoreModel.Process` and `StoreModel.Dispatch` require the precondition that the code does not make Go panic. In Go, a CL code with an empty payload or a first byte outside '&'..'Z', and an EM code whose payload reads as 53 or more, index past a row and panic. `StoreModel.Run` returns `None` when a chunk holds such a code, and `CountData.Worker` requires a run without one.
- `GoStrings.Atoi` does not model Go's clamping of values beyond 64 bits. Integers are unbounded, and the `< 100` and `< 53` tests give the same answers either way.
- `GoStrings.ToLower` lower-cases ASCII letters only. The reports it is applied to hold only ASCII letters, `-`, `,` and spaces.

## Findings

| source | as written | input that shows it | evidently intended | confidence | as-written member | corrected member |
|---|---|---|---|---|---|---|
| thcount.go:441-449 | getTally counts indices 0..25 as emergencies (the scanned flag included, emergency 26 left out) and 26..52 as clues (emergency 26 included) | a table with every bit set: CountedClues is 2700 while TotalClues is 2600 | emergencies at 1..26 and clues at 27..52, as getSolveCount counts them, so no count exceeds its total | not executed | Reports.TallyOverCounts | Reports.IntendedTallyBounds |

`CountData.GetTally` keeps the tally as written, because that is what the
program reports. `Reports.IntendedTally` is the corrected definition.
