# Verified models of the operating-systems exercises

Dafny models of the concurrent and stateful programs of the repository, and proofs about all their runs. Each
concurrent program is a state machine whose steps are given by functions, next to a class (or a set of methods)
that carries out the same steps by updating fields and arrays in loops, as the program does. The methods are
proved equal to the step functions; the theorems are about the step functions and so hold for every interleaving.

`dafny verify dfyconfig.toml` checks everything.

| program | files | what is proved |
|---|---|---|
| Santa, reindeer and elves (lab09) | `Santa*.dfy` | no lost wake-up, no deadlock, reindeer before elves, counters frozen while Santa is away, exact accounting; when Santa can still make a trip; when elves in the workshop are distinct |
| Pizzeria with System V semaphores (lab07) | `Pizzeria*.dfy` | mutual exclusion, oven and table accounting, who gets past which semaphore, deadlock freedom; when pizzas are conserved, when the table counter is right, when the scans end and stay in bounds, when overtaking is bounded |
| Row-addressed file (lab05, producer and consumer) | `RowFile*.dfy`, `CText.dfy` | the index and the splice refine "append text to row r"; independence of the interleaving end to end |
| Image negation (lab08) | `Negat*.dfy` | both parallel methods end, and equal sequential negation, in every interleaving; when reading a cell twice is harmless |
| Plain PGM (lab08) | `Pgm*.dfy`, `CText.dfy` | parsing undoes printing; files of any layout are read; line lengths |
| Pipeline interpreter (lab05/ex1) | `Pipeline.dfy`, `Sequences.dfy` | argument splitting, wiring of pipes |
| Connection broker (lab06, System V server) | `Broker*.dfy` | exclusive connections, refinement of an ordered map, which requests succeed, who can end the server |
| Tic-tac-toe server (lab10, TCP) | `Match*.dfy` | partition of the clients, matching, what every board cell goes back to |

## What the proofs say about the code

Where a property one would expect does not hold of the code, the model keeps the code and a theorem says exactly
when the property holds.

* Santa can be left waiting for ever. After a trip a reindeer may leave its wait loop, come back and be counted
  before the others have noticed that they may go; they find the counter above zero and stay, uncounted, so the
  quota is never reached again (`TripPossibleIff`, `AlwaysCanFinishIff`). It cannot happen with one reindeer or
  one trip; it can with the program's nine and three.
* Santa returns by `break` from inside `synchronized`, so he keeps the mutex, and no other thread gets it again
  (`NoDeadlock`).
* The wait of an elf for Santa's help is not in a loop. A spurious wake-up there, which POSIX.1-2017 permits for
  `pthread_cond_wait`, lets an elf fill two places of the workshop (`AlwaysDistinctIff`). Such a wake-up
  releases an elf before Santa has come, and so does the third elf's broadcast for the first two
  (`ElvesAlwaysWaitIff`).
* A supplier gives back the permit for a free table place before it has taken the pizza. Unless nobody steps between
  its semaphore operation and its scan, a cook can find the table full and scan past its end (`ScansSafeIff`).
  The notes in lab07/wnioski.txt say that there were never more than five pizzas on the table; that rests on this
  timing.
* A supplier holds no semaphore while it scans the table and takes a pizza. Two suppliers that find the same slot
  occupied deliver the same pizza, and another one stays on a table that is empty by its permits (`TakenTwice`,
  `AccountedIff`). A supplier may look at any number of slots in vain (`ScansEndIff`), and a pizza may be overtaken
  any number of times (`OvertakenAtMostIff`). All this needs two suppliers, a cook and an interrupted delivery, and nothing else.
* The queue start advances by one wherever the pizza was. So one interrupted supplier is enough for a pizza placed
  at the start to be passed over (`OvertakingBoundedIff`); that costs it one delivery at most (`OneDeliveryLate`).
* Cook and supplier change `tables_taken` without protection. One of each is enough for a lost update, even if no
  delivery is interrupted, and nobody corrects the counter afterwards (`CounterAlwaysRightIff`).
* The method `numbers` is right if line 169 of `negate.c` loads the cell once. The expression as written loads it
  twice; then it is right in all interleavings exactly when every value leaves the same remainder as its complement
  modulo the number of threads (`AlwaysNegatesIff`).
* The splice through the temporary file is exact exactly when that file was not longer than the result
  (`Consumer.Splice`). A leftover file that is longer than the file after the first message leaves its tail in the
  data file for good; any other does no harm (`Consumer.Consume`).
* In the broker a client that is busy, or not registered, ends the server by asking for a connection or for the list
  (`ExitsIff`). Exclusivity itself needs no assumption on identifiers (`Exclusive`).

## Modelling decisions

* Thread, process and quota counts are parameters, except that the reindeer quota is the number of reindeer, as in
  the program. Table and oven capacities, the client table and the PGM line length have the program's values.
* lab09: one step runs from obtaining the mutex to giving it up. Spurious wake-ups are always allowed in waits that
  sit in a loop, and by a flag in the one that does not. "Ready" means able to step without any.
* lab07: one step of a cook is a semaphore operation with the code up to the next one; the sections make cooks exclude
  each other. The increment of the table counter (`cook.c:129`), which suppliers change too, is two steps, a load and
  a store. A supplier's code is cut finer, because nothing protects it: its semaphore operation, each look at a slot
  (lines 69-70), moving the start and reading the slot (71-73), loading the counter (74), and storing it and clearing
  the slot (74-75) are steps of their own. A cook's scan of the table is one step: only a supplier can come in between,
  and it can only free a slot. Moving the queue start is one step: only another supplier could interfere, the
  invariants proved of suppliers that interrupt each other do not depend on the start, and the runs shown to fail do
  not interrupt each other there. The flag `atomicDelivery` restricts the schedules to those in which nobody else steps during a delivery; every theorem
  that depends on it says exactly how.
* lab05: row numbers are at least 1, texts contain neither backslash nor NUL where the end-to-end statement is made,
  frames reach the pipe whole, as the producers' lock ensures, and there is one consumer.
* lab08: cells are at most the maximum, which is at most 255. The load at line 169 and the write at line 171 are
  separate steps.
* lab10: accepting a connection is one step. The clients' mutex keeps other connections out of it, but a game that
  ends takes a client's own mutex or none (`server.c`, lines 261-263 and 306-323) and may free a slot behind the scan,
  so "first free slot" means first in a scan without such an interruption. The two players of an ending game are
  disconnected in two steps. A game may end by the rules at any time.

## Model

| member | source | states |
|---|---|---|
| SantaTheorems.NoLostWakeup | lab09/src/main.c:79-157 | in every run: a sleeping Santa has too few reindeer and too few elves, a sleeping reindeer a positive counter, a deferred elf a full workshop |
| SantaTheorems.NoDeadlock | lab09/src/main.c:75-160 | in every run: before Santa finishes some thread can step without a spurious wake-up; after he has finished none ever can |
| SantaTheorems.Accounting | lab09/src/main.c:85-106 | in every run: arrivals = quota * trips + counter, admissions = quota * helps + counter, and exactly quota * trips arrivals when Santa finishes |
| SantaTheorems.CountersFrozen | lab09/src/main.c:87-104 | while Santa has released the mutex for a trip or a help, no run of the others changes the counter he relies on or the cleared workshop |
| SantaTheorems.ElfAccounting | lab09/src/main.c:136-158 | without spurious wake-ups at line 155: the elves parked there number the counter, or one when it is full; ids in the workshop and in every helped group are distinct |
| SantaTheorems.ElfAccountingSpurious | lab09/src/main.c:136-158 | with spurious wake-ups the parked elves are at most that many |
| SantaTheorems.AlwaysDistinctIff | lab09/src/main.c:144-157 | the elves in the workshop are distinct in all runs iff line 155 never wakes spuriously or the quota is one |
| SantaTheorems.ElvesAlwaysWaitIff | lab09/src/main.c:149-157 | counted elves stay in their wait until Santa comes, in all runs, iff the quota is one and line 155 never wakes spuriously |
| SantaProgress.TripPossibleIff | lab09/src/main.c:117-127 | from any state the invariant allows, a further trip is possible iff no reindeer sits uncounted in its loop while the counter is above zero |
| SantaProgress.StrandedForever | lab09/src/main.c:124-126 | once that is so, no run makes another trip and Santa never finishes |
| SantaProgress.StrandedReachable | lab09/src/main.c:88-126 | with two reindeer and two trips such a state is reached from the start without spurious wake-ups |
| SantaProgress.AlwaysCanFinishIff | lab09/src/main.c:75-130 | every reachable state still allows Santa to finish iff there is one reindeer or one trip |
| SantaTheorems.ProgramCounts | lab09/src/utils.h:9-13 | what the three equivalences say for the program's own counts |
| SantaProgress.HelpPossibleIff | lab09/src/main.c:85-158 | from every unfinished state the invariant allows, another group of elves can be helped iff the reindeer have not gathered for the last trip, or Santa is with the elves already |
| SantaProgress.Deliver | lab09/src/main.c:85-126 | from every state without stranded reindeer there is a run without spurious wake-ups that makes exactly one trip |
| SantaSafety.Keeps | lab09/src/main.c:75-160 | every step keeps the invariant on counters, program positions, workshop and history |
| SantaOrder.TripBeforeHelp | lab09/src/main.c:85-91 | with all reindeer counted and Santa not with the elves, every run that makes no trip helps nobody |
| SantaOrder.ServiceOrder | lab09/src/main.c:79-106 | in every run: the trip first, then the elves in the workshop, otherwise sleep; after a trip that is not the last straight to the elves if they fill the workshop |
| SantaOrder.Notified | lab09/src/main.c:90-151 | in every run a parked thread is notified by another exactly when the last reindeer arrives or a trip ends, the workshop fills or a help ends, as the case may be |
| SantaOrder.Counted | lab09/src/main.c:117-127 | in every run a reindeer counts itself exactly when it comes from outside, and leaves its loop exactly on a counter of zero |
| SantaMonitor.Monitor.constructor | lab09/src/main.c:7-10 | the initial values of the globals are the initial state |
| SantaMonitor.Monitor.ClearWorkshop | lab09/src/main.c:98-101 | the loop sets every workshop slot to 0 |
| SantaMonitor.Monitor.FinishTrip | lab09/src/main.c:92-107 | the end of Santa's section is the step function's, including the return with the mutex locked |
| SantaMonitor.Monitor.SantaSection | lab09/src/main.c:77-109 | one section of Santa is the step function's |
| SantaMonitor.Monitor.ReindeerSection | lab09/src/main.c:117-127 | one section of a reindeer is the step function's |
| SantaMonitor.Monitor.ElfSection | lab09/src/main.c:136-158 | one section of an elf is the step function's |
| PizzeriaTheorems.OvenSafe | lab07/src/SystemV/cook.c:85-117 | in every run: oven places held and free make up the capacity, remembered slots are taken and exclusive, sections exclude each other, the oven scan stays in bounds |
| PizzeriaTheorems.AccountedIff | lab07/src/SystemV/supplier.c:62-78 | in every run the pizzas made are those in hand, on the table and delivered, and in every run the occupied slots are those announced, placed and claimed, each iff deliveries are not interrupted, or there is at most one supplier, or no cook |
| PizzeriaTheorems.TakenTwice | lab07/src/SystemV/supplier.c:64-75 | otherwise a run from the start delivers the first of two pizzas twice and leaves the second on a table without permits for it |
| PizzeriaTheorems.TablePermits | lab07/src/SystemV/supplier.c:62-78 | in every run: table permits and the cook in the section make up the capacity, announced + placed + claimed pizzas are at most the occupied slots, so some slot is occupied whenever a delivery is under way |
| PizzeriaTheorems.CounterAlwaysRightIff | lab07/src/SystemV/cook.c:127-129 | whenever no cook is about to count its pizza the table counter is the number of occupied slots, in every run, iff there are no cooks or no suppliers |
| PizzeriaTheorems.CountLost | lab07/src/SystemV/supplier.c:74 | otherwise a run from the start, with an uninterrupted delivery, ends with nobody near the table, one pizza on it and the counter at two |
| PizzeriaEndless.ScansEndIff | lab07/src/SystemV/supplier.c:68-77 | in every run every supplier's scan ends within one round, or within any larger number of looks, iff deliveries are not interrupted, or there is at most one supplier, or no cook |
| PizzeriaEndless.SearchesLong | lab07/src/SystemV/supplier.c:68-77 | otherwise, for every n, a run from the start in which a supplier has looked 5 n times in vain and goes on |
| PizzeriaTheorems.ScansSafeIff | lab07/src/SystemV/cook.c:121-132 | no run drives a scan out of its array iff deliveries are not interrupted, or there are no cooks, or no suppliers |
| PizzeriaTheorems.Overrun | lab07/src/SystemV/supplier.c:62-70 | otherwise a run from the start leads a cook past the end of the table |
| PizzeriaTheorems.NeverStuckIff | lab07/src/SystemV/cook.c:85-139 | in every reachable state in which no scan has left its array someone can step, however deliveries interleave, iff there are cooks and suppliers |
| PizzeriaGuards.CookEntersIff | lab07/src/SystemV/cook.c:85-123 | in every run a cook gets into the oven with a pizza iff nobody is in the section and fewer than five places are held, in to take one out iff nobody is in the section, and to the table iff nobody is there and it is not full, but for deliveries under way and stray pizzas |
| PizzeriaGuards.SupplierGoesOnIff | lab07/src/SystemV/supplier.c:62-64 | in every run a supplier can claim a pizza iff one on the table is announced and not claimed |
| PizzeriaGuards.OvenReaches | lab07/src/SystemV/cook.c:85-105 | for every number up to five and to the number of cooks, a run from the start with so many pizzas in the oven |
| PizzeriaGuards.TableReaches | lab07/src/SystemV/cook.c:121-139 | for every number up to five, a run from the start with so many announced pizzas on the table |
| PizzeriaGuards.AnyKindDelivered | lab07/src/SystemV/cook.c:52 | each of the ten kinds of pizza can be made and delivered |
| PizzeriaOvertaking.OvertakingBoundedIff | lab07/src/SystemV/supplier.c:68-78 | in every run every pizza put on the table leaves it within its distance from the queue start plus one further deliveries, iff deliveries are not interrupted, or there are no cooks, or no suppliers |
| PizzeriaOvertaking.BoundedOvertaking | lab07/src/SystemV/supplier.c:68-78 | that bound from any state without a delivery under way, also for a single interrupted supplier |
| PizzeriaOvertaking.OneDeliveryLate | lab07/src/SystemV/supplier.c:68-78 | from any state of a single supplier every slot is freed within the table's capacity plus one deliveries |
| PizzeriaEndless.OvertakenAtMostIff | lab07/src/SystemV/supplier.c:68-78 | in every run no pizza outstays as many deliveries as the table has slots, or any larger number, iff deliveries are not interrupted, or there is at most one supplier, or no cook |
| PizzeriaEndless.NeverTaken | lab07/src/SystemV/supplier.c:70-75 | otherwise, for every n, a run from the start in which a pizza outstays n deliveries |
| PizzeriaOvertaking.PassedOver | lab07/src/SystemV/supplier.c:70-72 | a run from the start to a state where a cook is about to place a pizza at the queue start while a supplier has chosen a farther slot |
| PizzeriaOvertaking.NotTakenInTime | lab07/src/SystemV/supplier.c:71-75 | in that state the bound fails |
| PizzeriaRuns.Scan | lab07/src/SystemV/supplier.c:68-70 | a scan nobody disturbs stops at the first occupied slot from the queue start, within one round |
| PizzeriaRuns.Collect | lab07/src/SystemV/supplier.c:66-78 | the fine steps of an undisturbed delivery amount to taking that pizza at once |
| PizzeriaSafety.Keeps | lab07/src/SystemV/cook.c:85-139 | every step of every cook and supplier keeps the semaphore and oven accounting, and the pizzas announced, placed and claimed within the occupied slots |
| PizzeriaSafety.KeepsOrder | lab07/src/SystemV/supplier.c:62-78 | where deliveries cannot disturb each other, every step also keeps pizzas and slots accounted for, at most one delivery under way, and its slot untouched |
| PizzeriaSafety.KeepsInBounds | lab07/src/SystemV/cook.c:121-132 | with uninterrupted deliveries no step drives a scan out of its array |
| PizzeriaSafety.OvenScanInBounds | lab07/src/SystemV/cook.c:87-97 | a permit for the oven implies a free slot |
| PizzeriaSafety.TableScanInBounds | lab07/src/SystemV/cook.c:121-132 | in front of the table there is a free slot iff the permits exceed the deliveries under way and the pizzas gone astray |
| PizzeriaSafety.SupplierScanStops | lab07/src/SystemV/supplier.c:68-78 | while a delivery is under way some slot is occupied |
| PizzeriaModel.FirstFree | lab07/src/SystemV/cook.c:91-97 | the scan finds the first free slot, or there is none |
| PizzeriaModel.FirstTaken | lab07/src/SystemV/supplier.c:68-70 | the circular scan finds the first occupied slot from the queue start, or there is none |
| PizzeriaMemory.Pizzeria.constructor | lab07/src/SystemV/pizzeria.c:51-69 | the semaphores' initial values and an empty oven and table are the initial state |
| PizzeriaMemory.Pizzeria.FindFree | lab07/src/SystemV/cook.c:91-97 | the loop stops at the first free slot, or at the end of the array |
| PizzeriaMemory.Pizzeria.PreparePizza | lab07/src/SystemV/cook.c:52-82 | starting a pizza is the step function's |
| PizzeriaMemory.Pizzeria.PutInOven | lab07/src/SystemV/cook.c:85-97 | entering the oven section and filling a slot, or overrunning the array, is the step function's |
| PizzeriaMemory.Pizzeria.LeaveToBake | lab07/src/SystemV/cook.c:102-105 | leaving the section is the step function's |
| PizzeriaMemory.Pizzeria.TakeOutOfOven | lab07/src/SystemV/cook.c:109-113 | entering the section again and clearing the slot is the step function's |
| PizzeriaMemory.Pizzeria.LeaveOven | lab07/src/SystemV/cook.c:115-117 | giving back section and place is the step function's |
| PizzeriaMemory.Pizzeria.PlaceOnTable | lab07/src/SystemV/cook.c:121-128 | taking section and permit and filling a table slot, or overrunning a full table, is the step function's |
| PizzeriaMemory.Pizzeria.LoadCounter | lab07/src/SystemV/cook.c:129 | the load of the increment is the step function's |
| PizzeriaMemory.Pizzeria.StoreCounter | lab07/src/SystemV/cook.c:129 | the store of the increment is the step function's, whatever the counter is by then |
| PizzeriaMemory.Pizzeria.AnnouncePizza | lab07/src/SystemV/cook.c:137-139 | announcing the pizza is the step function's |
| PizzeriaMemory.Pizzeria.ClaimPizza | lab07/src/SystemV/supplier.c:62-64 | exchanging an announced pizza for a free place is the step function's |
| PizzeriaMemory.Pizzeria.LookAtSlot | lab07/src/SystemV/supplier.c:69-70 | one iteration of the scan is the step function's |
| PizzeriaMemory.Pizzeria.ReadSlot | lab07/src/SystemV/supplier.c:71-73 | advancing the start and reading the slot is the step function's |
| PizzeriaMemory.Pizzeria.LoadForDelivery | lab07/src/SystemV/supplier.c:74 | the load of the decrement is the step function's |
| PizzeriaMemory.Pizzeria.ClearSlot | lab07/src/SystemV/supplier.c:74-75 | storing the counter and clearing the slot is the step function's and delivers the number that was read |
| PizzeriaMemory.Pizzeria.ScanTable | lab07/src/SystemV/supplier.c:68-70 | the circular loop of an undisturbed supplier stops at the first occupied slot from the queue start |
| PizzeriaMemory.Pizzeria.CollectPizza | lab07/src/SystemV/supplier.c:66-78 | an undisturbed supplier takes that pizza and delivers exactly it |
| RowFileTheorems.EndToEnd | lab05/src/producer.c:27-38 | for any producers with distinct rows, any chunk sizes and any interleaving of whole frames, each producer's row is its whole file and every other row is empty |
| RowFileTheorems.FinalLines | lab05/src/consumer.c:97-110 | without newlines in the files, line r of the finished file is row r |
| RowFileTheorems.RowAfter | lab05/src/consumer.c:97-110 | after any messages a row is its old text followed by what was sent to it, in arrival order |
| RowFileTheorems.FramesEncode | lab05/src/consumer.c:14-24 | reading frames undoes writing them |
| RowFileTheorems.SpliceIsAppend | lab05/src/consumer.c:62-69 | inserting at the end of a row in the flat file is appending to that row |
| RowFileTheorems.PositionFromIndex | lab05/src/consumer.c:55-60 | the position computed from the shifted index is the end of the row |
| RowFileTheorems.JoinChunks | lab05/src/producer.c:27-30 | the pieces of a file are not empty, have n characters but for the last, which has no more, and make up the file |
| RowFileTheorems.EmptyTextEnds | lab05/src/consumer.c:97-110 | a message without text is the last one read |
| RowFile.CopyRange | lab05/src/consumer.c:26-33 | the byte loop writes the range of the source over the destination at its position, with one repeated byte where the range leaves the file |
| RowFile.Pipe.ReadToSeparator | lab05/src/consumer.c:14-24 | the loop returns what stands before the first backslash and consumes it |
| RowFile.Produce | lab05/src/producer.c:27-38 | the loop sends the encoded frames of the file's pieces, in order |
| RowFile.Consumer.constructor | lab05/src/consumer.c:84-93 | the emptied file and the initial index stand for no rows |
| RowFile.Consumer.AddLines | lab05/src/consumer.c:45-53 | the loop adds empty rows, in file and index, until the row exists; a file that is too long stays too long by as much |
| RowFile.Consumer.Position | lab05/src/consumer.c:55-60 | the loop sums the index and counts the newlines |
| RowFile.Consumer.Splice | lab05/src/consumer.c:62-68 | both files become the spliced text written over the old temporary file; this is the splice itself iff that file was not longer |
| RowFile.Consumer.WriteAddLine | lab05/src/consumer.c:43-72 | the index refines appending the text to the row, the two files agree afterwards, and the file is that of the rows, or too long by exactly what it or the temporary file was before |
| RowFile.Consumer.Consume | lab05/src/consumer.c:97-110 | the loop leaves the index standing for the rows after all messages of the pipe, and the file too iff the leftover temporary file was not longer than the file after the first message |
| NegateNumbers.RacingIsCorrect | lab08/src/negate.c:158-173 | under every interleaving each cell is written only by the thread whose index is the smaller of value and complement modulo the thread count, and at most once; when all threads are done exactly once, with the sequential negation as the image |
| NegateNumbers.AlwaysNegatesIff | lab08/src/negate.c:166-172 | all completed runs negate the image iff line 169 loads once or every value is congruent to its complement |
| NegateNumbers.NumbersEnd | lab08/src/negate.c:136-173 | every run ends within three steps for each thread and cell; one that cannot go on is completed, and with one load has negated the image |
| NegateNumbers.NegatedTwice | lab08/src/negate.c:169-171 | with two loads and an incongruent cell, a run in which two threads write the cell and it ends up unchanged |
| NegateBlocks.ColumnsPartitioned | lab08/src/negate.c:189-190 | every column lies in the range of exactly one thread |
| NegateBlocks.CoefficientIsLeast | lab08/src/negate.c:189 | the columns of a thread are the fewest that cover the image |
| NegateBlocks.BlocksAreCorrect | lab08/src/negate.c:184-194 | under every interleaving each cell is written at most once, and when all threads are done exactly once, with the sequential negation as the image |
| NegateBlocks.BlocksEnd | lab08/src/negate.c:136-194 | every run ends within one step for each cell, and one that cannot go on has negated the image |
| NegateTheorems.MethodsAgree | lab08/src/negate.c:130-147 | completed runs of either method give the sequential negation, whatever the thread count |
| NegateTheorems.TwiceRestores | lab08/src/negate.c:130-147 | any method takes every cell to its complement, and any two methods with any two thread counts restore the image |
| NegatePasses.NumbersInTurn | lab08/src/negate.c:130-173 | the passes of all threads of "numbers", one after another in any order, negate the image |
| NegatePasses.BlocksInTurn | lab08/src/negate.c:130-194 | the same for "block" |
| NegatePasses.SoloIsPass | lab08/src/negate.c:166-173 | the steps of one undisturbed thread of "numbers" amount to its pass |
| Negation.Image.NumbersThread | lab08/src/negate.c:166-173 | the loop of one undisturbed thread is its pass: a cell becomes its complement iff the index is the smaller of value and complement modulo the thread count |
| Negation.Image.NegateNumbers | lab08/src/negate.c:136-173 | the threads, under any schedule, leave the image the step functions give, and the sequential negation when all are done and line 169 loads once |
| Negation.Image.NegateColumn | lab08/src/negate.c:191-193 | the strided loop flips exactly the cells of its column |
| Negation.Image.BlocksThread | lab08/src/negate.c:189-194 | the nested loops flip exactly the cells of the thread's columns |
| Negation.Image.NegateBlocks | lab08/src/negate.c:136-194 | the threads, under any schedule, leave the image the step functions give, and the sequential negation when all are done |
| PgmTheorems.PrintThenParse | lab08/src/negate.c:62-128 | parsing a printed image gives back type characters, sizes, maximum and all cells, and printing it again the same text |
| PgmTheorems.CellLinesFit | lab08/src/negate.c:115-123 | no line of cells is longer than 70 characters with its newline |
| PgmTheorems.HeaderParses | lab08/src/negate.c:68-89 | the three header lines are read back, whatever follows them |
| PgmTheorems.BodyParses | lab08/src/negate.c:91-98 | the printed lines of cells are read back as the cells |
| PgmLayouts.AnyLayoutParses | lab08/src/negate.c:62-98 | any file within the buffers is read as its first line, sizes, maximum and cells modulo 256, however blanks and lines are distributed |
| PgmLayouts.CellsAligned | lab08/src/negate.c:119 | a printed cell is right-aligned in three characters with a blank behind it |
| PgmLayouts.LinesAreFull | lab08/src/negate.c:115-122 | lines hold 17 cells as long as there are as many, and 18 would not fit into 70 characters |
| Pgm.PrintCells | lab08/src/negate.c:118-123 | the loop prints the cells in full lines and an unterminated rest |
| Pgm.SaveImage | lab08/src/negate.c:105-128 | the printed text |
| Pgm.ReadLine | lab08/src/negate.c:93-97 | the token loop appends the values of the line's tokens |
| Pgm.LoadImage | lab08/src/negate.c:62-103 | the parsed image, or none where the file ends too early |
| Pipeline.SegmentsUndoBars | lab05/src/ex1.c:75-99 | splitting undoes joining commands by any arguments that begin with a bar, iff the last command is not empty or has such an argument after it; no argument of a command may begin with a bar, and nothing else is asked |
| Pipeline.SegmentsRejoin | lab05/src/ex1.c:75-99 | every argument list is such a joining of its commands |
| Pipeline.AppendArgs | lab05/src/ex1.c:75-99 | the loops append the segments between the arguments that start with a bar |
| Pipeline.FindBar | lab05/src/ex1.c:78-80 | the loop finds the first separator or the end |
| Pipeline.CopyCommand | lab05/src/ex1.c:84-90 | the loop copies the segment |
| Pipeline.Shell.Spawn | lab05/src/ex1.c:131-144 | what a child has as input and output and still holds at its exec |
| Pipeline.Shell.Exec | lab05/src/ex1.c:127-155 | every child is wired to its neighbours and holds no other end, the parent has closed all, each pipe end is held by exactly one child, and each child feeds the next one only |
| BrokerTheorems.Exclusive | lab06/src/SystemV/server.c:118-148 | between two successful connections involving a client there is a disconnect or stop from it |
| BrokerTheorems.BusyStays | lab06/src/SystemV/server.c:98-148 | a busy client stays busy and is in no connection until it frees itself |
| BrokerTheorems.ExitsIff | lab06/src/SystemV/server.c:118-174 | after any messages, which next message ends the server |
| BrokerTheorems.HandleRefines | lab06/src/SystemV/server.c:98-223 | every handler has the outcome an insertion-ordered map gives, and refines its meaning on the map iff it does not register an identifier in use |
| BrokerTheorems.ServerRefines | lab06/src/SystemV/server.c:62-223 | as long as no identifier is reused while registered, every sequence of messages has the outcomes the map gives and leaves an array that stands for the map |
| BrokerTheorems.ConnectsIff | lab06/src/SystemV/server.c:98-148 | after any messages a connection succeeds iff both clients are registered and in none since they registered or disconnected, and each is told the queue the other registered |
| BrokerModel.IndexOf | lab06/src/SystemV/server.c:180-191 | the first entry with an identifier, or none |
| Broker.Server.constructor | lab06/src/SystemV/server.c:46 | the empty registry |
| Broker.Server.Search | lab06/src/SystemV/server.c:182-191 | the loop stops at the first entry with the identifier |
| Broker.Server.FindQueue | lab06/src/SystemV/server.c:180-196 | the queue of a free client, or -1 |
| Broker.Server.Mark | lab06/src/SystemV/server.c:198-205 | the first entry with the identifier becomes busy or free |
| Broker.Server.Remove | lab06/src/SystemV/server.c:207-223 | the shift-left loop removes the first entry with the identifier and keeps the order |
| Broker.Server.Receive | lab06/src/SystemV/server.c:71-92 | one message has the outcome and the effect of its handler |
| MatchTheorems.Partition | lab10/tcp/src/server.c:155-213 | in every run: taken clients are the pending one and the players of disjoint games, names differ, boards are played in turn |
| MatchTheorems.NewcomerMatched | lab10/tcp/src/server.c:188-213 | a newcomer gets a free slot and plays second against the pending client, or becomes pending |
| MatchTheorems.CellsStay | lab10/tcp/src/server.c:258-274 | no run overwrites an occupied cell |
| MatchBoards.BoardTracesMoves | lab10/tcp/src/server.c:268-273 | in every run a cell is occupied iff a move to it was made while it was blank, and holds the tick of the player on turn then |
| MatchBoards.MoveFills | lab10/tcp/src/server.c:268-273 | one move fills the addressed blank cell for the player on turn and passes the turn, or changes nothing; all else stays |
| MatchBoards.BothPlayersFreed | lab10/tcp/src/server.c:260-265 | a game that ends frees its two players one after the other, the leaving one first, and nobody else |
| MatchBoards.TurnedDownIff | lab10/tcp/src/server.c:175-186 | in every run a connection is turned down iff a taken client's name agrees in the first 16 characters |
| MatchBoards.LobbyReaches | lab10/tcp/src/server.c:188-200 | any number of clients up to 32 can be connected, and with 32 nobody new |
| MatchTheorems.Keeps | lab10/tcp/src/server.c:143-324 | every step keeps the invariant |
| Matchmaking.Lobby.constructor | lab10/tcp/src/server.c:75-81 | the empty table |
| Matchmaking.Lobby.CheckUsername | lab10/tcp/src/server.c:175-186 | the loop tells whether no taken client has the name |
| Matchmaking.Lobby.CreateClient | lab10/tcp/src/server.c:188-200 | the loop takes the first free slot, or reports a full table |
| Matchmaking.Lobby.ConnectPending | lab10/tcp/src/server.c:202-213 | the loop starts a game with the first pending client, or leaves the newcomer pending |
| Matchmaking.Lobby.AcceptConnection | lab10/tcp/src/server.c:155-168 | the section under the mutex is the step function's, with the matching reply, or finds the table full and changes nothing before the exit |
| Matchmaking.Lobby.PlayMove | lab10/tcp/src/server.c:268-273 | a move is the step function's |
| Matchmaking.Lobby.Disconnect | lab10/tcp/src/server.c:365-367 | the slot is free |
| Matchmaking.Lobby.LeaveGame | lab10/tcp/src/server.c:260-263 | the disconnect of the player whose turn it is, is the step function's |
| Matchmaking.Lobby.FinishGame | lab10/tcp/src/server.c:317-322 | the first disconnection at the end of a game is the step function's |
| Matchmaking.Lobby.DisconnectLast | lab10/tcp/src/server.c:306-309 | the second disconnection is the step function's |
| CText.StrtolDecimal | lab08/src/negate.c:79-95 | conversion reads back a printed number up to the first character that is not a digit |
| CText.StrtolSpaced | lab05/src/consumer.c:101 | leading white space and a plus sign make no difference |

## Left out

- PizzeriaTheorems.NeverStuckIff: says nothing about states in which a scan has left its array, because a cook has no defined next step there.
- BrokerTheorems.ServerRefines: an identifier registered again while it is in use is two entries in the array, which no map describes; the other broker theorems do not need this.
- Matchmaking.Lobby.CreateClient: the first free slot of an uninterrupted scan; a game that ends meanwhile may free an earlier one.
- RowFile.Consumer.Consume: stops where the pipe is exhausted; the program makes one more call then, with an empty row number and the index -1. Row numbers below 1 are excluded for the same reason.
- PgmTheorems.PrintThenParse: sizes and maximum fit an `int`, and the image has width times height cells; the fixed size of the cell array is not modelled.
- Integer overflow of row lengths, positions and `strtol`, and the movement of buffers by `realloc`.
- Creation and teardown of threads, processes, sockets, queues, semaphores and shared memory, signals, cancellation, sleeps, timing and printing.
- lab07/src/POSIX, lab06/src/POSIX, lab10/udp and the clients of lab06 and lab10: variants of the modelled servers and terminal handling.
- `check_board`, message contents and the pinger of lab10; a game ends at an arbitrary time instead.
- The failing of a send to a queue other than descriptor -1 in lab06, and the text of the list.
- Aliases, trimming and tokenising of lab05/ex1: arguments are already split.
- Several consumers on one pipe in lab05.
- lab01 to lab04, kol1 and kol2: file copying, benchmarks, signal delivery and short exercises.
