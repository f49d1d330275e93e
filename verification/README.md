# Verified models of the logger and of its MAT-file library

The repository is a real-time logger for C++ (`src/`, `include/`) on top of a library for MAT files in C
(`matio/`). This project models the parts of both in which it is hard to see that the code is right, and
proves what they are meant to do for all inputs, all runs and all interleavings.

**The logger.** One logged variable is a pool of 20 blocks that a producer and a consumer pass round through a
read queue and a write queue. `BlockExchange` is that protocol as a machine of atomic steps of both threads: the
consumer pops, copies column by column, reads the number of valid elements, resets and pushes back; the producer
collects returned blocks one at a time. Its invariant says where every block and every sample is. `Sequential`
shows which steps a whole call is, `VariableBuffer` is the class itself, whose methods are proved to do exactly
those steps on heap objects, down to the loop that drains it. `MatLogger` adds the map of variables, the containers
and the draining destructor; `Flusher` is the condition-variable protocol that wakes the flusher thread and stops it.

**The option scanner** behind the library's command-line tool permutes `argv` in place. `Permute` proves the block
exchange by cycles (the number theory of the gcd), `Getopt` the scanner: a whole run of `getopt_long` reports the
events of a reference scan and leaves the options, the other arguments and what follows `--` in their order.
`GetoptLaw` says what command lines mean without the scanner: a list of options with arguments and other words,
rendered into arguments, is read as that list.

**MAT files.** `Level5` says which bytes stand for a tree of numeric, text, sparse, cell and struct variables;
`Level5Writer` writes them with lengths that are filled in afterwards, `Level5Reader` and `Level5Input` read them,
and `Level5RoundTrip` proves that what was written is read back, as `Level5Files` does with both. `Level5Format` is the
format by positions and values of bytes, for every program: what is written here is in it, and everything in it is
read here, data packed in tags and slots of other sizes included; `Level5Examples` has whole variables byte by byte.
`Level5Size` is the predictor of compressed
lengths. `MatData` goes the whole way from the logger's data to a variable, to the bytes of an uncompressed Level 5
file, and back; the logger's backend writes such files when MATLOGGER_2_USE_MAT5 is set and MAT 7.3 files otherwise
(src/matio_backend.cpp:74-80). `Sparse4` is the sparse format of Level 4 files, `Utf` the conversions between 16-bit
text and UTF-8, `ChunkSize` the chunking of datasets.

**Index walkers.** `Subscripts` relates subscripts and linear indices; `CellIndex`, `StructIndex`, the `Slab` modules
and `Slab2` prove which elements the incremental odometers and seeks visit, and when these are exactly the ones a
request means. `Slab` is the walk of an index over a slab of any rank and the copy from memory that follows it
(`GET_DATA_SLABN`, matio/src/mat5.c:3952-4032), `SlabRank4` the condition for rank 4. `SlabFile` reads the same slab
from a file, where the cursor follows the index only as far as its seeks succeed. `BlockedRead` is the reading through
a small buffer.

Methods follow the code that changes things step by step, with its branches and its loops; functions say what they
compute; lemmas say what that means. Machine integers are unbounded here except where wrapping is what the code
does (lengths and tags of 32 bits, conversions to 32 bits). Allocation always succeeds.

## Where the code does not do what is said of it

* `add_elem` is documented to return false when data could not be saved
  (include/matlogger2/utils/var_buffer.h:107). It returns true even when it discards a whole block of earlier
  samples, because a failed flush is followed by a reset all the same (lines 279-284). `AddLosesIff` gives the exact
  condition for one call in both modes, and says which block is lost: the current one, or in circular mode the oldest
  one queued. `LosslessIffNeverStarved` is the same for whole runs. It does happen: while nobody reads, the first sample
  beyond the 20 blocks is the one, in either mode, and none before it (`UnreadFromStart`).
* `ReadDataSlab2` reads whole columns at once from wherever the cursor is and so ignores where the request starts
  (matio/src/read_data.c:881-882); the compressed version skips first. `RightUnlessLaterColumns` says exactly when
  this matters.
* The walk over a slab computes one factor of its block sizes from the wrong dimension, and rounding up to the next
  block forgets the start in lower dimensions (matio/src/mat5.c:3958-3963 and 3991-3994; matio/src/read_data.c:418-447).
  Up to rank 3 neither matters (`StraightIsRight`). At rank 4 every index is the one meant if and only if
  `RightAtRank4` holds (`RightAtRank4Iff`): the start in the fourth dimension is 0 or the first two dims are equal;
  and, wherever a further step is taken in the fourth dimension, the place to go on at is a multiple of the block size
  dims[1] * dims[1] * dims[2] and less than one block ahead. With the first two dims equal this is edge[3] <= 1 or
  start[1] == 0 (`EqualDims`). `DifferentDimsMiss` and `LaterStartMisses` are requests that go wrong, one for each
  reason.
* `ReadDataSlabN` does not ask whether a seek succeeded. With a negative first stride the skip behind the last row of a
  column may go to before the beginning of the file (matio/src/read_data.c:471); then the cursor stays, and
  all that follows is read from too far on (`SkipLost`). Up to rank 3 the file is read right if and only if no column
  but the last ends in such a skip (`StraightFileRight`), which is so when the first stride is not negative or not
  larger than what is before the array (`EnoughBefore`). At rank 4 it is right if and only if this and `RightAtRank4`
  hold, or neither does and at every column the index is wrong by as much as the cursor (`FileRightAtRank4`). That can
  happen (`LossMadeUp`), but only when the first skip that is lost is the one before the third dimension is left
  (`FirstLoss`).
* The compressed version of the 2-D reader cannot go backwards: `InflateSkipData` returns at once when there is
  nothing or less to skip (matio/src/inflate.c:153-156). Strides below 1 pass the check before it, whose product of
  unsigned numbers wraps (matio/src/mat5.c:4548-4551), and get the wrong elements. `CompressedRightIff` is the
  condition: each stride is at least 1 or only one element is asked for in its dimension; `BackwardsMisses` is a
  request that fails.
* A sparse matrix without entries is written to a Level 4 file but refused when it is read (`Sparse4.RoundTrip`).
* A logical sparse matrix of doubles is written to a Level 5 file, but when it is read its doubles are taken for bytes
  and come out eight times as many (matio/src/mat5.c:3367-3372). A sparse matrix comes back if and only if it is not
  logical or has no values (`SparseIsReadIff`).
* The conversion of text to 16 bits has one slot for each character by the dims (matio/src/mat73.c:1648), but goes
  through all bytes. For variables made by `Mat_VarCreate` the slots suffice (`SlotsSuffice`). For text that was read
  from a file, with the bytes its tag says, they do if and only if the bytes hold no more characters (`FitsIff`,
  `CountFits`); `DimsTooSmall` is a case where they do not.
* The predicted length of a compressed variable is too large as soon as an empty variable is inside (`SizeExact`).
* A container that is a struct without fields is written to an uncompressed Level 5 file but cannot be read back from
  it (`ContainerRoundTrip`).
* The comment in `ReadNextCell` on empty cells at the end of a file (matio/src/mat5.c:1246-1249) describes a case
  that cannot occur: reading at the end is always an error there. The model follows the code.
* An argument such as `-a-` can end the scan in the middle (`CutExample`). For given options this can happen if and
  only if there are no long options and '-' is not an option letter (`CutIff`). Arguments that were passed over are
  then not moved behind the options, so `argv` is partitioned after a cut only if there are none (`Run`).

## Model
| member | source | states |
|---|---|---|
| BlockExchange.StepKeeps | src/var_buffer.cpp:82-262 | each atomic step of producer or consumer, in any order, keeps the invariant: the 20 blocks are in exactly one place each, nothing throws, the consumer's copy is never overwritten, and the samples accepted are those of the closed blocks and the current one in order |
| BlockExchange.RunKeeps | src/var_buffer.cpp:82-262 | the same over every interleaved run |
| BlockExchange.LosslessIffNeverStarved | src/var_buffer.cpp:166-262 | after any run, in either mode, read ++ in hand ++ queued ++ current = accepted, if and only if no block was ever full with pool and write queue empty when the next was wanted |
| BlockExchange.NothingMissing | src/var_buffer.cpp:166-262 | in every reachable state, if and only if no block was discarded and nothing overwritten |
| BlockExchange.NeverEvicts | src/var_buffer.cpp:215-230 | in producer-consumer mode nothing is overwritten over any run |
| BlockExchange.StarvedMeansReaderBehind | src/var_buffer.cpp:212-238 | samples are discarded only while 19 blocks are queued or in the reader's hand |
| BlockExchange.RoomToRead | src/var_buffer.cpp:241-249 | the push of the current block cannot fail, so the second throw is unreachable |
| BlockExchange.RoomToReturn | src/var_buffer.cpp:187-189 | the ignored push onto the write queue cannot fail |
| BlockExchange.EvictLocal | src/var_buffer.cpp:218-230 | in circular mode there is always an oldest block to pop, so the first throw is unreachable |
| BlockExchange.CircularKeepsNewest | src/var_buffer.cpp:215-230 | in circular mode exactly the oldest samples go, in order, and only when 19 full blocks and the current one hold all later ones |
| Sequential.FlushIsRun | src/var_buffer.cpp:197-262 | flush_to_queue is an uninterrupted run of the machine that ends in the state given |
| Sequential.AddIsRun | include/matlogger2/utils/var_buffer.h:262-288 | so is add_elem, with the flush and reset on a full block |
| Sequential.AddLosesIff | include/matlogger2/utils/var_buffer.h:275-285 | add_elem appends its sample to what is read, queued and current, if and only if not (the block is full and pool and write queue are empty); then exactly the current block's samples are gone, or in circular mode exactly those of the oldest block queued, which has some |
| Sequential.UnreadLosesIff | include/matlogger2/utils/var_buffer.h:262-288 | while nobody reads, n calls of add_elem lose samples if and only if n is more than there is room for in the pool and the current block, in either mode |
| Sequential.UnreadFromStart | src/var_buffer.cpp:137-149 | from the start this is the case for every n above 20 blocks; then something is missing, by overwriting if and only if the mode is circular |
| Sequential.ReadIsRun | src/var_buffer.cpp:166-195 | so is read_block; every queued block has a valid sample, so it returns false only on an empty queue |
| VariableBuffer.BufferBlock.Add | include/matlogger2/utils/var_buffer.h:235-258 | stores at the write index and advances it, or reports a full block and changes nothing |
| VariableBuffer.VariableBuffer.constructor | src/var_buffer.cpp:137-149 | 20 distinct blocks, 19 in the pool and one current, in the initial state of the machine |
| VariableBuffer.VariableBuffer.FlushToQueue | src/var_buffer.cpp:197-262 | the heap objects afterwards are the machine's state after the flush; the result says whether a block was found |
| VariableBuffer.VariableBuffer.AddElem | include/matlogger2/utils/var_buffer.h:262-288 | refuses a sample of the wrong size; otherwise the new state is that of the machine, and the result is true even when samples were discarded |
| VariableBuffer.VariableBuffer.ReadBlock | src/var_buffer.cpp:166-195 | throws in circular mode; otherwise hands out the oldest block's samples and returns the block |
| VariableBuffer.VariableBuffer.Drain | src/matlogger2.cpp:364-408 | the loop over read_block on the heap objects: throws in circular mode; otherwise ends, and what was written out is all that was queued, in order |
| Sequential.DrainReads | src/matlogger2.cpp:364-408 | reading until the queue is empty delivers the queued samples in order and leaves the current block as it was |
| VariableBuffer.VariableBuffer.SetBufferMode | src/var_buffer.cpp:269-272 | changes the mode and keeps all samples |
| MatLogger.MatLogger2.WriteBlock | src/matlogger2.cpp:364-405 | one block: the backend is called once, for a vector with as many columns as samples, otherwise with as many slices, and the bytes are those of the numbers in the call |
| MatLogger.MatLogger2.FlushVariable | src/matlogger2.cpp:364-408 | writes block after block until the queue is empty, in calls of the variable's shape only; bytes are 8 for every number in these calls, and 0 exactly when the queue was empty |
| MatLogger.MatLogger2.FlushAvailableData | src/matlogger2.cpp:339-412 | all containers in order, then every variable drained, in calls of its shape; the current blocks stay; bytes are those of all numbers given to the backend |
| MatLogger.MatLogger2.FlushToQueueAll | src/matlogger2.cpp:438-446 | true exactly when each variable had an empty current block or a free one |
| MatLogger.DrainedSucceeds | src/matlogger2.cpp:466-470 | a variable whose queue is empty can always flush, so one drain suffices |
| MatLogger.MatLogger2.QueueEverything | src/matlogger2.cpp:466-470 | the first loop of the destructor ends, after at most one pass, with every current block empty |
| MatLogger.MatLogger2.WriteEverything | src/matlogger2.cpp:472-473 | the second loop ends with every queue empty |
| MatLogger.MatLogger2.Destroy | src/matlogger2.cpp:449-473 | the destructor ends; every buffer is empty and the backend was given exactly the samples each one held, in order and in calls of the variable's shape |
| MatLogger.NumbersInCall | src/matlogger2.cpp:381-405 | rows times columns times slices of a call are the numbers of its samples |
| MatLogger.FinishedMeans | src/matlogger2.cpp:449-473 | what the file holds of a variable is everything that was accepted, if and only if no block was ever discarded and none overwritten |
| Flusher.StepKeeps | src/mat_appender.cpp:240-300 | every step of callbacks, flusher and destructor keeps the lock discipline and the meaning of the wake flag |
| Flusher.NoLostWakeup | src/mat_appender.cpp:103-107 | in every run the thread sleeps on a set flag only while its notifier is still in the critical section; at most one flush begins after shutdown |
| Flusher.RequestServed | src/mat_appender.cpp:247-274 | after a request the thread takes at most seven steps until a flush begins or it exits |
| Flusher.ShutdownEnds | src/mat_appender.cpp:282-300 | after the destructor's critical section the thread takes at most seven steps until it has exited |
| Flusher.NeverStuck | src/mat_appender.cpp:262-265 | while something is wanted of it, the thread can move or the holder of the lock can |
| Flusher.HolderLeaves | src/mat_appender.cpp:290-295 | whoever else holds the lock gets one step nearer to releasing it |
| Permute.Gcd | matio/getopt/getopt_long.c:137-149 | the result is the greatest common divisor |
| Permute.OrbitCloses | matio/getopt/getopt_long.c:171-185 | a cycle is back at its start after n / gcd steps |
| Permute.OrbitInjective | matio/getopt/getopt_long.c:171-185 | and meets no position twice before |
| Permute.OrbitSurjective | matio/getopt/getopt_long.c:171-185 | every position is met by the cycle of its residue class |
| Permute.PermuteArgs | matio/getopt/getopt_long.c:157-186 | the array afterwards has the two blocks exchanged, each in its order, and all else as before |
| Permute.ExchangedIsPermutation | matio/getopt/getopt_long.c:157-186 | no argument is lost or doubled |
| Getopt.ScanPartitions | matio/getopt/getopt_long.c:395-476 | the reference scan splits the arguments into options with their arguments and others, both in order, and what follows `--` |
| Getopt.ScanIsPermutation | matio/getopt/getopt_long.c:359-571 | the three parts together are a permutation of the arguments |
| Getopt.CutIff | matio/getopt/getopt_long.c:506-515 | a scan can end inside an argument, for some arguments, if and only if there are no long options and '-' is not an option letter |
| Getopt.NeverCut | matio/getopt/getopt_long.c:506-515 | with long options, or with '-' as an option, no scan does |
| Getopt.CutExample | matio/getopt/getopt_long.c:514-515 | an argument with which it does |
| Getopt.Scanner.ParseLongOptions | matio/getopt/getopt_long.c:194-352 | the long-option step of the reference, with exact, abbreviated and ambiguous names and its effect on optind |
| Getopt.Scanner.ShortOption | matio/getopt/getopt_long.c:506-571 | the short-option step of the reference, with required, optional and missing arguments |
| Getopt.Scanner.GetoptInternal | matio/getopt/getopt_long.c:359-571 | one call of the scanner returns the next event of the reference and keeps the layout of argv; both blocks are non-empty at every exchange |
| Getopt.Scanner.Run | matio/tools/matdump.c:837-837 | a complete run reports the events of the reference; argv is left as options, others, rest in their order and optind behind the options, if and only if the scan was not cut short or passed nothing over; after a cut the options and the others, mixed but each in order, lie before optind |
| GetoptLaw.FindLongIff | matio/getopt/getopt_long.c:226-262 | a name is found, if and only if it is an option's name or abbreviates only options used alike; ambiguous, if and only if it abbreviates others too; unknown otherwise |
| GetoptLaw.RenderedIsScanned | matio/getopt/getopt_long.c:359-571 | options in clusters, with arguments attached, in the next word or left out, long ones by name or abbreviation with and without values, behind W, unknown ones, with words between them, and any end including a missing argument: their rendering is read as exactly these reports in order, these words and this rest |
| GetoptLaw.CommandLine | matio/tools/matdump.c:837-837 | the same for a whole argument vector, whose reports a run of calls gives |
| GetoptLaw.Modes | matio/getopt/getopt_long.c:375-388 | what a plus or a minus in front of the option letters and the environment say about other words |
| GetoptLaw.FormatAndFile | matio/tools/matdump.c:837-848 | the tool's output format and a file name |
| Subscripts.LinearBound | matio/src/mat.c:1883-1905 | valid subscripts have an index below the number of elements |
| Subscripts.LinearInjective | matio/src/mat.c:1883-1905 | different subscripts have different indices, for any rank |
| Subscripts.CalcSingleSubscript2 | matio/src/mat.c:1883-1905 | the sum of subscripts times strides is added; an error exactly on a subscript out of range, with the partial sum left |
| Subscripts.CalcSubscripts2 | matio/src/mat.c:1968-1991 | subscripts whose index is the given one, all in range when it is |
| Subscripts.SubscriptsOfIndexUnique | matio/src/mat.c:1968-1991 | with the former: the two conversions are inverse to each other |
| CellIndex.Advance | matio/src/matvar_cell.c:120-133 | one carry of the odometer: the counters are the digits of the next column and the index that of its subscripts |
| CellIndex.GetCells | matio/src/matvar_cell.c:81-136 | for any rank up to 9, each element of the result is the one at start + stride * its subscripts; NULL above |
| StructIndex.GetStructs | matio/src/matvar_struct.c:348-429 | the same for rows of fields; NULL for other classes |
| StructIndex.FlatRow | matio/src/matvar_struct.c:398-410 | row p of the result starts at p times the number of fields |
| Slab.Setup | matio/src/read_data.c:437-450 | the factors, the number of elements and the offset that the walk starts with, in memory and in files |
| Slab.BlockIs | matio/src/read_data.c:441-447 | the first two block sizes are the products of the dims, and so are the others but the last, if the request is straight |
| Slab.NextColumn | matio/src/mat5.c:3952-3973 | counters, index and pointer after the rank loop, with pointer and index moving together |
| Slab.GetDataSlabN | matio/src/mat5.c:3985-4032 | element p of the result is the one at the index the walk comes to, whether or not that is the right one, on the path for consecutive rows and on the other |
| Slab.RightData | matio/src/mat5.c:3985-4032 | where elements come from the places meant, all that is read lies in the array and every element of the result is the one the request means; in memory and in files |
| Slab.DataRightIff | matio/src/mat5.c:3985-4032 | among different elements the result is the one the request means, if and only if they come from the places meant |
| Slab.StraightIsRight | matio/src/mat5.c:3952-4032 | all indices are right at any rank for straight requests, which up to rank 3 are all requests |
| SlabRank4.NextBegins | matio/src/mat5.c:3952-3973 | at rank 4 the rank loop goes on to the index of the next column, if and only if the third dimension is not left or rounding up comes out at the right place |
| SlabRank4.RightAtRank4Iff | matio/src/mat5.c:3952-4032 | at rank 4 all indices are right, if and only if a condition on dims and request holds |
| SlabRank4.EqualDims | matio/src/mat5.c:3952-4032 | with the first two dims equal: if and only if edge[3] <= 1 or start[1] == 0 |
| SlabRank4.DifferentDimsMiss | matio/src/mat5.c:3991-3997 | a request of rank 4 that goes wrong because of the factor |
| SlabRank4.LaterStartMisses | matio/src/mat5.c:3958-3963 | another one because of the rounding |
| SlabFile.SeekColumn | matio/src/read_data.c:412-433 | counters, index and file cursor after the rank loop, where a seek that fails leaves the cursor |
| SlabFile.ReadDataSlabN | matio/src/read_data.c:435-481 | for any rank up to 10, element p of the result is the one at the place the cursor comes to, on both paths, with seeks that fail |
| SlabFile.ColumnPassedIs | matio/src/read_data.c:464-477 | behind a column the cursor is one column further, or too far by 1 - stride[0] if the skip behind the last row is lost |
| SlabFile.NextPlaced | matio/src/read_data.c:412-433 | from a column that is read right with the index behind by what was lost, the next one is read right if and only if the same holds there |
| SlabFile.FileRightIff | matio/src/read_data.c:435-481 | up to rank 4, and for straight requests, the file is read right if and only if at every column the index makes up for the skips lost before |
| SlabFile.MadeUpIsRight | matio/src/read_data.c:435-481 | at any rank it is read right if this holds |
| SlabFile.RightAndReaches | matio/src/read_data.c:435-481 | where no skip is lost the file is read right if and only if all indices are right, and where these are, if and only if no skip is lost |
| SlabFile.EnoughBefore | matio/src/read_data.c:469-477 | no skip is lost when the first stride is not negative, or not larger than what is before the array |
| SlabFile.StraightFileRight | matio/src/read_data.c:435-481 | up to rank 3, and for straight requests, the file is read right if and only if no skip is lost |
| SlabFile.FileRightAtRank4 | matio/src/read_data.c:435-481 | at rank 4, if and only if the condition on dims and request holds and no skip is lost, or both fail and make up for each other at every column |
| SlabFile.FirstLoss | matio/src/read_data.c:435-481 | they do so only if the first skip lost is that before the third dimension is left, where rounding up comes out wrong |
| SlabFile.FileRightEqualDims | matio/src/read_data.c:435-481 | with the first two dims equal: given that no skip is lost, if and only if edge[3] <= 1 or start[1] == 0; and given this, if and only if no skip is lost |
| SlabFile.SkipLost | matio/src/read_data.c:464-477 | a request of rank 3, right in memory, that reads behind the array in a file |
| SlabFile.LossMadeUp | matio/src/read_data.c:412-477 | a request of rank 4 that comes out right although a skip is lost and an index is wrong |
| Slab2.ReadDataSlab2 | matio/src/read_data.c:877-912 | every element comes from its address, except that whole columns are read from the cursor |
| Slab2.RightUnlessLaterColumns | matio/src/read_data.c:881-882 | everything comes from where the request says, if and only if whole columns do not start later than with the first |
| Slab2.LaterColumnsMiss | matio/src/read_data.c:881-882 | a request for the last two of three columns that reads the first two |
| Slab2.ReadCompressedDataSlab2 | matio/src/read_data.c:1115-1146 | every element is what is in the stream at the place where the skips lead, which never go back, on all three paths; past the end of the stream there is none |
| Slab2.CompressedRightIff | matio/src/read_data.c:1115-1146 | these places are the addresses of the elements meant, if and only if each stride is at least 1 or only one element is asked for in its dimension |
| Slab2.BackwardsMisses | matio/src/inflate.c:153-156 | a request with stride -1 that reads the element behind the first instead of that before it |
| Slab2.AddressIsLinear | matio/src/read_data.c:884-891 | the address is the linear index of the subscripts meant |
| BlockedRead.ReadData | matio/src/read_data.c:44-80 | takes what there is up to the length and stores element k at place k; all of them exactly if none is missing, otherwise whole blocks |
| BlockedRead.ReadCompressedData | matio/src/read_data.c:125-148 | stores every element once; the reused length is the tail, between 1 and the block size |
| BlockedRead.StoredIs | matio/src/read_data.c:47-78 | how many are stored is the length exactly if none is missing |
| Level5.SlotSize | matio/src/mat5.c:2072-2073 | the least size from the given one on with which the slots fill a multiple of 8 bytes |
| Level5.FieldNameSize | matio/src/mat5.c:2065-2073 | the loops find this size for the longest name, so that every name fits with its NUL |
| Level5Writer.MatFile.CloseLength | matio/src/mat5.c:2219-2223 | puts the length into the four bytes before the content and returns to the end |
| Level5Writer.MatFile.WriteType | matio/src/mat5.c:1975-2134 | appends the encoded content of the class |
| Level5Writer.MatFile.WriteCellArrayField | matio/src/mat5.c:2144-2229 | appends the encoded cell with its final length, whatever its depth; nothing for a missing one |
| Level5Writer.MatFile.WriteStructField | matio/src/mat5.c:2552-2624 | appends the encoded field without its name; an empty double for a missing one |
| Level5Writer.MatFile.WriteEmptyVariable5 | matio/src/mat5.c:2678-2755 | appends an empty double |
| Level5Writer.MatFile.VarWrite5 | matio/src/mat5.c:4878-5128 | appends the encoded variable at the end of the file |
| Level5Input.MatInput.ReadRankDims | matio/src/mat5.c:1921-1965 | reads the dimensions and their padding, or fails at the end of the file |
| Level5Input.MatInput.ReadElement | matio/src/mat5.c:1234-1355 | one cell or field with its errors, its skipped name and the jump to its end |
| Level5Input.MatInput.ReadElements | matio/src/mat5.c:1234-1356 | the loop, which leaves all behind the first error missing |
| Level5Input.MatInput.ReadNextStructField | matio/src/mat5.c:1657-1858 | field names in slots or in the tag, then the fields and their names |
| Level5Input.MatInput.VarReadNextInfo5 | matio/src/mat5.c:5139-5483 | the tree of headers at the cursor, and the cursor behind the variable |
| Level5Input.MatInput.VarReadNumeric5 | matio/src/mat5.c:2889-2994 | the bytes of so many numbers, from the tag or behind it, with the cursor behind their padding |
| Level5Input.MatInput.VarRead5 | matio/src/mat5.c:3068-3948 | the data of the tree, child by child, or nothing after an error |
| Level5Input.MatInput.VarReadNext | matio/src/mat.c:2722-2747 | the variable at the cursor with its data, and the cursor behind it, or where it was if there is none |
| Level5RoundTrip.NameIsRead | matio/src/mat5.c:5415-5462 | names of up to four bytes in the tag and longer ones behind it are read as written |
| Level5RoundTrip.NamesAreRead | matio/src/mat5.c:1661-1705 | field names in slots are read as written, with the size and number of the slots |
| Level5RoundTrip.BlockIsRead | matio/src/mat5.c:2889-2994 | a numeric block is read as written, with the cursor behind its padding |
| Level5RoundTrip.SparseIsRead | matio/src/mat5.c:3309-3382 | row and column indices and values of a sparse matrix are read as written |
| Level5RoundTrip.SparseIsReadIff | matio/src/mat5.c:3367-3382 | a sparse matrix of doubles is read as written, if and only if it is not logical or has no values; a logical one gives the bytes of its values |
| Level5RoundTrip.CountIsRead | matio/src/mat5.c:3367-3382 | the number of values of a sparse matrix is found again, and eight times that of a logical one |
| Level5RoundTrip.ChildIsRead | matio/src/mat5.c:1234-1355 | the header of every element is read as written, at any depth |
| Level5RoundTrip.RoundTrip | matio/src/mat5.c:4901-4964 | reading the bytes of any tree gives back class, flags, dims, names, children and data with the cursor at its end; names of cells are dropped and missing fields are empty doubles |
| Level5RoundTrip.AllVariablesAreRead | matio/src/mat.c:2722-2747 | so it is for all variables of a file, one behind the other |
| Level5Files.WriteAndRead | matio/src/mat.c:2722-2747 | variables written with the writer's class and read with the reader's come back normalised, behind whatever the file held before |
| Level5RoundTrip.NormalisedTwice | matio/src/mat5.c:1842-1852 | normalising a second time changes nothing |
| Level5RoundTrip.NormalisedStorable | matio/src/mat5.c:1842-1852 | what is read back of a storable variable can be stored again, in no more bytes |
| Level5RoundTrip.ReadAgain | matio/src/mat5.c:4901-4964 | written again, it is read as it was the first time, with the cursor at its end |
| Level5Format.EncodedIsVariable | matio/src/mat5.c:4901-4964 | every variable is written in the format: flags with class and bits, dims, name and data with their published types and lengths at their places, and children by the lengths before them, at any depth |
| Level5Format.VariableIsRead | matio/src/mat5.c:5139-5483 | every variable in the format is read, whichever program wrote it, with data in tags or behind them and slots of any size |
| Level5Format.HeaderIs | matio/src/mat5.c:4907-4935 | class, the bits for complex, global and logical, and every dimension, byte by byte |
| Level5Format.HeaderReadAs | matio/src/mat5.c:5382-5412 | they are read from these bytes; flags tagged as signed numbers count at the top level only |
| Level5Format.NumericStored | matio/src/mat5.c:2923-2984 | numbers in the tag and behind it are read, with the cursor behind their padding |
| Level5Format.TextStored | matio/src/mat5.c:3165-3255 | so is text |
| Level5Format.IndicesStored | matio/src/mat5.c:473-552 | and the indices of sparse matrices |
| Level5Format.CountStored | matio/src/mat5.c:3340-3382 | the number of values by their tag, in the tag or not |
| Level5Format.LogicalStored | matio/src/mat5.c:3367-3382 | values of a logical sparse matrix, tagged as doubles but of one byte each, are read |
| Level5Format.NamesStored | matio/src/mat5.c:1661-1705 | field names in the tag and in slots of any size are read |
| Level5Examples.ComplexNumber | matio/src/matio.h:139-141 | a complex number byte by byte, written and read |
| Level5Examples.GlobalText | matio/src/matio.h:139-141 | a global text |
| Level5Examples.LogicalBytes | matio/src/matio.h:139-141 | a logical matrix of bytes |
| Level5Examples.SparseEntry | matio/src/mat5.c:2088-2134 | a sparse matrix with one entry |
| Level5Examples.EmptyCell | matio/src/mat5.c:2144-2229 | a cell array with an empty cell |
| Level5Examples.MissingField | matio/src/mat5.c:2058-2087 | a struct with a missing field |
| Level5Examples.PackedBytes | matio/src/mat5.c:2923-2941 | two bytes packed in their tag, read |
| Level5Size.GetTypeBufSize | matio/src/mat5.c:103-318 | the loops of the predictor compute the predicted size, or an error for a missing cell |
| Level5Size.TypePredicted | matio/src/mat5.c:2327-2498 | the prediction is never too small, and exact if and only if no empty variable is inside |
| Level5Size.SizeExact | matio/src/mat5.c:563-605 | the same for the size announced at the start of the stream |
| Level5Size.CompressedIsEncoded | matio/src/mat5.c:2240-2541 | the bytes fed to the compressor are those of the uncompressed form without the names of cells |
| Level5Size.ElementAligned | matio/src/mat5.c:2144-2229 | every element takes a multiple of 8 bytes |
| MatData.MakeStructMatvar | src/matio_backend.cpp:571-605 | setting fields by the first match of their names fills every slot with its own field |
| MatData.MakeNamedFields | src/matio_backend.cpp:793-824 | getting fields by the first match of their names |
| MatData.MatrixMade | src/matio_backend.cpp:503-520 | a matrix becomes a real variable of doubles with its rows and columns, every element at its subscripts |
| MatData.NumberMade | src/matio_backend.cpp:540-556 | a number becomes one of one row and one column |
| MatData.TextMade | src/matio_backend.cpp:522-538 | text becomes a row of characters |
| MatData.CellsMade | src/matio_backend.cpp:607-630 | a cell array becomes a column, cell k the variable of element k, without a name |
| MatData.StructMade | src/matio_backend.cpp:571-605 | a struct becomes a single one, field k under key k |
| MatData.MatrixRead2 | src/matio_backend.cpp:697-709 | a variable of two dimensions is read as a matrix of as many rows and columns, every element from its subscripts |
| MatData.MatrixRead3 | src/matio_backend.cpp:702-707 | one of three dimensions with its slices side by side |
| MatData.TextRead | src/matio_backend.cpp:711-750 | a row of characters is read as text |
| MatData.CellsRead | src/matio_backend.cpp:770-792 | a row or a column of cells is read cell by cell, without error if and only if each of them is |
| MatData.StructRead | src/matio_backend.cpp:793-824 | a struct is read field by field under their names |
| MatData.ConvertedBack | src/matio_backend.cpp:632-655 | data converted to a variable and back are the same, numbers becoming 1x1 matrices |
| MatData.MadeIsStorable | src/matio_backend.cpp:497-630 | every variable made of data can be stored |
| MatData.ContainerRoundTrip | src/matio_backend.cpp:876-922 | data written as a container to an uncompressed Level 5 file and read from it again are the same, except a struct without fields, which is refused |
| Sparse4.Write4 | matio/src/mat4.c:213-276 | writes the triplets behind the header, with the number of rows and columns of the file's matrix |
| Sparse4.WrittenTriplets | matio/src/mat4.c:228-272 | number k is the row of entry k from 1, number n the rows, number n + 1 + k its column from 1, number 2n + 1 the columns, then the values, each part with a zero behind it |
| Sparse4.Rebuild | matio/src/mat4.c:488-496 | the two moving indices find, for each column, the number of entries before the next |
| Sparse4.Read4 | matio/src/mat4.c:384-525 | the matrix of the triplets, and every error |
| Sparse4.TripletsRead | matio/src/mat4.c:384-525 | numbers at these places, column by column, are read as the matrix of these entries |
| Sparse4.StartsRebuilt | matio/src/mat4.c:488-496 | the column starts are found again, empty columns included |
| Sparse4.RoundTrip | matio/src/mat4.c:213-276 | what was written is read back, if and only if there is an entry and the number of rows is accepted; otherwise it is an error |
| Utf.Convert | matio/src/mat73.c:1652-1674 | fills one slot for each character up to the end or the first that is not supported, and no other slot |
| Utf.CountBytes | matio/src/mat.c:1120-1138 | the place behind so many characters |
| Utf.SlotsSuffice | matio/src/mat.c:1120-1138 | bytes cut behind n characters, as counted there, decode to no more than n units, whatever the bytes are |
| Utf.FitsIff | matio/src/mat73.c:1645-1674 | the slots suffice for any bytes, if and only if nothing is decoded behind as many characters |
| Utf.CountFits | matio/src/mat.c:1120-1138 | for UTF-8 of at most three bytes a character, if and only if the count over as many characters reaches the end |
| Utf.DimsTooSmall | matio/src/mat73.c:1645-1674 | three bytes under dims for two characters, which do not fit |
| Utf.WriteChar | matio/src/mat73.c:1645-1674 | all bytes of a variable that fit are converted, and the slots behind stay zero |
| Utf.WriteCreated | matio/src/mat.c:1120-1138 | so it is for every variable created, whatever its bytes are |
| Utf.DecodeEncoded | matio/src/mat.c:2313-2321 | every text of 16-bit units is decoded to itself, one slot a unit |
| Utf.CountEncoded | matio/src/mat.c:1120-1138 | the count over as many characters as units is the encoded length |
| Utf.EncodeDecoded | matio/src/mat73.c:1652-1674 | decoding then encoding gives back the bytes, if and only if they are UTF-8 in the shortest form (section 3 of RFC 3629) of at most three bytes a character |
| Utf.DecodedValue | matio/src/mat73.c:1654-1667 | a character in UTF-8 is decoded to the number that the bits below the marks of its bytes are (section 3 of RFC 3629) |
| Utf.LeadBytes | matio/src/mat.c:1125-1134 | the size of a character by its first byte |
| ChunkSize.LargestChunk | matio/src/mat73.c:446-451 | the largest power of two that fits dimension and budget, or 1 |
| ChunkSize.GetChunkSize | matio/src/mat73.c:440-454 | so for each dimension, and the product divides 4096 |

## Left out

- zlib, HDF5, the lock-free queue's own code, threads, Python bindings, printing and logging: the queue is an atomic bounded queue, and compression is the sequence of bytes fed to the compressor.
- Sample contents in circular mode beyond what the block held: a recycled block is popped without a reset, which the model has, but only conservation and order are claimed.
- Sequential.FlushIsRun: a direct flush_to_queue of a non-empty block in circular mode is not covered; only the destructor calls it directly, after it has left that mode.
- VariableBuffer.VariableBuffer.FlushToQueue: nor is it here.
- VariableBuffer.VariableBuffer.SetBufferMode: a change to circular mode after samples were read or discarded is not covered.
- MatLogger.MatLogger2.FlushVariable: variables in circular mode, for which read_block throws, are not covered; `VariableBuffer.ReadBlock` and `Drain` have that case.
- MatLogger.MatLogger2.FlushAvailableData: the same; an exception there leaves the later variables as they are.
- The available-bytes counter and the thresholds of the callback: whether it notifies is left to chance in `Flusher`.
- The creation of variables, their callbacks and the shapes written by the backend: `MatLogger` ends at the calls of the backend. Its buffers are values of the machine, not heap objects; `VariableBuffer` has those, with the same results of every call.
- GetoptLaw.RenderedIsScanned: a dash within a cluster of letters is not rendered; it is an unknown letter without long options, and begins a long option otherwise.
- getopt's optopt and idx, its error messages, options == NULL, and long options whose value is -1.
- StructIndex.GetStructs: the copies of fields are the fields, aliasing of the original is not modelled.
- Subscripts.CalcSubscripts2: the division of doubles is one of integers.
- SlabFile.ReadDataSlabN: all elements read must be in the file; what a read past its end leaves in the result is not said. Rank 0 is not covered.
- Slab.GetDataSlabN: all indices must be in the array, and the rank between 1 and 10; the copy of type and the case of rank 2 are not covered.
- SlabRank4.RightAtRank4Iff: from rank 5 on there is only a condition that is enough (`StraightIsRight`), as there one wrong rounding can make up for another.
- SlabFile.FileRightIff: the same; at any rank it is enough that every index makes up for what was lost (`MadeUpIsRight`).
- ReadCompressedDataSlabN: the same walk over a compressed stream, which only goes forward.
- Slab2.ReadCompressedDataSlab2: with edge[0] == 0 it reads one element into no room, which is not covered.
- BlockedRead.ReadCompressedData: a stream that ends early is not covered; its error is ignored and the buffer keeps what it had.
- Level5Writer.MatFile.WriteType: text other than UTF-8 and sparse values other than doubles are not covered.
- Level5Writer.MatFile.VarWrite5: the compressed branch is not covered, except for the bytes fed to the compressor (`CompressedIsEncoded`).
- Level5Input.MatInput.VarReadNextInfo5: compressed variables, function handles and the place of the cursor after an error are not covered.
- Level5Input.MatInput.VarReadNumeric5: data stored in another type than that of the class, which are converted, give no result.
- Level5Size.GetTypeBufSize: text is UTF-8, counted as one byte a character; text of 8-bit integers, for which two are counted (matio/src/mat5.c:260-261), and an empty variable of a known data type are not covered.
- Level5Input.MatInput.VarRead5: text and sparse leaves are read by functions of file and place, without a cursor; data of another type than the class, which are converted, and classes other than those above give no result.
- Level5RoundTrip.SparseIsReadIff: a logical sparse matrix that is complex is not covered.
- Level5RoundTrip.RoundTrip: rank 0, sizes of 2 GiB and more, byte-swapped and compressed files, text other than UTF-8, and extended sparse types are not covered.
- Level5Size.TypePredicted: text with more than one byte a character is excluded, as there the prediction may also be too small; an empty variable is one of unknown data type.
- Utf.Convert: what happens when the slots do not suffice is not said; when they do, `FitsIff` says.
- Overflow of size_t and int in products and byte totals.
- MatData.ContainerRoundTrip: text is ASCII, as the number of bytes is counted in characters; the map of a struct is its fields in the order in which it is walked.
- Sparse4.Read4: doubles are exact reals and the data are doubles.
- Byte swaps, type tables, getters, the rest of the library's interface, and inflate.
