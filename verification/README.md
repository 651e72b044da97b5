# The SBC-3 monitor, in Dafny

This project models the parts of the SBC-3 monitor and its run-time library that
carry state, parsing or a protocol, and proves what they are for. Code that works
on fields, buffers and cursors is a class or an in-place array method here; each
method is proved against a function of its inputs and of the old state, and the
promises are proved about those functions, over all inputs and all runs.

| part of the system | files |
|---|---|
| kernel heap: first fit, in-place headers, free and allocated lists | HeapBlocks, HeapLists, Heap |
| expression evaluator: lexer, recursive-descent parser, sticky error | ExprTokens, ExprGrammar, ExprParser, ExprCorrect, ExprPrinter, ExprLaws, ExprShape |
| integer printer and parser | Word32, Numerals, Itoa |
| serial receive ring with RTS flow control | Duart |
| bit-banged I2C master, clock chip and display transactions | I2c, I2cDevices |
| ext2 read path: block buffer, block follower, directory search | Ext2, Ext2Image |
| S-record loader | Srec, SrecStream |
| 68030 disassembler: which words an instruction takes, the listing | Disasm, DisasmForms, DisasmAssembler |
| ROM checksum | RomSum |

`dafny verify dfyconfig.toml` checks the whole project.

## What is proved

**Heap.** `Allocator` keeps headers in a memory map exactly as the C code keeps
them in RAM. Its methods are proved against operations on two sequences of blocks
(`HeapBlocks`), and about those: after any run, free and allocated blocks, headers
included, cut the heap into pieces without a gap or an overlap, the free list is in
strict address order and the counters are right; the links of the allocated list are
inverse to each other. A request gets the lowest block that is big enough, and fails
exactly when there is none. Freeing gives back exactly the freed bytes in each of the branches of
`free_item`; a foreign or repeated free changes nothing, with one exception: cleared
headers carry the tag of process 0, so a second free on its behalf passes every test
and spoils the allocated list (`FreeTwice`).

Two things are missing in the source, and the constant `repaired` of `Allocator`
tells the source (`false`) from the code with both added (`true`).
(1) `insert_in_allocated` stores through the list head without testing it. With an
empty allocated list that is a store to low memory, here the header kept at address
0; `Malloc` says exactly when it happens and what it leaves there. (2) Splitting a
block does not re-aim the back link of the free block behind it. The model therefore
keeps the back links of the free list as they are, right or wrong. Freeing and
cleaning up need forward links alone and always keep the heap sound. An allocation
keeps it sound exactly when the back link of the block it takes is right, and leaves
all links right exactly when it splits nothing off in front of another free block. So
a run of the source is in order as long as it never takes a block with a wrong link,
which can be read off the block model (`SafeRun`). With the repair that never happens,
and any run in which process 0 frees nothing but NULL and allocated blocks leaves both lists
linked in both directions, whatever the other processes pass (`RunRepaired`).
`BreakBackLink` and `LoseTrack` are four ordinary calls after which a link is wrong
and a fifth one after which the free list is lost.
The tail append never joins a block to the one before it; that is kept as it is.

**Expressions.** The parser class refines a functional parser over the token
stream, which accepts exactly the sentences of a four-level grammar and gives each
the value, or the leftmost error and the position of the name or operator
to blame for it, of its tree. Any syntax tree, written with the parentheses that
precedence asks for and any white space, evaluates to what it means. A long has 32
bits and wraps. Literals with leading zeros are read as `strtol` reads them, in
octal; printed literals are therefore decimal ones without leading zeros, or
hexadecimal ones other than zero. A capital X makes no hexadecimal prefix, because of
where a parenthesis of the lexer stands: `0X1F` is a zero and a name (`CapitalX`).

What the operators compute is said by laws that name none of the functions they are
made of: sums, differences and products are congruent modulo 2^32 and in range,
quotient and remainder satisfy `a == b * q + r` with a remainder smaller than the
divisor and of the sign of the dividend, which leaves no choice (`DividedAlone`), and
shifts double and halve. The laws hold for the answers to the texts of expressions
(`BinaryText`, `SignText`, `NumberText`), and of two operators side by side the second is
taken first exactly when it binds tighter (`Precedence`). The smallest long divided by -1 is
left out of the division laws: that quotient is no long, and C leaves it undefined. Numbers keep
the value of the first 63 characters they are copied from (`DecimalValue`, `HexValue`). A stream
that is no sentence is answered with the error, and the position, that a scan for
its shape finds first: what stands where a value is called for, the parenthesis left open, what
follows a complete sentence (`ErrorShape`).

**Numbers.** `strtol` reads back what `itoa_padded` wrote, for every value, base,
width and letter case, and stops at the very end. Where zeros are put in front,
`strtol` takes them for octal, and from base 8 on reads the number back exactly when it
is not negative and the base is 8 or the number has one octal digit (`ZeroPadded`).
The text itself stands for the value, or for what it is in two's complement (`BodyStands`).

**Serial ring.** Interrupts, the reader's waiting loop and its locked section are
separate steps, in any interleaving. RTS asserted leaves room, RTS deasserted leaves
something to read; six characters is exactly the slack a sender may have; the reader
gets the accepted characters in order. RTS goes with the character stored as the tenth and
comes back with the one whose reading leaves two; nothing else moves it (`RtsMoves`).

**I2C.** Every level the two lines take is recorded, and a listener that follows
clauses 3.1.4 to 3.1.6 of UM10204 decodes the record. Each primitive and each
transaction is proved to be heard as the intended frames and conditions, on every acknowledge path.
A driven high level or SDA moving at the wrong time would be heard as a violation. One family
of calls does not meet this: a `ds1307_read` of no bytes, acknowledged throughout,
from a register whose first bit is zero leaves SDA held by the chip, and no STOP comes about
(`ReadingProper` is an equivalence, `StuckRead` such a call).

The dialogues are then heard by devices with their own idea of addresses, directions and
registers (`I2cDevices`): a DS1307 takes the low bit of the byte behind a START for the
direction, the first byte of a write for its register pointer, stores the others and shifts
registers out when it is read. A write that is acknowledged throughout leaves exactly the bytes
given in the registers from that one on, and a read fills the buffer with those registers. A byte
of data that the chip does not acknowledge is lost, and the caller is not told (`WriteLost`). The
display takes commands and picture bytes up to the first one it refuses.

**ext2.** A valid buffer is always the device block it is tagged with, although
inode reads, followers and searches share it; `e2_search` returns the first entry of that name in block-map
order. That needs no more of a directory than that its blocks can be read and the walk
over their records stays inside them and gets on, as far as that entry (`Searchable`); one that
is cut into records can be searched for every name (`WholeDirectory`).

`Ext2Image` writes an image down on its own, least significant byte first: inodes field by field
at the place a number stands for, block numbers in the inode and in the indirect block, directory
blocks record after record. Reading finds again what was written: each inode, the blocks of a file
in order, number and kind of the first entry of a name. There is one exception: a file of exactly
twelve blocks. Its end is looked for in the indirect block, whose number is 0, so that block 0 is
read as one, and the file ends there if and only if block 0 begins with a zero or cannot be read
(`FollowFile`).

**S-records.** A stream of valid records, with headers, counts and foreign lines
among them, loads the overlay of its data in order, whichever record types carry
it and however it is divided, and sets the start address; what a sender puts on the
wire for a list of records, each letter in either case, is such a stream (`SentStream`), so the
list is loaded (`SentLoads`): consecutive addresses within 32 bits, and where two records store at
one address, the later one (`StoresAt`, `StoredLast`, `StoredElsewhere`). One damaged byte of address, data or checksum is
reported. A load ends with a 7, 8 or 9 record even when its checksum is wrong, but
not when anything but white space follows it on its line (`EndsWhen`): there the code is taken as it is.

**Disassembler.** The listing tiles the even part of the buffer with lines of 1 to
11 words, whatever words the first word of an instruction asks for. Each encoding that
the source or its comments name is taken with exactly its words, although many of the
masks overlap and the order of the tests decides, with three exceptions. MOVEM.W is not recognised,
because the decoder looks for its size bit one place too high. CAS.W and CAS.L are
not either: a comment leaves CAS to group 0000, where no test is for it, and of its three
sizes only the byte is taken, as an immediate bit operation. These three are listed as raw words
(the header of the file claims the full instruction set; the
model follows the code). Decoding is local: a listing from any line on is the listing of the rest
of the buffer on its own, and appended bytes change no line before the first one that was
cut short.

`DisasmAssembler` goes the other way: operands with their displacements, addresses, values and
index words, put into words as the manual of the processor lays them out, and instructions of every form
with such operands. The listing of an assembled program is the program: a line for each
instruction, at its address, with exactly the words written for it (`ListProgram`). The
three missed forms are listed as a raw first word (`MissedListed`).

**ROM checksum.** The patched image sums up to all ones, nothing but the slot has changed, and
what is written there is the only longword with that effect but for the two zeros of that
arithmetic. A changed longword goes unnoticed exactly in the cases the lemma lists.

## Model

| member | source | states |
|---|---|---|
| `Heap.Allocator.constructor` | src/micromon/heap.c:95-110 | The heap starts as one free block over the whole range, in order on all counts |
| `Heap.Allocator.RemoveFromList` | src/micromon/heap.c:120-138 | Unlinking aims the two neighbours at each other and moves the head only when the item was first; nothing else in memory changes |
| `Heap.Allocator.RemoveFromAllocated` | src/micromon/heap.c:145-148 | The same on the allocated list, whose counter goes down |
| `Heap.Allocator.InsertInAllocated` | src/micromon/heap.c:150-163 | The item becomes the head of the allocated list; the unguarded store through the old head is what the source does, the guarded one is the repair |
| `Heap.Allocator.CutItem` | src/micromon/heap.c:333-358 | The item is tagged, and split when at least a header and 32 bytes are left over |
| `Heap.Allocator.Take` | src/micromon/heap.c:332-365 | Both lists and all back links afterwards; the heap is still sound exactly when the back link of the block taken was right |
| `Heap.Allocator.Malloc` | src/micromon/heap.c:303-370 | First fit by address with less than 52 bytes to spare, cut off with at least 32 left over; tagged with the process; failure with nothing changed exactly when n is 0 or no block is big enough; lists, back links and the stray store to low memory afterwards; sound afterwards exactly when the block taken had its back link right |
| `Heap.Allocator.InsertAtHead` | src/micromon/heap.c:194-215 | In front of the list, merged with the old head or not: exactly the edit of the slot the block belongs in |
| `Heap.Allocator.MergeDown` | src/micromon/heap.c:225-244 | Merge with the block below, and then perhaps with the one above: exactly the edit of one or two blocks by their union, links not written left as they were |
| `Heap.Allocator.MergeUp` | src/micromon/heap.c:245-258 | Merge with the block above only, which the item replaces in the list |
| `Heap.Allocator.SlotIn` | src/micromon/heap.c:260-270 | No merge: the item is linked in between its neighbours |
| `Heap.Allocator.Append` | src/micromon/heap.c:276-280 | Behind the last block, without a merge |
| `Heap.Allocator.InsertInFree` | src/micromon/heap.c:194-283 | The whole second half of free_item: the slot, the list head and the counter are those of the released list |
| `Heap.Allocator.Detach` | src/micromon/heap.c:183-187 | The item leaves the allocated list and its links and owner are cleared |
| `Heap.Allocator.FreeItem` | src/micromon/heap.c:180-283 | The block moves from the allocated to the free list and the heap stays sound, whatever the back links were |
| `Heap.Allocator.Free` | src/micromon/heap.c:285-301 | A free by the owner releases the block, right back links or not; any other pointer, process or repetition leaves memory and both lists alone, NULL included |
| `Heap.Allocator.CleanHeap` | src/micromon/heap.c:372-386 | Terminates, and does to both lists and the back links what handing back every block of the process in list order does; errno stays |
| `Heap.Allocator.RunAll` | src/micromon/heap.c:285-386 | Any sequence of allocations, frees and clean-ups that never takes a block with a wrong back link keeps the heap sound and does what the block model says, repaired or not |
| `Heap.Allocator.RunRepaired` | src/micromon/heap.c:285-386 | With the repair any sequence in which process 0 frees nothing but NULL and allocated blocks leaves both lists linked in both directions and the heap partitioned, whatever other processes pass |
| `Heap.BreakBackLink` | src/micromon/heap.c:341-360 | Four ordinary calls after which the source has a sound heap with a wrong back link |
| `Heap.LoseTrack` | src/micromon/heap.c:120-138 | A fifth one after which the free list is not what it ought to be |
| `Heap.FreeTwice` | src/micromon/heap.c:285-301 | A second free on behalf of process 0 passes the tests and takes a block off the allocated list that is not on it |
| `HeapBlocks.TakeRight` | src/micromon/heap.c:341-360 | An allocation leaves all back links right exactly when it splits nothing off in front of another free block, or that is repaired |
| `HeapBlocks.ReleaseRight` | src/micromon/heap.c:194-283 | Freeing leaves right back links right in every branch |
| `HeapBlocks.RepairedSafe` | src/micromon/heap.c:285-386 | With the repair no back link ever goes wrong, and a run is safe exactly when process 0 frees nothing but NULL and allocated blocks |
| `HeapBlocks.ReleaseCover` | src/micromon/heap.c:194-283 | In every branch the free cover grows by exactly the freed extent, and by exactly its length |
| `HeapBlocks.ReleaseOrdered` | src/micromon/heap.c:194-283 | The free list stays in strict address order |
| `HeapBlocks.ReleaseApart` | src/micromon/heap.c:194-283 | A block that overlapped nothing before overlaps nothing after a merge |
| `HeapBlocks.TakeCover` | src/micromon/heap.c:332-365 | Allocation moves exactly the handed-out extent out of the free cover |
| `HeapBlocks.TakePartition` | src/micromon/heap.c:303-370 | After an allocation free and allocated blocks still partition the heap |
| `HeapBlocks.ReleasePartition` | src/micromon/heap.c:180-301 | After a free they still do |
| `HeapBlocks.CleanResult` | src/micromon/heap.c:372-386 | The blocks of other owners survive in order, and the free cover grows by exactly the bytes of the reclaimed ones |
| `HeapBlocks.NotOwnedMembers` | src/micromon/heap.c:372-386 | The survivors are exactly the blocks with another owner |
| `HeapBlocks.CleanPartition` | src/micromon/heap.c:372-386 | Reclaiming a process keeps the partition |
| `HeapBlocks.RunPartition` | src/micromon/heap.c:95-386 | Any sequence of operations keeps free and allocated blocks, headers included, a partition of the heap |
| `HeapBlocks.FromStart` | src/micromon/heap.c:95-386 | So they do after any sequence of operations on the heap init_heap leaves, and with the repair such a run is safe under exactly that condition |
| `HeapBlocks.PartitionMeaning` | src/micromon/heap.c:50-62 | What that means byte by byte: each address of the heap in exactly one block, no other address in any |
| `HeapBlocks.BlockBounds` | src/micromon/heap.c:95-110 | No block reaches outside the heap, so no 32-bit address sum wraps and biggest_payload stays a bound |
| `HeapLists.EditedList` | src/micromon/heap.c:194-283 | Replacing a stretch of a linked list by one block, locally, gives a list; only forward links are needed |
| `HeapLists.EditedLinks` | src/micromon/heap.c:194-283 | And its back links are the old ones but for those written |
| `HeapLists.RemovedList` | src/micromon/heap.c:120-148 | Unlinking locally gives the list without that block, links inverse |
| `Numerals.ReadDigits` | src/lib/stdlib/strtol.c:54-76 | The digit loop reads the longest run of digits of the base and its value modulo 2^32 |
| `Numerals.Strtol` | src/lib/stdlib/strtol.c:27-81 | Result and end pointer for every text, prefixes and wrap-around included |
| `Numerals.DigitsValue` | src/lib/stdlib/itoa.c:14-20 | The digits of a number stand for it |
| `Itoa.WriteDigits` | src/lib/stdlib/itoa.c:14-20 | The digit loop leaves the digits in reverse |
| `Itoa.TurnRound` | src/lib/stdlib/itoa.c:32-37 | The in-place reversal |
| `Itoa.ItoaPadded` | src/lib/stdlib/itoa.c:3-40 | The buffer holds padding, sign and digits and a NUL; nothing behind it changes |
| `Itoa.RoundTrip` | src/lib/stdlib/itoa.c:3-40 | For every value, base, width and letter case strtol returns the value modulo 2^32 and consumes the whole text, unless zeros are put in front |
| `Itoa.ZeroPadded` | src/lib/stdlib/itoa.c:27-29 | With zeros in front, from base 8 on, it does so exactly for numbers that are not negative, in base 8 or below 8 |
| `Itoa.BodyStands` | src/lib/stdlib/itoa.c:3-26 | Sign and digits stand for the value itself, or when printed as signed from 2^31 on for the value less 2^32 |
| `Itoa.ReadPrefixed` | src/lib/stdlib/strtol.c:27-81 | Digits behind `$`, `0x` or `0` are read in base 16, 16 or 8, whatever base is asked for |
| `Numerals.DigitIs` | src/lib/stdlib/strtol.c:54-76 | Digits of either case have the values of their places in the alphabet of digits, and no other character has one |
| `ExprParser.Parser.ReadNumber` | src/micromon/expr.c:153-216 | The lexer's number, its end, or the error and its position |
| `ExprParser.Parser.NextToken` | src/micromon/expr.c:218-322 | The next token of the stream becomes current, or its error is recorded |
| `ExprParser.Parser.SetError` | src/micromon/expr.c:140-145 | Only the first error is kept |
| `ExprParser.Parser.LookupConstant` | src/micromon/expr.c:82-91 | The first constant of that name, ignoring case |
| `ExprParser.Parser.ParsePrimary` | src/micromon/expr.c:324-379 | Value, rest of the stream, error and error position of a primary expression |
| `ExprParser.Parser.ParseUnary` | src/micromon/expr.c:381-398 | The same for signs |
| `ExprParser.Parser.ParseTerm` | src/micromon/expr.c:400-437 | The same for products, folding to the left |
| `ExprParser.Parser.ParseAdditive` | src/micromon/expr.c:439-457 | The same for sums |
| `ExprParser.Parser.ParseShift` | src/micromon/expr.c:459-486 | The same for shifts |
| `ExprParser.Evaluator` | src/micromon/expr.c:488-536 | Error code, value and error position for every text and every table of constants |
| `ExprCorrect.LevelSound` | src/micromon/expr.c:400-486 | What a level of the parser consumed is the sentence of a tree of that level with the value returned |
| `ExprCorrect.LevelComplete` | src/micromon/expr.c:400-486 | The sentence of any tree of a level is parsed as that tree, to its value or its leftmost error, and nothing beyond it is taken |
| `ExprCorrect.EvaluateIff` | src/micromon/expr.c:488-536 | A value is answered exactly when the stream is one complete sentence whose tree has that value |
| `ExprCorrect.EvaluateComplete` | src/micromon/expr.c:488-536 | A sentence whose tree goes wrong is answered with that tree's error, at the position of the token its evaluation fails at |
| `ExprCorrect.FaultIs` | src/micromon/expr.c:324-486 | That token is an unknown name, a division or remainder, or a shift, as the error says |
| `ExprCorrect.Unambiguous` | src/micromon/expr.c:324-486 | No sentence has two meanings |
| `ExprPrinter.ShowMeans` | src/micromon/expr.c:381-486 | Parentheses by precedence, left associative, keep the meaning and give a tree of the grammar |
| `ExprPrinter.TokensRender` | src/micromon/expr.c:147-322 | The lexer finds the written tokens in their text, whatever white space stands between them |
| `ExprPrinter.CapitalX` | src/micromon/expr.c:158-161 | `0X` is no prefix: the lexer finds a zero, and then a name |
| `ExprPrinter.PrintedEvaluates` | src/micromon/expr.c:488-536 | Any tree, written down with any white space, evaluates to its value, or to its error at the token to blame |
| `ExprLaws.OperatorObeys` | src/micromon/expr.c:400-486 | Of longs: sums, differences and products congruent modulo 2^32 and in range, quotients and remainders by the division law, shifts by doubling, the errors exactly for a divisor 0 and a count outside 0 to 63 |
| `ExprLaws.DivisionObeys` | src/micromon/expr.c:413-432 | Quotient and remainder of longs: a == b * q + r with the remainder smaller than the divisor, and zero or of the sign of the dividend |
| `ExprLaws.DividedAlone` | src/micromon/expr.c:413-432 | No other quotient and remainder satisfy that |
| `ExprLaws.KeptAlone` | src/micromon/expr.c:400-486 | No other long is congruent to a number |
| `ExprLaws.BinaryText` | src/micromon/expr.c:400-536 | The text of two expressions with an operator between them is answered by that law from the answers to their texts, the error on the left first |
| `ExprLaws.SignText` | src/micromon/expr.c:381-398 | The text of a negated expression is answered by the negative modulo 2^32, or by the same error |
| `ExprLaws.NumberText` | src/micromon/expr.c:153-216 | The text of a number is answered by it modulo 2^32 |
| `ExprLaws.Precedence` | src/micromon/expr.c:400-486 | Of two operators without parentheses the second is applied first exactly when it binds tighter |
| `ExprLaws.DecimalValue` | src/micromon/expr.c:195-215 | A decimal number has the value of its first 63 digits modulo 2^32, a leading zero makes it octal up to the first digit that is none |
| `ExprLaws.HexValue` | src/micromon/expr.c:158-193 | A number behind `$` has the value of the 62 digits behind it modulo 2^32; `$0` alone is an error at its first character |
| `ExprLaws.Characters` | src/micromon/expr.c:147-322 | Which characters make names and numbers, and which are white space |
| `ExprLaws.LookupFirst` | src/micromon/expr.c:82-91 | A name stands for the first constant with the same letters in either case, and for none if there is no such constant |
| `ExprShape.ErrorShape` | src/micromon/expr.c:324-536 | An answer that blames the shape of the text gives the error and the place a scan with a stack of open parentheses finds first; any other error points at a token it fits, and a value means a text in shape |
| `Duart.Channel.HandleIrq` | src/lib/machine/duart.c:38-84 | The interrupt handler is the interrupt step on the ring, RTS output and error led included |
| `Duart.Channel.TakeLocked` | src/lib/machine/duart.c:300-321 | The locked section is the reader's step, and returns the oldest character |
| `Duart.Channel.PollCount` | src/lib/machine/duart.c:296-298 | The test of the waiting loop |
| `Duart.Channel.Available` | src/lib/machine/duart.c:324-326 | The number of characters buffered |
| `Duart.HandleDuartIrq` | src/lib/machine/duart.c:86-91 | Each channel gets its own half of the interrupt status |
| `Duart.Replay` | src/lib/machine/duart.c:38-322 | Any interleaving of interrupts and reader steps keeps the ring consistent and ends in the state of the model |
| `Duart.FlowControl` | src/lib/machine/duart.c:38-84 | Over every interleaving: RTS asserted means at most 9 characters, deasserted between 3 and 16, and a reader past its loop finds one |
| `Duart.NothingLost` | src/lib/machine/duart.c:53-77 | With at most six characters after each deassertion nothing is dropped |
| `Duart.SlackIsSix` | src/lib/machine/duart.c:53-77 | And six is exactly the slack for which that holds |
| `Duart.InOrder` | src/lib/machine/duart.c:291-322 | Characters read, followed by those buffered, are the accepted arrivals in order; the others are those counted as lost |
| `Duart.NothingMissing` | src/lib/machine/duart.c:38-322 | With such a sender the reader gets every error-free character |
| `Duart.RtsBounds` | src/lib/machine/duart.c:66-77 | In figures: at most 9 characters with RTS asserted, from 3 to 16 without |
| `Duart.RtsMoves` | src/lib/machine/duart.c:66-318 | RTS goes exactly with the character stored as the tenth and comes back exactly with the one whose reading leaves two |
| `Duart.StatusBits` | src/lib/machine/duart.c:38-91 | Bits 1 and 5 of the interrupt status make the channels ready; bits 4 to 7 of a channel status are its errors |
| `I2c.Bus.Begin` | src/micromon/i2c.c:88-96 | Heard as a START, from an idle bus or as a repeated one |
| `I2c.Bus.End` | src/micromon/i2c.c:98-106 | Heard as a STOP that leaves both lines free, unless the slave holds SDA |
| `I2c.Bus.WriteByte` | src/micromon/i2c.c:108-132 | Heard as exactly that byte and the slave's answer, which is returned |
| `I2c.Bus.ReadByte` | src/micromon/i2c.c:136-162 | Returns exactly the byte the slave shifts out, and is heard as it with the right acknowledge bit |
| `I2c.Bus.Probe` | src/micromon/i2c.c:164-172 | START, address, STOP, and whether somebody answered |
| `I2c.Bus.DisplayCommand` | src/micromon/sh1107.c:45-63 | Bytes up to the first one not acknowledged, then STOP; the result tells whether all were |
| `I2c.Bus.DataBurst` | src/micromon/sh1107.c:65-87 | The same for any amount of data |
| `I2c.Bus.WriteClock` | src/micromon/ds1307.c:75-99 | All frames of a register write, for every address and every acknowledge pattern |
| `I2c.Bus.ReadClock` | src/micromon/ds1307.c:39-73 | All frames of a register read, the buffer, the count, and exactly when the bus is idle afterwards |
| `I2c.LeadingValue` | src/micromon/i2c.c:112-121 | The bits of a byte, most significant first, decode to it |
| `I2c.ReadsLast` | src/micromon/ds1307.c:63-70 | A read refuses exactly the last of its bytes |
| `I2c.ReadingProper` | src/micromon/ds1307.c:39-73 | A read is one proper dialogue, from START to STOP without a violation, exactly when it is not the stuck one |
| `I2c.StuckRead` | src/micromon/ds1307.c:39-73 | A call after which the bus is held and no STOP has been heard |
| `I2c.WritingProper` | src/micromon/ds1307.c:75-99 | A write always is |
| `I2c.SendingProper` | src/micromon/sh1107.c:38-87 | So is everything sent to the display |
| `I2cDevices.WriteStores` | src/micromon/ds1307.c:75-99 | A clock chip that hears an acknowledged write has those bytes from that register on, round the end of its 64, and all other registers as before |
| `I2cDevices.WriteRegisters` | src/micromon/ds1307.c:75-99 | So the call on the bus leaves the registers overlaid with the buffer, and returns its length |
| `I2cDevices.WriteLost` | src/micromon/ds1307.c:93-98 | A byte the chip does not acknowledge changes nothing in it |
| `I2cDevices.WriteRefused` | src/micromon/ds1307.c:82-91 | Nor does a refused address or register number |
| `I2cDevices.ReadFits` | src/micromon/ds1307.c:39-73 | In an acknowledged read the chip sends its registers from that one on, exactly if the data is these, and keeps them |
| `I2cDevices.ReadRegisters` | src/micromon/ds1307.c:39-73 | So the call fills the buffer with the registers, as far as the last one, and leaves the rest of it alone |
| `I2cDevices.SendingTold` | src/micromon/sh1107.c:45-87 | A display takes what is sent up to the first byte it refuses, as commands behind 0 and as picture behind 0x40 |
| `I2cDevices.Command` | src/micromon/sh1107.c:45-63 | A command that is acknowledged reaches the display as that, and alone |
| `I2cDevices.Draw` | src/micromon/sh1107.c:65-87 | The display has the bytes of the burst up to the first one refused, and the result tells whether it has all |
| `Ext2.Mount.ReadFsBlock` | src/lib/machine/ext2fs/e2blocks.c:42-64 | After a read the buffer is the block asked for or is marked invalid, cached or not |
| `Ext2.Mount.GetInode` | src/lib/machine/ext2fs/ext2.c:98-152 | The inode of that number as it stands on the device, each field in the machine's byte order, or none where it is out of range or cannot be read |
| `Ext2.Follower.NextBlock` | src/lib/machine/ext2fs/e2blocks.c:120-171 | The next entry of the block map, over the shared buffer |
| `Ext2.Follower.Collect` | src/lib/machine/ext2fs/e2blocks.c:95-171 | The k-th call gives the k-th entry: twelve direct ones, 512 indirect ones, then zeros |
| `Ext2.NamesMatch` | src/lib/machine/ext2fs/e2search.c:34-52 | True exactly for equal names |
| `Ext2.ScanBuffer` | src/lib/machine/ext2fs/e2search.c:85-112 | The first record of that name the walk over the buffered block meets |
| `Ext2.FirstMatchIsFirst` | src/lib/machine/ext2fs/e2search.c:85-116 | No entry of that name comes before it, and none exists when there is no match |
| `Ext2.Search` | src/lib/machine/ext2fs/e2search.c:58-117 | Inode number and file type of the first match in block-map order, zero without one |
| `Ext2.WholeDirectory` | src/lib/machine/ext2fs/e2search.c:78-117 | A directory cut into records can be searched for any name, and what is met first is the first of all its entries of that name |
| `Ext2Image.InodeRead` | src/lib/machine/ext2fs/e2endian.c:129-157 | An inode written field by field, least significant byte first, is read back in all its fields |
| `Ext2Image.InodeFound` | src/lib/machine/ext2fs/ext2.c:98-152 | An inode written at its place in the table of its group is the one found for its number |
| `Ext2Image.ReadInode` | src/lib/machine/ext2fs/ext2.c:98-152 | So the call finds the inode as it was written |
| `Ext2Image.MapRead` | src/lib/machine/ext2fs/e2blocks.c:95-171 | Block numbers written into the inode and the indirect block come back in order, and then zero, but after exactly twelve only if block 0 begins with a zero or cannot be read |
| `Ext2Image.FollowFile` | src/lib/machine/ext2fs/e2blocks.c:95-171 | So the follower gives the blocks of a file, and a zero behind them exactly under that condition |
| `Ext2Image.BlockRead` | src/lib/machine/ext2fs/e2search.c:85-112 | A block of directory records, written one after the other, is cut into exactly these entries |
| `Ext2Image.SearchImage` | src/lib/machine/ext2fs/e2search.c:58-117 | A search in a directory written down like that answers number and kind of the first entry of that name, and 0 if there is none |
| `Srec.Loader.GetHexBytes` | src/micromon/load_cmd.c:56-97 | For any number of digits: the big-endian number, its bytes in the checksum, and what a broken or overlong digit string leaves |
| `Srec.Loader.CompareXsums` | src/micromon/load_cmd.c:99-106 | The record's checksum against the complement of the sum |
| `Srec.Loader.ReadData` | src/micromon/load_cmd.c:108-122 | Memory is overlaid with the bytes read, also when they break off |
| `Srec.Loader.LoadSingle` | src/micromon/load_cmd.c:124-362 | Status, memory, start address and position after any line at all |
| `Srec.Loader.Load` | src/micromon/load_cmd.c:408-412 | The loop over lines up to the last one |
| `SrecStream.TextSpelt` | src/micromon/load_cmd.c:43-54 | Hexadecimal text of a record, in letters of either case, is read back as its bytes |
| `SrecStream.DigitOf` | src/micromon/load_cmd.c:43-54 | The digits are the ten figures and the letters a to f in either case, and each has the value it is written for |
| `SrecStream.DataReads` | src/micromon/load_cmd.c:177-258 | A data record loads its bytes, and is accepted exactly when count, address, data and checksum sum up to 255 modulo 256 |
| `SrecStream.FinalReads` | src/micromon/load_cmd.c:281-350 | An end record ends the load, and sets the start address exactly when its bytes sum up so |
| `SrecStream.Damage` | src/micromon/load_cmd.c:99-106 | Of two records that differ in one byte of address, data or checksum at most one is accepted |
| `SrecStream.StreamLoads` | src/micromon/load_cmd.c:124-412 | A stream of valid records, with lines that load nothing among them, leaves the in-order overlay of its data and its start address |
| `SrecStream.SameLoad` | src/micromon/load_cmd.c:124-412 | Record types and the division into records make no difference |
| `SrecStream.Divided` | src/micromon/load_cmd.c:108-122 | A record cut in two, of whatever types, stores the same |
| `SrecStream.QuietLine` | src/micromon/load_cmd.c:143-175 | Headers, counts, unknown types and foreign lines change neither memory nor start address and do not end the load |
| `SrecStream.EndsWhen` | src/micromon/load_cmd.c:352-361 | Exactly which lines end a load |
| `SrecStream.SkippedWhen` | src/micromon/load_cmd.c:352-361 | The rest of a line leaves the record alone exactly when it is white space |
| `SrecStream.StoresAt` | src/micromon/load_cmd.c:108-122 | The bytes of a record go to consecutive addresses within 32 bits |
| `SrecStream.StoredLast` | src/micromon/load_cmd.c:108-122 | The last byte stored at an address is there in the end |
| `SrecStream.StoredElsewhere` | src/micromon/load_cmd.c:108-122 | Where nothing is stored memory is as before |
| `SrecStream.LoadStream` | src/micromon/load_cmd.c:394-413 | The loader on such a stream: memory and start address afterwards |
| `SrecStream.SentStream` | src/micromon/load_cmd.c:124-362 | The text of a list of records, line after line, with newlines or without, is such a stream |
| `SrecStream.SentLoads` | src/micromon/load_cmd.c:124-412 | So sending any list of records and an end record loads its data in order and sets the start address |
| `DisasmForms.LowTaken` | src/programs/m680x0dis/main.c:317-432 | An encoding of an immediate or bit operation, MOVEP, CHK2, CMP2, CAS or MOVE is taken with exactly its words, whatever broader mask it falls under, exactly with the exception of CAS.W and CAS.L |
| `DisasmForms.MiscTaken` | src/programs/m680x0dis/main.c:435-668 | The same for group 0100 with all its shadowed forms, exactly with the exception of MOVEM.W |
| `DisasmForms.ShortTaken` | src/programs/m680x0dis/main.c:672-742 | The same for ADDQ, Scc, DBcc, TRAPcc, branches of all three sizes and MOVEQ; lines A and F take one word |
| `DisasmForms.ArithmeticTaken` | src/programs/m680x0dis/main.c:745-936 | The same for arithmetic, register-to-register forms, PACK, EXG, shifts and bit fields |
| `Disasm.Disassembler.Fetch16` | src/programs/m680x0dis/main.c:61-66 | The word at the cursor, or zero and the truncated mark at the end |
| `Disasm.Disassembler.DecodeExtWord` | src/programs/m680x0dis/main.c:122-207 | The words a brief or full extension word takes with it |
| `Disasm.Disassembler.DecodeAddress` | src/programs/m680x0dis/main.c:218-285 | The words of an effective address |
| `Disasm.Disassembler.Decode` | src/programs/m680x0dis/main.c:315-957 | The words of an instruction, in order |
| `Disasm.Disassembler.List` | src/programs/m680x0dis/main.c:998-1015 | The loop lists the buffer line by line, backing off to one word where the buffer breaks off |
| `Disasm.Disassemble` | src/programs/m680x0dis/main.c:996-1020 | The program, from the buffer it has read on: the listing for the formats of the decode functions |
| `Disasm.ListingTiles` | src/programs/m680x0dis/main.c:996-1015 | The words of all lines together are the words of the even part of the buffer |
| `Disasm.LineSizes` | src/programs/m680x0dis/main.c:996-1015 | Each line has 1 to 11 words, those of the buffer from there on, and stands at the address of its first one |
| `Disasm.LongestLine` | src/programs/m680x0dis/main.c:412-432 | 11 words do occur |
| `Disasm.Disassembler.PrintHexBytes` | src/programs/m680x0dis/main.c:963-970 | The 64-character field never drops a word of a line |
| `Disasm.TextAt` | src/programs/m680x0dis/main.c:963-970 | Each word is printed as its four hexadecimal digits, the highest first, and a space |
| `Disasm.PartsLocal` | src/programs/m680x0dis/main.c:59-285 | Fetches that went well depend on the bytes fetched alone |
| `Disasm.Relisting` | src/programs/m680x0dis/main.c:994-1015 | From any line on the listing is that of the rest of the buffer at its own address |
| `Disasm.Appending` | src/programs/m680x0dis/main.c:994-1015 | Bytes behind the buffer change no line before the first one cut short |
| `DisasmAssembler.OperandFetched` | src/programs/m680x0dis/main.c:122-285 | Each operand, with its displacement, address, value or index words, takes exactly the words written for it |
| `DisasmAssembler.WholeInstruction` | src/programs/m680x0dis/main.c:315-957 | A first word and operands that suit its format are fetched as a whole |
| `DisasmAssembler.ProgramListed` | src/programs/m680x0dis/main.c:315-1015 | The listing of an assembled program has a line for each instruction, at its address, with exactly its words |
| `DisasmAssembler.ListProgram` | src/programs/m680x0dis/main.c:996-1020 | So the disassembler lists what was assembled |
| `DisasmAssembler.MissedListed` | src/programs/m680x0dis/main.c:315-668 | MOVEM.W, CAS.W and CAS.L are listed as a line of one word that is not cut short |
| `RomSum.Accumulate` | src/micromon/patch_sum.py:15-20 | The end-around-carry sum, with an accumulator that stays within 32 bits |
| `RomSum.SumIsModular` | src/micromon/patch_sum.py:15-20 | It is the plain sum modulo 2^32 - 1, and zero only for zeros |
| `RomSum.PatchedSum` | src/micromon/patch_sum.py:42-46 | The patched image sums up to all ones, whatever it was |
| `RomSum.PatchedElsewhere` | src/micromon/patch_sum.py:42-46 | The image keeps its length and every longword but the slot |
| `RomSum.PatchedAlone` | src/micromon/patch_sum.py:42-46 | No other longword in the slot makes it sum up so, but for the two zeros |
| `RomSum.Detects` | src/micromon/patch_sum.py:42-46 | Exactly which changes of one longword go unnoticed |
| `RomSum.Patch` | src/micromon/patch_sum.py:42-46 | The image in memory sums up to all ones, the sum returned is in the slot, and every other longword is as before |

## Left out

- Heap.Allocator.Free: pid 0 must not pass a pointer to a cleared header, because such headers carry its own tag and the source then frees a free block; FreeTwice shows what that leads to, and it is not followed further.
- Heap.Allocator.Malloc: payload bytes never look like headers, and the heap begins at address 32 or above and ends below 2^32; the heap's own damaged-list message is unreachable and not modelled.
- Heap.Allocator.RunAll: a run of the source that takes a block with a wrong back link is followed up to that call, which Malloc says leaves the free list wrong, and not beyond it; nor is one in which process 0 frees something that is not allocated.
- Heap: dump_heap and the counters shown by it beyond the two list lengths and the biggest payload.
- ExprParser.Evaluator: the table of constants is a parameter; adding and changing constants, error texts and the copy of the evaluator under src/programs/testtool are not modelled.
- Itoa.RoundTrip: zeros put in front are the matter of ZeroPadded.
- Itoa.ZeroPadded: bases below 8, where the octal value of the digits may happen to agree with the number modulo 2^32.
- Duart.Replay: one reader for each channel; mode and baud set-up, transmission and polled output are not modelled.
- I2c.Bus.WriteByte: the slave answers within the clock pulse; clock stretching, delays, other bits of port C and further masters are not modelled.
- I2c.Bus.ReadClock: lengths that overflow 32 bits when the address is added; no buffer is that long.
- I2cDevices.WriteRegisters: the chip's clock stands still during a transfer.
- ExprLaws.DivisionObeys: the smallest long divided by -1, which C leaves undefined.
- I2c: BCD conversion of times and the display's drawing functions.
- Ext2.ScanBuffer: a walk that leaves the block before it meets the name, or stands still at a record of length 0, is left out, because the code then reads other memory or never returns.
- Ext2.Search: nor does it model the scan of whatever a failed read has left in the buffer, or such a walk; an indirect block number of 0 is read like any other, as the code does.
- Ext2.Mount.GetInode: the twelve bytes at the end of an inode, which the code does not set.
- Ext2.Mount.constructor: the superblock and the group descriptors become the parameters of the geometry.
- Ext2: double and triple indirect blocks, for which the code answers 0, reading directories and opening files.
- Srec.Loader.LoadSingle: the sender goes on ending lines, without which the code waits for ever; a record's name and messages on the console are not modelled.
- Srec.Loader.Load: the time-out before the first character.
- Disasm.Disassembler.DecodeExtWord: the text of the operand; the words it takes alone decide where the next instruction begins.
- Disasm.Disassembler.DecodeAddress: likewise.
- Disasm.Disassembler.Decode: the branches of the decode functions appear as the function Plan, which gives the words they fetch, in their order; mnemonics and operand text are not modelled, nor is the same decoder over live memory in disasm_cmd.c.
- Disasm.Disassembler.List: lines hold address, words and the mark of a broken instruction, and no text.
- RomSum.Patch: longwords instead of bytes; reading, padding and writing the file and the slot's offset are not modelled.
