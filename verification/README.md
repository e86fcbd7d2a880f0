# Zizium: a verified model of its core protocols

This project models the parts of the Zizium operating system whose correctness is hardest to see
from the code, and proves properties of them for all inputs, all runs and all interleavings. Nothing
here executes Zizium; every claim is a statement about the Dafny model.

`dafny verify dfyconfig.toml` verifies the whole project.

## What is modelled

**The executive (kernel/executive).** Reference-counted objects, generation-tagged handle tables,
channels linked in pairs, ports and bounded message queues are one state machine. A thread is a stack
of pending locked regions, so a call chain such as handle close, last-handle callback, channel close,
close of a queued handle is a growing and shrinking stack, and any other thread may run between two
regions. The main results are: a ledger in which every reference, every handle count and every
transferred handle has exactly one owner in every reachable state; destruction exactly when nobody
holds a reference; termination of every cascade by a potential that each region lowers; a send that
is all or nothing; FIFO queues; and no widening of access along chains of duplications and transfers.
Beside the invariants, what each call does when no other thread runs in between is stated outright, in
terms of the objects and handles that a caller can see: who owns the ends of a new pair, what a connect
hands to whom, when a handle opens and with what access, what a close leaves dead. Put together, a handle
sent over a new pair reaches the server's own table, for the same object and with the access offered.
Handle tables, the access check and the ring queues are modelled as classes and loops of their own.

**ZiFS (tools/zifsinspect, tools/zifsrepair, tools/mkzifs, kernel/fs/zifs).** Superblocks, journal
headers, file records and directory blocks are encoded and decoded byte by byte. Inspection (mount,
journal, namespace, allocation) and repair (plan, overlay, ordered writes) are complete functions of a
device; the marking, scanning, counting and bitmap loops are methods over arrays proved against them.
The main results are: planning again on a device that is part-way through a repair plans exactly the
actions that remain and leads to the same volume, and so it does after a tear that reads as the old
contents, as the new or not at all; at every point of an application, even with the block being written
torn to anything, the selected superblock and journal state survive; the plan's overlay is what
applying it leaves; the inspection of records, directories and bitmap passes if and only if they describe
one consistent volume; the formatter lays out exactly what fits; and the volume that its writes leave
over zeros, with each directory packed into the blocks reserved for it, is found clean by the inspector
and left alone by repair. That last result asks of the record and directory codecs only that what the
formatter writes reads back, and the program's own codecs are proved to do so, with each field at the
offset that the format gives it. Every file that the formatter was given reads back byte for byte through
the record in its slot. A volume whose journal holds a committed transaction is inspected as the volume
that replaying it leaves, however far the commit had got with the home blocks, and nothing but a whole
transaction is ever replayed.

**The image loader (kernel/pe).** Base relocation modulo 2^64 as an exact, composable and reversible
transformation of memory, and the recursive loading of a program with its libraries: termination,
acyclic dependencies, disjoint mappings, no writable code, and a failure that leaves the mappings as
they were. The bytes of every image are part of the model: what a loaded image holds is its file's
headers and sections, each at its address with zeros in between, relocated to its base, with the address
of each import in its slot. For every program and address space, whatever has to be relocated and whatever
the page allocator will answer, the tour of a program is the order in which its modules are reached and the
base each of them gets; the program loads if and only if each stop of its tour has room, holds a module fit
for that base whose imports lead to exported code, and can be ranked above those it imports. When every
module has its preferred range to itself this is a condition on the files alone, a plan.

**Codecs and text (kernel/runtime, kernel/unicode, userland/luma, kernel/terminal).** CRC-32C and
CRC-32 over bit vectors, with their published check values, chaining and detection of every change within
four bytes; UTF-8 (section 4 of RFC 3629) and UTF-16 (section 2.1 of RFC 2781) with round trips both ways;
the in-place tokeniser that undoes a quoting printer; and the terminal's ring of lines, which shows the end
of a terminal that forgets nothing. What that terminal shows is stated cell by cell for each kind of
character, and for whole texts as their lines wrapped at the width of the terminal.

Six properties that one might expect turn out to be false, and are replaced by their exact conditions.
A channel pair whose two ends are abandoned without ever having had a handle keeps itself alive
(`ExecutiveTheorems.UnhandledPairLeaks`); an abandoned pair is destroyed if and only if one of its ends
was closed (`ExecutiveTheorems.AbandonedPair`, `ExecutiveTheorems.AbandonedChannel`). A failed choice of
an image base can leave a base behind for an image that was never mapped (`UserImages.BaseLeftBehind`);
it does so if and only if relocation of the program is forced and its preferred range is the one the
search finds first, with no other after it (`UserImages.FailedChoiceExactly`). Exactly then unloading
stops early, with nothing left mapped (`ImageLoader.Unload`), and the failed load keeps its image and
reports memory corruption (`ImageLoader.Loader.LoadUserImage`). Repair after a torn write does not always
restore the planned volume bit for bit (`ZifsVolume.TornHeaderWitness`, and `ZifsCrash.TornHeaderStays`
for every plan that renews a journal header): it does so if and only if the tear is not one of a journal
header that reads as the new one without being it, which is left as it is (`ZifsCrash.ReplanAfterTear`).
A namespace that passes the inspection need not be a tree (`ZifsTrees.LoopPasses`): it is one if and only if
no directory is its own ancestor (`ZifsTrees.TreeExactly`). A tab need not end at a tab stop
(`TerminalText.TabSpills`): it does if and only if the columns of the lines that it fills on its way are a
multiple of four (`TerminalText.TabStops`). A wide cell does not always stay with its continuation
(`TerminalText.WideHalved`): a character keeps all of them together if and only if it does not cover just
one half of a wide cell (`TerminalText.WidePairs`).

## Model

| member | source | states |
|---|---|---|
| AccessCheck.Check | kernel/executive/security/access_check.c:74-138 | the loop over entries refines the per-bit rule: success if and only if the arguments are valid and each requested bit's first applicable entry allows it, and then exactly the request is granted; what a refusal reports is exact too |
| AccessCheck.DenyNeverWidens | kernel/executive/security/access_check.c:74-126 | a deny entry put anywhere in a list never turns a refusal of a bit into a grant |
| AccessCheck.RulingExactly | kernel/executive/security/access_check.c:74-126 | a bit is allowed if and only if the first entry that concerns it, by its trustee and its mask, is an allow entry, and undecided if and only if none does |
| AccessCheck.TokensAre | kernel/executive/security/access_check.c:16-36 | a token is valid if and only if its user is no group and it lists at most sixteen different groups |
| AccessCheck.EntriesAre | kernel/executive/security/access_check.c:45-72 | an entry is valid if and only if it allows or denies some of the eight bits to somebody, with known inheritance flags |
| HandleTables.EncodeDecode | kernel/executive/handle/handle.c:210-231 | decoding an encoded slot and generation gives both back |
| HandleTables.DecodeEncode | kernel/executive/handle/handle.c:210-231 | a value that decodes is the encoding of what it decodes to |
| HandleTables.FillIsFresh | kernel/executive/handle/handle.c:45-93 | an open issues a value never issued before, and it resolves at once |
| HandleTables.DeadStaysDead | kernel/executive/handle/handle.c:155-178 | an issued handle that no longer resolves never resolves after any step |
| HandleTables.LifeOfATable | kernel/executive/handle/handle.c:27-208 | over every run of a table no value is issued twice, a closed handle never resolves again, the active count is the number of entries in use, and a closing table issues nothing |
| HandleTables.RetiredSlot | kernel/executive/handle/handle.c:45-93 | a slot whose generation wrapped to zero is never reused |
| HandleTables.HandleTable.constructor | kernel/executive/handle/handle.c:27-43 | a new table is empty, open and has issued nothing |
| HandleTables.HandleTable.Open | kernel/executive/handle/handle.c:45-93 | succeeds exactly when the table is open, has a reusable slot and the object takes a handle; then the table makes the open step, else it is unchanged |
| HandleTables.HandleTable.Find | kernel/executive/handle/handle.c:237-271 | succeeds exactly for live handles of an open table and returns their object and access |
| HandleTables.HandleTable.Close | kernel/executive/handle/handle.c:155-178 | succeeds exactly for live handles; the handle is dead afterwards whatever the outcome |
| HandleTables.HandleTable.SweepFrom | kernel/executive/handle/handle.c:180-208 | one round of close_all empties the first entry in use from an index on and leaves nothing in use before the next one |
| RingQueue.SlotIsRemainder | kernel/executive/ipc/ipc.c:284-309 | the slot of the i-th queued element is the remainder the source computes |
| RingQueue.Ring.Push | kernel/executive/ipc/ipc.c:284-309 | a message goes to the end of the queue and nothing else changes |
| RingQueue.Ring.Pop | kernel/executive/ipc/ipc.c:311-333 | the oldest message leaves, the others keep their order |
| RingQueue.Ring.Drain | kernel/executive/ipc/ipc.c:335-396 | draining hands over everything queued, oldest first, and empties the queue |
| ExecutiveInvariant.ExecKeeps | kernel/executive/ipc/ipc.c:102-396 | every locked region keeps headers, peer links, queues, signals, tables and transferred handles consistent, never undoes what must not be undone, and leaves tasks that can run |
| ExecutiveLedger.ExecFlow | kernel/executive/object/object.c:45-131 | every locked region moves references, handle counts and transferred handles between owners without creating or losing one, and lowers the work left |
| ExecutiveTheorems.StepKeeps | kernel/executive/object/object.c:45-131 | a step of any thread keeps the whole invariant and lowers the potential |
| ExecutiveTheorems.RunKeeps | kernel/executive/ipc/ipc.c:102-396 | the invariant holds after every run, whatever callers do and however threads interleave |
| ExecutiveTheorems.ChannelReferences | kernel/executive/ipc/ipc.c:198-246 | in every reachable state a channel's reference count is the callers' references, its handles, one for its peer's link, one per port queue slot and what calls in flight hold |
| ExecutiveTheorems.DestroyedExactlyWhenUnheld | kernel/executive/object/object.c:408-423 | an object is destroyed if and only if nobody holds a reference; destroy and the last-handle callback run at most once |
| ExecutiveTheorems.NotDestroyedInCallback | kernel/executive/object/object.c:97-131 | while a handle is being removed, its callback included, the object is not destroyed, and no release ever finds its object gone |
| ExecutiveTheorems.NeverStuck | kernel/executive/ipc/ipc.c:102-396 | a thread with work left can always run its next region |
| ExecutiveTheorems.CascadesTerminate | kernel/executive/handle/handle.c:155-208 | no run of steps is longer than the potential of the state it starts from, through all re-entry |
| ExecutiveTheorems.CascadesComplete | kernel/executive/ipc/ipc.c:335-396 | letting the threads run reaches a state in which every call has returned |
| ExecutiveTheorems.TransferCustody | kernel/executive/ipc/ipc.c:248-396 | a handle duplicated by a send is in exactly one place: in flight, queued, delivered or closed, and if closed it no longer resolves |
| ExecutiveTheorems.NoForeignCustody | kernel/executive/ipc/ipc.c:248-396 | nothing is queued, delivered or disposed of that no send transferred |
| ExecutiveTheorems.ClosedChannelIsDrained | kernel/executive/ipc/ipc.c:335-396 | a closed channel queues nothing and has no peer |
| ExecutiveTheorems.ClosedQueuesStrandNothing | kernel/executive/ipc/ipc.c:335-396 | once every call has returned, a transferred handle that was not received and that no open channel queues has been closed |
| ExecutiveTheorems.QueuesAreFifo | kernel/executive/ipc/ipc.c:248-333 | messages leave in the order they entered, no queue exceeds its limit, only a close drops messages, and the signal is set exactly when a receive would not wait |
| ExecutiveTheorems.PortsAreFifo | kernel/executive/ipc/ipc.c:102-196 | the same for a port's pending endpoints |
| ExecutiveTheorems.RunEvolves | kernel/executive/ipc/ipc.c:102-396 | over whole runs closed stays closed, dead stays dead and queues only move on |
| ExecutiveTheorems.AfterCloseAll | kernel/executive/handle/handle.c:180-208 | after the last round of a close_all the table has no active entry for ever, and no lookup, duplication or open through it succeeds |
| ExecutiveTheorems.ClosedHandleStaysClosed | kernel/executive/handle/handle.c:155-178 | a handle closed by anyone never resolves in any later state of the system |
| ExecutiveTheorems.NoLeakAfterLastHandle | kernel/executive/ipc/ipc.c:464-466 | once every call has returned, a channel whose last handle was closed is severed, and destroyed unless a caller or a port still holds it |
| ExecutiveTheorems.AbandonedChannel | kernel/executive/ipc/ipc.c:198-246 | an abandoned channel has been destroyed if and only if it or its peer was closed |
| ExecutiveTheorems.AbandonedPair | kernel/executive/ipc/ipc.c:198-246 | two channels once linked and both abandoned after any run are destroyed together, and if and only if one of them was closed |
| ExecutiveTheorems.UnhandledPairLeaks | kernel/executive/ipc/ipc.c:198-246 | a reachable state in which every call has returned, both ends of a pair are abandoned, and each is kept alive by the other's link |
| ExecutiveTheorems.InsertedEntry | kernel/executive/handle/handle.c:45-93 | an open stores exactly the mask that passed the access check, for that object, in a table and object that accept it |
| ExecutiveTheorems.LookupChecks | kernel/executive/handle/handle.c:95-121 | a caller gains a reference only through a live handle of the right type that grants what it asks |
| ExecutiveTheorems.TransferNeverWidens | kernel/executive/handle/handle.c:123-153 | a duplication never asks for more than its source grants, and keeps the first grant it descends from |
| ExecutiveTheorems.GrantsNeverGrow | kernel/executive/ipc/ipc.c:270-282 | in every reachable state a live handle's mask lies within the first grant of its chain |
| ExecutiveSend.AloneIsRun | kernel/executive/ipc/ipc.c:248-309 | letting one thread finish its call is a run of the machine |
| ExecutiveSend.WithdrawDuplicate | kernel/executive/ipc/ipc.c:551-554 | closing the duplicate again restores every object and all other live handles of the table |
| ExecutiveSend.SendAllOrNothing | kernel/executive/ipc/ipc.c:248-309 | a send without another thread in between enqueues, with the receiver's own handle, exactly when its guards hold at the start; otherwise every object is as it was |
| ExecutiveSend.ReceivedFirst | kernel/executive/ipc/ipc.c:311-333 | a number of receives takes that many messages off the queue in order and delivers their handles |
| ExecutiveSend.SendThenReceive | kernel/executive/ipc/ipc.c:311-333 | after the messages queued before it, the next receive hands over the message sent, with a live handle to the sender's object and the access asked for, while the sender keeps its own |
| ExecutiveCalls.CreatePairAlone | kernel/executive/ipc/ipc.c:198-246 | a pair is created exactly with valid options: the first end has the client's table, token and security, the second the server's, each is the other's peer with one reference for the caller and one for the link, and nothing else changes |
| ExecutiveCalls.CreateOthersAlone | kernel/executive/ipc/ipc.c:66-100 | ports, sections and handle tables are created exactly with valid arguments, empty and with one reference |
| ExecutiveCalls.MessagesAre | kernel/executive/ipc/ipc.c:519-533 | a message is taken if and only if it has at most 192 bytes and offers a handle with some of the eight rights, or none at all |
| ExecutiveCalls.ConnectAlone | kernel/executive/ipc/ipc.c:102-142 | a connect to an open port with room leaves the client's end with the caller and the server's end last in the port's queue; refused, it leaves every object there was as it was and its own two ends destroyed |
| ExecutiveCalls.AcceptAlone | kernel/executive/ipc/ipc.c:144-164 | an accept hands over the endpoint that has waited longest, with the reference the port held, and the signal stays set exactly while others wait; without one nothing changes |
| ExecutiveCalls.ReceiveAlone | kernel/executive/ipc/ipc.c:311-333 | a receive hands over the message that has waited longest, and its handle is the receiver's from then on; the signal stays set exactly while it should |
| ExecutiveCalls.ReferenceAlone | kernel/executive/object/object.c:45-58 | a reference is taken exactly when the object is not destroyed and its count can go up |
| ExecutiveCalls.OpenAlone | kernel/executive/handle/handle.c:45-93 | a handle opens exactly when the object, the token and the table let it; it was never issued before, is for that object with the access asked for, and no other handle changes |
| ExecutiveCalls.LookupAlone | kernel/executive/handle/handle.c:95-121 | a lookup takes a reference to the handle's object exactly when the handle is live, of the kind wanted and grants all that is asked, and changes nothing otherwise |
| ExecutiveCalls.DuplicateAlone | kernel/executive/handle/handle.c:123-153 | a duplicate is opened exactly when its source can be used and grants what is asked and the target lets it be opened, with what was asked and never more; else nothing changes |
| ExecutiveCalls.CloseAlone | kernel/executive/ipc/ipc.c:335-396 | after a close of a channel or a port it is closed and empty, every handle it queued is dead, its peer knows and has let go, and every endpoint that was pending is closed |
| ExecutiveCalls.CloseHandleAlone | kernel/executive/handle/handle.c:155-178 | a live handle no longer resolves once closed; the last one of a channel or port closes that for good; any other takes a handle and a reference off its object, which ends with its last reference, and changes no other handle; a handle that is not live changes nothing |
| ExecutiveCalls.PairDelivers | kernel/executive/ipc/ipc.c:198-333 | from any reachable state at rest, creating a pair, sending a handle from the client's end and receiving at the server's end leaves a new live handle in the server's table, for the sender's object with the access offered, and the sender's own as it was |
| Crc.ByteAtOnce | kernel/runtime/crc32c.c:12-19 | entering a byte at once and shifting is entering its bits one at a time |
| Crc.Chaining | kernel/runtime/crc32c.c:8-21 | the check of a then b is the check of b seeded with the check of a |
| Crc.FeedInjective | kernel/runtime/crc32c.c:8-21 | the register is a one-to-one function of its start, whatever bytes follow |
| Crc.BurstDetected | kernel/runtime/crc32c.c:8-21 | messages that differ only within one window of at most four bytes never have the same check |
| Crc.WindowDetected | kernel/runtime/crc32.c:8-23 | the same by position, for both polynomials in use |
| Crc.AbsorbByte | kernel/runtime/crc32c.c:12-19 | the branch-free inner loop is the bit-serial reference |
| Crc.Crc32c | kernel/runtime/crc32c.c:8-21 | computes the bit-serial reference for the Castagnoli polynomial |
| Crc.Crc32 | kernel/runtime/crc32.c:8-23 | computes the reference for the IEEE polynomial, with the source's answers for a missing buffer |
| Crc.KnownCastagnoli | kernel/runtime/crc32c.c:8-21 | the check of the nine digits is 0xe3069283, the published value for CRC-32C |
| Crc.KnownIeee | kernel/runtime/crc32.c:8-23 | the check of the nine digits is 0xcbf43926, the published value for CRC-32 |
| Unicode.DecodeAccepts | kernel/unicode/unicode.c:15-66 | a prefix is accepted if and only if it is a well-formed sequence of section 4 of RFC 3629, and each text starts with at most one |
| Unicode.DecodeEncode | kernel/unicode/unicode.c:85-123 | decoding an encoded scalar gives it back, whatever follows |
| Unicode.EncodeDecode | kernel/unicode/unicode.c:15-66 | encoding a decoded scalar gives the bytes it was decoded from |
| Unicode.ScalarsOfEncoding | kernel/unicode/unicode.c:85-123 | decoding an encoded text gives its scalars |
| Unicode.EncodingOfScalars | kernel/unicode/unicode.c:15-83 | a valid text is the encoding of its scalars |
| Unicode.ValidConcat | kernel/unicode/unicode.c:68-83 | valid texts concatenate, and so do their scalars |
| Unicode.Validate | kernel/unicode/unicode.c:68-83 | succeeds exactly for valid texts, with the source's answers for a missing buffer |
| Unicode.EncodeTo | kernel/unicode/unicode.c:85-123 | stores the encoding exactly when the scalar is valid and fits, always reports the size, and touches nothing otherwise |
| Unicode.UnitsRoundTrip | kernel/unicode/unicode.c:125-163 | the UTF-16 units of scalars decode back to them |
| Unicode.UnitsMean | kernel/unicode/unicode.c:125-163 | scalars below 0x10000 are one unit, the others a high and a low surrogate with ten bits in each |
| Unicode.EncodeOrdered | kernel/unicode/unicode.c:85-123 | encoded characters order as their scalars do, and ASCII is encoded as itself |
| Unicode.ToUtf16 | kernel/unicode/unicode.c:125-163 | reports the units the text needs, succeeds exactly when it is valid and they fit, and then stores exactly them |
| Luma.QuotedUndoesEscape | userland/luma/luma_parser.c:14-86 | reading a quoted argument undoes escaping |
| Luma.RoundTrip | userland/luma/luma_parser.c:14-86 | tokenising printed arguments returns them, or refuses them exactly when there is too little room |
| Luma.LineRoundTrip | userland/luma/luma_parser.c:30-86 | however arguments are written, in quotes or bare, with any white space between and around them, tokenising returns them, or refuses them exactly when there is too little room |
| Luma.BadQuotesRefused | userland/luma/luma_parser.c:72-77 | an unclosed quote, or one closed right before more text, is refused |
| Luma.EscapeKeepsCharacters | userland/luma/luma_parser.c:14-86 | escaping bytes escapes whole characters |
| Luma.PrintedValid | userland/luma/luma_parser.c:14-86 | printed text passes the validation made first |
| Luma.HoldsKept | userland/luma/luma_parser.c:14-86 | writing at or past the write position never disturbs a finished argument |
| Luma.SkipSpaces | userland/luma/luma_parser.c:31-33 | stops at the first byte that is not a space |
| Luma.CopyArgument | userland/luma/luma_parser.c:14-86 | copies one argument down in place; the write position never passes the read position and bytes outside stay |
| Luma.TakeArgument | userland/luma/luma_parser.c:14-86 | reads one argument as the pure reading does and checks how it ends |
| Luma.TokeniseInPlace | userland/luma/luma_parser.c:14-86 | agrees with the pure reading of the original line, and on success every view shows its argument in the compacted buffer |
| Layout.SplitConcat | kernel/fs/zifs/zifs.c:148-196 | fields laid end to end are found again at their offsets |
| Layout.LowestFirst | kernel/runtime/byte_order.c:8-38 | numbers are stored with their lowest byte first |
| Layout.FieldAt | kernel/fs/zifs/zifs.c:21-74 | each field is where the widths of those before it put it |
| ZifsOffsets.SuperblockMarked | kernel/fs/zifs/zifs.c:198-220 | a block that decodes as a superblock has the magic, the size and the checksum in their places |
| ZifsOffsets.SuperblockAt | kernel/fs/zifs/zifs.c:21-49 | each field of a decoded superblock is the number at its own offset |
| ZifsOffsets.HeaderFieldsAt | kernel/fs/zifs/journal.c:187-221 | so is each field of a decoded journal header |
| ZifsOffsets.RecordAt | kernel/fs/zifs/zifs.c:305-354 | and each of a file record, with its extents from byte 64 on and 32 bytes each |
| ZifsOffsets.DirectoryAt | kernel/fs/zifs/zifs.c:1543-1606 | a valid directory block says at fixed offsets who owns it, how many entries it has and how many bytes they take |
| ZifsOffsets.EntryAt | kernel/fs/zifs/zifs.c:1543-1606 | a directory entry is its size, the length of its name and its fields at fixed offsets, then the name |
| ZifsFormat.OverlapMeansShared | kernel/fs/zifs/zifs.c:1530-1541 | the overlap test says exactly whether a block is in both ranges |
| ZifsFormat.DecodedIsDecodable | kernel/fs/zifs/zifs.c:198-267 | whatever decodes satisfies every check of the format |
| ZifsFormat.SuperblockRoundTrip | kernel/fs/zifs/zifs.c:148-267 | every superblock a decoder could produce is encoded, and decodes to itself |
| ZifsFormat.HeaderRoundTrip | kernel/fs/zifs/journal.c:158-221 | every valid journal header is encoded, and decodes to itself |
| ZifsFormat.DecodedHeaderValid | kernel/fs/zifs/journal.c:187-221 | whatever decodes as a header is valid |
| ZifsCodecs.RecordRoundTrip | kernel/fs/zifs/zifs.c:269-354 | every record of the right shape is encoded, and decodes to itself |
| ZifsCodecs.DecodedIsShaped | kernel/fs/zifs/zifs.c:305-354 | whatever decodes as a record has the right shape |
| ZifsCodecs.DirectoryRoundTrip | kernel/fs/zifs/zifs.c:1543-1606 | a block of proper entries decodes to them under its owner's number, and is corrupt under any other |
| ZifsCodecs.AddsEntry | kernel/fs/zifs/zifs.c:427-473 | adding a proper entry with a new name to a block with room gives the block of all the entries |
| ZifsCodecs.NoRoomForEntry | kernel/fs/zifs/zifs.c:427-473 | and to a block without room nothing is added |
| ZifsCodecs.BuiltBlock | kernel/fs/zifs/zifs.c:356-473 | a block built by adding proper entries one by one is the block of all of them |
| ZifsJournal.AnyOrder | tools/zifsinspect/inspect.c:940-979 | the overlay view is the device after the images are written in any order, with any repetition, if no two name one block |
| ZifsJournal.ReadThrough | tools/zifsinspect/inspect.c:940-979 | a read through the overlay returns the view's blocks, and refuses exactly the ranges outside |
| ZifsJournal.FindImage | tools/zifsrepair/repair.c:482-489 | finds the image that hides a block, if there is one |
| ZifsJournal.TransactionGood | tools/zifsinspect/inspect.c:983-1046 | a validated transaction carries one image per block record, for distinct home blocks outside superblocks and journal |
| ZifsJournal.TransactionExactly | tools/zifsinspect/inspect.c:983-1046 | records that decode are a transaction if and only if they are numbered without a gap up to the header's next number, all of its last transaction and generation, from a begin record with their count over images for distinct home blocks to a commit record with the checksum over them |
| ZifsJournal.CollectImages | tools/zifsinspect/inspect.c:1003-1030 | the loop over image records, with its scan of earlier targets, collects what the pure validation does, or fails as it does |
| ZifsJournal.CommitReplays | kernel/fs/zifs/transaction.c:258-330 | the records a commit writes validate under the header it then writes, and the images replayed are exactly those committed |
| ZifsJournal.ReplayView | tools/zifsinspect/inspect.c:351-405 | what is inspected through a validated transaction is the device with all its images written in any order, and superblocks and journal are seen unchanged |
| ZifsReplay.InspectsReplay | tools/zifsinspect/inspect.c:149-227 | if the journal holds a transaction that validates, the home that is inspected is the one that writing its images, in any order, would leave, and the volume is reported to need recovery |
| ZifsReplay.CommittedInspects | kernel/fs/zifs/transaction.c:208-418 | once a commit's records, header and superblocks are written, if the home with all its images written is sound then it is reported as sound, whatever the blocks it has images of hold, and the volume as in need of recovery, unless a volume that says it is not mounted fails to mount |
| ZifsReplay.SuccessExactly | tools/zifsinspect/inspect.c:149-227 | an inspection says success if and only if both superblocks, the mount, the journal, the security table, the namespace and the allocation are well and nothing calls for recovery |
| ZifsReplay.FirstProblem | tools/zifsinspect/inspect.c:185-226 | the status reported is the first failure in the order of the checks, or else the need of recovery |
| ZifsReplay.MountNeeds | kernel/fs/zifs/zifs.c:973-1000 | a mount says that the volume needs recovery unless its superblocks agree, it was left clean, and the newer readable journal header fits the journal and belongs to this state of the volume |
| ZifsReplay.SuccessMounts | kernel/fs/zifs/zifs.c:733-795 | a volume that passes has two superblocks of one clean state and a root record that is a valid directory |
| ZifsReplay.SuccessSettled | tools/zifsinspect/inspect.c:271-349 | and two journal headers that fit the journal, the newer of which belongs to this state of the volume |
| ZifsHome.MarkAllIff | tools/zifsinspect/inspect.c:839-882 | marking ranges succeeds if and only if they are inside, unmarked and pairwise disjoint |
| ZifsHome.MarkAllMarks | tools/zifsinspect/inspect.c:864-882 | afterwards exactly the blocks marked before and those of the ranges are marked |
| ZifsHomeTheorems.NamespaceOwnsApart | tools/zifsinspect/inspect.c:529-616 | when the namespace check passes, tables and extents lie inside the volume, no two share a block, and the marks are exactly their blocks |
| ZifsHomeTheorems.EveryRecordLinkedOnce | tools/zifsinspect/inspect.c:702-777 | when it passes, every live record but the root is named by exactly one entry, in the directory its parent number names, and the root by none; file numbers and directory blocks are distinct |
| ZifsHomeTheorems.AllocationVerdict | tools/zifsinspect/inspect.c:779-837 | SUCCESS, RECOVERY_REQUIRED and CORRUPT each if and only if the bitmap equals, strictly contains, or misses the referenced blocks, with the padding clear |
| ZifsHomeTheorems.DirectoryUnguarded | kernel/fs/zifs/zifs.c:640-668 | a directory is never read from a superblock or journal block |
| ZifsHomeTheorems.HomeSame | tools/zifsinspect/inspect.c:453-487 | devices that agree outside superblocks and journal get the same home verdicts |
| ZifsNamespace.RecordsAre | kernel/fs/zifs/zifs.c:1377-1541 | a record is valid if and only if it is a file with the blocks for its size, a directory with a block of the directory table and at most 255 more, or something without blocks, whose extents map consecutive logical blocks to blocks outside all metadata, none of them twice |
| ZifsNamespace.NamespaceExactly | tools/zifsinspect/inspect.c:489-777 | the namespace check passes with some records and entries if and only if each slot is empty or holds a valid record with a known security identifier, no block is used twice, file numbers and directory blocks are different, every entry points to a record that points back, no record is named twice and no name used twice in a directory, and every live record but the root is named |
| ZifsNamespace.AllocationExactly | tools/zifsinspect/inspect.c:779-837 | the allocation check passes if and only if the bitmap has the right size and exactly the bits of the blocks in use |
| ZifsNamespace.HomeExactly | tools/zifsinspect/inspect.c:453-487 | security, namespace and allocation all pass if and only if there are records and entries for which all of that holds |
| ZifsTrees.TreeExactly | tools/zifsinspect/inspect.c:702-777 | in a namespace that passes, every live record can be found from the root if and only if no directory is its own ancestor |
| ZifsTrees.LoopPasses | tools/zifsinspect/inspect.c:702-777 | a volume in the program's own format that passes the namespace check with two directories that hold each other and cannot be found from the root |
| ZifsMarking.MarkExpectedRange | tools/zifsinspect/inspect.c:864-882 | the in-place loop marks the range, or refuses it exactly when it leaves the volume or, if asked, meets a mark |
| ZifsMarking.MarkRanges | tools/zifsinspect/inspect.c:839-862 | marks ranges in turn until one is refused |
| ZifsMarking.MarkMetadataBlocks | tools/zifsinspect/inspect.c:839-862 | marks the seven metadata ranges |
| ZifsMarking.ScanTable | tools/zifsinspect/inspect.c:529-616 | the loop over the record table returns the records and marks of the scan, or its first failure |
| ZifsMarking.NeighboursDecide | tools/zifsinspect/inspect.c:529-616 | on a sorted rearrangement, comparing neighbours finds every duplicate |
| ZifsMarking.CountBlocks | tools/zifsinspect/inspect.c:779-837 | stops exactly at an owned block that is free, else counts allocated, free and unreferenced blocks |
| ZifsMarking.CheckPadding | tools/zifsinspect/inspect.c:779-837 | fails exactly when a padding bit is set |
| ZifsMarking.InspectAllocation | tools/zifsinspect/inspect.c:779-837 | the loops give the verdict on the two sets of blocks, and the counts |
| ZifsMarking.LinkEntries | tools/zifsinspect/inspect.c:720-777 | linking the entries of a block in place agrees with the pure inspection of the entries |
| ZifsInspect.SelectsNewest | kernel/fs/zifs/zifs.c:915-948 | of two readable copies of one volume the newer is selected, a clean one among equals, and one readable copy is enough |
| ZifsInspect.ChoosesNewest | tools/zifsinspect/inspect.c:271-349 | the journal header chosen is a readable one with the highest sequence number; equal numbers with different states are refused |
| ZifsInspect.WalkEndsAtHead | tools/zifsinspect/inspect.c:397-399 | reading as many records as a header says it has, from its tail, ends at its head, so that test never fails |
| ZifsRepairTheorems.PlanFor | tools/zifsrepair/repair.c:69-156 | a sound device whose copies select a superblock and header gets the journal action and superblock actions they call for, provided the result is clean |
| ZifsRepairTheorems.PlanBasis | tools/zifsrepair/repair.c:69-156 | every successful plan is decided by one superblock, one header and the copies that hold them, and its result inspects clean |
| ZifsRepairTheorems.PlanDescribes | tools/zifsrepair/repair.c:121-156 | the identity, generation and flags of a plan are those that can be read in the copies it names: unclean exactly when the superblock says mounted, redundancy lost exactly when the other copy cannot be read or differs, and a journal repair exactly when there is such an action |
| ZifsRepairTheorems.SelectsPartial | kernel/fs/zifs/zifs.c:915-948 | on a part-way device the mount still selects the same superblock up to its state |
| ZifsRepairTheorems.ChoosesPartial | tools/zifsrepair/repair.c:335-373 | and the same journal header, with what is left of the journal action |
| ZifsRepairTheorems.InspectTwin | tools/zifsinspect/inspect.c:271-349 | devices that differ in a journal header that decodes alike get the same report |
| ZifsRepairTheorems.Replan | tools/zifsrepair/repair.c:69-156 | planning on a part-way device succeeds, plans exactly the actions that remain, on distinct blocks, and leads to the same final volume, with the header block that was read as renewed |
| ZifsCrash.ReplanAfterPrefix | tools/zifsrepair/repair.c:158-199 | after any number of a plan's actions planning succeeds and plans exactly the others; after all of them, none |
| ZifsCrash.ReplanAfterTear | tools/zifsrepair/repair.c:501-528 | a crash that leaves the block being written undecodable, or decoding to the old or the new contents, is repaired to the volume the first plan would have left; only a torn journal header that reads as the new one stays as it is |
| ZifsCrash.TornHeaderStays | tools/zifsrepair/repair.c:501-528 | every plan with a journal action has a tear of that action after which repair ends in another volume than the planned one |
| ZifsCrash.SectorTear | tools/zifsrepair/repair.c:501-528 | a write that stops before its first byte, or anywhere past the bytes a decoder reads, is one of the tears that repair foresees |
| ZifsCrash.SurvivesTear | tools/zifsrepair/repair.c:375-422 | at every point, with the block being written torn to anything, one superblock copy and one journal header carry the selected state |
| ZifsCrash.PlannedBlocks | tools/zifsrepair/repair.c:315-422 | a plan has at most three actions, on distinct blocks, only on superblocks and the header not selected, each expecting what is there and changing it |
| ZifsCrash.OverlayIsResult | tools/zifsrepair/repair.c:424-489 | the overlay that planning finds clean is the device after the actions in any order, and differs from it nowhere else |
| ZifsCrash.LostCopyIsRestored | tools/zifsrepair/repair.c:375-422 | a volume with nothing to repair that loses either superblock copy is planned back to what it was, bit for bit |
| ZifsCrash.LostHeaderIsRenewed | tools/zifsrepair/repair.c:335-373 | a volume with nothing to repair that loses either journal header is planned to have exactly that one renewed from the other, if and only if the other one's sequence number is not the last there is |
| ZifsCrash.SoundIsClean | tools/zifsinspect/inspect.c:149-227 | a sound volume whose superblock copies and journal headers agree inspects clean |
| ZifsApply.Disk.Write | tools/zifsrepair/repair.c:501-528 | a write lands, fails or tears its one block |
| ZifsApply.ApplyAction | tools/zifsrepair/repair.c:501-528 | leaves a block that already holds the replacement, refuses an unexpected one, writes otherwise, and touches no other block |
| ZifsApply.ApplyActions | tools/zifsrepair/repair.c:183-185 | stops only where the device does, after some number of actions and at most one torn block |
| ZifsApply.ReachedSurvives | tools/zifsrepair/repair.c:158-199 | wherever an application stops, what was selected before it is still there |
| ZifsApply.Recheck | tools/zifsrepair/repair.c:187-192 | only a device with nothing left to repair passes; the status is the planner's, or INVALID_STATE when actions remain |
| ZifsApply.Apply | tools/zifsrepair/repair.c:158-199 | nothing is written unless the device calls for exactly this plan; every stop survives; success is the overlay and leaves nothing to plan; only the device can make it fail |
| ZifsFormatter.ReservedIsEnough | tools/mkzifs/main.c:708-754 | the continuation blocks the accounting pass reserves are exactly those the appending pass fills |
| ZifsSizes.AccountExactly | tools/mkzifs/main.c:708-727 | the accounting of a directory fails exactly on names that are empty or over 255 bytes, and else counts one block more each time an entry does not fit |
| ZifsSizes.FormatExactly | tools/mkzifs/main.c:230-297 | a tree is laid out if and only if its names have 1 to 255 bytes, no directory needs more than 256 blocks, and the tables, all further directory blocks and all files fit below the backup superblock |
| ZifsFormatter.FormatIsApart | tools/mkzifs/main.c:230-297 | tables, continuations and files lie inside the volume, share no block, and all but the backup end before the backup |
| ZifsFormatter.FormatInside | tools/mkzifs/main.c:626-665 | each continuation and file range is empty or between the tables and the backup, with the size its content needs |
| ZifsFormatter.FormatDecodes | tools/mkzifs/main.c:316-352 | the superblock written is one every decoder accepts |
| ZifsFormatter.DirectoryRecordValid | tools/mkzifs/main.c:362-375 | the record of every directory passes the record checks |
| ZifsFormatter.RegularRecordValid | tools/mkzifs/main.c:376-390 | the record of every file passes the record checks |
| ZifsFormatter.SetBit | tools/mkzifs/main.c:992-1008 | sets one bit and no other, or refuses one outside |
| ZifsFormatter.MarkExtent | tools/mkzifs/main.c:992-1008 | sets exactly the bits of a range, or refuses one that has no place |
| ZifsFormatter.BuildBitmap | tools/mkzifs/main.c:459-508 | the bitmap has exactly the bits of the marked ranges, which determines its bytes |
| ZifsFormatter.BitmapBit | tools/mkzifs/main.c:459-508 | a bit of the bitmap of some ranges is set if and only if its block is in one of them |
| ZifsFormatter.BitmapIs | tools/mkzifs/main.c:459-508 | a bitmap is determined by its bits |
| ZifsFormatter.MarkedIsOwned | tools/mkzifs/main.c:459-508 | the formatter marks exactly the blocks the inspector expects |
| ZifsFormatter.FormatPassesAllocation | tools/zifsinspect/inspect.c:779-837 | the bitmap written makes the inspector's allocation check succeed |
| ZifsFormatter.AccountDirectories | tools/mkzifs/main.c:667-685 | accounts the entries of a directory's child directories in order |
| ZifsFormatter.AccountFiles | tools/mkzifs/main.c:687-705 | accounts the entries of its files in order |
| ZifsFormatter.AssignContinuations | tools/mkzifs/main.c:626-665 | reserves the continuations of all directories one after another, or fails as the source does |
| ZifsFormatter.PlaceFiles | tools/mkzifs/main.c:762-863 | places the data of all files one after another, or fails as the source does |
| ZifsFormatted.ScanSucceeds | tools/zifsinspect/inspect.c:529-616 | a table of valid records whose extents are apart passes the scan, and the marks are exactly theirs |
| ZifsFormatted.BlocksAreRead | tools/zifsinspect/inspect.c:635-700 | inspecting a directory block by block is inspecting all its entries |
| ZifsFormatted.NamespacePasses | tools/zifsinspect/inspect.c:489-525 | the records and directories the formatter writes pass the namespace check |
| ZifsFormatted.HomePasses | tools/zifsinspect/inspect.c:453-487 | the home metadata of a formatted volume passes the security, namespace and allocation checks |
| ZifsFormatted.FormatIsLaid | tools/mkzifs/main.c:230-297 | every layout the formatter computes places the tables, continuations and files as the records will say |
| ZifsFormatted.FormatIsClean | tools/mkzifs/main.c:230-569 | for every accepted size and file list, a device that reads back as what the formatter writes passes the whole inspection as clean, and the repair plan for it is empty |
| ZifsFormatted.FormatSurvivesLoss | tools/zifsrepair/repair.c:375-422 | and if it loses a superblock copy it is repaired to what was formatted |
| ZifsVolume.PackedFits | tools/mkzifs/main.c:729-754 | the entries of every directory, packed in order, overfill no block and fill exactly the blocks that were reserved |
| ZifsVolume.FormatDivides | tools/mkzifs/main.c:626-665 | continuations follow one another below the files, and each has the blocks its entries need |
| ZifsVolume.ImageTables | tools/mkzifs/main.c:354-540 | the writes of later passes leave the superblocks, records, bitmap, journal headers and security table as written |
| ZifsVolume.ImageDirectories | tools/mkzifs/main.c:406-457 | each block of each directory is where its record says |
| ZifsVolume.ReadsBack | tools/zifsinspect/inspect.c:635-700 | with readers that read back each block the formatter writes, the blocks of a directory read back as all its entries in order |
| ZifsVolume.ImageHolds | tools/mkzifs/main.c:230-569 | the volume left by the formatter's writes reads back as what it wrote |
| ZifsFiles.CutFile | tools/mkzifs/main.c:885-915 | the loop cuts a host file into its blocks, the last one filled up with zeros |
| ZifsFiles.FileMapped | kernel/fs/zifs/zifs.c:1111-1180 | every byte of a valid file has its place inside the volume |
| ZifsFiles.ReadFile | kernel/fs/zifs/zifs.c:1111-1180 | a read of a valid file succeeds and gives the bytes that its record maps, as many as were asked for and the file has; records that are not valid or not files are refused |
| ZifsFiles.FileHeld | tools/mkzifs/main.c:376-555 | in the volume that the formatter's writes leave, the record of every file is in its slot with the file's size, and maps each block of the contents to where it was written |
| ZifsFiles.FormattedFileReads | tools/mkzifs/main.c:230-569 | through the program's own codecs every file that the formatter was given reads back byte for byte |
| ZifsVolume.FormattedIsClean | tools/mkzifs/main.c:230-569 | for every accepted size and tree, and any codecs by which what the formatter writes reads back, the volume that its writes leave over zeros passes the whole inspection as clean, and the repair plan for it is empty |
| ZifsVolume.OwnFormatIsClean | tools/mkzifs/main.c:230-569 | the same for the program's own record and directory codecs, with no condition on what reads back but for the security table |
| ZifsVolume.FormattedSurvivesLoss | tools/zifsrepair/repair.c:375-422 | a formatted volume that loses either superblock copy is repaired to what was formatted, bit for bit |
| ZifsVolume.MarkedRepresentable | tools/mkzifs/main.c:459-508 | every range the formatter marks has its place in the bitmap it reserved, so that building the bitmap succeeds |
| ZifsVolume.PackedBuilds | tools/mkzifs/main.c:406-457 | each block of each directory is what adding its entries one by one to an empty block gives |
| ZifsVolume.TornHeaderWitness | tools/zifsrepair/repair.c:501-528 | a formatted volume that lost a journal header, its plan, and a tear of it after which repair does not end in the planned volume |
| Relocation.WalkBlocksParsed | kernel/pe/pe.c:498-550 | when no target overlaps the directory, the walk adds the delta at each target the directory named before the walk, up to the first thing wrong |
| Relocation.DirectoryNames | kernel/pe/pe.c:498-550 | a directory written as page blocks of 64-bit entries and padding is accepted and names the places it was written for, in order |
| Relocation.RelocateExact | kernel/pe/pe.c:280-310 | relocating changes exactly the target qwords, each by the base delta modulo 2^64 |
| Relocation.StillPlaced | kernel/pe/pe.c:280-310 | the relocated memory carries the same directory and can be relocated again |
| Relocation.RelocateComposes | kernel/pe/pe.c:280-310 | relocating from A to B and then to C is relocating from A to C |
| Relocation.RelocateRestores | kernel/pe/pe.c:280-310 | relocating away and back restores every byte |
| Relocation.ApplyBlock | kernel/pe/pe.c:498-550 | one block done in place leaves the rest of the walk to do, or fails as the walk does |
| Relocation.AddInPlace | kernel/pe/pe.c:740-747 | adds to one little-endian qword modulo 2^64 and changes no other byte |
| Relocation.ApplyRelocations | kernel/pe/pe.c:280-310 | the in-place loop computes the relocation, and ends at the end of the directory or with an error |
| AddressSpaces.LowestFree | kernel/executive/process/address_space.c:128-175 | the search finds the lowest aligned free range inside its bounds, or there is none; it never gets stuck |
| AddressSpaces.MapKeeps | kernel/executive/process/address_space.c:61-126 | mapping keeps regions aligned and apart, the page table theirs, and no page writable code |
| AddressSpaces.ProtectKeeps | kernel/executive/process/address_space.c:177-203 | so does protecting, which keeps the regions |
| AddressSpaces.UnmapLast | kernel/executive/process/address_space.c:206-217 | unmapping the region mapped last undoes the mapping exactly |
| UserImages.FailedChoiceExactly | kernel/pe/user_image.c:238-285 | a failed choice leaves a base behind if and only if relocation of the program is forced, its preferred range is the lowest free one of the search, and there is no free one past it |
| UserImages.BaseLeftBehind | kernel/pe/user_image.c:238-285 | a valid program, options and an empty space for which it does |
| UserImages.ChosenBase | kernel/pe/user_image.c:238-285 | a chosen base has a free range; it is the preferred one if and only if that is free and relocation is not forced, and any other lies in the search bounds of a relocatable image |
| UserImages.PreferredDecides | kernel/pe/user_image.c:238-285 | the preferred base is taken exactly when its range is free |
| UserImages.ContractIs | kernel/pe/user_image.c:195-236 | an image is accepted if and only if it is a native one of the kind asked for, a library only with exports, is page aligned and inside the user range, and has its headers and sections inside it, none of them empty and no two on one page |
| UserImages.ImageProtected | kernel/pe/user_image.c:426-449 | after protection each page of the image has its section's protection and other pages are untouched |
| UserImages.ImageOutside | kernel/pe/user_image.c:426-449 | whatever the outcome, pages outside the image keep their protection |
| UserImages.ProtectSucceeds | kernel/pe/user_image.c:451-466 | protecting a mapped image succeeds if and only if no section is writable code |
| UserImages.PlaceSane | kernel/pe/user_image.c:341-360 | mapping the loading image keeps all finished images as they are |
| UserImages.FinishSane | kernel/pe/user_image.c:387-407 | an image whose imports are bound and whose pages are protected joins the finished ones without disturbing them |
| ImageLoader.StackedPop | kernel/pe/user_image.c:132-155 | the image loaded last can always be unmapped, which leaves the earlier ones |
| ImageLoader.Unload | kernel/pe/user_image.c:132-155 | unloading leaves the mappings that were there before the load; it stops early if and only if the last image has a base but is not mapped there, and then keeps the images as they are |
| ImageMemory.LoadedBytes | kernel/pe/user_image.c:366-389 | let a memory hold the file's headers and sections at their addresses and zeros elsewhere; in a loaded image every relocation target clear of import slots holds its value moved by the distance from the preferred base, every import slot the address of its symbol, and every other byte is its byte |
| ImageMemory.CopiedHolds | kernel/pe/user_image.c:409-424 | the memory that copying leaves is exactly the one with the file's headers at the start, each section's bytes at its address and zeros elsewhere |
| ImageMemory.LoadedAtHome | kernel/pe/user_image.c:366-389 | an image at its preferred base holds what its file says, with the addresses of its imports in their slots, whatever its relocation directory is |
| ImageMemory.RemembersStay | kernel/pe/user_image.c:366-389 | the bytes of finished images stay as they are while others are added, filled and bound |
| ImageMemory.PatchOne | kernel/pe/user_image.c:506-584 | binding one more import writes its address into its slot and nothing else |
| ProgramPlans.SealsExactly | kernel/pe/user_image.c:387-407 | a mapped image seals if and only if no section is writable code and, for a program, a code section holds the entry |
| ProgramTours.SameRoom | kernel/pe/user_image.c:238-285 | the base chosen for an image and whether it can be mapped there depend on the regions taken and the page allocator only |
| ProgramTours.TourMore | kernel/pe/user_image.c:323-385 | a module that is mapped takes the next place of the tour, which goes on with its imports as they read at that base |
| ProgramTours.RoomNext | kernel/pe/user_image.c:323-360 | on the course of a good tour there is room for the module that comes next |
| ProgramTours.NextIsFine | kernel/pe/user_image.c:506-540 | on the course of a good tour a module that is wanted is ready, or is acceptable and still fits into the set |
| ProgramTours.ExportsAtStop | kernel/pe/user_image.c:542-584 | a ready image at its stop exports what the tour says |
| ProgramTours.SealsAtStop | kernel/pe/user_image.c:387-407 | a mapped image at its stop can be protected and, for a program, its entry is code |
| ProgramTours.LoadedIsTour | kernel/pe/user_image.c:289-407 | the places of a loaded program meet every condition on a tour, ranked by the order in which its images became ready |
| ProgramTours.ProgramBytes | kernel/pe/user_image.c:289-407 | in a loaded program every import slot of every image holds the address of its symbol, and every byte outside slots and relocated targets is the file's |
| ProgramHomes.NextAtHome | kernel/pe/user_image.c:238-285 | with room for every module at its preferred base, the next one goes there |
| ProgramHomes.VisitAtHome | kernel/pe/user_image.c:289-407 | and so does every module of the tour |
| ProgramHomes.VisitPlanned | kernel/pe/user_image.c:506-540 | a tour inside a plan never runs out of room in the set, stays inside the plan, and ends with a place for every import of its modules |
| ProgramHomes.PlanIsTour | kernel/pe/user_image.c:78-130 | with room for every module, a plan ranks the modules of a good tour |
| ProgramHomes.TourIsPlan | kernel/pe/user_image.c:78-130 | and the ranks of a good tour are a plan |
| ProgramHomes.RoomyPlans | kernel/pe/user_image.c:78-130 | with room for every module, the tour is good if and only if the files of the program have a plan |
| ImageLoader.Loader.Enter | kernel/pe/user_image.c:323-407 | an image is entered and mapped exactly when a base and pages are to be had; it takes the next place of the tour, and on the course of a good tour there is always room |
| ImageLoader.Loader.Reserve | kernel/pe/user_image.c:323-360 | the image is mapped exactly when a base and pages are to be had; else the space can be rolled back |
| ImageLoader.Loader.Complete | kernel/pe/user_image.c:366-407 | fills a reserved image with its relocated bytes, binds its imports and seals it; it leaves the places that the tour of its imports leaves, and on the course of a good tour it always succeeds |
| ImageLoader.Loader.Seal | kernel/pe/user_image.c:387-407 | makes a bound image ready exactly when its sections can be protected and, for a program, its entry is code |
| ImageLoader.Loader.BindImports | kernel/pe/user_image.c:506-584 | after it every import is bound to code of a ready image and its address is in its slot, or the load is abandoned; without imports nothing changes; it leaves the places that the tour of the imports leaves, and on the course of a good tour it always succeeds |
| ImageLoader.Loader.BindImport | kernel/pe/user_image.c:506-584 | one import more is bound and written into its slot, and no other byte of the image changes |
| ImageLoader.Loader.WriteSlot | kernel/pe/pe.c:683-693 | an address is written into its import slot exactly when that lies inside the image, and no other byte changes |
| ImageLoader.Loader.Link | kernel/pe/user_image.c:542-584 | records a dependency exactly when the image found exports code under the symbol, and gives its address |
| ImageLoader.Loader.FindModule | kernel/pe/user_image.c:506-540 | finds a ready image by name or loads it from its source; it leaves the places that the tour of that module leaves, and a module that comes next in a good tour is always found |
| ImageLoader.Loader.ResolveImport | kernel/pe/user_image.c:506-584 | an import is bound to an image that is ready and exports code under its symbol, and code found so far stays code |
| ImageLoader.Loader.CheckExport | kernel/pe/user_image.c:542-584 | succeeds if and only if the export exists and lies on an executable page, and then gives its address |
| ImageLoader.Loader.LoadImage | kernel/pe/user_image.c:289-407 | terminates; success leaves the image and all it needed ready, failure leaves what can be rolled back, or the one image whose base was left behind; an image without imports loads exactly when the guards admit it, success leaves the places that the tour of the module leaves, and a module that comes next in a good tour always loads |
| ImageLoader.Loader.RollBack | kernel/pe/user_image.c:114-122 | a failed load is unloaded, and reports memory corruption exactly when a base was left behind |
| ImageLoader.Loader.LoadUserImage | kernel/pe/user_image.c:78-130 | success is a loaded program with its bytes in memory, whose images are accepted ones of the sources named, failure leaves the mappings as they were; the image set is kept, and memory corruption reported, exactly when a base was left behind; a program without imports loads if and only if its arguments and image are acceptable and the space admits it; every program, with imports and relocation, loads if and only if its options and sources are valid and its tour is good; with room for every module, if and only if its files have a plan |
| ImageLoader.DependenciesAcyclic | kernel/pe/user_image.c:506-584 | in a loaded program no image depends on itself, however indirectly |
| ImageLoader.MappingsApart | kernel/pe/user_image.c:289-407 | no two images share a page and no page of theirs is writable code |
| Terminal.WriteOk | kernel/terminal/terminal.c:60-133 | every write keeps the cursor inside the line and the lines whole |
| Terminal.RunAware | kernel/terminal/terminal.c:60-133 | after any run of writes the glyph written last sits right before the cursor and is where a mark goes |
| Terminal.MarkLandsOnLastGlyph | kernel/terminal/terminal.c:302-312 | an attached combining mark goes to the glyph written last, never to a continuation cell, and changes nothing else |
| TerminalText.FeedStarts | kernel/terminal/terminal.c:68-71 | a line feed keeps every line and starts a blank one at its first column |
| TerminalText.ReturnKeepsLines | kernel/terminal/terminal.c:64-67 | a carriage return moves to the first column and changes no line |
| TerminalText.GlyphWritten | kernel/terminal/terminal.c:93-133 | a printable character is shown at the cursor, or at the start of a new line if it does not fit, in the colours in force, a wide one with its continuation; no other cell changes, and the cursor moves past it, to a new line at the end of this one |
| TerminalText.ReplacementWritten | kernel/terminal/terminal.c:83-101 | a character wider than the terminal, or a mark that attaches to nothing, is written as the replacement character |
| TerminalText.MarkWritten | kernel/terminal/terminal.c:83-92 | a mark that attaches is added to the cell before the cursor, or to the wide one that this continues, and changes nothing else |
| TerminalText.InvisibleWritten | kernel/terminal/terminal.c:93-97 | what has no width and is no mark is not shown |
| TerminalText.TabWritten | kernel/terminal/terminal.c:72-82 | a tab writes the spaces up to the next multiple of four, and if they fit the line that is all it changes |
| TerminalText.TabStops | kernel/terminal/terminal.c:72-82 | a tab ends at a multiple of four if and only if the columns of the lines it fills are one |
| TerminalText.TabSpills | kernel/terminal/terminal.c:72-82 | a terminal of six columns in which it does not |
| TerminalText.PlainTextShown | kernel/terminal/terminal.c:60-133 | narrow text with line feeds, written to a fresh terminal, shows exactly the text split at its line feeds and wrapped at the number of columns, with the cursor at its end |
| TerminalText.WidePairs | kernel/terminal/terminal.c:102-122 | writing a printable character keeps wide cells and continuations together if and only if it does not cover one half of a wide cell |
| TerminalText.WideHalved | kernel/terminal/terminal.c:102-122 | after a wide character and a carriage return, a narrow character leaves half of the wide one behind |
| TerminalRing.ShowsNext | kernel/terminal/terminal.c:291-300 | a new line in a full ring takes the place of the oldest, and the ring shows the last lines again |
| TerminalRing.TerminalBuffer.constructor | kernel/terminal/terminal.c:20-44 | a new terminal shows one blank line |
| TerminalRing.TerminalBuffer.Clear | kernel/terminal/terminal.c:46-58 | a cleared terminal is as new |
| TerminalRing.TerminalBuffer.AppendLine | kernel/terminal/terminal.c:291-300 | the ring follows the unbounded terminal's new line, and the viewport returns to the end |
| TerminalRing.TerminalBuffer.EmitGlyph | kernel/terminal/terminal.c:97-133 | storing a glyph, its continuation and the used width follows the unbounded terminal, a full line included |
| TerminalRing.TerminalBuffer.AttachMark | kernel/terminal/terminal.c:83-92 | attaching a mark follows the unbounded terminal |
| TerminalRing.TerminalBuffer.WriteScalar | kernel/terminal/terminal.c:60-133 | after each write the ring shows the last lines of the unbounded terminal, the cursor is inside and the viewport below the line count; non-scalars are refused |
| TerminalRing.TerminalBuffer.WriteUtf8 | kernel/terminal/terminal.c:135-154 | writes exactly the part of the text that decodes, and succeeds exactly for valid text |
| TerminalRing.PrefixOfValid | kernel/terminal/terminal.c:135-154 | for valid text that part is all of it |
| TerminalRing.TerminalBuffer.GetLine | kernel/terminal/terminal.c:156-167 | returns the line of the unbounded terminal that has this number among those shown, or nothing |
| TerminalRing.TerminalBuffer.PageUp | kernel/terminal/terminal.c:169-179 | moves the viewport back, no further than the oldest line |
| TerminalRing.TerminalBuffer.PageDown | kernel/terminal/terminal.c:181-190 | moves the viewport forward, no further than the newest line |

## Left out

- Scheduler, dispatcher waits, memory management, drivers, boot and the Python tooling are not part of this model.
- The spin lock's memory ordering: locked regions are atomic steps of the machine.
- zi_dispatcher_set_signal_state_locked is an assignment to the signal; waiting threads are not modelled.
- Callers of the executive are asked for one discipline only: they release references that they own.
- The statuses returned by executive calls are not recorded by the machine; the classes for handle tables, the access check and the methods elsewhere state theirs.
- Object directories and the object namespace, object type registration and the contents of shared sections are left out: they are look-ups in fixed arrays under one lock, and their invariants would repeat those of the handle tables.
- struct_size, version, flag and reserved-field tests of executive messages, descriptors and tokens are one flag each; access masks are sets of bit positions.
- A channel pair is created in one step, since nobody else can see it before the call returns.
- ZiFS security-table and journal-record parsers are arbitrary functions of the blocks they read. Inspection and repair take the file-record and directory-block parsers as arbitrary functions too, so their results hold for any such parser; the program's own are modelled byte by byte, as are the superblock and journal-header codecs.
- Device read failures and memory exhaustion in the ZiFS tools: reads succeed, and only writes and barriers can fail or tear.
- The counters of the inspection report other than the block counts.
- The kernel's own recovery, the preparation of transactions and writable mounts; of a commit only the records it writes are modelled.
- ZifsVolume.FormattedIsClean: host file access and path parsing are not modelled; siblings have different names, and the security table is any block that reads back and passes the mount check.
- ZifsVolume.OwnFormatIsClean: the tree has proper names, different ones among siblings; the parsing of paths that refuses others (tools/mkzifs/main.c:776-841) is not modelled.
- ZifsMarking.NeighboursDecide: qsort is any sorted rearrangement.
- PE parsing, export search and import tables are arbitrary functions of a file and its base; copying, relocating and binding the bytes of an image are modelled.
- ImageMemory.LoadedBytes: is about images whose relocation targets overlap neither each other nor the directory, as Relocation.RelocateExact is.
- AddressSpaces.ProtectKeeps: failures of the page tables underneath are not modelled; the page allocator may refuse a mapping at any time.
- Relocation.RelocateExact: is about directories whose targets overlap neither each other nor the directory.
- Initialisers of tables, queues and the terminal are constructors for sizes the source accepts; that it refuses the others is a precondition here.
- The terminal's cells are a two-dimensional array; the command history ring is left out, since it would repeat the ring of lines.
