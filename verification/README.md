# Models and proofs for the Indy simulator

Dafny models of the parts of the MIPS R4400 / SGI Indy simulator in which a fast or stateful form has
to agree with a simpler one, with proofs that it does, or of exactly when it does. Every algorithm is
first a function on values. Where the program updates things in place (the Newport board, the cache
model, CP0 and the TLBs, the interpreter, the SCSI controller, the HPC3 channels, the Seeq, the packet
tools, the profiler) a class with the same fields repeats it step by step, and each of its methods is
proved to leave what the function says. The main results are lemmas about the functions.

`dafny verify dfyconfig.toml` checks everything.

## What is proved

**Newport** (`PixelOps`, `Newport`, `NewportRow`, `NewportSpan`, `NewportBlock`, `NewportCopy`,
`NewportOverlap`, `NewportLine`, `NewportBoard`). The span kernel, its arrays of lanes, closed-form
slopes, branch-free dithering, per-row clipping and truth-table logic op are compared with the
per-pixel loop, for a row and then for a whole span or block. Screen-to-screen copy equals a copy from
a snapshot exactly when its image does not lie ahead of the scan. The integer line keeps its error
bound and ends on its end point. What the two forms share is stated from the registers:
`NewportShade`, `NewportImage` and `NewportTrace` say which word a shaded block, a copy or a line
leaves in which place of the frame, and `NewportColors` what each colour function computes.

**Packets** (`Bitwise`, `ByteOrder`, `NpPacket`, `NpLayout`, `NpTools`). Playing a recording of
graphics accesses passes through the recorded state at the start of every command, whatever the
commands do.

**Translation and exceptions** (`Tlb`, `TlbLayout`, `Mmu`, `Processor`, `Hart`, `HartEffects`,
`Interpreter`, `Unaligned`). The micro-TLB is invisible in every run, and every address goes where the
bits of its entry say. TLBP after a fault finds what the lookup found. A faulting instruction changes
nothing but a link, and its retry runs as if the mapping had been there from the start; one that does
not fault leaves the numbers and bytes its name promises. The unaligned pairs move exactly the bytes
of their datum. The rules are those of the MIPS R4000 User's Manual, chapters 4 (memory management)
and 5 (exception processing).

**Memory** (`Memory`, `GuestMemory`, `Cache`, `CacheTrace`, `CacheModel`). The write-back cache over
aliased DRAM is a flat memory to the CPU. Device writes reach it through the prescribed cache
operations.

**DMA** (`Disk`, `Scsi`, `ScsiAnswers`, `ScsiController`, `Hpc`, `Descriptors`, `HpcTransfer`,
`HpcCommands`, `HpcChannel`, `EnetRx`, `EnetChannel`). A READ(10) or WRITE(10) (clause 9 of ANSI
X3.131-1994) served in any number of chunks is one transfer. The descriptor pump stops exactly when it
should. Received frames reach the ring whole and in order.

**Protocol and profiler** (`Cosim`, `ReuseDistance`, `WsProfile`, `WsBlocks`). Co-simulation compares
the right states, cannot deadlock, and finishes every step of a fair schedule. The profiler's hits are
those of reuse distance.

`Words` holds the C integer types and what all modules share.

## Where the code differs from what it says

Each of these is a lemma with a concrete case, beside a theorem that says exactly when the claim holds.

- The span kernel's comment (`sgi_newport.cc:1599`) says it applies only when its result provably
  equals the per-pixel path. With shading on, a row coloured from the host port or by fast clear does
  not step the shade iterators (`NewportSpan.SkippedShadeDiffers`, `NewportSpan.SpanRowExact`). With the
  iterators unclamped that shows unless n slopes are 0 modulo 2^32 (`NewportSpan.ShadeFixed`); with them
  clamped the condition is the n clamped steps themselves. In a draw of more rows the end of a row hides
  it (`NewportBlock.KernelDrawsTheSame`). And a visible row whose first lane lies before the framebuffer
  gets a row pointer about 16 GB past it, because its index, in 32-bit words, is computed modulo 2^32
  (`NewportSpan.StartsBeforeFrameHappens`, `NewportSpan.RowPointer`).
- The SCSI channel pump does not stop on every descriptor graph: on an endless chain in one direction,
  against a device asking for the other, the device ignores every byte and keeps asking
  (`Hpc.CrossedLoops`, `Hpc.HaltsUnlessCrossed`, `Hpc.HaltsIff`).
- The DMA snoop drops a line only under the name it is written by; a copy held under the other alias of
  the low 512 KB survives (`Cache.StaleUnderOtherName`, `Cache.DeviceByteSeen`).
- A delay-slot exception does not stop a taken branch if EXL was already set (`Hart.LostFault`,
  `Hart.SlotFaultGoes`); and a linking branch has changed register 31 when its slot
  faults (`Hart.LinkedFault`, `Hart.FaultIsPrecise`).

## Model

| member | source | states |
|---|---|---|
| PixelOps.TableBitAgrees | sgi_newport.cc:1822-1848 | the truth-table form of a logic op gives the 16-way switch's bit for every op but 15, and for op 15 exactly on the low 24 bits |
| PixelOps.SpanWriteAgrees | sgi_newport.cc:1822-1851 | the kernel's replicate, table and mask merge stores exactly the word the per-pixel write stores, for every depth, plane, mask, op and prior word |
| NewportRow.AheadIsFirst | sgi_newport.cc:1662-1672 | the lane count to a goal column is the first cursor step, modulo 2^16, that meets it |
| NewportRow.RowTurn | sgi_newport.cc:1661-1672 | the per-pixel loop test fails for the first time exactly after the number of lanes the kernel computes |
| NewportRow.OutputIsCell | sgi_newport.cc:1163-1177 | a pixel of lane k changes the one framebuffer word of its lane when it passes the clip, and no other word |
| NewportRow.StepCells | sgi_newport.cc:1900-1923 | one more turn of the per-pixel loop adds exactly the next lane to the closed form of the row |
| NewportRow.RowIsLanes | sgi_newport.cc:1900-1923 | after n turns of the per-pixel loop the iterators, host shift, pixel count and every framebuffer word are those of n independent lanes |
| NewportSpan.ClampAgrees | sgi_newport.cc:1609-1613 | the branch-free clamp is the per-pixel channel clamp for every 32-bit iterator |
| NewportSpan.ChannelAgrees | sgi_newport.cc:1617-1645 | add-the-comparison-then-cap equals the switch's count-then-cap, also through its 8-bit variable |
| NewportSpan.DitherAgrees | sgi_newport.cc:1614-1649 | the branch-free dithered lane colour is the per-pixel colour at every depth |
| NewportSpan.SlopeAgrees | sgi_newport.cc:1700-1720 | start plus k slopes modulo 2^32 equals k repeated additions while iterators are not clamped |
| NewportSpan.RowClip | sgi_newport.cc:1760-1792 | a row in which any pixel passes the clip is a row the per-row test accepts |
| NewportSpan.StoresVisible | sgi_newport.cc:1795-1814 | every storing lane lies between the kernel's first and last visible lanes of an accepted row |
| NewportSpan.RowUntouched | sgi_newport.cc:1789-1813 | rows the kernel leaves early are rows in which the per-pixel loop stores nothing |
| NewportSpan.RowTouched | sgi_newport.cc:1828-1851 | merging the passing visible lanes gives every framebuffer word its value in the closed form of the row |
| NewportSpan.RowPointer | sgi_newport.cc:1814 | the kernel's 32-bit row pointer stays in the framebuffer if and only if lane 0 does not lie before its start, and is then the row's address |
| NewportSpan.SpanRowExact | sgi_newport.cc:1594-1601 | the kernel's row equals the per-pixel row if and only if it does not skip iterator steps that would move an iterator: the comment's unconditional claim is false |
| NewportSpan.ShadeFixed | sgi_newport.cc:1700-1720 | with unclamped iterators, n skipped steps go unnoticed exactly when n times each slope is 0 modulo 2^32 |
| NewportSpan.SkippedShadeDiffers | sgi_newport.cc:1684-1691 | a shaded host-coloured or fast-cleared pixel with a red slope on which kernel and loop differ |
| NewportSpan.StartsBeforeFrameHappens | sgi_newport.cc:1814 | an unmasked two-pixel row the kernel accepts whose row pointer wraps |
| NewportBlock.TurnEnds | sgi_newport.cc:1892-1937 | every segment brings the end of its row or the last row nearer, so a draw ends |
| NewportBlock.KernelDrawsTheSame | sgi_newport.cc:1856-1941 | a whole draw with the kernel is lost if and only if the kernel takes a visited segment that starts before the frame; otherwise it equals the per-pixel draw in framebuffer, iterators, cursor and count if and only if nothing is left of skipped shade steps: the draw ends whole rows or its only segment would not move the iterators, or, where a step clamps the start colour, some segment was left to the loop |
| NewportBlock.WindowDrawsTheSame | sgi_newport.cc:1856-1941 | a check on the registers before the draw: columns that start on the screen and left of the end column are drawn alike with the kernel and without it, where no shade steps are skipped or the draw ends whole rows and no step clamps the start colour |
| NewportBlock.RowInStep | sgi_newport.cc:1899-1923 | rows that skip shade steps show no iterator: boards that differ in iterators alone are drawn alike |
| NewportBlock.EndsRowIff | sgi_newport.cc:1929-1937 | whether the end of a row comes last, and resets the iterators, can be told before the draw |
| NewportShade.ShadedBlock | sgi_newport.cc:1885-1937 | in a shaded, unclamped RGB block, by kernel or loop and in whatever segments, the pixel of column x in row r is drawn in the iterators plus x - start + 1 slopes modulo 2^32, the first row starting with the current iterators and every other with the colour registers; where the pattern is clear in the background if opaque, else not at all |
| NewportShade.ElsewhereKept | sgi_newport.cc:1885-1937 | and no word of the framebuffer that no such pixel maps to changes |
| NewportShade.BlockEnds | sgi_newport.cc:1929-1940 | the draw ends at the start of the row after its last with the four channels at the colour registers |
| NewportShade.BlockLimits | sgi_newport.cc:1860-1879 | a block ends one column and one row past its end registers; segments are 32 pixels long where the length is limited, and as many pixels as 32 or 64 port bits hold in packed host draws |
| NewportShade.ClipIs | sgi_newport.cc:1132-1161 | in screen coordinates the clip passes the points of the visible frame that lie in mask 0, if enabled, and in one of the enabled other masks, if any is |
| NewportShade.ClampedStep | sgi_newport.cc:1330-1355 | with the iterators clamped a step shows each channel one slope further on, saturated |
| NewportColors.ClampSaturates | sgi_newport.cc:1272-1278 | a channel shows bits 19 to 11 of its iterator as a number from -128 to 383, saturated to 0..255, and 0 if bit 31 is set |
| NewportColors.ClampKeepsColor | sgi_newport.cc:1342-1355 | the clamp of the iterators never changes the colour they show |
| NewportColors.IndexSaturates | sgi_newport.cc:1356-1363 | a colour index saturates at 15, 19 or 21 bits by the draw mode |
| NewportColors.ConvertsChannels | sgi_newport.cc:1074-1112 | between plane depths each channel stays in its place, spread to the nearest of 0..255 and cut to the top of the new depth |
| NewportColors.WidenNarrow | sgi_newport.cc:1074-1112 | a pixel widened to 24 bits and narrowed back is itself |
| NewportColors.RgbCuts | sgi_newport.cc:1264-1328 | an undithered colour is the tops of the saturated channels, red lowest, under the alpha byte |
| NewportColors.BayerNests | sgi_newport.cc:1271 | the dither matrix is the 2 by 2 Bayer matrix four times, nested in itself |
| NewportColors.RgbTile | sgi_newport.cc:1284-1326 | over any 4 by 4 tile a dithered even colour adds up, channel by channel, to its share of the depth to less than one step in the sixteen pixels |
| NewportColors.HostDigit | sgi_newport.cc:1114-1130 | a host pixel is the digit of the data port at the shift, taken to the depth of the planes, with its bytes exchanged if asked |
| NewportColors.HostOrder | sgi_newport.cc:1117-1124 | packed host pixels come from the top of the 64-bit port, or of its upper half, downwards, and again from the top |
| NewportColors.SwapsBytes | sgi_newport.cc:1126-1128 | the byte exchange reverses the four bytes |
| NewportColors.DefaultRepeats | sgi_newport.cc:1366-1386 | the plain colour is the low bits of its source repeated across the word by plane depth |
| NewportColors.DefaultRgb | sgi_newport.cc:1372-1380 | in 12-bit RGB planes it is the top nibbles of the clear colour, twice |
| NewportColors.ReplicateBit | sgi_newport.cc:1029-1043 | bit i of the word to be written is the pixel bit (i - plane offset) modulo the draw depth |
| NewportColors.WordBit | sgi_newport.cc:1029-1071 | a written pixel changes exactly the bits both masks enable, to the truth-table entry of its repeated bit and the old bit above the source shift, or to its own bit in blends and fast clears |
| NewportBoard.Board.SpanOrBlock | sgi_newport.cc:1856-1941 | the outer loop of a draw going right leaves exactly the specified draw, with the kernel or without it |
| NewportBoard.Board.OutputPixelAt | sgi_newport.cc:1163-1177 | in place: counts the pixel and, if it passes the clip, merges the colour into its word |
| NewportBoard.Board.PixelRow | sgi_newport.cc:1900-1923 | the per-pixel loop leaves the specified row and a cursor one past it |
| NewportBoard.Board.SpanIters | sgi_newport.cc:1692-1728 | lane iterator arrays and final iterators equal k + 1 repeated shade steps, clamped or in closed form |
| NewportBoard.Board.SpanColors | sgi_newport.cc:1682-1753 | every lane's colour is that of the per-pixel loop, whatever its source |
| NewportBoard.Board.RowMasks | sgi_newport.cc:1770-1788 | the collected x ranges hold a point of the row exactly when one of masks 1 to 4 does |
| NewportBoard.Board.SpanClip | sgi_newport.cc:1760-1806 | the lanes marked are exactly those whose pixel the per-pixel clip would store |
| NewportBoard.Board.SpanStore | sgi_newport.cc:1828-1851 | only passing lanes of the given range change, each to the per-pixel write of its colour |
| NewportBoard.Board.SpanFast | sgi_newport.cc:1659-1854 | declines and leaves the board untouched, leaves the frame, or leaves the specified row and cursor; says exactly when each |
| NewportBoard.Board.DrawSegment | sgi_newport.cc:1893-1925 | a segment by kernel or loop, with the row each leaves |
| NewportBoard.Board.ScreenCopy | sgi_newport.cc:1943-1970 | the two in-place copy loops leave the framebuffer and cursor of the specified scan |
| NewportBoard.Board.ReadPixel | sgi_newport.cc:1943-1970 | the source pixel, black outside the frame |
| NewportBoard.Board.Setup | sgi_newport.cc:1398-1407 | the octant of the endpoints, also when only their sixteenths agree |
| NewportBoard.Board.DrawLine | sgi_newport.cc:1491-1548 | plots exactly the specified points in order and leaves the end point as the new start |
| NewportCopy.StepCloser | sgi_newport.cc:1950-1967 | a cursor step that does not reach its goal comes nearer, so the copy loops end |
| NewportCopy.ScanIsBlock | sgi_newport.cc:1943-1970 | with both stop bits set the scan visits the rectangle row by row and nothing else |
| NewportOverlap.AheadSpoils | sgi_newport.cc:1943-1970 | for every rectangle whose image lies ahead of the scan a framebuffer with one lit pixel on which the in-place copy differs from the snapshot copy |
| NewportOverlap.SnapshotIff | sgi_newport.cc:1943-1970 | on the screen, and with a write that carries any one bit, the copy equals a snapshot copy of every framebuffer if and only if no destination is later than its source |
| NewportOverlap.PlainCarries | sgi_newport.cc:1029-1068 | a plain 24-bit copy carries every bit its masks enable |
| NewportCopy.PutKeepsUnread | sgi_newport.cc:1943-1970 | copying one pixel leaves every source pixel not yet read unchanged |
| NewportCopy.ScanIsSnapshot | sgi_newport.cc:1943-1970 | whenever no destination is later than its source in scan order, the in-place copy equals a copy from a snapshot, for every logic op, mask, clip and overlap |
| NewportImage.CopyLeaves | sgi_newport.cc:1943-1970 | then the pixel i columns and j lines into the block is written to its moved place, if the clip passes it, with the word the frame held there before the command, shifted down, or black from outside the frame |
| NewportImage.CopyKeeps | sgi_newport.cc:1943-1970 | and every word that is no such place keeps its value |
| NewportLine.OctantOf | sgi_newport.cc:1398-1407 | the table row of the octant moves toward the end point on every step along the longer axis, and along the other axis on a minor step only |
| NewportLine.PenError | sgi_newport.cc:1491-1548 | at every step in all octants twice the minor-axis error lies in [-major, major) |
| NewportLine.LineEnds | sgi_newport.cc:1491-1548 | after `major` steps the pen is exactly on the end point |
| NewportLine.PlainLine | sgi_newport.cc:1491-1548 | a plain line emits major + 1 pixels, the first at the start and the last at the end point |
| NewportTrace.PenHugs | sgi_newport.cc:1491-1548 | in coordinates: after k steps the pen is k columns or rows along and at most half a pixel off the true line through the two ends |
| NewportTrace.PointCount | sgi_newport.cc:1491-1548 | a line plots one pixel more than its longer extent, of which at most 32 where the length is limited, less the ends it skips; a single step plots one |
| NewportTrace.ShadedLine | sgi_newport.cc:1507-1541 | the k-th pixel of a plain shaded line is drawn in the iterators plus k slopes modulo 2^32 |
| Cosim.ClientKeepsInv | cosim.cc:70-79 | every client step keeps the joint position of the two sides |
| Cosim.ServerComparesKeepsInv | cosim.cc:42-67 | every server step before its answer keeps it |
| Cosim.ServerAnswers | cosim.cc:68-69 | the answer keeps it and returns whether the states differ |
| Cosim.RunKeepsInv | cosim.cc:39-80 | the invariant holds after every interleaving of the two sides |
| Cosim.ComparesThePost | cosim.cc:42-47 | in every interleaving a comparison sees the whole post of that very step, never torn or stale |
| Cosim.SidesAgree | cosim.cc:66-78 | step counts differ by at most one and both sides return true at the first step whose states differ, false before |
| Cosim.VerdictWords | cosim.cc:44-48 | each verdict says whether word 1, words 3 to 33, or word 34 unless the server has no hash, of the two posted states differ |
| Cosim.NoDeadlock | shmem.cc:174-193 | some side can always move until both have stopped, and they stop together |
| Cosim.MovesAdvance | cosim.cc:39-80 | every move that is not a spin finishes a call or brings its side closer to finishing one |
| Cosim.FairFinishes | cosim.cc:39-80 | progress: a schedule of more than 82 (k + 1) stretches, each of which schedules both sides, has both return from step k, or both stopped by an earlier difference |
| Memory.WordUnchanged | sgi_hpc.cc:85-88 | a big-endian word depends on its four raw bytes only |
| Memory.PutsBack | sgi_hpc.cc:90-93 | a stored word reads back when it lies inside memory |
| Memory.PutsWord | sgi_hpc.cc:90-93 | storing a word changes its four bytes only |
| Memory.WordIsBig | sgi_hpc.cc:85-88 | a word is its four bytes, most significant first |
| Memory.PutIsBig | sgi_hpc.cc:90-93 | and is stored so |
| Memory.AliasIsSame | sgi_hpc.cc:85-93 | with the alias on a word of the first 512 KB and the word 128 MB further on are one |
| GuestMemory.ReadWord | sgi_hpc.cc:85-88 | the word at an aliased physical address |
| GuestMemory.WriteWord | sgi_hpc.cc:90-93 | memory with that word stored and nothing else changed |
| Cache.HomeSet | cache_model.hh:54-58 | the DRAM bytes of a cached line are one 32-byte line, and every one of them selects that set |
| Cache.WbKeepsView | cache_model.hh:141-147 | writing a line back changes no byte the CPU would load |
| Cache.FillKeepsView | cache_model.hh:66-81 | bringing a line in, with its eviction, changes no byte the CPU would load and makes the line resident |
| Cache.LoadSees | cache_model.hh:112-126 | a cached load returns the CPU's view of the byte and changes the view of no byte |
| Cache.StoreSeen | cache_model.hh:129-136 | a cached store changes the view of exactly its DRAM location, under both its names |
| Cache.OneCopy | cache_model.hh:66-81 | both names of a DRAM location select the same set, and at most one copy of a DRAM line is ever resident |
| Cache.RunIsFlat | cache_model.hh:54-81 | any run of loads, stores, write-back operations and snooped device writes to clean lines, through either alias, returns what a flat memory returns and keeps the invariant |
| Cache.CpuRunsClean | cache_model.hh:54-81 | a run without device writes needs no condition |
| CacheTrace.LoadsLastWrite | cache_model.hh:54-81 | over any clean run a load returns the byte of the last store or device write under either name of its location, 128 MB apart |
| CacheTrace.LoadsMemory | cache_model.hh:54-81 | and from an empty cache, where nothing was written, the byte of memory |
| CacheTrace.Conflicts | cache_model.hh:30-52 | a loaded line stays until a load of another 32-byte block a multiple of 128 KB away |
| Cache.DeviceIsStore | cache_model.hh:107-109 | a snooped device write, speculated or not, to a line that is not dirty nor held under the other alias is to the CPU a store of that byte |
| Cache.LoadBytesSee | cache_model.hh:112-128 | a multi-byte load returns the view of each byte in order |
| Cache.StoreBytesSeen | cache_model.hh:129-138 | a multi-byte store changes the view of exactly its bytes' locations, to those bytes |
| Cache.DmaDelivers | cache_model.hh:100-109 | after speculative fill, device write and snoop of each target byte, no target line is resident and the CPU loads the device bytes |
| Cache.DeviceByteSeen | cache_model.hh:107-109 | after one device byte, speculated or not, the CPU sees it if and only if no line still holds another byte for its location: under either name without the snoop, under the other name with it |
| Cache.StaleUnderOtherName | cache_model.hh:108-109 | a state in which the snoop misses the copy held under the other alias and the CPU loads the stale byte |
| Cache.HitWbFlushes | cache_model.hh:149 | after a Hit write-back of every line of a range, DRAM equals the CPU view at every byte whose line is not held under the other alias |
| Cache.HitWbReaches | cache_model.hh:149 | one Hit write-back brings DRAM up to the CPU view of its line if and only if the line is not held, with another byte, under the other alias |
| Cache.OneNameHeld | sparse_mem.hh:95-104 | outside the low 512 KB and its image no line is ever held under another name |
| Cache.SweepFlushes | cache_model.hh:153-154 | an Index write-back invalidate of every set empties the cache and leaves DRAM equal to the previous CPU view |
| CacheModel.Model.WbLine | cache_model.hh:141-147 | in place: the line's bytes in DRAM and the line clean |
| CacheModel.Model.FillLine | cache_model.hh:66-81 | in place: conflict evicted, line filled from DRAM |
| CacheModel.Model.CpuLoad | cache_model.hh:112-128 | the loaded bytes and the cache after them |
| CacheModel.Model.CpuStore | cache_model.hh:129-138 | the stored bytes in their lines, dirty |
| CacheModel.Model.HitWriteBack | cache_model.hh:149 | write back only on a tag match |
| CacheModel.Model.HitInvalidate | cache_model.hh:150 | drop only on a tag match |
| CacheModel.Model.HitWriteBackInvalidate | cache_model.hh:151 | both, only on a tag match |
| CacheModel.Model.IndexInvalidate | cache_model.hh:153 | drop the selected set whatever its tag |
| CacheModel.Model.IndexWriteBackInvalidate | cache_model.hh:154 | write back and drop the selected set |
| CacheModel.Model.SpecFill | cache_model.hh:107 | fill unless the line is already resident |
| CacheModel.Model.WriteDeviceByte | sgi_hpc.cc:128-133 | a device byte in DRAM, with the speculative fill and the snoop each on or off |
| Tlb.SamePageEntry | interpret.cc:1169-1187 | an entry matches all addresses of a 4 KB page alike and selects the same half for them |
| Tlb.SamePageFind | interpret.cc:1168-1175 | the first matching entry is the same for every address of a page |
| Tlb.WrappedPa | interpret.cc:1227-1229 | rebuilding a physical address from the 32-bit frame number and the offset loses nothing |
| Tlb.HitIsScan | interpret.cc:1154-1162 | a micro-TLB hit in an agreeing slot gives the scan's address, cache flag and outcome |
| Tlb.MissFills | interpret.cc:1247-1249 | the slot a successful scan fills agrees with the scan of its page |
| Tlb.FastIsScan | interpret.cc:1130-1256 | translation through the micro-TLB equals the first-match scan for every address, operation, ASID and legal page size, and keeps every slot agreeing |
| Tlb.EmptyUtlbOk | interpret.cc:1034 | a flushed micro-TLB agrees with any TLB |
| TlbLayout.ClaimsIff | interpret.cc:1164-1177 | an entry claims exactly the addresses of its region and its page pair, for every page size, of its own ASID unless both halves are global |
| TlbLayout.PageOfPair | interpret.cc:1179-1252 | the first entry that claims an address maps the even page of the pair by EntryLo0 and the odd one by EntryLo1: Invalid without V, Modified for a store without D, else the offset with PFN or-ed in from bit 12 on, modulo 2^32, cached if C is 3; for every legal page size and every word |
| TlbLayout.Segments | interpret.cc:1130-1146 | kseg0, kseg1 and xkphys, by address, name physical memory, kseg0 data alone cached; every other address is looked up |
| TlbLayout.ExceptionEntry | interpret.cc:847-1015 | a failed access goes to 0x80000000, or 0xbfc00200 with BEV, plus 0x180 but for a refill with EXL clear; Cause, EPC, BD, BadVAddr and the level bits by the case |
| TlbLayout.ContextHolds | interpret.cc:859-863 | Context holds its page table base and 16 times VA[31:13] |
| TlbLayout.XContextHolds | interpret.cc:865-871 | XContext holds its base, R and 16 times VA[39:13] |
| TlbLayout.WritesEntry | interpret.cc:828-846 | writes of EntryHi, PageMask, EntryLo and Index followed by TLBWI put the architectural fields of those words in that entry, and an illegal page mask stops |
| Mmu.MaskHi | interpret.cc:830-836 | a write to EntryHi keeps R, VPN2 and ASID of the value and nothing else |
| Mmu.FaultHi | interpret.cc:851-857 | EntryHi after a fault holds the address's R and VPN2, the old ASID and nothing else |
| Mmu.ProbesIsMatches | interpret.cc:4094-4116 | after a fault TLBP matches an entry if and only if the lookup of the faulting address did |
| Mmu.ProbeAfterFault | interpret.cc:4094-4116 | TLBP right after a Refill fails and keeps the index; after an Invalid or Modified exception it returns the entry that faulted |
| Mmu.TakeKeepsValid | interpret.cc:847-1015 | an exception keeps the TLB and the architectural form of every EntryHi |
| Mmu.Quiet | interpret.cc:4029-4135 | every CP0 write, EPC, Status and Cause included, every TLB instruction and every return keeps architectural EntryHi values and legal page masks |
| Mmu.MicroTlbIsInvisible | interpret.cc:1021-1034 | in every run of accesses, faults, ASID changes and TLB writes from an empty micro-TLB each outcome is that of scanning the 48 entries |
| Processor.Cpu.Raise | interpret.cc:967-1015 | in place: fault state, EPC, cause, vector and flag of a TLB exception |
| Processor.Cpu.Translate | interpret.cc:1128-1271 | the outcome of the scan with the exception taken on failure, through the micro-TLB, which stays in agreement |
| Processor.Cpu.TlbWriteIndexed | interpret.cc:4043-4065 | the staged entry installed and every micro-TLB slot invalid; an illegal mask stops the program |
| Processor.Cpu.TlbWriteRandom | interpret.cc:4066-4093 | the same at Random, which counts down to Wired and wraps |
| Processor.Cpu.TlbRead | interpret.cc:4029-4042 | the indexed entry in the staging registers |
| Processor.Cpu.TlbProbe | interpret.cc:4094-4118 | index of the first match with P clear, or P set |
| Processor.Cpu.ExceptionReturn | interpret.cc:4119-4137 | pc from EPC or ErrorEPC and the level bit cleared |
| Disk.WriteBlocksView | sgi_scsi.cc:117-129 | on a copy-on-write disk writing blocks changes exactly those blocks as read back and never the image |
| Disk.ReadBlocksNth | sgi_scsi.cc:309-310 | a read returns its blocks in order |
| Disk.ReadAfterWrite | sgi_scsi.cc:109-129 | just-written blocks read back, also past the end of the image |
| Disk.LoadsRecords | sgi_scsi.cc:69-84 | loading delta records sets exactly the recorded blocks and keeps the others |
| Disk.DeltaRoundTrip | sgi_scsi.cc:69-98 | loading a flushed delta into an empty overlay restores it whatever order it was written in |
| Scsi.Finish | sgi_scsi.cc:145-184 | completion leaves the phase idle without a request and posts exactly one interrupt |
| Scsi.Pause | sgi_scsi.cc:186-204 | a pause keeps the data-phase invariant |
| Scsi.Select | sgi_scsi.cc:206-336 | every command and resume keeps: an open phase has its cursor inside the buffer, and a request implies an open phase |
| Scsi.DmaR | sgi_scsi.cc:404-415 | a byte read keeps it |
| Scsi.DmaW | sgi_scsi.cc:417-427 | a byte write keeps it |
| ScsiAnswers.CapacityAnswer | sgi_scsi.cc:284-291 | READ CAPACITY gives the last block and the block size, most significant byte first |
| ScsiAnswers.InquiryAnswer | sgi_scsi.cc:263-276 | INQUIRY gives as many of the 36 bytes of a SCSI-2 disk as are asked for |
| ScsiAnswers.BadUnitSense | sgi_scsi.cc:250-282 | a command to another unit ends with a check condition, and the sense data asked for next say illegal request, unit not supported |
| ScsiAnswers.OtherTarget | sgi_scsi.cc:220-232 | another target times out and the disk and an open phase stay |
| ScsiAnswers.Reports | sgi_scsi.cc:145-204 | the status, command phase, target status and count registers after an end and after a pause |
| ScsiController.Controller.DrainBlocks | sgi_scsi.cc:147-150 | in place: the buffer's whole blocks written from the command's address on |
| ScsiController.Controller.Complete | sgi_scsi.cc:145-184 | the state after completion, with exactly one post |
| ScsiController.Controller.PauseTransfer | sgi_scsi.cc:186-204 | the state after a pause, buffer and cursor kept |
| ScsiController.Controller.ReadStatus | sgi_scsi.cc:389-395 | the status byte, and the interrupt acknowledged |
| ScsiController.Controller.FetchBlocks | sgi_scsi.cc:308-310 | the blocks of a read in order |
| ScsiController.Controller.DecodeCdb | sgi_scsi.cc:257-335 | the data phase or completion each opcode opens |
| ScsiController.Controller.SelectAndTransfer | sgi_scsi.cc:206-336 | resume, selection timeout, check condition or a decoded command, invariant kept |
| ScsiController.Controller.DmaRead | sgi_scsi.cc:404-415 | the next byte, and completion after the last |
| ScsiController.Controller.DmaWrite | sgi_scsi.cc:417-427 | the byte in the buffer, and completion after the last |
| Hpc.SettlesTo | sgi_hpc.cc:113-185 | where the pump stops does not depend on how many turns reach it |
| Hpc.DrainPours | sgi_hpc.cc:126-167 | CH_XFER moves the buffer's bytes in order and reaches a zero count if and only if the device serves them all |
| Hpc.PourReady | sgi_hpc.cc:126-167 | bytes served use up the device's residual one by one, and a port driven against its phase uses up nothing |
| Hpc.OneDescriptor | sgi_hpc.cc:113-185 | a descriptor is poured whole and the channel moves on or stops, or the loop waits inside it |
| Hpc.ChainRuns | sgi_hpc.cc:95-185 | a terminated chain pours all its buffers in order, then stops and pauses an open phase, or waits, still armed, where the device stopped; the interrupt flag follows the descriptors |
| Hpc.HaltsIff | sgi_hpc.cc:113-185 | the pump stops if and only if its chain ends or holds more bytes than the device serves, for every descriptor graph whose buffers avoid its descriptors |
| Hpc.HaltsUnlessCrossed | sgi_hpc.cc:113-185 | with no empty descriptor before the end it stops on every graph, cycles included, except an endless chain against a device asking for the other direction |
| Hpc.CrossedLoops | sgi_hpc.cc:127-131 | a concrete one-descriptor cycle on which the pump never stops |
| Descriptors.FetchesDescriptor | sgi_hpc.cc:95-185 | a channel takes buffer, 14-bit count and next descriptor from the twelve big-endian bytes at its pointer, and stops or raises its interrupt by bits 31 and 29 of the middle word |
| HpcTransfer.ControlArms | sgi_hpc.cc:694-708 | a start word written to an idle channel arms it |
| HpcTransfer.PourIn | sgi_scsi.cc:404-415 | a data-in phase scatters the next bytes of its buffer over the addresses, as many as both sides have |
| HpcTransfer.PourOut | sgi_scsi.cc:417-427 | a data-out phase gathers them |
| HpcTransfer.ArmingOrder | sgi_hpc.cc:782-787 | arming the channel before the command or after it comes to the same state |
| HpcTransfer.OneChunk | sgi_hpc.cc:95-185 | one chain leaves exactly what pouring all its bytes leaves, stopped unless it is longer than the phase |
| HpcTransfer.Resumed | sgi_scsi.cc:206-218 | a paused phase is resumed at its cursor whatever the driver has written to the controller's registers since, target, LUN and CDB included |
| HpcTransfer.ChunkedTransfer | sgi_hpc.cc:95-185 | a command served in any chunks, each with the memory and the controller registers the driver pleases, takes its bytes through the device in order as one transfer would, one interrupt for each chunk; the last chunk's buffers give or take exactly their share and nothing else in memory changes |
| HpcTransfer.AsOneChain | sgi_hpc.cc:95-185 | the device ends as after one chain over any buffers that hold what was sent, or as many |
| HpcTransfer.DeliveredSoFar | sgi_hpc.cc:126-167 | what a read has delivered stays in its buffers while the driver leaves those alone |
| HpcCommands.CdbFields | sgi_scsi.cc:305-329 | the address and the length of a 10-byte command are bytes 2 to 5 and 7 to 8 of it, most significant first |
| HpcCommands.ReadDelivers | sgi_scsi.cc:305-321 | a READ(10) of n blocks from lba, served in any chunks, leaves in the i-th 512 bytes of the buffers block lba + i: the overlay's, else the image's, else zeros, whatever the driver writes elsewhere between chunks; the disk is unchanged and the status GOOD |
| HpcCommands.WriteStores | sgi_scsi.cc:323-329 | a WRITE(10) of n blocks to lba in any chunks rewrites exactly blocks lba to lba + n - 1 with what the driver put in the buffers, in order, if its opcode is still in the registers at the last byte, and nothing otherwise |
| HpcCommands.DiskRoundTrip | sgi_scsi.cc:145-160 | blocks written in one set of chunks come back in another byte for byte |
| HpcChannel.Channel.FetchDescriptor | sgi_hpc.cc:95-106 | in place: the three descriptor words and the count |
| HpcChannel.Channel.DrainBuffer | sgi_hpc.cc:126-167 | the inner loop leaves the drained state |
| HpcChannel.Channel.Turn | sgi_hpc.cc:117-183 | one switch turn, and progress false only where nothing more will happen |
| HpcChannel.Channel.RunDma | sgi_hpc.cc:113-185 | wherever it returns, the state the pump settles in |
| HpcChannel.Channel.WriteControl | sgi_hpc.cc:694-709 | arm, direction, reset and flush bits in the source's order, then the pump |
| EnetRx.TurnEnds | sgi_hpc.cc:328-345 | every turn reads bytes out or clears a bit of memory without setting any, so the receive loop ends on every memory and ring |
| EnetRx.Returned | sgi_hpc.cc:344-345 | the word written back has OWN clear, size less bytes as its count, and the other bits kept |
| EnetRx.FillOf | sgi_hpc.cc:329-343 | a descriptor takes at most its size and nothing only if its size is 0 |
| EnetRx.StagedRunsAlike | sgi_seeq.cc:196-212 | asking for a byte first stages a frame and changes nothing about the run |
| EnetRx.TurnFlows | sgi_hpc.cc:328-357 | one descriptor continues exactly the frame in progress |
| EnetRx.EveryRunFlows | sgi_hpc.cc:324-360 | in every run of arrivals, driver activity and service the filled descriptors spell out the accepted frames in order, one frame to a descriptor, no byte lost |
| EnetRx.DrainedMeansDelivered | sgi_seeq.cc:196-223 | when nothing is left to read, every accepted frame has been delivered, in order, as Max(length, 60) + 3 bytes: two zeros, the frame, zeros up to byte 62 and 0x30 |
| EnetRx.StagedLayout | sgi_seeq.cc:196-212 | the bytes staged for a frame, by position |
| Descriptors.UsesDescriptor | sgi_hpc.cc:325-360 | a receive descriptor of twelve big-endian bytes is used while its ownership bit is set: filled with as much of the frame as its 14-bit size takes, given back with the room left, and followed by the next |
| EnetRx.BufferDistinct | sgi_hpc.cc:338-340 | a receive buffer never meets itself through the low alias |
| EnetRx.FillFound | sgi_hpc.cc:335-345 | after a fill the buffer holds its bytes and the count word its residual |
| EnetRx.RunFound | sgi_hpc.cc:324-360 | after a run over descriptors and buffers that do not meet, every fill is still there to be found |
| EnetChannel.SeeqDevice.RxAvail | sgi_seeq.cc:196-212 | whether a byte is staged, staging the next frame if need be |
| EnetChannel.SeeqDevice.RxRead | sgi_seeq.cc:214-223 | the next byte, and the status after the last |
| EnetChannel.RxChannel.FillBuffer | sgi_hpc.cc:335-343 | the byte loop writes the frame's next bytes in order, up to the buffer's size |
| EnetChannel.RxChannel.FillDescriptor | sgi_hpc.cc:329-357 | in place: one whole turn |
| EnetChannel.RxChannel.RunRx | sgi_hpc.cc:324-360 | the state and the fills of the specified run |
| ReuseDistance.HoldsMostRecent | ws_profile.hh:31-45 | an LRU set holds the most recent tags, as many as it has ways |
| ReuseDistance.DepthIsDistance | ws_profile.hh:31-45 | a tag's depth in the recency stack is the number of distinct tags accessed since |
| ReuseDistance.HitIffReused | ws_profile.hh:31-45 | a tag is held if and only if it was seen and fewer than `ways` distinct others of its set were accessed since |
| WsProfile.MoreWaysMissNoMore | ws_profile.hh:27-46 | with the same sets and lines more ways never miss more, on any trace |
| WsBlocks.HitsByBlocks | ws_profile.hh:27-45 | with lines of L bytes an access hits if and only if its block of L bytes was accessed before and fewer than `ways` distinct blocks congruent to it modulo the number of sets have been since |
| WsProfile.WayCache.constructor | ws_profile.hh:20-26 | the smallest power-of-two line shift and the set count, all sets empty |
| WsProfile.WayCache.Front | ws_profile.hh:35-36 | in place: slots slid down by one and the tag in front |
| WsProfile.WayCache.TouchSet | ws_profile.hh:31-45 | the set becomes its LRU successor, every other set unchanged, hit told apart from miss |
| WsProfile.WayCache.Access | ws_profile.hh:27-45 | the miss counter goes up exactly when the reuse distance of the whole trace does not fit |
| WsProfile.WayCache.Reset | ws_profile.hh:46 | an empty trace and no counts |
| Bitwise.ClearsLowest | tools/np_packplay.cc:97-100 | `b & (b - 1)` clears exactly the lowest set bit |
| Bitwise.CtzIsLowest | tools/np_packplay.cc:99 | the trailing-zero count is the lowest set bit |
| NpPacket.SnapRoundTrip | tools/np_packplay.cc:105-107 | RB2 state stored as bytes loads back |
| NpPacket.BitmapBit | tools/np_pack.cc:65-73 | a bitmap bit is set if and only if its word differs from the state after the last command |
| NpPacket.PatchesBack | tools/np_packplay.cc:92-104 | patching the last state by bitmap and values gives the exact new words and consumes exactly the values |
| NpPacket.UnpacksBack | tools/np_pack.cc:60-89 | a reader in the state the writer last saw gets the exact state the writer saw next, RB2 state included, and the rest of the file |
| NpPacket.PlaybackIsReplay | tools/np_pack.cc:121-158 | playing a recording passes through the same state at the start of every command, framebuffers included, for any trace and whatever a command does |
| NpLayout.PacketBytes | tools/np_pack.cc:60-89 | byte by byte: opcode and address mode, the RB2 flag, ten bytes of bitmap low bit first, the changed words in order least significant byte first, then the RB2 state |
| NpLayout.SnapLayout | tools/np_pack.cc:60-89 | the RB2 state as two words, least significant byte first, and eight bytes |
| NpTools.Packer.Diff | tools/np_pack.cc:65-73 | the loop's bitmap and values are those of the packet |
| NpTools.Packer.OnGo | tools/np_pack.cc:60-89 | exactly the packet appended |
| NpTools.Packer.Track | tools/np_pack.cc:150-153 | the end state remembered for the next difference |
| NpTools.Player.PatchByte | tools/np_packplay.cc:96-103 | the lowest-bit-first loop over one byte patches the words as a scan of its bits would |
| NpTools.Player.Next | tools/np_packplay.cc:91-109 | registers, RB2 state and read pointer after one packet |
| Unaligned.StoreLeftBytes | interpret.cc:2011-2022 | the shift and mask merge of SWL and SDL keeps the word's leading bytes and takes the register's |
| Unaligned.StoreRightBytes | interpret.cc:2042-2053 | that of SWR and SDR keeps the trailing bytes |
| Unaligned.LoadLeftBytes | interpret.cc:2067-2090 | that of LWL and LDL puts the word's tail above the register's low bytes |
| Unaligned.LoadRightBytes | interpret.cc:2106-2127 | that of LWR and LDR puts the word's head below the register's high bytes |
| Unaligned.StorePairExact | interpret.cc:2002-2056 | SWL/SWR and SDL/SDR write exactly the 4 or 8 bytes at any address, across words and pages, and no others |
| Unaligned.LoadPairExact | interpret.cc:2058-2137 | LWL/LWR and LDL/LDR load the datum's sign-extended value whatever the register held |
| Unaligned.PairRoundTrip | interpret.cc:2139-2242 | a value stored by the pair is loaded back by the pair at every address |
| HartEffects.AddiuAdds | interpret.cc:4349-4354 | ADDIU leaves the low 32 bits of the sum as a signed number and changes nothing else |
| HartEffects.LoadLeaves | interpret.cc:1699-1718 | a load that does not fault, plain or unaligned, leaves in its register the signed number that the bytes at the translated address spell, most significant first, completed by the register's own where unaligned, and changes nothing else |
| HartEffects.StoreLeaves | interpret.cc:1699-1718 | a store leaves the register's bytes in the word, all of them or those that fit before or after the address, and changes nothing else |
| HartEffects.AddressError | interpret.cc:1699-1718 | off its alignment a plain access changes no register and no memory and raises ExcCode 4 or 5 at the general vector |
| HartEffects.BranchGoes | interpret.cc:1497-1645 | a branch whose slot does not fault does what the slot does and ends at pc + 4 + imm if and only if the registers, as signed numbers, are equal, unequal, at most, above, below or at least 0 as its condition says, else at pc + 8; register 31 is the link where it links |
| HartEffects.LikelySkips | interpret.cc:1497-1645 | a likely branch whose condition fails runs no slot and ends at pc + 8 |
| Hart.FaultIsPrecise | interpret.cc:258-281 | an exception with EXL clear, in the instruction or its delay slot, goes to exactly its vector and changes no memory and no register but the link of a linking branch that has entered its slot; EPC is the instruction, and BD is set if and only if a delay slot was entered |
| Hart.SlotPrecise | interpret.cc:593-600 | a fault in a delay slot goes to its vector and leaves registers and memory alone and EPC on the branch |
| Hart.FaultGoes | interpret.cc:250-300 | an instruction other than a branch sets EXL, from clear, exactly when its fetch, its translation or its alignment fails, and then goes to the vector of that failure, refill or general, under BEV and EXL |
| Hart.ExecTwins | interpret.cc:3221-3226 | execution depends on registers, memory, TLB, ASID, pc, BEV and EXL only |
| Hart.LinkTwins | interpret.cc:1497-1645 | a linking branch that does not read register 31 wipes out a difference in it, unless its slot reads it before the link |
| Hart.NestedKeeps | interpret.cc:258-281 | until the handler returns or writes EPC, Status or Cause itself, no nested exception, TLB instruction or other CP0 write alters EPC or BD |
| Hart.NestedExecKeeps | interpret.cc:258-281 | nor does any instruction |
| Hart.RetryIsFresh | interpret.cc:4119-4137 | after any handler that comes to ERET with EPC, registers and ASID as the fault left them, the retry runs on exactly as if mapped from the start, delay slots included, if a branch that linked is still mapped and neither it nor, before the link, its slot reads register 31; a handler that writes neither EPC, Status nor Cause has kept EPC, whatever nests in it |
| Hart.SlotFaultGoes | interpret.cc:593-600 | a branch whose delay slot faults ends at the exception vector of the slot, unless EXL was already set and the branch is taken: then at its target; so at the vector if and only if EXL was clear, the branch untaken, or the two addresses equal |
| Hart.LostFault | interpret.cc:593-600 | a concrete machine with EXL set whose slot fault is lost |
| Hart.LinkedFault | interpret.cc:1497-1645 | a concrete machine with EXL clear on which a linking branch's slot fault leaves register 31 changed |
| Interpreter.Machine.DoAccess | interpret.cc:1699-1718 | in place: translate, check alignment, and only then touch a register or memory |
| Interpreter.Machine.RunSlot | interpret.cc:593-600 | the slot executed with the delay-slot flag restored, and whether it took an exception |
| Interpreter.Machine.DoBranch | interpret.cc:1497-1645 | link, slot and target in the source's order for likely and plain branches |
| Interpreter.Machine.ExecInst | interpret.cc:3221-3226 | one instruction leaves exactly the specified machine |

## Left out

- NewportBoard.Board.SpanFast: says nothing about the board after a row that leaves the framebuffer, because what the host then overwrites is not part of this model.
- NewportBoard.Board.SpanOrBlock: draws going right only, as its precondition says; with the direction reversed the source uses the per-pixel loop alone.
- NewportShade.ShadedBlock: blocks with rows to come whose columns lie left of the end column, in shaded RGB with unclamped iterators and colours of their own; the lanes of other modes are those of `NewportRow.RowIsLanes`.
- NewportTrace.ShadedLine: plain lines, with neither a length limit nor a skipped end.
- Descriptors.FetchesDescriptor: a descriptor off the aliased 512 KB; words there are those 128 MB further on.
- NewportLine.PlainLine: major length at least 1; a line of length 0 plots its point twice.
- NewportBoard.Board.DrawLine: pixels are not blended.
- Hart.Exec: a branch in a delay slot is left undefined, as the architecture leaves it; instructions are read from a fixed program, so a store does not change code.
- Hart.RetryIsFresh: says nothing of a faulting slot whose branch links and reads register 31, or whose branch links late and the slot reads it, because they see the link the second time.
- HpcTransfer.ChunkedTransfer: between two chunks the driver acknowledges the interrupt, and writes memory and registers before it arms the channel and issues the command, not between the two; the low alias stays on or off throughout.
- HpcChannel.Channel.RunDma: requires that the pump stops; `Hpc.HaltsIff` says when it does.
- Blending and the fractional line (`do_fline`): floating point and quirks inherited from MAME.
- Touch tracking, draw capture, tracing, display output and register read decode of the board.
- The packet file's header with both framebuffers, the expectation file and its hashes.
- Weak memory ordering between the co-simulation processes, their attachment and the printed report.
- The caches' statistics counters, the stale-read detector and the watched line.
- The opcode table beyond one ALU instruction, the loads, stores and branches of `Hart`; interrupts, LL/SC, the FPU, busy-loop collapsing, and the device window at 0x1f000000 in loads and stores.
- Loads and stores of `Hart` go to DRAM directly; the cached path is `Cache`.
- `tlb_probe_ro`, whose match differs from translation on purpose, and the 32-bit views of CP0 registers.
- The WD33C93 auxiliary status bits, its register pointer, the status of its reset command, host file errors, and the second SCSI channel.
- Ethernet transmit, the address filter, interrupts, the tap device and the controller reset, which drops staged frames.
- The profiler's list of caches, its report, and wrap-around of its 64-bit counters.
- Little-endian forms of the unaligned instructions.
