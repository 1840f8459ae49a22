# Models of the codec driver's buffer and stream logic

This project models the parts of the Amlogic V4L2 decoder driver and its players in which
buffers, references and bytes must not get lost, and proves what those parts are for.

- `Words`, `Crc32Spec`, `CrcPolynomial`, `Crc32`, `FrameCheck`: the CRC-32 of IEEE 802.3 (section
  3.2.9, reflected, without inversions) one bit at a time and as division of polynomials, the table
  built by doubling, the slice-by-8 loop, and the frame checker on top. Words are bounded integers with
  exclusive-or defined bit by bit.
- `EsRing`: the elementary-stream reference manager, with absolute stream positions beside the
  driver's raw addresses.
- `VppPipeline`, `Ge2dPipeline`, `FrameOrder`: the post-processor and the format converter as protocols,
  and the order of frames in both. Every FIFO and semaphore operation of every actor is one step; any
  number of producers and callbacks may be under way. The converter is shown to be a special case of the
  post-processor.
- `OwnerWord`, `BufCore`, `TaskChain`, `ChainedBuffers`, `BufferJourney`: the reference-counted buffers,
  the packed word that shadows their counts by owner, the chain of stages that decides whose reference
  moves, runs of all three together, and the way of one buffer round.
- `Leb128`, `Obu`, `ObuRewriter`, `NaluSplitter`, `StartCodes`, `StreamUnits`: LEB128 (section 4.10.5 of
  the AV1 bitstream specification), unit headers (sections 5.3.2 and 5.3.3), the rewriter that wraps
  units in self-checking headers, and the splitter that finds headers or H.264 start codes (section
  B.1.1).
- `RollingStats`, `BufferBudget`: the page statistics and the capture-buffer budget. `Arithmetic` and
  `DriverLimits` hold what several modules share.

Where the source changes state step by step the model is a class or a method with loops, proved
against a function on values; the theorems are about those functions. Environment decisions are
parameters: whether DI accepts or still refers to a buffer, whether a capture buffer or memory is
available, what the task chain reports, which callback comes next.

## Where the code does not do what it seems to

Each is a lemma with a concrete input, or the exact condition under which the property holds.

- The CRC table is rebuilt on every call: `init_table_flag` is never set (`Checksum.Crc32Le`).
- The two branches of the frame checker cover different chroma bytes for odd heights and for MJPEG
  (`ChromaAgreesIff`).
- A read pointer equal to the write pointer does not drain a ring that is exactly full (`DrainIff`).
- Progressive content without local DI buffers, and progressive frames sent past DI, lose their input
  elements until the next reset (`ConservedIff`, `FrameLost`, `LossIsFinal`).
- With local buffers a DI output is bound by position alone: out of order, pictures go to the wrong
  buffers (`BoundRightIff`, `OutputsMatchIff`).
- The owner word parts from the counts exactly when an owner's sixteenth reference carries or a
  predecessor or returning owner has none (`GetShowsIff`, `PutShowsIff`); `SixteenthCarries`,
  `PutWithoutReferenceBorrows` and `ConverterAllocationBorrows` say what it shows then. The check of
  the top bits overlooks DI (`AlarmIff`).
- Re-attaching or replacing a queued buffer, and putting a reference that is not there, leave a
  queued buffer with a wrong count (`ReplaceIff`, `ReplacedWhileQueued`, `PutWithoutReference`); a
  return is sound exactly for an owner entitled to one (`DropIff`, `PutRefIff`).
- `task_chain_clean` leaves the current type and the maps behind, so a reused chain can report a
  successor for its last stage (`WalkEndsIff`, `ReuseMakesACircle`); `OwnLineIsFree` shows that this
  does not disturb the owner word.
- In a new chain a decoder attached last is reported as its own predecessor, its number being zero
  (`FreshEnds`).
- The padded LEB128 encoder accepts size zero and then writes nothing (`FixedRoundTripIff`).
- A unit of 2^28 - 4 bytes or more is written with the size field of the unit before it (`FieldIff`).
- In Annex B mode the reported frame length counts four bytes a unit that are not written
  (`FrameLenIff`).
- The splitter's buffer has the size of the biggest unit, but also takes the start code that follows:
  it suffices exactly when both fit, and the length check behind the search comes too late
  (`FindNext`, `GetAnnexbNalu`).

## Model

| member | source | states |
|---|---|---|
| Crc32.InitFirstRow | tools/v4lplayer/vcodec_utils.c:28-37 | the doubling loop fills all 256 entries of row 0 with eight bit steps applied to the index |
| Crc32.DoubledEntry | tools/v4lplayer/vcodec_utils.c:35-36 | one store of the doubling loop is right because the step is xor-linear: the new entry is the power entry xor an entry that is already there |
| Crc32.InitTable | tools/v4lplayer/vcodec_utils.c:25-46 | row j of the table holds eight bit steps on the index followed by j zero bytes |
| Crc32.FillColumn | tools/v4lplayer/vcodec_utils.c:39-45 | the second loop extends one column through all eight rows from row 0 |
| Crc32.RowMeaning | tools/v4lplayer/vcodec_utils.c:39-45 | a table entry is the checksum from zero of its index byte and j zero bytes |
| Crc32.Lanes | tools/v4lplayer/vcodec_utils.c:51-55 | four look-ups of the bytes of a word in four consecutive rows are one run of bit steps on the whole word, for every word |
| Crc32.EightBytes | tools/v4lplayer/vcodec_utils.c:75-80 | one turn of the slice-by-8 loop, two words at once, is eight byte-wise checksum steps |
| Crc32.Crc32Body | tools/v4lplayer/vcodec_utils.c:48-95 | prologue to a word boundary, eight bytes a turn, epilogue: the result is the bit-serial checksum for every start value, message and address |
| Crc32.Checksum.Crc32Le | tools/v4lplayer/vcodec_utils.c:97-112 | the public routine computes the bit-serial checksum whatever the address; the "already built" flag is never raised, so every call rebuilds the table |
| Crc32Spec.StepXor | tools/v4lplayer/vcodec_utils.c:34 | one bit step is xor-linear |
| Crc32Spec.StepInjective | tools/v4lplayer/vcodec_utils.c:34 | one bit step loses nothing: different states stay different |
| Crc32Spec.CrcAppend | tools/v4lplayer/vcodec_utils.c:48-95 | the checksum of a concatenation continues from the checksum of its first part |
| Crc32Spec.CrcStateInjective | tools/v4lplayer/vcodec_utils.c:48-95 | two start values that end in the same checksum over one message were equal |
| Crc32Spec.CrcXor | tools/v4lplayer/vcodec_utils.c:48-95 | the checksum is xor-linear in start value and message together |
| Crc32Spec.CollisionIff | tools/v4lplayer/vcodec_utils.c:48-95 | two messages of one length collide, from any start value, exactly when their difference has checksum zero |
| Crc32Spec.BurstDetected | tools/v4lplayer/vcodec_utils.c:48-95 | two messages that differ only inside four consecutive bytes never have the same checksum |
| CrcPolynomial.CrcIsRemainder | tools/v4lplayer/vcodec_utils.c:48-95 | the checksum is the reflected remainder of the message times x^32, the start value added at its front, divided by x^32+x^26+x^23+x^22+x^16+x^12+x^11+x^10+x^8+x^7+x^5+x^4+x^2+x+1: that word and no other |
| CrcPolynomial.GeneratorIs | tools/v4lplayer/vcodec_utils.c:17 | the constant of the bit step is that generator without its highest power, reflected |
| CrcPolynomial.RemainderUnique | tools/v4lplayer/vcodec_utils.c:48-95 | two polynomials below x^32 that differ by a multiple of the generator are equal |
| CrcPolynomial.ReflectedBit | tools/v4lplayer/vcodec_utils.c:34 | reflecting a word turns bit i into bit n - 1 - i |
| FrameCheck.DumpPlane | tools/v4lplayer/v4l2_dec.c:548-566 | both branches of the dump write exactly the cropped rows and return the address behind the aligned plane |
| FrameCheck.DumpRows | tools/v4lplayer/v4l2_dec.c:556-560 | the row loop of the dump writes exactly the cropped rows |
| FrameCheck.RowsByte | tools/v4lplayer/v4l2_dec.c:548-615 | the cropped rows in bytes: byte x of row y is the byte at y times the stride plus x |
| FrameCheck.AlignUpIs | tools/v4lplayer/v4l2_dec.c:548-566 | the aligned size is the one multiple of 64 from the size on, less than 64 above it |
| FrameCheck.FrameChecksums | tools/v4lplayer/v4l2_dec.c:575-615 | both checksums are those of the planes as read: all luma rows, and the chroma bytes of the branch taken; the dump gets both planes |
| FrameCheck.ChromaFits | tools/v4lplayer/v4l2_dec.c:596-615 | a 4:2:0 buffer, half as many chroma rows as luma rows rounded up, covers whatever either branch reads |
| FrameCheck.StridedCrc | tools/v4lplayer/v4l2_dec.c:607-614 | carrying the checksum row by row gives the checksum of the cropped plane |
| FrameCheck.ChromaAgreesIff | tools/v4lplayer/v4l2_dec.c:596-615 | the dense branch covers the chroma rows the strided branch would exactly for even heights (or width at most one); for MJPEG only for frames with no chroma bytes to differ in |
| EsRing.ConsumedExact | drivers/amvdec_ports/aml_vcodec_dec.c:2612-2624 | within one lap the physical tests decide exactly whether a unit ends at or before the read position, across the wrap, and the new cursor is the physical end |
| EsRing.PopExact | drivers/amvdec_ports/aml_vcodec_dec.c:2706-2750 | one dequeue pops exactly the longest prefix of units that end at or before the read position, although the loop keeps the cursor it began with |
| EsRing.DrainIff | drivers/amvdec_ports/aml_vcodec_dec.c:2706-2750 | a read pointer equal to the write pointer empties the queue exactly when the queued units do not fill the whole ring |
| EsRing.EnqueueExact | drivers/amvdec_ports/aml_vcodec_dec.c:2626-2668 | queueing a unit keeps queue, cursor and read position in step with absolute stream positions |
| EsRing.DequeueExact | drivers/amvdec_ports/aml_vcodec_dec.c:2693-2754 | so does a dequeue: what stays queued is exactly what is not wholly read |
| EsRing.RunExact | drivers/amvdec_ports/aml_vcodec_dec.c:2626-2754 | every legal run keeps queue, cursor and read position exact: the queue holds the units not wholly read, contiguous from the cursor; a unit that finds the pool of 1024 used up is refused |
| EsRing.RunFromEmpty | drivers/amvdec_ports/aml_vcodec_dec.c:2626-2754 | so over every legal run from an empty manager |
| EsRing.PartitionCovers | drivers/amvdec_ports/aml_vcodec_dec.c:2806-2808 | when the two FIFOs partition the pool every one of the 1024 elements is in one of them |
| EsRing.EsMgr.constructor | drivers/amvdec_ports/aml_vcodec_dec.c:2777-2817 | all elements start free, nothing is queued, no cursor yet |
| EsRing.EsMgr.RefQue | drivers/amvdec_ports/aml_vcodec_dec.c:2626-2668 | appends the unit, takes one dma-buf reference, sets the first cursor; without a free element it fails and changes nothing |
| EsRing.EsMgr.PutRef | drivers/amvdec_ports/aml_vcodec_dec.c:2670-2691 | the cursor moves to the end of the unit, its dma-buf reference is given back, its element becomes free |
| EsRing.EsMgr.RefDque | drivers/amvdec_ports/aml_vcodec_dec.c:2693-2754 | the loop pops exactly the prefix the physical test accepts against the cursor found on entry, in order, with every pop accounted; free and queued elements still partition the pool |
| EsRing.EsMgr.Write | drivers/amvdec_ports/aml_vcodec_dec.c:2756-2770 | queueing a unit at the write position takes the manager from one state of the exact ring to the next, and fails exactly when the pool is used up |
| EsRing.EsMgr.InputFree | drivers/amvdec_ports/aml_vcodec_dec.c:2772-2775 | so does reporting a read position: what the manager still queues is exactly what is not wholly read |
| EsRing.EsMgr.Release | drivers/amvdec_ports/aml_vcodec_dec.c:2819-2844 | tearing down gives every reference back: gets equal puts and all elements are free |
| VppPipeline.InitInv | drivers/amvdec_ports/aml_vcodec_vpp.c:1187-1194 | initialisation puts every pool element into exactly one FIFO |
| VppPipeline.StepInv | drivers/amvdec_ports/aml_vcodec_vpp.c:726-954 | every step of producer, worker, DI callback or consumer keeps every pool element accounted for, FIFO sizes, semaphore tokens and order |
| VppPipeline.RunInv | drivers/amvdec_ports/aml_vcodec_vpp.c:726-954 | so does every interleaving |
| VppPipeline.PipelineSafe | drivers/amvdec_ports/aml_vcodec_vpp.c:769-815 | in every interleaving and every mode each output buffer and frame struct is in exactly one place, every FIFO put finds room, none of the three "can not get" exits is taken, no DI output finds the processing FIFO empty, and input buffers are conserved too exactly until the first that no callback gives back |
| VppPipeline.NoLostWakeup | drivers/amvdec_ports/aml_vcodec_vpp.c:755-760 | a worker blocked on sem_out with count zero while output has a buffer is about to be woken by a returner |
| VppPipeline.BoundRightIff | drivers/amvdec_ports/aml_vcodec_vpp.c:261-292 | DI may finish any output it owes; the one it delivers finds the buffer prepared for it at the head of processing exactly when it is the first one due |
| VppPipeline.OutputsMatchIff | drivers/amvdec_ports/aml_vcodec_vpp.c:920-931 | with local buffers the k-th DI output is bound to the k-th hand-over whatever DI delivers, so over a run every picture goes to the buffer prepared for it exactly when DI finishes in order |
| VppPipeline.FrameLost | drivers/amvdec_ports/aml_vcodec_vpp.c:378-399 | progressive content without local buffers, or past DI: a concrete run through the input callback after which an input buffer is in no place |
| VppPipeline.LossIsFinal | drivers/amvdec_ports/aml_vcodec_vpp.c:378-399 | over every run and every continuation: what is lost is nowhere again, the inputs in circulation are 64 less those lost, and with all lost no frame can be pushed |
| VppPipeline.ConservedIff | drivers/amvdec_ports/aml_vcodec_vpp.c:860-944 | pool elements survive every run exactly when progressive content has local buffers and no frame is sent past DI |
| FrameOrder.RunFifo | drivers/amvdec_ports/aml_vcodec_vpp.c:769-815 | over every run each FIFO of pool elements hands out what it held and then what was put, in that order; what is put and taken is read off the actors |
| FrameOrder.RunOutFifo | drivers/amvdec_ports/aml_vcodec_vpp.c:920-931 | so do the processing and out_done FIFOs, with what is bound to the outputs |
| FrameOrder.FramesInOrder | drivers/amvdec_ports/aml_vcodec_vpp.c:802-807 | frames pass the worker in the order producers stored them: those handed over, the one in its hands and those waiting are those stored; outputs are fetched in the order they were filled |
| FrameOrder.EachOnce | drivers/amvdec_ports/aml_vcodec_vpp.c:570-627 | over every run each output filled is submitted once and each output buffer returned raises sem_out once: those used and those still to come add up |
| FrameOrder.FirstGoPast | drivers/amvdec_ports/aml_vcodec_vpp.c:855-944 | of the frames the worker has done with, exactly the first ones up to the bypass count went past DI, each losing its input, and all later ones were handed to DI |
| Ge2dPipeline.OutputSimulated | drivers/amvdec_ports/aml_vcodec_ge2d.c:252-314 | the converter thread finishing an output amounts to the post-processor handing it over and its output callback |
| Ge2dPipeline.InputSimulated | drivers/amvdec_ports/aml_vcodec_ge2d.c:202-250 | its giving the input back amounts to the hand-over and the input callback |
| Ge2dPipeline.StepSimulated | drivers/amvdec_ports/aml_vcodec_ge2d.c:392-690 | every step of the converter is a short run of the post-processing protocol with caller's buffers |
| Ge2dPipeline.RunSimulated | drivers/amvdec_ports/aml_vcodec_ge2d.c:392-690 | so every run of the converter is a run of that protocol |
| Ge2dPipeline.ConverterSafe | drivers/amvdec_ports/aml_vcodec_ge2d.c:413-466 | in every interleaving: conservation of all pools, room for every put, no impossible exit, no lost wake-up |
| FrameOrder.ConvertedInOrder | drivers/amvdec_ports/aml_vcodec_ge2d.c:392-690 | the converter hands frames on in the order they came: the inputs of the outputs fetched, then those under way, are the inputs stored |
| OwnerWord.GetShows | drivers/amvdec_ports/aml_buf_core.c:113-161 | a GET keeps the nibbles equal to the per-owner counts without a carry, and adds a reference exactly when no predecessor gives one up |
| OwnerWord.GetShowsIff | drivers/amvdec_ports/aml_buf_core.c:113-161 | exactly when the user holds fewer than fifteen references and the predecessor, if one pays, has one |
| OwnerWord.PutShows | drivers/amvdec_ports/aml_buf_core.c:163-216 | a PUT by an owner that holds a reference keeps them equal without a borrow |
| OwnerWord.PutShowsIff | drivers/amvdec_ports/aml_buf_core.c:163-216 | exactly when the owner holds a reference |
| OwnerWord.PutWithoutReferenceBorrows | drivers/amvdec_ports/aml_buf_core.c:163-216 | without one, the decoder's PUT changes nothing and any other's takes sixteen from the nibble above |
| OwnerWord.ShowsNibbles | drivers/amvdec_ports/aml_buf_core.c:218-239 | a word that packs some counts shows each of them in its nibble and nothing above |
| OwnerWord.ShowsUnique | drivers/amvdec_ports/aml_buf_core.c:218-239 | a word stands for one set of counts only |
| OwnerWord.SixteenthCarries | drivers/amvdec_ports/aml_buf_core.c:113-161 | the sixteenth reference of any owner empties its nibble into the one above; of DI, the word then stands for no counts |
| OwnerWord.ConverterAllocationBorrows | drivers/amvdec_ports/aml_buf_core.c:136-141 | a converter that allocates a free buffer leaves fifteen decoder references and none of its own |
| OwnerWord.AlarmIff | drivers/amvdec_ports/aml_buf_core.c:230 | the error message appears exactly when the decoder, converter, post-processor or sink holds eight or more; DI is never noticed |
| OwnerWord.HolderStaysLive | drivers/amvdec_ports/aml_buf_core.c:163-216 | without converter and DI references, and with at most one of post-processor and sink holding the buffer, the owner named holder after a PUT still holds one |
| OwnerWord.HolderLiveIff | drivers/amvdec_ports/aml_buf_core.c:163-216 | exactly when the owner named holder after a PUT still holds the buffer, for every owner |
| OwnerWord.GetterNamed | drivers/amvdec_ports/aml_buf_core.c:113-161 | a GET names the getter holder, whose reference the counts then show; a GET for DI names nobody anew |
| OwnerWord.PutNames | drivers/amvdec_ports/aml_buf_core.c:163-216 | a PUT names the first of the owners asked that still holds a reference: for the decoder sink, post-processor, converter; for the post-processor itself, decoder, converter; for the sink itself, DI, decoder; the converter falls back to the decoder, the others leave the holder |
| BufCore.GetInv | drivers/amvdec_ports/aml_buf_core.c:629-693 | handing out a free buffer keeps the invariant |
| BufCore.DropLast | drivers/amvdec_ports/aml_buf_core.c:601-627 | the last reference appends the buffer to the free queue: the double-add check never gets in the way of a buffer that is not queued |
| BufCore.DropInv | drivers/amvdec_ports/aml_buf_core.c:1004-1009 | giving back a reference keeps the invariant, and queues the buffer exactly when it was the last |
| BufCore.DropIff | drivers/amvdec_ports/aml_buf_core.c:1004-1009 | giving a reference back keeps the invariant exactly for an owner entitled to one: it holds one, or the single return after a reset is still due |
| BufCore.PutRefIff | drivers/amvdec_ports/aml_buf_core.c:858-902 | so put_ref is sound exactly for a decoder entitled to a reference |
| BufCore.ReplaceIff | drivers/amvdec_ports/aml_buf_core.c:1181-1209 | re-attaching a known key, or giving it a new queue buffer, keeps the invariant exactly when the buffer is not queued |
| BufCore.AttachInv | drivers/amvdec_ports/aml_buf_core.c:1221-1238 | a new buffer enters with one reference, outside the queue |
| BufCore.DetachIff | drivers/amvdec_ports/aml_buf_core.c:1264-1296 | detaching keeps the invariant exactly when the buffer is not queued |
| BufCore.ResetInv | drivers/amvdec_ports/aml_buf_core.c:1096-1129 | a reset leaves every attached buffer waiting for one return, none queued |
| BufCore.StepInv | drivers/amvdec_ports/aml_buf_core.c:601-1296 | every legal operation keeps the invariant |
| BufCore.RunInv | drivers/amvdec_ports/aml_buf_core.c:601-1296 | so does every legal run, with the account of references carried along |
| BufCore.NeverLostNorTwice | drivers/amvdec_ports/aml_buf_core.c:601-1296 | over every legal run of a new manager: free_num equals the queue length, no buffer is queued twice, a buffer is queued exactly when its count is zero and then it is FREE with an empty owner word; outside INIT the count is the sum of the references handed out and each nibble shows its owner's |
| BufCore.GetExclusive | drivers/amvdec_ports/aml_buf_core.c:646-688 | the buffer handed out had no reference, gets exactly one, shown in its getter's nibble, and leaves the queue |
| BufCore.DoneIff | drivers/amvdec_ports/aml_buf_core.c:904-933 | over every reachable state a frame done finishes a buffer exactly when it is in use, referenced or finished already; a free one and one waiting after a reset are left alone |
| BufCore.PutRefTakesIff | drivers/amvdec_ports/aml_buf_core.c:858-902 | a put by the decoder takes one reference off in any state, unless there is none and the manager is inactive |
| BufCore.FillReturnsIff | drivers/amvdec_ports/aml_buf_core.c:953-1013 | a fill by somebody entitled takes one reference off exactly when the buffer is not in use unfinished and DI does not hold the sink back; the last one frees it at the end of the queue |
| BufCore.NamedAfter | drivers/amvdec_ports/aml_buf_core.c:113-161 | who gets a buffer or takes it over becomes its holder, a further decoder reference names the decoder, a hand-over to DI names nobody anew |
| BufCore.DetachCloses | drivers/amvdec_ports/aml_buf_core.c:1264-1296 | detaching drops the entry and one manager reference; the last reference closes the manager with its queue empty |
| BufCore.StagesByNumber | drivers/amvdec_ports/aml_task_chain.h:26-31 | which stage of the task chain is which owner, by number |
| BufCore.AllReturnedAllFree | drivers/amvdec_ports/aml_buf_core.c:1004-1009 | once every reference is back, all attached buffers are queued |
| BufCore.SeekRecovers | drivers/amvdec_ports/aml_buf_core.c:1082-1129 | from any reachable state a reset followed by one return of every attached buffer, in any order, by a fill or by the DI callback, leaves the free queue holding all of them once in that order, all FREE |
| BufCore.RunMarked | drivers/amvdec_ports/aml_buf_core.c:601-1296 | over every legal run a buffer is marked initialised exactly when it was queued at some time since its attach and the last reset |
| BufCore.DiHoldsBackIff | drivers/amvdec_ports/aml_buf_core.c:968-981 | over every legal run a fill of a buffer that DI still refers to is ignored exactly when the buffer has not been queued since its attach or the last reset |
| BufCore.ReplacedWhileQueued | drivers/amvdec_ports/aml_buf_core.c:1360-1372 | a queued buffer given a new queue buffer and then returned by the sink stays queued with count minus one and a borrowed owner word |
| BufCore.PutWithoutReference | drivers/amvdec_ports/aml_buf_core.c:863-881 | the guard of put_ref does not refuse a put without a reference in an active manager: the count goes to minus one, the buffer stays queued |
| BufCore.NeighbourPays | drivers/amvdec_ports/aml_buf_mgr.c:1169-1194 | on a chain attached sink first, whatever it was used for before, a take-over by post-processor or sink takes the reference of the stage attached next to it |
| BufCore.OwnLineIsFree | drivers/amvdec_ports/aml_vcodec_dec.c:1325-1329 | a post-processor getting a buffer for itself takes nobody's reference, even when a stale map reports someone before it |
| BufCore.BufCoreMgr.constructor | drivers/amvdec_ports/aml_buf_core.c:1485-1552 | a new manager has no buffers and one reference on itself |
| BufCore.BufCoreMgr.FreeQueue | drivers/amvdec_ports/aml_buf_core.c:601-627 | frees the entry and appends it, except as a second entry in a row |
| BufCore.BufCoreMgr.GetBuffer | drivers/amvdec_ports/aml_buf_core.c:629-693 | hands out the head of the queue with state, user, count, holder and owner word changed, or nothing |
| BufCore.BufCoreMgr.GetReference | drivers/amvdec_ports/aml_buf_core.c:827-856 | adds a decoder reference; refused when inactive |
| BufCore.BufCoreMgr.PutReference | drivers/amvdec_ports/aml_buf_core.c:858-902 | gives a decoder reference back, freeing the buffer with the last |
| BufCore.BufCoreMgr.FrameDone | drivers/amvdec_ports/aml_buf_core.c:904-951 | marks the buffer done, adds a DI reference when DI takes it, and returns what handing it on returns; minus one in other states, zero without effect when inactive |
| BufCore.BufCoreMgr.FillBuffer | drivers/amvdec_ports/aml_buf_core.c:953-1013 | gives a reference back, with the three refusals of the source in their order |
| BufCore.BufCoreMgr.GiveBack | drivers/amvdec_ports/aml_buf_core.c:1004-1009 | the count goes down; at zero the entry is freed and queued, otherwise state, owner word and holder follow |
| BufCore.BufCoreMgr.UpdateHolderGet | drivers/amvdec_ports/aml_buf_core.c:113-161 | the branches of a GET amount to the take-over of holder and owner word, nothing else changes |
| BufCore.BufCoreMgr.UpdateHolderPut | drivers/amvdec_ports/aml_buf_core.c:163-216 | the branches of a PUT, later ones overriding earlier ones, leave the owner word lessened and name the holder it says |
| BufCore.BufCoreMgr.ResetAll | drivers/amvdec_ports/aml_buf_core.c:1058-1132 | the sweep over the table restarts every entry and empties the queue |
| BufCore.BufCoreMgr.AttachBuffer | drivers/amvdec_ports/aml_buf_core.c:1169-1262 | re-initialises a known key or adds a new entry; fails only without memory |
| BufCore.BufCoreMgr.DetachBuffer | drivers/amvdec_ports/aml_buf_core.c:1264-1296 | removes the entry and one manager reference; the last one empties and closes the manager |
| ChainedBuffers.CleanOfLine | drivers/amvdec_ports/aml_task_chain.c:357-369 | a chain at rest comes out of the clean that precedes a new pipeline empty |
| ChainedBuffers.SubmitLegal | drivers/amvdec_ports/aml_task_chain.c:155-203 | when a stage that holds a finished buffer submits it, the predecessor its successor finds on the chain is that stage, so the reference that moves is there |
| ChainedBuffers.AcquireLegal | drivers/amvdec_ports/aml_vcodec_dec.c:1269-1341 | a decoder or post-processor that gets a free buffer, with the chain just built for it, takes nobody's reference |
| ChainedBuffers.RunIsLegal | drivers/amvdec_ports/aml_buf_core.c:113-161 | a run in which the predecessors are read off the buffers' chains is a legal run of the core |
| ChainedBuffers.ChainsKeepCounts | drivers/amvdec_ports/aml_buf_core.c:601-1296 | over every run in which stages get buffers, pass them along their chains and return what they hold, with nothing asked about predecessors: no buffer is lost or queued twice and the counts are right |
| BufferJourney.RoundTrip | drivers/amvdec_ports/aml_buf_core.c:629-1009 | from every reachable state a decoder or post-processor that gets the oldest free buffer may finish it, submit it along its chain and have it returned by the last stage; it is then the youngest free buffer and the queue is otherwise as it was |
| BufferJourney.RunsAreGood | drivers/amvdec_ports/aml_buf_core.c:601-1296 | every state a run reaches is such a state |
| TaskChain.NeighboursLinked | drivers/amvdec_ports/aml_task_chain.c:403-408 | attaching pairwise distinct stages to an emptied chain, whatever it was used for before, makes next-user and pre-user undo each other on neighbours |
| TaskChain.WalkInOrder | drivers/amvdec_ports/aml_task_chain.c:261-280 | repeated next-user from any stage walks the attached list in order |
| TaskChain.WalkEndsIff | drivers/amvdec_ports/aml_task_chain.c:357-369 | the walk ends at the last stage exactly when the current type left over by the clean is not attached again |
| TaskChain.HeadHasNoPreIff | drivers/amvdec_ports/aml_task_chain.c:240-259 | the other end reports nobody before it exactly when neither the left-over type nor its left-over map entry is attached again |
| TaskChain.ReuseMakesACircle | drivers/amvdec_ports/aml_task_chain.c:357-369 | a chain cleaned and reused for the same two stages reports the decoder after the sink |
| TaskChain.FreshEnds | drivers/amvdec_ports/aml_task_chain.c:434-475 | in a chain never used before nobody comes after the stage attached first; before the one attached last the cleared map names the decoder, number zero, whenever it is attached |
| TaskChain.CleanEmpties | drivers/amvdec_ports/aml_task_chain.c:357-369 | cleaning an idle chain removes all its items and their references on the chain |
| TaskChain.RunKeepsCounts | drivers/amvdec_ports/aml_task_chain.c:335-369 | over any run of attach, look-up, release and clean the chain's count is one plus its live items, and each item's is its holders plus the chain's own |
| TaskChain.TaskChainObject.constructor | drivers/amvdec_ports/aml_task_chain.c:434-475 | a new chain is empty with no current type and one reference |
| TaskChain.TaskChainObject.OrderAttach | drivers/amvdec_ports/aml_task_chain.c:380-417 | attaching writes both maps and the current type and puts the item in front |
| TaskChain.TaskChainObject.FindItem | drivers/amvdec_ports/aml_task_chain.c:69-94 | finds the first item of the type and takes a reference on it |
| TaskChain.TaskChainObject.ItemPut | drivers/amvdec_ports/aml_task_chain.c:335-349 | drops a reference; the last one unlinks the item and drops one of the chain's |
| TaskChain.TaskChainObject.GetNextUser | drivers/amvdec_ports/aml_task_chain.c:261-280 | returns the next attached stage and leaves the chain as it was |
| TaskChain.TaskChainObject.GetPreUser | drivers/amvdec_ports/aml_task_chain.c:240-259 | returns the previous attached stage and leaves the chain as it was |
| TaskChain.TaskChainObject.CleanAll | drivers/amvdec_ports/aml_task_chain.c:357-369 | the sweep drops the chain's own reference of every item, items still looked up survive |
| Leb128.UlebSizeInBytes | tools/v4lplayer/v4lplayer.c:131-137 | the size computed is that of the shortest encoding |
| Leb128.UlebDecode | tools/v4lplayer/v4lplayer.c:139-165 | the loop decodes the number at the front, or fails |
| Leb128.UlebEncode | tools/v4lplayer/v4lplayer.c:167-187 | writes the shortest encoding, refusing exactly values above 32 bits and too little space |
| Leb128.UlebEncodeFixedSize | tools/v4lplayer/v4lplayer.c:189-214 | writes the padded encoding, refusing exactly what the source refuses |
| Leb128.DecodeIff | tools/v4lplayer/v4lplayer.c:139-165 | decoding succeeds exactly on inputs that begin with a complete number of at most eight bytes and 32 bits, and returns its value and length |
| Leb128.LebDigit | tools/v4lplayer/v4lplayer.c:139-165 | byte i carries the i-th seven bits of the value |
| Leb128.RoundTrip | tools/v4lplayer/v4lplayer.c:139-187 | decode undoes encode for every 32-bit value, with anything behind |
| Leb128.FixedRoundTripIff | tools/v4lplayer/v4lplayer.c:189-214 | what the padded encoder accepts decodes again exactly when the padded size is positive; size zero writes nothing |
| Leb128.Shortest | tools/v4lplayer/v4lplayer.c:167-187 | no encoding of a value is shorter, and none of that length is different |
| Leb128.PrefixFree | tools/v4lplayer/v4lplayer.c:139-165 | no complete number is a proper beginning of another |
| Obu.BitReader.ReadBit | tools/v4lplayer/v4lplayer.c:274-287 | returns the next bit, most significant first; at the end zero, without moving |
| Obu.BitReader.ReadLiteral | tools/v4lplayer/v4lplayer.c:289-294 | returns the next bits as a number, the first on top |
| Obu.ReadObuHeader | tools/v4lplayer/v4lplayer.c:312-358 | reading field by field yields exactly what the one or two header bytes say, with every rejection |
| Obu.HeaderRoundTrip | tools/v4lplayer/v4lplayer.c:312-358 | a written header reads back as itself, whatever follows |
| Obu.HeaderOnly | tools/v4lplayer/v4lplayer.c:312-358 | an accepted header is the only reading of its bytes |
| Obu.HeaderIff | tools/v4lplayer/v4lplayer.c:217-358 | in numbers: a first byte begins a header exactly when its top and bottom bits are clear, its type is 1 to 8 or 15, it has a size field outside Annex B, and an announced extension byte is there with three clear bits; and what the fields then are |
| Obu.ReadObuHeaderAndSize | tools/v4lplayer/v4lplayer.c:360-400 | header and size fields in both formats |
| Obu.ParsedSize | tools/v4lplayer/v4lplayer.c:360-400 | a parsed unit takes at least two bytes before its payload and never more than available |
| Obu.ParseRoundTrip | tools/v4lplayer/v4lplayer.c:360-400 | parsing a serialised unit finds its header and payload, whatever follows |
| Obu.AnnexBRoundTrip | tools/v4lplayer/v4lplayer.c:360-400 | so it does in Annex B, with and without the inner size field |
| ObuRewriter.ParserFrame | tools/v4lplayer/v4lplayer.c:402-607 | on every exit path the output is the packets of the units read so far and the length grows by twenty bytes and the unit for each; the result code is that of the frame state machine |
| ObuRewriter.WritePacket | tools/v4lplayer/v4lplayer.c:458-481 | one packet is length, complement, start code, mark, size field and unit |
| ObuRewriter.ProcessType | tools/v4lplayer/v4lplayer.c:485-530 | the branches on the unit type are the frame state machine |
| ObuRewriter.FillLength | tools/v4lplayer/v4lplayer.c:469-476 | big-endian length and its byte-wise complement |
| ObuRewriter.FillField | tools/v4lplayer/v4lplayer.c:463 | the padded size field, left alone when the size does not fit |
| ObuRewriter.PacketRecognised | tools/v4lplayer/v4lplayer.c:835-847 | every packet passes the header test, and its length word counts what follows its first twelve bytes |
| ObuRewriter.FieldIff | tools/v4lplayer/v4lplayer.c:460-464 | the size field decodes to the unit size plus four exactly when that fits 28 bits; otherwise it is the field the previous unit left |
| ObuRewriter.FirstField | tools/v4lplayer/v4lplayer.c:402-416 | the size field before any unit reads 336 |
| StreamUnits.EveryField | tools/v4lplayer/v4lplayer.c:460-464 | over the whole output every size field gives its own unit's size plus four exactly when that fits 28 bits, whatever came before |
| ObuRewriter.BodiesArePrefix | tools/v4lplayer/v4lplayer.c:437-483 | the units written are consecutive pieces of the input from its beginning, on every exit |
| ObuRewriter.SuccessIsComplete | tools/v4lplayer/v4lplayer.c:485-530 | success means that the whole input was rewritten |
| ObuRewriter.FrameLenIff | tools/v4lplayer/v4lplayer.c:483 | the reported length is the number of bytes written exactly outside Annex B mode (or without any unit) |
| ObuRewriter.UnwrapOutput | tools/v4lplayer/v4lplayer.c:465-481 | cutting at the header lengths gives the units back |
| ObuRewriter.RewriteThenUnwrap | tools/v4lplayer/v4lplayer.c:402-607 | rewriting and cutting again gives consecutive pieces of the input, all of it on success |
| ObuRewriter.AcceptedIff | tools/v4lplayer/v4lplayer.c:485-530 | success is reported exactly for inputs that divide into units, with sequence headers and whole frames outside an open frame, tile groups and repeated headers inside one, ending with no frame open or with a frame header or tile group |
| ObuRewriter.FrameAccepted | tools/v4lplayer/v4lplayer.c:402-607 | a frame made of any units with size fields is rewritten unit by unit, with success exactly when the types, in numbers, fit where they stand and the frame ends well |
| ObuRewriter.UsualFrame | tools/v4lplayer/v4lplayer.c:485-530 | byte by byte: temporal delimiter, sequence header and whole frame with any payloads are rewritten with success into three packets |
| NaluSplitter.FindFirst | tools/v4lplayer/v4lplayer.c:872-908 | the sliding window finds the first start from here on, in either mode, with the made-up byte at the end of the file |
| NaluSplitter.FindNext | tools/v4lplayer/v4lplayer.c:909-937 | the second search stops at the next start, seeks back to it, and drops the made-up byte; the fixed buffer suffices exactly when the unit and the bytes read past it, the next start code or the made-up byte, come to at most 0x200000 |
| NaluSplitter.EndIsNextStart | tools/v4lplayer/v4lplayer.c:913-927 | the first code that ends after the bytes handed over begins the next unit: no start is overlooked in the overlap |
| NaluSplitter.TestEnd | tools/v4lplayer/v4lplayer.c:919-926 | the tests on the end of the buffer give the length of the code that ends there, the long reading first |
| NaluSplitter.GetAnnexbNalu | tools/v4lplayer/v4lplayer.c:857-966 | one call returns exactly the slice from the first start to the next and leaves the file there; without a start (an unsigned length of minus one) the program exits; a unit that does not fit with the bytes read past it overruns the buffer before its length is looked at |
| NaluSplitter.FittingIff | tools/v4lplayer/v4lplayer.c:857-966 | the units before the first that does not fit are all of them exactly when the buffer takes the unit at every start |
| NaluSplitter.SplitStream | tools/v4lplayer/v4lplayer.c:979-1028 | calling until the end of the file yields the units before the first that the buffer does not take, and comes to the end exactly when it takes every one and there is one |
| StartCodes.StartIff | tools/v4lplayer/v4lplayer.c:823-833 | in bytes: a unit begins at 00 00 00 01, or at 00 00 01 with no zero before it, and nowhere else |
| StartCodes.PiecesIff | tools/v4lplayer/v4lplayer.c:857-966 | a byte stream written as pieces, each a three- or four-byte code and a payload, is cut into exactly these pieces if and only if no payload contains 00 00 01 and none that a three-byte code follows ends in 00 |
| StartCodes.HeaderStartIff | tools/v4lplayer/v4lplayer.c:835-847 | in bytes: a header is four bytes, their complements, 00 00 00 01 and the letters AMLV, and nothing else is |
| StreamUnits.Lossless | tools/v4lplayer/v4lplayer.c:857-966 | the units put together are the stream from its first start to its end |
| StreamUnits.CutsAreStarts | tools/v4lplayer/v4lplayer.c:823-847 | the cuts are exactly the starts: none is missed, none lies inside a unit |
| StreamUnits.PacketsSurvive | tools/v4lplayer/v4lplayer.c:835-847 | whatever the payloads contain, the units of a rewritten frame group into its packets |
| StreamUnits.RewriteThenSplit | tools/v4lplayer/v4lplayer.c:402-607 | a frame through rewriter and splitter: the units group into packets whose bodies are consecutive pieces of the frame, all of it on success |
| RollingStats.WindowMoves | drivers/amvdec_ports/aml_vcodec_dec.c:1356-1358 | the update rule is exact: the slot overwritten holds the value that leaves the window |
| RollingStats.MaxAverageIs | drivers/amvdec_ports/aml_vcodec_dec.c:1359-1361 | the maximum kept bounds every window average so far and is one of them |
| RollingStats.HistogramTotal | drivers/amvdec_ports/aml_vcodec_dec.c:1354 | the histogram accounts for every recycle |
| RollingStats.CountIs | drivers/amvdec_ports/aml_vcodec_dec.c:1354 | bucket b counts the recycles with 256 b to 256 b + 255 pages |
| RollingStats.CompressedBufferInfo.CalCompressBuffInfo | drivers/amvdec_ports/aml_vcodec_dec.c:1342-1363 | after every recycle all fields agree with recomputation from the whole history |
| RollingStats.CompressedBufferInfo.constructor | drivers/amvdec_ports/aml_vcodec_drv.h:661-668 | the zeroed record is the one for an empty history |
| BufferBudget.SizeFits | drivers/amvdec_ports/aml_vcodec_dec.c:705-745 | sizing ties the decoder's share to frames and margin and totals at most 32; the margin goes below zero, where the driver's wraps, exactly when the frames no longer fit beside the other shares |
| BufferBudget.SizeShares | drivers/amvdec_ports/aml_vcodec_dec.c:672-745 | the shares in numbers: none for the post-processor with progressive content, four and the margin for the converter, the margin two beside either; all of it kept when it comes to at most 32, else the total is 32 |
| BufferBudget.RunBudget | drivers/amvdec_ports/aml_vcodec_dec.c:2556-2564 | over any run of sizing, requests and fallback the share stays tied and the total within 32 or the largest request |
| BufferBudget.Context.BufSizeDecision | drivers/amvdec_ports/aml_vcodec_dec.c:661-746 | the decision computes the sized budget and returns its total |
| BufferBudget.Context.Reqbufs | drivers/amvdec_ports/aml_vcodec_dec.c:2556-2564 | a request beyond the total raises it to exactly the request |
| BufferBudget.Context.StreamonWithoutVpp | drivers/amvdec_ports/aml_vcodec_dec.c:2446-2454 | the fallback keeps the total |

## Left out

- EsRing.EsMgr: addresses are unbounded integers; wrap-around of `unsigned long` at the top of the address space is not modelled, and FIFO capacities are exactly 1024.
- EsRing.RunFromEmpty: is about a ring whose queued bytes stay below its size and a read position between the last one and the write position, which the hardware guarantees; `DrainIff` says what happens at exactly full.
- VppPipeline.PipelineSafe: the post-processor is a state machine over its steps, not a class, because its actors interleave; the throttle that sleeps while DI's own queues are full (it moves no buffer), the S4 double-write mode, stream-off discards and failed end-of-stream parameters are not steps of it.
- VppPipeline.OutputsMatchIff: assumes that DI delivers at most one output for each hand-over.
- Ge2dPipeline.ConverterSafe: a failing hardware configuration, after which the converter thread stops, is not a step.
- ChainedBuffers.ChainsKeepCounts: chains are cleaned with no look-up in flight, and the decoder attaches itself in the same step as the stages behind it; pipelines in which the converter allocates are not among the runs.
- BufCore.NeverLostNorTwice: assumes that callers return only what they hold, that no owner holds more than fifteen references of a buffer, and that the converter does not allocate buffers itself; the lemmas on what goes wrong show why.
- BufCore.BufCoreMgr: entries are values in a map by key rather than linked structures, so a corrupted list is not represented; paired fields, dynamic mode, the avbcd entries, the DMA slot pool, planes and the waking of the decoder are not part of this model, nor is `buf_core_put`, which only paired fields use.
- BufCore.GetExclusive: what `prepare` does to planes and frame headers is not modelled; the chain it creates is the subject of `NeighbourPays` and `OwnLineIsFree`.
- TaskChain.TaskChainObject: the three frame slots of an item, and the submit and recycle calls that move frames through them into the stages, are not modelled.
- ObuRewriter.ParserFrame: the destination grows as needed, so its capacity is not modelled; printing and extraction of metadata, which does not influence what is written, is left out.
- ObuRewriter.RewriteThenUnwrap: for inputs below 2^32 - 8 bytes, as sizes are 32-bit.
- NaluSplitter.GetAnnexbNalu: the buffer is a sequence with the length of the player's, and what happens beyond it is only named; the unit-type fields derived afterwards are not modelled.
- NaluSplitter.SplitStream: how the player groups units into pictures before sending them is not modelled.
- RollingStats.CompressedBufferInfo.CalCompressBuffInfo: the recycle counter is unbounded and the window size fixed; page counts are below 4096, the range of the histogram.
- BufferBudget.SizeFits: integers are unbounded and the margin may be negative; DI-post and avbcd modes are not covered.
- V4L2 and vb2 plumbing, allocation, DI, GE2D and canvas hardware, the H.264 header parser, and the copies of the unit code in the other players: no algorithm of their own, or foreign code.
