# Verified models of the NCM and WDM drivers

This project models the two USB networking drivers of the repository and proves what they are
for. `dafny verify dfyconfig.toml` checks everything.

## The NCM driver

`modules/ncm/cdc_ncm.c` packs Ethernet frames into NCM Transfer Blocks and takes them apart
again: sections 3.2 (headers), 3.3 (datagram tables), 3.3.4 (frame alignment) and 3.7 (null
entries) of the USB CDC NCM 1.0 specification.

- `NcmFormat` has the two layouts and the driver's parameters. Constants of kernel headers that
  are not part of this model are fields of `Cfg` or of `Format`: the structure sizes are those
  of the specification (12, 8, 4 and 16, 16, 8 bytes), the others stay symbolic (Linux has
  `CDC_NCM_DPT_DATAGRAMS_MAX` = 40). `Cfg.Valid` is all that is assumed about them
  where bytes and sizes matter: `max_ndp_size` fits 16 bits, the smallest NTB holds a header and
  the largest can be addressed by its index fields. Order, loss and timers need less
  (`Cfg.Workable`). Some theorems add what `cdc_ncm_init` establishes about `tx_max_datagrams`
  (`NcmLoss.Sanitised`).
- `NcmTx` is the transmit path as functions on values, byte for byte; `NcmSystem` makes whole
  runs of it: frames, timer, tasklet, changes of the limits and failing allocations in any
  order. `NcmFifo`, `NcmLoss`, `NcmRefusal`, `NcmFirst`, `NcmCoalesce`, `NcmLayout`, `NcmEncode`, `NcmSizes`,
  `NcmBlocks`, `NcmSizing`, `NcmAlign`, `NcmPlacement`, `NcmPadding`, `NcmEndTable`, `NcmTimer`,
  `NcmSequence` and `NcmBackoff` prove properties of all runs.
- `NcmRx` is the receive path on arbitrary bytes, `NcmRoundTrip` connects the two, and `NcmDelivery`
  says from the bytes what the receiver does with blocks of other senders.
- `NcmBuffer`, `NcmWriter`, `NcmContext`, `NcmReceiver` and `NcmParams` are the imperative form:
  buffers that are filled and patched in place, a context with fields, the loops of the
  source. Every method is proved against the functions, and every entry point of `Context` is
  a step of `NcmSystem`, so what is proved about runs holds of the context.

The room test in front of a new table mixes 32-bit and 64-bit arithmetic. The model has both the
C expression and the integers that its comment intends (`Cfg.room`). What is proved about order,
loss, timers, back-off and sequence numbers holds for either; the layout, size and round-trip
theorems are about the integers. `NcmSizing.RoomTestAgrees` says exactly when the two agree, and
`NcmSizing.SizingTheorem` gives runs in which they always do.

A frame is a signature, a non-zero 32-bit number, and its bytes, which are not longer than an
NTB can be (`NcmSystem.ValidOp`). Runs may mix signatures, so multi-signature NTBs are covered.
Allocation results are parameters of the operations. The receiver's reads past the end of a block
yield unknown bytes (`Skb.beyond`), because the count test bounds the size of a table and not its
end.

Some promises hold only under conditions, and then the exact condition is proved:

- A failed allocation can leave a frame without a timer (`StrandHappens`); `StepNotStranded` says
  which failures do.
- Raising `tx_max` can discard a numbered empty NTB; `StepDiscards` says which steps do. Sequence
  agreement holds for runs without one, `GlitchHappens` is a run in which it fails, and
  `GlitchExactly` says when.
- A frame that an empty NTB refuses leaves its padding in that NTB, and possibly an open table
  with NDP-to-end, so the next frame can be dropped although a new NTB would take it
  (`RefusalHarmsNext`). `RefusalExactly` has the condition for one refusal and `HonestExactly` the
  one for all runs. A device with modulus 4 that reports remainder 0 gets `tx_remainder` 2, which
  does not meet it.
- When a full-size allocation fails, the driver makes do with a small buffer. Its size is taken
  from the frame in hand after the swap with the remaining one, so the new frame does not count
  (`BufferSizes`), and a buffer as long as its frame has no room for header and table
  (`SmallBufferDrops`).
- The comment on `min_tx_pkt` promises at most three packets of padding. The limit is clamped in 16
  bits and goes with `tx_max`, while an NTB in progress keeps its buffer, so the promise fails from
  `tx_max` = 65536 on (`ShortFrameAlone`), and below that when `tx_max` is lowered while a frame
  waits (`LoweredLimit`); the model follows the code. `ThreePacketsExactly` says for which buffers
  and values of `tx_max` it holds; alignments may take three packets there, as `FineAlignment`
  says. `OwnBufferExactly` asks with `Roomy` that header, table, alignment and three packets fit
  65536 bytes together.
- A table moved to the end always fits, but it is not always aligned: a refused frame leaves its
  padding, and the reserve does not cover both (`MisalignedTable`). With modulus 4, `tx_remainder` 2
  and `max_ndp_size` 28, a buffer of 1482 bytes is one in which it fails. `EndTables` has the
  condition for one NTB and `EndTablesExactly` the one for a buffer.

`dev->maxpacket` and `usb_maxpacket` are one parameter.

## The WDM driver

`modules/cdc-wdm/cdc-wdm.c` implements SendEncapsulatedCommand, GetEncapsulatedResponse and
ResponseAvailable (sections 6.2.1, 6.2.2 and 6.3.2 of USB CDC 1.2).

- `WdmSpec` says what each section under the spinlock does.
- `WdmResponse` is the response path as a protocol whose steps interleave freely: a reader with
  its bit tests, its unlocked byte-by-byte copy and its locked shift, the unlocked submit of
  `service_outstanding_interrupt`, completion and interrupt callbacks, both work items, reset,
  disconnect, release and open. `WdmQueue`, `WdmGap`, `WdmForget`, `WdmErrors`, `WdmFlow`,
  `WdmFetch` and `WdmDrain` prove properties of all runs; `WdmRead` and `WdmWork` say what whole
  calls and work items come to. `WdmDevice` is the device with its fields and byte array: each
  method is a step of the run, and the object keeps the invariants.
- `WdmCommand` is the command path with any number of writers, and `WdmWriter` its imperative
  form in the same way. Setting `WDM_RESETTING` and clearing `WDM_IN_USE` in `wdm_pre_reset` are
  two steps, as writers test the bits without the lock. `WdmProgress` says that it gets on, and
  `WdmLeave` how writers and resets leave.

Reporting of lost responses fails across a device reset: `wdm_post_reset` clears
`WDM_OVERFLOW`, and `WdmGap.ResetHidesLoss` is a run in which a reader then gets a byte that
arrived after a loss nobody was told of. `WdmForget.MisledExactly` says that this is the only way,
and that every reset which forgets a loss opens it. A failed submit in the interrupt callback
strands the response that was announced, unless it failed for want of memory
(`WdmFlow.FailedSubmitStrands`). `wdm_rxwork` leaves `WDM_RESPONDING` set when it meets a poisoned
URB (`WdmWork.RxExactly`).

The branch of `wdm_read` for a zero-length response has no unlock; the model takes the lock as
released where the branch leaves for `retry` or `err`.

## Model

| member | source | states |
|---|---|---|
| NcmFifo.FifoConservation | modules/ncm/cdc_ncm.c:1198-1475 | After any run: frames sent, then those in the NTB in progress, then the remaining frame, equal the submitted frames without the dropped ones, in the order of submission. |
| NcmFifo.FillOrder | modules/ncm/cdc_ncm.c:1227-1376 | One call keeps the order of all held frames and loses exactly those it reports as dropped, through the swap, resume, overflow, flush and allocation-failure paths. |
| NcmFifo.IterateShape | modules/ncm/cdc_ncm.c:1295-1367 | An iteration places the frame, refuses it in an empty NTB, or postpones it; it goes on only after placing one. |
| NcmFifo.FillCounted | modules/ncm/cdc_ncm.c:1378-1391 | tx_curr_frame_num counts the frames of the pending NTB; after a flush a pending NTB is empty. |
| NcmLoss.OnlyTwoLossSites | modules/ncm/cdc_ncm.c:1313-1376 | With 1 <= tx_max_datagrams <= CDC_NCM_DPT_DATAGRAMS_MAX no run reaches the replace-drop, the dangling drop or the full-table break, and no call that may come next does: its loop counts every frame it placed. A remaining frame means that no NTB with frames is pending. |
| NcmRefusal.CallDropsExactly | modules/ncm/cdc_ncm.c:1313-1335 | A call drops exactly the frame it has no buffer for, or the first frame it looks at when its NTB holds none and does not take it. |
| NcmRefusal.TakesExactly | modules/ncm/cdc_ncm.c:1307-1314 | An NTB without frames takes a frame if and only if it fits behind a threshold computed from the length of the NTB. |
| NcmRefusal.RefusalExactly | modules/ncm/cdc_ncm.c:1378-1383 | After a refusal the kept NTB takes the same frames as before if and only if it took none at all, or the padding left behind is none that counts and no table was opened for the refused frame. |
| NcmRefusal.DropsAreHonest | modules/ncm/cdc_ncm.c:1313-1335 | For parameters with which refusals change nothing: in every call of every run, no new NTB in a buffer of that size takes a frame dropped for want of room. |
| NcmRefusal.NeverFitsExactly | modules/ncm/cdc_ncm.c:1307-1314 | No new NTB takes a frame if and only if the frame exceeds what the header, the table, the alignment and the reserve leave of the buffer. |
| NcmRefusal.SmallBufferDrops | modules/ncm/cdc_ncm.c:1253-1267 | In every run, the frame that a small buffer is started for is dropped if and only if it would be in a buffer of USB_CDC_NCM_NTB_MIN_OUT_SIZE: a buffer as long as the frame has no room for header and table. |
| NcmRefusal.RefusalHarmsNext | modules/ncm/cdc_ncm.c:1378-1383 | For all other parameters, and every tx_max that can carry anything, a run of two frames in which the second is dropped although a new NTB takes it. |
| NcmRefusal.HonestExactly | modules/ncm/cdc_ncm.c:1313-1383 | Drops for want of room always mean that the frame does not fit a new NTB, if and only if the parameters are such that refusals change nothing. |
| NcmCoalesce.SubmitCollects | modules/ncm/cdc_ncm.c:1378-1391 | For every run and every submission that has a buffer, from the state before it: an NTB is sent if and only if it holds a frame and coalescing is off, or the frame in hand was refused behind others, or tx_max_datagrams frames are in it; otherwise the old frames and the new ones wait, the timer is started, and tx_timer_pending is restarted as long as there are few frames. |
| NcmCoalesce.FrameJoins | modules/ncm/cdc_ncm.c:1295-1367 | In every run in which frames wait, the next frame joins them if and only if there is room behind them, and then they are sent if and only if coalescing is off or they are tx_max_datagrams; otherwise they are sent without it and it remains. |
| NcmCoalesce.TakesInline | modules/ncm/cdc_ncm.c:1109-1134 | With inline tables, room behind others is room for the padded frame if its signature has a table, and for one more table, the alignment and the frame if not. |
| NcmCoalesce.TakesEnd | modules/ncm/cdc_ncm.c:1097-1106 | With the table at the end, only a frame of the same signature has room behind others, if the padded frame and the reserve fit. |
| NcmBlocks.BlocksAlwaysSound | modules/ncm/cdc_ncm.c:1088-1475 | Over every run with any signatures: each NTB sent is a chain with one non-empty table per distinct signature at strictly increasing offsets, each table lists the frames of its signature in order, at most tx_max_datagrams frames, and the block length is the length. |
| NcmBlocks.NewTableFits | modules/ncm/cdc_ncm.c:1118-1134 | An inline table is only pushed when the frame it is made for fits as well, so no new table stays empty. |
| NcmBlocks.FillSound | modules/ncm/cdc_ncm.c:1198-1475 | One call keeps the representation of the pending NTB and what it sends is sound. |
| NcmEncode.FinishChained | modules/ncm/cdc_ncm.c:1400-1446 | What goes out is a complete chain that lists every frame of the NTB, with inline tables and with the table moved to the end. |
| NcmEncode.MoveNdpChained | modules/ncm/cdc_ncm.c:1400-1418 | Appending the delayed table and patching the header index makes a complete chain of one table. |
| NcmEncode.PrepareBuilt | modules/ncm/cdc_ncm.c:1307-1314 | Searching, linking and opening a table and padding keep the representation, and the table found carries the frame's signature. |
| NcmEncode.AddFrameBuilt | modules/ncm/cdc_ncm.c:1339-1356 | Entering a frame in its table and appending its bytes keeps all tables and frames of the NTB readable. |
| NcmLayout.WithTableChained | modules/ncm/cdc_ncm.c:1126-1141 | Linking a new table behind the last one keeps every table and frame and extends the chain by that table. |
| NcmLayout.WriteEntryAt | modules/ncm/cdc_ncm.c:1339-1354 | Three little-endian stores add one entry behind the others and leave the rest of the table as it was. |
| NcmSizes.BlocksFitAlways | modules/ncm/cdc_ncm.c:1219-1225 | Over every run: an NTB fits the buffer it was built in, and so does a table moved to the end, also after the padding in front of a rejected frame. |
| NcmEndTable.EndTables | modules/ncm/cdc_ncm.c:1400-1418 | Every table that a run moves to the end of an NTB fits, and it is aligned if and only if the NTB in front of it leaves room for the alignment or the buffer minus max_ndp_size ends aligned; it is when no frame remains, when one frame is the limit, and in every buffer of a safe size. |
| NcmEndTable.MisalignedTable | modules/ncm/cdc_ncm.c:1329-1334 | The failing run: a frame fills an NTB up to the reserve, the next one is refused behind it and leaves its padding, and the table goes out misaligned; for every full-size or small buffer of an unsafe size that can carry a frame. |
| NcmEndTable.EndTablesExactly | modules/ncm/cdc_ncm.c:1219-1225 | For such a buffer, all runs with any updates and allocations send aligned tables if and only if one frame is the limit or the padded reserve leaves room for the alignment. |
| NcmPlacement.AlignsCommensurate | modules/ncm/cdc_ncm.c:656-687 | What that theorem asks of the two moduli holds of whatever cdc_ncm_fix_modulus makes of a device's. |
| NcmSizes.FinishSize | modules/ncm/cdc_ncm.c:1420-1437 | With packets of more than one byte, the length of a transfer is a multiple of the packet size if and only if the buffer is full and its size is one. |
| NcmSizes.TransferTermination | modules/ncm/cdc_ncm.c:439-463 | In full-size mode, across any tx_max updates: an NTB is at most as long as its buffer and its length is not a multiple of maxpacket unless it equals dwNtbOutMaxSize, which it does not exceed when the driver can do with that. |
| NcmSizes.TxMaxRange | modules/ncm/cdc_ncm.c:172-193 | A sanitised tx_max respects dwNtbOutMaxSize and the driver's maximum, has room for header, table and largest datagram when those allow it, keeps a value in range, and would be accepted by the sysfs attribute. |
| NcmSizing.SizingTheorem | modules/ncm/cdc_ncm.c:1122-1134 | If tx_max covers header, table, alignment, largest frame and the end reserve, a run with one signature and full-size buffers drops nothing, and the room test as written in C leads through the same states as the integer one. |
| NcmSizing.RoomTestAgrees | modules/ncm/cdc_ncm.c:1122-1124 | The C expression of the room test agrees with the integers if and only if the reserve alone still fits; otherwise the difference wraps and the test passes. |
| NcmAlign.AlwaysAligned | modules/ncm/cdc_ncm.c:1075-1083 | Over every run of non-empty frames every frame sent is at an offset congruent to tx_remainder modulo tx_modulus and every inline table at a multiple of tx_ndp_modulus. |
| NcmAlign.PadAligns | modules/ncm/cdc_ncm.c:1075-1083 | The tail padding aligns whenever it is not cut short by the end of the buffer. |
| NcmPadding.ThreePacketsExactly | modules/ncm/cdc_ncm.c:470-472 | For every buffer size and tx_max that go together (full-size, small, or from before tx_max was changed): every block sent in every run without a min_tx_pkt set by hand has at most three packets of padding, as the comment promises, if and only if zero-length packets are sent anyway or the buffer exceeds the least contents that are padded by at most three packets. |
| NcmPadding.BlocksPadLittle | modules/ncm/cdc_ncm.c:1429-1437 | The condition suffices in every run in which min_tx_pkt is not set by hand, with any tx_max updates, allocations and alignments. |
| NcmPadding.LoweredLimit | modules/ncm/cdc_ncm.c:448-472 | A failing run, also with every tx_max below 65536: an NTB waits, tx_max is lowered, which neither sends nor reallocates it, and the new min_tx_pkt has it padded to its whole old buffer. |
| NcmPadding.OwnBufferExactly | modules/ncm/cdc_ncm.c:470-472 | For a buffer as large as tx_max the condition is that tx_max fits the 16 bits of the clamp. |
| NcmPadding.LimitsAreLast | modules/ncm/cdc_ncm.c:404-474 | In every run, tx_max, min_tx_pkt and the interval are those set last, whatever frames and failures there were; an update of tx_max replaces a min_tx_pkt set by hand. |
| NcmPadding.LimitValue | modules/ncm/cdc_ncm.c:470-472 | For tx_max below 65536 and limits inside the clamp, min_tx_pkt and three packets add up to tx_max after every update. |
| NcmPadding.LeastIsLimit | modules/ncm/cdc_ncm.c:1429-1437 | With inline tables, and a limit that covers header, table and alignment, the least contents that are padded are one byte more than min_tx_pkt. |
| NcmPadding.ShortFrameAlone | modules/ncm/cdc_ncm.c:470-472 | A failing run of one step: a short frame sent at once from a full-size or a small buffer that is too large for the limit, as from tx_max = 65536 on. |
| NcmPlacement.PayloadsPlaced | modules/ncm/cdc_ncm.c:656-698 | From the parameters the device reports to the bytes: in every NTB of every run of non-empty frames every payload behind its Ethernet header is at the sanitised remainder of the device, every inline table at a multiple of its modulus, and the padding is that of the mask form of ALIGN. |
| NcmPlacement.MaskPads | modules/ncm/cdc_ncm.c:1075-1083 | For a power of two the tail padding computed with the 32-bit mask is the one that rounds up to a multiple. |
| NcmTimer.StepNotStranded | modules/ncm/cdc_ncm.c:1469-1515 | A step leaves held frames with the timer running or the tasklet scheduled if and only if it is not one of the two failed allocations. |
| NcmTimer.StrandHappens | modules/ncm/cdc_ncm.c:1262-1271 | The failing run: both allocations fail for the first frame, which then remains with neither timer nor tasklet. |
| NcmTimer.NoStrandedFrame | modules/ncm/cdc_ncm.c:1469-1474 | In every run without those failed allocations, held frames have the timer running or the tasklet scheduled. |
| NcmTimer.NoFailureNoStrand | modules/ncm/cdc_ncm.c:1469-1515 | In every run without failed allocations, held frames have the timer running or the tasklet scheduled. |
| NcmTimer.DrainsInTime | modules/ncm/cdc_ncm.c:1496-1515 | With no new frames and enough memory, however timer expiries and tasklet runs follow on each other: tx_timer_pending + 1 runs of the tasklet empty the driver. |
| NcmTimer.RoundsDrain | modules/ncm/cdc_ncm.c:1486-1515 | While the timer runs or the tasklet is scheduled, tx_timer_pending + 1 rounds of the two empty the driver. |
| NcmTimer.NotTooSoon | modules/ncm/cdc_ncm.c:1496-1503 | As long as no frame arrives, the first tx_timer_pending runs of the tasklet send nothing, so waiting frames are given their time. |
| NcmTimer.PendingMoves | modules/ncm/cdc_ncm.c:1384-1391 | In every run, only a frame that is kept restarts tx_timer_pending, only a run of the tasklet counts it down, and only a zero interval clears it; flushes and limit changes leave it alone. |
| NcmTimer.OneShot | modules/ncm/cdc_ncm.c:1477-1515 | In every run, every start of the timer is good for one expiry, and every expiry for one run of the tasklet, unless one is scheduled already. |
| NcmTimer.DelaysAreBounded | modules/ncm/cdc_ncm.c:1384-1391 | However many frames arrive, the tasklet puts off one NTB at most a number of times fixed by what is pending and the restarts of its first frames. |
| NcmTimer.FlushEmpties | modules/ncm/cdc_ncm.c:1227-1233 | A flush that gets a buffer sends or drops whatever is held. |
| NcmSequence.SequenceAgreement | modules/ncm/cdc_ncm.c:1279-1285 | If no empty NTB was discarded, block i carries i modulo 2^16 and the receiver never takes the glitch branch, from 0/0 through every wrap. |
| NcmSequence.GlitchExactly | modules/ncm/cdc_ncm.c:1585-1592 | For every block of every run there are the steps that sent it and the one before, and the glitch branch is taken if and only if NTBs were discarded in between, other than a multiple of 2^16 of them (for the first block: other than 0 or 1 modulo 2^16; after number 0: other than 2^16 - 1). |
| NcmSequence.GlitchHappens | modules/ncm/cdc_ncm.c:448-463 | The failing run: a frame, a larger tx_max and another frame, for any two such values. |
| NcmSequence.StepDiscards | modules/ncm/cdc_ncm.c:448-463 | A step throws a numbered NTB away if and only if it raises tx_max on a running device whose flush has an NTB to fill and nothing that goes in it. |
| NcmSequence.GlitchIff | modules/ncm/cdc_ncm.c:1633-1640 | The receiver's test on two 16-bit numbers: it complains unless the second follows the first modulo 2^16 or both are 0. |
| NcmSequence.IdleUpdateDiscards | modules/ncm/cdc_ncm.c:448-460 | The simplest such step: raising tx_max while nothing is pending, so the hypothesis of the agreement is needed. |
| NcmBackoff.BackoffBounds | modules/ncm/cdc_ncm.c:1239-1273 | Over every run 0 <= tx_low_mem_val <= tx_low_mem_max_cnt <= 10. |
| NcmBackoff.BackoffLengths | modules/ncm/cdc_ncm.c:1239-1273 | Over every run: after back-off was entered k times, at most min(k, 10) small buffers are used, and a step that starts an NTB tries the full size again exactly when that many were. |
| NcmBackoff.BufferSizes | modules/ncm/cdc_ncm.c:1239-1263 | In every state, the size of the buffer a step asks for last: tx_max, or for a small one USB_CDC_NCM_NTB_MIN_OUT_SIZE unless a frame that remained is longer; the frame that comes with the call does not count. |
| NcmRoundTrip.RunRoundTrip | modules/ncm/cdc_ncm.c:1720-1842 | A receiver given every NTB of a run returns 1 each time and passes up exactly the frames without CRC that were neither dropped nor are still held, in order; NTB16 and NTB32, inline and end tables. |
| NcmRoundTrip.BlockRoundTrip | modules/ncm/cdc_ncm.c:1738-1832 | For one NTB with tables of any signatures, the receiver returns 1 and delivers exactly the frames without CRC, in order; its limit of 50 further tables cuts nothing off. |
| NcmRoundTrip.HeaderAccepted | modules/ncm/cdc_ncm.c:1552-1646 | A sent header passes the receiver's checks and yields the first table and the sequence number. |
| NcmRoundTrip.OneTable | modules/ncm/cdc_ncm.c:1649-1717 | A table of a sent NTB passes the receiver's check with the number of its frames, and its link leads to the next table. |
| NcmRx.ReceiverDelivers | modules/ncm/cdc_ncm.c:1749-1832 | On arbitrary bytes at most 51 tables are visited and, when copies succeed, the frames passed up are those of the visited tables up to the first null or invalid entry of each. |
| NcmRx.ReceiverInside | modules/ncm/cdc_ncm.c:1799-1817 | Whatever the bytes are and whichever copies fail, every frame passed up is a slice of the block of length between 14 and rx_max. |
| NcmDelivery.Delivers | modules/ncm/cdc_ncm.c:1720-1842 | For blocks of any sender, from the bytes: given slices that say where the tables of a chain are and which frames they list, with null entries and trailing bytes allowed, the receiver passes up exactly the listed frames up to the first failing copy, and returns 1 if and only if no copy fails and the chain is not broken. |
| NcmDelivery.DeliversAll | modules/ncm/cdc_ncm.c:1720-1842 | If the header is as the receiver asks for, with any length field up to rx_max, and the chain is unbroken, all listed frames are passed up and the receiver returns 1. |
| NcmDelivery.HeaderExactly | modules/ncm/cdc_ncm.c:1552-1583 | A header is accepted if and only if the block has room for a header and a table, starts with the signature, and has a length field of at most rx_max; the field need not be the length of the block. |
| NcmDelivery.HeaderReads | modules/ncm/cdc_ncm.c:1585-1598 | From an accepted header the offset of the first table and the sequence number are read as its slices encode them. |
| NcmDelivery.HeaderRefused | modules/ncm/cdc_ncm.c:1738-1747 | Any other block is refused: the receiver returns 0 and passes up nothing. |
| NcmDelivery.IndexRefused | modules/ncm/cdc_ncm.c:1738-1747 | So is a 32-bit block whose first table is at a negative offset. |
| NcmDelivery.TableReads | modules/ncm/cdc_ncm.c:1649-1717 | A table given by slices verifies with its number of entries, signature and link. |
| NcmDelivery.NoTableExactly | modules/ncm/cdc_ncm.c:1649-1717 | The check of a table fails if and only if its header reaches past the block or its length field is too small or counts more entries than the whole block has room for; where the table starts does not count. |
| NcmDelivery.VerifyExactly | modules/ncm/cdc_ncm.c:1649-1717 | For any offset, also a negative one: only the end of the table's header has to be inside the block, and the length is read from wherever the table starts. |
| NcmRx.DatagramsAreLeading | modules/ncm/cdc_ncm.c:1780-1817 | The datagrams of a table are those of its leading good entries, one for one. |
| NcmRx.Leading | modules/ncm/cdc_ncm.c:1793-1806 | The entries before the first null or invalid one: all of them are good and the next one is not. |
| NcmReceiver.Receiver.VerifyNth | modules/ncm/cdc_ncm.c:1552-1646 | Accepts a header exactly when it should, returns the first offset, moves rx_seq and counts a glitch. |
| NcmReceiver.Receiver.ReadEntries | modules/ncm/cdc_ncm.c:1780-1817 | The entry loop computes the recursive walk over the entries. |
| NcmReceiver.Receiver.Fixup | modules/ncm/cdc_ncm.c:1720-1842 | The goto loop with its counter computes the recursive walk over the chain, for any bytes and any failing copies. |
| NcmParams.AlignmentParams.FixModulus | modules/ncm/cdc_ncm.c:656-698 | Both moduli become powers of two of at least 4, a good one is kept and only a good one, the remainder is below the modulus and the payload behind the Ethernet header meets the device's remainder. |
| NcmParams.AlignmentParams.FixRemainder | modules/ncm/cdc_ncm.c:690-697 | The mask with modulus - 1 on the wrapping 32-bit difference gives the frame's remainder. |
| NcmParams.LowBitIff | modules/ncm/cdc_ncm.c:670-684 | A number equals its lowest bit if and only if it is a power of two: the meaning of the val == (-val & val) test. |
| NcmParams.AndNegate | modules/ncm/cdc_ncm.c:670-684 | Masking a number with its two's complement leaves its lowest bit. |
| NcmParams.ModulusIsSane | modules/ncm/cdc_ncm.c:656-687 | The sanitised modulus is a power of two of at least 4 and equals the given one if and only if that one was good or 4. |
| NcmParams.AdjustedIsMod | modules/ncm/cdc_ncm.c:695-697 | The masked 32-bit difference is the remainder that, with the Ethernet header added, is congruent to the given one. |
| NcmParams.AlignMacro | modules/ncm/cdc_ncm.c:1075-1078 | The mask form of ALIGN equals rounding up to a multiple, for powers of two. |
| NcmParams.PayloadOffset | modules/ncm/cdc_ncm.c:695-697 | An offset congruent to the adjusted remainder puts the payload behind the Ethernet header where the device wants it. |
| NcmParams.SaneMaxDatagrams | modules/ncm/cdc_ncm.c:590-593 | tx_max_datagrams is between 1 and CDC_NCM_DPT_DATAGRAMS_MAX, and unchanged when it already was. |
| NcmBuffer.Buffer.Align | modules/ncm/cdc_ncm.c:1075-1083 | The in-place alignment appends exactly the zero bytes of the specification and stays within the capacity. |
| NcmBuffer.Buffer.Store | modules/ncm/cdc_ncm.c:1344-1348 | A store through a pointer replaces the bytes of the field and no others. |
| NcmWriter.FindTable | modules/ncm/cdc_ncm.c:1109-1115 | Following the chain of indices in the buffer finds the table of the signature, or ends at the last table. |
| NcmWriter.FindNdpFor | modules/ncm/cdc_ncm.c:1088-1141 | The search with its link, push and open stores does to the two buffers what the function on values does, for 16-bit and 32-bit tables. |
| NcmWriter.NewTable | modules/ncm/cdc_ncm.c:1126-1140 | The link goes into the header or the last table, and the new table is opened in the NTB or in the delayed buffer. |
| NcmWriter.AddEntry | modules/ncm/cdc_ncm.c:1339-1354 | The entry's number is read back from the table's length and the entry is written behind the others. |
| NcmWriter.AddTo | modules/ncm/cdc_ncm.c:1339-1356 | The frame is entered and its bytes are appended. |
| NcmWriter.TryFrame | modules/ncm/cdc_ncm.c:1307-1356 | Table, alignment, room check and frame, as the specification of an iteration says. |
| NcmWriter.FillHeader | modules/ncm/cdc_ncm.c:1274-1286 | The header of a new NTB. |
| NcmWriter.AppendDelayed | modules/ncm/cdc_ncm.c:1400-1418 | Moves the delayed table to the end, points the header at it and clears it. |
| NcmWriter.PadTail | modules/ncm/cdc_ncm.c:1429-1437 | The padding to the full buffer, or the byte that forces a short packet. |
| NcmWriter.FinishBuffer | modules/ncm/cdc_ncm.c:1400-1446 | The delayed table, the padding and the block length. |
| NcmContext.Context.Allocate | modules/ncm/cdc_ncm.c:1238-1273 | The full-size attempt and the small one with the back-off counters. |
| NcmContext.Context.Fill | modules/ncm/cdc_ncm.c:1295-1367 | The loop over the caller's and the remaining frame ends in the state of the recursive specification. |
| NcmContext.Context.Conclude | modules/ncm/cdc_ncm.c:1369-1474 | Waits for more frames or sends. |
| NcmContext.Context.FillTxFrame | modules/ncm/cdc_ncm.c:1198-1475 | The whole call changes the fields and buffers as the specification on values says, keeps the invariant, counts the drops and hands the finished buffer over. |
| NcmContext.Context.Submit | modules/ncm/cdc_ncm.c:1517-1548 | Submitting a frame is a step of the run; the returned buffer holds the bytes of the new block. |
| NcmContext.Context.TimerFires | modules/ncm/cdc_ncm.c:1486-1494 | The timer callback is a step of the run. |
| NcmContext.Context.BhRuns | modules/ncm/cdc_ncm.c:1496-1515 | The tasklet is a step of the run: it restarts the timer while the count lasts and flushes then. |
| NcmContext.Context.UpdateTxMax | modules/ncm/cdc_ncm.c:404-474 | The transmit half of a limit change is a step of the run: flush, discard of an empty NTB, new tx_max and min_tx_pkt. |
| NcmContext.Context.SetInterval | modules/ncm/cdc_ncm.c:297-301 | A new interval is a step of the run; 0 clears the pending count. |
| NcmContext.Context.SetMinTxPkt | modules/ncm/cdc_ncm.c:236-250 | A new min_tx_pkt is a step of the run. |
| NcmContext.Context.constructor | modules/ncm/cdc_ncm.c:590-602 | A new context represents the initial state of a run. |
| Bytes.FieldRoundTrip | modules/ncm/cdc_ncm.c:1277-1285 | A little-endian field reads back what was stored, if it fits. |
| WdmFlow.FlowControl | modules/cdc-wdm/cdc-wdm.c:530-562 | In runs without failures: the response URB is never submitted while in flight, a response finds the buffer empty, nothing is lost, submits and owed responses add up to the notifications, and an owed response is being fetched or ready; when idle every notification had one fetch and readers got every byte. |
| WdmDrain.AlwaysDrains | modules/cdc-wdm/cdc-wdm.c:530-672 | From every state of every such run, whatever the device replies: with no further notifications, a number of replies and reader steps bounded by what is owed and wMaxCommand leads to rest, with as many fetches as notifications and every byte returned. |
| WdmDrain.TurnNearer | modules/cdc-wdm/cdc-wdm.c:565-672 | Each reply and each step of a reader keeps the flow invariant and brings rest nearer. |
| WdmFlow.StepFlow | modules/cdc-wdm/cdc-wdm.c:207-283 | Every step of such a run keeps the phase (idle, submitting, in flight, ready) and the balance. |
| WdmFlow.ServiceFlow | modules/cdc-wdm/cdc-wdm.c:530-562 | service_outstanding_interrupt on an emptied buffer leads to idle or to a submit. |
| WdmFlow.FailedSubmitStrands | modules/cdc-wdm/cdc-wdm.c:350-374 | In every idle state of every run without failures so far: no later notification, read, completion or open makes the driver fetch again, until a stall, reset, disconnect or last close, if and only if the submit in the interrupt callback fails with something else than -ENOMEM. |
| WdmFlow.StuckStays | modules/cdc-wdm/cdc-wdm.c:350-359 | When a response is owed and nothing goes on that would fetch it, no sequence of steps without such a rescue submits the response URB. |
| WdmFlow.NoMemoryRecovers | modules/cdc-wdm/cdc-wdm.c:366-371 | After -ENOMEM the scheduled wdm_rxwork submits again. |
| WdmFetch.NextNotificationFetches | modules/cdc-wdm/cdc-wdm.c:551-562 | In every run, after the submit of a reader or of service_interrupt_work has failed and whatever happens then but for notifications and wdm_rxwork: the next notification fetches if and only if the interrupt callback is not busy, the URB is idle and not poisoned, and the device is there. |
| WdmFetch.NoFetchWhenGone | modules/cdc-wdm/cdc-wdm.c:538-548 | Once the device is gone and nobody is on the way to a submit, no sequence of steps submits the response URB. |
| WdmFetch.QuietIsIdle | modules/cdc-wdm/cdc-wdm.c:1380-1384 | In every run: once a reset or disconnect has made the device quiet, the response URB is poisoned and idle, service_interrupt_work neither runs nor is queued, and no reader is inside. |
| WdmWork.NotifyExactly | modules/cdc-wdm/cdc-wdm.c:350-374 | A whole call of wdm_int_callback: the notification is counted, the response is fetched if none is owed or being fetched, and after a failed submit the count stays and only -ENOMEM queues wdm_rxwork. |
| WdmWork.RxExactly | modules/cdc-wdm/cdc-wdm.c:1020-1043 | A whole run of wdm_rxwork: it fetches unless a response is being fetched or the device is gone, and runs again after a failure, except for a poisoned URB, which leaves WDM_RESPONDING set. |
| WdmWork.StallFetches | modules/cdc-wdm/cdc-wdm.c:306-310 | After a stall of the interrupt endpoint wdm_rxwork fetches at once if the URB can be submitted. |
| WdmWork.WorkExactly | modules/cdc-wdm/cdc-wdm.c:1045-1058 | A whole run of service_interrupt_work: it fetches the next response, or wakes up readers once nothing is owed, also because the submit failed. |
| WdmWork.ResetAlone | modules/cdc-wdm/cdc-wdm.c:1362-1398 | A whole reset that meets nobody: the next read is to return -EINTR, a loss and the queued work are forgotten, and the responses that are owed and the bytes in the buffer stay. |
| WdmWork.DisconnectAlone | modules/cdc-wdm/cdc-wdm.c:1258-1290 | A whole disconnect that meets nobody: the URB stays poisoned, no work is queued, and readers do not wait any more. |
| WdmWork.WaitersReturn | modules/cdc-wdm/cdc-wdm.c:597-607 | A reader that waits when a reset begins returns -EIO, and one that waits when the device goes, -ENODEV. |
| WdmWork.OpenForgets | modules/cdc-wdm/cdc-wdm.c:782-786 | The first open forgets the pending error and nothing else. |
| WdmWork.ReleaseFetches | modules/cdc-wdm/cdc-wdm.c:819-824 | Closing the last file leaves nothing owed, so that the next notification fetches, and keeps bytes and errors. |
| WdmQueue.ReadsAreAQueue | modules/cdc-wdm/cdc-wdm.c:565-672 | In every run, with errors, resets and faults: bytes returned followed by bytes waiting equal the accepted responses, the length is within wMaxCommand, and a copy in progress is a prefix of what waits. |
| WdmQueue.InCallbackAppends | modules/cdc-wdm/cdc-wdm.c:259-268 | A completion only appends, so it changes no byte that is waiting. |
| WdmQueue.ConsumeRemoves | modules/cdc-wdm/cdc-wdm.c:656-659 | The shift removes exactly the copied prefix. |
| WdmRead.ReadAlone | modules/cdc-wdm/cdc-wdm.c:565-672 | In every state in which a reader may begin, what the whole call comes to if nobody else does anything meanwhile: the bytes, and what is done about the next response, or the first that applies of -EFAULT, -ENODEV, -ENOBUFS, -EAGAIN, waiting, -EIO, -ERESTARTSYS, the error of a response, and an empty response. |
| WdmRead.CheckExactly | modules/cdc-wdm/cdc-wdm.c:614-643 | The locked check of any reader: an error first, then a lost race, then an empty response, which is dealt with on the spot, otherwise what is in the buffer now. |
| WdmRead.ShiftExactly | modules/cdc-wdm/cdc-wdm.c:654-664 | Once the bytes are copied they are gone from the buffer, and a reader that empties it deals with the next response. |
| WdmRead.FetchEnds | modules/cdc-wdm/cdc-wdm.c:548-562 | A reader that fetches the next response returns its bytes whatever comes of that, and one without bytes waits again or returns the error; after a failure nothing is owed. |
| WdmRead.LastLength | modules/cdc-wdm/cdc-wdm.c:259-269 | In every run, the length that tells an empty response is that of the last response that was stored. |
| WdmErrors.ErrorsAreTold | modules/cdc-wdm/cdc-wdm.c:198-283 | Over every run, with any failures, resets, opens and faults: counting repetitions, the errors that became pending are those that reads returned, those that a reset or an open replaced, the pending one, and the one that a reader is about to return. |
| WdmErrors.CompletionExactly | modules/cdc-wdm/cdc-wdm.c:198-283 | A killed URB brings nothing; other data is stored, lost, or follows a loss; a failure other than a stall is noted if no error is pending; with an error the work item is to serve the next response, without one readers are woken up. |
| WdmErrors.CheckTells | modules/cdc-wdm/cdc-wdm.c:616-623 | A read that has passed the wait is about to return an error if and only if one is pending, namely that one, and afterwards none is. |
| WdmErrors.ReadTells | modules/cdc-wdm/cdc-wdm.c:565-623 | The next read of a device with an error and nothing else returns it, whether it may wait or not, and changes nothing else. |
| WdmErrors.FailureReachesReader | modules/cdc-wdm/cdc-wdm.c:270-279 | In every run without failures so far in which one response is owed: when it fails without data and the work item has run, the next read returns its error. |
| WdmGap.GapReporting | modules/cdc-wdm/cdc-wdm.c:584-588 | In every run in which no reset forgets a loss, each byte a reader got arrived before every loss that no reader was told of. |
| WdmGap.StepGap | modules/cdc-wdm/cdc-wdm.c:1387-1394 | A step keeps the loss invariant if and only if it is not wdm_post_reset clearing a set WDM_OVERFLOW. |
| WdmGap.NoFalseAlarm | modules/cdc-wdm/cdc-wdm.c:584-588 | In every run, resets included, a read returns -ENOBUFS only for a loss that no read has reported yet. |
| WdmGap.ResetHidesLoss | modules/cdc-wdm/cdc-wdm.c:1387-1394 | A concrete run with a reset in which a reader gets a byte that arrived after an unreported loss. |
| WdmForget.MisledExactly | modules/cdc-wdm/cdc-wdm.c:1387-1394 | For every run of a connected device: at no moment can the run go on, without forgetting another loss, to a reader that gets a byte from behind an unreported loss, if and only if no reset of the run clears a set WDM_OVERFLOW. |
| WdmForget.ForgettingMisleads | modules/cdc-wdm/cdc-wdm.c:1387-1394 | From every state in which a reset forgets a loss, whatever is queued, in flight or buffered, some continuation misleads a reader. |
| WdmForget.Honest | modules/cdc-wdm/cdc-wdm.c:584-588 | As long as no reset forgets a loss, no continuation without one misleads a reader. |
| WdmCommand.CommandSafety | modules/cdc-wdm/cdc-wdm.c:418-522 | For any interleaving of writers, completion, reset and disconnect: the command URB is never filled or submitted while in use, no buffer is freed twice or while in flight, and when nobody is writing every buffer was freed. |
| WdmCommand.StepSafe | modules/cdc-wdm/cdc-wdm.c:1362-1398 | Every step keeps the invariant: while the URB is in use WDM_IN_USE or WDM_RESETTING is set, although a reset clears WDM_IN_USE early. |
| WdmCommand.StepOwners | modules/cdc-wdm/cdc-wdm.c:181-194 | Every step keeps exactly one owner for every duplicated buffer: its writer, the URB or the allocator. |
| WdmCommand.SharedKeepsWriter | modules/cdc-wdm/cdc-wdm.c:1372-1383 | Neither completion nor reset takes away what a writer that holds wlock has tested. |
| WdmProgress.NothingLeftOver | modules/cdc-wdm/cdc-wdm.c:488-504 | At rest, in every run: neither flag that keeps writers away is set, no buffer is left over, and the URB takes a submit. |
| WdmProgress.LoneWriter | modules/cdc-wdm/cdc-wdm.c:418-522 | In every run, a writer that finds wlock free, is not interrupted and need not wait has left and released wlock within 13 of its own steps; its command is in flight if and only if the device is neither gone nor in a reset and the free URB takes the submit, otherwise its buffer is freed and neither a flag nor the URB has changed. |
| WdmProgress.WaitsForUrb | modules/cdc-wdm/cdc-wdm.c:457-459 | A blocking writer that finds WDM_IN_USE set waits with wlock, however long, and changes nothing. |
| WdmProgress.RestSends | modules/cdc-wdm/cdc-wdm.c:401-522 | In every run, at rest, a command whose submit succeeds is in flight after that many steps of its writer. |
| WdmProgress.CommandEnds | modules/cdc-wdm/cdc-wdm.c:181-194 | In every run, the four parts of the handler after a completion note the status, free the buffer and clear desc->outbuf and WDM_IN_USE, and change nothing else. |
| WdmProgress.NextWriteTells | modules/cdc-wdm/cdc-wdm.c:428-434 | The status of a completed command is what the next write returns: whatever happens from the moment the handler notes it, if nobody opens the device anew, the next call returns it if it is an error, once, and goes on otherwise. |
| WdmLeave.InterruptedLeaves | modules/cdc-wdm/cdc-wdm.c:415-418 | A writer that is interrupted while it waits for wlock frees its buffer and changes nothing else. |
| WdmLeave.ResetCatchesWriter | modules/cdc-wdm/cdc-wdm.c:455-476 | A writer that waits for the URB when a reset begins leaves with its buffer freed instead of sending, although the reset clears WDM_IN_USE. |
| WdmLeave.NoCommandWhenGone | modules/cdc-wdm/cdc-wdm.c:420-423 | Once the device is gone and no writer is on the way to a submit, no buffer gets into the command URB, whatever happens. |
| WdmLeave.ResetAlone | modules/cdc-wdm/cdc-wdm.c:1362-1398 | In every run, a whole reset that meets neither a writer nor a command changes nothing. |
| WdmLeave.DisconnectAlone | modules/cdc-wdm/cdc-wdm.c:1258-1290 | In every run, a whole disconnect that meets nobody leaves the command URB poisoned and changes nothing else. |
| WdmDevice.Device.InCallback | modules/cdc-wdm/cdc-wdm.c:198-283 | The completion handler on the fields and the byte array does what the specification on values says. |
| WdmDevice.InvStep | modules/cdc-wdm/cdc-wdm.c:198-672 | Every step keeps the queue of bytes, the absence of false alarms, the report of losses unless it forgets one, and flow control unless it is a failure. |
| WdmDevice.Device.Guarantees | modules/cdc-wdm/cdc-wdm.c:565-672 | In a valid object, returned bytes followed by the waiting part of the buffer are the accepted ones, -ENOBUFS is on its way only for an unreported loss, readers were told of losses in time unless a reset forgot one, and a quiet device that never failed has answered every notification. |
| WdmDevice.Device.constructor | modules/cdc-wdm/cdc-wdm.c:1062-1174 | A new device represents the initial state of a run. |
| WdmDevice.Device.Complete | modules/cdc-wdm/cdc-wdm.c:198-283 | wdm_in_callback on the fields is a step of the run, and the object keeps its invariants. |
| WdmDevice.Device.Notify | modules/cdc-wdm/cdc-wdm.c:350-359 | So is the locked section of the interrupt callback with its submit. |
| WdmDevice.Device.IntFails | modules/cdc-wdm/cdc-wdm.c:360-374 | So is what follows when that submit fails. |
| WdmDevice.Device.ReaderWaits | modules/cdc-wdm/cdc-wdm.c:576-612 | So is every bit test of wdm_read and its wait. |
| WdmDevice.Device.ReaderChecks | modules/cdc-wdm/cdc-wdm.c:614-643 | So is the locked check, with its service of an empty response. |
| WdmDevice.Device.ReaderCopies | modules/cdc-wdm/cdc-wdm.c:646-667 | So are the unlocked copy, byte by byte, and the locked shift of the array with the service that follows. |
| WdmDevice.Device.ReaderSubmits | modules/cdc-wdm/cdc-wdm.c:551-562 | So are the unlocked submit of a reader and its end under the lock. |
| WdmDevice.Device.ReaderReturns | modules/cdc-wdm/cdc-wdm.c:584-588 | So are clearing WDM_OVERFLOW and the return. |
| WdmDevice.Device.WorkerGoes | modules/cdc-wdm/cdc-wdm.c:1045-1058 | So is each part of service_interrupt_work. |
| WdmDevice.Device.RxGoes | modules/cdc-wdm/cdc-wdm.c:1020-1043 | So is each part of wdm_rxwork. |
| WdmDevice.Device.ResetBegins | modules/cdc-wdm/cdc-wdm.c:1372-1378 | So is the locked section of wdm_pre_reset. |
| WdmDevice.Device.DisconnectBegins | modules/cdc-wdm/cdc-wdm.c:1269-1273 | So is the locked section of wdm_disconnect. |
| WdmDevice.Device.QuiesceGoes | modules/cdc-wdm/cdc-wdm.c:1380-1398 | So is each later part of reset and disconnect, the one that forgets a loss included. |
| WdmDevice.Device.Release | modules/cdc-wdm/cdc-wdm.c:806-835 | So is closing the last file. |
| WdmDevice.Device.Open | modules/cdc-wdm/cdc-wdm.c:754-804 | So is opening the first one. |
| WdmDevice.Device.Receive | modules/cdc-wdm/cdc-wdm.c:259-269 | The append or the overflow flag. |
| WdmDevice.Device.Consume | modules/cdc-wdm/cdc-wdm.c:656-662 | The in-place shift loop moves the unread bytes to the front. |
| WdmWriter.CommandPath.CallbackGoes | modules/cdc-wdm/cdc-wdm.c:181-194 | Each part of wdm_out_callback is a step of the run, and the object keeps its invariants; that there is a buffer for kfree follows from them. |
| WdmWriter.CommandPath.Guarantees | modules/cdc-wdm/cdc-wdm.c:418-522 | In a valid object the URB was never misused, at most one writer holds wlock, no buffer is freed twice or in flight, and none is leaked. |
| WdmWriter.CommandPath.constructor | modules/cdc-wdm/cdc-wdm.c:1062-1174 | A new object represents the initial state of a run. |
| WdmWriter.CommandPath.Write | modules/cdc-wdm/cdc-wdm.c:401-412 | The first locked section of wdm_write and memdup_user are a step of the run; the call returns the pending error, or goes on if and only if none was pending and the copy succeeded. |
| WdmWriter.CommandPath.WriterGoes | modules/cdc-wdm/cdc-wdm.c:415-522 | So is each later part of wdm_write, from wlock to kfree; that the URB is idle at the submit follows from the invariants. |
| WdmWriter.CommandPath.Complete | modules/cdc-wdm/cdc-wdm.c:181-194 | So is the completion of the command URB. |
| WdmWriter.CommandPath.ResetBegins | modules/cdc-wdm/cdc-wdm.c:1372-1373 | So is setting WDM_RESETTING. |
| WdmWriter.CommandPath.DisconnectBegins | modules/cdc-wdm/cdc-wdm.c:1269-1273 | So is setting WDM_DISCONNECTING. |
| WdmWriter.CommandPath.Open | modules/cdc-wdm/cdc-wdm.c:782-785 | So is the first open, which forgets under wlock how the last command ended. |
| WdmWriter.CommandPath.QuiesceGoes | modules/cdc-wdm/cdc-wdm.c:1374-1398 | So is each later part of wdm_pre_reset, wdm_post_reset and wdm_disconnect. |

## Left out

- NCM probe and bind, control requests, ethtool and link notifications, and MBIM: I/O around the codec.
- The receive half of `cdc_ncm_update_rxtx_max` and `cdc_ncm_check_rx_max`: the same clamp as the transmit half.
- Changing NDP-to-end at run time (`ndp_to_end_store`): the flag is fixed in `Cfg`.
- Statistics other than `tx_dropped`, and the reasons for sending that are counted beside it.
- `ctx->stop` and unbinding: the timer is always allowed to start.
- `usbnet` is a sink: `usbnet_start_xmit(NULL)` is the call of `cdc_ncm_tx_fixup` that it makes.
- Range checks of the sysfs attributes: any interval and any `min_tx_pkt` can be set in the model.
- NcmContext.Context.FillTxFrame: has the integer reading of the room test; the C reading is only proved equal where `NcmSizing.SizingTheorem` applies.
- NcmPadding.ThreePacketsExactly: says when the promise fails for alignments of at most three packets only; that its condition suffices is proved without that (`NcmPadding.BlocksPadLittle`).
- NcmRoundTrip.RunRoundTrip: for frames of several signatures it needs `tx_max_datagrams` to be at most 51, the tables the receiver follows; `CDC_NCM_DPT_DATAGRAMS_MAX` = 40 guarantees that.
- The kernel's panic on a full sk_buff: the buffer methods require room, and the proofs show that it is there.
- What `wdm_write` returns besides the status of an earlier command, and interrupted waits for `rlock`.
- `usb_translate_errors` is not part of this model: a read returns the translation of `rerr`.
- WDM power management (suspend and resume), WWAN, poll, fsync, flush, ioctl, tracing and probe.
- WdmDevice.Device.Release: is one step with no reset under way; the time during which `wdm_release` holds the URBs poisoned and its part in the command protocol are not modelled.
- `resp_count` is unbounded in the model.
- The length of a command, which `wdm_write` cuts off at `wMaxCommand`, and errors of copying it in.
- The interrupt URB itself: notifications may arrive at any time.
- The response and the command protocol are separate models; they share `WDM_RESETTING`, `WDM_DISCONNECTING` and the order of a reset, and each has its own copy of them.
- `modules/dma`, `modules/virtual_pcie`, `modules/dummy_usb` and the sketch modules: simple lists, tables and rings.
