# SunRay2Server: a verified model of the display path

SunRay2Server turns remote framebuffers and terminal text into Sun Ray (ALP) drawing operations and keeps a
lossy UDP display in agreement with them. This project models that path in Dafny and proves what it promises:

- **Encoding** (`operation.dfy`, `tiling.dfy`, `encoder.dfy`, `regions.dfy`). The specification is a decoder: what
  a byte string draws (opcode, big-endian geometry, B,G,R order, row stride, bit order). The methods fill byte
  arrays as the source does, and their operations, decoded, paint exactly the image, each pixel once. The tile search
  is optimal.
- **Transport** (`packing.dfy`, `transport.dfy`, `history.dfy`, `storm.dfy`, `breaker.dfy`, `packets.dfy`,
  `recovery.dfy`, `display.dfy`). A client object with sequence numbers, a bounded history, NACK ranges, replays and the
  storm breaker. Runs are sequences of steps under an explicit nondecreasing clock, with a record of the bytes issued
  under each number and of the requests answered. Datagrams are cut back into operations and drawn, so that "what was
  sent" and "what is replayed" are statements about the screen.
- **Frame coalescing** (`coalescer.dfy`, `framesource.dfy`, `replay.dfy`, `delivery.dfy`, `fullframe.dfy`, `stale.dfy`,
  `wakeup.dfy`). Remote updates, scaled images, full-frame requests, takes and deliveries in any order. Whether a
  pending list may be drawn with final pixels is decided exactly, from its rectangles.
- **Terminal** (`terminal.dfy`, `utf8.dfy`, `parser.dfy`, `emulator.dfy`, `renderer.dfy`, `widecells.dfy`, and
  `sequences.dfy`, `effects.dfy`, `erasing.dfy`, `colours.dfy`, `printing.dfy`). The operations on values carry the
  invariants; the emulator object has the source's methods and loops, each proved to do what the operation on values
  says. What the bytes of each control sequence and character leave is stated about cursor, cells, margins and colours.
- **Scaling and pointer** (`scale.dfy`, `scaled.dfy`, `pointer.dfy`), **keyboard** (`keyboard.dfy`), **ATR**
  (`atr.dfy`), and shared rectangles (`geometry.dfy`).

A class has the source's fields; its ghost `View()` is their value, and its methods' contracts name a function of the
old view. Main results are lemmas about those functions, over every input or every run.

Seven natural claims are false of the code; each has an input that shows it and an exact condition:

- Drawing a pending list with the newest pixels does not always give the newest frame. On every framebuffer at least
  two pixels wide, a run from a new session ends quiet with a wrong screen (`QuietScreenFails`); a list is safe exactly
  as `ExactlySafe` says. The comment at `internal/vnc/session.go:360` promises the newest accumulated state without a
  condition.
- A refused batch can still advance the drawing sequence and the history (`RefusedBatchAdvances`, `SendBatchRefuses`).
- A replay of a part of a batch can paint over what the batch drew later (`LateReplayOverpaints`, `LateExact`).
- A key that is held both in a report's slot and as a modifier is pressed twice (`ModifierInSlotPressesTwice`,
  `ReportExact`).
- Five control sequences can cut a wide character in two (`InRowEditsSplit`, by bytes from a new terminal; `CsiExact`).
- A cursor movement whose count overflows 64 bits goes the other way (`HugeCountMovesBack`; `Forward` in `DownMoves` and
  `SideMoves` has the exact sum).
- A button pressed between the two halves of a pointer tick is released at the remote end (`PressIsLost`, `MaskExact`).

## Model

| member | source | states |
|---|---|---|
| Operations.HeaderExact | internal/display/operation.go:29-37 | The geometry read back from a header is the requested rectangle if and only if the request fits in 16 bits |
| Operations.PutUint16 | internal/display/operation.go:32-35 | A 16-bit store is read back big-endian and leaves every other byte alone |
| Operations.Fill | internal/display/operation.go:54-62 | Decoded, a fill paints exactly its rectangle with its colour |
| Operations.Copy | internal/display/operation.go:67-72 | Decoded, a copy has the given target and source point |
| Operations.Bounds | internal/display/operation.go:45-52 | Opcode, zero origin, and the screen size at bytes 16 and 18; nothing is drawn, and the announced length is the whole operation |
| Operations.InvisibleCursor | internal/display/operation.go:74-81 | Opcode, hot spot, two colours, empty bitmap and mask; nothing is drawn |
| Operations.LocalCursor | internal/display/operation.go:83-105 | Opcode, hot spot, black and orange, then bitmap and mask; nothing is drawn |
| Operations.PackRgbRow | internal/display/operation.go:138-166 | One row is written as B,G,R bytes with zero padding, and no byte outside it changes |
| Operations.BitmapRGB | internal/display/operation.go:131-167 | Fails exactly for rectangles outside the image; decoded, paints exactly the image's pixels at the destination |
| Operations.AssembleBit | internal/display/operation.go:183-186 | A byte assembled from eight flags has flag k as its bit k, counted from the most significant |
| Operations.PackPlaneRow | internal/display/operation.go:181-188 | Setting bits pixel by pixel yields the row's bit plane and touches no other byte |
| Operations.BitmapBiColor | internal/display/operation.go:172-190 | Fails exactly for rectangles outside the image; decoded, paints the image's pixels wherever the image has only the two colours |
| Operations.ApplyAllConcat | internal/display/client.go:144-148 | A display message is a stream: drawing two lists one after the other is drawing their concatenation |
| Tiling.TallestIsBest | internal/display/render.go:361-366 | Among the heights a payload allows for a width, the tallest needs the fewest tiles |
| Tiling.BestTileSize | internal/display/render.go:353-374 | The tile fits the payload; below 1024 pixels no uniform tiling of any width needs fewer tiles, and none as good is wider; above, no wider tile fits |
| Encoder.ClassifyScanline | internal/display/render.go:220-242 | The classification describes the set of colours of the line: one, two in order, or more |
| Encoder.CompatibleIff | internal/display/render.go:257-265 | Lines merge if and only if they have the same one or two colours or both have more |
| Encoder.AppendBitmapTiles | internal/display/render.go:267-282 | Never fails; the appended tiles fit their datagrams and paint each point of the destination exactly once with the image's colour; below 1024 columns no uniform tiling has fewer tiles |
| Encoder.AppendBiColourTiles | internal/display/render.go:284-302 | The same for two-colour tiles; a picture of at most 1412 bytes is one tile |
| Encoder.AppendRun | internal/display/render.go:195-214 | The same for one run of merged lines, whichever of the three forms it takes; a run of one colour is one fill |
| Encoder.AppendEncodedBitmapOperations | internal/display/render.go:181-218 | For every image, rectangle and 16-bit destination the encoder never fails and its operations, decoded from their bytes, paint the destination with the image's pixels, each once, and nothing else; each fits one datagram; a rectangle of one colour takes one operation |
| Encoder.PaintsShows | internal/display/render.go:181-218 | Operations that paint a region make any framebuffer show it and leave every other pixel unchanged |
| Regions.ImageOperations | internal/display/render.go:22-49 | The operations of both batches can be sent, each ends where its header says, and together they leave the centred crop of the image on black, whatever the screen showed; fails exactly for an empty screen or image |
| Regions.OneRegion | internal/display/render.go:330-346 | An update becomes nothing, one native copy, or encoded pixels, with the effect of the update on every screen |
| Regions.RegionOperations | internal/display/render.go:314-351 | The operations can be sent, and do to every screen what the ordered updates do to the picture it shows |
| Display.ShowImage | internal/display/render.go:22-49 | Two batches with the history flushed between them: their datagrams, cut and decoded, draw the operations that show the image; fails exactly for a closed client or an empty screen or image |
| Display.ShowImageRegions | internal/display/render.go:314-351 | The same for the one batch of a list of updates |
| Display.OnFrame | internal/server/server.go:482-499 | The first frame and every resize are shown in full with the cursor behind them, other deliveries by their updates; the screen is that of the delivery |
| Display.DrawDelivery | internal/server/server.go:482-499 | End to end: the datagrams of a delivery, cut, decoded and drawn, leave on every screen what the runs of the queue assume of a delivery |
| Packing.PackFromIsPacking | internal/display/client.go:188-203 | The datagrams' payloads are the operations in order, none split, lost or repeated, each within the limit |
| Packing.PackFromMinimal | internal/display/client.go:188-203 | No order-preserving packing of whole operations needs fewer datagrams |
| Transport.Client.SendEncodedOperations | internal/display/client.go:188-203 | The buffer loop sends the greedy packing |
| Transport.Client.Number | internal/display/client.go:160-170 | Numbers one operation, stores its bytes and drops the entry 8192 back when the history is over its limit |
| Transport.Client.SendBatch | internal/display/client.go:149-173 | Numbers every operation before the first oversized one, sends all of them or nothing |
| Transport.Client.QueueResend | internal/display/client.go:357-381 | Only a valid range outside the cooldown is queued, and it replaces an older one |
| Transport.Client.RecordResendLocked | internal/display/client.go:566-590 | Counts a replay in its two-second window; with the 64th, or with 4096 operations, clears history and counters and starts the cooldown |
| Transport.Client.Resend | internal/display/client.go:431-522 | Answers with a snapshot reset, a replay and completion, or nothing, as the specification function says |
| Transport.Client.ServeRequest | internal/display/client.go:401-418 | The queued request is taken and answered; exactly after a reset the channel is drained and the resync handler is due |
| Transport.Client.CollectReplay | internal/display/client.go:490-498 | The replay list is the history from the first number up to the first gap |
| History.ExtendNearest | internal/display/client.go:613-627 | The extension has the wire value's low 16 bits and is nearest to the current sequence among the non-negative numbers that have them |
| History.ExtendRecovers | internal/display/client.go:613-627 | A number less than half the 16-bit space back is recovered from its low bits |
| History.RecordKeeps | internal/display/client.go:156-171 | Numbering a batch keeps the history the last numbers in a row, at most 8192, each with the bytes issued under it; the counter advances once per drawing operation |
| History.IssuedAsSent | internal/display/client.go:156-171 | The number of an operation is the counter plus the drawing operations up to it, and what is issued under it is the operation as it was encoded |
| History.IssuesPlaced | internal/display/client.go:149-203 | A sent batch stands in the stream of datagrams at the places recorded for its numbers |
| History.SendOperationsPacks | internal/display/client.go:188-217 | The packets sent carry exactly the operations' bytes, each within 1448 bytes, and no packing needs fewer |
| History.SendBatchDelivers | internal/display/client.go:149-173 | A batch of fitting operations always succeeds, is carried completely, and new history entries are what was sent |
| History.SendBatchRefuses | internal/display/client.go:157-159 | A batch with an oversized operation sends nothing; history and counter are untouched if and only if no drawing operation precedes it |
| History.RefusedBatchAdvances | internal/display/client.go:157-159 | A batch of a short and an oversized operation is refused, and yet numbers and remembers the first |
| History.ReplayAllOrNothing | internal/display/client.go:431-522 | An answer replays the whole of from..min(to, current), at most 512 operations, or nothing, or resets the history with a cooldown of two seconds; nothing is sent exactly when the range is empty, its start is gone or the client is closed; the drawing sequence never advances |
| History.ReplayCarries | internal/display/client.go:506-519 | A replay's packets carry the history entries in order, then one packet that echoes the requested end |
| History.CompletionEchoes | internal/display/client.go:531-541 | The completion is one 44-byte message, given byte for byte, whose status field is the requested end |
| History.NackFindsRange | internal/display/client.go:383-399 | For numbers a <= b in the history, a NACK with their low 16 bits, wrapped or not, resolves to exactly a..b and passes the range check |
| History.ExtendTie | internal/display/client.go:613-627 | Up to and including half the 16-bit space away the number keeps the current high bits |
| History.ResolveInOrder | internal/display/client.go:437-446 | Two 16-bit values stand for numbers in order, the second one wrap on if need be; wider values stand for the nearest numbers |
| Recovery.SplitJoin | internal/display/client.go:144-148 | The byte stream of a datagram is cut back into exactly the operations that were joined |
| Recovery.NumberingDrawsSame | internal/display/operation.go:39-43 | Writing the sequence number does not change what an operation draws |
| Recovery.SameTracesExact | internal/display/client.go:144-148 | Two lists of operations have the same effect on every screen if and only if every pixel has the same trace: the last colour painted, or the pixel it was copied from |
| Recovery.BatchDraws | internal/display/client.go:149-203 | Cut, decoded and drawn, the datagrams of a batch of any operations have exactly the effect of the batch on every screen |
| Recovery.PaintingArrives | internal/display/render.go:169-175 | From image to screen: what the encoder paints is what the datagrams show, and nothing else changes |
| Recovery.BatchRemembered | internal/display/client.go:163-170 | Each numbered operation of any batch stands in the history under its own number, as it was sent |
| Recovery.RedrawRestores | internal/display/client.go:431-522 | Whatever operations of an independent batch were drawn before, drawing the batch leaves what the batch alone leaves |
| Recovery.LateExact | internal/display/client.go:431-522 | With any operations of a range lost, drawing the range after everything else gives the batch's screens if and only if later operations agree with it on the pixels they share |
| Recovery.LateReplayOverpaints | internal/display/client.go:431-522 | Red then blue on one pixel, red lost and replayed last, leaves red |
| Recovery.CopyTwiceExact | internal/display/operation.go:67-72 | A copy may be drawn twice without harm if and only if it moves nothing or reads no pixel it writes |
| Recovery.LossRecovered | internal/display/client.go:431-522 | For every batch, every range of it, and whatever was drawn: with room in the breaker's window, a request for the range by its 16-bit numbers is replayed, and restores every screen if and only if what was drawn and the range leave the batch's traces |
| Recovery.RangeRecovered | internal/display/client.go:431-522 | When the terminal lost any part of the range it asks for, it recovers if and only if later operations agree with the range on the pixels they share |
| Recovery.PaintingRecovers | internal/display/client.go:431-522 | A batch that paints every pixel once, as the encoder's do, recovers from the loss of any part of any range |
| Storm.StepKeeps | internal/display/client.go:401-418 | Sending, refused batches, flushing, NACKs, replays and drains keep history, issued bytes, window accounting and queue invariants |
| Storm.StormBound | internal/display/client.go:566-590 | On every run with a nondecreasing clock any closed 2-second interval has at most 126 replays and 16380 replayed operations |
| Breaker.RequestAnswered | internal/display/client.go:431-522 | On every run a request for at most 512 remembered operations resets the history if and only if its window already holds 63 replays or reaches 4096 operations with it, and is replayed otherwise; one for more always resets it |
| Breaker.QuietRequestReplayed | internal/display/client.go:566-590 | Fewer than 63 replays in the last two seconds, and fewer than 4096 operations with the request, always mean a replay |
| Breaker.LimitIsReached | internal/display/client.go:566-590 | From every new open client there is a run with 63 replays at one time, where the next request resets |
| Breaker.CooldownExact | internal/display/client.go:357-399 | On every run requests within two seconds of the last reset are dropped, and later ones wait if and only if their range can be asked for |
| Breaker.DrainReopens | internal/display/client.go:401-418 | Once the queue was emptied after a reset, the first request two seconds later is queued and can be answered |
| Breaker.LossRecoveredOnRun | internal/display/client.go:431-522 | Recovery on every run, with the replays of the last two seconds as its only condition on the breaker |
| PacketNumbers.PacketsNumbered | internal/display/client.go:205-217 | On every run all datagrams have the fixed header with consecutive packet numbers modulo 65536 |
| Storm.HistoryOnEveryRun | internal/display/client.go:156-171 | On every run, refused batches included, the history is exactly the newest numbers with the bytes issued under them, and these stand in the datagrams at their places |
| Storm.IssuedOnce | internal/display/client.go:156-171 | What was issued under a number never changes |
| Storm.ReplaysWhatWasIssued | internal/display/client.go:486-519 | On every run a replay carries, byte for byte and in order, what was first issued under the numbers asked for |
| Storm.AllSent | internal/display/client.go:149-173 | On runs without refused batches everything issued was sent |
| ReplayExactness.RedrawOrigin | internal/display/render.go:328-350 | Every pixel of a redrawn list is the pixel of its origin, traced back through the copies |
| ReplayExactness.ExactlySafe | internal/vnc/session.go:390-407 | Drawing with final pixels reproduces the final picture, for all pixels and earlier pictures, if and only if no copied pixel was redrawn at its place |
| ReplayExactness.NoHazardSafe | internal/vnc/session.go:390-407 | It suffices that no pixel rectangle overlaps the source of a later native copy |
| ReplayExactness.RedrawnSourceFails | internal/vnc/session.go:390-407 | Raw A, copy from A, raw A draws the newer A into the copy |
| StaleCopy.QueueKeepsHazard | internal/vnc/session.go:431-454 | The queue keeps raw A, copy from A, raw A as it is |
| StaleCopy.QuietScreenFails | internal/vnc/session.go:331-407 | On every framebuffer two pixels wide or more, a run of messages, takes and deliveries from a new session ends with nothing pending and a screen that does not show the framebuffer |
| Coalescer.MergeFinalRun | internal/vnc/session.go:437-447 | The in-place loop over the slice computes the recursive merge of the final run of pixel updates |
| Coalescer.AppendChangedUpdate | internal/vnc/session.go:431-454 | The new update is clipped, merged with nearby pixel updates unless it is a copy, and appended, or a full list collapses |
| Coalescer.Session.EnqueueFrame | internal/vnc/session.go:331-358 | New pixels and pending list after a message, with a fresh frame for a new size |
| Coalescer.Session.RequestFullFrame | internal/vnc/session.go:71-84 | The list becomes the whole frame, to be delivered as a resize |
| FullFrame.RequestQueuesRedraw | internal/vnc/session.go:71-84 | In every reachable session with a frame, a request leaves pending pixels that cover all that is visible, the resize flag and a token, and changes nothing else |
| FullFrame.RequestRepairsScreen | internal/vnc/session.go:71-84 | Whatever unsafe lists were drawn before and whatever arrives meanwhile, the next take after a request and its delivery leave a screen that shows the frame taken, and the remote framebuffer if nothing is pending |
| FullFrame.SafeRunStaysSynced | internal/vnc/session.go:360-407 | From then on, on every run whose deliveries are safe lists or full redraws, a quiet screen shows the remote framebuffer |
| FullFrame.PendingIsPosted | internal/vnc/session.go:71-84 | No step leaves work pending for which no token was posted |
| Coalescer.Session.Take | internal/vnc/session.go:390-404 | Hands over the list with a snapshot of its rectangles and empties the queue |
| FrameSource.Connection.ReadFramebufferUpdate | internal/vnc/protocol.go:394-455 | The framebuffer and the change list after the rectangles of a message, or a refusal |
| FrameSource.LastResizeCounts | internal/vnc/protocol.go:426-434 | The framebuffer has the width and height of the message's last resize; a message with one outside 1..8192 is refused |
| FrameSource.SizeKept | internal/vnc/protocol.go:394-455 | Without a resize the size stays |
| FrameSource.RectanglesAccepted | internal/vnc/protocol.go:476-519 | Pixels are refused exactly for empty rectangles and those that leave the framebuffer, copies when either of their rectangles does |
| FrameSource.ResizeAccepted | internal/vnc/protocol.go:426-434 | A resize is refused exactly when a side is not within 1..8192 |
| DisplayDelivery.AppendOk | internal/vnc/session.go:431-454 | Pending rectangles stay inside the frame and at most 127 |
| DisplayDelivery.AppendKeepsCopies | internal/vnc/session.go:431-454 | Copies keep arrival order and none is lost until the list collapses to the whole frame |
| DisplayDelivery.MergesNear | internal/vnc/session.go:431-454 | Two pixel rectangles are merged if and only if the gaps between them are less than 8 |
| DisplayDelivery.CopyAppended | internal/vnc/session.go:431-454 | A copy is appended as it is, unless 127 updates wait |
| DisplayDelivery.AppendExplains | internal/vnc/session.go:431-454 | Merging keeps the list an explanation of how the earlier frame became the new one |
| DisplayDelivery.ReadAllOk | internal/vnc/protocol.go:394-455 | The reported changes lead from the frame before a message to the frame after it; a resize is reported as a full redraw |
| DisplayDelivery.NextKeeps | internal/vnc/session.go:331-407 | Updates, scaled images, full-frame requests, takes and deliveries keep the invariants of queue, delivery and screen |
| DisplayDelivery.CoverageOnEveryRun | internal/vnc/session.go:331-358 | On every run the list is in bounds, at most 127 long, covers every difference from the frame last taken, and after a resize covers all that is visible with pixels |
| DisplayDelivery.QuietScreenShowsRemote | internal/vnc/session.go:360-407 | After any run, once nothing is pending, a screen that was redrawn in full and then only by safe lists shows the centred crop of the remote framebuffer |
| DisplayDelivery.CopyFreeStaysSynced | internal/vnc/session.go:360-407 | Deliveries without copies need no side condition |
| DisplayDelivery.FirstDeliveryResized | internal/server/server.go:482-499 | On every run the first delivery is a full redraw, as the first frame is drawn |
| DisplayDelivery.QuietScreenShowsScaled | internal/vnc/session.go:301-358 | After any run of a scaled session, once nothing is pending, the screen shows the scaled image, with no side condition |
| Wakeup.NoLostWakeup | internal/vnc/session.go:335-404 | In every interleaving pending work implies a token, a producer about to post, or a loop about to take |
| Wakeup.WaitingLoopIsWoken | internal/vnc/session.go:363-389 | A waiting loop with work and no producer about to post can receive and take at once |
| TerminalGrid.ShiftUp | internal/sshclient/terminal.go:347-353 | Keeps grid, cursor and margins in bounds and marks every row whose picture changes |
| TerminalGrid.ShiftDown | internal/sshclient/terminal.go:355-361 | The same |
| TerminalGrid.EraseDisplay | internal/sshclient/terminal.go:413-430 | The same |
| TerminalGrid.LineFeed | internal/sshclient/terminal.go:329-337 | The same, with the cursor's old and new row marked |
| TerminalGrid.PutRune | internal/sshclient/terminal.go:270-298 | The same for printing, with the wrap of wide characters |
| TerminalGrid.Reset | internal/sshclient/terminal.go:535-540 | The same, with every row marked |
| Utf8.FullRuneStable | internal/sshclient/terminal.go:87-98 | A complete or hopeless prefix decodes the same whatever follows |
| Utf8.IncompleteIsShort | internal/sshclient/terminal.go:90-93 | What is kept for later is at most three bytes and a proper prefix of some character |
| Utf8.DecodeEncode | internal/sshclient/terminal.go:94-97 | Every scalar value is decoded from its encoding, whatever follows |
| Utf8.DecodesEncodingsOnly | internal/sshclient/terminal.go:94-97 | What is decoded as a character is its encoding; everything else is one wrong byte |
| TerminalEffects.NewIsSettled | internal/sshclient/terminal.go:51-61 | A new terminal has blank cells in the default colours, full margins and the cursor at home |
| TerminalParser.NearestAmong | internal/sshclient/terminal.go:514-524 | The palette entry chosen is the first of those at least distance |
| TerminalParser.ExecuteCsi | internal/sshclient/terminal.go:189-255 | Every CSI sequence keeps the bounds and marks what it changes; what each one does is stated by the rows of the modules below |
| TerminalParser.Feed | internal/sshclient/terminal.go:65-132 | Any bytes keep the parser's bounds: state, CSI buffer, pending bytes only in plain text and always incomplete |
| TerminalParser.ChunkingInvisible | internal/sshclient/terminal.go:65-132 | From every valid state, writing p and then q reaches the same terminal as writing p+q |
| TerminalParser.ChunksInvisible | internal/sshclient/terminal.go:65-132 | The same for any number of chunks |
| TerminalParser.SplitCharacterPrints | internal/sshclient/terminal.go:69-98 | A character's encoding prints that character wherever it is cut |
| TerminalEffects.UpMoves | internal/sshclient/terminal.go:198-209 | ESC [ n A goes up by n, to the top at most, and F also to the first column; cells and everything else stay |
| TerminalEffects.DownMoves | internal/sshclient/terminal.go:198-209 | B, e and E go down by n, to the bottom at most; a sum above 63 bits goes to the top |
| TerminalEffects.SideMoves | internal/sshclient/terminal.go:198-209 | C, a and D go right and left by n within the row, with the same overflow |
| TerminalEffects.PlaceMoves | internal/sshclient/terminal.go:210-215 | H, f, d, G and ` go to the row and column counted from one, inside the grid |
| TerminalEffects.HugeCountMovesBack | internal/sshclient/terminal.go:198-201 | Down by the largest count goes to the first row |
| TerminalEffects.SavesAndRestores | internal/sshclient/terminal.go:156-187 | ESC 7 and s save the cursor, ESC 8 and u restore it |
| TerminalEffects.RowControls | internal/sshclient/terminal.go:134-154 | CR, BS and TAB move to the first column, one to the left, and to the next multiple of eight |
| TerminalEffects.OtherControls | internal/sshclient/terminal.go:134-154 | The other controls and DEL do nothing |
| TerminalEffects.LineFeeds | internal/sshclient/terminal.go:329-337 | At the bottom margin the old row r+1 is at r inside the margins, a blank row follows, and the rows outside stay; elsewhere the cursor goes down |
| TerminalEffects.ReverseFeeds | internal/sshclient/terminal.go:339-345 | The same upwards at the top margin |
| TerminalEffects.Scrolls | internal/sshclient/terminal.go:232-239 | S and T move the rows inside the margins by n |
| TerminalEffects.LineEdits | internal/sshclient/terminal.go:246-254 | L and M insert and delete n lines between cursor and bottom margin, and do nothing outside the margins |
| TerminalEffects.SetsMargins | internal/sshclient/terminal.go:226-231 | r sets margins that lie in order inside the grid and goes home; others change nothing |
| TerminalEffects.Resets | internal/sshclient/terminal.go:535-540 | ESC c restores every default and blanks all cells |
| TerminalErasing.ErasesLine | internal/sshclient/terminal.go:432-443 | For each mode of K, which cells become blank and that all others stay |
| TerminalErasing.ErasesDisplay | internal/sshclient/terminal.go:413-430 | The same for J |
| TerminalErasing.ErasesCharacters | internal/sshclient/terminal.go:405-411 | The same for X |
| TerminalErasing.InsertsCharacters | internal/sshclient/terminal.go:385-393 | @ puts n blanks at the cursor and moves the rest of the row right by n |
| TerminalErasing.DeletesCharacters | internal/sshclient/terminal.go:395-403 | P moves the row behind n cells left by n and appends blanks |
| TerminalErasing.UnknownIgnored | internal/sshclient/terminal.go:189-255 | A sequence with any other final byte does nothing |
| ControlSequences.CommandSkipped | internal/sshclient/terminal.go:109-122 | ESC ] text ended by BEL or ESC \ leaves the terminal as it was, and the text, ESC before other bytes included, does not end it |
| ControlSequences.CharacterSetSkipped | internal/sshclient/terminal.go:123-127 | ESC ( ) * + takes one more byte and changes nothing |
| ControlSequences.LongSequenceCut | internal/sshclient/terminal.go:100-108 | Of the bytes between ESC [ and the final byte the first 128 matter |
| ControlSequences.ParsesBack | internal/sshclient/terminal.go:257-268 | Numbers of 63 bits written in decimal with semicolons are read back |
| ControlSequences.CsiExecutes | internal/sshclient/terminal.go:99-108 | The bytes of a sequence execute its final byte with its numbers |
| TerminalColours.SelectsColour | internal/sshclient/terminal.go:445-486 | 30+k and 40+k select colour k, 90+k and 100+k its bright form, 39 and 49 the defaults |
| TerminalColours.SelectsAttribute | internal/sshclient/terminal.go:445-486 | 1 and 22 switch bold, 7 and 27 inverse; 0 and no number restore the defaults |
| TerminalColours.OtherAttributes | internal/sshclient/terminal.go:445-486 | Other numbers change nothing |
| TerminalColours.SelectsTrueColour | internal/sshclient/terminal.go:488-526 | 38;2;r;g;b selects the first nearest of the sixteen colours |
| TerminalColours.SelectsIndexed | internal/sshclient/terminal.go:488-526 | 38;5;n selects the nearest to colour n of the sixteen, the cube or the greys |
| TerminalColours.SixteenThemselves | internal/sshclient/terminal.go:514-524 | The nearest to one of the sixteen is itself |
| TerminalColours.AttributesInOrder | internal/sshclient/terminal.go:445-486 | Numbers in one sequence work as in sequences one after the other |
| TerminalPrinting.Widths | internal/sshclient/terminal.go:314-327 | Which characters take no cell, one or two |
| TerminalPrinting.PrintsNarrow | internal/sshclient/terminal.go:270-312 | A character is printed at the cursor in the terminal's colours and the cursor moves on; other cells change only where half a wide character was cut off |
| TerminalPrinting.PrintsNarrowAtEdge | internal/sshclient/terminal.go:270-312 | In the last column a line feed follows |
| TerminalPrinting.PrintsWide | internal/sshclient/terminal.go:270-312 | A wide character fills two cells |
| TerminalPrinting.PrintsWideAtEdge | internal/sshclient/terminal.go:270-312 | Without room for both a line feed comes first |
| TerminalPrinting.PrintsNothing | internal/sshclient/terminal.go:270-312 | Marks and the joiner change nothing |
| TerminalPrinting.ColouredCharacter | internal/sshclient/terminal.go:445-486 | ESC [ 30+k m and a character leave a cell with foreground k; 40+k with background k; ESC [ m with the defaults |
| TerminalPrinting.CursorComesBack | internal/sshclient/terminal.go:156-187 | ESC 7, any bytes without an escape, even a broken character, and ESC 8 bring the cursor back |
| TerminalEmulator.Emulator.constructor | internal/sshclient/terminal.go:51-61 | A new terminal has default state, a blank grid and every row dirty |
| TerminalEmulator.Emulator.WriteBytes | internal/sshclient/terminal.go:65-132 | The loop over the bytes does to the fields what the parser on values does |
| TerminalEmulator.Emulator.ShiftRowsUp | internal/sshclient/terminal.go:347-383 | The copying loop moves the rows up by one, clears the last and marks them |
| TerminalEmulator.Emulator.ShiftRowsDown | internal/sshclient/terminal.go:355-372 | The copying loop moves the rows down by one, clears the first and marks them |
| TerminalEmulator.Emulator.InsertChars | internal/sshclient/terminal.go:385-393 | The row's tail moves right behind blanks |
| TerminalEmulator.Emulator.DeleteChars | internal/sshclient/terminal.go:395-403 | The row's tail moves left before blanks |
| TerminalEmulator.Emulator.EraseLine | internal/sshclient/terminal.go:432-443 | Blanks from the cursor, to the cursor, or the whole row |
| TerminalEmulator.Emulator.SelectGraphics | internal/sshclient/terminal.go:445-486 | The parameter loop sets colours and attributes as the recursive reading does |
| TerminalRenderer.Renderer.Render | internal/sshclient/terminal.go:600-628 | Draws exactly the dirty rows, cleans them, and returns the pixel rectangles of the maximal runs of dirty rows in order; terminal and frame are those of the runs' render step |
| TerminalRenderer.BandsAreDirtyPixels | internal/sshclient/terminal.go:600-636 | The returned rectangles hold exactly the frame's pixels between the margins in dirty rows |
| TerminalRenderer.DrawnCellsReturned | internal/sshclient/terminal.go:630-652 | Whatever the frame's size, every pixel of a redrawn cell lies in a returned rectangle |
| TerminalRenderer.CellPlace | internal/sshclient/terminal.go:590-598 | In a frame with room for the grid the cells lie side by side around the frame's centre |
| TerminalRenderer.RunsStayCurrent | internal/sshclient/terminal.go:600-628 | On every run a clean row's picture is that of its current cells and cursor |
| TerminalRenderer.IncrementalEqualsFull | internal/sshclient/terminal.go:600-628 | After any writes and renders that end with a render, every row is drawn from current cells and cursor |
| WideCells.PutRunePaired | internal/sshclient/terminal.go:270-312 | With two columns or more, printing any character keeps every wide character whole |
| WideCells.EraseLineExact | internal/sshclient/terminal.go:432-443 | Erasing in a line keeps them whole if and only if neither end of the span splits one |
| WideCells.EraseDisplayExact | internal/sshclient/terminal.go:413-430 | Erasing below or above the cursor keeps them whole if and only if its part in the cursor's row does; the other modes always do |
| WideCells.EraseCharsExact | internal/sshclient/terminal.go:405-411 | The same for erasing characters |
| WideCells.InsertCharsExact | internal/sshclient/terminal.go:385-393 | Inserting keeps them whole if and only if neither the cursor nor the column that falls off splits one |
| WideCells.DeleteCharsExact | internal/sshclient/terminal.go:395-403 | Deleting keeps them whole if and only if both cuts are clean or both split one |
| WideCells.CsiExact | internal/sshclient/terminal.go:189-255 | A CSI sequence with any final byte and any parameters keeps them whole if and only if it is not one of the five edits at a cut |
| WideCells.GentleRunsStayPaired | internal/sshclient/terminal.go:65-132 | Every run of bytes in which no sequence cuts a wide character keeps all of them whole |
| WideCells.InRowEditsSplit | internal/sshclient/terminal.go:65-132 | From a new terminal, any wide character, a backspace and ESC [ K, J, X, @ or P leave half a character |
| Scaling.FitIsInsideCentredAndProportional | internal/vnc/scale.go:36-50 | The fit lies in the destination, fills it one way, is centred and keeps the aspect to within a pixel |
| Scaling.MapIsExact | internal/vnc/scale.go:52-62 | The mapped rectangle is exactly the fitted pixels whose source footprint meets the source rectangle |
| Scaling.MapIsNotEmpty | internal/vnc/scale.go:52-62 | A non-empty source rectangle maps to a non-empty part of the fit |
| ScaledSource.ScaleChanges | internal/vnc/scale.go:20-33 | The reported rectangles are together exactly the fitted pixels that show part of a change, and only they are drawn |
| ScaledSource.ScaleFramebuffer | internal/vnc/scale.go:13-34 | In full, the scaled picture on black and the whole canvas reported; otherwise only what shows a change |
| ScaledSource.ScaledSession.HandleFrame | internal/vnc/session.go:301-326 | The scaled image that is enqueued differs from the one before only inside the rectangles enqueued with it, which are the canvas for a first image, a new size or a resize |
| Scaling.TranslateSelectsShownPixel | internal/vnc/session.go:468-475 | Every pointer position selects a framebuffer pixel; inside the fit the position lies in that pixel's mapped rectangle |
| Keyboard.Decoder.Keyboard | internal/display/input.go:45-88 | Refuses short or foreign operations and leaves the state; otherwise the state is the report, the events are its differences, and every event carries the modifier byte of the operation |
| Keyboard.ReportExact | internal/display/input.go:45-88 | A key's events alternate and end in the report's state if and only if it is not held in a slot and as a modifier at once while one of them changes |
| Keyboard.ReportsFold | internal/display/input.go:45-88 | Over any reports with ordinary keys below 0xE0, each key's events alternate and fold to the last report |
| Keyboard.EventOrder | internal/display/input.go:55-83 | Releases precede presses, the modifiers' events stand between the ordinary keys', and in each part the usages ascend |
| Keyboard.ModifierMasks | internal/display/input.go:43 | Usage 0xE0+i is bit i of the modifier byte |
| Keyboard.PressCarriesHeldModifiers | internal/display/input.go:45-88 | Over any run of ordinary reports the event of a pressed ordinary key carries exactly the modifiers that the events before it leave held |
| Keyboard.ModifierInSlotPressesTwice | internal/display/input.go:70-83 | A report with left control in a slot and in the modifier byte presses it twice |
| Pointer.Session.HandlePointer | internal/vnc/session.go:177-252 | A wheel event, a button change or a movement updates mask, queue and messages, at the translated position; nothing for a viewer or without a connection |
| Pointer.Session.SendPointer | internal/vnc/session.go:285-299 | One message with the given mask at the position that the event selects in the framebuffer |
| Pointer.Session.ReceiveMovement | internal/vnc/session.go:266-267 | The first half of a tick takes the waiting movement from the channel |
| Pointer.Session.SendMovement | internal/vnc/session.go:268-277 | The second half sends it on the connection there is then |
| Pointer.PositionInside | internal/vnc/session.go:285-299 | Every event selects a position inside the framebuffer |
| Pointer.TranslationUndoesPlacement | internal/vnc/session.go:456-466 | Without scaling, a pointer over the place where the display shows a framebuffer point selects that point |
| Pointer.MaskExact | internal/vnc/session.go:158-283 | On every run, with ticks split and connections lost and made, the remote button mask is the session's if and only if no event left it behind since it was last brought up to date |
| Pointer.MaskFollows | internal/vnc/session.go:158-283 | It is the session's after every run in which no button changes between the halves of a tick and no connection is made with buttons down |
| Pointer.QueuedCarriesMask | internal/vnc/session.go:186-252 | A waiting movement always carries the session's mask |
| Pointer.PressIsLost | internal/vnc/session.go:266-277 | A press between the halves of a tick is followed at the remote end by the received movement's empty mask |
| Pointer.WheelSendsItsNotches | internal/vnc/session.go:201-237 | A wheel event sends one notch of button 8 for legacy bit 8, one of button 16 for legacy bit 16, then min(abs(delta), 16) of button 8 for a positive and of button 16 for a negative delta, at the event's position, and nothing else |
| Pointer.OthersSendOrWait | internal/vnc/session.go:186-252 | Any other event sends its own mask once if it is new, and otherwise waits |
| AnswerToReset.ParseAtr | internal/smartcard/atr.go:41-117 | The loops compute the specified parse: answer, need for more, or refusal |
| AnswerToReset.ParseIsStable | internal/smartcard/atr.go:41-117 | An answer once given, good or bad, is given for every longer input |
| AnswerToReset.ParseIsPrefixFree | internal/smartcard/atr.go:41-117 | Every shorter prefix of an answer asks for more |
| AnswerToReset.PrintedIsParsed | internal/smartcard/atr.go:41-117 | T0, interface groups, historical bytes and TCK parse back into their parts if they make at most 8 groups and 33 bytes, and are refused otherwise |
| AnswerToReset.TooLongIsRefusedEarly | internal/smartcard/atr.go:41-117 | More than 33 bytes are refused as soon as the interface bytes are there |
| AnswerToReset.WrongCheckIsRefused | internal/smartcard/atr.go:41-117 | With any other TCK the answer is refused |
| AnswerToReset.ParsedIsPrinted | internal/smartcard/atr.go:41-117 | Every parsed answer is the print of at most 8 groups within 33 bytes |
| AnswerToReset.FindAtrs | internal/smartcard/atr.go:120-134 | Exactly the leftmost non-overlapping answers are found |

## Left out

- Sockets, goroutine scheduling, packet pacing, logging and its counters: packets are a sequence, time is a parameter,
  each queue or resend step is atomic.
- Failed sends and the wrap of the 32-bit drawing counter: sends succeed, and lemmas ask for 65536 numbers of headroom.
- Screens of 65536 pixels and more in one direction: the drawing methods ask for less; configuration limits them
  further.
- Recovery.RangeRecovered: asks that no copy of the batch reads a pixel that the batch writes, because a terminal that
  draws an overlapping copy twice shows something else (`CopyTwiceExact`); `LossRecovered` has no such condition. How
  the firmware treats duplicates is not in the source, so they are drawn.
- Recovery.LossRecovered: the range is asked for right after its batch, holds at most 512 operations, and the breaker's
  window has room (`RequestAnswered` says when); otherwise the client answers with a full frame, which
  `RequestRepairsScreen` covers.
- DisplayDelivery.QuietScreenShowsRemote: one connection, and deliveries that succeed.
- Pixel buffers of frames are functions on points: the in-place byte loops of `readRaw`, `readCopyRect` and
  `draw.Draw`, and the parsing of RFB bytes into rectangles, are not modelled.
- The image fast path and the general path of `BitmapRGB` are one: both read a colour per point.
- The terminal's flat cell slice is a sequence of rows, so slice aliasing inside it is not modelled; Unicode's Mn and Me
  tables are a set of code points.
- TerminalRenderer.Renderer.Render: a row's picture is what it is drawn from (its cells and the cursor in it); glyphs
  and colours are not modelled, and a glyph is taken to stay inside its cells.
- ScaledSource.ScaleFramebuffer: the colours that the bilinear scaler computes are a parameter, and incremental scaling
  is not claimed to equal full scaling; what is proved is where it draws.
- Pointer.MaskExact: `HandleInput` is one step, so a tick's send does not come between the messages of one event.
- Key symbols are a constant table from HID codes, without state or branching.
- `inputDecoder.pointer` reads five fixed fields and compares them with the last report; calibration images and targets
  are fixed drawings.
- Configuration, authentication, the server's session switching, RDP, web, SSH and smart-card probing: I/O and wiring.
