# A verified model of the SATA host controller

The controller moves packets between a Wishbone memory and a serial line through a chain of
clocked state machines. Each of these modules transforms a stream under arbitrary
backpressure. This project states, for the whole of every run, what each of them does to its
stream, proves that the registers do it, and then puts the modules together.

Every clocked module is a class whose fields are the registers and whose `Step` is one clock
edge. Ghost fields record what has passed: the words accepted, the words emitted, the writes
made. Where a module is large, its registers are a value (`Registers`), one clock edge is a
function on them (`Edge`), what passed by is another value (`History`, `After`), the invariant
is proved of those, and the class is proved to make exactly that step, one always block at a
time. A module's inputs are free at every clock, but for what its stream or its bus has to
guarantee, which is then a precondition (`Legal`).

The parts:

- **Link.** A packet gets its CRC appended, is scrambled and framed with SOF, EOF and HOLD; the
  link state machine hands the frame to the line between its own primitives; ALIGN pairs and CONT
  are put in. The receiver takes all of that apart again. `Channel` joins a sender and a receiver
  built as `rtl/sata_link.v` builds them, and proves the round trip for every packet sequence,
  every stall pattern, both skid buffer builds and either endianness, and that a sender whose far
  side goes along accepts the beat it is offered, and has everything on the line, within a bound
  computed from what is inside it. `Handshake` says what the link state machine offers the far
  side over whole runs: grants, requests, flow control, verdicts. `LinkReceiver` joins the packet
  receiver and the link state machine, and proves that a frame is answered R_OK if and only if it
  is intact. `LinkCodec` proves the strength of the CRC on the scrambled line: any damage within
  32 consecutive bits aborts the packet it hits. `Polynomials` says what the CRC register
  computes without its loop: the remainder by the generator of the standard.
- **DMA.** The memory reader, the two gear boxes and the realigning memory writer, at any bus
  width and alignment, under any stalls and acknowledgement delays of a pipelined bus
  (Wishbone B4, chapter 3), the number of clocks they need when each wait is bounded, and the loop
  from memory to memory, its first FIFO included.
- **FIFOs.** The asynchronous FIFO with its Gray-coded pointers and synchronizers, and the
  synchronous one with its bypass register, each refining a queue; and how soon what one side
  of the asynchronous one does is seen on the other.
- **Transport.** The packet arbiter and the splitter, which undo each other, and the command
  machine with its accounts: of the commands, of the lengths it hands out, and of every request
  it makes of the memory writer, the memory reader and the link.
- **Bench models.** The device's frame codec, the latency memory and the multi-clock scheduler.

Words are natural numbers below 2^32 with explicit bits, bytes are bit-vectors, primitives are
the members of an enumeration, and a line word is either a primitive or data.

## Where the code does not do what it is for

Some promises turn out to be false of the code. Each has a lemma with an input that breaks it,
and a theorem that says exactly when it holds.

- **The last beat of a DMA write to memory can be lost.** `r_last` is set from `S_LAST` without
  looking at `S_READY` (`rtl/satadma_s2mm.v:323-324`), so a last beat offered in a clock in which
  the pipeline is full counts as seen but is never taken. `LastBeatLost` builds such a run, on
  every bus of more than 2^LGPIPE words; `Finishes` shows that the last beat is accepted if and
  only if no clock of the transfer met the condition `Loses`, and that everything else about the
  transfer is right in either case. `ShortTransfer` gives a condition that can be checked before
  the request: a transfer over fewer bus words than fill the pipeline never loses it.
- **Memory to line to memory is not a copy.** The receive path turns the four bytes of a word
  around (`rtl/sata_transport.v:331-333`), the transmit path does not
  (`rtl/sata_transport.v:548-551`). `LoopReverses` gives the exact result for every source,
  `LoopCopiesIff` the exact condition for a copy: every group of four bytes is a palindrome.
- **A command of 128 sectors or more moves the wrong number of bytes.** The count goes through a
  16-bit register (`rtl/satatrn_fsm.v:172`); `CountWraps` is the exact condition, with 128 sectors
  coming to nothing at all, and `WholeWrite` shows that what the register holds is moved exactly.
- **A command can return to idle with a request still up.** FSM_DMA_IN_FINAL and FSM_PIO_RXDATA
  are left without a look at `o_s2mm_request`, and FSM_PIO_TXDATA without one at `o_tran_req`
  (`rtl/satatrn_fsm.v:609-674`), so the other side takes a transfer after the command is over.
  `WriterLeftAsked` and `LinkLeftAsked` are such runs. By `AccountsStep` a request is left up if
  and only if the other side was not once seen idle between the call and the return, and the
  next call for it then raises nothing.
- **A power request is never let go of.** L_PMDENY is left on a data word only
  (`rtl/satalnk_fsm.v:523-535`), and a device that is denied answers with SYNC and X_RDY. `Denies`
  shows that while primitives come in the machine goes on saying PMNAK, and that it leaves exactly
  on a data word, or when the PHY is lost.

## Model

| member | source | states |
|---|---|---|
| `Crc.AdvanceCrc` | rtl/satarx_crc.v:200-215 | the 32-step loop is one step of the bit-serial register `Feed` on the bits of the word |
| `Polynomials.Remainder` | rtl/satarx_crc.v:200-215 | what the register computes, said apart from its loop: (c + d) times x^32 is a multiple of the generator with the exponents 32, 26, 23, 22, 16, 12, 11, 10, 8, 7, 5, 4, 2, 1 and 0, and the register is the remainder |
| `Polynomials.RemainderUnique` | rtl/satarx_crc.v:200-215 | no other word of 32 bits is |
| `Polynomials.StartsAt` | rtl/satarx_crc.v:63 | the CRC of nothing is 0x52325032 |
| `Polynomials.OneWord` | rtl/satarx_crc.v:62 | a word 1 taken in by an empty register leaves 0x04c11db7 |
| `Crc.BurstDetected` | rtl/satarx_crc.v:117-131 | if a sequence of words ends in its CRC, no sequence that differs from it within 32 consecutive bits, at any offset and across words, does |
| `Crc.FeedInjective` | rtl/satarx_crc.v:200-215 | different CRC registers stay different whatever is fed to both |
| `Crc.IntactIsClear` | rtl/satarx_crc.v:158-166 | a packet ends in its CRC exactly when feeding all of it, CRC included, clears the register |
| `Scrambler.ScrambleWord` | rtl/satarx_scrambler.v:158-176 | the loop yields the 32 pseudo-random bits and the fill that 32 steps of the LFSR yield |
| `Scrambler.MaskBits` | rtl/satarx_scrambler.v:158-176 | the keystream, said apart from the register: its bits obey k(n) = k(n-1) + k(n-3) + k(n-12) + k(n-16) behind a first 16 that are given, and bit k of mask n is bit 32n + k of it |
| `Scrambler.FirstMask` | rtl/satatx_scrambler.v:79-90 | the first mask of a packet is 0xc2d2768d |
| `Scrambler.FillNeverZero` | rtl/satatx_scrambler.v:79-90 | the LFSR never dies, after any beats |
| `Scrambler.ScrambleTwice` | rtl/satarx_scrambler.v:132-135 | descrambling undoes scrambling on every stream of packets, and both registers agree again |
| `Words.SwapMeans` | rtl/satalnk_txpacket.v:96-155 | SWAP_ENDIAN turns the four bytes of a word around |
| `Words.TopBitFirst` | rtl/satarx_crc.v:200-215 | the bits of a word as the CRC takes them in: the top bit first |
| `Words.CodesDiffer` | rtl/sata_primitives.vh:9-26 | no two primitives have the same code |
| `Packets.CheckAppend` | rtl/satatx_crc.v:81-148 | checking and stripping the CRC undoes appending it: each finished packet comes back whole and unaborted, the open one but for its last word |
| `Packets.AbortIffDamaged` | rtl/satarx_crc.v:158-166 | the last word of a packet carries an abort if and only if the packet does not end in its CRC |
| `Framing.DeframeFrame` | rtl/satatx_framer.v:66-150 | a reader of framed packets gets back each beat once, with its last mark |
| `Framing.DeframeNoHold` | rtl/satarx_framer.v:83-170 | HOLD words on the line change nothing for a reader |
| `Framing.DeframeSquash` | rtl/satarx_framer.v:83-170 | nor does repeating a primitive, SOF included |
| `Framing.OneFrame` | rtl/satarx_framer.v:83-170 | a frame is read as one packet of the data words between SOF and EOF, whatever other primitives lie between them; cut off by WTRM or SYNC it loses the last of them, and is bad unless it had none |
| `Framing.Outside` | rtl/satarx_framer.v:83-170 | outside frames nothing but a SOF changes what is read |
| `Framing.ContCovers` | rtl/satalnk_rmcont.v:59-134 | a CONT takes with it the data words that follow, to the next primitive |
| `Framing.Uncovered` | rtl/satalnk_rmcont.v:59-134 | behind any other primitive every word is passed on but ALIGN |
| `TxCrcStage.TxCrc.Step` | rtl/satatx_crc.v:81-148 | under any backpressure, what left and what is inside is what was accepted with the CRC behind each packet; a beat offered while the output register is free or taken, and no CRC is owed behind it, is accepted |
| `TxScramblerStage.TxScrambler.Step` | rtl/satatx_scrambler.v:75-116 | what left and what is inside is what was accepted, scrambled, with the fill restarted after each packet; a beat offered while the output is free or taken is accepted |
| `TxFramerStage.TxFramer.Step` | rtl/satatx_framer.v:66-150 | up to HOLDs the words issued are the frames of the beats accepted; a word on offer stays, and never runs dry inside a frame; a beat offered in an open frame is accepted when the output is free or taken |
| `TxFramerStage.IssuedReads` | rtl/satatx_framer.v:66-150 | a reader of the words issued reads beats accepted, in order, and all of them between frames |
| `TxPacketStage.TxPacket.Step` | rtl/satalnk_txpacket.v:96-155 | the three stages hand every beat on once; only accepted beats enter and only the word on offer leaves; every clock in which that word can leave gets something done, until the beat on offer is accepted or, whole packets accepted and none on offer, nothing is left |
| `TxPacketStage.TxPacket.NeverStuck` | rtl/satatx_framer.v:66-150 | with whole packets accepted, a frame that is open still has beats on their way to the framer |
| `TxPacketStage.TxPacket.Reads` | rtl/satalnk_txpacket.v:96-155 | a reader of what leaves reads a prefix of the encoded packets, no frame cut off, and all of them once drained |
| `RmContStage.RmCont.Step` | rtl/satalnk_rmcont.v:59-134 | the output is the input without ALIGN, CONT and the words a CONT covers, once each and in order |
| `RxFramerStage.RxFramer.Clock` | rtl/satarx_framer.v:83-170 | a clock is one step of a reader with a one-word delay, and aborts exactly for a frame cut off or opened twice |
| `RxFramerStage.RxFramer.Step` | rtl/satarx_framer.v:83-170 | all beats produced are those a reader finds in all words received; an abort without a cut frame happens with nothing in flight |
| `RxScramblerStage.RxScrambler.Step` | rtl/satarx_scrambler.v:93-150 | until an abort cuts a packet short, the output is the input descrambled and never aborts |
| `RxCrcStage.RxCrc.Step` | rtl/satarx_crc.v:108-198 | until disturbed, the output is the checked input, with the abort decision on the last word |
| `RxPacketStage.RxPacket.Step` | rtl/satalnk_rxpacket.v:90-168 | the three stages hand every beat on once, and an abort comes with a valid word |
| `RxPacketStage.RxPacket.Quiet` | rtl/satarx_framer.v:108-112 | the deframer's abort for a doubled SOF meets empty stages |
| `RxPacketStage.RxPacket.Delivers` | rtl/satalnk_rxpacket.v:90-168 | what has been delivered is the decoded contents of the frames on the line, up to the beats still inside |
| `LinkCodec.DecodeEncode` | rtl/satalnk_rxpacket.v:90-168 | decoding undoes encoding: every packet comes back with its last mark and no abort, in either endianness |
| `LinkCodec.MaskedKeepsErrors` | rtl/satarx_scrambler.v:132-135 | descrambling passes every bit error on unchanged and in its place |
| `LinkCodec.SentOnLine` | rtl/satalnk_txpacket.v:96-155 | a sender puts the masked payload and its masked CRC on the line |
| `LinkCodec.BurstAborts` | rtl/satarx_crc.v:158-166 | a frame damaged on the line within 32 consecutive bits is delivered with an abort on its last word, and all packets before it unharmed |
| `LinkFsmStage.LinkFsm.ClockSend` | rtl/satalnk_fsm.v:215-369 | the exact moves, words and verdict pulses of the four sending states |
| `LinkFsmStage.LinkFsm.ClockIdle` | rtl/satalnk_fsm.v:149-213 | the exact moves and words of the idle, start-up and power management states |
| `LinkFsmStage.LinkFsm.ClockReceive` | rtl/satalnk_fsm.v:373-520 | the exact moves and words of the receiving states |
| `LinkFsmStage.LinkFsm.Clock` | rtl/satalnk_fsm.v:138-560 | the five registers after a clock in any state; losing the PHY overrides all but the states of start-up |
| `LinkFsmStage.LinkFsm.Step` | rtl/satalnk_fsm.v:138-645 | every word taken is presented downstream once and in order; only primitives are inserted, and only HOLDA between SOF and EOF; attempts are successes plus failures plus those dropped or in flight; a frame breaks only by an abort, a SYNC or the loss of the PHY |
| `LinkFsmStage.LinkFsm.ReadsTaken` | rtl/satalnk_fsm.v:229-294 | unless a frame was broken, the far side reads exactly the words taken |
| `LinkFsmStage.VerdictStep` | rtl/satalnk_fsm.v:229-369 | every attempt to send ends in exactly one pulse of s_success, on R_OK alone, or s_failed, unless an abort or the loss of the PHY takes it |
| `LinkFsmStage.OneVerdict` | rtl/satalnk_fsm.v:407-515 | in every run, after each EOF no verdict is offered until the packet receiver has judged the frame; then R_OK or R_ERR as it was judged, once the PHY is ready, and never the other, until a SYNC |
| `LinkFsmStage.WaitsForVerdict` | rtl/satalnk_fsm.v:479-487 | until then the machine stays in L_RCVEOF and offers neither |
| `LinkFsmStage.GoodEndOnly` | rtl/satalnk_fsm.v:479-504 | L_GOODEND is only ever reached from L_RCVEOF, in a clock with m_last and without m_abort, and left on SYNC |
| `LinkFsmStage.DistanceStep` | rtl/satalnk_fsm.v:138-545 | while the far side goes along, every clock of the PHY brings the machine closer to sending |
| `LinkFsmStage.InsertedUnread` | rtl/satalnk_fsm.v:138-560 | harmless insertions do not change what a receiver reads |
| `LinkFsmStage.ForwardsStep` | rtl/satalnk_fsm.v:215-294 | a clock that breaks no frame keeps the words taken equal to the words forwarded |
| `Handshake.Granted` | rtl/satalnk_fsm.v:373-405 | in every run, as long as X_RDY keeps coming in, the third word the PHY takes after the FIFO has found room leaves R_RDY on offer, and R_RDY it stays; a machine with a frame of its own to send gives way |
| `Handshake.GrantHadRoom` | rtl/satalnk_fsm.v:389-405 | the machine is only ever granting because it was asked in a clock in which the FIFO had room, and has been asked at every word since |
| `Handshake.GrantsOnly` | rtl/satalnk_fsm.v:373-387 | R_RDY is newly offered by a machine that grants, or is a word of the packetizer |
| `Handshake.FullNoGrant` | rtl/satalnk_fsm.v:389-405 | while the FIFO is full R_RDY is not newly offered, whatever comes in |
| `Handshake.WaitsForRoom` | rtl/satalnk_fsm.v:389-405 | SYNC is, until there is room |
| `Handshake.GrantStands` | rtl/satalnk_fsm.v:373-387 | a grant stands until a SOF, or until the far side stops asking |
| `Handshake.Opens` | rtl/satalnk_fsm.v:380-387 | a SOF behind a grant opens the frame, and nothing else opens one |
| `Handshake.TakesIn` | rtl/satalnk_fsm.v:407-435 | while a frame comes in and there is room R_IP is offered |
| `Handshake.HoldsOff` | rtl/satalnk_fsm.v:414-444 | a FIFO that fills up is answered by HOLD until it has emptied |
| `Handshake.Acknowledges` | rtl/satalnk_fsm.v:459-477 | a HOLD of the far side is answered by HOLDA until it ends |
| `Handshake.AnswersCut` | rtl/satalnk_fsm.v:427-429 | a frame cut off by WTRM is answered R_ERR until a SYNC |
| `Handshake.StillReceiving` | rtl/satalnk_fsm.v:479-488 | from the EOF to the verdict R_IP is offered |
| `Handshake.Asks` | rtl/satalnk_fsm.v:198-227 | a machine with a frame to send offers X_RDY until R_RDY comes, and then sends, or X_RDY, and then gives way |
| `Handshake.Pauses` | rtl/satalnk_fsm.v:246-294 | a HOLD stops the frame with HOLDA until another primitive ends it |
| `Handshake.TakesNothing` | rtl/satalnk_fsm.v:267-294 | and no word of the packetizer is taken meanwhile |
| `Handshake.Awaits` | rtl/satalnk_fsm.v:345-369 | behind its EOF a frame waits with WTRM; R_OK is success, R_ERR and SYNC are failure, and nothing else ends the wait |
| `Handshake.Escapes` | rtl/satalnk_fsm.v:258-265 | an abort breaks the frame off with SYNC at once, until SYNC or X_RDY comes back |
| `Handshake.Denies` | rtl/satalnk_fsm.v:523-535 | a power request is answered PMNAK; L_PMDENY is left exactly when a data word comes in, and no primitive moves it |
| `Handshake.ComesUp` | rtl/satalnk_fsm.v:149-183 | with the PHY up the machine idles three clocks after reset, having offered nothing but ALIGN |
| `Handshake.ComesBack` | rtl/satalnk_fsm.v:546-555 | and three clocks after a PHY that was lost is back |
| `AlignStage.RepeatsStep` | rtl/satalnk_align.v:126-157 | although last_primitive samples the input of the skid buffer, it is right whenever it is used, and S_SCRAMBLED is never reached |
| `AlignStage.InvariantStep` | rtl/satalnk_align.v:162-342 | every clock, in both skid builds and for any continue_en, keeps line and input equal after removing ALIGN and CONT and collapsing repeats |
| `AlignStage.Transparent` | rtl/satalnk_align.v:185-342 | if no CONT was an input, the line reads as the words taken, to a reader of frames too |
| `AlignStage.OnTime` | rtl/satalnk_align.v:162-179 | in every run the line is two ALIGNs, then 256 words, and so on; any other ALIGN on it is an echo of one offered at most ten clocks before; and the input never waits for more than four clocks |
| `AlignStage.FadesStep` | rtl/satalnk_align.v:126-157 | how long an ALIGN at the input can stay in the registers, last_primitive included, CONT at the input or not |
| `AlignStage.ThirdIsCont` | rtl/satalnk_align.v:225-251 | a primitive just taken goes out twice; offered again it goes out as CONT if continue_en is up and as itself if not; anything else as it is |
| `AlignStage.NoCont` | rtl/satalnk_align.v:185-342 | in every run without continue_en and without a CONT at the input, no CONT goes on the line |
| `AlignStage.WaitingStep` | rtl/sata_skid.v:139-192 | a clock that keeps the input waiting brings the next word closer |
| `AlignStage.Align.ClockSkid` | rtl/sata_skid.v:139-192 | the skid register holds a word exactly when one was offered and could not go on |
| `AlignStage.Align.Step` | rtl/satalnk_align.v:126-342 | the registers make the proved step; one word a clock goes on the line, and a word is accepted only when ready |
| `Channel.Channel.TxClock` | rtl/sata_link.v:173-262 | a clock of the sender keeps the whole chain in step; a frame breaks only by the loss of the PHY or a SYNC; and when the far side goes along, something gets done until the beat on offer is accepted or, none being on offer, all is on the line |
| `Channel.Channel.Offer` | rtl/sata_link.v:173-262 | with a far side that goes along, a beat that stays on offer is accepted after no more clocks than there was work, and nothing else is |
| `Channel.Channel.WorkBounded` | rtl/sata_link.v:173-262 | and however the sender stands, there is work for no more than 2849 clocks |
| `Channel.Channel.LineClock` | rtl/sata_link.v:134-145 | so does the arrival of the next line word, at any time |
| `Channel.Channel.RxClock` | rtl/sata_link.v:270-289 | and its arrival at the receiver's link side |
| `Channel.Channel.LineReads` | rtl/sata_link.v:204-262 | the receiver reads no more than the packetizer emitted, no cut frame, and everything once drained |
| `Channel.Channel.RoundTrip` | rtl/sata_link.v:134-289 | for every packet sequence, stall and delay, with no frame broken: what is delivered is what was accepted, in order, with its last marks and without an abort, and all of it once drained |
| `Channel.Channel.IdleClocks` | rtl/sata_link.v:173-262 | whatever a far side that goes along sends back, once there have been more clocks than there was work everything accepted is on the line |
| `Channel.Channel.Arrives` | rtl/sata_link.v:134-289 | once the receiver has been handed the line as it then was, and its first stages are empty, it has delivered every packet |
| `Channel.SourceStep` | rtl/satalnk_fsm.v:644-645 | the packetizer and the state machine never wait for each other |
| `LinkReceiver.Receiver.Clock` | rtl/sata_link.v:204-289 | a clock of the packet receiver and the state machine together: a frame of three payload words or more has its answer due three clocks after its EOF, and keeps it until a SYNC |
| `LinkReceiver.Receiver.Answer` | rtl/satalnk_fsm.v:479-515 | that answer is R_OK if and only if the words of the frame end in their CRC, and R_ERR otherwise |
| `LinkReceiver.Receiver.AnswersBurst` | rtl/satarx_crc.v:158-166 | so a frame damaged on the line within 32 consecutive bits is answered R_ERR |
| `LinkReceiver.NotYet` | rtl/satalnk_fsm.v:484-487 | before that the state machine samples neither m_last nor m_abort of the frame before |
| `LinkReceiver.EndChecks` | rtl/satarx_crc.v:158-166 | the last beat of a packet carries the last mark, and an abort if and only if its words do not end in their CRC |
| `LinkReceiver.FrameOnLine` | rtl/satalnk_rxpacket.v:90-168 | the words of the frame are those on the line, unmasked |
| `LinkReceiver.StagesMove` | rtl/satalnk_rxpacket.v:90-168 | in every clock each stage of the receiver takes over what the one before it had |
| `StreamWriter.InvariantStep` | rtl/satadma_s2mm.v:119-393 | every clock keeps every accepted byte at its place: in memory, in the word on the bus or in the one in hand |
| `StreamWriter.PipedStep` | rtl/satadma_s2mm.v:236-252 | wb_outstanding counts requests exactly, never overflows, and the pipeline is full two short of its end |
| `StreamWriter.Finishes` | rtl/satadma_s2mm.v:271-330 | on going idle without an error memory is as before but for exactly the bytes accepted, from i_addr on, each written once and acknowledged; the last beat was accepted if and only if it was not lost |
| `StreamWriter.Completes` | rtl/satadma_s2mm.v:271-330 | when neither stalls, nor late acknowledgements, nor pauses of the stream keep it waiting for more than D clocks in a row, a transfer ends within a number of clocks computed from the work left and D |
| `StreamWriter.ProgressStep` | rtl/satadma_s2mm.v:271-390 | every clock in which the bus or the stream moves gets something done, and so does every clock in which the module waits for neither |
| `StreamWriter.RunInvariant` | rtl/satadma_s2mm.v:119-393 | all runs from reset keep the invariant |
| `StreamWriter.LastBeatLost` | rtl/satadma_s2mm.v:323-324 | on every bus of more than 2^LGPIPE words a legal run ends idle and without an error, its last beat never accepted |
| `StreamWriter.ShortTransfer` | rtl/satadma_s2mm.v:236-252 | in every run, a transfer over fewer bus words than fill the pipeline never loses its last beat, and ends with all of it accepted |
| `StreamWriter.Starts` | rtl/satadma_s2mm.v:271-330 | an idle module starts exactly when asked, at the address asked for and with nothing in it |
| `StreamWriter.FailureEnds` | rtl/satadma_s2mm.v:271-330 | o_err goes up exactly for a bus error or a write of the top word of memory; the bus is let go in that clock, and the module idle, o_err down, no later than one clock after it |
| `StreamWriter.LoseStep` | rtl/satadma_s2mm.v:392-393 | the clock that loses it: the beat is refused and the transfer counts as complete |
| `StreamWriter.S2mm.Compose` | rtl/satadma_s2mm.v:176-230 | the byte loops merge a beat into two bus words, lane by lane |
| `StreamWriter.S2mm.ClockBus` | rtl/satadma_s2mm.v:271-330 | the branches of the bus machine make the proved step |
| `StreamWriter.S2mm.ClockAddr` | rtl/satadma_s2mm.v:271-330 | so do its address registers |
| `StreamWriter.S2mm.Step` | rtl/satadma_s2mm.v:119-393 | one clock of all registers, and the copy that has been made when busy falls |
| `StreamReader.SizesAgree` | rtl/satadma_mm2s.v:155-272 | the request sizes of a 32-bit bus, which share the arithmetic of smaller sizes, and those of wider buses are the same: the rest of the transfer, a word at most |
| `StreamReader.NextSizeIsChunk` | rtl/satadma_mm2s.v:155-272 | every request covers exactly the bytes wanted of its bus word |
| `StreamReader.InvariantStep` | rtl/satadma_mm2s.v:278-857 | every clock keeps requests, acknowledgements and beats in step, whatever the stalls and delays |
| `StreamReader.ShiftedWord` | rtl/satadma_mm2s.v:745-795 | a returned word, shifted, begins with the bytes wanted |
| `StreamReader.Finishes` | rtl/satadma_mm2s.v:278-366 | on going idle without an error the beats are one packet whose bytes are memory[addr..addr+len), no beat empty, the last mark on the final beat alone, nothing left on the bus |
| `StreamReader.Completes` | rtl/satadma_mm2s.v:278-366 | when neither stalls nor late acknowledgements keep it waiting for more than D clocks in a row, a transfer ends, its packet delivered, within a number of clocks computed from the bytes to come and D |
| `StreamReader.OutstandingBound` | rtl/satadma_mm2s.v:631-641 | requests outstanding never outnumber the bytes to come, so wb_outstanding, as wide as i_transferlen, never wraps |
| `StreamReader.OverTheTop` | rtl/satadma_mm2s.v:278-366 | o_err goes up for a transfer over the top of memory, and in the clock in which the request for the last word is taken with more to ask for; the bus is let go in that clock, and no other raises it but a bus error |
| `StreamReader.Starts` | rtl/satadma_mm2s.v:278-366 | an idle module starts exactly when asked, with a request for the word that holds the first byte wanted |
| `StreamReader.FailureEnds` | rtl/satadma_mm2s.v:278-366 | a failure lets go of the bus at once and leaves no request; the module is idle a clock later |
| `StreamReader.Mm2s.Step` | rtl/satadma_mm2s.v:278-857 | one clock of all registers, and the packet delivered when busy falls |
| `PackingGears.InvariantStep` | rtl/satadma_rxgears.v:98-264 | for any width and stalls, fill stays below two words, every beat but a packet's last is full, and packets accepted are packets sent followed by the register |
| `PackingGears.PacketsKept` | rtl/satadma_rxgears.v:266-271 | packets come out with their bytes and boundaries, all of them once the register is empty |
| `PackingGears.Progress` | rtl/satadma_rxgears.v:98-134 | while the output is taken a beat on offer is accepted unless a finished packet has a word or two to send first, and one of those is sent each clock |
| `PackingGears.RxGears.Shift` | rtl/satadma_rxgears.v:192-264 | the mask loop and the shifts yield the lanes of the specification |
| `PackingGears.RxGears.Step` | rtl/satadma_rxgears.v:98-271 | one clock of all registers |
| `UnpackingGears.ConservedStep` | rtl/satadma_txgears.v:94-440 | the same conservation when bus words are cut to beats of any of the four sizes, on 32-bit and wider buses |
| `UnpackingGears.PacketsKept` | rtl/satadma_txgears.v:435-440 | packets come out with their bytes and boundaries in beats of the size asked for |
| `UnpackingGears.Progress` | rtl/satadma_txgears.v:94-440 | while the output is taken every clock sends a beat of what is inside, and takes the next word with the last of it, unless that ends a packet |
| `UnpackingGears.TxGears.Step` | rtl/satadma_txgears.v:94-440 | one clock of all registers |
| `DmaLoop.GearsKeepPackets` | rtl/satadma_txgears.v:94-440 | cutting undoes packing at every beat size: at any time the packets out are the first of those in, byte for byte, and all of them once both gear boxes are empty |
| `DmaLoop.FedStep` | rtl/sata_transport.v:423-480 | although the reader does not look at M_READY, if each request finds room for its bytes in the FIFO behind the packing gears, then that FIFO is never full when the gears have a word for it, and the gears are ready for every beat of the reader, from one transfer to the next |
| `DmaLoop.ToComeStep` | rtl/satadma_rxgears.v:98-134 | each word the packing gears send is one less to come, and bytes taken in are counted already |
| `DmaLoop.ChunkHasRoom` | rtl/sata_transport.v:472-486 | a FIFO of two chunks that is short of half full by the two words the gears may still hold has room for a chunk |
| `DmaLoop.StagesFit` | rtl/sata_transport.v:509-562 | what each of the other stages hands on is what the next one demands |
| `DmaLoop.BytesArrive` | rtl/sata_transport.v:318-346 | the writer is handed the bytes of the reader, each group of four back to front |
| `DmaLoop.LoopReverses` | rtl/sata_transport.v:318-346 | reader, packing, cutting, line, packing and writer, drained: each group of four bytes arrives back to front at the right place, and nothing else in memory changes |
| `DmaLoop.CopiesIff` | rtl/sata_transport.v:548-551 | turning the bytes around changes nothing if and only if every group of four is a palindrome |
| `DmaLoop.LoopCopiesIff` | rtl/sata_transport.v:548-551 | the destination holds the bytes of the source if and only if that is so |
| `DmaLoop.NotACopy` | rtl/sata_transport.v:331-333 | a drained loop that has sent the bytes 1, 2, 3, 4 and holds 4, 3, 2, 1 in memory |
| `DmaLoop.OneWordDrained` | rtl/sata_transport.v:318-346 | a drained loop for every word of a 32-bit bus |
| `DmaLoop.TurnedParcels` | rtl/sata_transport.v:331-333 | what the byte order of the word does to whole packets |
| `DmaLoop.CountSurvives` | rtl/sata_transport.v:401 | a byte count survives the loss of its top bit in the FIFOs |
| `GrayCode.OneBitApart` | rtl/sata_afifo.v:145-187 | consecutive Gray codes, the wrap included, differ in exactly one bit |
| `GrayCode.MixIsOldOrNew` | rtl/sata_afifo.v:196-215 | so a sample of a moving pointer is its old or its new value |
| `GrayCode.HalfWay` | rtl/sata_afifo.v:223-224 | inverting the top two bits moves a pointer half way around |
| `GrayCode.GrayInjective` | rtl/sata_afifo.v:145-187 | codes are equal only for equal pointers |
| `AsyncFifo.FullExact` | rtl/sata_afifo.v:223-224 | the comparison means full against the read count last seen |
| `AsyncFifo.Afifo.Bounded` | rtl/sata_afifo.v:223-232 | the queue never outgrows the memory, and in the registered build the word held ready besides; full and empty are exact against the counts seen; never shown nonempty when it is empty |
| `AsyncFifo.Afifo.SeenInTime` | rtl/sata_afifo.v:196-212 | what has been written is seen after NFF + 1 edges of the read clock, and what has been read after as many of the write clock |
| `AsyncFifo.Afifo.InTime` | rtl/sata_afifo.v:223-227 | from then on the FIFO is not empty before those words have been read, and not full before a whole memory has been written behind those |
| `AsyncFifo.Afifo.WriteClock` | rtl/sata_afifo.v:145-204 | an edge of the write clock, with any sample, appends the word unless full, and brings what has been read one edge closer to being seen |
| `AsyncFifo.Afifo.ReadClock` | rtl/sata_afifo.v:169-260 | an edge of the read clock removes the head, the word shown, unless empty, in both read builds; brings what has been written one edge closer to being seen; and what is seen when it comes can be read behind it |
| `SyncFifo.HeadsStep` | rtl/sata_sfifo.v:205-240 | memory and bypass together always show the head |
| `SyncFifo.Sfifo.Exact` | rtl/sata_sfifo.v:98-244 | under every option fill, full and empty are exact, and the data shown is the head, or the word coming in |
| `SyncFifo.Sfifo.Step` | rtl/sata_sfifo.v:98-244 | a clock makes the moves of a queue, read and write at once included |
| `TxArbStage.InvariantStep` | rtl/satatrn_txarb.v:88-150 | every clock keeps packets whole: only the source of the open packet goes on |
| `TxArbStage.SplitsBack` | rtl/satatrn_txarb.v:88-150 | the stream sent splits into each source's packets, in order, whatever the gate does |
| `TxArbStage.Takes` | rtl/satatrn_txarb.v:88-150 | when the output is free the source of the packet under way is taken, else data let through the gate, behind the header 0x46000000, else registers; when it is not, nobody is |
| `PacketSplit.TypeOnTop` | rtl/satatrn_rxregfis.v:80-188 | the FIS type is the top byte of the first word |
| `TxArbStage.TxArb.Step` | rtl/satatrn_txarb.v:88-150 | one clock of all registers |
| `RxRegFisStage.RxRegFis.Step` | rtl/satatrn_rxregfis.v:80-188 | since the last link error the two outputs are the register packets whole and the data packets without their first word; an error forgets the packet it cuts off |
| `MergeSplit.MergeThenSplit` | rtl/satatrn_rxregfis.v:80-188 | the splitter fed from the arbiter gives both sources' packets back intact, and all of them once drained |
| `TransportFsm.InvariantStep` | rtl/satatrn_fsm.v:412-723 | commands started are return_to_idle pulses plus the one under way, link loss included; the lengths of a DMA write are those of its chunks, and each length of a PIO write is that of the first |
| `TransportFsm.ChunkedStep` | rtl/satatrn_fsm.v:676-693 | one more activation moves min(2048, remaining), and sums stay exact |
| `TransportFsm.WholeWrite` | rtl/satatrn_fsm.v:676-704 | the lengths never sum to more than dma_length, and to all of it exactly when nothing is left, which takes enough activations |
| `TransportFsm.CountWraps` | rtl/satatrn_fsm.v:543-555 | dma_length is 512 bytes a sector if and only if there are fewer than 128 sectors |
| `TransportFsm.AccountsStep` | rtl/satatrn_fsm.v:412-723 | in every run, since its command began: a DMA read has called for the memory writer once, a PIO read once for each setup acted on, a DMA write for the reader and the link once for each Activate and a PIO write once for each setup, and none of them for anything else; each call raises the request unless it is still up, which the reader's never is; a request is up from its call until the other side has been seen idle |
| `TransportFsm.EdgeRequests` | rtl/satatrn_fsm.v:574-704 | which inputs raise and lower each of the three requests, in every state |
| `TransportFsm.Returns` | rtl/satatrn_fsm.v:464-723 | return_to_idle is pulsed exactly when the link is lost in a command, or by what ends it: the register FIS, for a DMA read the writer at rest after that, for a PIO read a register FIS after a setup with BSY clear |
| `TransportFsm.SendEnds` | rtl/satatrn_fsm.v:646-704 | data is being sent until the reader, and for a DMA write the link, has taken its request and come to rest; two clocks at rest are enough |
| `TransportFsm.WriterLeftAsked` | rtl/satatrn_fsm.v:656-674 | a DMA read that returns to idle with o_s2mm_request still up |
| `TransportFsm.LinkLeftAsked` | rtl/satatrn_fsm.v:646-654 | a PIO write that returns with o_tran_req still up |
| `TransportFsm.SetupUnheard` | rtl/satatrn_fsm.v:609-626 | a PIO setup that comes in FSM_PIO_RXDATA is passed over: the clock is as without it |
| `TransportFsm.TranFsm.Clock` | rtl/satatrn_fsm.v:412-723 | the branches of all eleven states make the proved step |
| `TransportFsm.TranFsm.Step` | rtl/satatrn_fsm.v:412-723 | one clock, with the accounts of lengths and of requests |
| `LatencyMemory.PopStep` | bench/cpp/memsim.cpp:175-182 | the slot that leaves the ring answers the oldest request or none |
| `LatencyMemory.PushStep` | bench/cpp/memsim.cpp:184-198 | a request joins behind all others without disturbing them |
| `LatencyMemory.MemSim.WriteSlot` | bench/cpp/memsim.cpp:184-195 | the search never puts a write's acknowledgement before an older one |
| `LatencyMemory.MemSim.Accept` | bench/cpp/memsim.cpp:184-250 | a read is answered from memory as it is at acceptance; a write changes exactly its byte lanes |
| `LatencyMemory.MemSim.Apply` | bench/cpp/memsim.cpp:148-259 | with the bus held each accepted request is acknowledged once, in order and within the delay, and reads bring the word held when they were accepted; a write changes only the word addressed, and of that, lane by lane, exactly what is enabled |
| `LatencyMemory.MemSim.Brings` | bench/cpp/memsim.cpp:199-231 | a byte lane holds what the last write to it brought, whatever was accepted since |
| `LatencyMemory.MemSim.BringsZero` | bench/cpp/memsim.cpp:75-76 | and zero before the first |
| `LatencyMemory.LeastPower` | bench/cpp/memsim.cpp:72-74 | memory is the least power of two that is enough |
| `LatencyMemory.Wraps` | bench/cpp/memsim.cpp:74-80 | addresses a memory size apart, and calls a ring size apart, meet in the same place |
| `LatencyMemory.FirstLap` | bench/cpp/memsim.cpp:74-80 | and those within it are their own places |
| `LatencyMemory.MemSim.Release` | bench/cpp/memsim.cpp:148-161 | letting the bus go forgets all that is pending |
| `ClockScheduler.TbClock.TimeToEdge` | bench/cpp/tbclock.h:71-101 | the time to the next edge is positive and at most half a period, so neither assertion fails |
| `ClockScheduler.TbClock.Advance` | bench/cpp/tbclock.h:121-140 | level, period count and edges after moving on by no more than that |
| `ClockScheduler.TbClock.EdgeParity` | bench/cpp/tbclock.h:63-69 | edges lie at even times of a clock with an even half period |
| `ClockScheduler.Testb.EdgesAhead` | bench/cpp/testb.h:193-202 | the soonest edge is more than a picosecond away, so the assertion holds |
| `ClockScheduler.Testb.Tick` | bench/cpp/testb.h:193-236 | all clocks move to exactly the next edge of some clock and past none; the callbacks of exactly the falling clocks run, once a period |
| `DeviceModel.SataSim.SendFrame` | bench/cpp/satasim.cpp:297-308 | the device puts the masked payload and its masked CRC on the line |
| `DeviceModel.SataSim.ReceiveFrame` | bench/cpp/satasim.cpp:311-363 | the device takes in the words unmasked, and has found the CRC good after the last if and only if it is |
| `DeviceModel.HostToDevice` | bench/cpp/satasim.cpp:311-363 | the frame the design's packetizer puts on the line is taken in as its payload, with its CRC found good |
| `DeviceModel.DeviceToHost` | bench/cpp/satasim.cpp:297-308 | the frame the device sends is delivered by the receive path unchanged and unaborted, behind any whole frames |

## Left out

Not modelled, with the reason:

- The serial transceiver, its power-up sequence, OOB signalling, the 8b/10b tables, the reset and
  pulse stretching helpers and the Wishbone arbiter: vendor macros, analog timing, table checks or
  one-branch facts.
- Debug outputs, `o_error`, `o_ready` and `o_phy_reset` of the link state machine, and the zeroing
  that `OPT_LOWPOWER` adds: no data passes through them.
- Resets in the middle of a run, and the soft reset of the gear boxes: every run starts at reset,
  and the two clocks of the asynchronous FIFO share one. The loss of the PHY is modelled in the
  link state machine and the receiver.
- Transfer sizes other than SZ_BUS and a constant address: the transport layer never asks for them.
- The FIFO between the line clock and the link clock of the receiver: the design does not look at
  its full flag, so in `Channel` it is a delay that never drops a word.
- `M_READY` of the descrambler and of the CRC checker: the packet receiver ties it high.
- The shadow registers and the Wishbone decoder of the command machine: a recognised command
  arrives as an input. No claim is made about addresses from one chunk to the next.
- The device simulator's own link and OOB states, its responses and its messages. It drops a
  payload word that equals the running CRC, so the words it stores are not claimed, only those it
  takes in.
- Text output of the bench models, and the 32-bit nanosecond counters.
- The scrambling mask inside `satalnk_align.v`: the state that uses it is proved unreachable
  for legal inputs, so the mask is an arbitrary input.

Stated for less than every input the registers could see:

- Channel.Channel.RoundTrip: for runs in which no frame is broken off; after a SYNC in the middle of a frame the
  framer's remaining words stay queued, and the code makes no promise. Both sides scramble and
  check, as the link is configured by default.
- RxPacketStage.RxPacket.Delivers: with the CRC check enabled and the PHY up since the first word;
  with the check disabled a doubled SOF right behind an EOF can drop the last word.
- LinkReceiver.Receiver.Answer: for frames of at least three payload words, with the CRC check enabled and the PHY up
  since the first word; behind another frame a shorter one can be answered by the `m_last` left from that, since
  L_RCVEOF samples it without `m_valid`.
- StreamWriter.Finishes: the stream is packed, as the receive gears pack it, and the top word of memory is
  untouched, since writing it raises the error flag even for the last word.
- StreamReader.Finishes: the length is positive and the transfer lies within memory.
- UnpackingGears.ConservedStep: the input is packed, as the packing gears leave it, and the bus width is a multiple of the beat.
- DmaLoop.LoopReverses: the other FIFOs and the link are identities here, and the statement is about the drained loop.
- DmaLoop.FedStep: that each request finds such room is left to the command machine, which does not look.
- RxRegFisStage.RxRegFis.Step: with room in the register FIFO; the design looks at its full flag for some of its
  registers only.
- TxArbStage.InvariantStep: no register packet starts with the type of a data packet; the register FIFO between the clocks is an identity.
- LatencyMemory.MemSim.Apply: the stall, random in the source, is an input, so the result holds for every choice.
