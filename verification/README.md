# Drivers and transfer protocols of the capture board

A Dafny model of the parts of this repository that are state machines: the outbound-window allocator and
the zero-copy buffer pool of the PCIe endpoint driver, the MAX3107 SPI UART driver, the sampling loops of the
ADS7846 touchscreen and the DS1307 clock, and two stop-and-wait file-transfer programs.

`dafny verify dfyconfig.toml` checks everything.

## How it is built

Code that changes fields and buffers step by step is a class with loops, and each method is proved against a
function that says what the new state is. What the code is for is then proved about those functions, over
whole runs where there is a device, a second party or a second thread.

| area | specification and theorems | the code |
|---|---|---|
| outbound windows | `OutboundWindows` (the invariant over every session, first fit), `OutboundReplay` (what the refusal codes promise), `OutboundTranslation` (register contents as address translation), `OutboundClearing` (nothing else translates) | `OutboundDriver`, on the bitmap word (`StatusWord`), list and register arrays |
| buffer pool | `PoolProtocol` (ownership, refinement of a FIFO of messages), `BufferLayout` | `BufferPool` (queues, pool, lookup), `EndpointBuffers` (the producer) |
| MAX3107 | `Max3107Device` (registers, FIFOs, status latch, the meaning of SPI words), `Max3107Programs` (what the driver's word programs do), `Max3107System` (all interleavings), and over it `Max3107Coherence`, `Max3107Transmit`, `Max3107Progress`, `Max3107Receive`, `Max3107Drain`, `Max3107LineFormat` (what the settings mean to the device), `Max3107Runs`; `Max3107Calm`, `Max3107Onward`, `Max3107Disorder` and `Max3107Stall` (the conditions on `set_sleep` are exact), and `Max3107Overlap` (runs in which it overlaps) | `Max3107Spi` (the burst loop), `Max3107Settings`, `Max3107Init`, `Max3107Driver`, `Max3107Work`, and `Max3107Simulation` (every call of the work function is a run of the system) |
| sampling loops | `Ads7846` (debounce filter and sample loop), `TouchReport` (touch resistance and events), `TouchRuns` (power states), `Ds1307` | the classes in the same modules |
| file transfer | `Frames` (fragmentation and reassembly), `StopAndWait` (lossy channels), `StopAndWaitDelivery` (a way through when nothing is lost), `LockStep` (lossless channels, with commands) | `Frames.UdpSend`, `Frames.Receiver`, `FrameServer.UdpSend` |

The MAX3107 system takes one SPI word or one decision of the work thread at a time. Between any two of those the
device may send or receive a byte, the tty may queue more, an interrupt may come, and `stop_rx`, `set_termios` or
`set_sleep` may run. The device answers each word as it stands at that moment. `set_sleep` is two steps: it notes
the new MODE1 in the shadow, and its word reaches the device some time later. `Max3107Driver` and `Max3107Work` show
which words the code sends and how it updates the shadow, and `Max3107Simulation` that the system, with the work
thread alone, exchanges exactly these words and gets the same shadow, ring, received bytes and device.

## What the proofs found out about the code

- The layout check at `pcie/pcie_drv/ti81xx_pcie_epdrv.c:1319` adds in 32 bits. Even when the product of count and
  size does not wrap, adding the command area can. The accepted layouts that are sound are exactly those where no
  sum wraps (`BufferLayout.AcceptedLayoutIsSound`, with a counterexample in `WrappedSumIsAccepted`).
- When a product wraps, an accepted configuration can hand the same 32-bit address to two buffers
  (`BufferLayout.AcceptedBuffersCollide`). The exact condition for distinct addresses, and for a lookup that finds
  the right buffer, is that the number of buffers times the lowest set bit of their size is at most 2^32
  (`BufferLayout.AddressesExactlyDistinct`).
- `max3107_set_sleep` transfers MODE1 after it has released the lock, and nothing keeps the work function from sending
  another MODE1 meanwhile. The device can end up with the wrong MODE1 for good, stall with data in its FIFO, or have
  the driver report an empty transmitter too early and then lose a byte (`Max3107Overlap`). Three conditions on single
  steps say exactly when. MODE1 stays coherent throughout a run if and only if all its steps are orderly in the sense of
  `Max3107Coherence.Orderly`, and any other step can lead to a lasting wrong value (`Max3107Overlap.DisorderShows`).
  For the transmitter, call a continuation calm if nobody calls `set_sleep` in it and the work function decides nothing
  while a sleep word is under way. After every step of a run all calm continuations keep the data and the truth of
  `tx_fifo_empty` if and only if all its steps are orderly in the sense of `Max3107Transmit.TxOrderly`: no sleep mode is
  noted while the FIFO could run empty before all bytes to come are in, and the interrupt handler does not switch the
  transmitter off while a sleep word is under way that would switch it on again
  (`Max3107Disorder.TransmitExactlyWhenOrderly`; `DisorderLoses` gives the calm continuation that loses a byte). All calm
  continuations also keep the transmitter going if and only if, besides, no send begins while a sleep word is under way
  (`Max3107Stall.ProgressExactlyWhenOrderly`; such a send can stop the transmitter for good, `SendSticks`).
  All three are met when `set_sleep` runs between two transfers
  of the work function, which waits for it (`Max3107Overlap.SleepsApartAreOrderly`). The other shadows and the receive
  path need no condition.
- A mapping whose bus address is not aligned to the window size is accepted and programmed, but its offsets do not
  reach the requested address. Alignment is the exact condition (`OutboundTranslation.TranslationIsExact`, with an
  instance in `MisalignedIsServed`).
- `close` empties the list of mappings but leaves their windows programmed, and the next `open` declares them free: the
  stale windows go on translating until a new mapping takes them. Windows and list agree after a reopening if and only if
  nothing was mapped at the close (`OutboundClearing.ReopenIsLit`).
- A request of size 0 is always refused (`OutboundWindows.NothingIsRefused`).
- The sending loop of `net_test/dvrrdk_server/dvrrdk_server.c` stops without sending when exactly 1024 bytes are left, and the
  client takes a last chunk with number 1 whose first byte is 0xff for the end of the stream
  (`net_test/dvrrdk_server/client_getdat.c:56`). Frames that meet neither are exactly the ones carried
  (`LockStep.DeliveredExactlyWhenCarried`).
- The baud tables have no entry for 38400, and the entries of the internal-clock table for 460800 and 921600 are zero, which
  `set_termios` takes for missing: such requests silently keep the old rate (`Max3107Settings.IgnoredInstances`). The
  rates that are honoured are exactly the ten both clocks have, and two more with the external clock (`IgnoredRates`).
- With the internal clock the generator misses 57600 baud by one part in 32, 115200 by one in 16 and 230400 by one in 8
  (`Max3107Settings.InternalRates`).
- The touch resistance of the ADS7846 is computed in 32-bit unsigned arithmetic. It is right exactly when z2 is not below z1
  and the product (z2 - z1) * x * x_plate_ohms stays below 2^32 (`TouchReport.EquationTwoIsExact`); 12-bit values on the
  default plate of 400 ohms can exceed that (`HardTouchWraps`).
- `put_dataBuf` acknowledges a frame that it drops because the pool has no empty buffer; the error exit after a failed
  `pcie_buf_setFull` is never taken.

## Assumptions

- Outbound windows: OB_SIZE is 0..3, memory for a mapping can be had, and there is one opener at a time.
- Buffer pool: every call is one atomic step, although the buffer locks compile to nothing
  (`pcie/pcie_drv/kbuf_utils.c:8-29`); it matters because the empty queue has two writers, the reader that gives buffers
  back and the error path of `put_dataBuf`. Queue capacity is at least the number of buffers, there are at most 64,
  clients return only buffers they hold, and reset is called while nobody holds one.
- MAX3107: SPI transfers succeed, and runs begin after `register_init`. The TX buffer has room for 131 words, as the comment at
  `max3107/max3107.c:1129` intends; the byte count allocated at line 1135 is smaller. The three bytes of `brg_cfg` are
  kept separately. The FIFO reset bit of MODE2 empties both FIFOs, and no byte arrives before the reset is released.
  The device takes in a byte only while its RX FIFO has room. One `set_sleep` runs at a time, and the words of two
  transfers interleave as whole words, although the transfers share the array at `max3107/max3107.c:105`.
- DS1307: the world outside is a function from time to register contents, an increasing time for every bus access, and an error
  code for every access.
- File transfer: `char` is unsigned, frames are below 65536 chunks, and the frame counter does not reach the value of the
  next-frame command. In `StopAndWait` messages may be lost but are not doubled or reordered; in `LockStep` nothing is lost.

## Model

| member | source | states |
|---|---|---|
| StatusWord.ClearBitMeaning | pcie/pcie_drv/ti81xx_pcie_epdrv.c:439 | Clearing bit k of the status word changes bit k only |
| StatusWord.RaiseBitMeaning | pcie/pcie_drv/ti81xx_pcie_epdrv.c:476 | Raising bit k changes bit k only |
| StatusWord.NoBitMeansZero | pcie/pcie_drv/ti81xx_pcie_epdrv.c:406 | The test `!status_out` is true exactly when no window is free |
| OutboundWindows.NeededIsLeast | pcie/pcie_drv/ti81xx_pcie_epdrv.c:401-404 | The rounded-up quotient is the least number of windows that holds the size |
| OutboundWindows.OpenAgrees | pcie/pcie_drv/ti81xx_pcie_epdrv.c:686-695 | With an empty list, `open` establishes the invariant between status word, list and registers |
| OutboundWindows.SetOutKeepsAgree | pcie/pcie_drv/ti81xx_pcie_epdrv.c:384-446 | A served or refused request keeps the invariant: live mappings are disjoint non-empty intervals inside 0..30 and the free set is exactly the complement of their union |
| OutboundWindows.ClearOutKeepsAgree | pcie/pcie_drv/ti81xx_pcie_epdrv.c:458-483 | Clearing any key keeps the same invariant |
| OutboundWindows.SessionKeepsAgree | pcie/pcie_drv/ti81xx_pcie_epdrv.c:937-1150 | Every state that any session reaches satisfies it, and close followed by open gives a usable device again |
| OutboundWindows.SessionExists | pcie/pcie_drv/ti81xx_pcie_epdrv.c:937-1150 | Every sequence of calls is a session: no call gets stuck |
| OutboundWindows.FreeAndUsedMakeAll | pcie/pcie_drv/ti81xx_pcie_epdrv.c:395-397 | Free windows and regions in use together are always 31 |
| OutboundWindows.EarlyTestIsSafe | pcie/pcie_drv/ti81xx_pcie_epdrv.c:406 | The early sum test never refuses a request for which a free run exists |
| OutboundWindows.AllocationIsFirstFit | pcie/pcie_drv/ti81xx_pcie_epdrv.c:384-446 | For size > 0 a request is served if and only if some free run is long enough, at the lowest such start, and takes exactly that run |
| OutboundWindows.NothingIsRefused | pcie/pcie_drv/ti81xx_pcie_epdrv.c:401-446 | A request of size 0 is refused and changes nothing |
| OutboundWindows.SetThenClear | pcie/pcie_drv/ti81xx_pcie_epdrv.c:384-483 | Mapping under an unused key and clearing that key restores free windows and list |
| OutboundReplay.PackedFromFresh | pcie/pcie_drv/ti81xx_pcie_epdrv.c:384-446 | From a fresh session a sequence of requests is wholly served if and only if the rounded-up sizes sum to at most 31; the mappings are then packed from window 0 up |
| OutboundReplay.RefusalMeaning | pcie/pcie_drv/ti81xx_pcie_epdrv.c:349-375 | Below 8 MB windows a refusal says INOB if and only if the live requests plus this one, replayed in order from a fresh session at OB_SIZE 3, are all served; NMEM says no window size up to 8 MB serves them; at 8 MB the code is NMEM |
| OutboundReplay.CountersFit | pcie/pcie_drv/ti81xx_pcie_epdrv.c:349-406 | The 32-bit counters of the two sum loops never wrap |
| OutboundTranslation.SetOutKeepsProgrammed | pcie/pcie_drv/ti81xx_pcie_epdrv.c:429-437 | After a request every live mapping still has its own windows programmed, the new one included |
| OutboundTranslation.ClearOutKeepsProgrammed | pcie/pcie_drv/ti81xx_pcie_epdrv.c:471-477 | Clearing one key leaves the registers of every other mapping alone |
| OutboundTranslation.SessionKeepsProgrammed | pcie/pcie_drv/ti81xx_pcie_epdrv.c:384-483 | Over whole sessions that change OB_SIZE only while nothing is mapped, every live mapping stays programmed |
| OutboundTranslation.TranslationIsExact | pcie/pcie_drv/ti81xx_pcie_epdrv.c:411-440 | Every CPU offset inside a live mapping reaches (hi:idx) plus that offset modulo 2^64, if and only if the base is aligned to the window size |
| OutboundTranslation.MisalignedIsServed | pcie/pcie_drv/ti81xx_pcie_epdrv.c:411-440 | After an open a request for one window at bus address 1 is mapped, and the first byte of the mapping already goes astray |
| OutboundTranslation.MsiIsExact | pcie/pcie_drv/ti81xx_pcie_epdrv.c:645-678 | An MSI write lands on exactly its 64-bit address and leaves the registers of windows 0..30 unchanged |
| OutboundWindows.SizesDouble | pcie/pcie_drv/ti81xx_pcie_epdrv.c:957 | OB_SIZE 0 is one megabyte and each step doubles the window |
| OutboundClearing.ClearedMappings | pcie/pcie_drv/ti81xx_pcie_epdrv.c:458-483 | After a clear the list holds exactly the mappings of the other keys |
| OutboundClearing.ClearedTranslatesNothing | pcie/pcie_drv/ti81xx_pcie_epdrv.c:471-477 | After a clear no offset into any mapping that was made under the key reaches a bus address |
| OutboundClearing.OnlyMappedTranslate | pcie/pcie_drv/ti81xx_pcie_epdrv.c:384-483 | In every state of every session an offset below window 31 reaches something if and only if its window belongs to a live mapping; so a cleared window reaches nothing until it is mapped again |
| OutboundClearing.FreshIsLit | pcie/pcie_drv/ti81xx_pcie_epdrv.c:686-695 | With clear registers this holds from the open on |
| OutboundClearing.ReopenIsLit | pcie/pcie_drv/ti81xx_pcie_epdrv.c:490-500 | Close leaves the windows of live mappings enabled: after the next open it holds if and only if nothing was mapped |
| OutboundDriver.FreshWord | pcie/pcie_drv/ti81xx_pcie_epdrv.c:689 | The constant 0x7fffffff is the set of windows 0..30 |
| OutboundDriver.CarryIsOverflow | pcie/pcie_drv/ti81xx_pcie_epdrv.c:434-438 | The test `max_lim - tr_size < start_idx` is exactly 32-bit overflow, so index and high word step to the next 64-bit target |
| OutboundDriver.Driver.OpenDevice | pcie/pcie_drv/ti81xx_pcie_epdrv.c:686-695 | The method does to the concrete state what Open does to the abstract one |
| OutboundDriver.Driver.CloseDevice | pcie/pcie_drv/ti81xx_pcie_epdrv.c:490-500 | Close empties the list and nothing else |
| OutboundDriver.Driver.SetOutboundSize | pcie/pcie_drv/ti81xx_pcie_epdrv.c:957 | Writing OB_SIZE is the SetSize step |
| OutboundDriver.Driver.CheckRegions | pcie/pcie_drv/ti81xx_pcie_epdrv.c:309-330 | The nested counting loops return the first fit, or 31 when there is none |
| OutboundDriver.Driver.CheckReqStatus | pcie/pcie_drv/ti81xx_pcie_epdrv.c:349-375 | The method returns the refusal code of the specification |
| OutboundDriver.Driver.RegionsInUse | pcie/pcie_drv/ti81xx_pcie_epdrv.c:395-397 | The list walk sums the regions of all mappings |
| OutboundDriver.Driver.ProgramWindows | pcie/pcie_drv/ti81xx_pcie_epdrv.c:429-440 | The carry loop writes exactly the index and high words of the mapping, and clears exactly its status bits |
| OutboundDriver.Driver.SetOutRegion | pcie/pcie_drv/ti81xx_pcie_epdrv.c:384-446 | Return code and whole new state are those of the specification function SetOut |
| OutboundDriver.Driver.ClrOutbMap | pcie/pcie_drv/ti81xx_pcie_epdrv.c:458-483 | The removing list walk yields the state of the specification function ClearOut |
| OutboundDriver.Driver.SendMsi | pcie/pcie_drv/ti81xx_pcie_epdrv.c:645-678 | Registers of window 31 are aimed and the write address is the message offset inside window 31 |
| BufferPool.LookupInverts | pcie/pcie_drv/kbuf_utils.c:89-99 | With distinct buffer addresses the linear search gives back the id of every buffer |
| BufferPool.Kfifo.QuePut | pcie/pcie_drv/kfifo_buf.c:42-69 | A put appends at the tail, or waits or fails when the queue is full, changing nothing |
| BufferPool.Kfifo.QueGet | pcie/pcie_drv/kfifo_buf.c:71-102 | A get takes the head, or waits or fails when the queue is empty, changing nothing |
| BufferPool.BufPool.Create | pcie/pcie_drv/kfifo_buf.c:133-177 | Creation fails above 64 buffers; otherwise all ids are in the empty queue in order |
| BufferPool.BufPool.BufReset | pcie/pcie_drv/kfifo_buf.c:179-189 | Reset puts every id back into the empty queue |
| BufferPool.BufPool.Find | pcie/pcie_drv/kbuf_utils.c:95-99 | The scan over the pool finds what Lookup specifies |
| BufferPool.BufPool.GetEmptyBuf | pcie/pcie_drv/kbuf_utils.c:62-87 | Takes the oldest empty buffer |
| BufferPool.BufPool.GetFullBuf | pcie/pcie_drv/kbuf_utils.c:111-138 | Takes the oldest full buffer |
| BufferPool.BufPool.SetFullBuf | pcie/pcie_drv/kbuf_utils.c:140-176 | Records the size and appends the id to the full queue, or reports an unknown address |
| BufferPool.BufPool.SetEmptyBuf | pcie/pcie_drv/kbuf_utils.c:89-109 | Appends the id to the empty queue, or reports an unknown address |
| PoolProtocol.StartInv | pcie/pcie_drv/kfifo_buf.c:133-177 | A new pool satisfies the ownership invariant |
| PoolProtocol.StepKeepsInv | pcie/pcie_drv/kbuf_utils.c:62-224 | Every step of producer or consumer keeps it |
| PoolProtocol.ExactlyOnePlace | pcie/pcie_drv/kbuf_utils.c:62-176 | Every id is in exactly one of: empty queue, full queue, held by the producer, held by the consumer |
| PoolProtocol.HeldPutsSucceed | pcie/pcie_drv/kfifo_buf.c:42-69 | Putting back a held buffer never waits and never fails |
| PoolProtocol.PoolRefinesFifo | pcie/pcie_drv/kbuf_utils.c:62-176 | For every interleaving the (contents, size) pairs got are a prefix of those sent, the rest waits in order in the full queue, and a held message stays intact |
| PoolProtocol.NothingLost | pcie/pcie_drv/kbuf_utils.c:62-176 | Without resets everything that was ever put full has been got or is still waiting |
| PoolProtocol.TakesSucceed | pcie/pcie_drv/kfifo_buf.c:71-102 | A client that asks gets the oldest empty buffer, or the oldest full one with the message that was put into it, unless there is none |
| PoolProtocol.StrangersFail | pcie/pcie_drv/kbuf_utils.c:89-176 | Handing back by an address outside the pool fails and changes nothing |
| PoolProtocol.ResetRefills | pcie/pcie_drv/kfifo_buf.c:179-189 | A reset leaves all ids in the empty queue, in order, and the full queue empty |
| PoolProtocol.Drains | pcie/pcie_drv/kbuf_utils.c:111-138 | As many takes as there are full buffers give the consumer everything that was sent |
| EndpointBuffers.PutDataIsRun | pcie/pcie_drv/ti81xx_pcie_epdrv.c:733-795 | put_dataBuf is a run of the pool protocol, so its invariants and order carry over |
| EndpointBuffers.PutDataNeverLeaks | pcie/pcie_drv/ti81xx_pcie_epdrv.c:733-795 | Each call moves exactly one id from empty to full with its frame, or leaves the empty ids and the full queue as they are; the DATA_ACK bit is raised in either case |
| EndpointBuffers.RaisedStays | pcie/pcie_drv/ti81xx_pcie_epdrv.c:721-731 | Acknowledging leaves the bits that are up |
| EndpointBuffers.RaisedComesUp | pcie/pcie_drv/ti81xx_pcie_epdrv.c:721-731 | And raises the given ones |
| EndpointBuffers.RaisedAlone | pcie/pcie_drv/ti81xx_pcie_epdrv.c:721-731 | And no others |
| EndpointBuffers.AckMeaning | pcie/pcie_drv/ti81xx_pcie_epdrv.c:757-793 | The bits 0x14 are raised if and only if the pool had an empty buffer and the frame was not queued; 0x04 is raised in any case, and no other bit |
| EndpointBuffers.ReaderFindsFrame | pcie/pcie/src/ti81xx_ep.c:202-208 | The reader of a buffer finds the channel in its first byte and the frame behind the fourth |
| EndpointBuffers.GoodFrameIsDelivered | pcie/pcie_drv/ti81xx_pcie_epdrv.c:733-795 | A whole transfer into a pool with an empty buffer adds one message, which reads as that channel and frame, and raises no error bit |
| EndpointBuffers.Endpoint.PutDataBuf | pcie/pcie_drv/ti81xx_pcie_epdrv.c:733-795 | The method has exactly that effect on pool, memory and acknowledge word, and returns -1 with 0x14 raised or else raises 0x04 |
| BufferLayout.AcceptedLayoutIsSound | pcie/pcie_drv/ti81xx_pcie_epdrv.c:1309-1326 | An accepted configuration has all areas pairwise disjoint and inside the reserved memory if and only if none of the sums of the check wraps |
| BufferLayout.AreasFollow | pcie/pcie_drv/ti81xx_pcie_epdrv.c:1426-1445 | Header, command areas and command buffers follow one another without gaps, and so do the data buffers from 2 MB on |
| BufferLayout.CheckIsExact | pcie/pcie_drv/ti81xx_pcie_epdrv.c:1309-1326 | As long as no sum wraps the check accepts exactly the sound layouts, except that without data buffers it still asks for the command area |
| BufferLayout.WrappedSumIsAccepted | pcie/pcie_drv/ti81xx_pcie_epdrv.c:1319-1322 | A concrete configuration with unwrapped products that the check accepts although it does not fit |
| BufferLayout.AddressesIdentifyBuffers | pcie/pcie_drv/ti81xx_pcie_epdrv.c:1426-1445 | When a configuration is accepted and no sum wraps, the 32-bit addresses of each pool are distinct and the lookup inverts id-to-address, wherever the memory lies |
| BufferLayout.AddressesExactlyDistinct | pcie/pcie_drv/ti81xx_pcie_epdrv.c:1426-1445 | For every configuration that can be loaded, accepted or not: the addresses of a pool are distinct and the lookup inverts them if and only if the number of buffers times the lowest set bit of their size is at most 2^32 |
| BufferLayout.AcceptedBuffersCollide | pcie/pcie_drv/ti81xx_pcie_epdrv.c:1426-1445 | 64 data buffers of 256 MB are accepted, buffers 0 and 16 get the same address, and looking up buffer 16 gives buffer 0 |
| Max3107Device.SettleAppend | max3107/max3107.c:107-160 | The registers after two programs in a row are those after the second, started from those after the first |
| Max3107Device.DataAppend | max3107/max3107.c:107-160 | The bytes pushed by two programs in a row are those of the first and then those of the second |
| Max3107Programs.TxProgramMeaning | max3107/max3107.c:354-395 | A TX transfer pushes exactly its bytes in order, changes only IRQEN and MODE1, enables the transmitter after the last byte and has at most three words more than bytes |
| Max3107Programs.RxProgramMeaning | max3107/max3107.c:257-277 | An RX transfer pushes nothing, changes only IRQEN and has at most two words more than bytes |
| Max3107Programs.IrqProgramMeaning | max3107/max3107.c:421-428 | The status words change no register |
| Max3107Programs.ConfigProgramMeaning | max3107/max3107.c:531-557 | A configuration transfer writes exactly the settings whose commit flag is up |
| Max3107System.StepKeepsShape | max3107/max3107.c:491-569 | Every transfer under way has the form its job calls for |
| Max3107Coherence.StepCoherentExactly | max3107/max3107.c:491-602 | From a coherent state, each step of the work thread, the device or another thread leads to a coherent state if and only if it is orderly: it does not set two MODE1 words with different values on their way |
| Max3107Coherence.CoherentExactlyWhenOrderly | max3107/max3107.c:491-602 | A run from the start is coherent throughout if and only if all its steps are orderly |
| Max3107Coherence.ShadowsAreCoherent | max3107/max3107.c:491-917 | In every reachable state IRQEN, LCR and the baud-rate bytes of the device are the shadow values unless the commit flag is up or a transfer carrying the value is under way, even with stop_rx or set_termios between unlock and transfer; after an orderly run MODE1 is so too |
| Max3107Transmit.SendKeepsTx | max3107/max3107.c:314-403 | Taking bytes off the ring while the FIFO is empty keeps the transmit invariant, sleep word under way or not |
| Max3107Transmit.SwitchOffKeepsTx | max3107/max3107.c:452-466 | Switching the transmitter off on a TX-empty interrupt keeps it if and only if no sleep word is under way that would switch it on again |
| Max3107Transmit.StepKeepsTx | max3107/max3107.c:314-602 | Every step keeps it that is orderly for the data: no sleep mode is noted while the FIFO could run empty before all bytes to come are in, and the interrupt handler does not switch the transmitter off while a sleep word is under way that would switch it on again |
| Max3107Transmit.TransmitConserves | max3107/max3107.c:314-466 | After every run that is orderly for the data, wire, TX FIFO, transfer under way and pending ring are together exactly the queued bytes in order; the FIFO never exceeds 128; tx_fifo_empty implies an empty FIFO, tx_enabled 0 and TXDIS in the shadow |
| Max3107Transmit.ReportedEmptyIsSent | max3107/max3107.c:794-801 | After such a run, when tx_empty reports true, all queued bytes have left on the wire |
| Max3107Progress.TransmitterNeverStalls | max3107/max3107.c:314-466 | After every run that is orderly for the data, and in which the work thread begins no send while a sleep word is under way: while tx_fifo_empty is down, between transfers, the device is sending, or its TX-empty interrupt is latched and enabled, or the handler has just seen it |
| Max3107Calm.LossStays | max3107/max3107.c:314-409 | Whatever happens, a byte that is neither on the wire nor in FIFO, transfer or ring is never found again |
| Max3107Onward.FlagGoesUp | max3107/max3107.c:414-476 | Once the TX-empty latch is up the work thread alone can always come to raise tx_fifo_empty, whatever the FIFO holds |
| Max3107Disorder.DisorderMisleads | max3107/max3107.c:314-602 | After any step that is not orderly for the data, however calm everybody keeps, the driver can take a FIFO for empty that is not |
| Max3107Disorder.DisorderLoses | max3107/max3107.c:314-602 | And then a queued byte can be lost |
| Max3107Disorder.SecureExactly | max3107/max3107.c:314-602 | From a state that an orderly run reaches, a step is orderly for the data if and only if in every calm continuation after it (no further set_sleep, no decision while a sleep word is under way) no byte is missing and tx_fifo_empty is true |
| Max3107Disorder.TransmitExactlyWhenOrderly | max3107/max3107.c:314-602 | A run from the start is orderly for the data if and only if all its states are secure in this sense |
| Max3107Stall.SendStops | max3107/max3107.c:314-409 | After any send that begins while a sleep word is under way the word can leave data in the FIFO with the transmitter off, no latch up, and no sleep word left |
| Max3107Stall.AssuredExactly | max3107/max3107.c:314-602 | A step is orderly for progress if and only if in every calm continuation after it no byte is missing, tx_fifo_empty is true and the transmitter does not stall |
| Max3107Stall.ProgressExactlyWhenOrderly | max3107/max3107.c:314-602 | A run from the start is orderly for progress if and only if this holds after each of its steps |
| Max3107Stall.SendSticks | max3107/max3107.c:314-602 | After any send that begins while a sleep word is under way, with the word late enough, the transmitter is stopped and no MODE1 word is under way or asked for |
| Max3107Stall.StuckForGood | max3107/max3107.c:314-602 | From there no byte ever leaves again unless stop_rx or set_sleep sets MODE1 anew |
| Max3107Receive.PopReply | max3107/max3107.c:270-289 | A data word moves the oldest byte from the device to the driver |
| Max3107Receive.StepKeepsRx | max3107/max3107.c:231-310 | Every step keeps the receive invariant: bytes conserved, levels never above what is there |
| Max3107Receive.ReceiveIsExact | max3107/max3107.c:231-310 | In every reachable state bytes given to the tty, bytes in the transfer under way and the RX FIFO are together all bytes received, in order; when the driver is idle with receiving enabled, the RX interrupt is on in the device |
| Max3107Receive.LoopEndsOnEmptyFifo | max3107/max3107.c:257-295 | In every run, when the receive loop is about to end, the last word exchanged was answered by the device while its RX FIFO was empty |
| Max3107Receive.LoopIsLeftWhenEmpty | max3107/max3107.c:257-305 | In every run the receive loop is only left in that situation, and if receiving is enabled the next transfer turns the RX interrupt on in the device |
| Max3107Drain.DrainsRx | max3107/max3107.c:491-522 | From any idle state with receiving enabled and bytes in the RX FIFO, one undisturbed call of the work function gives all of them to the tty, in order, and leaves the FIFO empty |
| Max3107LineFormat.LcrMeaning | max3107/max3107.c:857-874 | The LCR value decodes, as the device reads it, to the word length, parity and stop bits that are asked for, and leaves forced parity, break and RTS alone |
| Max3107LineFormat.FormatArrives | max3107/max3107.c:531-564 | In every run, between transfers and with the commit flags down, the device has the line format and the generator setting of the last set_termios |
| Max3107LineFormat.CommitWritesAll | max3107/max3107.c:531-564 | The configuration part takes all commit flags down, and what they stood for is on its way to the device |
| Max3107LineFormat.StopRxArrives | max3107/max3107.c:804-818 | From the initialised registers receiving is disabled in the driver if and only if stop_rx has been called, and after an orderly run with everything committed so is the device (bit 0 of MODE1) |
| Max3107LineFormat.SleepArrives | max3107/max3107.c:572-602 | After an orderly run, with no word under way, the device is in the forced or automatic sleep mode (bits 5 and 6 of MODE1) that was asked for last |
| Max3107Runs.TransfersFit | max3107/max3107.c:257-283 | In every reachable state the transfer under way fits its buffer: 130 words for RX, 131 for TX, 5 for configuration |
| Max3107Overlap.SleepsApartAreOrderly | max3107/max3107.c:491-602 | A run in which set_sleep begins between two transfers of the work function, which then waits for its word, is orderly in every sense: for MODE1, for the data and for progress |
| Max3107Overlap.DisorderShows | max3107/max3107.c:491-602 | After any step that is not orderly the run can go on, without any further setting, to a state in which the device has the wrong MODE1 and nothing is under way or flagged to correct it |
| Max3107Overlap.LateSleepWord | max3107/max3107.c:572-602 | From any start with the receiver on, a sleep word that arrives after the commit of stop_rx leaves the device with the wrong MODE1 |
| Max3107Overlap.StalledBySleep | max3107/max3107.c:572-602 | From any start, a sleep word noted while the transmitter is off that arrives after it has been switched on leaves a byte in the FIFO, the transmitter off and no interrupt to come |
| Max3107Overlap.FalselyEmptyBySleep | max3107/max3107.c:572-602 | From any start, a sleep word noted while the transmitter is on that arrives after it has been switched off makes tx_empty report true while a byte is unsent |
| Max3107Overlap.LossBySleep | max3107/max3107.c:572-602 | From there a byte can be lost for good: in no later state do wire, FIFO, transfer and ring hold what was queued |
| Max3107Spi.Bus.Rw | max3107/max3107.c:107-160 | All words go out once and in order in messages of at most 64; the answers replace them in place when asked for |
| Max3107Spi.Bus.Sync | max3107/max3107.c:129-155 | One message carries exactly its slice of the buffer |
| Max3107Settings.LookupIsFirst | max3107/max3107.c:89-100 | The table search returns the first entry for the rate |
| Max3107Settings.IgnoredRates | max3107/max3107.c:40-100 | A request for a rate leaves the generator as it is, whatever it was, if and only if the rate is not one of the ten that both clocks have or the two more of the external clock |
| Max3107Settings.IgnoredInstances | max3107/max3107.c:40-100 | 38400 baud with either clock, and 460800 and 921600 with the internal clock, are ignored |
| Max3107Settings.LookupListed | max3107/max3107.c:89-100 | In a table whose rates are distinct the search finds a setting if and only if the rate is listed with one |
| Max3107Settings.ExternalRates | max3107/max3107.c:55-69 | With the external clock of 3.6864 MHz every rate that is honoured comes out exactly |
| Max3107Settings.InternalRates | max3107/max3107.c:71-85 | With the internal clock the divisor is exact up to 19200 baud and off by 1/32 at 57600, 1/16 at 115200 and 1/8 at 230400 |
| Max3107Init.InitReachesStart | max3107/max3107.c:611-728 | Whatever registers, FIFO contents and status latch the device has, executing the words of the initialisation leaves device and shadows in a state from which the runs start, with loopback as asked, the FIFO reset released, and MODE1, LCR and IRQEN of the stated bits |
| Max3107Init.InitWords | max3107/max3107.c:611-728 | The initialisation as 16-bit words on the wire, with its trigger, flow-control and timeout levels |
| Max3107Init.DefaultRate | max3107/max3107.c:629-638 | The initial generator setting is the table entry for 9600 |
| Max3107Driver.RingSplit | max3107/max3107.c:369-373 | Taking m bytes from the circular buffer and moving the tail leaves the rest, wrap-around included |
| Max3107Driver.CharsAfter | max3107/max3107.c:341-372 | The pending count falls by what was taken |
| Max3107Driver.PutAppends | max3107/max3107.c:341-372 | A byte put at the head of a ring that is not full comes behind what is pending |
| Max3107Driver.ClampFits | max3107/max3107.c:244-251 | A level that fits the FIFO stays, and a larger one is taken for a full FIFO |
| Max3107Driver.SleepBits | max3107/max3107.c:579-592 | Of MODE1 exactly the bit of the mode, 5 for forced and 6 for automatic sleep, becomes as asked |
| Max3107Driver.Uart.FillData | max3107/max3107.c:368-373 | The copying loop writes one data word for each byte from the tail on |
| Max3107Driver.Uart.BuildTx | max3107/max3107.c:354-395 | The buffer holds exactly the TX program |
| Max3107Driver.Uart.HandleTx | max3107/max3107.c:314-409 | Nothing happens before the previous data has left, on an empty ring or a stopped tty; else min(128, pending) bytes leave the ring in one TX program and the shadow follows |
| Max3107Driver.Uart.BuildRx | max3107/max3107.c:258-277 | The cleared buffer becomes exactly the RX program |
| Max3107Driver.Uart.RxLoop | max3107/max3107.c:257-295 | The loop sends one RX program a round and hands the data words of every answer to the tty in order, as long as the level is not zero |
| Max3107Driver.Uart.HandleRx | max3107/max3107.c:231-310 | Nothing happens while receiving is disabled or on level 0; else the loop from the clamped level, and the RX interrupt on again |
| Max3107Driver.Uart.HandleInterrupt | max3107/max3107.c:414-476 | Status words go out; only on TX-empty the transmitter is switched off and the flag raised |
| Max3107Driver.Uart.Commit | max3107/max3107.c:531-564 | Exactly the flagged settings are sent and the flags cleared |
| Max3107Driver.Uart.TxEmpty | max3107/max3107.c:794-801 | Reports true if and only if the flag is up and the ring is empty |
| Max3107Driver.Uart.StopRx | max3107/max3107.c:804-818 | Bit 0 of MODE1 noted and flagged, receiving disabled |
| Max3107Driver.Uart.GetNewBrg | max3107/max3107.c:89-100 | The 13-entry search computes Lookup |
| Max3107Driver.Uart.SetTermios | max3107/max3107.c:838-917 | Changed LCR and generator values are noted and flagged, the ignore mask follows IGNPAR, CMSPAR is taken off; an unknown rate keeps the old one; the rate encoded back, and used for the timeout, is the one the generator is then set for, if it was set for the old one before; without a tty nothing happens |
| Max3107Driver.Uart.SetSleep | max3107/max3107.c:572-602 | One MODE1 bit changes and is written at once; an invalid mode does nothing |
| Max3107Driver.Uart.RegisterInit | max3107/max3107.c:611-728 | The words sent are the initialisation program, the shadow is its port, and the generator is set for the recorded rate |
| Max3107Work.OneRound | max3107/max3107.c:510-564 | One round sends the receive, status, transmit and configuration words in this order; words sent, bytes handed to the tty, shadow, ring and next level are as the four parts say |
| Max3107Work.Work | max3107/max3107.c:491-569 | The work function reads the level and goes round until a round ends at level 0; words sent, bytes handed to the tty, shadow and ring are those of all rounds in order |
| Max3107Simulation.RoundInSystem | max3107/max3107.c:510-564 | For every round of the code whose answers the device can give, there is a run of the system, with the work thread alone, that exchanges exactly the words the code sends and ends with the same shadow, ring, bytes given to the tty and next level, and with the device that has executed those words |
| Max3107Simulation.WorkInSystem | max3107/max3107.c:491-569 | For every call of the work function whose answers the device can give there is a run of the system, with the work thread alone, from its start back to idle, that exchanges exactly the words the code sends and ends with the same shadow, ring and bytes given to the tty, and with the device that has executed those words |
| Ads7846.AnchorHolds | befor_wiscom/ads7846/ads7846.c:739-779 | All readings after the anchor lie within tolerance of it |
| Ads7846.VerdictIsSound | befor_wiscom/ads7846/ads7846.c:739-779 | OK only when the last debounce_rep+1 readings lie within debounce_tol of the one just before them; IGNORE only after at least debounce_max readings with the last out of tolerance of the anchor of those before it |
| Ads7846.AnchorBegins | befor_wiscom/ads7846/ads7846.c:739-779 | The anchor is the first reading or one out of tolerance of the anchor before it |
| Ads7846.AnchorKeeps | befor_wiscom/ads7846/ads7846.c:739-779 | Every reading after the anchor differs from it by at most the tolerance |
| Ads7846.VerdictIsExact | befor_wiscom/ads7846/ads7846.c:739-779 | OK if and only if debounce_rep+1 readings have followed the anchor; IGNORE if and only if the new reading becomes the anchor although debounce_max readings went before it |
| Ads7846.SettledReadingsAgree | befor_wiscom/ads7846/ads7846.c:739-779 | Any two readings of an accepted run differ by at most twice the tolerance |
| Ads7846.Touch.DebounceFilter | befor_wiscom/ads7846/ads7846.c:739-779 | The counters compute that verdict from the whole reading history |
| Ads7846.Touch.TakeReading | befor_wiscom/ads7846/ads7846.c:831-857 | A verdict repeats the message, goes on to the next coordinate, or jumps to the power-down message with ignore set |
| Ads7846.Touch.ReadState | befor_wiscom/ads7846/ads7846.c:810-862 | For every stream of answers: terminates within (msg_count-1)*(debounce_max+debounce_rep+1)+1 messages; the messages before the last are those of each coordinate in turn, once for each of its readings; the readings of an accepted coordinate are accepted ones and its last is the value kept; without SPI error the power-down message is sent once, last, and ignore is false if and only if every coordinate was accepted; else the last coordinate was given up; an SPI error ends it with ignore set |
| Ads7846.HeardNext | befor_wiscom/ads7846/ads7846.c:831-857 | One more answer is one more reading of the coordinate whose message was sent, whether it ends the coordinate or not |
| Ads7846.AllowanceIsProduct | befor_wiscom/ads7846/ads7846.c:810-862 | The message bound is that product |
| TouchRuns.Power.Stop | befor_wiscom/ads7846/ads7846.c:207-217 | The first stop raises the flag and the interrupt disable depth |
| TouchRuns.Power.Restart | befor_wiscom/ads7846/ads7846.c:219-228 | Restart undoes it unless the device is off |
| TouchRuns.Power.DisableDevice | befor_wiscom/ads7846/ads7846.c:248-261 | Disabling keeps line state a function of (disabled or suspended) |
| TouchRuns.Power.EnableDevice | befor_wiscom/ads7846/ads7846.c:263-276 | So does enabling |
| TouchRuns.Power.SuspendDevice | befor_wiscom/ads7846/ads7846.c:1003-1023 | So does suspending |
| TouchRuns.Power.ResumeDevice | befor_wiscom/ads7846/ads7846.c:1025-1045 | So does resuming |
| TouchRuns.Power.ReadSensor | befor_wiscom/ads7846/ads7846.c:359-363 | A sensor read stops and restarts the interrupt thread and leaves all as it was |
| TouchRuns.Power.RunOps | befor_wiscom/ads7846/ads7846.c:207-276 | For any sequence of calls disable depth, regulator count and stop flag are a function of (disabled or suspended), which follow the calls |
| TouchReport.EquationTwoIsExact | befor_wiscom/ads7846/ads7846.c:900-906 | For all sample values the 32-bit arithmetic gives (z2-z1)*x*ohms/z1/4096, rounded, if and only if the product is not negative and below 2^32 (with z1 = 1 both ends move by 2047) |
| TouchReport.ResistanceMeaning | befor_wiscom/ads7846/ads7846.c:890-910 | Half the maximum where the chip measures no pressure, as long as the pen is down; else the equation, and 0 for x at either end of its range or z1 = 0 |
| TouchReport.HardTouchWraps | befor_wiscom/ads7846/ads7846.c:900-906 | x = 4000, z1 = 100, z2 = 4000 on a panel of 400 ohms: 4749 comes out for 15234 |
| TouchReport.TouchResistance | befor_wiscom/ads7846/ads7846.c:883-910 | The steps in one unsigned variable compute that resistance |
| TouchReport.IdleMeansGestures | befor_wiscom/ads7846/ads7846.c:864-1001 | A stream that scans to idle is a sequence of complete DOWN position+ UP gestures |
| TouchReport.PositionOf | befor_wiscom/ads7846/ads7846.c:941-956 | x, 0 for the end of the range, and y, swapped if the panel is, and the maximum less the resistance |
| TouchReport.Reporter.ReportState | befor_wiscom/ads7846/ads7846.c:864-960 | A sample that is ignored, beyond the maximum, without resistance or over at the second check adds nothing; any other adds its position, after a DOWN if the pen was up |
| TouchReport.Reporter.Irq | befor_wiscom/ads7846/ads7846.c:970-1001 | Exactly the passes that are not stopped and whose sample is shown report a position, in order: no event if there are none, else one DOWN, those positions and one UP; the pen is up at the end |
| Ds1307.SweptIsProduct | befor_wiscom/driver_module/rtc-ds1307.c:161-199 | n sweeps are n times the block length in bus accesses |
| Ds1307.DoubleCollectIsSnapshot | befor_wiscom/driver_module/rtc-ds1307.c:175-199 | If no register returns to an earlier value meanwhile, two equal sweeps in a row mean that all registers held these values at once, at every instant between them |
| Ds1307.SuccessfulReadIsSnapshot | befor_wiscom/driver_module/rtc-ds1307.c:175-199 | So a successful block read is a snapshot |
| Ds1307.Client.ReadBlockDataOnce | befor_wiscom/driver_module/rtc-ds1307.c:161-173 | A sweep reads every register once in order or ends with the error of its last access |
| Ds1307.Client.SweepAgain | befor_wiscom/driver_module/rtc-ds1307.c:192-198 | A further sweep agrees with the one before or is reported as different |
| Ds1307.Client.ReadBlockData | befor_wiscom/driver_module/rtc-ds1307.c:175-199 | At most eleven sweeps; success means that the last two are the first two in a row to agree; failure is the error of the last access, or -EIO after eleven sweeps each of which differs from the next |
| Ds1307.PassAt | befor_wiscom/driver_module/rtc-ds1307.c:216-220 | The i-th write of a pass is values[i] to register command + i, by its i-th access |
| Ds1307.Client.WritePass | befor_wiscom/driver_module/rtc-ds1307.c:216-220 | One pass writes values[i] to command + i in order and logs it, or ends at the first access that fails |
| Ds1307.Client.Attempt | befor_wiscom/driver_module/rtc-ds1307.c:214-226 | An attempt that gets to its sweep has logged exactly one such pass right before it |
| Ds1307.Client.WriteBlockData | befor_wiscom/driver_module/rtc-ds1307.c:201-228 | At most ten attempts, each of which has logged its pass; success means that the last pass wrote the block and the sweep right after it read the same values back |
| Frames.DecodeEncode | net_test/udp_sendfile/client_udpFile.c:49-69 | Chunk number modulo 65536, end mark and payload survive the three-byte header |
| Frames.ChunkExtends | net_test/udp_sendfile/client_udpFile.c:49-69 | Each chunk carries the next 1024 bytes, and the end mark is on the last one only |
| Frames.Reassembly | net_test/udp_sendfile/client_udpFile.c:37-102 | The payloads of all datagrams of a frame are the frame; a multiple of 1024 ends in an empty chunk |
| Frames.FillBuffer | net_test/udp_sendfile/client_udpFile.c:49-69 | The loop body builds exactly chunk i |
| Frames.UdpSend | net_test/udp_sendfile/client_udpFile.c:37-102 | udp_send sends the chunks in order and returns 0 if and only if each got its matching acknowledgement; otherwise it stops at the first that did not match, or waits |
| Frames.Receiver.OnDatagram | net_test/udp_sendfile/server_udpFile.c:49-66 | A datagram is counted, acknowledged by its own number (low byte first) and size, and recognised as the last one by its third byte 0xff |
| Frames.Receiver.WriteFile | net_test/udp_sendfile/server_udpFile.c:73 | Exactly the payload is appended |
| StopAndWait.StepKeepsInv | net_test/udp_sendfile/server_udpFile.c:34-88 | Every step of sender, receiver or lossy channel keeps the invariant |
| StopAndWaitDelivery.DeliversEverything | net_test/udp_sendfile/client_udpFile.c:37-102 | For all frames some run that loses nothing brings the sender through all of them, with nothing left under way and the whole file at the receiver |
| StopAndWait.StopAndWaitIsSafe | net_test/udp_sendfile/client_udpFile.c:37-102 | Whatever the channels lose, the file is a prefix of all frames; when udp_send has returned 0 the whole frame has been received; when the sender is through the file is complete |
| LockStep.StepKeepsInv | net_test/dvrrdk_server/client_getdat.c:41-101 | Every step of server and client keeps the lock-step invariant |
| LockStep.LockStepHolds | net_test/dvrrdk_server/dvrrdk_server.c:40-119 | At most one message is under way on each channel, the frame counters agree at every acknowledgement, and the file is a prefix of the frames |
| LockStep.Progress | net_test/dvrrdk_server/client_getdat.c:41-101 | Until the server is through somebody can move |
| LockStep.RankFalls | net_test/dvrrdk_server/dvrrdk_server.c:40-119 | Every step brings the pair nearer to the end |
| LockStep.RunsAreBounded | net_test/dvrrdk_server/dvrrdk_server.c:40-119 | So every run is bounded |
| LockStep.DeliveredExactlyWhenCarried | net_test/dvrrdk_server/client_getdat.c:56-98 | The pair delivers everything in every run if and only if no frame is a positive multiple of 1024 long and none has two chunks the second of which starts with 0xff |
| LockStep.MultipleHalts | net_test/dvrrdk_server/dvrrdk_server.c:59-69 | A frame that is a positive multiple of 1024 long halts the pair short |
| LockStep.LookalikeHalts | net_test/dvrrdk_server/client_getdat.c:56-57 | A second and last chunk that starts with 0xff reads as the end-of-stream mark and halts the pair short |
| FrameServer.UdpSend | net_test/dvrrdk_server/dvrrdk_server.c:40-119 | The server loop sends the chunks up to the point where exactly 1024 bytes are left, and writes the end command when the last acknowledgement was good or nothing had set the result |
| FrameServer.ReachIsEverything | net_test/dvrrdk_server/dvrrdk_server.c:59-69 | What it sends is the whole frame if and only if the frame is not a positive multiple of 1024 long |

## Left out

- `kmalloc` failure in `ti81xx_set_out_region` (return code FAIL), overlapping opens, and OB_SIZE above 3.
- The command half of the endpoint (`put_cmdBuf`, `que_*`, `deQue_*`, `pciedev_do_work`): the same pool operations again, behind flags shared with the root complex whose side is not in this model.
- Blocking inside the kfifo routines: a call that would sleep or spin is reported as waiting, and the pool protocol shows that a put of a held buffer never gets there.
- `ti81xx_pcie_rcdrv.c`, inbound windows, DMA set-up, mmap, polling and character-device plumbing.
- Max3107Work.Work: runs alone, with the device's answers as a parameter; what other threads and the device do meanwhile is in `Max3107System`, whose runs with the work thread alone are the code's calls (`Max3107Simulation.WorkInSystem`).
- Max3107Driver.Uart.HandleRx: the answers of the device are a parameter, so that the loop ends with the last of them; that the device may go on for ever is left to the system model.
- Max3107Driver.Uart.SetTermios: the other flags of the termios structure, and what the kernel computes the tty's timeout to be.
- SPI errors in the UART driver, suspend flags, the platform's `init` and `hw_suspend` hooks, GPIO and console set-up.
- RX overrun inside the device: bytes that arrive at a full FIFO are not part of what the device has taken in.
- TouchReport.Reporter.Irq: the samples, and whether the pen is down and the thread is stopped at each check, are parameters. Custom filters, the byte order of the raw answers, the hardware-monitor interface, wake-up interrupts and `ads7846_remove`.
- After an SPI error `ads7846_read_state` leaves its counters as they are; Ads7846.Touch.ReadState is stated for calls that begin with a reading count of 0.
- Ads7846.Touch.SpiSync: what the controller answers is unconstrained.
- Time in the clock driver other than the order of accesses; the layouts of the clock registers.
- Socket, file and signal errors of the transfer programs, the shutdown path of both servers, and sleeping.
- Everything else in the repository: board set-up, codecs, framebuffer, boot code, the older copy of the pool, the debugging copy of the UART driver.
