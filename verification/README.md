# nRF8001 host driver, modelled in Dafny

This project models the host-side driver for the Nordic nRF8001 Bluetooth LE
chip in `firmware/nrf.c`, together with the ACI data model in
`firmware/nrf.h` and the formatting core of `firmware/uart.c`.

The driver talks to the chip in ACI frames:

- a request is `[length][command][data...]`;
- a response is `[debug][length][data...]`.

Each frame has a 30-byte data buffer.

**The chip.** The chip is modelled as a finite script of peer frames, one
per SPI transaction. A cursor `next` points to the next frame to be
consumed. The bytes the driver clocks out are appended to a wire log.
When the script runs out, the driver would wait for RDYN forever. The
model represents that as a `Stalled` outcome, or as a precondition that a
frame is left.

**The model has two layers.**

- **Value layer.** The driver's module-level variables form one
  `DriverState` value, and every driver function is a function on it:
  - `Exchange`: `Exchange.Transmit` is `nrf_transmit`. `Exchange.Send`,
    `Exchange.Receive` and `Exchange.TxRx` are the macros `nrf_send`,
    `nrf_receive` and `nrf_txrx`.
  - `Setup` and `SetupFacts`: `Setup.RunSetup` is `nrf_setup`, as four
    phases (`Bringup`, `Stream`, `Drain`, `Await`) that hand the state on
    or stop with a status.
  - `Commands`: `Commands.Advertise` is `nrf_advertise`.
    `Commands.SendButtonData` is `nrf_send_button_data`.
    `Commands.PrintTemperature` is `nrf_print_temperature`, with the
    decode as `Commands.Celsius`.
  - `Dispatch`: `Dispatch.Parse` is `nrf_parse`. `Dispatch.TxMapPipes` is
    `nrf_tx_map_pipes`. `Dispatch.ClosePipes` is `nrf_close_tx_pipes`.
    `Dispatch.ResetModule` is `nrf_reset_module`. `Dispatch.Poll` is the
    nRF step of the main loop (`firmware/main.c:158-170`).
  - `Uart.IntText` is the text `uart_putint` emits.

  The properties of the driver are proved there as lemmas.
- **Object layer.** `Driver.Nrf8001` is a class whose fields are those
  variables. The `rx`/`tx` data buffers are `array<byte>` fields. Each
  method updates the fields in place, with the loops of the source (the
  peer-address loop in its corrected form, see "Left out"). Each
  method is proved to produce exactly the state the value-layer function
  computes (`View() == F(old(View()))`), so the lemmas apply to it.

**Other modules.**

- `Pipes` models the 64-bit pipe masks as sets of bit positions below 64.
- `Uart` models `tobuf`, `uart_putint`, `uart_puthex`, `char2hex` and the
  one-character receive buffer. Output is the sequence of characters
  emitted.

**Configuration.** The generated `nrf/services.h` is not part of this model.
Its content is a `Config` parameter:

- the pipe map, whose length is `NUMBER_OF_PIPES`;
- the setup message table;
- the button TX pipe and the PWM RX pipe.

The two ACI transaction status codes (continue = 1, complete = 2) come from
the vendor's ACI definitions. Those definitions are not part of this model.

## Model

| member | source | states |
|---|---|---|
| Aci.Classify | firmware/nrf.h:27-32 | Every opcode gets one class. The opcode reads back from the class. The result is unclassified exactly when the opcode is none of the six event opcodes. |
| Aci.ClassifyOpcode | firmware/nrf.h:27-32 | The six event opcodes are pairwise distinct, so classifying an event's opcode gives the event back. |
| Aci.ConnStateCodesDistinct | firmware/nrf.h:18-20 | DISCONNECT, CONNECTING and CONNECTED have distinct codes 0, 1 and 2. |
| Aci.OpmodesDistinct | firmware/nrf.h:14-16 | The opmodes Test, Setup and Standby are distinct. |
| Aci.WordOfBytes | firmware/nrf.h:34-42 | Splitting a 16-bit word into lsb/msb and reading them back as `lsb + 256*msb` gives the word. |
| Aci.BytesOfWord | firmware/nrf.h:34-42 | Reading two bytes as a word and splitting it gives the two bytes back. |
| Aci.SetupFrameCopies | firmware/nrf.c:106 | The request a setup message is copied into is its 32 bytes, byte for byte: length, command, then 30 data bytes. |
| Exchange.Initial | firmware/nrf.c:28-35 | Static storage starts with state DISCONNECT, no open pipes, an empty TX pipe mask and an empty wire. |
| Exchange.ExchangeLength | firmware/nrf.c:326 | The data loop runs `max(tx.length - 1, rx.length)` times: at least both bounds, equal to one of them, never more than 30. |
| Exchange.Received | firmware/nrf.c:322-323 | The debug and length bytes of the response are the peer's first two bytes. |
| Exchange.ReceivedData | firmware/nrf.c:326-327 | Data byte i comes from the peer while i is below the exchange count. Otherwise it keeps its old value. The whole announced response arrives. |
| Exchange.IncomingBytes | firmware/nrf.c:89-90 | After memset and a receive, the buffer holds exactly the event's bytes, with zeros past the announced length. |
| Exchange.Clocked | firmware/nrf.c:322-327 | A transaction clocks out 2 + the exchange count bytes. |
| Exchange.ClockedRequest | firmware/nrf.c:322-327 | The whole request goes out: length byte, command and `length - 1` data bytes. Nothing but a prefix of the request buffer goes out. |
| Exchange.ClockedHead | firmware/nrf.c:322-327 | The first k bytes on the wire are the length, the command and k - 2 data bytes of the request. |
| Exchange.Transmit | firmware/nrf.c:303-328 | One transaction: the cursor moves one frame and the clocked bytes are logged. A missing request clocks out the all-zero dummy. The response lands in rx only when a buffer is given. Nothing else changes. |
| Exchange.TxRxKeepsSecondReply | firmware/nrf.h:69 | `nrf_txrx` is two transactions, send-only then receive-only. The buffer holds what the second frame carries, whatever the first frame was. The request and a dummy request are on the wire. |
| Exchange.ReceiveExchangesResponse | firmware/nrf.h:68 | A receive exchanges exactly the announced response: the dummy request announces no data. |
| Setup.SetupStatus.Code | firmware/nrf.c:77-160 | `nrf_setup` returns 0 to -5, and 0 exactly on success. |
| Setup.CodesDistinct | firmware/nrf.c:92-152 | The five errors have distinct codes. |
| Setup.RejectsReply | firmware/nrf.c:109-122 | A setup response is rejected exactly when it is non-empty and not "CmdResponse, Setup, transaction continue". |
| Setup.ReceiveStep | firmware/nrf.c:89-90 | A memset plus receive consumes one frame and yields its event bytes. |
| Setup.Bringup | firmware/nrf.c:89-101 | Bring-up stops only with -1, -2 or a stall. |
| Setup.SendMessage | firmware/nrf.c:105-107 | A setup message goes out in one transaction. Its response lands in a zeroed rx. Opmode and pipes are kept. |
| Setup.Stream | firmware/nrf.c:104-123 | The message loop stops only with -3 or a stall. |
| Setup.Drain | firmware/nrf.c:126-140 | The drain stops only with -4 or a stall. |
| Setup.Await | firmware/nrf.c:143-155 | The wait for DeviceStarted ends in success, -5 or a stall. |
| Setup.SendStep | firmware/nrf.c:105-122 | One message consumes one frame. The loop's rejection test is Rejects on that frame. |
| Setup.BringupConsumed | firmware/nrf.c:89-101 | Bring-up only consumes frames and logs them. It leaves the connection state, pipe masks and PWM alone. |
| Setup.StreamConsumed | firmware/nrf.c:104-123 | The same for the message loop. |
| Setup.DrainConsumed | firmware/nrf.c:126-132 | The same for the drain loop. |
| Setup.AwaitConsumed | firmware/nrf.c:143-146 | The same for the wait loop. |
| Setup.AfterStreamConsumed | firmware/nrf.c:126-155 | The same for the drain followed by the wait. |
| Setup.AfterBringupConsumed | firmware/nrf.c:104-155 | The same for everything after bring-up. |
| Setup.RunSetupConsumed | firmware/nrf.c:77-160 | `nrf_setup` consumes frames one transaction at a time and logs each. It never touches the connection state, the pipe masks or the PWM output. |
| SetupFacts.BringupOutcome | firmware/nrf.c:89-101 | The first event alone decides: -1 iff it is not DeviceStarted or reports an error. -2 iff it is a good DeviceStarted not in setup mode. Otherwise setup goes on with opmode Setup and the event's pipe count. Only the dummy request is on the wire, so no setup message was sent. |
| SetupFacts.BringupStallsWithoutPeer | firmware/nrf.c:89-90 | With no frame left, bring-up waits forever. |
| SetupFacts.StreamUnfold | firmware/nrf.c:104-123 | One step of the message loop: Rejects on the next frame decides -3 or going on. |
| SetupFacts.Accepted | firmware/nrf.c:104-123 | Counts the messages accepted in a row. Each counted frame accepts its message. The first frame not counted rejects its message, if both are in reach. |
| SetupFacts.StreamOutcome | firmware/nrf.c:104-123 | The loop goes on iff every message is accepted. It returns -3 iff a frame in reach rejects its message. It stalls iff the frames run out first. It consumes one frame per message, and keeps opmode, pipes and the script. |
| SetupFacts.AcceptedAll | firmware/nrf.c:104-123 | All messages are accepted iff enough frames remain and each one accepts its message. |
| SetupFacts.AcceptedStops | firmware/nrf.c:117-122 | The count stops short in reach iff some frame in reach rejects its message. |
| SetupFacts.StreamRejection | firmware/nrf.c:117-122 | The loop returns -3 exactly when a frame in reach rejects its message. |
| SetupFacts.StreamCompletion | firmware/nrf.c:104-123 | The loop hands over to the drain exactly when each message has a frame that accepts it. Empty replies are accepted. |
| SetupFacts.StreamLength | firmware/nrf.c:104 | The loop makes at most one transaction per remaining message. |
| SetupFacts.StreamWireAt | firmware/nrf.c:106-107 | Transaction k of the loop clocks out message cnt + k against frame next + k. |
| SetupFacts.StreamBounded | firmware/nrf.c:104-107 | The loop never moves the cursor past the script. |
| SetupFacts.StreamSendsInOrder | firmware/nrf.c:104-107 | The setup messages go out in order, one per transaction, and no more than there are. |
| SetupFacts.FirstNonContinue | firmware/nrf.c:126-132 | Finds the first frame from pos on that is not "continue". Every frame before it is "continue". |
| SetupFacts.DrainOutcome | firmware/nrf.c:126-140 | The first non-"continue" frame decides the drain: it goes on iff that frame is "complete" and returns -4 otherwise. It stalls iff there is no such frame. Opmode and pipes are kept. |
| SetupFacts.FirstStarted | firmware/nrf.c:143-146 | Finds the first DeviceStarted frame from pos on. Every frame before it is something else. |
| SetupFacts.AwaitOutcome | firmware/nrf.c:143-155 | Other events are skipped. The first DeviceStarted gives -5 iff it reports an error. Otherwise setup succeeds, with opmode and pipes taken from that event. The cursor ends just past it. |
| SetupFacts.FinalEvent | firmware/nrf.c:143-152 | The event that ends a good drain-and-wait is a DeviceStarted without error. |
| SetupFacts.AfterStreamOutcome | firmware/nrf.c:126-155 | After the loop, setup succeeds iff the frames finish the transaction and start without error. The opmode and pipes then come from that event. A stall means the script is used up. |
| SetupFacts.AfterBringupStopped | firmware/nrf.c:104-123 | A message loop that stops fails setup, and not every message was accepted. |
| SetupFacts.AfterBringupStreamed | firmware/nrf.c:104-155 | A loop that accepts every message leaves the outcome to the frames after the messages. |
| SetupFacts.AfterBringupSucceeds | firmware/nrf.c:104-155 | After bring-up, setup succeeds iff every message is accepted and the frames after them finish the transaction. |
| SetupFacts.AfterBringupResult | firmware/nrf.c:154-155 | On success after bring-up, opmode and pipes come from the final DeviceStarted event. |
| SetupFacts.AfterBringupStalls | firmware/nrf.c:104-155 | After bring-up, setup hangs only when the script is used up. |
| SetupFacts.SetupEndEvent | firmware/nrf.c:143-152 | On a succeeding script, the ending event is a DeviceStarted without error. |
| SetupFacts.SetupSucceeds | firmware/nrf.c:77-160 | `nrf_setup` returns 0 iff all of the following hold: the first event starts in setup mode, every message is accepted, the drain ends in "complete", and the next DeviceStarted reports no error. |
| SetupFacts.SetupResult | firmware/nrf.c:150-159 | After a successful setup, opmode and pipes are bytes 1 and 3 of the last DeviceStarted event. |
| SetupFacts.SetupStallsOnlyAtEnd | firmware/nrf.c:126-146 | Setup only hangs when the module stops answering: the whole script has been used. |
| Pipes.TxPipeBitsExact | firmware/nrf.c:221-227 | Bit k is set by `nrf_tx_map_pipes` iff entry k - 1 of the pipe map is a local TX pipe. |
| Pipes.TxPipeBitsNoBitZero | firmware/nrf.c:225 | Bit 0 is never set. |
| Pipes.CloseTxPipes | firmware/nrf.c:244 | `pipes_open &= ~map` clears exactly the mapped bits. Every other bit keeps its value. |
| Pipes.CloseTxPipesIdempotent | firmware/nrf.c:244 | Closing twice is the same as closing once. |
| Pipes.ByteBitsExact | firmware/nrf.c:392 | `b << 8i` has bit k set iff k is in 8i..8i+7 and bit k - 8i of b is set. |
| Pipes.StatusBitsExact | firmware/nrf.c:391-393 | The assembled mask has bit k iff bit k % 8 of status byte k / 8 is set, for k below 8n. |
| Pipes.StatusBitsPipeOne | firmware/nrf.c:391-393 | A status of 02 00 00 00 00 00 00 00 is the mask of pipe 1 alone. |
| Pipes.Int16ShiftBits | firmware/nrf.c:225 | `1 << k` in 16-bit int, widened to 64 bits: bit k for k < 15; for k = 15, bits 15 to 63. |
| Pipes.TxPipeBitsPipeFifteen | firmware/nrf.c:225 | As written, a local TX pipe 15 also sets bit 40 (and all bits 15 to 63). The 64-bit mask holds pipe 15 alone. |
| Commands.PayloadOf | firmware/nrf.c:175 | A memset buffer with its first bytes set: those bytes, then zeros. |
| Commands.AdvertiseFrameLayout | firmware/nrf.c:175-186 | The Connect request has length 5, command 0x0f, data 0 0 0x80 0, then zeros. |
| Commands.AdvertiseTimeoutBytes | firmware/nrf.c:177-184 | Data bytes 0 and 1 are the timeout 0, lsb first, and read back as it. |
| Commands.AdvertiseIntervalBytes | firmware/nrf.c:178-186 | Data bytes 2 and 3 are the interval 128, lsb first, and read back as it. |
| Commands.AdvertiseWordBytes | firmware/nrf.c:177-178 | The timeout 0 splits into 0 0. The interval 128 splits into 0x80 0. |
| Commands.AdvertiseSends | firmware/nrf.c:169-189 | Advertising makes one transaction that starts with `05 0f 00 00 80 00`. Nothing changes but tx, the cursor and the wire. |
| Commands.SendButtonData | firmware/nrf.c:440-458 | The result is 0 or -1. |
| Commands.SendButtonClosed | firmware/nrf.c:443-446 | With the button pipe bit clear: -1, and nothing at all changes, the wire included. |
| Commands.SendButtonOpen | firmware/nrf.c:448-457 | With the bit set: 0, and one transaction that starts `03 15 pipe button`. Nothing else changes but tx. |
| Commands.SendButtonResult | firmware/nrf.c:443-457 | The result is -1 exactly when the pipe bit is clear. |
| Commands.FractionText | firmware/nrf.c:511-528 | The fraction is two characters. |
| Commands.FractionValue | firmware/nrf.c:511-528 | The two digits printed for `raw & 3` read as 25 times it. |
| Commands.CelsiusParts | firmware/nrf.c:509-528 | The temperature text is the whole part, a point, then the two fraction digits. |
| Commands.CelsiusValue | firmware/nrf.c:505-528 | The raw value counts quarter degrees: the text has a point three from its end. The digits before it read as `raw >> 2` and those after as `25 * (raw & 3)`, together `25 * raw` hundredths. |
| Commands.CelsiusExample | firmware/nrf.c:509-527 | A raw value of 65 prints as 16.25. |
| Commands.PrintTemperatureReads | firmware/nrf.c:498-531 | The value printed is bytes 3 and 4 of the second frame, lsb first, whatever the first frame was. GetTemperature goes out in the first transaction, the dummy in the second. |
| Dispatch.PipeListExact | firmware/nrf.c:396-401 | The pipes listed are exactly the open pipes among 1..NUMBER_OF_PIPES. |
| Dispatch.PipeListIncreasing | firmware/nrf.c:396-401 | They are listed in increasing order, each once. |
| Dispatch.TxMapPipesMask | firmware/nrf.c:216-228 | Mapping keeps the old bits and adds exactly the local TX pipes. Mapping twice changes nothing more. Nothing else changes. |
| Dispatch.PeerAddressReversed | firmware/nrf.c:373-380 | The address reported is event bytes 2..7, most significant first, and it reverses back to them. This is the corrected dump. |
| Dispatch.AddressAsWrittenDropsByte | firmware/nrf.c:375-379 | As written, byte 2 never reaches the console and byte 3 is printed twice: address 01..06 prints 06:05:04:03:02:02. |
| Dispatch.PwmFor | firmware/nrf.c:407-415 | A positive duty cycle turns PWM on with that duty. Zero turns it off. |
| Dispatch.ParseEmpty | firmware/nrf.c:356-358 | An empty frame changes nothing and prints nothing. |
| Dispatch.ParseFrame | firmware/nrf.c:351-428 | Parsing touches only the connection state, the open pipes and the PWM output, each only on its own event. |
| Dispatch.ParseConnState | firmware/nrf.c:369-387 | Parsing never enters CONNECTING. Connected connects. Disconnected disconnects, from any state. |
| Dispatch.ParseDisconnected | firmware/nrf.c:383-387 | Disconnected clears exactly the TX pipe bits and keeps the others. It reports the pipes still open. A second one changes nothing more. |
| Dispatch.ParsePipeStatus | firmware/nrf.c:389-403 | PipeStatus sets bit k iff bit k % 8 of byte 1 + k / 8 is set, whatever the mask held before. It reports the open configured pipes. |
| Dispatch.ParsePipeStatusPipeOne | firmware/nrf.c:391-393 | A status of 02 00 .. 00 opens pipe 1 alone. |
| Dispatch.ParseDataReceived | firmware/nrf.c:405-417 | Data on the duty-cycle pipe sets PWM on with `data[2]` when it is positive, and off when it is zero. Data on other pipes changes nothing. |
| Dispatch.ParseConnected | firmware/nrf.c:369-381 | Connected reports the reversed address bytes (the corrected dump) and sets CONNECTED, nothing else. |
| Dispatch.ParseOther | firmware/nrf.c:360-367 | CmdResponse and unknown events change nothing. CmdResponse reports advertising iff it answers Connect without error. Unknown events are dumped byte by byte, as many bytes as announced (lines 419-426). |
| Dispatch.PollTransaction | firmware/main.c:158-170 | Each pass makes one transaction. Disconnected, it sends the Connect request and moves to CONNECTING. Otherwise it clocks out the dummy. |
| Dispatch.PollConnState | firmware/main.c:158-170 | DISCONNECT always moves to CONNECTING. CONNECTED never goes back to CONNECTING. Only a Connected or Disconnected event changes a connecting or connected driver. |
| Dispatch.PollKeepsRxClear | firmware/main.c:161-169 | Once the rx data is zero, each pass leaves it zero and parses exactly the event received. After `nrf_setup`, rx still holds the last setup event until the first non-empty frame is parsed; the debug byte is not kept zero. |
| Dispatch.ResetModuleDisconnects | firmware/nrf.c:51-62 | After a reset, the state is DISCONNECT whatever setup returned. Pipe masks and PWM are kept. |
| Uart.Char2Hex | firmware/uart.c:167-179 | The result is 0xff or below 16. It is not 0xff iff the char is a lower-case hex digit. It inverts the hexvals lookup. |
| Uart.Char2HexOfHexVals | firmware/uart.c:93 | Decoding an encoded nibble gives it back. |
| Uart.Char2HexRejectsUpperCase | firmware/uart.c:172-176 | Upper-case hex digits decode to 0xff. |
| Uart.PutHex | firmware/uart.c:93-99 | Two characters, high nibble first. `char2hex` of each gives the nibbles back. |
| Uart.Int32DigitCount | firmware/uart.c:125 | A 32-bit magnitude has at most 10 digits, so the loop bound of 10 never cuts one off. |
| Uart.DecimalValueOfDigits | firmware/uart.c:125-129 | The digits of n, read back, give n. |
| Uart.DecimalValueLeadingZeros | firmware/uart.c:158-160 | Leading zeros do not change the value read. |
| Uart.PaddedDigits | firmware/uart.c:158-163 | Padding plus digits reads as the magnitude and starts with a digit. |
| Uart.IntTextValue | firmware/uart.c:145-164 | The text starts with '-' iff the number is negative. The rest reads back as the magnitude. |
| Uart.IntTextDigits | firmware/uart.c:158-163 | A non-negative number prints as at least `digits` characters, all digits. |
| Uart.IntTextSixteen | firmware/uart.c:145-164 | 16 with one digit prints "16". |
| Uart.IntTextZero | firmware/uart.c:156-163 | 0 prints "0" with one digit and "00" with two. |
| Uart.IntTextZeroNoDigits | firmware/uart.c:156-163 | 0 with no minimum width prints nothing. |
| Uart.ToBuf | firmware/uart.c:115-131 | Writes the digits of the magnitude least significant first. Returns the digit count minus one as a `uint8_t`: 255 exactly for 0. Leaves the rest of the buffer alone. |
| Uart.PutInt | firmware/uart.c:145-164 | Stores tobuf's result in an `int8_t`, so 255 becomes -1. Emits the sign, `max(0, digits - count)` zeros, then the digits most significant first. |
| Uart.PadZeros | firmware/uart.c:158-160 | `while (i < --digits)` emits `max(0, digits - (i + 1))` zeros. |
| Uart.EmitDigits | firmware/uart.c:161-163 | Emitting `buf[i]` down to `buf[0]` gives the digits most significant first. |
| Uart.Inbuf.constructor | firmware/uart.c:9 | The receive buffer starts as 0. |
| Uart.Inbuf.Store | firmware/uart.c:12-18 | The receive interrupt replaces the buffered character. |
| Uart.Inbuf.Get | firmware/uart.c:182-186 | Returns the buffered character. |
| Uart.Inbuf.Reset | firmware/uart.c:188-192 | After a reset, reads return 0 until the next store. |
| Driver.Nrf8001.constructor | firmware/nrf.c:28-35 | Static storage starts zeroed: the initial state, with two fresh 30-byte buffers. |
| Driver.Nrf8001.ClearRx | firmware/nrf.c:89 | The memset of rx zeroes debug, length and data, and nothing else. |
| Driver.Nrf8001.ClearTx | firmware/nrf.c:175 | The memset of tx zeroes it, and nothing else. |
| Driver.Nrf8001.Transmit | firmware/nrf.c:289-343 | The in-place transaction is `Exchange.Transmit`. |
| Driver.Nrf8001.ClockData | firmware/nrf.c:326-328 | The data loop clocks out the request bytes `Clocked` names. It fills rx as `Received` says, or leaves it alone. |
| Driver.Nrf8001.Send | firmware/nrf.h:67 | Equals `Exchange.Send`. |
| Driver.Nrf8001.Receive | firmware/nrf.h:68 | Equals `Exchange.Receive`. |
| Driver.Nrf8001.TxRx | firmware/nrf.h:69 | Equals `Exchange.TxRx`. |
| Driver.Nrf8001.LoadTx | firmware/nrf.c:106 | The memcpy of a setup message sets tx to its frame, and nothing else. |
| Driver.Nrf8001.Bringup | firmware/nrf.c:89-101 | Equals `Setup.Bringup`: go on, or the status and the state it stops in. |
| Driver.Nrf8001.StreamMessages | firmware/nrf.c:104-123 | Equals `Setup.Stream` from message 0. |
| Driver.Nrf8001.StreamStep | firmware/nrf.c:105-122 | One loop pass is one step of `Setup.Stream`. |
| Driver.Nrf8001.PrepareMessage | firmware/nrf.c:105-106 | Zeroes rx and loads the message into tx. |
| Driver.Nrf8001.DrainResponses | firmware/nrf.c:126-140 | Equals `Setup.Drain`. |
| Driver.Nrf8001.AwaitStarted | firmware/nrf.c:143-155 | Equals `Setup.Await`. |
| Driver.Nrf8001.RunSetup | firmware/nrf.c:77-160 | Equals `Setup.RunSetup`, so SetupFacts applies. |
| Driver.Nrf8001.ResetModule | firmware/nrf.c:51-62 | Equals `Dispatch.ResetModule`. |
| Driver.Nrf8001.TxMapPipes | firmware/nrf.c:216-228 | The loop equals `Dispatch.TxMapPipes`. |
| Driver.Nrf8001.ListOpenPipes | firmware/nrf.c:396-401 | The loop lists `Dispatch.PipeList`. |
| Driver.Nrf8001.CloseTxPipes | firmware/nrf.c:239-253 | Equals `Dispatch.ClosePipes`. |
| Driver.Nrf8001.Parse | firmware/nrf.c:351-428 | Equals `Dispatch.Parse` on the global rx. |
| Driver.Nrf8001.PeerAddress | firmware/nrf.c:375-379 | The loop over `data[7 - i]`, with the last byte at i = 5, gives `Dispatch.PeerAddress`. This is the corrected dump. |
| Driver.Nrf8001.StatusMask | firmware/nrf.c:391-393 | The accumulating loop gives the mask `Dispatch.AnnouncedPipes`. |
| Driver.Nrf8001.ReceivedBytes | firmware/nrf.c:421-424 | The dump loop yields `data[0 .. length - 1]`. |
| Driver.Nrf8001.Advertise | firmware/nrf.c:169-189 | Equals `Commands.Advertise`. |
| Driver.Nrf8001.SendButtonData | firmware/nrf.c:440-458 | Equals `Commands.SendButtonData`. |
| Driver.Nrf8001.PrintTemperature | firmware/nrf.c:493-531 | Equals `Commands.PrintTemperature`: the same text and the same state. |
| Driver.Nrf8001.Poll | firmware/main.c:158-170 | Equals `Dispatch.Poll`. |

## Left out

- **`nrf_print_rx`** (`firmware/nrf.c:468-482`) and every call to it: debug output only.
- **Text of the messages `nrf_parse` and `nrf_close_tx_pipes` print.** Examples are "Starting advertising", "Connection from: ", the hex dump and the "Open Pipes: " list. The model returns what is printed as a `Dispatch.Report` value: the address bytes, the pipe numbers and the dumped bytes. The characters are not assembled. `Uart.PutHex` and `Uart.IntText` model the pieces.
- **`uart_print_pgm`, `uart_print`, `uart_newline`, `uart_putchar`, `uart_getchar`, `uart_init`:** register-level serial I/O.
- **Hardware timing.** Not modelled:
  - the REQN/RDYN handshake and its busy-waits;
  - `_delay_ms`;
  - the reset pin;
  - the LEDs.

  A wait for RDYN that never ends is the `Stalled` outcome, or the precondition that a peer frame is left.
- **`firmware/spi.c`:** the SPI registers. `spi_transmit` is the byte exchange with the peer script.
- **PWM register writes for DataReceived:** abstracted to the `Pwm` value, either on with a duty cycle or off.
- **`firmware/main.c`:** pin setup, the INT0 interrupt, the button check, the UART command parser and the banner. The nRF step of the main loop is modelled as `Dispatch.Poll`.
- **The `status` byte of a setup message:** unused by the driver.
- **The 16-bit shifts at `firmware/nrf.c:392`, `247`, `397` and `443`:** modelled with their evident 64-bit intent.
  - `rx->data[i+1] << (8*i)` at line 392 is computed in 16-bit int. It is undefined for i >= 2. At i = 1 it overflows whenever `data[2]` has its top bit set (pipe 15 open): the compiled value is negative and sign-extends into bits 15 to 63 of `pipes_open`, the same defect as the Findings row for line 225.
  - `1 << i` at lines 247 and 397 is computed in 16-bit int. At i = 15 (when `NUMBER_OF_PIPES` reaches 15) it is the negative 0x8000, so the test is true whenever any of bits 15 to 63 is set, not bit 15 alone. `Pipes.Int16ShiftBits` states that as-compiled mask.
  - `1 << PIPE_EXAMPLE_SERVICE_BUTTON_STATE_TX` at line 443 has the same i = 15 case.
  - The shift at line 225 has a Findings row.
- **Uart.PutInt:** requires `number > INT32_MIN` and `digits > -128`.
  - Negating INT32_MIN overflows `int32_t`.
  - Decrementing an `int8_t` digits below -128 wraps around.
  - Neither wrap is modelled.
- **Uart.ToBuf:** requires `number > INT32_MIN` for the same reason.
- **Peer response length.** The peer's response length is assumed to be at most 30, and a request's length at most 31 (`Aci.PeerFrame`, `Aci.TxLength`). `nrf_transmit` trusts both. A longer frame would overrun the 30-byte buffers, and that overrun is not modelled.
- **Setup.Stream:** the message counter `cnt` of `nrf_setup` is a `uint8_t` (`firmware/nrf.c:80`, `104`). With 256 or more setup messages, `cnt < NB_SETUP_MESSAGES` never fails. The counter wraps and the loop resends from message 0 until a reply rejects a message, so `nrf_setup` never returns 0. The model counts with an unbounded integer and does not capture the wrap. Its setup facts (`SetupFacts.SetupSucceeds` in particular) describe the source only for fewer than 256 messages, the bound `Aci.Config.Valid` states.
- **Stalled setup.** `nrf_setup` never returns when it stalls, so `Setup.SetupStatus.Code` is not defined for `Stalled`.
- **`tobuf` digit count:** `tobuf` converts up to 10 digits, although its comment says 9 (`firmware/uart.c:108`, `125`). The model follows the loop.
- **Dispatch.Parse / Driver.Nrf8001.Parse:** the `Connection` report of a Connected event is the corrected address `Dispatch.PeerAddress` (bytes 7 down to 2), not the printed one, which shows byte 3 twice and never byte 2 (`firmware/nrf.c:375-379`). `Driver.Nrf8001.PeerAddress` runs the corrected loop, ending with `data[7 - i]`. The as-written printout is `Dispatch.AddressAsWritten`, and the Findings row relates the two.

## Findings

| source | as written | input that shows it | evidently intended | confidence | as-written member | corrected member |
|---|---|---|---|---|---|---|
| firmware/nrf.c:225 | `nrf_tx_pipe_map \|= 1 << (i + 1)` computes the shift in 16-bit int; for pipe 15 the value 0x8000 is negative and sign-extends into bits 15 to 63 of the 64-bit mask | a pipe map whose only local TX entry is entry 14 (pipe 15): the mask also holds bit 40, so a disconnect would close pipes 16 to 63 | only bit 15, the 64-bit shift `1ULL << (i + 1)` | not executed | Pipes.TxPipeBitsAsWritten, Pipes.TxPipeBitsPipeFifteen | Pipes.TxPipeBits, Pipes.TxPipeBitsExact |
| firmware/nrf.c:375-379 | the loop prints `data[7 - i]` for i < 5, then `data[8 - i]` with i == 5, which is `data[3]` again | a Connected event with address bytes 01 02 03 04 05 06 prints 06:05:04:03:02:02 | the six address bytes reversed, last one `data[2]`: 06:05:04:03:02:01 | not executed | Dispatch.AddressAsWritten, Dispatch.AddressAsWrittenDropsByte | Dispatch.PeerAddress, Dispatch.PeerAddressReversed |
