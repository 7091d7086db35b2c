/*
 * The ACI (Application Controller Interface) vocabulary of the nRF8001
 * driver: opcodes, connection states and operating modes, the little-endian
 * 16-bit field, the request/response frame layouts and the static
 * configuration that the vendor tool generates (pipe map, setup messages).
 */
module Aci {

  /** An unsigned 8-bit value (uint8_t). */
  type byte = x: int | 0 <= x < 256

  /** The 30-byte data buffer of both frame structs. */
  type Payload = s: seq<byte> | |s| == 30 witness seq(30, _ => 0)

  /**
   * The length byte the driver may clock out: the transmit loop indexes
   * tx.data[length - 2], so a request longer than 31 would run off the buffer.
   */
  type TxLength = x: int | 0 <= x <= 31

  /**
   * The length byte of a response: the transmit loop stores rx.data[length - 1],
   * so the driver relies on the peer never announcing more than 30 bytes.
   */
  type RxLength = x: int | 0 <= x <= 30

  // Operating modes reported in a DeviceStarted event.
  const OpmodeTest: byte := 0x01
  const OpmodeSetup: byte := 0x02
  const OpmodeStandby: byte := 0x03

  // Command opcodes.
  const CmdSetup: byte := 0x06
  const CmdGetTemperature: byte := 0x0c
  const CmdConnect: byte := 0x0f
  const CmdSendData: byte := 0x15

  const ErrNoError: byte := 0x00

  // Event opcodes (first data byte of a response frame).
  const EvtDeviceStarted: byte := 0x81
  const EvtCmdResponse: byte := 0x84
  const EvtConnected: byte := 0x85
  const EvtDisconnected: byte := 0x86
  const EvtPipeStatus: byte := 0x88
  const EvtDataReceived: byte := 0x8c

  // Status codes of a Setup command response; they live in the vendor's ACI
  // header, with the values of the nRF8001 ACI.
  const StatusTransactionContinue: byte := 0x01
  const StatusTransactionComplete: byte := 0x02

  /** The connection state of the link, with the numeric codes of the driver. */
  datatype ConnState = StateDisconnect | StateConnecting | StateConnected
  {
    function Code(): (c: byte)
      ensures c <= 2
    {
      match this
      case StateDisconnect => 0x00
      case StateConnecting => 0x01
      case StateConnected => 0x02
    }
  }

  lemma ConnStateCodesDistinct(a: ConnState, b: ConnState)
    ensures a.Code() == b.Code() <==> a == b
  {
  }

  lemma OpmodesDistinct()
    ensures OpmodeTest != OpmodeSetup && OpmodeSetup != OpmodeStandby && OpmodeTest != OpmodeStandby
  {
  }

  /** The events the dispatcher tells apart, by the opcode in data[0]. */
  datatype Event =
    | DeviceStarted
    | CmdResponse
    | Connected
    | Disconnected
    | PipeStatus
    | DataReceived
    | Unclassified(opcode: byte)

  predicate IsKnownOpcode(op: byte)
  {
    op == EvtDeviceStarted || op == EvtCmdResponse || op == EvtConnected ||
    op == EvtDisconnected || op == EvtPipeStatus || op == EvtDataReceived
  }

  /** The opcode an event carries on the wire. */
  function Opcode(e: Event): byte
  {
    match e
    case DeviceStarted => EvtDeviceStarted
    case CmdResponse => EvtCmdResponse
    case Connected => EvtConnected
    case Disconnected => EvtDisconnected
    case PipeStatus => EvtPipeStatus
    case DataReceived => EvtDataReceived
    case Unclassified(op) => op
  }

  /**
   * Classifies an opcode. Total over all 256 values; because the event
   * opcodes are pairwise distinct the classification loses nothing: the
   * opcode can be read back from the event.
   */
  function Classify(op: byte): (e: Event)
    ensures Opcode(e) == op
    ensures e.Unclassified? <==> !IsKnownOpcode(op)
  {
    if op == EvtDeviceStarted then DeviceStarted
    else if op == EvtCmdResponse then CmdResponse
    else if op == EvtConnected then Connected
    else if op == EvtDisconnected then Disconnected
    else if op == EvtPipeStatus then PipeStatus
    else if op == EvtDataReceived then DataReceived
    else Unclassified(op)
  }

  /** Classification is the inverse of Opcode on every event it can produce. */
  lemma ClassifyOpcode(e: Event)
    requires e.Unclassified? ==> !IsKnownOpcode(e.opcode)
    ensures Classify(Opcode(e)) == e
  {
  }

  // ---------------------------------------------------------------------
  // data16_t: a 16-bit word seen as two bytes, lsb first.

  /** The word value of the bytes (lsb, msb). */
  function Word(lsb: byte, msb: byte): (w: int)
    ensures 0 <= w < 0x1_0000
  {
    lsb + 256 * msb
  }

  function Lsb(w: int): byte
    requires 0 <= w < 0x1_0000
  {
    w % 256
  }

  function Msb(w: int): byte
    requires 0 <= w < 0x1_0000
  {
    w / 256
  }

  /** Writing a word and reading back its two bytes gives the word. */
  lemma WordOfBytes(w: int)
    requires 0 <= w < 0x1_0000
    ensures Word(Lsb(w), Msb(w)) == w
  {
  }

  /** Reading two bytes as a word and splitting it gives the bytes back. */
  lemma BytesOfWord(lsb: byte, msb: byte)
    ensures Lsb(Word(lsb, msb)) == lsb && Msb(Word(lsb, msb)) == msb
  {
  }

  // ---------------------------------------------------------------------
  // Frames.

  /** struct nrf_tx: a request, [length][command][data...]. */
  datatype TxFrame = TxFrame(length: TxLength, command: byte, data: Payload)

  /** struct nrf_rx: a response, [debug][length][data...]. */
  datatype RxFrame = RxFrame(debug: byte, length: RxLength, data: Payload)

  function ZeroPayload(): (p: Payload)
    ensures forall i | 0 <= i < 30 :: p[i] == 0
  {
    seq(30, _ => 0)
  }

  /** The all-zero request (the driver's dummy_tx, and tx after memset). */
  function ZeroTx(): TxFrame
  {
    TxFrame(0, 0, ZeroPayload())
  }

  /** The all-zero response (rx after memset). */
  function ZeroRx(): RxFrame
  {
    RxFrame(0, 0, ZeroPayload())
  }

  /**
   * What the peer clocks out during one transaction: a debug byte, a length
   * byte and thirty bytes that fill the data buffer positions. A peer never
   * announces more than 30 data bytes.
   */
  type PeerFrame = f: seq<byte> | |f| == 32 && f[1] <= 30 witness seq(32, _ => 0)

  // ---------------------------------------------------------------------
  // Static configuration (the generated services header).

  datatype PipeStore = StoreLocal | StoreRemote

  /** The pipe types the driver tells apart: ACI_TX and every other type. */
  datatype PipeType = PipeTx | PipeOther

  datatype PipeMapping = PipeMapping(store: PipeStore, kind: PipeType)

  /**
   * struct nrf_setup_data: a status byte and 32 bytes that are copied
   * verbatim over struct nrf_tx (length, command, 30 data bytes).
   */
  type SetupBytes = s: seq<byte> | |s| == 32 && s[0] <= 31 witness seq(32, _ => 0)

  datatype SetupMessage = SetupMessage(status: byte, data: SetupBytes)

  /** The request a setup message is copied into. */
  function SetupFrame(m: SetupMessage): TxFrame
  {
    TxFrame(m.data[0], m.data[1], m.data[2..])
  }

  /** The request is the 32 setup bytes, byte for byte. */
  lemma SetupFrameCopies(m: SetupMessage)
    ensures var t := SetupFrame(m); [t.length, t.command] + t.data == m.data
  {
  }

  /**
   * The generated configuration: pipe map (entry i describes pipe i + 1),
   * setup messages, and the two pipe ids the application uses. The setup
   * loop counts with a uint8_t, and a 64-bit mask holds pipes up to 63.
   */
  datatype Config = Config(
    pipeMap: seq<PipeMapping>,
    setupData: seq<SetupMessage>,
    buttonTxPipe: byte,
    pwmRxPipe: byte)
  {
    predicate Valid()
    {
      |pipeMap| < 64 && |setupData| < 256 && buttonTxPipe < 64
    }
  }
}
