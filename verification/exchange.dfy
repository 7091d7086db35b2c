/*
 * The driver's state as one value, and the SPI exchange primitive
 * (nrf_transmit with its three macros) as a function on it.
 *
 * The nRF8001 is modelled by a script: the sequence of frames it will clock
 * out, one per transaction, and a cursor to the next one. A transaction
 * clocks the request out and the peer's frame in at the same time; the bytes
 * the driver clocks out are appended to a wire log. When the script is used
 * up the driver would wait for RDYN forever, so every transaction requires a
 * frame to be left.
 */
module Exchange {
  import opened Aci
  import opened Pipes

  /** The PWM output driven by DataReceived events on the duty-cycle pipe. */
  datatype Pwm = PwmOff | PwmOn(duty: byte)

  /** The driver's module-level variables, with the peer script, its cursor and the wire. */
  datatype DriverState = DriverState(
    rx: RxFrame,
    tx: TxFrame,
    opmode: byte,
    pipes: byte,
    pipesOpen: Mask,
    txPipeMap: Mask,
    connState: ConnState,
    pwm: Pwm,
    peer: seq<PeerFrame>,
    next: nat,
    wire: seq<seq<byte>>)
  {
    /** A frame is left for the next transaction. */
    predicate Ready()
    {
      next < |peer|
    }
  }

  /** Static storage starts zeroed: no pipes, state DISCONNECT, timer off. */
  function Initial(script: seq<PeerFrame>): (s: DriverState)
    ensures s.connState == StateDisconnect && s.pipesOpen == {} && s.txPipeMap == {}
    ensures s.peer == script && s.next == 0 && s.wire == []
  {
    DriverState(ZeroRx(), ZeroTx(), 0, 0, {}, {}, StateDisconnect, PwmOff, script, 0, [])
  }

  /**
   * Number of data bytes a transaction exchanges: the loop runs while there
   * is data to send (length - 1 bytes after the command) or to receive
   * (the length byte the peer has just clocked in).
   */
  function ExchangeLength(txLength: TxLength, rxLength: RxLength): (n: nat)
    ensures n <= 30
    ensures n >= txLength - 1 && n >= rxLength
    ensures n == txLength - 1 || n == rxLength
  {
    if txLength - 1 > rxLength then txLength - 1 else rxLength
  }

  /**
   * The response buffer after a transaction with request t against peer
   * frame f: the debug and length bytes, and the exchanged data bytes laid
   * over what the buffer held before. The whole announced response arrives.
   */
  function Received(t: TxFrame, f: PeerFrame, into: RxFrame): (r: RxFrame)
    ensures r.debug == f[0] && r.length == f[1]
  {
    var n := ExchangeLength(t.length, f[1]);
    RxFrame(f[0], f[1], f[2..2 + n] + into.data[n..])
  }

  /**
   * Data byte i comes from the peer while the exchange lasts and keeps its
   * old value after it; so the whole announced response arrives.
   */
  lemma ReceivedData(t: TxFrame, f: PeerFrame, into: RxFrame)
    ensures var r := Received(t, f, into);
      && (forall i | 0 <= i < 30 ::
            r.data[i] == if i < ExchangeLength(t.length, f[1]) then f[2 + i] else into.data[i])
      && r.data[..r.length] == f[2..2 + r.length]
  {
  }

  // ---------------------------------------------------------------------
  // What a peer frame means when it is received into a zeroed buffer.

  /** The response buffer after a transaction that started from memset(&rx, 0). */
  function Reply(t: TxFrame, f: PeerFrame): RxFrame
  {
    Received(t, f, ZeroRx())
  }

  /** The response to a receive-only transaction. */
  function Incoming(f: PeerFrame): RxFrame
  {
    Reply(ZeroTx(), f)
  }

  /**
   * Data byte i of the zeroed buffer after a transaction that exchanged n
   * bytes with frame f.
   */
  function ReplyByte(f: PeerFrame, n: nat, i: nat): byte
    requires i < 30
  {
    if i < n then f[2 + i] else 0
  }

  /** Data byte i of the event frame f delivers to a receive. */
  function EventByte(f: PeerFrame, i: nat): byte
    requires i < 30
  {
    ReplyByte(f, f[1], i)
  }

  /** The bytes a receive leaves in a zeroed buffer are the event's bytes. */
  lemma IncomingBytes(f: PeerFrame)
    ensures Incoming(f).length == f[1]
    ensures forall i | 0 <= i < 30 :: Incoming(f).data[i] == EventByte(f, i)
  {
    ReceivedData(ZeroTx(), f, ZeroRx());
  }

  /**
   * The bytes clocked out by a transaction: the whole request (length byte,
   * command, length - 1 data bytes) and further data bytes while the
   * response is still arriving.
   */
  function Clocked(t: TxFrame, f: PeerFrame): (w: seq<byte>)
    ensures |w| == 2 + ExchangeLength(t.length, f[1])
  {
    [t.length, t.command] + t.data[..ExchangeLength(t.length, f[1])]
  }

  /** The whole request goes out, and nothing but a prefix of the request buffer. */
  lemma ClockedRequest(t: TxFrame, f: PeerFrame)
    ensures var w := Clocked(t, f);
      && |w| >= 1 + t.length
      && w[..1 + t.length] == ([t.length, t.command] + t.data)[..1 + t.length]
      && w == ([t.length, t.command] + t.data)[..|w|]
  {
  }

  /** The first k bytes on the wire are the length byte, the command and k - 2 data bytes. */
  lemma ClockedHead(t: TxFrame, f: PeerFrame, head: seq<byte>)
    requires 2 <= |head| <= 1 + t.length
    requires head[0] == t.length && head[1] == t.command
    requires forall i | 2 <= i < |head| :: head[i] == t.data[i - 2]
    ensures |Clocked(t, f)| >= |head|
    ensures Clocked(t, f)[..|head|] == head
  {
  }

  /**
   * nrf_transmit: one transaction against the next peer frame. Without a
   * request the all-zero dummy request goes out; without a response buffer
   * the response goes to the dummy buffer and is lost.
   */
  function Transmit(s: DriverState, sendTx: bool, receive: bool): (r: DriverState)
    requires s.Ready()
    ensures r.next == s.next + 1
    ensures r.wire == s.wire + [Clocked(if sendTx then s.tx else ZeroTx(), s.peer[s.next])]
    ensures r.(rx := s.rx, next := s.next, wire := s.wire) == s
    ensures r.rx == if receive then Received(if sendTx then s.tx else ZeroTx(), s.peer[s.next], s.rx) else s.rx
  {
    var t := if sendTx then s.tx else ZeroTx();
    var f := s.peer[s.next];
    s.(rx := if receive then Received(t, f, s.rx) else s.rx,
       next := s.next + 1,
       wire := s.wire + [Clocked(t, f)])
  }

  /** nrf_send: send the request, ignore the response. */
  function Send(s: DriverState): DriverState
    requires s.Ready()
  {
    Transmit(s, true, false)
  }

  /** nrf_receive: clock out the dummy request, keep the response. */
  function Receive(s: DriverState): DriverState
    requires s.Ready()
  {
    Transmit(s, false, true)
  }

  /** nrf_txrx: a send-only transaction followed by a receive-only one. */
  function TxRx(s: DriverState): DriverState
    requires s.next + 2 <= |s.peer|
  {
    Receive(Send(s))
  }

  /**
   * The response a transaction triggers never comes back in that
   * transaction: after nrf_txrx the buffer holds what the second frame
   * carries, whatever the first one was, and the request and a dummy
   * request are on the wire.
   */
  lemma TxRxKeepsSecondReply(s: DriverState, first: PeerFrame)
    requires s.next + 2 <= |s.peer|
    ensures TxRx(s).rx == Received(ZeroTx(), s.peer[s.next + 1], s.rx)
    ensures TxRx(s).rx == TxRx(s.(peer := s.peer[s.next := first])).rx
    ensures TxRx(s).wire == s.wire + [Clocked(s.tx, s.peer[s.next]), Clocked(ZeroTx(), s.peer[s.next + 1])]
  {
  }

  /** The dummy request announces no data, so a receive exchanges exactly the announced response. */
  lemma ReceiveExchangesResponse(s: DriverState)
    requires s.Ready()
    ensures |Receive(s).wire[|s.wire|]| == 2 + s.peer[s.next][1]
  {
  }
}
