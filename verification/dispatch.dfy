/*
 * What the driver does with events once they have arrived: nrf_parse, the
 * pipe bookkeeping around it (nrf_tx_map_pipes, nrf_close_tx_pipes), the
 * connection step of the main loop, and nrf_reset_module.
 *
 * The messages the driver prints are returned as a Report value; the
 * characters themselves are not modelled here.
 */
module Dispatch {
  import opened Aci
  import opened Pipes
  import opened Exchange
  import Setup
  import Commands

  /** What a parse step writes to the serial console. */
  datatype Report =
    | Quiet
    | Advertising
    | Connection(address: seq<byte>)
    | OpenPipes(pipes: seq<nat>)
    | Unhandled(bytes: seq<byte>)

  // ---------------------------------------------------------------------
  // The pipe list printed after "Open Pipes: ".

  /** The pipes 1..n whose bit is set in `open`, in increasing order. */
  function PipeList(open: Mask, n: nat): (ps: seq<nat>)
  {
    if n == 0 then [] else PipeList(open, n - 1) + (if n in open then [n] else [])
  }

  /** The list holds exactly the open pipes among 1..n ... */
  lemma {:induction false} PipeListExact(open: Mask, n: nat, k: nat)
    ensures k in PipeList(open, n) <==> 1 <= k <= n && k in open
  {
    if n != 0 {
      PipeListExact(open, n - 1, k);
    }
  }

  /** ... in strictly increasing order, so each one once. */
  lemma {:induction false} PipeListIncreasing(open: Mask, n: nat)
    ensures forall i, j | 0 <= i < j < |PipeList(open, n)| :: PipeList(open, n)[i] < PipeList(open, n)[j]
  {
    if n != 0 {
      PipeListIncreasing(open, n - 1);
      var ps := PipeList(open, n - 1);
      forall i | 0 <= i < |ps|
        ensures ps[i] < n
      {
        PipeListExact(open, n - 1, ps[i]);
      }
    }
  }

  // ---------------------------------------------------------------------
  // nrf_tx_map_pipes and nrf_close_tx_pipes.

  /** nrf_tx_map_pipes: OR the bits of the local TX pipes into the TX pipe mask. */
  function TxMapPipes(cfg: Config, s: DriverState): DriverState
    requires cfg.Valid()
  {
    s.(txPipeMap := s.txPipeMap + TxPipeBits(cfg.pipeMap, |cfg.pipeMap|))
  }

  /**
   * After mapping, the mask holds every bit it held before and exactly the
   * local TX pipes besides; mapping twice changes nothing more, and nothing
   * else in the state changes.
   */
  lemma TxMapPipesMask(cfg: Config, s: DriverState, k: nat)
    requires cfg.Valid()
    ensures var r := TxMapPipes(cfg, s);
      && (k in r.txPipeMap <==>
            k in s.txPipeMap || (1 <= k <= |cfg.pipeMap| && IsLocalTx(cfg.pipeMap[k - 1])))
      && TxMapPipes(cfg, r) == r
      && r.(txPipeMap := s.txPipeMap) == s
  {
    TxPipeBitsExact(cfg.pipeMap, |cfg.pipeMap|, k);
  }

  /**
   * nrf_close_tx_pipes: clear the TX pipe bits from the open mask and
   * print the pipes still open.
   */
  function ClosePipes(cfg: Config, s: DriverState): (Report, DriverState)
  {
    var open := CloseTxPipes(s.pipesOpen, s.txPipeMap);
    (OpenPipes(PipeList(open, |cfg.pipeMap|)), s.(pipesOpen := open))
  }

  // ---------------------------------------------------------------------
  // The address printed for a Connected event.

  /** The reverse of a sequence. */
  function Reversed(s: seq<byte>): (r: seq<byte>)
    ensures |r| == |s|
  {
    if s == [] then [] else Reversed(s[1..]) + [s[0]]
  }

  lemma {:induction false} ReversedAt(s: seq<byte>, k: nat)
    requires k < |s|
    ensures Reversed(s)[k] == s[|s| - 1 - k]
  {
    if k < |s| - 1 {
      ReversedAt(s[1..], k);
    }
  }

  /** Reversing twice gives back the sequence. */
  lemma ReversedTwice(s: seq<byte>)
    ensures Reversed(Reversed(s)) == s
  {
    var r := Reversed(s);
    forall k | 0 <= k < |s|
      ensures Reversed(r)[k] == s[k]
    {
      ReversedAt(r, k);
      ReversedAt(s, |s| - 1 - k);
    }
  }

  /**
   * The peer address of a Connected event, bytes 2..7 of the event, most
   * significant byte first: the order the driver prints it in, once the
   * last byte printed is data[2].
   */
  function PeerAddress(rx: RxFrame): (a: seq<byte>)
  {
    [rx.data[7], rx.data[6], rx.data[5], rx.data[4], rx.data[3], rx.data[2]]
  }

  /** The address printed is the six address bytes reversed, and reverses back to them. */
  lemma PeerAddressReversed(rx: RxFrame)
    ensures PeerAddress(rx) == Reversed(rx.data[2..8])
    ensures Reversed(PeerAddress(rx)) == rx.data[2..8]
  {
    var a := rx.data[2..8];
    forall k | 0 <= k < 6
      ensures Reversed(a)[k] == PeerAddress(rx)[k]
    {
      ReversedAt(a, k);
    }
    ReversedTwice(a);
  }

  /**
   * The address as the loop prints it: data[7 - i] for i < 5, then
   * data[8 - i] with i == 5 after the loop, which is data[3] again.
   */
  function AddressAsWritten(rx: RxFrame): (a: seq<byte>)
  {
    seq(5, i requires 0 <= i < 5 => rx.data[7 - i]) + [rx.data[8 - 5]]
  }

  /**
   * Byte 2 of the address never reaches the console, and byte 3 is
   * printed twice: for the address 01 02 03 04 05 06 the loop prints
   * 06:05:04:03:02:02 where 06:05:04:03:02:01 is meant.
   */
  lemma AddressAsWrittenDropsByte(rx: RxFrame, b: byte)
    ensures AddressAsWritten(rx.(data := rx.data[2 := b])) == AddressAsWritten(rx)
    ensures AddressAsWritten(rx)[4] == AddressAsWritten(rx)[5] == rx.data[3]
    ensures rx.data[2..8] == [1, 2, 3, 4, 5, 6] ==>
      AddressAsWritten(rx) == [6, 5, 4, 3, 2, 2] && PeerAddress(rx) == [6, 5, 4, 3, 2, 1]
  {
  }

  // ---------------------------------------------------------------------
  // nrf_parse.

  /** The PWM output after a DataReceived event carrying `duty`: a zero duty cycle switches it off. */
  function PwmFor(duty: byte): (p: Pwm)
    ensures p.PwmOn? <==> duty > 0
    ensures p.PwmOn? ==> p.duty == duty
  {
    if duty > 0 then PwmOn(duty) else PwmOff
  }

  /** The pipe mask a PipeStatus event announces: bytes 1..8, little endian. */
  function AnnouncedPipes(rx: RxFrame): Mask
  {
    StatusBits(rx.data[1..9], 8)
  }

  /** nrf_parse: act on an event. */
  function Parse(cfg: Config, rx: RxFrame, s: DriverState): (Report, DriverState)
  {
    if rx.length == 0 then (Quiet, s)
    else
      match Classify(rx.data[0])
      case CmdResponse =>
        (if rx.data[1] == CmdConnect && rx.data[2] == ErrNoError then Advertising else Quiet, s)
      case Connected =>
        (Connection(PeerAddress(rx)), s.(connState := StateConnected))
      case Disconnected =>
        var (report, t) := ClosePipes(cfg, s);
        (report, t.(connState := StateDisconnect))
      case PipeStatus =>
        var open := AnnouncedPipes(rx);
        (OpenPipes(PipeList(open, |cfg.pipeMap|)), s.(pipesOpen := open))
      case DataReceived =>
        (Quiet, if rx.data[1] == cfg.pwmRxPipe then s.(pwm := PwmFor(rx.data[2])) else s)
      case _ =>
        (Unhandled(rx.data[..rx.length]), s)
  }

  /** An empty frame is ignored. */
  lemma ParseEmpty(cfg: Config, rx: RxFrame, s: DriverState)
    requires rx.length == 0
    ensures Parse(cfg, rx, s) == (Quiet, s)
  {
  }

  /**
   * Parsing touches the connection state, the open pipes and the PWM
   * output, nothing else; and each of them only on its own event.
   */
  lemma ParseFrame(cfg: Config, rx: RxFrame, s: DriverState)
    ensures var r := Parse(cfg, rx, s).1; var e := Classify(rx.data[0]);
      && r.(connState := s.connState, pipesOpen := s.pipesOpen, pwm := s.pwm) == s
      && (r.connState != s.connState ==> rx.length != 0 && (e.Connected? || e.Disconnected?))
      && (r.pipesOpen != s.pipesOpen ==> rx.length != 0 && (e.Disconnected? || e.PipeStatus?))
      && (r.pwm != s.pwm ==> rx.length != 0 && e.DataReceived? && rx.data[1] == cfg.pwmRxPipe)
  {
  }

  /** Parsing never enters CONNECTING; a Connected event connects, a Disconnected one disconnects. */
  lemma ParseConnState(cfg: Config, rx: RxFrame, s: DriverState)
    requires rx.length != 0
    ensures var r := Parse(cfg, rx, s).1;
      && (r.connState == StateConnecting ==> s.connState == StateConnecting)
      && (rx.data[0] == EvtConnected ==> r.connState == StateConnected)
      && (rx.data[0] == EvtDisconnected ==> r.connState == StateDisconnect)
  {
  }

  /**
   * A Disconnected event closes every TX pipe, leaves the others as they
   * were, reports the pipes still open, and a second one changes nothing
   * more.
   */
  lemma ParseDisconnected(cfg: Config, rx: RxFrame, s: DriverState, k: nat)
    requires rx.length != 0 && rx.data[0] == EvtDisconnected
    ensures var (report, r) := Parse(cfg, rx, s);
      && (k in r.pipesOpen <==> k in s.pipesOpen && k !in s.txPipeMap)
      && (report.OpenPipes? && (k in report.pipes <==> 1 <= k <= |cfg.pipeMap| && k in r.pipesOpen))
      && Parse(cfg, rx, r).1 == r
  {
    PipeListExact(CloseTxPipes(s.pipesOpen, s.txPipeMap), |cfg.pipeMap|, k);
    CloseTxPipesIdempotent(s.pipesOpen, s.txPipeMap);
  }

  /**
   * A PipeStatus event replaces the open mask, whatever it held, with
   * the bits of bytes 1..8 (pipe k is bit k % 8 of byte 1 + k / 8), and
   * reports the open pipes among the configured ones.
   */
  lemma ParsePipeStatus(cfg: Config, rx: RxFrame, s: DriverState, k: nat)
    requires rx.length != 0 && rx.data[0] == EvtPipeStatus
    ensures var (report, r) := Parse(cfg, rx, s);
      && (k in r.pipesOpen <==> k < 64 && Bit(rx.data[1 + k / 8], k % 8))
      && r == Parse(cfg, rx, s.(pipesOpen := {})).1.(pipesOpen := r.pipesOpen)
      && r.pipesOpen == Parse(cfg, rx, s.(pipesOpen := {})).1.pipesOpen
      && report.OpenPipes? && (k in report.pipes <==> 1 <= k <= |cfg.pipeMap| && k in r.pipesOpen)
  {
    StatusBitsExact(rx.data[1..9], 8, k);
    PipeListExact(AnnouncedPipes(rx), |cfg.pipeMap|, k);
  }

  /** A status of 02 00 00 00 00 00 00 00 opens pipe 1 alone. */
  lemma ParsePipeStatusPipeOne(cfg: Config, rx: RxFrame, s: DriverState)
    requires rx.length != 0 && rx.data[0] == EvtPipeStatus
    requires rx.data[1..9] == [0x02, 0, 0, 0, 0, 0, 0, 0]
    ensures Parse(cfg, rx, s).1.pipesOpen == {1}
  {
    StatusBitsPipeOne(rx.data[1..9]);
  }

  /**
   * Data on the duty-cycle pipe sets the PWM output: on with the received
   * duty cycle when it is positive, off when it is zero. Data on any other
   * pipe changes nothing.
   */
  lemma ParseDataReceived(cfg: Config, rx: RxFrame, s: DriverState)
    requires rx.length != 0 && rx.data[0] == EvtDataReceived
    ensures var (report, r) := Parse(cfg, rx, s);
      && report == Quiet
      && (rx.data[1] == cfg.pwmRxPipe ==> r == s.(pwm := r.pwm) && (r.pwm == PwmOn(rx.data[2]) <==> rx.data[2] > 0)
                                          && (r.pwm == PwmOff <==> rx.data[2] == 0))
      && (rx.data[1] != cfg.pwmRxPipe ==> r == s)
  {
  }

  /** A Connected event reports the peer address, most significant byte first. */
  lemma ParseConnected(cfg: Config, rx: RxFrame, s: DriverState)
    requires rx.length != 0 && rx.data[0] == EvtConnected
    ensures var (report, r) := Parse(cfg, rx, s);
      && report.Connection? && report.address == Reversed(rx.data[2..8])
      && r == s.(connState := StateConnected)
  {
    PeerAddressReversed(rx);
  }

  /**
   * Every other event (DeviceStarted among them) leaves the state alone;
   * the ones the switch has no case for are dumped byte by byte, opcode
   * first, as many bytes as the frame announces.
   */
  lemma ParseOther(cfg: Config, rx: RxFrame, s: DriverState)
    requires rx.length != 0
    requires !(rx.data[0] in {EvtConnected, EvtDisconnected, EvtPipeStatus, EvtDataReceived})
    ensures var (report, r) := Parse(cfg, rx, s);
      && r == s
      && (rx.data[0] != EvtCmdResponse ==>
            report.Unhandled? && |report.bytes| == rx.length && report.bytes[0] == rx.data[0]
            && forall i | 0 <= i < rx.length :: report.bytes[i] == rx.data[i])
      && (rx.data[0] == EvtCmdResponse ==>
            (report == Advertising <==> rx.data[1] == CmdConnect && rx.data[2] == ErrNoError)
            && (report == Advertising || report == Quiet))
  {
  }

  // ---------------------------------------------------------------------
  // The connection step of the main loop.

  /**
   * One pass of the main loop's nRF step: while disconnected, advertise and
   * move to CONNECTING; otherwise receive, and parse and clear the
   * buffer when something arrived.
   */
  function Poll(cfg: Config, s: DriverState): (Report, DriverState)
    requires s.Ready()
  {
    if s.connState == StateDisconnect then
      (Quiet, Commands.Advertise(s).(connState := StateConnecting))
    else
      var s1 := Receive(s);
      if s1.rx.length > 0 then
        var (report, s2) := Parse(cfg, s1.rx, s1);
        (report, s2.(rx := ZeroRx()))
      else
        (Quiet, s1)
  }

  /**
   * Every pass makes exactly one transaction. Disconnected, it sends the
   * Connect request and moves to CONNECTING with nothing else changed but
   * tx; otherwise it sends the dummy request.
   */
  lemma PollTransaction(cfg: Config, s: DriverState)
    requires s.Ready()
    ensures var r := Poll(cfg, s).1;
      && r.next == s.next + 1 && r.peer == s.peer
      && |r.wire| == |s.wire| + 1 && r.wire[..|s.wire|] == s.wire
      && (s.connState == StateDisconnect ==>
            && r == s.(tx := Commands.AdvertiseFrame(), connState := StateConnecting, next := r.next, wire := r.wire)
            && r.wire[|s.wire|] == Clocked(Commands.AdvertiseFrame(), s.peer[s.next]))
      && (s.connState != StateDisconnect ==>
            r.tx == s.tx && r.wire[|s.wire|] == Clocked(ZeroTx(), s.peer[s.next]))
  {
    Commands.AdvertiseSends(s);
  }

  /**
   * The connection state machine: DISCONNECT always moves to CONNECTING,
   * CONNECTING is reached from nowhere else, and only a Connected or a
   * Disconnected event moves a connecting or connected driver.
   */
  lemma PollConnState(cfg: Config, s: DriverState)
    requires s.Ready()
    ensures var r := Poll(cfg, s).1; var f := s.peer[s.next];
      && (s.connState == StateDisconnect ==> r.connState == StateConnecting)
      && (r.connState == StateConnecting ==> s.connState != StateConnected)
      && (s.connState != StateDisconnect && r.connState != s.connState ==>
            f[1] != 0 && (f[2] == EvtConnected || f[2] == EvtDisconnected))
  {
    if s.connState != StateDisconnect {
      ReceivedData(ZeroTx(), s.peer[s.next], s.rx);
    }
  }

  /**
   * The main loop keeps the response buffer's data zero: an empty frame
   * exchanges no data byte, and a non-empty one is cleared after parsing.
   * With the buffer zero, the frame parsed is exactly the event received.
   */
  lemma PollKeepsRxClear(cfg: Config, s: DriverState)
    requires s.Ready() && s.rx.data == ZeroPayload()
    ensures var (report, r) := Poll(cfg, s); var f := s.peer[s.next];
      && r.rx.data == ZeroPayload()
      && (s.connState != StateDisconnect && f[1] != 0 ==>
            (report, r) == (Parse(cfg, Incoming(f), Receive(s)).0,
                            Parse(cfg, Incoming(f), Receive(s)).1.(rx := ZeroRx())))
  {
    var f := s.peer[s.next];
    ReceivedData(ZeroTx(), f, s.rx);
    ReceivedData(ZeroTx(), f, ZeroRx());
    if s.connState != StateDisconnect {
      assert Receive(s).rx == Incoming(f) by {
        assert Receive(s).rx.data == Incoming(f).data;
      }
    }
  }

  // ---------------------------------------------------------------------
  // nrf_reset_module.

  /** nrf_reset_module: back to DISCONNECT, then run the setup again. */
  function ResetModule(cfg: Config, s: DriverState): (Setup.SetupStatus, DriverState)
  {
    Setup.RunSetup(cfg.setupData, s.(connState := StateDisconnect))
  }

  /**
   * After a reset the driver is disconnected, whatever the setup's
   * outcome, so the next pass of the main loop advertises; the pipe masks
   * and the PWM output are left as they were.
   */
  lemma ResetModuleDisconnects(cfg: Config, s: DriverState)
    ensures var r := ResetModule(cfg, s).1;
      && r.connState == StateDisconnect
      && r.pipesOpen == s.pipesOpen && r.txPipeMap == s.txPipeMap && r.pwm == s.pwm
      && r.peer == s.peer && r.next >= s.next
  {
    Setup.RunSetupConsumed(cfg.setupData, s.(connState := StateDisconnect));
  }
}
