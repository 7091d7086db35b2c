/*
 * The driver as the firmware runs it: the module-level variables of the
 * nRF8001 driver as the fields of one object, the two 30-byte frame
 * buffers as arrays, and each driver function as a method that updates
 * them in place. Every method is proved to do what the function of the
 * same name in Exchange, Setup, Commands or Dispatch says it does, so the
 * properties proved there hold of the running driver.
 */
module Driver {
  import opened Aci
  import opened Pipes
  import opened Exchange
  import Setup
  import Commands
  import Dispatch
  import Uart

  class Nrf8001 {
    /** The generated services header: pipe map, setup messages, pipe ids. */
    const cfg: Config

    /** The global rx structure: debug byte, length, data buffer. */
    var rxDebug: byte
    var rxLength: RxLength
    const rxData: array<byte>

    /** The static tx structure: length, command, data buffer. */
    var txLength: TxLength
    var txCommand: byte
    const txData: array<byte>

    var opmode: byte
    var pipes: byte
    var pipesOpen: Mask
    var txPipeMap: Mask
    var connState: ConnState
    var pwm: Pwm

    /** The frames the nRF8001 will clock out, the next one, and the bytes clocked out so far. */
    var peer: seq<PeerFrame>
    var next: nat
    var wire: seq<seq<byte>>

    /** The two buffers are 30 bytes each and distinct. */
    ghost predicate Valid()
    {
      rxData.Length == 30 && txData.Length == 30 && rxData != txData
    }

    /** The driver's variables as a value. */
    function View(): (s: DriverState)
      requires Valid()
      reads this, rxData, txData
    {
      DriverState(
        RxFrame(rxDebug, rxLength, rxData[..]),
        TxFrame(txLength, txCommand, txData[..]),
        opmode, pipes, pipesOpen, txPipeMap, connState, pwm, peer, next, wire)
    }

    /** Static storage starts zeroed. */
    constructor (config: Config, script: seq<PeerFrame>)
      ensures Valid() && cfg == config
      ensures View() == Initial(script)
      ensures fresh(rxData) && fresh(txData)
    {
      cfg := config;
      rxDebug, rxLength := 0, 0;
      txLength, txCommand := 0, 0;
      rxData := new byte[30](_ => 0);
      txData := new byte[30](_ => 0);
      opmode, pipes := 0, 0;
      pipesOpen, txPipeMap := {}, {};
      connState := StateDisconnect;
      pwm := PwmOff;
      peer, next, wire := script, 0, [];
    }

    /** memset(&rx, 0, sizeof(rx)) */
    method ClearRx()
      requires Valid()
      modifies this, rxData
      ensures View() == Setup.ClearRx(old(View()))
    {
      rxDebug, rxLength := 0, 0;
      var i := 0;
      while i < 30
        modifies rxData
        invariant 0 <= i <= 30
        invariant forall j | 0 <= j < i :: rxData[j] == 0
      {
        rxData[i] := 0;
        i := i + 1;
      }
      assert rxData[..] == ZeroPayload();
    }

    /** memset(&tx, 0, sizeof(tx)) */
    method ClearTx()
      requires Valid()
      modifies this, txData
      ensures View() == old(View()).(tx := ZeroTx())
    {
      txLength, txCommand := 0, 0;
      var i := 0;
      while i < 30
        modifies txData
        invariant 0 <= i <= 30
        invariant forall j | 0 <= j < i :: txData[j] == 0
      {
        txData[i] := 0;
        i := i + 1;
      }
      assert txData[..] == ZeroPayload();
    }

    /**
     * nrf_transmit: clock out the length byte and the command while the
     * debug byte and the length come in, then data bytes while there is
     * data to send or to receive. Without a request the zeroed dummy goes
     * out; without a response buffer what comes in is dropped.
     */
    method Transmit(sendTx: bool, receive: bool)
      requires Valid() && next < |peer|
      modifies this, rxData
      ensures View() == Exchange.Transmit(old(View()), sendTx, receive)
    {
      var f := peer[next];
      ghost var t := if sendTx then View().tx else ZeroTx();
      ghost var into := View().rx;
      var len: TxLength := if sendTx then txLength else 0;
      var cmd: byte := if sendTx then txCommand else 0;
      var length: RxLength := f[1];
      if receive {
        rxDebug, rxLength := f[0], length;
      }
      var sent := ClockData(sendTx, receive, len, cmd, f, t, into);
      wire := wire + [sent];
      next := next + 1;
    }

    /**
     * The data loop of nrf_transmit: byte i of the request goes out and
     * byte i of the response comes in, while i is below tx.length - 1 or
     * rx.length.
     */
    method ClockData(sendTx: bool, receive: bool, len: TxLength, cmd: byte, f: PeerFrame,
                     ghost t: TxFrame, ghost into: RxFrame)
      returns (sent: seq<byte>)
      requires Valid()
      requires t.length == len && t.command == cmd
      requires sendTx ==> t.data == txData[..]
      requires !sendTx ==> t.data == ZeroPayload()
      requires into.data == rxData[..]
      modifies rxData
      ensures sent == Clocked(t, f)
      ensures rxData[..] == if receive then Received(t, f, into).data else into.data
    {
      var length: RxLength := f[1];
      sent := [len, cmd];
      ghost var n := ExchangeLength(len, length);
      var i := 0;
      while i < len - 1 || i < length
        invariant 0 <= i <= n
        invariant sent == [len, cmd] + t.data[..i]
        invariant forall j | 0 <= j < 30 :: rxData[j] == if receive && j < i then f[2 + j] else old(rxData[j])
        decreases n - i
      {
        var b: byte := if sendTx then txData[i] else 0;
        assert t.data[..i + 1] == t.data[..i] + [b];
        sent := sent + [b];
        if receive {
          rxData[i] := f[2 + i];
        }
        i := i + 1;
      }
      ReceivedData(t, f, into);
    }

    /** nrf_send */
    method Send()
      requires Valid() && next < |peer|
      modifies this, rxData
      ensures View() == Exchange.Send(old(View()))
    {
      Transmit(true, false);
    }

    /** nrf_receive */
    method Receive()
      requires Valid() && next < |peer|
      modifies this, rxData
      ensures View() == Exchange.Receive(old(View()))
    {
      Transmit(false, true);
    }

    /** nrf_txrx */
    method TxRx()
      requires Valid() && next + 2 <= |peer|
      modifies this, rxData
      ensures View() == Exchange.TxRx(old(View()))
    {
      Send();
      Receive();
    }

    // -------------------------------------------------------------------
    // nrf_setup and nrf_reset_module.

    /** memcpy_P(&tx, &setup_data[cnt].data, sizeof(struct nrf_tx)) */
    method LoadTx(m: SetupMessage)
      requires Valid()
      modifies this, txData
      ensures View() == old(View()).(tx := SetupFrame(m))
    {
      txLength, txCommand := m.data[0], m.data[1];
      var i := 0;
      while i < 30
        modifies txData
        invariant 0 <= i <= 30
        invariant forall j | 0 <= j < i :: txData[j] == m.data[2 + j]
      {
        txData[i] := m.data[2 + i];
        i := i + 1;
      }
      assert txData[..] == m.data[2..];
    }

    /** The first receive of nrf_setup: a DeviceStarted event without error, in setup mode. */
    method Bringup() returns (go: bool, status: Setup.SetupStatus)
      requires Valid()
      modifies this, rxData
      ensures Setup.Bringup(old(View())) == if go then Setup.Go(View()) else Setup.Stop(status, View())
    {
      ClearRx();
      if next >= |peer| {
        return false, Setup.Stalled;
      }
      Receive();
      if rxData[0] != EvtDeviceStarted || rxData[2] != ErrNoError {
        return false, Setup.UnexpectedBringupEvent;
      }
      opmode := rxData[1];
      pipes := rxData[3];
      if opmode != OpmodeSetup {
        return false, Setup.WrongMode;
      }
      return true, Setup.SetupOk;
    }

    /**
     * The setup message loop: each message is copied into tx and sent with
     * a zeroed rx; an empty response is skipped, any other response must
     * be "transaction continue".
     */
    method StreamMessages() returns (go: bool, status: Setup.SetupStatus)
      requires Valid()
      modifies this, rxData, txData
      ensures Setup.Stream(cfg.setupData, old(View()), 0) == if go then Setup.Go(View()) else Setup.Stop(status, View())
    {
      ghost var s0 := View();
      var msgs := cfg.setupData;
      var cnt := 0;
      while cnt < |msgs|
        invariant cnt <= |msgs|
        invariant Setup.Stream(msgs, View(), cnt) == Setup.Stream(msgs, s0, 0)
        decreases |msgs| - cnt
      {
        var more;
        more, status := StreamStep(msgs, cnt);
        if !more {
          return false, status;
        }
        cnt := cnt + 1;
      }
      return true, Setup.SetupOk;
    }

    /**
     * One pass of the setup message loop: message cnt goes out with a
     * zeroed rx; the loop goes on unless the response rejects it or no
     * frame is left.
     */
    method StreamStep(msgs: seq<SetupMessage>, cnt: nat) returns (more: bool, status: Setup.SetupStatus)
      requires Valid() && cnt < |msgs|
      modifies this, rxData, txData
      ensures more ==> Setup.Stream(msgs, old(View()), cnt) == Setup.Stream(msgs, View(), cnt + 1)
      ensures !more ==> Setup.Stream(msgs, old(View()), cnt) == Setup.Stop(status, View())
    {
      ghost var v := View();
      PrepareMessage(msgs[cnt]);
      if next >= |peer| {
        return false, Setup.Stalled;
      }
      Transmit(true, true);
      assert View() == Setup.SendMessage(v, msgs[cnt]);
      if rxLength != 0 &&
         !(rxData[0] == EvtCmdResponse && rxData[1] == CmdSetup && rxData[2] == StatusTransactionContinue)
      {
        return false, Setup.BadContinueResponse;
      }
      return true, Setup.SetupOk;
    }

    /** memset(&rx, 0, sizeof(rx)), then the message copied into tx. */
    method PrepareMessage(m: SetupMessage)
      requires Valid()
      modifies this, rxData, txData
      ensures View() == old(View()).(rx := ZeroRx(), tx := SetupFrame(m))
    {
      ClearRx();
      LoadTx(m);
    }

    /** Receive while the events say "transaction continue"; the next one must say "complete". */
    method DrainResponses() returns (go: bool, status: Setup.SetupStatus)
      requires Valid()
      modifies this, rxData
      ensures Setup.Drain(old(View())) == if go then Setup.Go(View()) else Setup.Stop(status, View())
    {
      ghost var s0 := View();
      while true
        invariant Setup.Drain(View()) == Setup.Drain(s0)
        decreases |peer| - next
      {
        ClearRx();
        if next >= |peer| {
          return false, Setup.Stalled;
        }
        Receive();
        if !(rxData[0] == EvtCmdResponse && rxData[1] == CmdSetup && rxData[2] == StatusTransactionContinue) {
          if !(rxData[0] == EvtCmdResponse && rxData[1] == CmdSetup && rxData[2] == StatusTransactionComplete) {
            return false, Setup.IncompleteTransaction;
          }
          return true, Setup.SetupOk;
        }
      }
    }

    /** Receive until a DeviceStarted event; its status decides the outcome. */
    method AwaitStarted() returns (status: Setup.SetupStatus)
      requires Valid()
      modifies this, rxData
      ensures Setup.Await(old(View())) == (status, View())
    {
      ghost var s0 := View();
      while true
        invariant Setup.Await(View()) == Setup.Await(s0)
        decreases |peer| - next
      {
        ClearRx();
        if next >= |peer| {
          return Setup.Stalled;
        }
        Receive();
        if rxData[0] == EvtDeviceStarted {
          if rxData[2] != ErrNoError {
            return Setup.PostSetupError;
          }
          opmode := rxData[1];
          pipes := rxData[3];
          return Setup.SetupOk;
        }
      }
    }

    /** nrf_setup */
    method RunSetup() returns (status: Setup.SetupStatus)
      requires Valid()
      modifies this, rxData, txData
      ensures (status, View()) == Setup.RunSetup(cfg.setupData, old(View()))
    {
      var go;
      go, status := Bringup();
      if !go {
        return;
      }
      go, status := StreamMessages();
      if !go {
        return;
      }
      go, status := DrainResponses();
      if !go {
        return;
      }
      status := AwaitStarted();
    }

    /** nrf_reset_module: back to DISCONNECT, then set the module up again. */
    method ResetModule() returns (status: Setup.SetupStatus)
      requires Valid()
      modifies this, rxData, txData
      ensures (status, View()) == Dispatch.ResetModule(cfg, old(View()))
    {
      connState := StateDisconnect;
      status := RunSetup();
    }

    // -------------------------------------------------------------------
    // Pipe bookkeeping.

    /** nrf_tx_map_pipes */
    method TxMapPipes()
      requires Valid() && cfg.Valid()
      modifies this
      ensures View() == Dispatch.TxMapPipes(cfg, old(View()))
    {
      ghost var m0 := txPipeMap;
      var i := 0;
      while i < |cfg.pipeMap|
        invariant 0 <= i <= |cfg.pipeMap|
        invariant txPipeMap == m0 + TxPipeBits(cfg.pipeMap, i)
        invariant View() == old(View()).(txPipeMap := txPipeMap)
      {
        if cfg.pipeMap[i].store == StoreLocal && cfg.pipeMap[i].kind == PipeTx {
          txPipeMap := txPipeMap + {i + 1};
        }
        i := i + 1;
      }
    }

    /** The pipe list printed after "Open Pipes: ": pipes 1 .. NUMBER_OF_PIPES whose bit is set. */
    method ListOpenPipes(open: Mask) returns (ps: seq<nat>)
      ensures ps == Dispatch.PipeList(open, |cfg.pipeMap|)
    {
      ps := [];
      var i := 1;
      while i <= |cfg.pipeMap|
        invariant 1 <= i <= |cfg.pipeMap| + 1
        invariant ps == Dispatch.PipeList(open, i - 1)
      {
        if i in open {
          ps := ps + [i];
        }
        i := i + 1;
      }
    }

    /** nrf_close_tx_pipes */
    method CloseTxPipes() returns (report: Dispatch.Report)
      requires Valid()
      modifies this
      ensures (report, View()) == Dispatch.ClosePipes(cfg, old(View()))
    {
      pipesOpen := pipesOpen - txPipeMap;
      var ps := ListOpenPipes(pipesOpen);
      report := Dispatch.OpenPipes(ps);
    }

    // -------------------------------------------------------------------
    // nrf_parse.

    /** nrf_parse on the global rx structure. */
    method Parse() returns (report: Dispatch.Report)
      requires Valid()
      modifies this
      ensures (report, View()) == Dispatch.Parse(cfg, old(View()).rx, old(View()))
    {
      if rxLength == 0 {
        return Dispatch.Quiet;
      }
      var op := rxData[0];
      if op == EvtCmdResponse {
        report := if rxData[1] == CmdConnect && rxData[2] == ErrNoError then Dispatch.Advertising else Dispatch.Quiet;
      } else if op == EvtConnected {
        connState := StateConnected;
        var address := PeerAddress();
        report := Dispatch.Connection(address);
      } else if op == EvtDisconnected {
        report := CloseTxPipes();
        connState := StateDisconnect;
      } else if op == EvtPipeStatus {
        var open := StatusMask();
        pipesOpen := open;
        var ps := ListOpenPipes(open);
        report := Dispatch.OpenPipes(ps);
      } else if op == EvtDataReceived {
        if rxData[1] == cfg.pwmRxPipe {
          pwm := if rxData[2] > 0 then PwmOn(rxData[2]) else PwmOff;
        }
        report := Dispatch.Quiet;
      } else {
        var bytes := ReceivedBytes();
        report := Dispatch.Unhandled(bytes);
      }
    }

    /** The address of a Connected event: data[7 - i] for i = 0 .. 5. */
    method PeerAddress() returns (address: seq<byte>)
      requires Valid()
      ensures address == Dispatch.PeerAddress(View().rx)
    {
      address := [];
      var i := 0;
      while i < 5
        invariant 0 <= i <= 5
        invariant |address| == i && forall k | 0 <= k < i :: address[k] == rxData[7 - k]
      {
        address := address + [rxData[7 - i]];
        i := i + 1;
      }
      address := address + [rxData[7 - i]];
    }

    /** pipes_open assembled from the eight status bytes, byte i shifted left by 8i. */
    method StatusMask() returns (open: Mask)
      requires Valid()
      ensures open == Dispatch.AnnouncedPipes(View().rx)
    {
      ghost var bytes := rxData[1..9];
      open := {};
      var i := 0;
      while i < 8
        invariant 0 <= i <= 8
        invariant open == StatusBits(bytes, i)
      {
        open := open + ByteBits(rxData[i + 1], i);
        i := i + 1;
      }
    }

    /** The bytes dumped for an unhandled event: data[0 .. length - 1]. */
    method ReceivedBytes() returns (bytes: seq<byte>)
      requires Valid()
      ensures bytes == View().rx.data[..rxLength]
    {
      bytes := [];
      var i := 0;
      while i < rxLength
        invariant 0 <= i <= rxLength
        invariant bytes == rxData[..i]
      {
        bytes := bytes + [rxData[i]];
        i := i + 1;
      }
    }

    // -------------------------------------------------------------------
    // The requests built by hand.

    /** nrf_advertise */
    method Advertise()
      requires Valid() && next < |peer|
      modifies this, rxData, txData
      ensures View() == Commands.Advertise(old(View()))
    {
      ClearTx();
      var timeout := Commands.AdvertiseTimeout;
      var advival := Commands.AdvertiseInterval;
      txLength, txCommand := 5, CmdConnect;
      txData[0] := Lsb(timeout);
      txData[1] := Msb(timeout);
      txData[2] := Lsb(advival);
      txData[3] := Msb(advival);
      Commands.AdvertiseWordBytes();
      Commands.AdvertiseFrameLayout();
      assert txData[..] == Commands.AdvertiseFrame().data;
      Send();
    }

    /** nrf_send_button_data */
    method SendButtonData(button: byte) returns (code: int)
      requires Valid() && cfg.Valid()
      requires cfg.buttonTxPipe in pipesOpen ==> next < |peer|
      modifies this, rxData, txData
      ensures (code, View()) == Commands.SendButtonData(cfg.buttonTxPipe, button, old(View()))
    {
      if cfg.buttonTxPipe !in pipesOpen {
        return -1;
      }
      ClearTx();
      txLength, txCommand := 3, CmdSendData;
      txData[0] := cfg.buttonTxPipe;
      txData[1] := button;
      assert txData[..] == Commands.ButtonFrame(cfg.buttonTxPipe, button).data;
      Send();
      return 0;
    }

    /** nrf_print_temperature: the line it prints. */
    method PrintTemperature() returns (text: string)
      requires Valid() && next + 2 <= |peer|
      modifies this, rxData, txData
      ensures (text, View()) == Commands.PrintTemperature(old(View()))
    {
      ghost var s0 := View();
      ClearTx();
      ClearRx();
      txLength, txCommand := 1, CmdGetTemperature;
      assert txData[..] == Commands.TemperatureFrame().data;
      assert View() == s0.(tx := Commands.TemperatureFrame(), rx := ZeroRx());
      TxRx();
      var raw := Word(rxData[3], rxData[4]);
      var whole := Uart.PutInt(raw / 4, 1);
      var celsius := whole + "." + Commands.FractionText(raw % 4);
      text := "Temperature: " + celsius + " C\r\n";
    }

    // -------------------------------------------------------------------
    // The main loop.

    /** One pass of the main loop's nRF step. */
    method Poll() returns (report: Dispatch.Report)
      requires Valid() && next < |peer|
      modifies this, rxData, txData
      ensures (report, View()) == Dispatch.Poll(cfg, old(View()))
    {
      if connState == StateDisconnect {
        Advertise();
        connState := StateConnecting;
        report := Dispatch.Quiet;
      } else {
        Receive();
        if rxLength > 0 {
          report := Parse();
          ClearRx();
        } else {
          report := Dispatch.Quiet;
        }
      }
    }
  }
}
