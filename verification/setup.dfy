/*
 * nrf_setup as a function of the driver state: the bring-up check, the
 * stream of setup messages, the drain of their responses and the wait for
 * the final DeviceStarted event. Each phase either hands the state on to
 * the next one or stops with a status; a phase that runs out of peer frames
 * stops with Stalled, the model of the driver waiting for RDYN forever.
 */
module Setup {
  import opened Aci
  import opened Exchange

  /** The outcomes of nrf_setup. */
  datatype SetupStatus =
    | SetupOk
    | UnexpectedBringupEvent
    | WrongMode
    | BadContinueResponse
    | IncompleteTransaction
    | PostSetupError
    | Stalled
  {
    /** The int8_t nrf_setup returns; a stalled setup returns nothing. */
    function Code(): (c: int)
      requires !Stalled?
      ensures -5 <= c <= 0
      ensures c == 0 <==> SetupOk?
    {
      match this
      case SetupOk => 0
      case UnexpectedBringupEvent => -1
      case WrongMode => -2
      case BadContinueResponse => -3
      case IncompleteTransaction => -4
      case PostSetupError => -5
    }
  }

  lemma CodesDistinct(a: SetupStatus, b: SetupStatus)
    requires !a.Stalled? && !b.Stalled?
    ensures a.Code() == b.Code() <==> a == b
  {
  }

  /** Either the next phase runs on the state, or setup stops here. */
  datatype Step = Go(state: DriverState) | Stop(status: SetupStatus, state: DriverState)

  // ---------------------------------------------------------------------
  // What a peer frame means when it is received into a zeroed buffer.

  predicate IsSetupResponse(r: RxFrame, status: byte)
  {
    r.data[0] == EvtCmdResponse && r.data[1] == CmdSetup && r.data[2] == status
  }

  predicate IsStarted(f: PeerFrame)
  {
    EventByte(f, 0) == EvtDeviceStarted
  }

  predicate IsContinue(f: PeerFrame)
  {
    EventByte(f, 0) == EvtCmdResponse && EventByte(f, 1) == CmdSetup &&
    EventByte(f, 2) == StatusTransactionContinue
  }

  predicate IsComplete(f: PeerFrame)
  {
    EventByte(f, 0) == EvtCmdResponse && EventByte(f, 1) == CmdSetup &&
    EventByte(f, 2) == StatusTransactionComplete
  }

  /**
   * A non-empty response to a setup message that is not "transaction
   * continue", read from the bytes exchanged while the message went out.
   */
  predicate Rejects(m: SetupMessage, f: PeerFrame)
  {
    var n := ExchangeLength(SetupFrame(m).length, f[1]);
    f[1] != 0 &&
    !(ReplyByte(f, n, 0) == EvtCmdResponse && ReplyByte(f, n, 1) == CmdSetup &&
      ReplyByte(f, n, 2) == StatusTransactionContinue)
  }

  /** Rejects judges the reply the setup message's own transaction leaves in rx. */
  lemma RejectsReply(m: SetupMessage, f: PeerFrame)
    ensures var r := Reply(SetupFrame(m), f);
      Rejects(m, f) <==> r.length != 0 && !IsSetupResponse(r, StatusTransactionContinue)
  {
    ReceivedData(SetupFrame(m), f, ZeroRx());
  }

  /**
   * The phases only move the cursor over the script, log one wire entry per
   * frame, and touch nothing but the buffers, the opmode and the pipe count.
   */
  predicate Consumed(s: DriverState, t: DriverState)
  {
    t.peer == s.peer && s.next <= t.next &&
    |t.wire| == |s.wire| + (t.next - s.next) &&
    t.wire[..|s.wire|] == s.wire &&
    t.pipesOpen == s.pipesOpen && t.txPipeMap == s.txPipeMap &&
    t.connState == s.connState && t.pwm == s.pwm
  }

  lemma ConsumedTrans(a: DriverState, b: DriverState, c: DriverState)
    requires Consumed(a, b) && Consumed(b, c)
    ensures Consumed(a, c)
  {
    assert c.wire[..|a.wire|] == c.wire[..|b.wire|][..|a.wire|];
  }

  function ClearRx(s: DriverState): DriverState
  {
    s.(rx := ZeroRx())
  }

  /** opmode and pipes are taken from a DeviceStarted event. */
  function Adopt(s: DriverState, r: RxFrame): DriverState
  {
    s.(opmode := r.data[1], pipes := r.data[3])
  }

  /** One receive into a zeroed buffer consumes one frame and yields its event. */
  lemma ReceiveStep(s: DriverState)
    requires s.Ready()
    ensures Consumed(s, Receive(ClearRx(s)))
    ensures Receive(ClearRx(s)).rx == Incoming(s.peer[s.next])
    ensures var d := Receive(ClearRx(s)).rx.data; var f := s.peer[s.next];
      d[0] == EventByte(f, 0) && d[1] == EventByte(f, 1) && d[2] == EventByte(f, 2) && d[3] == EventByte(f, 3)
  {
    IncomingBytes(s.peer[s.next]);
  }

  // ---------------------------------------------------------------------
  // The phases.

  /** The first receive: a DeviceStarted event without error, in setup mode. */
  function Bringup(s: DriverState): (r: Step)
    ensures r.Stop? ==> r.status in {UnexpectedBringupEvent, WrongMode, Stalled}
  {
    var s0 := ClearRx(s);
    if !s0.Ready() then Stop(Stalled, s0)
    else
      var s1 := Receive(s0);
      if s1.rx.data[0] != EvtDeviceStarted || s1.rx.data[2] != ErrNoError then Stop(UnexpectedBringupEvent, s1)
      else
        var s2 := Adopt(s1, s1.rx);
        if s2.opmode != OpmodeSetup then Stop(WrongMode, s2)
        else Go(s2)
  }

  /** One setup message copied into tx and sent, its response kept in a zeroed rx. */
  function SendMessage(s: DriverState, m: SetupMessage): (r: DriverState)
    requires s.Ready()
    ensures r.next == s.next + 1 && r.wire == s.wire + [Clocked(SetupFrame(m), s.peer[s.next])]
    ensures r.rx == Reply(SetupFrame(m), s.peer[s.next])
    ensures r.opmode == s.opmode && r.pipes == s.pipes
  {
    Transmit(s.(rx := ZeroRx(), tx := SetupFrame(m)), true, true)
  }

  /** Setup messages cnt .. end, each in a transaction that keeps its response. */
  function Stream(msgs: seq<SetupMessage>, s: DriverState, cnt: nat): (r: Step)
    requires cnt <= |msgs|
    ensures r.Stop? ==> r.status in {BadContinueResponse, Stalled}
    decreases |msgs| - cnt
  {
    if cnt == |msgs| then Go(s)
    else if !s.Ready() then Stop(Stalled, s.(rx := ZeroRx(), tx := SetupFrame(msgs[cnt])))
    else
      var s1 := SendMessage(s, msgs[cnt]);
      if s1.rx.length != 0 && !IsSetupResponse(s1.rx, StatusTransactionContinue) then Stop(BadContinueResponse, s1)
      else Stream(msgs, s1, cnt + 1)
  }

  /** Receive while the events say "transaction continue"; the next one must say "complete". */
  function Drain(s: DriverState): (r: Step)
    ensures r.Stop? ==> r.status in {IncompleteTransaction, Stalled}
    decreases |s.peer| - s.next
  {
    var s0 := ClearRx(s);
    if !s0.Ready() then Stop(Stalled, s0)
    else
      var s1 := Receive(s0);
      if IsSetupResponse(s1.rx, StatusTransactionContinue) then Drain(s1)
      else if !IsSetupResponse(s1.rx, StatusTransactionComplete) then Stop(IncompleteTransaction, s1)
      else Go(s1)
  }

  /** Receive until a DeviceStarted event; its status decides the outcome. */
  function Await(s: DriverState): (r: (SetupStatus, DriverState))
    ensures r.0 in {SetupOk, PostSetupError, Stalled}
    decreases |s.peer| - s.next
  {
    var s0 := ClearRx(s);
    if !s0.Ready() then (Stalled, s0)
    else
      var s1 := Receive(s0);
      if s1.rx.data[0] != EvtDeviceStarted then Await(s1)
      else if s1.rx.data[2] != ErrNoError then (PostSetupError, s1)
      else (SetupOk, Adopt(s1, s1.rx))
  }

  /** nrf_setup: the four phases in order. */
  function RunSetup(msgs: seq<SetupMessage>, s: DriverState): (SetupStatus, DriverState)
  {
    match Bringup(s)
    case Stop(st, t) => (st, t)
    case Go(t) => AfterBringup(msgs, t)
  }

  function AfterBringup(msgs: seq<SetupMessage>, t: DriverState): (SetupStatus, DriverState)
  {
    match Stream(msgs, t, 0)
    case Stop(st, u) => (st, u)
    case Go(u) => AfterStream(u)
  }

  function AfterStream(u: DriverState): (SetupStatus, DriverState)
  {
    match Drain(u)
    case Stop(st, v) => (st, v)
    case Go(v) => Await(v)
  }

  /** One stream step consumes one frame, and its rejection test is Rejects on that frame. */
  lemma SendStep(s: DriverState, m: SetupMessage)
    requires s.Ready()
    ensures Consumed(s, SendMessage(s, m))
    ensures var r := SendMessage(s, m).rx;
      (r.length != 0 && !IsSetupResponse(r, StatusTransactionContinue)) <==> Rejects(m, s.peer[s.next])
  {
    RejectsReply(m, s.peer[s.next]);
  }

  // ---------------------------------------------------------------------
  // Every phase only consumes frames and logs them.

  lemma BringupConsumed(s: DriverState)
    ensures Consumed(s, Bringup(s).state)
  {
    if s.Ready() {
      ReceiveStep(s);
    }
  }

  lemma {:induction false} StreamConsumed(msgs: seq<SetupMessage>, s: DriverState, cnt: nat)
    requires cnt <= |msgs|
    ensures Consumed(s, Stream(msgs, s, cnt).state)
    decreases |msgs| - cnt
  {
    if cnt < |msgs| && s.Ready() {
      var s1 := SendMessage(s, msgs[cnt]);
      SendStep(s, msgs[cnt]);
      if !Rejects(msgs[cnt], s.peer[s.next]) {
        StreamConsumed(msgs, s1, cnt + 1);
        ConsumedTrans(s, s1, Stream(msgs, s1, cnt + 1).state);
      }
    }
  }

  lemma {:induction false} DrainConsumed(s: DriverState)
    ensures Consumed(s, Drain(s).state)
    decreases |s.peer| - s.next
  {
    if s.Ready() {
      ReceiveStep(s);
      var s1 := Receive(ClearRx(s));
      if IsSetupResponse(s1.rx, StatusTransactionContinue) {
        DrainConsumed(s1);
        ConsumedTrans(s, s1, Drain(s1).state);
      }
    }
  }

  lemma {:induction false} AwaitConsumed(s: DriverState)
    ensures Consumed(s, Await(s).1)
    decreases |s.peer| - s.next
  {
    if s.Ready() {
      ReceiveStep(s);
      var s1 := Receive(ClearRx(s));
      if s1.rx.data[0] != EvtDeviceStarted {
        AwaitConsumed(s1);
        ConsumedTrans(s, s1, Await(s1).1);
      }
    }
  }

  lemma AfterStreamConsumed(u: DriverState)
    ensures Consumed(u, AfterStream(u).1)
  {
    DrainConsumed(u);
    match Drain(u)
    case Stop(_, _) =>
    case Go(v) =>
      AwaitConsumed(v);
      ConsumedTrans(u, v, Await(v).1);
  }

  lemma AfterBringupConsumed(msgs: seq<SetupMessage>, t: DriverState)
    ensures Consumed(t, AfterBringup(msgs, t).1)
  {
    StreamConsumed(msgs, t, 0);
    match Stream(msgs, t, 0)
    case Stop(_, _) =>
    case Go(u) =>
      AfterStreamConsumed(u);
      ConsumedTrans(t, u, AfterStream(u).1);
  }

  /**
   * Setup consumes frames one transaction at a time, logs each one, and
   * leaves the connection state, the pipe masks and the PWM output alone.
   */
  lemma RunSetupConsumed(msgs: seq<SetupMessage>, s: DriverState)
    ensures Consumed(s, RunSetup(msgs, s).1)
  {
    BringupConsumed(s);
    match Bringup(s)
    case Stop(_, _) =>
    case Go(t) =>
      AfterBringupConsumed(msgs, t);
      ConsumedTrans(s, t, AfterBringup(msgs, t).1);
  }
}
