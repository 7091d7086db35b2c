/*
 * What nrf_setup does, stated in terms of the frames the peer sends: for
 * each phase, which frame decides its outcome, what it leaves on the wire,
 * and when the whole setup succeeds.
 */
module SetupFacts {
  import opened Aci
  import opened Exchange
  import opened Setup

  // ---------------------------------------------------------------------
  // Bring-up.

  /** A DeviceStarted event in setup mode, without error. */
  predicate StartsSetup(f: PeerFrame)
  {
    IsStarted(f) && EventByte(f, 2) == ErrNoError && EventByte(f, 1) == OpmodeSetup
  }

  /** The first event alone decides -1, -2 or going on; no setup message is sent before that. */
  lemma BringupOutcome(s: DriverState)
    requires s.Ready()
    ensures var f := s.peer[s.next]; var r := Bringup(s);
      && (r.Stop? && r.status == UnexpectedBringupEvent <==> !IsStarted(f) || EventByte(f, 2) != ErrNoError)
      && (r.Stop? && r.status == WrongMode <==>
            IsStarted(f) && EventByte(f, 2) == ErrNoError && EventByte(f, 1) != OpmodeSetup)
      && (r.Go? <==> StartsSetup(f))
      && r.state.next == s.next + 1
      && r.state.wire == s.wire + [Clocked(ZeroTx(), s.peer[s.next])]
      && r.state.tx == s.tx && r.state.peer == s.peer
      && (r.Go? ==> r.state.opmode == OpmodeSetup && r.state.pipes == EventByte(f, 3))
  {
    ReceiveStep(s);
  }

  /** Without a frame to receive, setup waits for the module forever. */
  lemma BringupStallsWithoutPeer(s: DriverState)
    requires !s.Ready()
    ensures Bringup(s) == Stop(Stalled, s.(rx := ZeroRx()))
  {
  }

  // ---------------------------------------------------------------------
  // Streaming the setup messages.

  /** One step of the stream: the next message's response decides whether it goes on. */
  lemma StreamUnfold(msgs: seq<SetupMessage>, s: DriverState, cnt: nat)
    requires cnt < |msgs| && s.Ready()
    ensures Stream(msgs, s, cnt) ==
      if Rejects(msgs[cnt], s.peer[s.next]) then Stop(BadContinueResponse, SendMessage(s, msgs[cnt]))
      else Stream(msgs, SendMessage(s, msgs[cnt]), cnt + 1)
  {
    SendStep(s, msgs[cnt]);
  }

  /** Frame j answers message cnt + (j - pos) without rejecting it. */
  predicate AcceptedAt(msgs: seq<SetupMessage>, cnt: nat, frames: seq<PeerFrame>, pos: nat, j: nat)
    requires pos <= j < |frames| && cnt + (j - pos) < |msgs|
  {
    !Rejects(msgs[cnt + (j - pos)], frames[j])
  }

  /**
   * How many messages, from message cnt against frame pos on, get a frame
   * whose response does not reject them.
   */
  function Accepted(msgs: seq<SetupMessage>, cnt: nat, frames: seq<PeerFrame>, pos: nat): (n: nat)
    requires cnt <= |msgs| && pos <= |frames|
    ensures n <= |msgs| - cnt && n <= |frames| - pos
    ensures forall j | pos <= j < pos + n :: AcceptedAt(msgs, cnt, frames, pos, j)
    ensures n < |msgs| - cnt && n < |frames| - pos ==> Rejects(msgs[cnt + n], frames[pos + n])
    decreases |msgs| - cnt
  {
    if cnt == |msgs| || pos == |frames| || Rejects(msgs[cnt], frames[pos]) then 0
    else
      var m := Accepted(msgs, cnt + 1, frames, pos + 1);
      assert forall j | pos + 1 <= j < pos + 1 + m :: AcceptedAt(msgs, cnt, frames, pos, j) by {
        forall j | pos + 1 <= j < pos + 1 + m ensures AcceptedAt(msgs, cnt, frames, pos, j) {
          assert AcceptedAt(msgs, cnt + 1, frames, pos + 1, j);
        }
      }
      1 + m
  }

  /**
   * The stream goes on to the drain when every message is accepted, stops
   * with -3 at the first message whose response rejects it, and stalls when
   * the frames run out first.
   */
  lemma {:induction false} StreamOutcome(msgs: seq<SetupMessage>, s: DriverState, cnt: nat)
    requires cnt <= |msgs| && s.next <= |s.peer|
    ensures var n := Accepted(msgs, cnt, s.peer, s.next); var r := Stream(msgs, s, cnt);
      && (r.Go? <==> n == |msgs| - cnt)
      && (r.Stop? && r.status == BadContinueResponse <==> n < |msgs| - cnt && n < |s.peer| - s.next)
      && (r.Stop? && r.status == Stalled <==> n == |s.peer| - s.next < |msgs| - cnt)
      && (r.Go? ==> r.state.next == s.next + n)
      && (r.Stop? && r.status == Stalled ==> r.state.next == |s.peer|)
      && r.state.opmode == s.opmode && r.state.pipes == s.pipes && r.state.peer == s.peer
    decreases |msgs| - cnt
  {
    if cnt < |msgs| && s.Ready() {
      StreamUnfold(msgs, s, cnt);
      if !Rejects(msgs[cnt], s.peer[s.next]) {
        StreamOutcome(msgs, SendMessage(s, msgs[cnt]), cnt + 1);
      }
    }
  }

  /** Every message gets a frame that accepts it exactly when none of the frames in reach rejects. */
  lemma AcceptedAll(msgs: seq<SetupMessage>, frames: seq<PeerFrame>, pos: nat)
    requires pos <= |frames|
    ensures Accepted(msgs, 0, frames, pos) == |msgs| <==>
      pos + |msgs| <= |frames| && forall j | pos <= j < pos + |msgs| :: AcceptedAt(msgs, 0, frames, pos, j)
  {
    var n := Accepted(msgs, 0, frames, pos);
    if n < |msgs| && n < |frames| - pos {
      assert !AcceptedAt(msgs, 0, frames, pos, pos + n);
    }
  }

  /** Some message is rejected exactly when a frame in reach rejects its message. */
  lemma AcceptedStops(msgs: seq<SetupMessage>, frames: seq<PeerFrame>, pos: nat)
    requires pos <= |frames|
    ensures var n := Accepted(msgs, 0, frames, pos);
      n < |msgs| && n < |frames| - pos <==>
      exists j :: pos <= j < |frames| && j - pos < |msgs| && !AcceptedAt(msgs, 0, frames, pos, j)
  {
    var n := Accepted(msgs, 0, frames, pos);
    if n < |msgs| && n < |frames| - pos {
      assert !AcceptedAt(msgs, 0, frames, pos, pos + n);
    }
  }

  /** The stream stops with -3 exactly when a response within reach rejects its message. */
  lemma StreamRejection(msgs: seq<SetupMessage>, s: DriverState)
    requires s.next <= |s.peer|
    ensures Stream(msgs, s, 0).Stop? && Stream(msgs, s, 0).status == BadContinueResponse <==>
      exists j :: s.next <= j < |s.peer| && j - s.next < |msgs| && !AcceptedAt(msgs, 0, s.peer, s.next, j)
  {
    StreamOutcome(msgs, s, 0);
    AcceptedStops(msgs, s.peer, s.next);
  }

  /** The stream hands over to the drain exactly when every message got a frame and none was rejected. */
  lemma StreamCompletion(msgs: seq<SetupMessage>, s: DriverState)
    requires s.next <= |s.peer|
    ensures Stream(msgs, s, 0).Go? <==>
      s.next + |msgs| <= |s.peer| &&
      forall j | s.next <= j < s.next + |msgs| :: AcceptedAt(msgs, 0, s.peer, s.next, j)
  {
    StreamOutcome(msgs, s, 0);
    AcceptedAll(msgs, s.peer, s.next);
  }

  /** The stream makes at most one transaction per remaining message. */
  lemma {:induction false} StreamLength(msgs: seq<SetupMessage>, s: DriverState, cnt: nat)
    requires cnt <= |msgs|
    ensures |Stream(msgs, s, cnt).state.wire| - |s.wire| <= |msgs| - cnt
    decreases |msgs| - cnt
  {
    if cnt < |msgs| && s.Ready() {
      StreamUnfold(msgs, s, cnt);
      if !Rejects(msgs[cnt], s.peer[s.next]) {
        StreamLength(msgs, SendMessage(s, msgs[cnt]), cnt + 1);
      }
    }
  }

  /** Transaction k of the stream carries setup message cnt + k against frame next + k. */
  lemma {:induction false} StreamWireAt(msgs: seq<SetupMessage>, s: DriverState, cnt: nat, k: nat)
    requires cnt + k < |msgs| && s.next + k < |s.peer|
    requires k < |Stream(msgs, s, cnt).state.wire| - |s.wire|
    ensures Stream(msgs, s, cnt).state.wire[|s.wire| + k] == Clocked(SetupFrame(msgs[cnt + k]), s.peer[s.next + k])
    decreases k
  {
    var r := Stream(msgs, s, cnt).state;
    StreamUnfold(msgs, s, cnt);
    var s1 := SendMessage(s, msgs[cnt]);
    if Rejects(msgs[cnt], s.peer[s.next]) {
    } else if k == 0 {
      StreamConsumed(msgs, s1, cnt + 1);
      assert r.wire[..|s1.wire|] == s1.wire;
      assert r.wire[|s.wire|] == s1.wire[|s.wire|];
    } else {
      StreamWireAt(msgs, s1, cnt + 1, k - 1);
    }
  }

  /** A stream that made transactions never ran past the end of the script. */
  lemma {:induction false} StreamBounded(msgs: seq<SetupMessage>, s: DriverState, cnt: nat)
    requires cnt <= |msgs| && s.next <= |s.peer|
    ensures Stream(msgs, s, cnt).state.next <= |s.peer|
    decreases |msgs| - cnt
  {
    if cnt < |msgs| && s.Ready() {
      StreamUnfold(msgs, s, cnt);
      if !Rejects(msgs[cnt], s.peer[s.next]) {
        StreamBounded(msgs, SendMessage(s, msgs[cnt]), cnt + 1);
      }
    }
  }

  /**
   * The stream clocks out the setup messages in order, one per
   * transaction, and never more than there are.
   */
  lemma StreamSendsInOrder(msgs: seq<SetupMessage>, s: DriverState)
    requires s.next <= |s.peer|
    ensures var r := Stream(msgs, s, 0).state;
      && |r.wire| - |s.wire| <= |msgs|
      && s.next + (|r.wire| - |s.wire|) <= |s.peer|
      && forall k | 0 <= k < |r.wire| - |s.wire| ::
           r.wire[|s.wire| + k] == Clocked(SetupFrame(msgs[k]), s.peer[s.next + k])
  {
    var r := Stream(msgs, s, 0).state;
    StreamConsumed(msgs, s, 0);
    StreamLength(msgs, s, 0);
    StreamBounded(msgs, s, 0);
    forall k | 0 <= k < |r.wire| - |s.wire|
      ensures r.wire[|s.wire| + k] == Clocked(SetupFrame(msgs[k]), s.peer[s.next + k])
    {
      StreamWireAt(msgs, s, 0, k);
    }
  }

  // ---------------------------------------------------------------------
  // Draining the responses.

  predicate ContinueAt(frames: seq<PeerFrame>, i: nat)
    requires i < |frames|
  {
    IsContinue(frames[i])
  }

  /** The index of the first frame from pos on that is not a "continue" event (|frames| if none). */
  function FirstNonContinue(frames: seq<PeerFrame>, pos: nat): (k: nat)
    requires pos <= |frames|
    ensures pos <= k <= |frames|
    ensures forall i | pos <= i < k :: ContinueAt(frames, i)
    ensures k < |frames| ==> !IsContinue(frames[k])
    decreases |frames| - pos
  {
    if pos == |frames| || !IsContinue(frames[pos]) then pos else FirstNonContinue(frames, pos + 1)
  }

  /** The first event that is not "continue" decides the drain: -4 unless it says "complete". */
  lemma {:induction false} DrainOutcome(s: DriverState)
    requires s.next <= |s.peer|
    ensures var k := FirstNonContinue(s.peer, s.next); var r := Drain(s);
      && (r.Stop? && r.status == Stalled <==> k == |s.peer|)
      && (r.Stop? && r.status == Stalled ==> r.state.next == |s.peer|)
      && (r.Stop? && r.status == IncompleteTransaction <==>
            k < |s.peer| && !IsComplete(s.peer[k]))
      && (r.Go? <==> k < |s.peer| && IsComplete(s.peer[k]))
      && (r.Go? ==> r.state.next == k + 1)
      && r.state.opmode == s.opmode && r.state.pipes == s.pipes && r.state.peer == s.peer
    decreases |s.peer| - s.next
  {
    if s.Ready() {
      ReceiveStep(s);
      if IsContinue(s.peer[s.next]) {
        DrainOutcome(Receive(ClearRx(s)));
      }
    }
  }

  // ---------------------------------------------------------------------
  // Waiting for DeviceStarted.

  predicate StartedAt(frames: seq<PeerFrame>, i: nat)
    requires i < |frames|
  {
    IsStarted(frames[i])
  }

  /** The index of the first DeviceStarted event from pos on (|frames| if none). */
  function FirstStarted(frames: seq<PeerFrame>, pos: nat): (j: nat)
    requires pos <= |frames|
    ensures pos <= j <= |frames|
    ensures forall i | pos <= i < j :: !StartedAt(frames, i)
    ensures j < |frames| ==> IsStarted(frames[j])
    decreases |frames| - pos
  {
    if pos == |frames| || IsStarted(frames[pos]) then pos else FirstStarted(frames, pos + 1)
  }

  /**
   * Other events are skipped; the first DeviceStarted event decides -5 or
   * success, and on success it supplies the new opmode and pipe count.
   */
  lemma {:induction false} AwaitOutcome(s: DriverState)
    requires s.next <= |s.peer|
    ensures var j := FirstStarted(s.peer, s.next); var r := Await(s);
      && (r.0 == Stalled <==> j == |s.peer|)
      && (r.0 == PostSetupError <==> j < |s.peer| && EventByte(s.peer[j], 2) != ErrNoError)
      && (r.0 == SetupOk <==> j < |s.peer| && EventByte(s.peer[j], 2) == ErrNoError)
      && (r.0 == SetupOk ==> r.1.opmode == EventByte(s.peer[j], 1) && r.1.pipes == EventByte(s.peer[j], 3))
      && r.1.next == (if j < |s.peer| then j + 1 else |s.peer|) && r.1.peer == s.peer
    decreases |s.peer| - s.next
  {
    if s.Ready() {
      ReceiveStep(s);
      if !IsStarted(s.peer[s.next]) {
        AwaitOutcome(Receive(ClearRx(s)));
      }
    }
  }

  // ---------------------------------------------------------------------
  // The whole setup.

  /** Bring-up goes on exactly on a DeviceStarted event in setup mode, past that one frame. */
  lemma BringupGoes(s: DriverState)
    requires s.Ready()
    ensures var r := Bringup(s);
      && (r.Go? <==> StartsSetup(s.peer[s.next]))
      && r.state.peer == s.peer && r.state.next == s.next + 1
      && (r.Go? ==> r.state.opmode == OpmodeSetup)
  {
    BringupOutcome(s);
  }

  /** The stream goes on exactly when every message is accepted, past one frame per message. */
  lemma StreamGoes(msgs: seq<SetupMessage>, t: DriverState)
    requires t.next <= |t.peer|
    ensures var r := Stream(msgs, t, 0);
      && (r.Go? <==> Accepted(msgs, 0, t.peer, t.next) == |msgs|)
      && r.state.peer == t.peer
      && (r.Go? ==> r.state.next == t.next + |msgs|)
      && (r.Stop? && r.status == Stalled ==> r.state.next == |t.peer|)
  {
    StreamOutcome(msgs, t, 0);
  }

  /**
   * The frames from pos on on which setup ends well after the last message:
   * "continue" events ended by "complete", then anything up to a
   * DeviceStarted event without error.
   */
  predicate FinishesOn(frames: seq<PeerFrame>, pos: nat)
    requires pos <= |frames|
  {
    var k := FirstNonContinue(frames, pos);
    k < |frames| && IsComplete(frames[k]) &&
    var j := FirstStarted(frames, k + 1);
    j < |frames| && EventByte(frames[j], 2) == ErrNoError
  }

  /** The DeviceStarted event that ends a successful setup. */
  function FinalEvent(frames: seq<PeerFrame>, pos: nat): (f: PeerFrame)
    requires pos <= |frames| && FinishesOn(frames, pos)
    ensures IsStarted(f) && EventByte(f, 2) == ErrNoError
  {
    frames[FirstStarted(frames, FirstNonContinue(frames, pos) + 1)]
  }

  /** After the stream, the frames from the cursor on decide the outcome. */
  lemma AfterStreamOutcome(u: DriverState)
    requires u.next <= |u.peer|
    ensures AfterStream(u).0 == SetupOk <==> FinishesOn(u.peer, u.next)
    ensures AfterStream(u).0 == SetupOk ==>
      AfterStream(u).1.opmode == EventByte(FinalEvent(u.peer, u.next), 1) &&
      AfterStream(u).1.pipes == EventByte(FinalEvent(u.peer, u.next), 3)
    ensures AfterStream(u).0 == Stalled ==> AfterStream(u).1.next == |u.peer|
  {
    DrainOutcome(u);
    match Drain(u)
    case Stop(_, _) =>
    case Go(v) =>
      AwaitOutcome(v);
  }

  /**
   * The frames from pos on on which setup ends well once bring-up is done:
   * one accepting frame per message, then the drain and the final
   * DeviceStarted event.
   */
  predicate StreamsAndFinishes(msgs: seq<SetupMessage>, frames: seq<PeerFrame>, pos: nat)
    requires pos <= |frames|
  {
    Accepted(msgs, 0, frames, pos) == |msgs| && FinishesOn(frames, pos + |msgs|)
  }

  /** A stream that stops ends setup with its own error, and some message was not accepted. */
  lemma AfterBringupStopped(msgs: seq<SetupMessage>, t: DriverState, frames: seq<PeerFrame>, pos: nat)
    requires t.peer == frames && t.next == pos <= |frames|
    requires Stream(msgs, t, 0).Stop?
    ensures AfterBringup(msgs, t).0 != SetupOk
    ensures !StreamsAndFinishes(msgs, frames, pos)
  {
    StreamGoes(msgs, t);
  }

  /** A stream that accepts every message leaves the outcome to the frames after them. */
  lemma AfterBringupStreamed(msgs: seq<SetupMessage>, t: DriverState, frames: seq<PeerFrame>, pos: nat)
    requires t.peer == frames && t.next == pos <= |frames|
    requires Stream(msgs, t, 0).Go?
    ensures AfterBringup(msgs, t).0 == SetupOk <==> StreamsAndFinishes(msgs, frames, pos)
  {
    StreamGoes(msgs, t);
    AfterStreamOutcome(Stream(msgs, t, 0).state);
  }

  /** After bring-up, the messages and the frames from the cursor on decide whether setup succeeds. */
  lemma AfterBringupSucceeds(msgs: seq<SetupMessage>, t: DriverState, frames: seq<PeerFrame>, pos: nat)
    requires t.peer == frames && t.next == pos <= |frames|
    ensures AfterBringup(msgs, t).0 == SetupOk <==> StreamsAndFinishes(msgs, frames, pos)
  {
    if Stream(msgs, t, 0).Go? {
      AfterBringupStreamed(msgs, t, frames, pos);
    } else {
      AfterBringupStopped(msgs, t, frames, pos);
    }
  }

  /** When it succeeds, the opmode and the pipe count come from the final DeviceStarted event. */
  lemma AfterBringupResult(msgs: seq<SetupMessage>, t: DriverState, frames: seq<PeerFrame>, pos: nat)
    requires t.peer == frames && t.next == pos <= |frames|
    requires StreamsAndFinishes(msgs, frames, pos)
    ensures var r := AfterBringup(msgs, t).1; var e := FinalEvent(frames, pos + |msgs|);
      r.opmode == EventByte(e, 1) && r.pipes == EventByte(e, 3)
  {
    StreamGoes(msgs, t);
    AfterStreamOutcome(Stream(msgs, t, 0).state);
  }

  /** Once bring-up is done, setup only hangs when the whole script has been used. */
  lemma AfterBringupStalls(msgs: seq<SetupMessage>, t: DriverState, frames: seq<PeerFrame>, pos: nat)
    requires t.peer == frames && t.next == pos <= |frames|
    ensures AfterBringup(msgs, t).0 == Stalled ==> AfterBringup(msgs, t).1.next == |frames|
  {
    StreamGoes(msgs, t);
    match Stream(msgs, t, 0)
    case Stop(st, u) =>
      assert AfterBringup(msgs, t) == (st, u);
    case Go(u) =>
      assert AfterBringup(msgs, t) == AfterStream(u);
      AfterStreamOutcome(u);
  }

  /**
   * The script on which nrf_setup succeeds, from frame pos on: a
   * DeviceStarted event in setup mode, a frame accepting each message, then
   * the drain and the final DeviceStarted event.
   */
  predicate SucceedsOn(msgs: seq<SetupMessage>, frames: seq<PeerFrame>, pos: nat)
  {
    pos < |frames| && StartsSetup(frames[pos]) && StreamsAndFinishes(msgs, frames, pos + 1)
  }

  /** The event that ends setup on such a script. */
  function SetupEndEvent(msgs: seq<SetupMessage>, frames: seq<PeerFrame>, pos: nat): (f: PeerFrame)
    requires SucceedsOn(msgs, frames, pos)
    ensures IsStarted(f) && EventByte(f, 2) == ErrNoError
  {
    FinalEvent(frames, pos + 1 + |msgs|)
  }

  /**
   * nrf_setup returns 0 exactly when the module starts in setup mode,
   * accepts every setup message, completes the transaction and starts again
   * without error.
   */
  lemma SetupSucceeds(msgs: seq<SetupMessage>, s: DriverState)
    requires s.Ready()
    ensures RunSetup(msgs, s).0 == SetupOk <==> SucceedsOn(msgs, s.peer, s.next)
  {
    BringupGoes(s);
    match Bringup(s)
    case Stop(st, t) =>
      assert RunSetup(msgs, s) == (st, t);
      assert !StartsSetup(s.peer[s.next]);
    case Go(t) =>
      assert RunSetup(msgs, s) == AfterBringup(msgs, t);
      AfterBringupSucceeds(msgs, t, s.peer, s.next + 1);
  }

  /** After a successful setup the opmode and the pipe count come from the last DeviceStarted event. */
  lemma SetupResult(msgs: seq<SetupMessage>, s: DriverState)
    requires s.Ready() && SucceedsOn(msgs, s.peer, s.next)
    ensures var r := RunSetup(msgs, s).1; var e := SetupEndEvent(msgs, s.peer, s.next);
      && RunSetup(msgs, s).0 == SetupOk
      && r.opmode == EventByte(e, 1) && r.pipes == EventByte(e, 3)
  {
    var pos := s.next + 1;
    assert StreamsAndFinishes(msgs, s.peer, pos);
    BringupGoes(s);
    var t := Bringup(s).state;
    assert t.peer == s.peer && t.next == pos;
    AfterBringupSucceeds(msgs, t, s.peer, pos);
    AfterBringupResult(msgs, t, s.peer, pos);
    assert RunSetup(msgs, s) == AfterBringup(msgs, t);
  }

  /** Setup only hangs when the module stops answering: the whole script has been used. */
  lemma SetupStallsOnlyAtEnd(msgs: seq<SetupMessage>, s: DriverState)
    requires s.next <= |s.peer|
    ensures RunSetup(msgs, s).0 == Stalled ==> RunSetup(msgs, s).1.next == |s.peer|
  {
    if s.Ready() {
      BringupGoes(s);
      match Bringup(s)
      case Stop(_, _) =>
      case Go(t) =>
        assert RunSetup(msgs, s) == AfterBringup(msgs, t);
        AfterBringupStalls(msgs, t, s.peer, s.next + 1);
    }
  }
}
