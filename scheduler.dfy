/** The acquisition scheduler: the `switch (state)` of the main loop, ticked
    once per millisecond, as a pure step on its own variables: the cycle
    state, the 16-bit millisecond counter and the level of the request line.
    The clearing of the frame buffer and the decoding are the engine's; here
    a tick only says which of them happen. */
module Scheduler {

  datatype State = WaitFinish | SendReq | WaitData

  /** `state`, `ms_counter` and the request pin. */
  datatype Control = Control(state: State, ms: nat, reqHigh: bool)

  /** What a tick reports on the serial line. */
  datatype Event = FrameDecoded | NoData

  datatype Outcome = Outcome(next: Control, events: seq<Event>)

  /** Ticks of idle level before each request. */
  const IdleTicks: nat := 10

  /** Counter value past which a request without a frame is given up. */
  const TimeoutTicks: nat := 250

  /** `ms_counter` is a `uint16_t`. */
  const CounterModulus: nat := 0x1_0000

  /** The variables as the main loop starts: the pin is still at the port's
      reset level, low. */
  function Initial(): Control
  {
    Control(WaitFinish, 0, false)
  }

  /** One pass of the loop body. `frameDone` is `clocks == 52` as the tick
      reads it. In WAIT_DATA the timeout test runs after the completion
      branch, on the counter that branch may have reset. */
  function Step(c: Control, frameDone: bool): (o: Outcome)
    ensures |o.events| <= 1 && (o.events != [] ==> c.state == WaitData)
    ensures c.state == WaitData && frameDone ==>
              o.events == [FrameDecoded] && o.next == Control(WaitFinish, 0, true)
    ensures o.next.state == SendReq ==> c.state == WaitFinish && o.next.ms == 0 && o.next.reqHigh
    ensures o.next.state == WaitData ==> c.state != WaitFinish
  {
    var ms := (c.ms + 1) % CounterModulus;
    match c.state
    case WaitFinish =>
      if ms == IdleTicks then Outcome(Control(SendReq, 0, true), [])
      else Outcome(Control(WaitFinish, ms, true), [])
    case SendReq =>
      Outcome(Control(WaitData, ms, false), [])
    case WaitData =>
      var done := if frameDone then Outcome(Control(WaitFinish, 0, true), [FrameDecoded])
                  else Outcome(Control(WaitData, ms, c.reqHigh), []);
      if done.next.ms > TimeoutTicks
      then Outcome(Control(WaitFinish, 0, done.next.reqHigh), done.events + [NoData])
      else done
  }

  /** What holds between ticks: the idle wait is under 10 ticks and drives the
      line high after its first tick, a request goes out on a reset counter
      with the line high, and a wait for data lasts 1 to 250 ticks with the
      line low. In particular the counter never reaches its 16-bit limit. */
  ghost predicate Inv(c: Control)
  {
    match c.state
    case WaitFinish => c.ms < IdleTicks && (c.ms > 0 ==> c.reqHigh)
    case SendReq => c.ms == 0 && c.reqHigh
    case WaitData => 1 <= c.ms <= TimeoutTicks && !c.reqHigh
  }

  lemma InitialInv()
    ensures Inv(Initial())
  {
  }

  /** Every tick keeps the invariant, whatever the sampler has done. */
  lemma StepInv(c: Control, frameDone: bool)
    requires Inv(c)
    ensures Inv(Step(c, frameDone).next)
    ensures c.ms + 1 < CounterModulus
  {
  }

  /** The state transitions of one tick: WAIT_FINISH moves on exactly when
      its counter reaches 10, SEND_REQ always moves on with the line low,
      WAIT_DATA moves back on a complete frame or on its 250th tick. */
  lemma StepState(c: Control, frameDone: bool)
    requires Inv(c)
    ensures var n := Step(c, frameDone).next;
            match c.state
            case WaitFinish =>
              (n.state == SendReq <==> c.ms + 1 == IdleTicks)
              && (n.state == SendReq ==> n.ms == 0) && n.reqHigh
            case SendReq => n.state == WaitData && n.ms == 1 && !n.reqHigh
            case WaitData =>
              (n.state == WaitFinish <==> frameDone || c.ms == TimeoutTicks)
              && (n.state == WaitFinish ==> n.ms == 0 && (n.reqHigh <==> frameDone))
              && (n.state == WaitData ==> n.ms == c.ms + 1 && !n.reqHigh)
  {
  }

  /** What one tick reports: a decoded frame when the frame is complete in
      WAIT_DATA, "no data" on the 250th tick of WAIT_DATA without a frame,
      and never both. */
  lemma StepEvents(c: Control, frameDone: bool)
    requires Inv(c)
    ensures Step(c, frameDone).events ==
            if c.state == WaitData && frameDone then [FrameDecoded]
            else if c.state == WaitData && c.ms == TimeoutTicks then [NoData]
            else []
  {
  }

  /** `n` ticks during which no frame completes. */
  function Quiet(c: Control, n: nat): Outcome
    decreases n
  {
    if n == 0 then Outcome(c, [])
    else
      var o := Step(c, false);
      var r := Quiet(o.next, n - 1);
      Outcome(r.next, o.events + r.events)
  }

  /** Quiet ticks compose. */
  lemma {:induction false} QuietSplit(c: Control, a: nat, b: nat)
    ensures var first := Quiet(c, a);
            var second := Quiet(first.next, b);
            Quiet(c, a + b) == Outcome(second.next, first.events + second.events)
    decreases a
  {
    if a > 0 {
      var o := Step(c, false);
      QuietSplit(o.next, a - 1, b);
      assert a + b - 1 == (a - 1) + b;
    }
  }

  /** The idle wait counts up silently with the line high. */
  lemma {:induction false} IdleTicksPass(m: nat, k: nat, high: bool)
    requires m + k < IdleTicks
    ensures Quiet(Control(WaitFinish, m, high), k)
            == Outcome(Control(WaitFinish, m + k, high || k > 0), [])
    decreases k
  {
    if k > 0 {
      assert Step(Control(WaitFinish, m, high), false) == Outcome(Control(WaitFinish, m + 1, true), []);
      IdleTicksPass(m + 1, k - 1, true);
    }
  }

  /** Waiting for data counts up silently with the line low, up to 250. */
  lemma {:induction false} WaitTicksPass(m: nat, k: nat)
    requires 1 <= m && m + k <= TimeoutTicks
    ensures Quiet(Control(WaitData, m, false), k) == Outcome(Control(WaitData, m + k, false), [])
    decreases k
  {
    if k > 0 {
      assert Step(Control(WaitData, m, false), false) == Outcome(Control(WaitData, m + 1, false), []);
      WaitTicksPass(m + 1, k - 1);
    }
  }

  /** The last idle tick and the request tick: the line goes low and the
      wait for data starts at 1. */
  lemma RequestGoesOut()
    ensures Quiet(Control(WaitFinish, 9, true), 2) == Outcome(Control(WaitData, 1, false), [])
  {
    assert Step(Control(WaitFinish, 9, true), false).next == Control(SendReq, 0, true);
  }

  /** The 250th tick of waiting without a frame reports "no data". */
  lemma TimeoutFires()
    ensures Quiet(Control(WaitData, 250, false), 1) == Outcome(Control(WaitFinish, 0, false), [NoData])
  {
    assert Step(Control(WaitData, 250, false), false) == Outcome(Control(WaitFinish, 0, false), [NoData]);
  }

  /** The request goes out silently: 10 idle ticks and the request tick
      bring any cycle start to the first tick of waiting for data. */
  lemma RequestAfterIdle(high: bool, rest: nat)
    ensures Quiet(Control(WaitFinish, 0, high), 11 + rest) == Quiet(Control(WaitData, 1, false), rest)
  {
    IdleTicksPass(0, 9, high);
    QuietThrough(Control(WaitFinish, 0, high), 9, 2 + rest, Control(WaitFinish, 9, true));
    RequestThenWait(rest);
  }

  /** From the last idle tick on: the request tick, then the wait for data. */
  lemma RequestThenWait(rest: nat)
    ensures Quiet(Control(WaitFinish, 9, true), 2 + rest) == Quiet(Control(WaitData, 1, false), rest)
  {
    RequestGoesOut();
    QuietThrough(Control(WaitFinish, 9, true), 2, rest, Control(WaitData, 1, false));
  }

  /** Silent ticks up to `mid` leave nothing but what follows `mid`. */
  lemma QuietThrough(c: Control, a: nat, b: nat, mid: Control)
    requires Quiet(c, a) == Outcome(mid, [])
    ensures Quiet(c, a + b) == Quiet(mid, b)
  {
    QuietSplit(c, a, b);
    assert [] + Quiet(mid, b).events == Quiet(mid, b).events;
  }

  /** Without a frame, the wait for data gives up on its 250th tick, reports
      "no data" once, and goes back to the idle wait. */
  lemma TimeoutAfterWaiting()
    ensures Quiet(Control(WaitData, 1, false), 250) == Outcome(Control(WaitFinish, 0, false), [NoData])
  {
    WaitTicksPass(1, 249);
    TimeoutFires();
    QuietSplit(Control(WaitData, 1, false), 249, 1);
  }

  /** With no caliper attached, a request cycle takes 10 idle ticks, one
      request tick and 250 ticks of waiting, reports "no data" once at the
      end, and comes back to the start of the idle wait (line still low). */
  lemma NoDataCycle(high: bool)
    ensures Quiet(Control(WaitFinish, 0, high), 261) == Outcome(Control(WaitFinish, 0, false), [NoData])
  {
    RequestAfterIdle(high, 250);
    TimeoutAfterWaiting();
  }

  /** Before that last tick the cycle reports nothing. */
  lemma NoDataNotEarly(high: bool, k: nat)
    requires k < 261
    ensures Quiet(Control(WaitFinish, 0, high), k).events == []
  {
    var c0 := Control(WaitFinish, 0, high);
    if k <= 9 {
      IdleTicksPass(0, k, high);
    } else if k == 10 {
      IdleTicksPass(0, 9, high);
      QuietSplit(c0, 9, 1);
      assert Quiet(Control(WaitFinish, 9, true), 1).events == [];
    } else {
      RequestAfterIdle(high, k - 11);
      WaitTicksPass(1, k - 11);
    }
  }
}
