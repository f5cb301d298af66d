/** The firmware's shared state and its two activities: the clock-edge
    handler `ISR(INT1_vect)` and one pass of the main loop's body. A clock
    edge is taken as one atomic step between two ticks. */
module Acquisition {
  import opened Frame
  import opened Decoder
  import opened Scheduler

  const NoDataText := "no data: is the device powered?\n"

  /** The line one event prints, given the buffer and the overrun count that
      `decode` reads. */
  function EventLine(e: Event, buf: seq<Byte>, flag: Byte): string
    requires |buf| == FrameSlots
  {
    if e == FrameDecoded then Line(buf, flag) else NoDataText
  }

  /** The lines a tick's events print, one per event, in order. */
  function Report(events: seq<Event>, buf: seq<Byte>, flag: Byte): (lines: seq<string>)
    requires |buf| == FrameSlots
    ensures |lines| == |events|
    ensures forall i :: 0 <= i < |events| ==> lines[i] == EventLine(events[i], buf, flag)
  {
    if events == [] then [] else [EventLine(events[0], buf, flag)] + Report(events[1..], buf, flag)
  }

  /** What one tick prints: `decode`'s line when WAIT_DATA sees a complete
      frame, the "no data" line on WAIT_DATA's 250th tick without one, and
      nothing otherwise. */
  lemma TickReport(c: Control, frameDone: bool, buf: seq<Byte>, flag: Byte)
    requires Inv(c) && |buf| == FrameSlots
    ensures Report(Step(c, frameDone).events, buf, flag) ==
            if c.state == WaitData && frameDone then [Line(buf, flag)]
            else if c.state == WaitData && c.ms == TimeoutTicks then [NoDataText]
            else []
  {
    var events := Step(c, frameDone).events;
    StepEvents(c, frameDone);
    if events != [] {
      assert events[1..] == [];
    }
  }

  /** The handler's write, stated on its own counters: with the bits `d`
      taken so far at slot `bytePos` and bit `bitPos`, the open slot is
      inside the buffer, its 8-bit addition does not wrap, and the write
      yields the buffer of one more bit. */
  lemma EdgeWrite(d: seq<bool>, bytePos: Byte, bitPos: Byte, bit: bool)
    requires |d| < FrameBits && bitPos < 4 && |d| == 4 * bytePos + bitPos
    ensures bytePos < FrameSlots
    ensures Fill(d)[bytePos] + Shl1(bitPos) <= 15
    ensures Fill(d + [bit]) ==
            if bit then Fill(d)[bytePos := Fill(d)[bytePos] + Shl1(bitPos)] else Fill(d)
  {
    SlotOf(|d|, bytePos, bitPos);
    FillAppend(d, bit);
  }

  /** Clock count n sits at slot q, bit r. */
  lemma SlotOf(n: nat, q: nat, r: nat)
    requires n == 4 * q + r && r < 4
    ensures n / 4 == q && n % 4 == r
  {
  }

  class Engine {
    /** `buf[13]`, filled by the handler, cleared by SEND_REQ, read by `decode`. */
    var buf: array<Byte>
    /** Edges taken into the current frame. */
    var clocks: Byte
    /** Slot and bit the next edge writes. */
    var bytePos: Byte
    var bitPos: Byte
    /** Cleared by SEND_REQ and otherwise unused. */
    var delays: Byte
    /** Edges that arrived while a complete frame was waiting to be read. */
    var flag: Byte
    /** The scheduler's `state`, `ms_counter` and request pin. */
    var state: State
    var msCounter: nat
    var reqHigh: bool
    /** Every line printed on the serial stream, in order. */
    var output: seq<string>
    /** The data-line levels sampled since the last clearing, oldest first. */
    ghost var received: seq<bool>

    function ControlState(): Control
      reads this
    {
      Control(state, msCounter, reqHigh)
    }

    /** The sampler's counters always point at the next bit of the frame
        (`clocks == 4 * byte_pos + bit_pos`, at most 52), so every write
        lands inside the 13 slots; the buffer holds exactly the bits taken
        since the last clearing; and the scheduler is between ticks. */
    ghost predicate Valid()
      reads this, buf
    {
      buf.Length == FrameSlots
      && bitPos < 4 && clocks == 4 * bytePos + bitPos && clocks <= FrameBits
      && |received| == clocks && buf[..] == Fill(received)
      && Inv(ControlState())
    }

    /** The variables as the main loop starts: zero-initialised globals, the
        idle wait, the pin at its reset level, nothing printed yet. */
    constructor ()
      ensures Valid() && fresh(buf)
      ensures ControlState() == Initial()
      ensures clocks == 0 && bytePos == 0 && bitPos == 0 && delays == 0 && flag == 0
      ensures received == [] && buf[..] == Cleared() && output == []
    {
      buf := new Byte[FrameSlots](_ => 0);
      clocks, bytePos, bitPos, delays, flag := 0, 0, 0, 0, 0;
      state, msCounter, reqHigh := WaitFinish, 0, false;
      output := [];
      received := [];
      new;
      assert buf[..] == Cleared();
    }

    /** `ISR(INT1_vect)`: one falling clock edge, with `dataBit` the level of
        the data line. On a complete frame it only counts the overrun (8-bit,
        wrapping); otherwise it adds the bit's place value to the open slot,
        leaves every other slot alone and advances the counters. */
    method Edge(dataBit: bool)
      requires Valid()
      modifies this`clocks, this`bytePos, this`bitPos, this`flag, this`received, buf
      ensures Valid()
      ensures old(clocks) == FrameBits ==>
                flag == (old(flag) + 1) % 256
                && clocks == old(clocks) && bytePos == old(bytePos) && bitPos == old(bitPos)
                && buf[..] == old(buf[..]) && received == old(received)
      ensures old(clocks) < FrameBits ==>
                flag == old(flag) && clocks == old(clocks) + 1
                && old(bytePos) < FrameSlots
                && buf[..] == (if dataBit then old(buf[..][bytePos := buf[bytePos] + Shl1(bitPos)]) else old(buf[..]))
                && received == old(received) + [dataBit]
    {
      if clocks == FrameBits {
        flag := (flag + 1) % 256;
      } else {
        TakeBit(dataBit);
      }
    }

    /** The sampling part of the handler, below 52 clocks: count the clock,
        add `1 << bit_pos` to `buf[byte_pos]` when the bit is set, and move to
        the next bit, and to the next slot after every fourth. */
    method TakeBit(dataBit: bool)
      requires Valid() && clocks < FrameBits
      modifies this`clocks, this`bytePos, this`bitPos, this`received, buf
      ensures Valid()
      ensures clocks == old(clocks) + 1 && old(bytePos) < FrameSlots
      ensures buf[..] == if dataBit then old(buf[..][bytePos := buf[bytePos] + Shl1(bitPos)]) else old(buf[..])
      ensures received == old(received) + [dataBit]
    {
      ghost var d := received;
      EdgeWrite(d, bytePos, bitPos, dataBit);
      clocks := clocks + 1;
      AddBit(dataBit);
      assert buf[..] == Fill(d + [dataBit]);
      bitPos := bitPos + 1;
      if bitPos == 4 {
        bitPos := 0;
        bytePos := bytePos + 1;
      }
      received := d + [dataBit];
    }

    /** `buf[byte_pos] += 1 << bit_pos` when the bit is set, in 8 bits. */
    method AddBit(dataBit: bool)
      requires bytePos < buf.Length && bitPos < 4
      modifies buf
      ensures buf[..] == if dataBit then old(buf[..])[bytePos := (old(buf[bytePos]) + Shl1(bitPos)) % 256]
                         else old(buf[..])
    {
      if dataBit {
        buf[bytePos] := (buf[bytePos] + Shl1(bitPos)) % 256;
      }
    }

    /** The clearing loop of SEND_REQ: every slot of `buf` becomes 0. */
    method ClearBuffer()
      requires buf.Length == FrameSlots
      modifies buf
      ensures buf[..] == Cleared()
    {
      for i := 0 to FrameSlots
        modifies buf
        invariant forall k :: 0 <= k < i ==> buf[k] == 0
      {
        buf[i] := 0;
      }
    }

    /** One pass of the main loop's state machine (one millisecond). Its
        effect on the scheduler's variables and on the printed lines is
        `Step`; SEND_REQ also clears the buffer and the sampler's counters
        (not the overrun count); a completed frame prints `decode`'s line for
        the buffer of the 52 bits received. */
    method Tick()
      requires Valid()
      modifies this, buf
      ensures Valid() && buf == old(buf) && flag == old(flag)
      ensures ControlState() == Step(old(ControlState()), old(clocks) == FrameBits).next
      ensures output == old(output) + Report(Step(old(ControlState()), old(clocks) == FrameBits).events, old(buf[..]), flag)
      ensures old(state) == SendReq ==>
                clocks == 0 && bytePos == 0 && bitPos == 0 && delays == 0
                && buf[..] == Cleared() && received == []
      ensures old(state) != SendReq ==>
                clocks == old(clocks) && bytePos == old(bytePos) && bitPos == old(bitPos) && delays == old(delays)
                && buf[..] == old(buf[..]) && received == old(received)
      ensures old(state) == WaitData && old(clocks) == FrameBits ==>
                |old(received)| == FrameBits && output == old(output) + [Line(Fill(old(received)), flag)]
    {
      StepInv(ControlState(), clocks == FrameBits);
      TickReport(ControlState(), clocks == FrameBits, buf[..], flag);
      match state {
        case WaitFinish => WaitFinishTick();
        case SendReq => SendReqTick();
        case WaitData => WaitDataTick();
      }
    }

    /** `case WAIT_FINISH`: the line goes high; on the 10th tick the request
        is due and the counter restarts. */
    method WaitFinishTick()
      requires Valid() && state == WaitFinish
      modifies this`msCounter, this`state, this`reqHigh
      ensures Valid()
      ensures ControlState() == Step(old(ControlState()), clocks == FrameBits).next
    {
      StepInv(ControlState(), clocks == FrameBits);
      msCounter := (msCounter + 1) % CounterModulus;
      reqHigh := true;
      if msCounter == IdleTicks {
        state := SendReq;
        msCounter := 0;
      }
    }

    /** `case SEND_REQ`: the sampler's counters and the buffer are cleared
        (`delays` too, `flag` not), the line goes low, and the wait starts. */
    method SendReqTick()
      requires Valid() && state == SendReq
      modifies this`msCounter, this`state, this`reqHigh, this`clocks, this`delays,
               this`bytePos, this`bitPos, this`received, buf
      ensures Valid()
      ensures ControlState() == Step(old(ControlState()), old(clocks) == FrameBits).next
      ensures clocks == 0 && bytePos == 0 && bitPos == 0 && delays == 0
              && buf[..] == Cleared() && received == []
    {
      StepInv(ControlState(), clocks == FrameBits);
      msCounter := (msCounter + 1) % CounterModulus;
      clocks := 0;
      delays := 0;
      bytePos := 0;
      bitPos := 0;
      ClearBuffer();
      received := [];
      reqHigh := false;
      state := WaitData;
    }

    /** `case WAIT_DATA`: a complete frame raises the line, is decoded and
        printed, and ends the cycle; then, on the counter as it now stands,
        a wait past 250 ticks prints "no data" and ends the cycle. */
    method WaitDataTick()
      requires Valid() && state == WaitData
      modifies this`msCounter, this`state, this`reqHigh, this`output
      ensures Valid()
      ensures ControlState() == Step(old(ControlState()), clocks == FrameBits).next
      ensures output == old(output) + Report(Step(old(ControlState()), clocks == FrameBits).events, buf[..], flag)
    {
      StepInv(ControlState(), clocks == FrameBits);
      TickReport(ControlState(), clocks == FrameBits, buf[..], flag);
      msCounter := (msCounter + 1) % CounterModulus;
      if clocks == FrameBits {
        reqHigh := true;
        output := output + [Line(buf[..], flag)];
        state := WaitFinish;
        msCounter := 0;
      }
      if msCounter > TimeoutTicks {
        state := WaitFinish;
        msCounter := 0;
        output := output + [NoDataText];
      }
    }
  }
}
