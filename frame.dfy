/** The frame buffer that the clock-edge handler fills: 13 nibble slots, one
    byte each, taking the 52 bits of a caliper frame least-significant bit
    first. `Fill` is the handler's update applied bit by bit to a cleared
    buffer; the lemmas give each slot in closed form. */
module Frame {

  /** An unsigned 8-bit value: every slot and counter of the firmware is one. */
  type Byte = x: int | 0 <= x < 256

  /** Number of clock edges (bits) in one frame. */
  const FrameBits: nat := 52

  /** Number of nibble slots in the frame buffer. */
  const FrameSlots: nat := 13

  /** `1 << j` */
  function Shl1(j: nat): nat
  {
    if j == 0 then 1 else 2 * Shl1(j - 1)
  }

  /** The buffer as the acquisition cycle leaves it after clearing. */
  function Cleared(): seq<Byte>
  {
    seq(FrameSlots, _ => 0)
  }

  /** The handler's write for the n-th bit of a frame: when the bit is set,
      add `1 << (n % 4)` to slot `n / 4`, with the wrap-around of an 8-bit
      addition; a clear bit leaves the buffer as it is. */
  function Put(buf: seq<Byte>, n: nat, bit: bool): (b: seq<Byte>)
    requires n / 4 < |buf|
    ensures |b| == |buf|
  {
    if bit then buf[n / 4 := (buf[n / 4] + Shl1(n % 4)) % 256] else buf
  }

  /** The buffer after the handler has taken the bits `d`, oldest first, into
      a cleared buffer. */
  function Fill(d: seq<bool>): (b: seq<Byte>)
    requires |d| <= FrameBits
    ensures |b| == FrameSlots
    decreases |d|
  {
    if d == [] then Cleared() else Put(Fill(d[..|d| - 1]), |d| - 1, d[|d| - 1])
  }

  /** The value of one sampled bit. */
  function BitValue(b: bool): nat
  {
    if b then 1 else 0
  }

  /** The n-th received bit, or 0 if it has not arrived yet. */
  function BitAt(d: seq<bool>, n: nat): nat
  {
    if n < |d| then BitValue(d[n]) else 0
  }

  /** Slot k in closed form: bits 4k .. 4k+3, least significant first. */
  function Nibble(d: seq<bool>, k: nat): nat
  {
    BitAt(d, 4 * k) + 2 * BitAt(d, 4 * k + 1) + 4 * BitAt(d, 4 * k + 2) + 8 * BitAt(d, 4 * k + 3)
  }

  /** `1 << j` for the four bit positions of a nibble. */
  lemma Shl1Nibble(j: nat)
    requires j < 4
    ensures Shl1(j) == if j == 0 then 1 else if j == 1 then 2 else if j == 2 then 4 else 8
  {
    if j > 0 { Shl1Nibble(j - 1); }
  }

  /** Bits above position j of the slot that is being filled are still 0. */
  lemma OpenSlotBound(d: seq<bool>)
    requires |d| < FrameBits
    ensures Nibble(d, |d| / 4) < Shl1(|d| % 4)
    ensures Nibble(d, |d| / 4) + Shl1(|d| % 4) <= 15
  {
    var k, j := |d| / 4, |d| % 4;
    assert |d| == 4 * k + j;
    Shl1Nibble(j);
  }

  /** One more bit is visible at its own position only. */
  lemma BitAtAppend(p: seq<bool>, bit: bool, m: nat)
    ensures BitAt(p + [bit], m) == if m == |p| then BitValue(bit) else BitAt(p, m)
  {
    if m < |p| { assert (p + [bit])[m] == p[m]; }
  }

  /** One more bit changes only the closed form of the slot it lands in. */
  lemma NibbleAppend(p: seq<bool>, bit: bool, k: nat)
    requires |p| < FrameBits
    ensures Nibble(p + [bit], k) ==
            if k == |p| / 4 && bit then Nibble(p, k) + Shl1(|p| % 4) else Nibble(p, k)
  {
    var q, j := |p| / 4, |p| % 4;
    assert |p| == 4 * q + j;
    BitAtAppend(p, bit, 4 * k);
    BitAtAppend(p, bit, 4 * k + 1);
    BitAtAppend(p, bit, 4 * k + 2);
    BitAtAppend(p, bit, 4 * k + 3);
    Shl1Nibble(j);
    if k != q {
      assert 4 * k + 3 < |p| || |p| < 4 * k;
    }
  }

  /** `Fill` of a longer input, one step unfolded. */
  lemma FillUnfold(d: seq<bool>, bit: bool)
    requires |d| < FrameBits
    ensures Fill(d + [bit]) == Put(Fill(d), |d|, bit)
  {
    assert (d + [bit])[..|d|] == d;
  }

  /** A write whose 8-bit addition does not wrap is a plain addition. */
  lemma PutNoWrap(buf: seq<Byte>, n: nat, bit: bool)
    requires n / 4 < |buf| && buf[n / 4] + Shl1(n % 4) < 256
    ensures Put(buf, n, bit) == if bit then buf[n / 4 := buf[n / 4] + Shl1(n % 4)] else buf
  {
  }

  /** One induction step of `FillIsNibbles`, for one slot k, given the closed
      form of that slot and of the open one before the bit. */
  lemma FillSlotStep(p: seq<bool>, bit: bool, k: nat)
    requires |p| < FrameBits && k < FrameSlots
    requires Fill(p)[k] == Nibble(p, k) && Fill(p)[|p| / 4] == Nibble(p, |p| / 4)
    ensures Fill(p + [bit])[k] == Nibble(p + [bit], k)
  {
    var f := Fill(p);
    assert f[|p| / 4] + Shl1(|p| % 4) < 256 by {
      OpenSlotBound(p);
    }
    FillUnfold(p, bit);
    PutNoWrap(f, |p|, bit);
    NibbleAppend(p, bit, k);
  }

  /** Every slot of the filled buffer is the closed-form nibble of its four
      bits; in particular no 8-bit addition of the handler ever wraps. */
  lemma {:induction false} FillIsNibbles(d: seq<bool>)
    requires |d| <= FrameBits
    ensures forall k :: 0 <= k < FrameSlots ==> Fill(d)[k] == Nibble(d, k)
  {
    if d != [] {
      var p, bit := d[..|d| - 1], d[|d| - 1];
      assert d == p + [bit];
      FillIsNibbles(p);
      assert |p| / 4 < FrameSlots;
      forall k | 0 <= k < FrameSlots
        ensures Fill(d)[k] == Nibble(d, k)
      {
        FillSlotStep(p, bit, k);
      }
    }
  }

  /** The normal edge law: one more bit sets exactly its own place value in
      the open slot and leaves every other slot alone, without wrap-around. */
  lemma FillAppend(d: seq<bool>, bit: bool)
    requires |d| < FrameBits
    ensures Fill(d)[|d| / 4] + Shl1(|d| % 4) <= 15
    ensures Fill(d + [bit]) ==
            if bit then Fill(d)[|d| / 4 := Fill(d)[|d| / 4] + Shl1(|d| % 4)] else Fill(d)
  {
    var f := Fill(d);
    assert f[|d| / 4] + Shl1(|d| % 4) <= 15 by {
      FillIsNibbles(d);
      OpenSlotBound(d);
    }
    PutNoWrap(f, |d|, bit);
    FillUnfold(d, bit);
  }

  /** LSB-first packing: after a whole frame, slot k holds
      d[4k] + 2 d[4k+1] + 4 d[4k+2] + 8 d[4k+3], a nibble. */
  lemma PackedFrame(d: seq<bool>, k: nat)
    requires |d| == FrameBits && k < FrameSlots
    ensures Fill(d)[k] == BitValue(d[4 * k]) + 2 * BitValue(d[4 * k + 1])
                          + 4 * BitValue(d[4 * k + 2]) + 8 * BitValue(d[4 * k + 3])
    ensures Fill(d)[k] <= 15
  {
    FillIsNibbles(d);
  }
}
