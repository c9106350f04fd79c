/**
 * The physical frame allocator: a bitmap over one region, searched first fit from a hint that
 * wraps once.
 */
module Frames {
  import opened Basics

  function Bit(k: nat): bv8
    requires k < 8
  {
    match k
    case 0 => 1 case 1 => 2 case 2 => 4 case 3 => 8 case 4 => 16 case 5 => 32 case 6 => 64 case _ => 128
  }

  lemma BitIsShift(k: bv4)
    requires k < 8
    ensures Bit(k as nat) == 1 << k
  {
    match k
    case 0 => case 1 => case 2 => case 3 => case 4 => case 5 => case 6 => case _ =>
  }

  predicate Has(b: bv8, k: nat)
    requires k < 8
  {
    b & Bit(k) != 0
  }

  function With(b: bv8, k: nat): (r: bv8)
    requires k < 8
    ensures forall j: nat :: j < 8 ==> (Has(r, j) <==> j == k || Has(b, j))
  {
    b | Bit(k)
  }

  function Without(b: bv8, k: nat): (r: bv8)
    requires k < 8
    ensures forall j: nat :: j < 8 ==> (Has(r, j) <==> j != k && Has(b, j))
  {
    b & !Bit(k)
  }

  /** The bit of one frame. */
  predicate Used(bitmap: seq<bv8>, frame: nat)
    requires frame / 8 < |bitmap|
  {
    Has(bitmap[frame / 8], frame % 8)
  }

  /** Which frames are in use, as the bitmap says. */
  ghost function Bits(bitmap: seq<bv8>, frames: nat): (bits: seq<bool>)
    requires frames <= 8 * |bitmap|
  {
    seq(frames, i requires 0 <= i < frames => Used(bitmap, i))
  }

  lemma SettingMarks(bitmap: seq<bv8>, frames: nat, frame: nat)
    requires frame < frames <= 8 * |bitmap|
    ensures Bits(bitmap[frame / 8 := With(bitmap[frame / 8], frame % 8)], frames) == Bits(bitmap, frames)[frame := true]
  {
    hide With, Has;
  }

  lemma ClearingMarks(bitmap: seq<bv8>, frames: nat, frame: nat)
    requires frame < frames <= 8 * |bitmap|
    ensures Bits(bitmap[frame / 8 := Without(bitmap[frame / 8], frame % 8)], frames) ==
              Bits(bitmap, frames)[frame := false]
  {
    hide Without, Has;
  }

  /** `count` free frames in a row. */
  ghost predicate FreeRun(bits: seq<bool>, start: nat, count: nat) {
    start + count <= |bits| && forall f :: start <= f < start + count ==> !bits[f]
  }

  /** The first place at or after `from` with room for `count`. */
  ghost predicate FirstFit(bits: seq<bool>, from: nat, start: nat, count: nat) {
    from <= start && FreeRun(bits, start, count) && forall s :: from <= s < start ==> !FreeRun(bits, s, count)
  }

  ghost predicate NoRoom(bits: seq<bool>, from: nat, count: nat) {
    forall s :: from <= s ==> !FreeRun(bits, s, count)
  }

  lemma NoRoomForOne(bits: seq<bool>)
    requires NoRoom(bits, 0, 1)
    ensures forall f :: 0 <= f < |bits| ==> bits[f]
  {
    forall f | 0 <= f < |bits| ensures bits[f] {
      assert !FreeRun(bits, f, 1);
    }
  }

  /** The same bits but for one run. */
  ghost function WithRun(bits: seq<bool>, start: nat, count: nat, used: bool): (r: seq<bool>)
    requires start + count <= |bits|
    ensures |r| == |bits|
  {
    seq(|bits|, i requires 0 <= i < |bits| => if start <= i < start + count then used else bits[i])
  }

  /** The run is the first from the hint, or the first of all if there is none from the hint. */
  ghost predicate Gives(bits: seq<bool>, hint: nat, start: nat, count: nat, bits': seq<bool>) {
    && FreeRun(bits, start, count)
    && (FirstFit(bits, hint, start, count) || (NoRoom(bits, hint, count) && FirstFit(bits, 0, start, count)))
    && bits' == WithRun(bits, start, count, true)
  }

  class BitmapAllocator {
    const base: nat
    const frames: nat
    const bitmap: array<bv8>
    var nextHint: nat

    ghost predicate Valid()
      reads this
    {
      && frames <= 8 * bitmap.Length
      && base % 4096 == 0
      && nextHint <= frames
    }

    ghost function State(): (bits: seq<bool>)
      requires Valid()
      reads this, bitmap
      ensures |bits| == frames
    {
      Bits(bitmap[..], frames)
    }

    /** The bitmap lives at the start of the region it manages, so its own frames are in use. */
    constructor (base: nat, frames: nat)
      requires base % 4096 == 0
      ensures Valid() && fresh(bitmap) && this.base == base && this.frames == frames
      ensures State() == seq(frames, i => i < CeilDiv(CeilDiv(frames, 8), 4096))
    {
      this.base, this.frames, nextHint := base, frames, 0;
      bitmap := new bv8[CeilDiv(frames, 8)](_ => 0);
      new;
      var own := CeilDiv(CeilDiv(frames, 8), 4096);
      for frame := 0 to own
        invariant Valid() && nextHint == 0
        invariant forall i :: 0 <= i < frames ==> (State()[i] <==> i < frame)
      {
        MarkUsed(frame);
      }
    }

    predicate IsUsed(frame: nat)
      requires Valid() && frame < frames
      reads this, bitmap
      ensures IsUsed(frame) == State()[frame]
    {
      Used(bitmap[..], frame)
    }

    method MarkUsed(frame: nat)
      requires Valid() && frame < frames
      modifies bitmap
      ensures Valid() && State() == old(State())[frame := true]
    {
      hide Bits;
      SettingMarks(bitmap[..], frames, frame);
      bitmap[frame / 8] := With(bitmap[frame / 8], frame % 8);
      assert bitmap[..] == old(bitmap[..])[frame / 8 := With(old(bitmap[frame / 8]), frame % 8)];
    }

    method MarkFree(frame: nat)
      requires Valid() && frame < frames
      modifies bitmap
      ensures Valid() && State() == old(State())[frame := false]
    {
      hide Bits;
      ClearingMarks(bitmap[..], frames, frame);
      bitmap[frame / 8] := Without(bitmap[frame / 8], frame % 8);
      assert bitmap[..] == old(bitmap[..])[frame / 8 := Without(old(bitmap[frame / 8]), frame % 8)];
    }

    /** First-fit search for `count` free frames in a row, from the hint and then once from the start. */
    method AllocateContiguous(count: nat) returns (r: Option<nat>)
      requires Valid()
      modifies this, bitmap
      ensures Valid()
      ensures r.None? <==> count == 0 || NoRoom(old(State()), 0, count)
      ensures r.None? ==> State() == old(State())
      ensures r.Some? ==> exists start: nat ::
                r.value == base + start * 4096 && Gives(old(State()), old(nextHint), start, count, State())
      decreases nextHint
    {
      hide Bits;
      var runStart, runLength := nextHint, 0;
      ghost var bits := State();
      for frame := nextHint to frames
        invariant Valid() && State() == bits && nextHint == old(nextHint)
        invariant runStart + runLength == frame && nextHint <= runStart
        invariant count > 0 ==> runLength < count
        invariant forall f :: runStart <= f < frame ==> !bits[f]
        invariant runStart > nextHint ==> bits[runStart - 1]
        invariant forall s :: nextHint <= s < runStart && count > 0 ==> !FreeRun(bits, s, count)
      {
        if IsUsed(frame) {
          forall s | nextHint <= s <= frame && count > 0 ensures !FreeRun(bits, s, count) {
          }
          runStart, runLength := frame + 1, 0;
        } else {
          runLength := runLength + 1;
          if runLength == count {
            MarkRun(runStart, count);
            nextHint := frame + 1;
            assert Gives(bits, old(nextHint), runStart, count, State());
            return Some(base + runStart * 4096);
          }
        }
      }
      assert count > 0 ==> NoRoom(bits, nextHint, count);
      if nextHint != 0 {
        nextHint := 0;
        r := AllocateContiguous(count);
        if r.Some? {
          ghost var start: nat :| r.value == base + start * 4096 && Gives(bits, 0, start, count, State());
          assert Gives(bits, old(nextHint), start, count, State());
        }
        return r;
      }
      return None;
    }

    method MarkRun(start: nat, count: nat)
      requires Valid() && start + count <= frames
      modifies bitmap
      ensures Valid() && State() == WithRun(old(State()), start, count, true)
    {
      hide Bits;
      for f := start to start + count
        invariant Valid() && State() == WithRun(old(State()), start, f - start, true)
      {
        MarkUsed(f);
      }
    }

    /**
     * Return frames. Anything inconsistent is a panic, said here by `false`; a call that returns
     * normally has freed exactly the frames named, all of which were in use.
     */
    method FreeFrames(address: nat, count: nat) returns (ok: bool)
      requires Valid()
      modifies bitmap
      ensures Valid()
      ensures ok <==>
                && count > 0 && address % 4096 == 0 && base <= address
                && (address - base) / 4096 + count <= frames
                && forall f :: (address - base) / 4096 <= f < (address - base) / 4096 + count ==> old(State())[f]
      ensures ok ==> State() == WithRun(old(State()), (address - base) / 4096, count, false)
    {
      hide Bits;
      if count == 0 || address % 4096 != 0 || address < base {
        return false;
      }
      var first := (address - base) / 4096;
      if first + count > frames {
        return false;
      }
      for frame := first to first + count
        invariant Valid() && State() == WithRun(old(State()), first, frame - first, false)
        invariant forall f :: first <= f < frame ==> old(State())[f]
      {
        if !IsUsed(frame) {
          return false;
        }
        MarkFree(frame);
      }
      return true;
    }
  }

  /** Freeing what was just given leaves the bitmap as it was. */
  lemma FreeUndoesAllocate(bits: seq<bool>, start: nat, count: nat)
    requires FreeRun(bits, start, count)
    ensures WithRun(WithRun(bits, start, count, true), start, count, false) == bits
  {
  }
}
