/** The ring of frames kept for diagnosis after a fault. */
module FaultRecorder {
  import opened Wrappers
  import opened Arithmetic
  import opened Rings
  import opened IoImage

  datatype FaultReason = NoFault | CycleOverrun | WatchdogTimeout | LogicError

  /** Cycle number, time stamp, snapshots of the process data, execution time, and the reason of a fault. */
  datatype FaultFrame = FaultFrame(cycle: nat, timestamp: nat, inputs: ProcessData, outputs: ProcessData, total: nat,
                                   reason: FaultReason, valid: bool)

  const EMPTY_FRAME := FaultFrame(0, 0, NO_DATA, NO_DATA, 0, NoFault, false)

  function NewFrame(cycle: nat, now: nat, total: nat): FaultFrame
  {
    FaultFrame(cycle, now, NO_DATA, NO_DATA, total, NoFault, true)
  }

  const USIZE_MAX: nat := 0xFFFF_FFFF_FFFF_FFFF

  function SaturatingIncrement(n: nat): nat { if n >= USIZE_MAX then USIZE_MAX else n + 1 }

  class FaultRecorder {
    const frames: array<FaultFrame>
    var writePos: nat
    var frameCount: nat
    var frozen: bool
    var faultFrameIndex: Option<nat>

    /** Everything recorded since the last reset. */
    ghost var log: seq<FaultFrame>

    ghost predicate Valid()
      reads this, frames
    {
      && 0 < frames.Length < USIZE_MAX && Holds(frames[..], log)
      && writePos == |log| % frames.Length
      && frameCount == Min(|log|, USIZE_MAX)
      && (forall f <- log :: f.valid)
      && match faultFrameIndex
         case None => true
         case Some(i) => frozen && |log| > 0 && i == (|log| - 1) % frames.Length
    }

    constructor (capacity: nat)
      requires capacity < USIZE_MAX
      ensures Valid() && fresh(frames) && log == [] && !frozen && faultFrameIndex == None
      ensures frames.Length == if capacity == 0 then 1 else capacity
    {
      frames := new FaultFrame[if capacity == 0 then 1 else capacity](_ => EMPTY_FRAME);
      writePos, frameCount, frozen, faultFrameIndex := 0, 0, false, None;
      log := [];
    }

    method Append(f: FaultFrame)
      requires Valid() && !frozen && f.valid
      modifies this`writePos, this`frameCount, this`log, frames
      ensures Valid() && log == old(log) + [f]
      ensures frames[old(writePos)] == f && old(writePos) == |old(log)| % frames.Length
    {
      PushHolds(frames[..], log, f);
      NextSlot(|log|, frames.Length);
      ghost var slots := frames[..][writePos := f];
      frames[writePos] := f;
      assert frames[..] == slots;
      writePos := (writePos + 1) % frames.Length;
      frameCount := SaturatingIncrement(frameCount);
      log := log + [f];
    }

    /** Returns the slot of the new frame, for the snapshots. */
    method RecordCycle(cycle: nat, now: nat, total: nat) returns (slot: Option<nat>)
      requires Valid()
      modifies this`writePos, this`frameCount, this`log, frames
      ensures Valid()
      ensures frozen ==> slot == None && log == old(log) && frames[..] == old(frames[..])
      ensures !frozen ==> slot == Some(|old(log)| % frames.Length) && log == old(log) + [NewFrame(cycle, now, total)]
    {
      if frozen { return None; }
      slot := Some(writePos);
      Append(NewFrame(cycle, now, total));
    }

    /** Fills in the snapshots of the newest frame. */
    method SetSnapshots(slot: nat, inputs: ProcessData, outputs: ProcessData)
      requires Valid() && log != [] && !frozen && slot == (|log| - 1) % frames.Length
      modifies this`log, frames
      ensures Valid() && log == old(log)[..|old(log)| - 1] + [old(log)[|old(log)| - 1].(inputs := inputs, outputs := outputs)]
    {
      ghost var n := |log| - 1;
      assert frames[..][slot] == log[n];
      var f := frames[slot].(inputs := inputs, outputs := outputs);
      ghost var slots := frames[..][slot := f];
      frames[slot] := f;
      assert frames[..] == slots;
      forall k | 0 <= k < n && |log| <= k + frames.Length
        ensures k % frames.Length != slot
      {
        DifferentSlots(k, n, frames.Length);
      }
      log := log[..n] + [f];
    }

    method RecordFault(cycle: nat, reason: FaultReason, now: nat, total: nat)
      requires Valid()
      modifies this`writePos, this`frameCount, this`log, this`frozen, this`faultFrameIndex, frames
      ensures Valid() && frozen
      ensures old(frozen) ==> log == old(log) && frames[..] == old(frames[..]) && faultFrameIndex == old(faultFrameIndex)
      ensures !old(frozen) ==> log == old(log) + [NewFrame(cycle, now, total).(reason := reason)] && faultFrameIndex.Some?
    {
      if frozen { return; }
      var idx := writePos;
      Append(NewFrame(cycle, now, total).(reason := reason));
      faultFrameIndex, frozen := Some(idx), true;
    }

    method RecordFaultWithIo(cycle: nat, reason: FaultReason, now: nat, total: nat, inputs: ProcessData, outputs: ProcessData)
      requires Valid()
      modifies this`writePos, this`frameCount, this`log, this`frozen, this`faultFrameIndex, frames
      ensures Valid() && frozen
      ensures old(frozen) ==> log == old(log) && frames[..] == old(frames[..]) && faultFrameIndex == old(faultFrameIndex)
      ensures !old(frozen) ==>
                && log == old(log) + [FaultFrame(cycle, now, inputs, outputs, total, reason, true)]
                && faultFrameIndex.Some?
    {
      if frozen { return; }
      var idx := writePos;
      Append(NewFrame(cycle, now, total).(inputs := inputs, outputs := outputs, reason := reason));
      faultFrameIndex, frozen := Some(idx), true;
    }

    method Freeze()
      requires Valid()
      modifies this`frozen
      ensures Valid() && frozen
    {
      frozen := true;
    }

    /** The frame of the recorded fault is the last one. */
    method FaultFrameOf() returns (f: Option<FaultFrame>)
      requires Valid()
      ensures f == if faultFrameIndex.Some? then Some(log[|log| - 1]) else None
    {
      if faultFrameIndex.None? { return None; }
      assert frames[..][faultFrameIndex.value] == log[|log| - 1];
      f := Some(frames[faultFrameIndex.value]);
    }

    /** The number of frames still held. */
    function FrameCount(): (n: nat)
      requires Valid()
      reads this, frames
      ensures n == Min(|log|, frames.Length)
    {
      Min(frameCount, frames.Length)
    }

    /** Oldest first: the end of the log. */
    method FramesChronological() returns (r: seq<FaultFrame>)
      requires Valid()
      ensures r == Last(log, Min(|log|, frames.Length))
    {
      var count, cap := FrameCount(), frames.Length;
      var start := if frameCount > cap then writePos else 0;
      r := [];
      for i := 0 to count
        invariant |r| == i && forall k :: 0 <= k < i ==> r[k] == Last(log, count)[k]
      {
        Chronological(frames[..], log, i);
        r := r + [frames[(start + i) % cap]];
      }
    }

    lemma RecentSlot(i: nat, idx: nat)
      requires Valid() && i < Min(|log|, frames.Length)
      requires idx == if writePos == 0 then frames.Length - 1 - i else (writePos + frames.Length - 1 - i) % frames.Length
      ensures idx < frames.Length && frames[idx] == log[|log| - 1 - i] && frames[idx].valid
    {
      Backwards(frames[..], log, i);
      if writePos == 0 {
        ModUnique(idx, frames.Length, 0, idx);
      }
      assert frames[..][idx] == log[|log| - 1 - i] && log[|log| - 1 - i] in log;
    }

    /** Newest first: the end of the log, reversed. */
    method RecentFrames(n: nat) returns (r: seq<FaultFrame>)
      requires Valid()
      ensures r == Reversed(Last(log, Min(n, Min(|log|, frames.Length))))
    {
      var actual, cap := Min(n, FrameCount()), frames.Length;
      r := [];
      for i := 0 to actual
        invariant |r| == i && forall k :: 0 <= k < i ==> r[k] == log[|log| - 1 - k]
      {
        var idx := if writePos == 0 then cap - 1 - i else (writePos + cap - 1 - i) % cap;
        RecentSlot(i, idx);
        if frames[idx].valid {
          r := r + [frames[idx]];
        }
      }
      assert forall k :: 0 <= k < actual ==> r[k] == Reversed(Last(log, actual))[k];
    }

    method Reset()
      requires Valid()
      modifies this, frames
      ensures Valid() && log == [] && !frozen && faultFrameIndex == None
    {
      for i := 0 to frames.Length
      {
        frames[i] := EMPTY_FRAME;
      }
      writePos, frameCount, frozen, faultFrameIndex := 0, 0, false, None;
      log := [];
    }
  }
}
