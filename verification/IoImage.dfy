/** The process image: two double buffers, one for each direction. This is the writer's and the reader's view
    between protocol steps; module Seqlock shows that concurrent readers see the same. */
module IoImage {

  /** Digital words are unsigned 32-bit, analog channels signed 16-bit. */
  datatype ProcessData = ProcessData(digitalInputs: nat, digitalOutputs: nat, analogInputs: seq<int>, analogOutputs: seq<int>)

  /** The part of the process data that drives the actuators. */
  datatype Outputs = Outputs(digital: nat, analog: seq<int>)

  const CHANNELS: nat := 16

  function ZeroChannels(): seq<int> { seq(CHANNELS, _ => 0) }

  const NO_DATA := ProcessData(0, 0, ZeroChannels(), ZeroChannels())

  const ALL_OFF := Outputs(0, ZeroChannels())

  function OutputFields(d: ProcessData): Outputs { Outputs(d.digitalOutputs, d.analogOutputs) }

  /** The published and the spare buffer. */
  datatype DoubleBuffer = DoubleBuffer(front: ProcessData, back: ProcessData)
  {
    /** A write changes the spare buffer, which holds the version before the published one, and swaps. */
    function Write(f: ProcessData -> ProcessData): DoubleBuffer { DoubleBuffer(f(back), front) }
  }

  const EMPTY_BUFFER := DoubleBuffer(NO_DATA, NO_DATA)

  class SeqlockBuffer {
    var sequence: nat
    var buf0: ProcessData
    var buf1: ProcessData
    var frontIdx: nat

    /** No write is in progress. */
    ghost predicate Quiet()
      reads this
    {
      sequence % 2 == 0 && frontIdx < 2
    }

    ghost function Current(): DoubleBuffer
      reads this
    {
      if frontIdx == 0 then DoubleBuffer(buf0, buf1) else DoubleBuffer(buf1, buf0)
    }

    constructor ()
      ensures Quiet() && Current() == EMPTY_BUFFER && sequence == 0
    {
      sequence, frontIdx, buf0, buf1 := 0, 0, NO_DATA, NO_DATA;
    }

    /** With the writer quiet the sequence number stays even and the first attempt succeeds. */
    method Read() returns (data: ProcessData)
      requires Quiet()
      ensures data == Current().front
    {
      var seq1 := sequence;
      data := if frontIdx == 0 then buf0 else buf1;
      var seq2 := sequence;
      assert seq1 % 2 == 0 && seq1 == seq2;
    }

    method BeginWrite() returns (target: nat)
      requires Quiet()
      modifies this`sequence
      ensures sequence == old(sequence) + 1 && target == if frontIdx == 0 then 1 else 0
    {
      sequence := sequence + 1;
      target := if frontIdx == 0 then 1 else 0;
    }

    method Commit()
      requires sequence % 2 == 1 && frontIdx < 2
      modifies this`sequence, this`frontIdx
      ensures Quiet() && sequence == old(sequence) + 1
      ensures Current() == DoubleBuffer(old(Current()).back, old(Current()).front)
    {
      frontIdx := 1 - frontIdx;
      sequence := sequence + 1;
    }

    method Write(f: ProcessData -> ProcessData)
      requires Quiet()
      modifies this
      ensures Quiet() && sequence == old(sequence) + 2
      ensures Current() == DoubleBuffer(f(old(Current()).back), old(Current()).front) == old(Current()).Write(f)
    {
      var target := BeginWrite();
      if target == 1 {
        buf1 := f(buf1);
      } else {
        buf0 := f(buf0);
      }
      Commit();
    }
  }

  /** The writer of outputs replaces the output fields and leaves the others. */
  function SetOutputs(o: Outputs): ProcessData -> ProcessData
  {
    (d: ProcessData) => d.(digitalOutputs := o.digital, analogOutputs := o.analog)
  }

  function SetInputs(digital: nat, analog: seq<int>): ProcessData -> ProcessData
  {
    (d: ProcessData) => d.(digitalInputs := digital, analogInputs := analog)
  }
}
