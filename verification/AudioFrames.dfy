/** Between the browser's blocks, one array a channel, and the ring buffers' single stream of samples. */
module AudioFrames {
  import opened AudioRing

  /** Where a sample of a channel lies among `n` frames of `channels` samples. */
  ghost function Slot(channels: nat, n: nat, sample: nat, ch: nat): (k: nat)
    requires sample < n && ch < channels
    ensures k < n * channels
  {
    SlotInRange(channels, n, sample, ch);
    sample * channels + ch
  }

  lemma SlotInRange(channels: nat, n: nat, sample: nat, ch: nat)
    requires sample < n && ch < channels
    ensures 0 <= sample * channels + ch < n * channels
  {
    assert (sample + 1) * channels <= n * channels;
  }

  lemma SlotsDiffer(channels: nat, n: nat, s: nat, ch: nat, s': nat, ch': nat)
    requires s < n && s' < n && ch < channels && ch' < channels
    ensures Slot(channels, n, s, ch) == Slot(channels, n, s', ch') ==> s == s' && ch == ch'
  {
    if s < s' {
      assert (s + 1) * channels <= s' * channels;
    } else if s' < s {
      assert (s' + 1) * channels <= s * channels;
    }
  }

  lemma TimesKeepsOrder(a: nat, b: nat, c: nat)
    ensures a <= b ==> a * c <= b * c
  {
    if a <= b {
      assert (b - a) * c >= 0;
    }
  }

  /** Every place in the stream is some sample's slot. */
  lemma SlotOf(channels: nat, n: nat, k: nat) returns (sample: nat, ch: nat)
    requires k < n * channels
    ensures sample < n && ch < channels && Slot(channels, n, sample, ch) == k
  {
    sample, ch := k / channels, k % channels;
    TimesKeepsOrder(n, sample, channels);
  }

  ghost predicate EqualLengths<T>(block: seq<seq<T>>, n: nat) {
    forall ch | 0 <= ch < |block| :: |block[ch]| == n
  }

  ghost function Frame<T>(block: seq<seq<T>>, n: nat, s: nat): seq<T>
    requires EqualLengths(block, n) && s < n
  {
    seq(|block|, ch requires 0 <= ch < |block| => block[ch][s])
  }

  /** The stream: frame after frame, and in each frame channel after channel. */
  ghost function Interleaved<T>(block: seq<seq<T>>, n: nat, frames: nat): (flat: seq<T>)
    requires EqualLengths(block, n) && frames <= n
    ensures |flat| == frames * |block|
  {
    if frames == 0 then [] else Interleaved(block, n, frames - 1) + Frame(block, n, frames - 1)
  }

  ghost predicate SlotBySlot<T>(flat: seq<T>, block: seq<seq<T>>, n: nat)
    requires EqualLengths(block, n) && |flat| == n * |block|
  {
    forall s, ch | 0 <= s < n && 0 <= ch < |block| :: flat[Slot(|block|, n, s, ch)] == block[ch][s]
  }

  /** Every sample in its slot makes the interleaved stream, and only that. */
  lemma SlotBySlotIffInterleaved<T>(flat: seq<T>, block: seq<seq<T>>, n: nat)
    requires EqualLengths(block, n) && |flat| == n * |block|
    ensures SlotBySlot(flat, block, n) <==> flat == Interleaved(block, n, n)
  {
    if SlotBySlot(flat, block, n) {
      forall k | 0 <= k < |flat| ensures flat[k] == Interleaved(block, n, n)[k] {
        var s, ch := SlotOf(|block|, n, k);
        InterleavedAt(block, n, n, s, ch);
        assert flat[Slot(|block|, n, s, ch)] == block[ch][s];
      }
    }
    if flat == Interleaved(block, n, n) {
      forall s, ch | 0 <= s < n && 0 <= ch < |block| ensures flat[Slot(|block|, n, s, ch)] == block[ch][s] {
        InterleavedAt(block, n, n, s, ch);
      }
    }
  }

  /** In a block of c channels, sample s of channel ch is element s * c + ch of the stream. */
  lemma InterleavedMeans<T>(block: seq<seq<T>>, n: nat)
    requires EqualLengths(block, n)
    ensures forall s, ch | 0 <= s < n && 0 <= ch < |block| ::
      var k := s * |block| + ch; 0 <= k < |Interleaved(block, n, n)| && Interleaved(block, n, n)[k] == block[ch][s]
  {
    forall s, ch | 0 <= s < n && 0 <= ch < |block|
      ensures var k := s * |block| + ch;
        0 <= k < |Interleaved(block, n, n)| && Interleaved(block, n, n)[k] == block[ch][s]
    {
      InterleavedAt(block, n, n, s, ch);
      assert Slot(|block|, n, s, ch) == s * |block| + ch;
    }
  }

  lemma {:induction false} InterleavedAt<T>(block: seq<seq<T>>, n: nat, frames: nat, s: nat, ch: nat)
    requires EqualLengths(block, n) && s < frames <= n && ch < |block|
    ensures Slot(|block|, frames, s, ch) < |Interleaved(block, n, frames)|
    ensures Interleaved(block, n, frames)[Slot(|block|, frames, s, ch)] == block[ch][s]
  {
    if s < frames - 1 {
      InterleavedAt(block, n, frames - 1, s, ch);
    }
  }

  /** Interleaving loses nothing: a stream comes from one block only. */
  lemma InterleavingIsInjective<T>(a: seq<seq<T>>, b: seq<seq<T>>, n: nat)
    requires |a| == |b| && EqualLengths(a, n) && EqualLengths(b, n)
    requires Interleaved(a, n, n) == Interleaved(b, n, n)
    ensures a == b
  {
    var flat := Interleaved(a, n, n);
    SlotBySlotIffInterleaved(flat, a, n);
    SlotBySlotIffInterleaved(flat, b, n);
    forall ch | 0 <= ch < |a| ensures a[ch] == b[ch] {
      forall s | 0 <= s < n ensures a[ch][s] == b[ch][s] {
        assert flat[Slot(|a|, n, s, ch)] == a[ch][s];
        assert flat[Slot(|b|, n, s, ch)] == b[ch][s];
      }
    }
  }

  /** The block as values. */
  ghost function Values<T>(block: seq<array<T>>): seq<seq<T>>
    reads block
  {
    seq(|block|, ch requires 0 <= ch < |block| reads block => block[ch][..])
  }

  method WriteInput<T>(dest: array<T>, source: seq<array<T>>, ghost n: nat)
    requires (forall ch | 0 <= ch < |source| :: source[ch].Length == n) && dest.Length == n * |source|
    requires dest !in source
    modifies dest
    ensures dest[..] == Interleaved(Values(source), n, n)
  {
    var channels := |source|;
    for ch := 0 to channels
      invariant forall s, c | 0 <= s < n && 0 <= c < ch :: dest[Slot(channels, n, s, c)] == source[c][s]
    {
      for sample := 0 to source[ch].Length
        invariant forall s, c | 0 <= s < n && 0 <= c < ch :: dest[Slot(channels, n, s, c)] == source[c][s]
        invariant forall s | 0 <= s < sample :: dest[Slot(channels, n, s, ch)] == source[ch][s]
      {
        forall s, c | 0 <= s < n && 0 <= c < channels
          ensures Slot(channels, n, s, c) == Slot(channels, n, sample, ch) ==> s == sample && c == ch
        {
          SlotsDiffer(channels, n, s, c, sample, ch);
        }
        assert sample * channels + ch == Slot(channels, n, sample, ch);
        dest[sample * channels + ch] := source[ch][sample];
      }
    }
    assert SlotBySlot(dest[..], Values(source), n);
    SlotBySlotIffInterleaved(dest[..], Values(source), n);
  }

  method WriteOutput<T>(dest: seq<array<T>>, source: array<T>, ghost n: nat)
    requires (forall ch | 0 <= ch < |dest| :: dest[ch].Length == n) && source.Length == n * |dest|
    requires source !in dest && forall c, d | 0 <= c < d < |dest| :: dest[c] != dest[d]
    modifies dest
    ensures Interleaved(Values(dest), n, n) == source[..]
  {
    var channels := |dest|;
    for ch := 0 to channels
      invariant forall s, c | 0 <= s < n && 0 <= c < ch :: dest[c][s] == source[Slot(channels, n, s, c)]
    {
      for sample := 0 to dest[ch].Length
        invariant forall s, c | 0 <= s < n && 0 <= c < ch :: dest[c][s] == source[Slot(channels, n, s, c)]
        invariant forall s | 0 <= s < sample :: dest[ch][s] == source[Slot(channels, n, s, ch)]
      {
        assert sample * channels + ch == Slot(channels, n, sample, ch);
        dest[ch][sample] := source[sample * channels + ch];
      }
    }
    assert SlotBySlot(source[..], Values(dest), n);
    SlotBySlotIffInterleaved(source[..], Values(dest), n);
  }

  /** write_output undoes write_input: the channels read back from the stream are the ones written into it. */
  method ThroughTheStream<T>(source: seq<array<T>>, stream: array<T>, dest: seq<array<T>>, ghost n: nat)
    requires |dest| == |source| && stream.Length == n * |source| && stream !in source && stream !in dest
    requires forall ch | 0 <= ch < |source| :: source[ch].Length == n && dest[ch].Length == n
    requires forall c, d | 0 <= c < d < |dest| :: dest[c] != dest[d]
    modifies stream, dest
    ensures Values(dest) == old(Values(source))
  {
    ghost var before := Values(source);
    WriteInput(stream, source, n);
    WriteOutput(dest, stream, n);
    InterleavingIsInjective(Values(dest), before, n);
  }

  ghost predicate Uniform<T>(block: seq<array<T>>, n: nat) {
    block != [] && forall ch | 0 <= ch < |block| :: block[ch].Length == n
  }

  /** The audio thread's side, sharing one ring with the engine in each direction. */
  class GodotProcessor<T(0)> {
    const input: RingBuffer<T>
    const output: RingBuffer<T>
    var inputBuffer: array<T>
    var outputBuffer: array<T>

    ghost predicate Valid()
      reads this, input, output
    {
      && input.Valid() && output.Valid()
      && input != output && input.buffer != output.buffer
      && {inputBuffer, outputBuffer} !! {input.buffer, output.buffer} && inputBuffer != outputBuffer
    }

    /** The browser's arrays are its own. */
    ghost predicate Foreign(block: seq<array<T>>)
      reads this
    {
      inputBuffer !in block && outputBuffer !in block && input.buffer !in block && output.buffer !in block
    }

    constructor (input: RingBuffer<T>, output: RingBuffer<T>)
      requires input.Valid() && output.Valid() && input != output && input.buffer != output.buffer
      ensures Valid() && this.input == input && this.output == output
      ensures fresh(inputBuffer) && fresh(outputBuffer)
    {
      this.input, this.output := input, output;
      inputBuffer, outputBuffer := new T[0], new T[0];
    }

    /** A block goes in whole, interleaved, or, when there is no room for it, not at all. */
    method ProcessInput(block: seq<array<T>>, ghost n: nat)
      requires Valid() && Foreign(block) && Uniform(block, n)
      modifies this`inputBuffer, inputBuffer, input, input.buffer
      ensures Valid() && (fresh(inputBuffer) || inputBuffer == old(inputBuffer))
      ensures input.Contents() == old(input.Contents()) +
        if n * |block| <= old(input.SpaceLeft()) then Interleaved(Values(block), n, n) else []
    {
      var chunk := block[0].Length * |block|;
      if inputBuffer.Length != chunk {
        inputBuffer := new T[chunk];
      }
      if input.SpaceLeft() >= chunk {
        WriteInput(inputBuffer, block, n);
        var written := input.Write(inputBuffer);
      }
    }

    /** A block comes out whole, or, when too little is there, is left alone with everything still in the ring. */
    method ProcessOutput(block: seq<array<T>>, ghost n: nat)
      requires Valid() && Foreign(block) && Uniform(block, n)
      requires forall c, d | 0 <= c < d < |block| :: block[c] != block[d]
      modifies this`outputBuffer, outputBuffer, output, block
      ensures Valid() && (fresh(outputBuffer) || outputBuffer == old(outputBuffer))
      ensures if n * |block| <= old(output.DataLeft())
              then Interleaved(Values(block), n, n) + output.Contents() == old(output.Contents())
              else output.Contents() == old(output.Contents()) && Values(block) == old(Values(block))
    {
      var chunk := block[0].Length * |block|;
      if outputBuffer.Length != chunk {
        outputBuffer := new T[chunk];
      }
      if output.DataLeft() >= chunk {
        Deliver(output, outputBuffer, block, n);
      }
    }
  }

  method Deliver<T>(output: RingBuffer<T>, outputBuffer: array<T>, block: seq<array<T>>, ghost n: nat)
    requires output.Valid() && Uniform(block, n) && outputBuffer.Length == n * |block| <= output.DataLeft()
    requires outputBuffer != output.buffer && outputBuffer !in block && output.buffer !in block
    requires forall c, d | 0 <= c < d < |block| :: block[c] != block[d]
    modifies outputBuffer, output, block
    ensures output.Valid() && Interleaved(Values(block), n, n) + output.Contents() == old(output.Contents())
  {
    ghost var before := output.Contents();
    output.Read(outputBuffer);
    WriteOutput(block, outputBuffer, n);
    assert before[..n * |block|] + before[n * |block|..] == before;
  }
}
