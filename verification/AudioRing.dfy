/** The ring buffers that carry audio samples between the engine and the browser's audio thread. Samples are only
    moved, so their type is left open. */
module AudioRing {
  class RingBuffer<T> {
    const buffer: array<T>
    var avail: nat
    var rpos: nat
    var wpos: nat

    /** A read may leave rpos at the very end; a write never leaves wpos there. */
    ghost predicate Valid()
      reads this
    {
      && avail <= buffer.Length && rpos <= buffer.Length
      && wpos == Place(buffer.Length, rpos, avail)
    }

    /** The samples not read yet, oldest first. */
    ghost function Contents(): seq<T>
      requires Valid()
      reads this, buffer
    {
      Window(buffer[..], rpos, avail)
    }

    constructor (buffer: array<T>, avail: nat)
      requires avail == 0 || avail == buffer.Length
      ensures Valid() && this.buffer == buffer && Contents() == buffer[..avail]
    {
      this.buffer, this.avail, rpos, wpos := buffer, avail, 0, 0;
    }

    function DataLeft(): (n: nat)
      requires Valid()
      reads this, buffer
      ensures n == |Contents()|
    {
      avail
    }

    function SpaceLeft(): (n: nat)
      requires Valid()
      reads this, buffer
      ensures n + |Contents()| == buffer.Length
    {
      buffer.Length - avail
    }

    method Read(output: array<T>)
      requires Valid() && output != buffer && output.Length <= DataLeft()
      modifies this, output
      ensures Valid()
      ensures output[..] == old(Contents())[..output.Length]
      ensures Contents() == old(Contents())[output.Length..]
    {
      WindowSplits(buffer[..], rpos, avail, output.Length);
      CopyOut(output);
      avail := avail - output.Length;
    }

    /** The copying half of a read: in two pieces when it crosses the end. */
    method CopyOut(output: array<T>)
      requires rpos <= buffer.Length && output != buffer && output.Length <= buffer.Length
      modifies this`rpos, output
      ensures output[..] == Window(buffer[..], old(rpos), output.Length)
      ensures rpos == Past(buffer.Length, old(rpos), output.Length)
    {
      var size := buffer.Length;
      var from, toWrite := 0, output.Length;
      if rpos + toWrite > size {
        var high := size - rpos;
        Set(output, 0, buffer, rpos, high);
        from := high;
        toWrite := toWrite - high;
        rpos := 0;
      }
      if toWrite != 0 {
        Set(output, from, buffer, rpos, toWrite);
      }
      rpos := rpos + toWrite;
    }

    /** Appends the samples exactly if they fit. The code does not check: more samples run over the unread ones, and
        far too many (`!ok`) end in a RangeError with the counters as they were. */
    method Write(input: array<T>) returns (ok: bool)
      requires Valid() && input != buffer
      modifies this, buffer
      ensures input.Length <= old(SpaceLeft()) ==> ok
      ensures Valid() && Contents() == old(Contents()) + input[..] <==> input.Length <= old(SpaceLeft())
    {
      if input.Length <= SpaceLeft() {
        WindowGrows(buffer[..], rpos, avail, input[..]);
      }
      ok := CopyIn(input);
      if ok {
        avail := avail + input.Length;
      }
    }

    /** The copying half of a write: in two pieces when it crosses the end, and back to the start when it meets it. */
    method CopyIn(input: array<T>) returns (ok: bool)
      requires wpos <= buffer.Length && input != buffer
      modifies this`wpos, buffer
      ensures ok <==> old(wpos) + input.Length <= 2 * buffer.Length
      ensures !ok ==> wpos == old(wpos)
      ensures input.Length <= buffer.Length ==>
        && buffer[..] == Stamped(old(buffer[..]), old(wpos), input[..])
        && wpos == if old(wpos) + input.Length < buffer.Length then old(wpos) + input.Length
                   else old(wpos) + input.Length - buffer.Length
    {
      var toWrite := input.Length;
      var mw := buffer.Length - wpos;
      ghost var before := buffer[..];
      if mw >= toWrite {
        Set(buffer, wpos, input, 0, toWrite);
        assert input[0..toWrite] == input[..];
        wpos := wpos + toWrite;
        if mw == toWrite {
          wpos := 0;
        }
      } else {
        Set(buffer, wpos, input, 0, mw);
        if toWrite - mw > buffer.Length {
          return false;
        }
        ghost var once := buffer[..];
        Set(buffer, 0, input, mw, toWrite - mw);
        if toWrite <= buffer.Length {
          StampedInTwo(before, wpos, input[..], once, buffer[..]);
        }
        wpos := toWrite - mw;
      }
      return true;
    }
  }

  /** Where a read of `n` leaves off: possibly at the very end. */
  ghost function Past(size: nat, at: nat, n: nat): nat
    requires at <= size && n <= size
  {
    if at + n > size then at + n - size else at + n
  }

  /** The place `n` steps after `at`. */
  ghost function Place(size: nat, at: nat, n: nat): nat {
    if at + n < size then at + n else if at + n < 2 * size then at + n - size else at + n - 2 * size
  }

  /** `n` consecutive elements of a circular buffer. */
  ghost function Window<T>(buffer: seq<T>, at: nat, n: nat): (w: seq<T>)
    requires at <= |buffer| && n <= |buffer|
    ensures |w| == n
  {
    seq(n, k requires 0 <= k < n => buffer[Place(|buffer|, at, k)])
  }

  /** A window is its first `n` elements and the window that starts after them. */
  lemma WindowSplits<T>(buffer: seq<T>, at: nat, all: nat, n: nat)
    requires at <= |buffer| && n <= all <= |buffer|
    ensures Window(buffer, at, all) == Window(buffer, at, n) + Window(buffer, Past(|buffer|, at, n), all - n)
  {
    var next := Past(|buffer|, at, n);
    forall k | n <= k < all ensures Place(|buffer|, at, k) == Place(|buffer|, next, k - n) {
    }
  }

  /** The circular buffer after `data` has been written over it. */
  ghost function Stamped<T>(buffer: seq<T>, at: nat, data: seq<T>): (r: seq<T>)
    requires at <= |buffer| && |data| <= |buffer|
    ensures |r| == |buffer|
  {
    var high := |buffer| - at;
    if |data| <= high then buffer[..at] + data + buffer[at + |data|..]
    else data[high..] + buffer[|data| - high..at] + data[..high]
  }

  lemma StampedInTwo<T>(buffer: seq<T>, at: nat, data: seq<T>, once: seq<T>, twice: seq<T>)
    requires at <= |buffer| && |data| <= |buffer| < at + |data| && |once| == |buffer|
    requires var high := |buffer| - at;
      once == buffer[..at] + data[..high] + buffer[|buffer|..] && twice == data[high..] + once[|data| - high..]
    ensures twice == Stamped(buffer, at, data)
  {
  }

  /** Each element of the data lands on its place, and all other places keep what they hold. */
  lemma StampedAt<T>(buffer: seq<T>, at: nat, data: seq<T>, k: nat)
    requires at <= |buffer| && |data| <= |buffer| && k < |buffer|
    ensures var r := Stamped(buffer, at, data);
      r[Place(|buffer|, at, k)] == if k < |data| then data[k] else buffer[Place(|buffer|, at, k)]
  {
  }

  /** Writing where a window ends makes it longer and touches nothing in it. */
  lemma WindowGrows<T>(buffer: seq<T>, at: nat, n: nat, data: seq<T>)
    requires at <= |buffer| && n + |data| <= |buffer|
    ensures Window(Stamped(buffer, Place(|buffer|, at, n), data), at, n + |data|) == Window(buffer, at, n) + data
  {
    var end := Place(|buffer|, at, n);
    forall k | 0 <= k < n + |data|
      ensures Stamped(buffer, end, data)[Place(|buffer|, at, k)]
           == if k < n then buffer[Place(|buffer|, at, k)] else data[k - n]
    {
      StampedAt(buffer, end, data, if k < n then |buffer| - n + k else k - n);
    }
  }

  /** Copy part of one array into another. */
  method Set<T>(target: array<T>, at: nat, source: array<T>, from: nat, count: nat)
    requires target != source && at + count <= target.Length && from + count <= source.Length
    modifies target
    ensures target[..] == old(target[..at]) + source[from..from + count] + old(target[at + count..])
  {
    forall k | 0 <= k < count {
      target[at + k] := source[from + k];
    }
  }

  /* Whole runs */

  datatype Call<T> = Written(data: seq<T>) | ReadBack(data: seq<T>)

  /** What Write and Read guarantee of one call that keeps within the space and the data left. */
  ghost predicate Step<T>(size: nat, held: seq<T>, call: Call<T>, held': seq<T>) {
    match call
    case Written(data) => |held| + |data| <= size && held' == held + data
    case ReadBack(data) => data <= held && held' == held[|data|..]
  }

  ghost function AllWritten<T>(calls: seq<Call<T>>): seq<T> {
    if calls == [] then []
    else match calls[|calls| - 1]
         case Written(data) => AllWritten(calls[..|calls| - 1]) + data
         case ReadBack(_) => AllWritten(calls[..|calls| - 1])
  }

  ghost function AllRead<T>(calls: seq<Call<T>>): seq<T> {
    if calls == [] then []
    else match calls[|calls| - 1]
         case Written(_) => AllRead(calls[..|calls| - 1])
         case ReadBack(data) => AllRead(calls[..|calls| - 1]) + data
  }

  /** Whatever the calls and their sizes, the samples come out in the order they went in, none lost, none twice, and
      the buffer never holds more than its size. */
  lemma {:induction false} FirstInFirstOut<T>(size: nat, held: seq<seq<T>>, calls: seq<Call<T>>, k: nat)
    requires |held| == |calls| + 1 && k <= |calls| && |held[0]| <= size
    requires forall n | 0 <= n < |calls| :: Step(size, held[n], calls[n], held[n + 1])
    ensures held[0] + AllWritten(calls[..k]) == AllRead(calls[..k]) + held[k]
    ensures |held[k]| <= size
  {
    if k > 0 {
      FirstInFirstOut(size, held, calls, k - 1);
      assert calls[..k][..k - 1] == calls[..k - 1];
      assert Step(size, held[k - 1], calls[k - 1], held[k]);
      assert calls[..k][k - 1] == calls[k - 1];
      match calls[k - 1]
      case Written(data) =>
        Append(held[0], AllWritten(calls[..k - 1]), AllRead(calls[..k - 1]), held[k - 1], data);
      case ReadBack(data) =>
        Regroup(AllRead(calls[..k - 1]), held[k - 1], data);
    }
  }

  lemma Append<T>(a: seq<T>, b: seq<T>, c: seq<T>, d: seq<T>, data: seq<T>)
    requires a + b == c + d
    ensures a + (b + data) == c + (d + data)
  {
    assert a + (b + data) == (a + b) + data;
  }

  lemma Regroup<T>(read: seq<T>, held: seq<T>, data: seq<T>)
    requires data <= held
    ensures read + held == (read + data) + held[|data|..]
  {
  }
}
