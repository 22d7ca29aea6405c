/**
 The functions of the audio stream, in place. Each thread runs through its
 function statement by statement while the other one takes any steps.
 */
module DataBufferThreads {
  import opened Sequences
  import opened DataBuffer

  /** The statement of the writer that follows a copy. */
  function WriterNext(p: Phase): Action
    requires p != Working
  {
    match p
    case Copied => MarkPrepared
    case Marked => MoveWriter
    case Moved => ClearForWriter
    case Cleared => CountUp
  }

  /** The statement of the reader that follows a copy. */
  function ReaderNext(p: Phase): Action
    requires p != Working
  {
    match p
    case Copied => MarkUnprepared
    case Marked => MoveReader
    case Moved => ClearForReader
    case Cleared => CountDown
  }

  function Rank(p: Phase): nat {
    match p
    case Working => 0
    case Cleared => 1
    case Moved => 2
    case Marked => 3
    case Copied => 4
  }

  lemma PercentBounds(n: nat, count: nat)
    requires 0 < count && n <= count
    ensures 0 <= n * 100 / count <= 100
  {
    var q := n * 100 / count;
    assert q * count <= n * 100;
    assert q > 100 ==> 101 * count <= q * count;
  }

  class Buffers {
    const len: nat
    const prepared: array<bool>
    const used: array<nat>
    const data: array<seq<byte>>
    var w: nat
    var r: nat
    var bufferUsed: int

    // Where the threads are, and what has passed through.
    var writer: Phase
    var reader: Phase
    ghost var written: seq<byte>
    ghost var read: seq<byte>
    ghost var past: seq<Passed>

    ghost function Now(): State
      reads this, prepared, used, data
    {
      State(len, prepared[..], used[..], data[..], w, r, writer, reader, bufferUsed, written, read, past)
    }

    ghost predicate Valid()
      reads this, prepared, used, data
    {
      Now().Inv()
    }

    constructor (count: nat, length: nat)
      requires 0 < count && 0 < length
      ensures Now() == Init(count, length) && Valid()
      ensures fresh(prepared) && fresh(used) && fresh(data)
    {
      InitInv(count, length);
      len := length;
      prepared := new bool[count](_ => false);
      used := new nat[count](_ => 0);
      data := new seq<byte>[count](_ => seq(length, _ => 0));
      w, r, bufferUsed := 0, 0, 0;
      writer, reader, written, read, past := Working, Working, [], [], [];
      new;
      assert Now() == Init(count, length);
    }

    /** The writer's copy of `part`, which fits into the buffer in progress. */
    method Fill(part: seq<byte>)
      requires Now().Shape() && writer == Working && !prepared[w] && part != [] && |part| <= len - used[w]
      modifies used, data, this`writer, this`written
      ensures Now() == old(Now().Step(if |part| < len - used[w] then WriteSome(part) else WriteRest(part)))
    {
      data[w] := Overwrite(data[w], used[w], part);
      written := written + part;
      if |part| < len - used[w] {
        used[w] := used[w] + |part|;
      } else {
        used[w] := 0;
        writer := Copied;
      }
    }

    /** The writer copies as much as fits into the buffer in progress. */
    method CopyIn(bytes: seq<byte>) returns (rest: seq<byte>)
      requires Valid() && writer == Working && !prepared[w] && bytes != []
      modifies used, data, this`writer, this`written
      ensures Valid() && written + rest == old(written) + bytes && |rest| < |bytes|
      ensures Now() == old(Now().Step(if |bytes| < len - used[w] then WriteSome(bytes)
                                      else WriteRest(bytes[..len - used[w]])))
      ensures |bytes| < old(len - used[w]) ==> rest == []
    {
      var n := Min(len - used[w], |bytes|);
      var part := if n < |bytes| then bytes[..n] else bytes;
      rest := bytes[n..];
      assert bytes == part + rest;
      Regroup(written, part, rest);
      assert bytes[..n] == part;
      StepInv(Now(), if n < len - used[w] then WriteSome(part) else WriteRest(part));
      Fill(part);
    }

    /** The statement of the writer that follows. */
    method WriterStep()
      requires Now().Shape() && writer != Working
      modifies this`w, this`writer, this`bufferUsed, this`past, prepared, used
      ensures Now() == old(Now().Step(WriterNext(writer))) && Rank(writer) < Rank(old(writer))
    {
      match writer {
        case Copied =>
          prepared[w] := true;
          writer := Marked;
        case Marked =>
          NextIsRemainder(w, prepared.Length);
          w := (w + 1) % prepared.Length;
          writer := Moved;
        case Moved =>
          past := Recalled(past, data[w][..used[w]]);
          used[w] := 0;
          writer := Cleared;
        case Cleared =>
          bufferUsed := bufferUsed + 1;
          writer := Working;
      }
    }

    /** The writer hands a full buffer over and moves on to the next one, one statement at a time. */
    method WriterMovesOn()
      requires Valid() && writer != Working
      modifies this`w, this`writer, this`bufferUsed, this`past, prepared, used
      ensures Valid() && Now() == old(Now().Step(WriterNext(writer)))
      ensures Rank(writer) < Rank(old(writer))
    {
      StepInv(Now(), WriterNext(writer));
      WriterStep();
    }

    /** The reader's copy of `n` bytes of the oldest prepared buffer. */
    method Take(n: nat) returns (bytes: seq<byte>)
      requires Now().Shape() && reader == Working && prepared[r] && 0 < n <= len - used[r]
      modifies used, this`reader, this`read, this`past
      ensures |bytes| == n && read == old(read) + bytes
      ensures Now() == old(Now().Step(if n < len - used[r] then ReadSome(n) else ReadRest))
    {
      bytes := data[r][used[r]..used[r] + n];
      assert n == len - used[r] ==> bytes == data[r][used[r]..];
      read, past := read + bytes, past + All(bytes, Once);
      if n < len - used[r] {
        used[r] := used[r] + n;
      } else {
        used[r] := 0;
        reader := Copied;
      }
    }

    /** The reader copies out up to `size` bytes of the oldest prepared buffer. */
    method CopyOut(size: nat) returns (bytes: seq<byte>)
      requires Valid() && reader == Working && prepared[r] && size > 0
      modifies used, this`reader, this`read, this`past
      ensures Valid() && read == old(read) + bytes && 0 < |bytes| <= size
      ensures Now() == old(Now().Step(if size < len - used[r] then ReadSome(size) else ReadRest))
      ensures size < old(len - used[r]) ==> |bytes| == size
    {
      var n := Min(len - used[r], size);
      StepInv(Now(), if n < len - used[r] then ReadSome(n) else ReadRest);
      bytes := Take(n);
    }

    /** The statement of the reader that follows. */
    method ReaderStep()
      requires Now().Shape() && reader != Working
      modifies this`r, this`reader, this`bufferUsed, this`past, prepared, used
      ensures Now() == old(Now().Step(ReaderNext(reader))) && Rank(reader) < Rank(old(reader))
    {
      match reader {
        case Copied =>
          prepared[r] := false;
          reader := Marked;
        case Marked =>
          NextIsRemainder(r, prepared.Length);
          r := (r + 1) % prepared.Length;
          reader := Moved;
        case Moved =>
          past := past + All(data[r][..used[r]], Lost);
          used[r] := 0;
          reader := Cleared;
        case Cleared =>
          bufferUsed := bufferUsed - 1;
          reader := Working;
      }
    }

    /** The reader hands an empty buffer back and moves on to the next one, one statement at a time. */
    method ReaderMovesOn()
      requires Valid() && reader != Working
      modifies this`r, this`reader, this`bufferUsed, this`past, prepared, used
      ensures Valid() && Now() == old(Now().Step(ReaderNext(reader)))
      ensures Rank(reader) < Rank(old(reader))
    {
      StepInv(Now(), ReaderNext(reader));
      ReaderStep();
    }

    /** The reader takes a step of its function, if it need not wait. */
    method ReaderTurn(size: nat)
      requires Valid()
      modifies this`r, this`reader, this`bufferUsed, this`past, this`read, prepared, used
      ensures Valid() && writer == old(writer) && w == old(w) && written == old(written)
    {
      if reader != Working {
        ReaderMovesOn();
      } else if prepared[r] && size > 0 {
        var _ := CopyOut(size);
      }
    }

    /** The writer takes a step of its function, if it need not wait. */
    method WriterTurn(bytes: seq<byte>)
      requires Valid()
      modifies this`w, this`writer, this`bufferUsed, this`past, this`written, prepared, used, data
      ensures Valid() && reader == old(reader) && r == old(r) && read == old(read)
    {
      if writer != Working {
        WriterMovesOn();
      } else if !prepared[w] && bytes != [] {
        var _ := CopyIn(bytes);
      }
    }

    /**
     A whole call of the writing function. `turns` are the reader's steps
     meanwhile; when they run out while the writer must wait, it is not done.
     */
    method BufferWriteData(bytes: seq<byte>, turns: seq<nat>) returns (done: bool)
      requires Valid() && writer == Working
      modifies this, prepared, used, data
      ensures Valid()
      ensures done ==> writer == Working && written == old(written) + bytes
    {
      var rest, others := bytes, turns;
      while writer != Working || rest != []
        invariant Valid() && written + rest == old(written) + bytes
        decreases |others|, |rest|, Rank(writer)
      {
        var early: bool := *;
        var waits := writer == Working && prepared[w];
        if others != [] && (early || waits) {
          ReaderTurn(others[0]);
          others := others[1..];
        } else if waits {
          return false;
        } else if writer == Working {
          rest := CopyIn(rest);
        } else {
          WriterMovesOn();
        }
      }
      return true;
    }

    /**
     A whole call of the reading function: the bytes it yields are those that
     are read next. `turns` are the writer's steps meanwhile.
     */
    method BufferReadData(size: nat, turns: seq<seq<byte>>) returns (done: bool, got: seq<byte>)
      requires Valid() && reader == Working
      modifies this, prepared, used, data
      ensures Valid() && read == old(read) + got
      ensures done ==> reader == Working && |got| == size
    {
      var others := turns;
      got := [];
      while reader != Working || |got| < size
        invariant Valid() && read == old(read) + got && |got| <= size
        decreases |others|, size - |got|, Rank(reader)
      {
        var early: bool := *;
        var waits := reader == Working && !prepared[r];
        if others != [] && (early || waits) {
          WriterTurn(others[0]);
          others := others[1..];
        } else if waits {
          return false, got;
        } else if reader == Working {
          var bytes := CopyOut(size - |got|);
          Regroup(old(read), got, bytes);
          got := got + bytes;
        } else {
          ReaderMovesOn();
        }
      }
      done := true;
    }

    /** The fill level in percent; exact while neither thread is between two buffers. */
    method GetBufferPercent() returns (percent: int)
      requires Valid()
      ensures writer == Working && reader == Working ==>
                && percent == Now().Full() * 100 / prepared.Length
                && 0 <= percent <= 100
                && (prepared[r] <==> Now().Full() > 0) && (!prepared[w] <==> Now().Full() < prepared.Length)
    {
      var x := bufferUsed * 100;
      percent := if x < 0 then -(-x / prepared.Length) else x / prepared.Length;
      if writer == Working && reader == Working {
        PercentBounds(bufferUsed, prepared.Length);
      }
    }
  }
}
