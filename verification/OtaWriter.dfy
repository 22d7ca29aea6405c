/**
 Writing an update image: with flash encryption on, only whole blocks of 16
 bytes can be written, so the writer keeps a partial block between calls.
 */
module OtaWriter {
  import opened Sequences

  const BLOCK: nat := 16
  const MAGIC: byte := 0xE9

  datatype Result = Ok | FlashFailed | ValidateFailed | InvalidArg | InvalidState

  class Entry {
    const encrypted: bool

    // Whether the flash never fails to write what fits.
    const reliable: bool

    const flash: array<byte>
    const partialData: array<byte>
    var wroteSize: nat
    var partialBytes: nat

    ghost predicate Valid()
      reads this
    {
      && partialData.Length == BLOCK && flash != partialData
      && wroteSize <= flash.Length && partialBytes <= BLOCK
      && (encrypted ==> wroteSize % BLOCK == 0)
      && (!encrypted ==> partialBytes == 0)
    }

    /** The bytes in flash and in the partial block. */
    ghost function Accepted(): seq<byte>
      requires Valid()
      reads this, flash, partialData
    {
      flash[..wroteSize] + partialData[..partialBytes]
    }

    /** How many bytes must have come before any are written to flash. */
    function Need(): nat {
      if encrypted then BLOCK else 1
    }

    /** The flash that `n` bytes take. */
    function Stored(n: nat): nat {
      if encrypted then (n + BLOCK - 1) / BLOCK * BLOCK else n
    }

    constructor (partition: array<byte>, encryption: bool, working: bool)
      ensures Valid() && Accepted() == [] && wroteSize == 0
      ensures flash == partition && encrypted == encryption && reliable == working && fresh(partialData)
    {
      encrypted, reliable, flash := encryption, working, partition;
      partialData := new byte[BLOCK](_ => 0);
      wroteSize, partialBytes := 0, 0;
    }

    /**
     Writes to the partition, at its end of data only and, with encryption,
     whole blocks only. A failing write may leave anything where it was to write.
     */
    method PartitionWrite(offset: nat, bytes: seq<byte>) returns (ok: bool)
      requires offset == wroteSize <= flash.Length
      requires encrypted ==> offset % BLOCK == 0 && |bytes| % BLOCK == 0
      modifies flash
      ensures flash[..offset] == old(flash[..offset])
      ensures ok ==> offset + |bytes| <= flash.Length
                     && flash[..offset + |bytes|] == old(flash[..offset]) + bytes
                     && flash[offset + |bytes|..] == old(flash[offset + |bytes|..])
      ensures offset + |bytes| > flash.Length ==> !ok
      ensures |bytes| == 0 || (reliable && offset + |bytes| <= flash.Length) ==> ok
    {
      if offset + |bytes| > flash.Length {
        return false;
      }
      var done: nat := *;
      if |bytes| > 0 && !reliable && done < |bytes| {
        forall i | offset <= i < offset + |bytes| {
          flash[i] := if i < offset + done then bytes[i - offset] else 0xFF;
        }
        return false;
      }
      CopyTo(flash, offset, bytes);
      return true;
    }

    /** Writes at the end of what is written and moves the end. */
    method Commit(bytes: seq<byte>) returns (ok: bool)
      requires Valid() && (encrypted ==> |bytes| % BLOCK == 0)
      modifies this`wroteSize, flash
      ensures Valid()
      ensures wroteSize == old(wroteSize) + if ok then |bytes| else 0
      ensures flash[..old(wroteSize)] == old(flash[..wroteSize])
      ensures ok ==> flash[..wroteSize] == old(flash[..wroteSize]) + bytes
      ensures ok ==> flash[wroteSize..] == old(flash[wroteSize + |bytes|..])
      ensures |bytes| == 0 || (reliable && old(wroteSize) + |bytes| <= flash.Length) ==> ok
    {
      ok := PartitionWrite(wroteSize, bytes);
      if ok {
        wroteSize := wroteSize + |bytes|;
      }
    }

    /** Appends `bytes` to the partial block. */
    method Fill(bytes: seq<byte>)
      requires Valid() && encrypted && partialBytes + |bytes| <= BLOCK
      modifies this`partialBytes, partialData
      ensures Valid() && partialBytes == old(partialBytes) + |bytes|
      ensures partialData[..partialBytes] == old(partialData[..partialBytes]) + bytes
    {
      CopyTo(partialData, partialBytes, bytes);
      partialBytes := partialBytes + |bytes|;
    }

    /** Writes a complete partial block and begins a new one. */
    method FlushBlock() returns (ok: bool)
      requires Valid() && encrypted && partialBytes == BLOCK
      modifies this`wroteSize, this`partialBytes, flash, partialData
      ensures Valid() && wroteSize >= old(wroteSize)
      ensures flash[..old(wroteSize)] == old(flash[..wroteSize])
      ensures ok ==> partialBytes == 0 && flash[..wroteSize] == old(Accepted())
      ensures !ok && reliable ==> old(wroteSize) + BLOCK > flash.Length
    {
      assert partialData[..] == partialData[..partialBytes];
      ok := Commit(partialData[..]);
      if ok {
        partialBytes := 0;
        forall i | 0 <= i < BLOCK {
          partialData[i] := 0xFF;
        }
      }
    }

    /**
     Completes the partial block with the first bytes of `data`. When data is
     left to write, the partial block is empty and nothing was lost.
     */
    method Coalesce(data: seq<byte>) returns (res: Option<Result>, rest: seq<byte>)
      requires Valid() && encrypted
      modifies this`wroteSize, this`partialBytes, flash, partialData
      ensures Valid() && wroteSize >= old(wroteSize)
      ensures flash[..old(wroteSize)] == old(flash[..wroteSize])
      ensures res == None || res == Some(Ok) || res == Some(FlashFailed)
      ensures old(partialBytes) + |data| < BLOCK ==>
                wroteSize == old(wroteSize) && res != Some(FlashFailed) && |rest| <= |data|
      ensures res == Some(FlashFailed) && reliable ==> |old(Accepted())| + |data| > flash.Length
      ensures res == None ==> partialBytes == 0 && old(Accepted()) + data == flash[..wroteSize] + rest
      ensures res == Some(Ok) ==> partialBytes < BLOCK && Accepted() == old(Accepted()) + data
    {
      rest := data;
      if partialBytes != 0 {
        var copied := Min(BLOCK - partialBytes, |data|);
        Fill(data[..copied]);
        rest := data[copied..];
        assert data == data[..copied] + rest;
        if partialBytes != BLOCK {
          assert data[..copied] == data;
          return Some(Ok), rest;
        }
        var ok := FlushBlock();
        return if ok then None else Some(FlashFailed), rest;
      }
      return None, rest;
    }

    /** Saves what does not fill a block and returns the rest. */
    method KeepTail(data: seq<byte>) returns (whole: seq<byte>)
      requires Valid() && encrypted && partialBytes == 0
      modifies this`partialBytes, partialData
      ensures Valid() && |whole| % BLOCK == 0 && partialBytes < BLOCK
      ensures whole + partialData[..partialBytes] == data
    {
      var size := |data| - |data| % BLOCK;
      Fill(data[size..]);
      return data[..size];
    }

    /** Completes the partial block and begins the next one: what is left to write has whole blocks. */
    method Hold(data: seq<byte>) returns (res: Option<Result>, whole: seq<byte>)
      requires Valid() && encrypted
      modifies this`wroteSize, this`partialBytes, flash, partialData
      ensures Valid() && wroteSize >= old(wroteSize) && |whole| % BLOCK == 0
      ensures flash[..old(wroteSize)] == old(flash[..wroteSize])
      ensures res == None || res == Some(Ok) || res == Some(FlashFailed)
      ensures old(partialBytes) + |data| < BLOCK ==>
                wroteSize == old(wroteSize) && res != Some(FlashFailed) && (res == None ==> whole == [])
      ensures res == Some(FlashFailed) && reliable ==> |old(Accepted())| + |data| > flash.Length
      ensures res == None ==> old(Accepted()) + data == flash[..wroteSize] + whole + partialData[..partialBytes]
      ensures res == Some(Ok) ==> Accepted() == old(Accepted()) + data
      ensures res != Some(FlashFailed) ==> partialBytes < BLOCK
    {
      res, whole := Coalesce(data);
      if res == None {
        whole := KeepTail(whole);
      } else {
        whole := [];
      }
    }

    /**
     One call of the writer. Each byte of an accepted call is in flash or in the
     partial block, after those of all earlier calls; written flash stays put.
     */
    method Write(data: seq<byte>) returns (res: Result)
      requires Valid()
      modifies this`wroteSize, this`partialBytes, flash, partialData
      ensures Valid() && wroteSize >= old(wroteSize)
      ensures flash[..old(wroteSize)] == old(flash[..wroteSize])
      ensures res in {Ok, FlashFailed, ValidateFailed}
      ensures res == ValidateFailed <==> old(wroteSize) == 0 && data != [] && data[0] != MAGIC
      ensures res == ValidateFailed ==> Accepted() == old(Accepted())
      ensures res == Ok ==> Accepted() == old(Accepted()) + data
      ensures res == Ok ==> partialBytes < BLOCK
      ensures encrypted && old(partialBytes) + |data| < BLOCK && res != ValidateFailed ==>
                res == Ok && wroteSize == old(wroteSize)
      ensures res == FlashFailed ==>
                |old(Accepted())| + |data| >= Need() && (reliable ==> |old(Accepted())| + |data| > flash.Length)
    {
      if wroteSize == 0 && |data| > 0 && data[0] != MAGIC {
        return ValidateFailed;
      }
      var rest := data;
      if encrypted {
        var early;
        early, rest := Hold(data);
        if early.Some? {
          return early.value;
        }
      }
      var ok := Commit(rest);
      return if ok then Ok else FlashFailed;
    }

    /**
     Ends the update. It fails if no flash was written, even when a partial
     block was accepted; otherwise flash starts with the accepted bytes.
     */
    method End(imageOk: bool) returns (res: Result)
      requires Valid()
      modifies this`wroteSize, this`partialBytes, flash
      ensures res == InvalidArg <==> old(wroteSize) == 0
      ensures res == InvalidState ==> old(partialBytes) > 0
      ensures res == ValidateFailed ==> !imageOk
      ensures wroteSize <= flash.Length
      ensures res == Ok ==> imageOk && old(Accepted()) <= flash[..wroteSize] && wroteSize < |old(Accepted())| + BLOCK
      ensures res in {Ok, InvalidArg, InvalidState, ValidateFailed}
      ensures res == InvalidState && reliable ==> old(wroteSize) + BLOCK > flash.Length
      ensures res == Ok ==> wroteSize == old(wroteSize) + if old(partialBytes) > 0 then BLOCK else 0
    {
      if wroteSize == 0 {
        return InvalidArg;
      }
      ghost var input := Accepted();
      if partialBytes > 0 {
        assert partialData[..partialBytes] <= partialData[..];
        var ok := Commit(partialData[..]);
        if !ok {
          return InvalidState;
        }
        assert input <= flash[..wroteSize];
        partialBytes := 0;
      }
      return if imageOk then Ok else ValidateFailed;
    }

    /**
     Writes an image in pieces. As long as the flash works, every call is accepted
     exactly when each piece that arrives too early for flash to be written
     begins with the magic byte.
     */
    method WriteAll(pieces: seq<seq<byte>>) returns (res: Result)
      requires Valid() && Accepted() == []
      modifies this`wroteSize, this`partialBytes, flash, partialData
      ensures Valid() && res in {Ok, FlashFailed, ValidateFailed}
      ensures res == Ok ==> Accepted() == Flat(pieces) && partialBytes < BLOCK
      ensures res != FlashFailed ==> (res == Ok <==> NeverRefused(0, pieces, Need()))
      ensures res == FlashFailed ==>
                |Flat(pieces)| >= Need() && (reliable ==> |Flat(pieces)| > flash.Length)
    {
      for i := 0 to |pieces|
        invariant Valid() && Accepted() == Flat(pieces[..i]) && partialBytes < BLOCK
        invariant NeverRefused(0, pieces, Need()) <==> NeverRefused(|Flat(pieces[..i])|, pieces[i..], Need())
      {
        PieceByPiece(pieces, i);
        res := Write(pieces[i]);
        if res != Ok {
          return;
        }
      }
      assert pieces[..|pieces|] == pieces;
      res := Ok;
    }

    /** No call is refused, enough comes to write any flash, and all of it fits. */
    predicate Writable(pieces: seq<seq<byte>>) {
      NeverRefused(0, pieces, Need()) && |Flat(pieces)| >= Need() && Stored(|Flat(pieces)|) <= flash.Length
    }

    /**
     A whole update. However the image is cut into accepted calls, the partition
     ends up starting with it. With a flash that works, it succeeds exactly when no
     call is refused, at least one block (or byte) comes, the image fits and it is valid.
     */
    method Update(pieces: seq<seq<byte>>, imageOk: bool) returns (res: Result)
      requires Valid() && Accepted() == []
      modifies this`wroteSize, this`partialBytes, flash, partialData
      ensures res == Ok ==> Flat(pieces) <= flash[..]
      ensures res == InvalidArg <==> NeverRefused(0, pieces, Need()) && |Flat(pieces)| < Need()
      ensures res == Ok ==> Writable(pieces) && imageOk
      ensures reliable ==> (res == Ok <==> Writable(pieces) && imageOk)
    {
      res := WriteAll(pieces);
      if res == Ok {
        res := End(imageOk);
        if res == Ok {
          assert Flat(pieces) <= flash[..wroteSize] <= flash[..];
        }
      }
    }
  }

  /** `come` bytes have come: each piece that arrives before `need` of them begins with the magic byte. */
  predicate NeverRefused(come: nat, pieces: seq<seq<byte>>, need: nat)
    decreases |pieces|
  {
    pieces == []
    || (&& (come < need && pieces[0] != [] ==> pieces[0][0] == MAGIC)
        && NeverRefused(come + |pieces[0]|, pieces[1..], need))
  }

  lemma PieceByPiece(pieces: seq<seq<byte>>, i: nat)
    requires i < |pieces|
    ensures Flat(pieces[..i + 1]) == Flat(pieces[..i]) + pieces[i]
    ensures pieces[i..][1..] == pieces[i + 1..] && pieces[i..][0] == pieces[i]
    ensures |Flat(pieces[..i])| + |pieces[i]| <= |Flat(pieces)|
  {
    assert pieces[..i + 1] == pieces[..i] + [pieces[i]];
    FlatSnoc(pieces[..i], pieces[i]);
    assert pieces == pieces[..i + 1] + pieces[i + 1..];
    FlatAppend(pieces[..i + 1], pieces[i + 1..]);
  }

  /** An encrypted image of 15 bytes in one piece: accepted by the writer, refused at the end. */
  method ShortImageIsRefused() returns (accepted: Result, ended: Result)
    ensures accepted == Ok && ended == InvalidArg
  {
    var flash := new byte[4096](_ => 0xFF);
    var entry := new Entry(flash, true, true);
    accepted := entry.Write([MAGIC, 1, 2, 3, 4, 5, 6, 7, 8, 9, 10, 11, 12, 13, 14]);
    assert entry.wroteSize == 0;
    ended := entry.End(true);
  }

  /** An encrypted image of 40 bytes that comes as 8 and 32: the second piece is refused. */
  method EarlyPieceIsRefused(second: seq<byte>) returns (whole: Result, first: Result, later: Result)
    requires |second| == 32 && second[0] != MAGIC
    ensures whole == Ok && first == Ok && later == ValidateFailed
  {
    var head := [MAGIC, 1, 2, 3, 4, 5, 6, 7];
    var image := head + second;
    var flash := new byte[4096](_ => 0xFF);
    var entry := new Entry(flash, true, true);
    whole := entry.Write(image);
    entry := new Entry(flash, true, true);
    first := entry.Write(head);
    assert entry.wroteSize == 0;
    later := entry.Write(second);
  }
}
