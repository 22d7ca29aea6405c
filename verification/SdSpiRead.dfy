/**
 Reading blocks from an SD card over SPI. The host reads ahead of what it has
 understood: bytes behind a start token already belong to the block, and bytes
 behind a block are scanned for the next token.
 */
module SdSpiRead {
  import opened Sequences

  const TOKEN: byte := 0xFE
  const MAX_DATA: nat := 512
  const RETRIES: nat := 1000
  const POLL: nat := 8
  const FIRST_SCAN: nat := 8
  const NEXT_SCAN: nat := 2

  // ---- What the card sends --------------------------------------------------------

  function Number(low: byte, high: byte): nat {
    var l: nat, h: nat := low, high;
    l + 0x100 * h
  }

  /** A block as the card frames it: a gap, the start token, data and a CRC. */
  datatype Frame = Frame(gap: seq<byte>, data: seq<byte>, crcLow: byte, crcHigh: byte) {
    function Encode(): seq<byte> {
      gap + [TOKEN] + data + [crcLow, crcHigh]
    }

    function Crc(): nat {
      Number(crcLow, crcHigh)
    }

    /** `scan` is how much the host has read ahead when the frame begins. */
    ghost predicate Readable(scan: nat) {
      && 7 <= |data| <= MAX_DATA
      && (forall x :: x in gap ==> x == 0 || x == 0xFF)
      && |gap| < scan + POLL * RETRIES
    }
  }

  function Encode(frames: seq<Frame>): seq<byte> {
    if frames == [] then [] else frames[0].Encode() + Encode(frames[1..])
  }

  function Payload(frames: seq<Frame>): seq<byte> {
    if frames == [] then [] else frames[0].data + Payload(frames[1..])
  }

  /** Blocks after the first start at least one byte behind the CRC before them. */
  ghost predicate AllReadable(frames: seq<Frame>, first: bool)
    decreases |frames|
  {
    frames == []
    || (&& frames[0].Readable(if first then FIRST_SCAN else NEXT_SCAN)
        && (!first ==> |frames[0].gap| >= 1)
        && (|frames| > 1 ==> |frames[0].data| == MAX_DATA)
        && AllReadable(frames[1..], false))
  }

  predicate CrcsMatch(crc16: seq<byte> -> nat, frames: seq<Frame>) {
    frames == [] || (crc16(frames[0].data) == frames[0].Crc() && CrcsMatch(crc16, frames[1..]))
  }

  /** The card holds the line high when it has nothing to send. */
  function At(line: seq<byte>, i: nat): byte {
    if i < |line| then line[i] else 0xFF
  }

  function Window(line: seq<byte>, start: nat, n: nat): (w: seq<byte>)
    ensures |w| == n && forall i :: 0 <= i < n ==> w[i] == At(line, start + i)
  {
    seq<byte>(n, i requires 0 <= i => At(line, start + i))
  }

  lemma WindowSplit(line: seq<byte>, start: nat, n: nat, m: nat)
    ensures Window(line, start, n + m) == Window(line, start, n) + Window(line, start + n, m)
  {
  }

  ghost predicate Quiet(line: seq<byte>, start: nat, n: nat) {
    forall i {:trigger At(line, i)} :: start <= i < start + n ==> At(line, i) == 0 || At(line, i) == 0xFF
  }

  /** After `gap` quiet bytes comes a start token. */
  ghost predicate TokenAfter(line: seq<byte>, start: nat, gap: nat) {
    Quiet(line, start, gap) && At(line, start + gap) == TOKEN
  }

  /** The line carries the frames, one behind the other, from `start` on. */
  ghost predicate Carries(line: seq<byte>, start: nat, frames: seq<Frame>)
    decreases |frames|
  {
    frames == []
    || (&& CarriesOne(line, start, frames[0])
        && Carries(line, start + |frames[0].gap| + 1 + |frames[0].data| + 2, frames[1..]))
  }

  /** The line carries frame `f` at `start`. */
  ghost predicate CarriesOne(line: seq<byte>, start: nat, f: Frame) {
    var at := start + |f.gap| + 1;
    && TokenAfter(line, start, |f.gap|)
    && Window(line, at, |f.data|) == f.data
    && At(line, at + |f.data|) == f.crcLow && At(line, at + |f.data| + 1) == f.crcHigh
  }

  lemma EncodedFrame(before: seq<byte>, f: Frame, after: seq<byte>, scan: nat)
    requires f.Readable(scan)
    ensures CarriesOne(before + f.Encode() + after, |before|, f)
  {
    var line := before + f.Encode() + after;
    var at := |before| + |f.gap| + 1;
    assert line[|before|..at - 1] == f.gap;
    assert line[at..at + |f.data|] == f.data;
    assert Window(line, at, |f.data|) == line[at..at + |f.data|];
    forall i {:trigger At(line, i)} | |before| <= i < |before| + |f.gap|
      ensures At(line, i) == 0 || At(line, i) == 0xFF
    {
      assert At(line, i) == line[|before|..at - 1][i - |before|] && f.gap[i - |before|] in f.gap;
    }
  }

  lemma {:induction false} EncodedIsCarried(before: seq<byte>, frames: seq<Frame>, after: seq<byte>, first: bool)
    requires AllReadable(frames, first)
    ensures Carries(before + Encode(frames) + after, |before|, frames)
    decreases |frames|
  {
    if frames != [] {
      var f := frames[0];
      var next := before + f.Encode();
      assert before + Encode(frames) + after == next + (Encode(frames[1..]) + after);
      assert next + (Encode(frames[1..]) + after) == next + Encode(frames[1..]) + after;
      EncodedIsCarried(next, frames[1..], after, false);
      EncodedFrame(before, f, Encode(frames[1..]) + after, if first then FIRST_SCAN else NEXT_SCAN);
    }
  }

  /** The readable lists of frames that the line carries from `start` on. */
  ghost function Coming(line: seq<byte>, start: nat, first: bool): iset<seq<Frame>> {
    iset frames | Carries(line, start, frames) && AllReadable(frames, first)
  }

  lemma EncodedComes(line: seq<byte>, frames: seq<Frame>, tail: seq<byte>)
    requires line == Encode(frames) + tail && AllReadable(frames, true)
    ensures frames in Coming(line, 0, true)
  {
    EncodedIsCarried([], frames, tail, true);
    assert [] + Encode(frames) + tail == line;
  }

  /** The shorter of what is left and a whole block is the length of the next block. */
  lemma ComingNext(line: seq<byte>, start: nat, rest: seq<Frame>, first: bool)
    requires rest in Coming(line, start, first) && rest != []
    ensures CarriesOne(line, start, rest[0])
    ensures rest[0].Readable(if first then FIRST_SCAN else NEXT_SCAN) && (!first ==> |rest[0].gap| >= 1)
    ensures |rest[0].data| == Min(|Payload(rest)|, MAX_DATA)
    ensures rest[1..] in Coming(line, start + |rest[0].Encode()|, false)
  {
  }

  /** What searching the bytes `w`, read from `start` on, says about the token. */
  lemma TokenInWindow(line: seq<byte>, start: nat, gap: nat, w: seq<byte>, idx: nat)
    requires TokenAfter(line, start, gap) && w == Window(line, start, |w|)
    requires idx <= |w| && TOKEN !in w[..idx]
    ensures idx < |w| && w[idx] != 0 && w[idx] != 0xFF ==> gap == idx
    ensures idx == |w| ==> gap >= idx && TokenAfter(line, start + idx, gap - idx)
  {
    forall k {:trigger At(line, k)} | start <= k < start + idx
      ensures At(line, k) != TOKEN
    {
      assert w[k - start] in w[..idx];
    }
    if idx < gap && idx < |w| {
      assert w[idx] == At(line, start + idx);
    }
  }

  // ---- What the host does ---------------------------------------------------------

  datatype Poll = Found | Timeout | InvalidResponse

  datatype Result = Ok | InvalidCrc

  /** Bytes that were read ahead: `size` bytes of `buf` from `at` on. */
  datatype Scan = Scan(buf: array<byte>, at: nat, size: nat)

  class Host {
    const line: seq<byte>
    var pos: nat
    const cmd: array<byte>
    const blockBuf: array<byte>
    const crcEnabled: bool
    const crc16: seq<byte> -> nat

    ghost predicate Shape() {
      cmd.Length == 8 && blockBuf.Length == MAX_DATA + 4 && cmd != blockBuf
    }

    constructor (stream: seq<byte>, checking: bool, sum: seq<byte> -> nat)
      ensures Shape() && fresh(cmd) && fresh(blockBuf)
      ensures line == stream && pos == 0 && crcEnabled == checking && crc16 == sum
    {
      line, pos, crcEnabled, crc16 := stream, 0, checking, sum;
      cmd := new byte[8](_ => 0);
      blockBuf := new byte[MAX_DATA + 4](_ => 0);
    }

    /** One transfer of `n` bytes into the front of `buf`. */
    method Transmit(buf: array<byte>, n: nat)
      requires n <= buf.Length
      modifies this`pos, buf
      ensures pos == old(pos) + n
      ensures buf[..n] == Window(line, old(pos), n)
    {
      for i := 0 to n
        invariant pos == old(pos) + i
        invariant forall k :: 0 <= k < i ==> buf[k] == At(line, old(pos) + k)
      {
        buf[i] := At(line, pos);
        pos := pos + 1;
      }
    }

    /** Searches bytes for the start token and, if `strict`, for unexpected ones. */
    method Search(buf: array<byte>, at: nat, size: nat, strict: bool) returns (idx: nat, odd: bool)
      requires at + size <= buf.Length
      ensures idx <= size
      ensures TOKEN !in buf[at..at + idx]
      ensures !odd && idx < size ==> buf[at..at + size][idx] == TOKEN
      ensures odd ==> idx < size && buf[at..at + size][idx] !in {TOKEN, 0, 0xFF}
    {
      idx := 0;
      while idx < size
        invariant idx <= size
        invariant TOKEN !in buf[at..at + idx]
      {
        if buf[at + idx] == TOKEN {
          return idx, false;
        }
        if strict && buf[at + idx] != 0 && buf[at + idx] != 0xFF {
          return idx, true;
        }
        idx := idx + 1;
      }
      odd := false;
    }

    /**
     Reads on, 8 bytes at a time, until a start token has been seen. The bytes
     behind it go to `cmd`.
     */
    method PollDataToken(ghost gap: nat) returns (res: Poll, extraSize: nat)
      requires Shape()
      modifies this`pos, cmd
      ensures extraSize < POLL && pos >= old(pos)
      ensures TokenAfter(line, old(pos), gap) && gap < POLL * RETRIES ==>
                && res == Found && pos == old(pos) + gap + 1 + extraSize
                && cmd[..extraSize] == Window(line, old(pos) + gap + 1, extraSize)
    {
      extraSize := 0;
      var rx := new byte[POLL](_ => 0xFF);
      for retry := 0 to RETRIES
        invariant extraSize == 0 && fresh(rx) && pos == old(pos) + POLL * retry
        invariant TokenAfter(line, old(pos), gap) ==> gap >= POLL * retry && TokenAfter(line, pos, gap - POLL * retry)
      {
        ghost var start := pos;
        Transmit(rx, POLL);
        var idx, odd := Search(rx, 0, POLL, true);
        assert rx[0..POLL] == rx[..POLL] && rx[0..POLL][..idx] == rx[0..idx];
        if TokenAfter(line, old(pos), gap) {
          TokenInWindow(line, start, gap - POLL * retry, rx[0..POLL], idx);
        }
        if odd {
          return InvalidResponse, 0;
        }
        if idx < POLL {
          forall i | 0 <= i < POLL - idx - 1 {
            cmd[i] := rx[idx + 1 + i];
          }
          extraSize := POLL - idx - 1;
          assert cmd[..extraSize] == Window(line, start + idx + 1, extraSize);
          return Found, extraSize;
        }
      }
      res := Timeout;
    }

    /**
     Finds the start token in what was read ahead, or by reading on. The bytes
     of the block that came along end up in `cmd`.
     */
    method FindData(scanBuf: array<byte>, scanAt: nat, scanSize: nat, ghost gap: nat)
      returns (extraAt: nat, extraSize: nat)
      requires Shape() && scanAt + scanSize <= scanBuf.Length
      requires if scanBuf == cmd then scanSize == FIRST_SCAN else scanSize == NEXT_SCAN && gap >= 1
      requires scanSize <= pos && scanBuf[scanAt..scanAt + scanSize] == Window(line, pos - scanSize, scanSize)
      requires TokenAfter(line, pos - scanSize, gap) && gap < scanSize + POLL * RETRIES
      modifies this`pos, cmd
      ensures extraSize <= 7 && extraAt + extraSize <= cmd.Length
      ensures pos == old(pos) - scanSize + gap + 1 + extraSize
      ensures cmd[extraAt..extraAt + extraSize] == Window(line, pos - extraSize, extraSize)
    {
      ghost var start := pos - scanSize;
      var idx, _ := Search(scanBuf, scanAt, scanSize, false);
      assert scanBuf[scanAt..scanAt + scanSize][..idx] == scanBuf[scanAt..scanAt + idx];
      TokenInWindow(line, start, gap, scanBuf[scanAt..scanAt + scanSize], idx);
      if idx < scanSize {
        extraSize := scanSize - idx - 1;
        extraAt := if extraSize == 0 then 0 else scanAt + idx + 1;
      } else {
        extraAt := 0;
        var _, size := PollDataToken(gap - scanSize);
        extraSize := size;
      }
    }

    /** Copies the received bytes, and before them those that came along, to the destination. */
    method Assemble(dest: array<byte>, at: nat, len: nat, extraAt: nat, extraSize: nat)
      requires Shape() && dest != cmd && dest != blockBuf
      requires extraSize <= len <= MAX_DATA && at + len <= dest.Length && extraAt + extraSize <= cmd.Length
      modifies dest
      ensures dest[..at] == old(dest[..at])
      ensures dest[at..at + extraSize] == cmd[extraAt..extraAt + extraSize]
      ensures dest[at + extraSize..at + len] == blockBuf[..len - extraSize]
    {
      CopyTo(dest, at + extraSize, blockBuf[..len - extraSize]);
      ghost var tail := dest[at + extraSize..];
      CopyTo(dest, at, cmd[extraAt..extraAt + extraSize]);
      assert dest[at + extraSize..at + len] == tail[..len - extraSize];
    }

    lemma PrefixOfWindow(buf: seq<byte>, start: nat, n: nat, m: nat)
      requires n + m <= |buf| && buf[..n + m] == Window(line, start, n + m)
      ensures buf[..n] == Window(line, start, n)
      ensures forall k :: n <= k < n + m ==> buf[k] == At(line, start + k)
    {
      forall k | 0 <= k < n + m
        ensures buf[k] == At(line, start + k)
      {
        assert buf[k] == buf[..n + m][k];
      }
    }

    /** Receives the rest of a block, its CRC and the bytes to scan next. */
    method ReceiveData(dest: array<byte>, at: nat, len: nat, extraAt: nat, extraSize: nat) returns (crc: nat)
      requires Shape() && dest != cmd && dest != blockBuf
      requires extraSize <= len <= MAX_DATA && at + len <= dest.Length
      requires extraSize <= pos && extraAt + extraSize <= cmd.Length
      requires cmd[extraAt..extraAt + extraSize] == Window(line, pos - extraSize, extraSize)
      modifies this`pos, blockBuf, dest
      ensures pos == old(pos) - extraSize + len + 2 + NEXT_SCAN
      ensures dest[..at] == old(dest[..at])
      ensures dest[at..at + len] == Window(line, old(pos) - extraSize, len)
      ensures crc == Number(At(line, pos - 4), At(line, pos - 3))
      ensures blockBuf[len - extraSize + 2..len - extraSize + 4] == Window(line, pos - NEXT_SCAN, NEXT_SCAN)
    {
      var rest := len - extraSize;
      ghost var start := pos;
      Transmit(blockBuf, rest + 4);
      PrefixOfWindow(blockBuf[..], start, rest, 4);
      assert blockBuf[..rest + 4] == blockBuf[..][..rest + 4] && blockBuf[..rest] == blockBuf[..][..rest];
      crc := Number(blockBuf[rest], blockBuf[rest + 1]);
      Assemble(dest, at, len, extraAt, extraSize);
      WindowSplit(line, start - extraSize, extraSize, rest);
      assert dest[at..at + len] == dest[at..at + extraSize] + dest[at + extraSize..at + len];
    }

    /** `scan` is what was read ahead last. */
    ghost predicate Ahead(scan: Scan, first: bool)
      reads this, scan.buf
    {
      && Shape() && scan.at + scan.size <= scan.buf.Length && scan.size <= pos
      && (if first then scan.buf == cmd && scan.size == FIRST_SCAN else scan.buf == blockBuf && scan.size == NEXT_SCAN)
      && scan.buf[scan.at..scan.at + scan.size] == Window(line, pos - scan.size, scan.size)
    }

    /** Receives block `f`, which the line carries next. */
    method ReadBlock(dest: array<byte>, at: nat, len: nat, scan: Scan, ghost first: bool, ghost f: Frame)
      returns (ok: bool, next: Scan)
      requires Ahead(scan, first) && dest != cmd && dest != blockBuf
      requires CarriesOne(line, pos - scan.size, f) && f.Readable(scan.size) && (!first ==> |f.gap| >= 1)
      requires len == |f.data| && at + len <= dest.Length
      modifies this`pos, cmd, blockBuf, dest
      ensures Ahead(next, false) && pos - NEXT_SCAN == old(pos) - scan.size + |f.Encode()|
      ensures ok <==> !crcEnabled || crc16(f.data) == f.Crc()
      ensures dest[..at + len] == old(dest[..at]) + f.data
    {
      var extraAt, extraSize := FindData(scan.buf, scan.at, scan.size, |f.gap|);
      var crc := ReceiveData(dest, at, len, extraAt, extraSize);
      next := Scan(blockBuf, len - extraSize + 2, NEXT_SCAN);
      assert dest[at..at + len] == f.data && crc == f.Crc();
      ok := !(crcEnabled && crc16(dest[at..at + len]) != crc);
      assert dest[..at + len] == dest[..at] + dest[at..at + len];
    }

    /** The driver has reached position `start`, having read ahead. */
    ghost predicate AtFrame(scan: Scan, start: nat, first: bool)
      reads this, scan.buf
    {
      Ahead(scan, first) && pos == start + scan.size
    }

    /** Reads ahead for the first time. */
    method Begin() returns (scan: Scan)
      requires Shape() && pos == 0
      modifies this`pos, cmd
      ensures AtFrame(scan, 0, true)
    {
      Transmit(cmd, FIRST_SCAN);
      scan := Scan(cmd, 0, FIRST_SCAN);
      assert cmd[0..FIRST_SCAN] == cmd[..FIRST_SCAN];
    }

    /** Receives the first of the blocks that are left. */
    method ReadNext(dest: array<byte>, at: nat, rxLength: nat, scan: Scan, ghost start: nat, ghost first: bool,
                    ghost rest: seq<Frame>)
      returns (ok: bool, len: nat, next: Scan)
      requires rest != [] && AtFrame(scan, start, first) && rest in Coming(line, start, first)
      requires dest != cmd && dest != blockBuf
      requires rxLength == |Payload(rest)| && at + rxLength <= dest.Length
      modifies this`pos, cmd, blockBuf, dest
      ensures AtFrame(next, start + |rest[0].Encode()|, false)
      ensures 0 < len <= rxLength && rxLength - len == |Payload(rest[1..])|
      ensures ok <==> !crcEnabled || crc16(rest[0].data) == rest[0].Crc()
      ensures dest[..at + len] + Payload(rest[1..]) == old(dest[..at]) + Payload(rest)
    {
      ComingNext(line, start, rest, first);
      ghost var before, f := dest[..at], rest[0];
      len := Min(rxLength, MAX_DATA);
      ok, next := ReadBlock(dest, at, len, scan, first, f);
      Regroup(before, f.data, Payload(rest[1..]));
    }

    /** Receives the blocks `frames`, up to the first one with a bad checksum. */
    method ReadAll(dest: array<byte>, total: nat, first: Scan, ghost frames: seq<Frame>) returns (res: Result)
      requires AtFrame(first, 0, true) && frames in Coming(line, 0, true)
      requires dest != cmd && dest != blockBuf && total == |Payload(frames)| <= dest.Length
      modifies this`pos, cmd, blockBuf, dest
      ensures res == Ok <==> !crcEnabled || CrcsMatch(crc16, frames)
      ensures res == Ok ==> dest[..total] == Payload(frames)
    {
      ghost var start: nat, rest, isFirst := 0, frames, true;
      var at, rxLength, scan := 0, total, first;
      assert dest[..at] == [] && [] + Payload(frames) == Payload(frames);
      while rxLength > 0
        invariant AtFrame(scan, start, isFirst) && rest in Coming(line, start, isFirst)
        invariant rxLength == |Payload(rest)| && at + rxLength == total
        invariant dest[..at] + Payload(rest) == Payload(frames)
        invariant crcEnabled ==> CrcsMatch(crc16, frames) == CrcsMatch(crc16, rest)
      {
        ComingNext(line, start, rest, isFirst);
        ghost var next, later := start + |rest[0].Encode()|, rest[1..];
        var ok, len, ahead := ReadNext(dest, at, rxLength, scan, start, isFirst, rest);
        if !ok {
          return InvalidCrc;
        }
        at, rxLength, scan := at + len, rxLength - len, ahead;
        start, rest, isFirst := next, later, false;
      }
      assert Payload(rest) == [];
      res := Ok;
    }

    /**
     A whole read. It succeeds exactly when every checksum that is looked at is
     right, and then the destination holds the payload, wherever the start
     tokens fall in the transfers.
     */
    method ReadBlocks(dest: array<byte>, total: nat, ghost frames: seq<Frame>, ghost tail: seq<byte>)
      returns (res: Result)
      requires Shape() && dest != cmd && dest != blockBuf && pos == 0
      requires line == Encode(frames) + tail && AllReadable(frames, true)
      requires total == |Payload(frames)| <= dest.Length
      modifies this`pos, cmd, blockBuf, dest
      ensures res == Ok <==> !crcEnabled || CrcsMatch(crc16, frames)
      ensures res == Ok ==> dest[..total] == Payload(frames)
    {
      EncodedComes(line, frames, tail);
      var scan := Begin();
      res := ReadAll(dest, total, scan, frames);
    }
  }
}
