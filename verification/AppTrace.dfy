/**
 The trace transport: two memory blocks that the target and the host swap, a
 control register both sides read and write, and a pending ring with its queue
 of chunk sizes. The caller holds the module's lock throughout.
 */
module AppTrace {
  import opened Sequences
  import opened TraceRing
  import opened TraceLog
  import opened TraceFraming

  // ---- The control register ------------------------------------------------

  /** The fields of the control register. */
  datatype Ctrl = Ctrl(id: nat, hostData: bool, connected: bool, len: nat)

  function Pack(c: Ctrl): nat {
    c.id % 0x80 * 0x8000 + (if c.hostData then 0x40_0000 else 0) + (if c.connected then 0x80_0000 else 0)
    + c.len % 0x8000
  }

  function Unpack(reg: nat): Ctrl {
    Ctrl(reg / 0x8000 % 0x80, reg / 0x40_0000 % 2 == 1, reg / 0x80_0000 % 2 == 1, reg % 0x8000)
  }

  /** Packing keeps both flags and the length, and the id modulo 128. */
  lemma UnpackPack(c: Ctrl)
    requires c.len < 0x8000
    ensures Unpack(Pack(c)) == c.(id := c.id % 0x80)
  {
  }

  lemma Turn(n: nat)
    ensures (n + 1) % 2 == 1 - n % 2
  {
  }

  /**
   The source keeps the block counter in 32 bits. Only its value modulo 2 and
   modulo 128 is ever used, so an unbounded counter stands for it.
   */
  lemma CounterWrapIsHarmless(n: nat)
    ensures n % 0x1_0000_0000 % 2 == n % 2
    ensures n % 0x1_0000_0000 % 0x80 == n % 0x80
  {
    var q, r := n / 0x1_0000_0000, n % 0x1_0000_0000;
    LowBit(q * 0x8000_0000, r);
    LowSevenBits(q * 0x200_0000, r);
    assert n == 2 * (q * 0x8000_0000) + r == 0x80 * (q * 0x200_0000) + r;
  }

  lemma LowBit(a: nat, r: nat)
    ensures (2 * a + r) % 2 == r % 2
  {
  }

  lemma LowSevenBits(a: nat, r: nat)
    ensures (0x80 * a + r) % 0x80 == r % 0x80
  {
    var q, low := r / 0x80, r % 0x80;
    assert 0x80 * a + r == 0x80 * (a + q) + low;
  }

  // ---- The transport -------------------------------------------------------

  /** What the host may do to the control register between two target steps. */
  datatype HostAct = Nothing | Connect | Disconnect | ReadAndAck

  /**
   The host's side. `missed` is what was gone when it last connected; `read` is
   the user blocks, and `bytes` the raw bytes, that it has read since.
   */
  datatype Host = Host(missed: seq<UserBlock>, read: seq<UserBlock>, bytes: seq<byte>) {
    ghost predicate Follows(gone: seq<UserBlock>, connected: bool) {
      && bytes == Flat(read)
      && (connected ==> gone == missed + read)
    }
  }

  /** There is always a chunk to pump that fits, perhaps an empty one. */
  lemma CanSwitch(b: SoundBook)
    ensures NextChunk(ViewOf(b)) <= |ViewOf(b).pend| && NextChunk(ViewOf(b)) <= BLOCK_SIZE
  {
    SwitchPumpsChunk(b);
  }

  /** A host that has just connected has missed what is gone. */
  lemma NewHost(gone: seq<UserBlock>)
    ensures Host(gone, [], []).Follows(gone, true)
  {
    assert gone == gone + [];
  }

  lemma ReadsMore(h: Host, b: Book, connected: bool)
    requires h.Follows(b.gone, connected)
    ensures Host(h.missed, h.read + b.shown, h.bytes + Flat(b.shown)).Follows(b.Ack().gone, connected)
  {
    FlatAppend(h.read, b.shown);
    assert connected ==> b.gone + b.shown == h.missed + (h.read + b.shown);
  }

  lemma ReadsPrefix(h: Host, b: Book)
    requires h.Follows(b.gone, true)
    ensures b.Log() == h.missed + h.read + b.shown + b.input + b.Pending()
    ensures Flat(b.Log()) == Flat(h.missed) + h.bytes + Flat(b.shown + b.input + b.Pending())
  {
    var tail := b.shown + b.input + b.Pending();
    assert b.Log() == h.missed + h.read + tail;
    FlatAppend(h.missed + h.read, tail);
    FlatAppend(h.missed, h.read);
  }

  lemma RegroupFive<T>(a: seq<T>, b: seq<T>, c: seq<T>, d: seq<T>, e: seq<T>)
    ensures a + b + c + d + e == a + (b + (c + d + e))
  {
    Regroup(a, b, c + d + e);
    Regroup(a + b, c, d);
    Regroup(a + b, c + d, e);
  }

  /** What a connected host has read are the blocks of a contiguous run of the messages. */
  lemma ReadsSlice(h: Host, b: Book, ms: seq<Sendable>)
    requires h.Follows(b.gone, true) && b.Log() == Frames(ms)
    ensures |h.missed| + |h.read| <= |ms|
    ensures h.bytes == Flat(Frames(Part(ms, |h.missed|, |h.read|)))
  {
    RegroupFive(h.missed, h.read, b.shown, b.input, b.Pending());
    FramesSlice(ms, h.missed, h.read, b.shown + b.input + b.Pending());
  }

  /** Parsing these bytes yields just these messages. */
  lemma ReadsParse(h: Host, b: Book, ms: seq<Sendable>)
    requires h.Follows(b.gone, true) && b.Log() == Frames(ms)
    ensures |h.missed| + |h.read| <= |ms|
    ensures Parse(h.bytes) == Some(Part(ms, |h.missed|, |h.read|))
  {
    ReadsSlice(h, b, ms);
    ParseFrames(Part(ms, |h.missed|, |h.read|));
  }

  /** How an allocation ends. SlotAssert: the assertion on a full slot ring fired. */
  datatype Outcome = NoBuffer | Granted | SlotAssert

  /** What the application, or the host, does next. */
  datatype Call = Send(m: Message, acts: seq<HostAct>) | FlushAll(acts: seq<HostAct>) | HostDoes(act: HostAct)

  lemma PieceLeft<T>(done: seq<T>, rest: seq<T>, all: seq<T>, n: nat)
    requires done + rest == all && n <= |all|
    ensures n - |done| <= |rest|
  {
  }

  class Transport {
    const blk0: array<byte>
    const blk1: array<byte>
    const pend: Ring<byte>
    const slots: Ring<nat>
    var inBlock: nat
    var markers: seq<nat>
    var curChunk: nat
    var ctrlReg: nat

    ghost var book: SoundBook
    ghost var host: Host

    ghost predicate Parts() {
      && blk0.Length == blk1.Length == BLOCK_SIZE
      && blk0 != blk1
      && pend.data != blk0 && pend.data != blk1
      && slots.data as object != blk0 && slots.data as object != blk1
      && slots.data as object != pend.data
      && pend as object != slots
    }

    ghost function Footprint(): set<object> {
      {this, pend, pend.data, slots, slots.data, blk0, blk1}
    }

    function Blk(i: nat): array<byte> {
      if i == 0 then blk0 else blk1
    }

    function In(): nat
      reads this`inBlock
    {
      inBlock % 2
    }

    /** The fields of the control register. */
    function Ctl(): Ctrl
      reads this`ctrlReg
    {
      Unpack(ctrlReg)
    }

    /** Writes the control register. */
    method SetCtrl(c: Ctrl)
      requires c.id < 0x80 && c.len <= BLOCK_SIZE
      modifies this`ctrlReg
      ensures Ctl() == c
    {
      UnpackPack(c);
      ctrlReg := Pack(c);
    }

    ghost predicate Shape()
      reads this`markers, this`ctrlReg, pend, pend.data, slots, slots.data
    {
      && Parts()
      && pend.Shape() && slots.Shape()
      && |markers| == 2 && markers[0] <= BLOCK_SIZE && markers[1] <= BLOCK_SIZE
      && Ctl().len <= BLOCK_SIZE
    }

    /** What the memories hold when block `i` is the input block. */
    ghost function Side(i: nat): View
      requires Shape() && i < 2
      reads this`markers, this`ctrlReg, this`curChunk, pend, pend.data, slots, slots.data, blk0, blk1
    {
      View(Blk(i)[..markers[i]], Blk(1 - i)[..Ctl().len], slots.Contents(), curChunk, pend.Contents())
    }

    ghost function Memories(): View
      requires Shape()
      reads this`inBlock, this`markers, this`ctrlReg, this`curChunk, pend, pend.data, slots, slots.data, blk0, blk1
    {
      Side(In())
    }

    ghost predicate Valid()
      reads Footprint()
    {
      && Shape()
      && Ctl().id == inBlock % 0x80
      && Memories() == ViewOf(book)
      && host.Follows(book.gone, Ctl().connected)
    }

    constructor (b0: array<byte>, b1: array<byte>, p: Ring<byte>, s: Ring<nat>)
      requires b0.Length == b1.Length == BLOCK_SIZE && b0 != b1
      requires p.data != b0 && p.data != b1
      requires s.data as object != b0 && s.data as object != b1 && s.data as object != p.data
      requires p as object != s
      requires p.Shape() && p.Contents() == [] && s.Shape() && s.Contents() == []
      ensures Valid() && book.Log() == [] && !Ctl().connected
      ensures blk0 == b0 && blk1 == b1 && pend == p && slots == s
    {
      blk0, blk1, pend, slots := b0, b1, p, s;
      inBlock, markers, curChunk, ctrlReg := 0, [0, 0], 0, 0;
      host := Host([], [], []);
      book := Book([], [], [], [], []);
    }

    /** Queues the size of the chunk that the new user block no longer fits. */
    method ChunkSizeUpdate(n: nat) returns (ok: bool)
      requires Shape()
      modifies slots, slots.data, this`curChunk
      ensures Shape()
      ensures ok ==> (slots.Contents(), curChunk) == old(
                if curChunk + n <= BLOCK_SIZE then (slots.Contents(), curChunk + n)
                else (slots.Contents() + [curChunk], n))
      ensures !ok ==> old(curChunk) + n > BLOCK_SIZE && old(slots.Ix()).Room(slots.data.Length) < 1
    {
      ok := true;
      if curChunk + n <= BLOCK_SIZE {
        curChunk := curChunk + n;
      } else {
        ok := slots.Write([curChunk]);
        if ok {
          curChunk := n;
        }
      }
    }

    /** Takes the size of the oldest chunk, or closes the open one. */
    method ChunkSizeGet() returns (n: nat)
      requires Shape()
      modifies slots, this`curChunk
      ensures Shape()
      ensures old(slots.Contents()) == [] ==>
                n == old(curChunk) && curChunk == 0 && slots.Contents() == []
      ensures old(slots.Contents()) != [] ==>
                && n == old(slots.Contents())[0] && curChunk == old(curChunk)
                && slots.Contents() == old(slots.Contents())[1..]
    {
      var ok, at := slots.Consume(1);
      if !ok {
        n := curChunk;
        curChunk := 0;
      } else {
        n := slots.data[at];
      }
    }

    /** Moves the `size` oldest pending bytes to offset `m` of block `i`. */
    method PumpPiece(i: nat, m: nat, size: nat) returns (ok: bool)
      requires Parts() && pend.Shape() && i < 2
      requires size <= pend.ReadSize() && m + size <= BLOCK_SIZE
      modifies pend, Blk(i)
      ensures pend.Shape() && ok
      ensures Blk(i)[..m + size] + pend.Contents() == old(Blk(i)[..m] + pend.Contents())
    {
      var blk := Blk(i);
      ghost var head := blk[..m];
      var at;
      ok, at := pend.Consume(size);
      ghost var piece := pend.data[..][at..at + size];
      CopyTo(blk, m, pend.data[at..at + size]);
      assert blk[..m + size] == blk[..m] + blk[m..m + size];
      Regroup(head, piece, pend.Contents());
    }

    /** One round of the pump; `starved` reports that no pending bytes were found. */
    method PumpOnce(i: nat, n: nat) returns (starved: bool)
      requires Parts() && pend.Shape() && i < |markers| && i < 2 && markers[i] < n <= BLOCK_SIZE
      requires n - markers[i] <= |pend.Contents()|
      modifies pend, Blk(i), this`markers
      ensures pend.Shape() && !starved
      ensures |markers| == old(|markers|) && old(markers[i]) < markers[i] <= n
      ensures markers == old(markers)[i := markers[i]]
      ensures Blk(i)[..markers[i]] + pend.Contents() == old(Blk(i)[..markers[i]] + pend.Contents())
    {
      var size := pend.ReadSize();
      if size == 0 {
        return true;
      }
      if size > n - markers[i] {
        size := n - markers[i];
      }
      var _ := PumpPiece(i, markers[i], size);
      markers := markers[i := markers[i] + size];
      return false;
    }

    /**
     Moves the `n` oldest pending bytes into block `i`. `starved` reports that
     the branch for missing pending bytes was taken.
     */
    method Pump(i: nat, n: nat) returns (starved: bool)
      requires Parts() && pend.Shape() && i < |markers| && i < 2 && markers[i] == 0
      requires n <= |pend.Contents()| && n <= BLOCK_SIZE
      modifies pend, Blk(i), this`markers
      ensures pend.Shape() && !starved
      ensures markers == old(markers)[i := n]
      ensures Blk(i)[..n] + pend.Contents() == old(pend.Contents())
    {
      starved := false;
      ghost var all := pend.Contents();
      while markers[i] < n
        invariant pend.Shape() && !starved
        invariant |markers| == old(|markers|) && markers[i] <= n
        invariant markers == old(markers)[i := markers[i]]
        invariant Blk(i)[..markers[i]] + pend.Contents() == all
      {
        PieceLeft(Blk(i)[..markers[i]], pend.Contents(), all, n);
        starved := PumpOnce(i, n);
        if starved {
          break;
        }
      }
    }

    /** Pumps one pending chunk to the start of block `i`. */
    method PumpChunk(i: nat) returns (starved: bool)
      requires Shape() && i < 2
      requires NextChunk(Side(1 - i)) <= |pend.Contents()| && NextChunk(Side(1 - i)) <= BLOCK_SIZE
      modifies this`markers, this`curChunk, pend, slots, Blk(i)
      ensures Shape() && !starved && markers[1 - i] == old(markers[1 - i])
      ensures old(SwitchView(Side(1 - i))) ==
              View(Blk(i)[..markers[i]], Blk(1 - i)[..markers[1 - i]], slots.Contents(), curChunk, pend.Contents())
    {
      ghost var v := Side(1 - i);
      markers := markers[i := 0];
      var n := ChunkSizeGet();
      starved := Pump(i, n);
      assert Blk(i)[..n] == v.pend[..n] && pend.Contents() == v.pend[n..];
    }

    /**
     The part of a block switch after the host's turn has been checked: one
     pending chunk becomes the start of the new input block `i`, and the old
     input block is exposed with its length.
     */
    method SwapBlocks(i: nat) returns (starved: bool)
      requires Shape() && i < 2
      requires NextChunk(Side(1 - i)) <= |pend.Contents()| && NextChunk(Side(1 - i)) <= BLOCK_SIZE
      modifies this`markers, this`curChunk, this`ctrlReg, pend, slots, Blk(i)
      ensures Shape() && !starved
      ensures Ctl() == Ctrl(inBlock % 0x80, false, old(Ctl()).connected, old(markers)[1 - i])
      ensures Side(i) == SwitchView(old(Side(1 - i)))
    {
      var connected := Ctl().connected;
      starved := PumpChunk(i);
      Expose(i, connected);
    }

    /** Exposes the data of the block other than `i`. */
    method Expose(i: nat, connected: bool)
      requires Shape() && i < 2
      modifies this`ctrlReg
      ensures Shape() && Ctl() == Ctrl(inBlock % 0x80, false, connected, markers[1 - i])
      ensures Side(i) == View(Blk(i)[..markers[i]], Blk(1 - i)[..markers[1 - i]], slots.Contents(), curChunk,
                              pend.Contents())
    {
      SetCtrl(Ctrl(inBlock % 0x80, false, connected, markers[1 - i]));
    }

    /** The memories after an allowed switch. */
    method SwitchMemories(ghost v: View)
      requires Shape() && v == Memories() && NextChunk(v) <= |v.pend| && NextChunk(v) <= BLOCK_SIZE
      modifies this`markers, this`inBlock, this`curChunk, this`ctrlReg, pend, slots, blk0, blk1
      ensures Shape() && inBlock == old(inBlock) + 1
      ensures Ctl().id == inBlock % 0x80 && Ctl().connected == old(Ctl().connected)
      ensures Memories() == SwitchView(v)
    {
      Turn(inBlock);
      var newBlock := if In() == 1 then 0 else 1;
      assert v == Side(1 - newBlock);
      inBlock := inBlock + 1;
      assert Side(1 - newBlock) == v && In() == newBlock;
      var starved := SwapBlocks(newBlock);
      assert Memories() == SwitchView(v);
    }

    /** An allowed switch. */
    method SwitchNow()
      requires Valid() && (Ctl().connected ==> Ctl().len == 0)
      modifies this`markers, this`inBlock, this`curChunk, this`ctrlReg, this`book, pend, slots, blk0, blk1
      ensures Valid()
      ensures book == old(book).Switch() && inBlock == old(inBlock) + 1
      ensures Ctl().connected == old(Ctl().connected)
      ensures Ctl().connected ==> book.gone == old(book).gone
    {
      ghost var v := ViewOf(book);
      CanSwitch(book);
      SwitchMemories(v);
      RecordSwitch(v);
    }

    /** Records a switch that has been made. */
    ghost method RecordSwitch(v: View)
      requires v == ViewOf(book) && NextChunk(v) <= |v.pend|
      requires Shape() && Memories() == SwitchView(v)
      requires Ctl().id == inBlock % 0x80 && host.Follows(book.gone, Ctl().connected)
      requires Ctl().connected ==> v.shown == []
      modifies this`book
      ensures Valid() && book == old(book).Switch()
      ensures Ctl().connected ==> book.gone == old(book).gone
    {
      SwitchStep(book);
      book := book.Switch();
    }

    /**
     Exposes the input block to the host, unless a connected host has not yet
     read the block exposed before.
     */
    method BlockSwitch() returns (ok: bool)
      requires Valid()
      modifies this`markers, this`inBlock, this`curChunk, this`ctrlReg, this`book, pend, slots, blk0, blk1
      ensures Valid()
      ensures ok <==> !old(Ctl().connected) || old(Ctl().len) == 0
      ensures book == if ok then old(book).Switch() else old(book)
      ensures inBlock == if ok then old(inBlock) + 1 else old(inBlock)
      ensures Ctl().connected == old(Ctl().connected)
      ensures old(Ctl().connected) ==> book.gone == old(book).gone
    {
      if Ctl().connected {
        if Ctl().len != 0 || Ctl().id != inBlock % 0x80 {
          return false;
        }
      }
      SwitchNow();
      return true;
    }

    /** The host reads the exposed block out of the trace memory. */
    method HostRead() returns (bytes: seq<byte>)
      requires Valid()
      ensures bytes == Flat(book.shown)
    {
      bytes := Blk(1 - In())[..Ctl().len];
    }

    /** The host clears the length field: nothing is exposed any more. */
    method ClearLength()
      requires Shape()
      modifies this`ctrlReg
      ensures Shape() && Ctl() == old(Ctl()).(len := 0)
      ensures Memories() == old(Memories()).(shown := [])
    {
      SetCtrl(Ctl().(len := 0));
      assert Blk(1 - In())[..0] == [];
    }

    /** The host reads the exposed block and then clears the length field. */
    method HostReadAndAck()
      requires Valid()
      modifies this`ctrlReg, this`book, this`host
      ensures Valid() && Ctl() == old(Ctl()).(len := 0)
      ensures book == old(book).Ack()
      ensures host.bytes == old(host.bytes) + Flat(old(book).shown)
    {
      var bytes := HostRead();
      ClearLength();
      RecordAck(bytes);
    }

    /** Records that the host has read the exposed block. */
    ghost method RecordAck(bytes: seq<byte>)
      requires Shape() && Memories() == ViewOf(book).(shown := []) && bytes == Flat(book.shown)
      requires Ctl().id == inBlock % 0x80 && host.Follows(book.gone, Ctl().connected)
      modifies this`book, this`host
      ensures Valid() && book == old(book).Ack() && host.bytes == old(host.bytes) + bytes
    {
      AckStep(book);
      ReadsMore(host, book, Ctl().connected);
      host := host.(read := host.read + book.shown, bytes := host.bytes + bytes);
      book := book.Ack();
    }

    /** The host connects; what it reads is counted from here. */
    method HostConnect()
      requires Valid()
      modifies this`ctrlReg, this`host
      ensures Valid() && Ctl().connected
    {
      if !Ctl().connected {
        NewHost(book.gone);
        SetCtrl(Ctl().(connected := true));
        host := Host(book.gone, [], []);
        assert host.Follows(book.gone, true);
      }
    }

    method HostDisconnect()
      requires Valid()
      modifies this`ctrlReg
      ensures Valid() && !Ctl().connected
    {
      SetCtrl(Ctl().(connected := false));
    }

    /** Anything the host may do between two steps of the target. */
    method HostStep(act: HostAct)
      requires Valid()
      modifies this`ctrlReg, this`book, this`host
      ensures Valid()
      ensures book == if act.ReadAndAck? then old(book).Ack() else old(book)
      ensures act.Connect? ==> Ctl().connected
      ensures act.Disconnect? ==> !Ctl().connected
    {
      match act {
        case Nothing =>
        case Connect => HostConnect();
        case Disconnect => HostDisconnect();
        case ReadAndAck => HostReadAndAck();
      }
    }

    /** The host acts and the switch is tried again. */
    method Retry(act: HostAct, ghost first: SoundBook) returns (ok: bool)
      requires Valid() && SameTarget(first, book)
      modifies this`markers, this`inBlock, this`curChunk, this`ctrlReg, this`book, this`host, pend, slots, blk0, blk1
      ensures Valid()
      ensures if ok then Advanced(first, book) else SameTarget(first, book)
    {
      TargetSteps(first, book);
      HostStep(act);
      ok := BlockSwitch();
    }

    /**
     Retries the switch until it succeeds or the time is up. `acts` is what
     the host does between the attempts; when it runs out, so has the time.
     */
    method BlockSwitchWait(acts: seq<HostAct>) returns (ok: bool, rest: seq<HostAct>)
      requires Valid()
      modifies this`markers, this`inBlock, this`curChunk, this`ctrlReg, this`book, this`host, pend, slots, blk0, blk1
      ensures Valid()
      ensures if ok then Advanced(old(book), book) else SameTarget(old(book), book)
    {
      rest := acts;
      ok := BlockSwitch();
      while !ok && rest != []
        invariant Valid()
        invariant if ok then Advanced(old(book), book) else SameTarget(old(book), book)
        decreases |rest|
      {
        ok := Retry(rest[0], old(book));
        rest := rest[1..];
      }
    }

    /** The memories after a pending reservation has been filled and counted. */
    method PendMemories(u: UserBlock) returns (outcome: Outcome)
      requires Shape() && |u| <= BLOCK_SIZE
      modifies pend, pend.data, slots, slots.data, this`curChunk
      ensures outcome != SlotAssert ==> Shape()
      ensures outcome != SlotAssert ==>
                Memories() == if outcome == Granted then PendView(old(Memories()), u) else old(Memories())
      ensures outcome == NoBuffer <==> |u| > old(pend.Ix()).Room(pend.data.Length)
    {
      var ok := pend.Write(u);
      if !ok {
        return NoBuffer;
      }
      ok := ChunkSizeUpdate(|u|);
      return if ok then Granted else SlotAssert;
    }

    /** Reserves and fills a user block in the pending ring. */
    method TakePending(u: UserBlock) returns (outcome: Outcome)
      requires Valid() && HEADER_SIZE <= |u| <= BLOCK_SIZE
      requires book.Pending() != [] || |Flat(book.input)| + |u| > BLOCK_SIZE
      modifies pend, pend.data, slots, slots.data, this`curChunk, this`book
      ensures outcome != SlotAssert ==> Valid()
      ensures outcome == Granted ==> book == old(book).Pend(u)
      ensures outcome == NoBuffer ==> book == old(book)
    {
      outcome := PendMemories(u);
      if outcome == Granted {
        RecordPend(u);
      }
    }

    /** Records a pending reservation that has been made. */
    ghost method RecordPend(u: UserBlock)
      requires Shape() && Memories() == PendView(ViewOf(book), u)
      requires Ctl().id == inBlock % 0x80 && host.Follows(book.gone, Ctl().connected)
      requires HEADER_SIZE <= |u| <= BLOCK_SIZE
      requires book.Pending() != [] || |Flat(book.input)| + |u| > BLOCK_SIZE
      modifies this`book
      ensures Valid() && book == old(book).Pend(u)
    {
      PendStep(book, u);
      book := book.Pend(u);
    }

    /** Copies a user block behind the data of input block `i`. */
    method FillInput(i: nat, u: UserBlock)
      requires Shape() && i < 2 && markers[i] + |u| <= BLOCK_SIZE
      modifies this`markers, Blk(i)
      ensures Shape()
      ensures Side(i) == old(Side(i)).(input := old(Side(i)).input + u)
    {
      var m, blk := markers[i], Blk(i);
      ghost var head := blk[..m];
      CopyTo(blk, m, u);
      markers := markers[i := m + |u|];
      assert blk[..m + |u|] == head + u;
    }

    /** Reserves and fills a user block in the input block. */
    method TakeInput(u: UserBlock)
      requires Valid() && HEADER_SIZE <= |u| && book.Pending() == []
      requires markers[In()] + |u| <= BLOCK_SIZE
      modifies this`markers, this`book, Blk(In())
      ensures Valid() && book == old(book).Take(u)
    {
      assert ViewOf(book).input == Flat(book.input) == Memories().input;
      FillInput(In(), u);
      RecordTake(u);
    }

    /** Records a user block that has been stored in the input block. */
    ghost method RecordTake(u: UserBlock)
      requires Shape() && HEADER_SIZE <= |u| && book.Pending() == [] && |Flat(book.input)| + |u| <= BLOCK_SIZE
      requires Memories() == ViewOf(book).(input := ViewOf(book).input + u)
      requires Ctl().id == inBlock % 0x80 && host.Follows(book.gone, Ctl().connected)
      modifies this`book
      ensures Valid() && book == old(book).Take(u)
    {
      ghost var v := Memories();
      TakeStep(book, u);
      book := book.Take(u);
      assert Memories() == v == ViewOf(book);
    }

    /** Places a user block behind everything else that is not yet exposed. */
    method Place(u: UserBlock) returns (outcome: Outcome)
      requires Valid() && HEADER_SIZE <= |u| <= BLOCK_SIZE
      modifies pend, pend.data, slots, slots.data, this`curChunk, this`book, this`markers, Blk(In())
      ensures outcome != SlotAssert ==> Valid()
      ensures outcome == Granted ==> book == old(book).Pend(u) || book == old(book).Take(u)
      ensures outcome == Granted ==> book.Log() == old(book).Log() + [u]
      ensures outcome == NoBuffer ==> book == old(book)
      ensures old(book).Pending() == [] && |Flat(old(book).input)| + |u| <= BLOCK_SIZE ==>
                outcome == Granted && book == old(book).Take(u)
    {
      PendingImpliesInput(book);
      PendAppends(book, u);
      if pend.ReadSize() > 0 || markers[In()] + |u| > BLOCK_SIZE {
        outcome := TakePending(u);
      } else {
        TakeAppends(book, u);
        TakeInput(u);
        outcome := Granted;
      }
    }

    /** After a switch, places a user block where the data order demands. */
    method WaitForBuffer(u: UserBlock, acts: seq<HostAct>) returns (outcome: Outcome)
      requires Valid() && HEADER_SIZE <= |u| <= BLOCK_SIZE
      modifies Footprint()
      ensures outcome != SlotAssert ==> Valid()
      ensures outcome == Granted ==> book.Log() == old(book).Log() + [u]
      ensures outcome == NoBuffer ==> book.Log() == old(book).Log()
    {
      var ok, rest := BlockSwitchWait(acts);
      if !ok {
        SameTargetKeepsLog(old(book), book);
        return NoBuffer;
      }
      AdvancedKeepsLog(old(book), book);
      outcome := Place(u);
    }

    /**
     Allocates and fills a user block for `m`. On success the log has grown by
     exactly that block, at its end, whichever memory it was placed in.
     */
    method GetBuffer(m: Message, acts: seq<HostAct>) returns (outcome: Outcome)
      requires Valid() && m.core < 2
      modifies Footprint()
      ensures outcome != SlotAssert ==> Valid()
      ensures outcome == Granted ==> m.Valid() && book.Log() == old(book).Log() + [Frame(m)]
      ensures outcome == NoBuffer ==> book.Log() == old(book).Log()
      ensures !m.Valid() ==> outcome == NoBuffer
      ensures m.Valid() && old(book).Pending() == []
              && |Flat(old(book).input)| + HEADER_SIZE + |m.payload| <= BLOCK_SIZE ==>
                outcome == Granted && book == old(book).Take(Frame(m))
    {
      if |m.payload| > PAYLOAD_MAX {
        return NoBuffer;
      }
      PendingImpliesInput(book);
      if pend.ReadSize() > 0 {
        var _ := BlockSwitch();
        SwitchKeepsLog(old(book));
      }
      outcome := Place(Frame(m));
      if outcome == NoBuffer {
        outcome := WaitForBuffer(Frame(m), acts);
      }
    }

    /**
     Exposes data until the input block is empty. With `minSize` 0, success
     means that nothing is left on the target's side.
     */
    method Flush(minSize: nat, acts: seq<HostAct>) returns (ok: bool)
      requires Valid()
      modifies this`markers, this`inBlock, this`curChunk, this`ctrlReg, this`book, this`host, pend, slots, blk0, blk1
      ensures Valid() && book.Log() == old(book).Log()
      ensures ok && |Flat(old(book).input)| >= minSize ==>
                book.input == [] && book.Pending() == [] && pend.Contents() == []
      ensures |Flat(old(book).input)| < minSize ==> ok && book == old(book)
    {
      if markers[In()] < minSize {
        return true;
      }
      var rest := acts;
      while markers[In()] > 0
        invariant Valid() && book.Log() == old(book).Log()
        decreases book.Backlog()
      {
        ghost var before := book;
        ok, rest := BlockSwitchWait(rest);
        if !ok {
          SameTargetKeepsLog(before, book);
          return;
        }
        AdvancedKeepsLog(before, book);
      }
      PendingImpliesInput(book);
      ok := true;
    }

    /**
     While the host stays connected, what it has read is a prefix of the log
     from the moment it connected: nothing is lost, repeated or reordered.
     */
    lemma HostReadsPrefix()
      requires Valid() && Ctl().connected
      ensures book.Log() == host.missed + host.read + book.shown + book.input + book.Pending()
      ensures Flat(book.Log()) == Flat(host.missed) + host.bytes
                                  + Flat(book.shown + book.input + book.Pending())
    {
      ReadsPrefix(host, book);
    }

    method ServeSend(m: Message, acts: seq<HostAct>, ghost ms: seq<Sendable>) returns (granted: bool, asserted: bool)
      requires Valid() && book.Log() == Frames(ms) && m.core < 2
      modifies Footprint()
      ensures granted ==> m.Valid() && !asserted
      ensures !asserted ==> Valid() && book.Log() == Frames(if granted then Snoc(ms, m) else ms)
    {
      var outcome := GetBuffer(m, acts);
      granted, asserted := outcome == Granted, outcome == SlotAssert;
      if granted {
        FramesAppend(ms, [m]);
        assert Frames([m]) == [Frame(m)];
      }
    }

    /** One call of the tracing interface: the log remains that of the messages granted. */
    method Serve(call: Call, ghost ms: seq<Sendable>) returns (granted: bool, asserted: bool)
      requires Valid() && book.Log() == Frames(ms)
      modifies Footprint()
      ensures granted ==> call.Send? && call.m.Valid()
      ensures !asserted ==> Valid() && book.Log() == Frames(if granted then Snoc(ms, call.m) else ms)
    {
      granted, asserted := false, false;
      match call {
        case Send(m, acts) =>
          if m.core < 2 {
            granted, asserted := ServeSend(m, acts, ms);
          }
        case FlushAll(acts) =>
          var _ := Flush(0, acts);
        case HostDoes(act) =>
          AckKeepsLog(book);
          HostStep(act);
      }
    }

    lemma HostReadsSlice(ms: seq<Sendable>)
      requires host.Follows(book.gone, true) && book.Log() == Frames(ms)
      ensures |host.missed| + |host.read| <= |ms|
      ensures host.bytes == Flat(Frames(Part(ms, |host.missed|, |host.read|)))
    {
      ReadsSlice(host, book, ms);
    }

    /** Any number of calls of the interface and acts of the host. */
    method ServeAll(calls: seq<Call>) returns (asserted: bool, granted: seq<Sendable>)
      requires Valid() && book.Log() == []
      modifies Footprint()
      ensures !asserted ==> Valid() && book.Log() == Frames(granted)
    {
      granted, asserted := [], false;
      for i := 0 to |calls|
        invariant Valid() && book.Log() == Frames(granted) && !asserted
      {
        var ok;
        ok, asserted := Serve(calls[i], granted);
        if asserted {
          return;
        }
        if ok {
          granted := Snoc(granted, calls[i].m);
        }
      }
    }

    /**
     A whole session from the start: what a host that is connected has read are
     the blocks of a contiguous run of the messages granted, in order. ReadsParse
     tells that it can take them apart again.
     */
    method Session(calls: seq<Call>) returns (asserted: bool, granted: seq<Sendable>)
      requires Valid() && book.Log() == []
      modifies Footprint()
      ensures !asserted ==> Valid() && book.Log() == Frames(granted)
      ensures !asserted && Ctl().connected ==>
                && |host.missed| + |host.read| <= |granted|
                && host.bytes == Flat(Frames(Part(granted, |host.missed|, |host.read|)))
    {
      asserted, granted := ServeAll(calls);
      if !asserted && Ctl().connected {
        HostReadsSlice(granted);
      }
    }
  }
}
