/**
 What the trace transport stands for: one log of user blocks, spread over the
 places a block passes through on its way to the host.
 */
module TraceLog {
  import opened Sequences

  const BLOCK_SIZE: nat := 0x4000
  const HEADER_SIZE: nat := 4

  type UserBlock = seq<byte>

  /** A user block fits one trace block and has room for its header. */
  ghost predicate Sized(us: seq<UserBlock>) {
    forall u :: u in us ==> HEADER_SIZE <= |u| <= BLOCK_SIZE
  }

  /** A run of whole user blocks that fits one trace block. */
  ghost predicate Chunk(us: seq<UserBlock>) {
    Sized(us) && |Flat(us)| <= BLOCK_SIZE
  }

  /**
   Where the user blocks of the log are:
   `gone`   - no longer readable: read by the host, or overwritten;
   `shown`  - in the trace block exposed to the host and not yet acknowledged;
   `input`  - in the trace block the target is filling;
   `chunks` - in the pending ring, grouped by recorded chunk size;
   `open`   - in the pending ring, in the chunk still being accumulated.
   */
  datatype Book = Book(gone: seq<UserBlock>, shown: seq<UserBlock>, input: seq<UserBlock>,
                       chunks: seq<seq<UserBlock>>, open: seq<UserBlock>)
  {
    ghost function Pending(): seq<UserBlock> {
      Flat(chunks) + open
    }

    ghost function Log(): seq<UserBlock> {
      gone + shown + input + Pending()
    }

    /** Bytes the target still has to expose. */
    ghost function Backlog(): nat {
      |Flat(input)| + |Flat(Pending())|
    }

    ghost function First(): seq<UserBlock> {
      if chunks == [] then open else chunks[0]
    }

    ghost function Rest(): Book {
      if chunks == [] then this.(open := []) else this.(chunks := chunks[1..])
    }

    ghost function Switch(): Book {
      Book(gone + shown, input, First(), Rest().chunks, Rest().open)
    }

    ghost function Take(u: UserBlock): Book {
      this.(input := input + [u])
    }

    ghost function Pend(u: UserBlock): (b: Book)
      ensures b.gone == gone && b.shown == shown && b.input == input
    {
      if |Flat(open)| + |u| <= BLOCK_SIZE then this.(open := open + [u])
      else this.(chunks := chunks + [open], open := [u])
    }

    ghost function Ack(): Book {
      this.(gone := gone + shown, shown := [])
    }

    ghost predicate Sound() {
      && Sized(gone) && Chunk(shown) && Chunk(input) && Chunk(open)
      && (forall c :: c in chunks ==> c != [] && Chunk(c))
      && (chunks != [] ==> open != [])
      && (Pending() != [] ==> input != [])
    }
  }

  type SoundBook = b: Book | b.Sound() witness Book([], [], [], [], [])

  lemma EmptyFlat(us: seq<UserBlock>)
    requires Sized(us)
    ensures Flat(us) == [] <==> us == []
  {
    if us != [] {
      assert us[0] in us;
    }
  }

  lemma FirstAndRest(b: Book)
    ensures b.Pending() == b.First() + b.Rest().Pending()
  {
    if b.chunks == [] {
      assert b.Pending() == b.open;
    } else {
      assert b.Pending() == (b.chunks[0] + Flat(b.chunks[1..])) + b.open;
    }
  }

  /** A block switch moves user blocks along; the log does not change. */
  lemma SwitchKeepsLog(b: Book)
    ensures b.Switch().Log() == b.Log()
  {
    FirstAndRest(b);
    assert b.Switch().Pending() == b.Rest().Pending();
  }

  lemma SwitchSound(b: Book)
    requires b.Sound()
    ensures b.Switch().Sound()
  {
    var s := b.Switch();
    if b.chunks == [] {
      assert s.Pending() == [];
    } else {
      assert b.chunks[0] in b.chunks;
      forall c | c in s.chunks
        ensures c != [] && Chunk(c)
      {
        assert c in b.chunks;
      }
    }
  }

  /** Each switch with something to expose shrinks the backlog. */
  lemma SwitchShrinks(b: Book)
    requires b.Sound()
    ensures b.Switch().Backlog() == b.Backlog() - |Flat(b.input)|
    ensures b.input != [] ==> b.Switch().Backlog() < b.Backlog()
  {
    FirstAndRest(b);
    assert b.Switch().Pending() == b.Rest().Pending();
    FlatAppend(b.First(), b.Rest().Pending());
    EmptyFlat(b.input);
  }

  lemma AckKeepsLog(b: Book)
    ensures b.Ack().Log() == b.Log()
    ensures b.Ack().Backlog() == b.Backlog()
    ensures b.Sound() ==> b.Ack().Sound()
  {
    assert b.Ack().Pending() == b.Pending();
  }

  /** Allocating in the input block appends one user block to the log. */
  lemma TakeAppends(b: Book, u: UserBlock)
    requires b.Sound() && b.Pending() == []
    requires HEADER_SIZE <= |u| && |Flat(b.input)| + |u| <= BLOCK_SIZE
    ensures b.Take(u).Log() == b.Log() + [u]
    ensures b.Take(u).Sound()
    ensures Flat(b.Take(u).input) == Flat(b.input) + u
  {
    FlatSnoc(b.input, u);
    assert b.Take(u).Pending() == b.Pending();
  }

  lemma TakeStep(b: Book, u: UserBlock)
    requires b.Sound() && b.Pending() == []
    requires HEADER_SIZE <= |u| && |Flat(b.input)| + |u| <= BLOCK_SIZE
    ensures b.Take(u).Sound() && ViewOf(b.Take(u)) == ViewOf(b).(input := ViewOf(b).input + u)
  {
    TakeAppends(b, u);
    assert b.Take(u).Pending() == b.Pending();
  }

  lemma PendPending(b: Book, u: UserBlock)
    ensures b.Pend(u).Pending() == b.Pending() + [u]
  {
    FlatSnoc(b.chunks, b.open);
  }

  /** Allocating in the pending ring appends one user block to the log. */
  lemma PendAppends(b: Book, u: UserBlock)
    ensures b.Pend(u).Log() == b.Log() + [u]
  {
    PendPending(b, u);
  }

  lemma PendSound(b: Book, u: UserBlock)
    requires b.Sound()
    requires HEADER_SIZE <= |u| <= BLOCK_SIZE
    requires b.Pending() != [] || |Flat(b.input)| + |u| > BLOCK_SIZE
    ensures b.Pend(u).Sound()
  {
    FlatSnoc(b.open, u);
    FlatSingle(u);
    EmptyFlat(b.input);
    EmptyFlat(b.open);
  }

  /** The bytes and sizes held by the transport's memories. */
  datatype View = View(input: seq<byte>, shown: seq<byte>, sizes: seq<nat>, cur: nat, pend: seq<byte>)

  function Sum(s: seq<nat>): nat {
    if s == [] then 0 else s[0] + Sum(s[1..])
  }

  ghost function Lengths(cs: seq<seq<UserBlock>>): (s: seq<nat>)
    ensures |s| == |cs|
  {
    if cs == [] then [] else [|Flat(cs[0])|] + Lengths(cs[1..])
  }

  lemma {:induction false} LengthsSnoc(cs: seq<seq<UserBlock>>, c: seq<UserBlock>)
    ensures Lengths(cs + [c]) == Lengths(cs) + [|Flat(c)|]
  {
    if cs == [] {
      assert cs + [c] == [c];
    } else {
      assert (cs + [c])[1..] == cs[1..] + [c];
      LengthsSnoc(cs[1..], c);
    }
  }

  /** What the memories must hold for a given book. */
  ghost function ViewOf(b: Book): View {
    View(Flat(b.input), Flat(b.shown), Lengths(b.chunks), |Flat(b.open)|, Flat(b.Pending()))
  }

  /** The size the next switch pumps into the new input block. */
  function NextChunk(v: View): nat {
    if v.sizes == [] then v.cur else v.sizes[0]
  }

  function SwitchView(v: View): View
    requires NextChunk(v) <= |v.pend|
  {
    var n := NextChunk(v);
    View(v.pend[..n], v.input, if v.sizes == [] then [] else v.sizes[1..],
         if v.sizes == [] then 0 else v.cur, v.pend[n..])
  }

  /** A switch pumps exactly one whole chunk of whole user blocks. */
  lemma SwitchPumpsChunk(b: Book)
    requires b.Sound()
    ensures NextChunk(ViewOf(b)) == |Flat(b.First())| <= BLOCK_SIZE
    ensures NextChunk(ViewOf(b)) <= |ViewOf(b).pend|
    ensures ViewOf(b.Switch()) == SwitchView(ViewOf(b))
  {
    FirstAndRest(b);
    FlatAppend(b.First(), b.Rest().Pending());
    assert b.Switch().Pending() == b.Rest().Pending();
    assert b.chunks != [] ==> b.chunks[0] in b.chunks;
  }

  function PendView(v: View, u: UserBlock): View {
    if v.cur + |u| <= BLOCK_SIZE then v.(cur := v.cur + |u|, pend := v.pend + u)
    else v.(sizes := v.sizes + [v.cur], cur := |u|, pend := v.pend + u)
  }

  lemma PendKeepsView(b: Book, u: UserBlock)
    ensures ViewOf(b.Pend(u)) == PendView(ViewOf(b), u)
  {
    PendPending(b, u);
    FlatSnoc(b.Pending(), u);
    FlatSnoc(b.open, u);
    FlatSingle(u);
    LengthsSnoc(b.chunks, b.open);
  }

  /** Recorded chunk sizes plus the open chunk account for every pending byte. */
  lemma ChunkAccounting(b: Book)
    ensures Sum(ViewOf(b).sizes) + ViewOf(b).cur == |ViewOf(b).pend|
  {
    FlatAppend(Flat(b.chunks), b.open);
    SumOfLengths(b.chunks);
  }

  lemma {:induction false} SumOfLengths(cs: seq<seq<UserBlock>>)
    ensures Sum(Lengths(cs)) == |Flat(Flat(cs))|
  {
    if cs != [] {
      SumOfLengths(cs[1..]);
      FlatAppend(cs[0], Flat(cs[1..]));
      assert Lengths(cs)[1..] == Lengths(cs[1..]);
    }
  }

  /** Pending data implies that the input block is not empty. */
  lemma PendingImpliesInput(b: Book)
    requires b.Sound()
    ensures Flat(b.input) == [] ==> b.input == [] && b.Pending() == []
    ensures Flat(b.Pending()) == [] <==> b.Pending() == []
    ensures Flat(b.shown) == [] <==> b.shown == []
  {
    EmptyFlat(b.input);
    EmptyFlat(b.shown);
    SizedPending(b);
    EmptyFlat(b.Pending());
  }

  lemma SizedPending(b: Book)
    requires b.Sound()
    ensures Sized(b.Pending())
  {
    SizedFlat(b.chunks);
  }

  lemma {:induction false} SizedFlat(cs: seq<seq<UserBlock>>)
    requires forall c :: c in cs ==> Sized(c)
    ensures Sized(Flat(cs))
  {
    if cs != [] {
      assert cs[0] in cs;
      SizedFlat(cs[1..]);
    }
  }

  /** The facts about one switch of matching memories, together. */
  lemma SwitchStep(b: Book)
    requires b.Sound()
    ensures NextChunk(ViewOf(b)) <= |ViewOf(b).pend| && NextChunk(ViewOf(b)) <= BLOCK_SIZE
    ensures b.Switch().Sound() && ViewOf(b.Switch()) == SwitchView(ViewOf(b))
    ensures ViewOf(b).shown == [] ==> b.Switch().gone == b.gone
  {
    SwitchPumpsChunk(b);
    SwitchSound(b);
    PendingImpliesInput(b);
  }

  /** `c` is `b` except that the host may have acknowledged the shown block. */
  ghost predicate SameTarget(b: Book, c: Book) {
    c == b || c == b.Ack()
  }

  /** `c` is `b` after host acknowledgements and then one switch. */
  ghost predicate Advanced(b: Book, c: Book) {
    c == b.Switch() || c == b.Ack().Switch()
  }

  /** What the host and a switch can make of it. */
  lemma TargetSteps(b: Book, c: Book)
    requires SameTarget(b, c)
    ensures SameTarget(b, c.Ack()) && Advanced(b, c.Switch()) && Advanced(b, c.Ack().Switch())
  {
  }

  lemma SameTargetKeepsLog(b: Book, c: Book)
    requires SameTarget(b, c)
    ensures c.Log() == b.Log() && c.Backlog() == b.Backlog()
  {
    AckKeepsLog(b);
  }

  /** However the host interleaves, one switch keeps the log and shrinks the backlog. */
  lemma AdvancedKeepsLog(b: Book, c: Book)
    requires b.Sound() && Advanced(b, c)
    ensures c.Log() == b.Log() && c.Backlog() == b.Backlog() - |Flat(b.input)|
    ensures c.shown == b.input && c.input == b.First() && c.Pending() == b.Rest().Pending()
  {
    AckKeepsLog(b);
    SwitchKeepsLog(b);
    SwitchKeepsLog(b.Ack());
    SwitchShrinks(b);
    SwitchShrinks(b.Ack());
  }

  lemma AckStep(b: Book)
    requires b.Sound()
    ensures b.Ack().Sound() && ViewOf(b.Ack()) == ViewOf(b).(shown := [])
  {
    AckKeepsLog(b);
    assert b.Ack().Pending() == b.Pending();
  }

  lemma PendStep(b: Book, u: UserBlock)
    requires b.Sound()
    requires HEADER_SIZE <= |u| <= BLOCK_SIZE
    requires b.Pending() != [] || |Flat(b.input)| + |u| > BLOCK_SIZE
    ensures b.Pend(u).Sound() && ViewOf(b.Pend(u)) == PendView(ViewOf(b), u)
  {
    PendKeepsView(b, u);
    PendSound(b, u);
  }

  // ---- Whole runs ------------------------------------------------------------

  datatype Op = Allocate(u: UserBlock) | SwitchBlocks | HostAck

  /** One step of the transport, with the placement rule of the allocator. */
  ghost function Step(b: Book, op: Op): Book {
    match op
    case Allocate(u) =>
      if b.Pending() == [] && |Flat(b.input)| + |u| <= BLOCK_SIZE then b.Take(u) else b.Pend(u)
    case SwitchBlocks => b.Switch()
    case HostAck => b.Ack()
  }

  ghost function Run(b: Book, ops: seq<Op>): Book
    decreases |ops|
  {
    if ops == [] then b else Run(Step(b, ops[0]), ops[1..])
  }

  function Allocated(ops: seq<Op>): seq<UserBlock> {
    if ops == [] then []
    else (if ops[0].Allocate? then [ops[0].u] else []) + Allocated(ops[1..])
  }

  lemma StepSound(b: Book, op: Op)
    requires b.Sound() && (op.Allocate? ==> HEADER_SIZE <= |op.u| <= BLOCK_SIZE)
    ensures Step(b, op).Sound()
    ensures Step(b, op).Log() == b.Log() + Allocated([op])
  {
    match op {
      case Allocate(u) =>
        assert Allocated([op]) == [u];
        if b.Pending() == [] && |Flat(b.input)| + |u| <= BLOCK_SIZE {
          TakeAppends(b, u);
        } else {
          PendAppends(b, u);
          PendSound(b, u);
        }
      case SwitchBlocks =>
        SwitchKeepsLog(b);
        SwitchSound(b);
      case HostAck =>
        AckKeepsLog(b);
    }
  }

  /**
   Over any run, the log is what it was plus the allocated blocks in the order
   of their allocation. What has left the target is a prefix of that.
   */
  lemma {:induction false} RunExtendsLog(b: Book, ops: seq<Op>)
    requires b.Sound()
    requires forall op :: op in ops && op.Allocate? ==> HEADER_SIZE <= |op.u| <= BLOCK_SIZE
    ensures Run(b, ops).Sound()
    ensures Run(b, ops).Log() == b.Log() + Allocated(ops)
    decreases |ops|
  {
    if ops != [] {
      var c := Step(b, ops[0]);
      StepSound(b, ops[0]);
      RunExtendsLog(c, ops[1..]);
      AllocatedHead(ops);
      Regroup(b.Log(), Allocated([ops[0]]), Allocated(ops[1..]));
    }
  }

  lemma AllocatedHead(ops: seq<Op>)
    requires ops != []
    ensures Allocated(ops) == Allocated([ops[0]]) + Allocated(ops[1..])
  {
    assert [ops[0]][1..] == [];
  }
}
