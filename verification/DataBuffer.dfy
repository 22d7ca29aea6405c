/**
 The audio stream's ring of buffers. One thread fills buffers, another empties
 them; both use the same offset field of a buffer, and both clear it when they
 move on to the next buffer.
 */
module DataBuffer {
  import opened Sequences

  /** Where a thread is between two copies. */
  datatype Phase = Working | Copied | Marked | Moved | Cleared

  function Next(x: nat, count: nat): nat {
    if x + 1 >= count then 0 else x + 1
  }

  lemma NextIsRemainder(x: nat, count: nat)
    requires x < count
    ensures (x + 1) % count == Next(x, count)
  {
  }

  /** How far slot `x` is ahead of slot `back`. */
  function Ahead(x: nat, back: nat, count: nat): int
    requires x < count && back < count
  {
    if x >= back then x - back else x + count - back
  }

  /** The contents of `n` buffers from `back` on. */
  function Body(data: seq<seq<byte>>, back: nat, n: nat): seq<byte>
    requires back < |data|
    decreases n
  {
    if n == 0 then [] else data[back] + Body(data, Next(back, |data|), n - 1)
  }

  lemma {:induction false} BodyKept(data: seq<seq<byte>>, data': seq<seq<byte>>, back: nat, n: nat)
    requires back < |data| == |data'| && n <= |data|
    requires forall x :: 0 <= x < |data| && Ahead(x, back, |data|) < n ==> data'[x] == data[x]
    ensures Body(data', back, n) == Body(data, back, n)
    decreases n
  {
    if n > 0 {
      var next := Next(back, |data|);
      assert forall x :: 0 <= x < |data| && Ahead(x, next, |data|) < n - 1 ==> Ahead(x, back, |data|) < n;
      BodyKept(data, data', next, n - 1);
    }
  }

  lemma {:induction false} BodySnoc(data: seq<seq<byte>>, back: nat, n: nat, front: nat)
    requires back < |data| && front < |data| && n < |data| && Ahead(front, back, |data|) == n
    ensures Body(data, back, n + 1) == Body(data, back, n) + data[front]
    decreases n
  {
    if n > 0 {
      BodySnoc(data, Next(back, |data|), n - 1, front);
      Regroup(data[back], Body(data, Next(back, |data|), n - 1), data[front]);
    }
  }

  lemma CutFront(first: seq<byte>, rest: seq<byte>, from: nat, to: nat)
    requires from <= to <= |first|
    ensures (first + rest)[from..] == first[from..to] + (first + rest)[to..]
  {
  }

  lemma DropFront(body: seq<byte>, last: seq<byte>, from: nat)
    requires from <= |body|
    ensures (body + last)[from..] == body[from..] + last
  {
  }

  // ---- What became of the bytes -----------------------------------------------------------

  /** A byte was read once, was lost, or was read and then came again. */
  datatype Fate = Once | Lost | Again

  datatype Passed = Passed(value: byte, fate: Fate)

  function All(bytes: seq<byte>, fate: Fate): seq<Passed> {
    seq(|bytes|, i requires 0 <= i < |bytes| => Passed(bytes[i], fate))
  }

  /** The bytes without those of one fate. */
  function Without(past: seq<Passed>, fate: Fate): seq<byte> {
    if past == [] then []
    else (if past[0].fate == fate then [] else [past[0].value]) + Without(past[1..], fate)
  }

  lemma {:induction false} WithoutAppend(a: seq<Passed>, b: seq<Passed>, fate: Fate)
    ensures Without(a + b, fate) == Without(a, fate) + Without(b, fate)
  {
    if a == [] {
      assert a + b == b;
    } else {
      assert (a + b)[1..] == a[1..] + b;
      WithoutAppend(a[1..], b, fate);
      Regroup(if a[0].fate == fate then [] else [a[0].value], Without(a[1..], fate), Without(b, fate));
    }
  }

  lemma {:induction false} WithoutAll(bytes: seq<byte>, given: Fate, fate: Fate)
    ensures Without(All(bytes, given), fate) == if given == fate then [] else bytes
  {
    if bytes != [] {
      assert All(bytes, given)[1..] == All(bytes[1..], given);
      WithoutAll(bytes[1..], given, fate);
    }
  }

  /** The last `bytes` read, marked as coming again. */
  function Recalled(past: seq<Passed>, bytes: seq<byte>): seq<Passed> {
    if |bytes| <= |past| then past[..|past| - |bytes|] + All(bytes, Again) else past
  }

  lemma PassedOnce(past: seq<Passed>, bytes: seq<byte>, fate: Fate)
    ensures Without(past + All(bytes, fate), Lost) == Without(past, Lost) + if fate == Lost then [] else bytes
    ensures Without(past + All(bytes, fate), Again) == Without(past, Again) + if fate == Again then [] else bytes
  {
    WithoutAppend(past, All(bytes, fate), Lost);
    WithoutAppend(past, All(bytes, fate), Again);
    WithoutAll(bytes, fate, Lost);
    WithoutAll(bytes, fate, Again);
  }

  lemma RecalledHead(head: seq<Passed>, bytes: seq<byte>)
    ensures Recalled(head + All(bytes, Once), bytes) == head + All(bytes, Again)
  {
    assert (head + All(bytes, Once))[..|head|] == head;
  }

  lemma RecalledFates(head: seq<Passed>, past: seq<Passed>, bytes: seq<byte>)
    requires past == head + All(bytes, Once)
    ensures Without(Recalled(past, bytes), Lost) == Without(past, Lost)
    ensures Without(Recalled(past, bytes), Again) + bytes == Without(past, Again)
  {
    RecalledHead(head, bytes);
    PassedOnce(head, bytes, Once);
    PassedOnce(head, bytes, Again);
  }

  /** The whole state, and what was written and read so far. */
  datatype State = State(
    len: nat,
    prepared: seq<bool>,
    used: seq<nat>,
    data: seq<seq<byte>>,
    w: nat,
    r: nat,
    writer: Phase,
    reader: Phase,
    bufferUsed: int,
    written: seq<byte>,
    read: seq<byte>,
    past: seq<Passed>)
  {
    function Count(): nat {
      |prepared|
    }

    ghost predicate Shape() {
      0 < len && w < Count() && r < Count() && Bounded()
    }

    /** Offsets lie within the buffers. */
    predicate Bounded() {
      && |used| == |data| == Count()
      && forall x :: 0 <= x < Count() ==> |data[x]| == len && used[x] < len
    }

    /** The slot to be marked as prepared next. */
    function Front(): nat {
      if writer == Marked then Next(w, Count()) else w
    }

    /** The slot to be marked as unprepared next. */
    function Back(): nat {
      if reader == Marked then Next(r, Count()) else r
    }

    /** How many buffers are prepared: the counter lags behind both threads. */
    function Full(): int {
      bufferUsed + (if writer in {Marked, Moved, Cleared} then 1 else 0)
      - (if reader in {Marked, Moved, Cleared} then 1 else 0)
    }

    /** The prepared buffers are the cyclic interval from the reader's slot to the writer's. */
    ghost predicate Interval()
      requires Shape()
    {
      && 0 <= Full() <= Count()
      && (forall x :: 0 <= x < Count() ==> (prepared[x] <==> Ahead(x, Back(), Count()) < Full()))
      && (Front() == Back() + Full() || Front() == Back() + Full() - Count())
    }

    /** An offset other than 0 belongs to the one thread that may use the buffer. */
    ghost predicate Offsets()
      requires Shape()
    {
      && (forall x :: 0 <= x < Count() && used[x] > 0 ==>
            (x == w && !prepared[x] && writer == Working) || (x == r && prepared[x] && reader == Working))
      && (writer == Copied ==> !prepared[w])
      && (reader == Copied ==> prepared[r])
    }

    /** How much of the oldest prepared buffer was read. */
    function Taken(): nat
      requires Shape()
    {
      if reader == Copied then len else if prepared[r] && reader == Working then used[r] else 0
    }

    /** How much of the buffer in progress was written. */
    function Put(): nat
      requires Shape()
    {
      if writer == Copied then len else if !prepared[w] && writer == Working then used[w] else 0
    }

    /** What is still to be read of the prepared buffers. */
    ghost function Unread(): seq<byte>
      requires Shape() && Interval() && Offsets()
    {
      Body(data, Back(), Full())[Taken()..]
    }

    /** What was written to the buffer in progress. */
    ghost function Begun(): seq<byte>
      requires Shape() && Interval() && Offsets()
    {
      data[Front()][..Put()]
    }

    /** What was written and is still to be read. */
    ghost function Pending(): seq<byte>
      requires Shape() && Interval() && Offsets()
    {
      Unread() + Begun()
    }

    ghost predicate Sane() {
      Shape() && Interval() && Offsets()
    }

    /** The bytes at the front of the reader's buffer were the last ones it read. */
    ghost predicate Recent()
      requires Sane()
    {
      reader == Working && prepared[r] ==>
        used[r] <= |past| && past[|past| - used[r]..] == All(data[r][..used[r]], Once)
    }

    /**
     The bytes read are those passed by, less the lost ones; the bytes written are
     those passed by, counting what came again but once, and what is pending.
     */
    ghost predicate Accounted()
      requires Sane()
    {
      read == Without(past, Lost) && written == Without(past, Again) + Pending()
    }

    ghost predicate Inv() {
      Sane() && Recent() && Accounted()
    }

    predicate Enabled(a: Action) {
      && w < |prepared| == |used| == |data| && r < |prepared|
      && match a
         case WriteSome(bytes) => writer == Working && !prepared[w] && bytes != [] && |bytes| < len - used[w]
         case WriteRest(bytes) => writer == Working && !prepared[w] && |bytes| == len - used[w]
         case MarkPrepared => writer == Copied
         case MoveWriter => writer == Marked
         case ClearForWriter => writer == Moved
         case CountUp => writer == Cleared
         case ReadSome(n) => reader == Working && prepared[r] && 0 < n < len - used[r]
         case ReadRest => reader == Working && prepared[r]
         case MarkUnprepared => reader == Copied
         case MoveReader => reader == Marked
         case ClearForReader => reader == Moved
         case CountDown => reader == Cleared
    }

    function Step(a: Action): State
      requires Enabled(a) && Bounded()
    {
      match a
      case WriteSome(bytes) =>
        this.(data := data[w := Overwrite(data[w], used[w], bytes)], used := used[w := used[w] + |bytes|],
              written := written + bytes)
      case WriteRest(bytes) =>
        this.(data := data[w := Overwrite(data[w], used[w], bytes)], used := used[w := 0],
              writer := Copied, written := written + bytes)
      case MarkPrepared => this.(prepared := prepared[w := true], writer := Marked)
      case MoveWriter => this.(w := Next(w, Count()), writer := Moved)
      case ClearForWriter =>
        this.(used := used[w := 0], writer := Cleared, past := Recalled(past, data[w][..used[w]]))
      case CountUp => this.(bufferUsed := bufferUsed + 1, writer := Working)
      case ReadSome(n) =>
        this.(used := used[r := used[r] + n], read := read + data[r][used[r]..used[r] + n],
              past := past + All(data[r][used[r]..used[r] + n], Once))
      case ReadRest =>
        this.(used := used[r := 0], reader := Copied, read := read + data[r][used[r]..],
              past := past + All(data[r][used[r]..], Once))
      case MarkUnprepared => this.(prepared := prepared[r := false], reader := Marked)
      case MoveReader => this.(r := Next(r, Count()), reader := Moved)
      case ClearForReader =>
        this.(used := used[r := 0], reader := Cleared, past := past + All(data[r][..used[r]], Lost))
      case CountDown => this.(bufferUsed := bufferUsed - 1, reader := Working)
    }

    lemma MarkPreparedInterval()
      requires Sane() && Enabled(MarkPrepared)
      ensures Step(MarkPrepared).Shape() && Step(MarkPrepared).Interval()
    {
    }

    lemma MoveWriterInterval()
      requires Sane() && Enabled(MoveWriter)
      ensures Step(MoveWriter).Shape() && Step(MoveWriter).Interval()
    {
    }

    lemma WriterInterval(a: Action)
      requires Sane() && Enabled(a) && a.ByWriter()
      ensures Step(a).Shape() && Step(a).Interval()
    {
      match a {
        case MarkPrepared => MarkPreparedInterval();
        case MoveWriter => MoveWriterInterval();
        case _ =>
      }
    }

    lemma WriterOffsets(a: Action)
      requires Sane() && Enabled(a) && a.ByWriter()
      ensures Step(a).Shape() && Step(a).Offsets()
    {
    }

    lemma WriterStepSane(a: Action)
      requires Sane() && Enabled(a) && a.ByWriter()
      ensures Step(a).Sane()
    {
      WriterInterval(a);
      WriterOffsets(a);
    }

    lemma MarkUnpreparedInterval()
      requires Sane() && Enabled(MarkUnprepared)
      ensures Step(MarkUnprepared).Shape() && Step(MarkUnprepared).Interval()
    {
    }

    lemma MoveReaderInterval()
      requires Sane() && Enabled(MoveReader)
      ensures Step(MoveReader).Shape() && Step(MoveReader).Interval()
    {
    }

    lemma ReaderInterval(a: Action)
      requires Sane() && Enabled(a) && !a.ByWriter()
      ensures Step(a).Shape() && Step(a).Interval()
    {
      match a {
        case MarkUnprepared => MarkUnpreparedInterval();
        case MoveReader => MoveReaderInterval();
        case _ =>
      }
    }

    lemma ReaderOffsets(a: Action)
      requires Sane() && Enabled(a) && !a.ByWriter()
      ensures Step(a).Shape() && Step(a).Offsets()
    {
    }

    lemma ReaderStepSane(a: Action)
      requires Sane() && Enabled(a) && !a.ByWriter()
      ensures Step(a).Sane()
    {
      ReaderInterval(a);
      ReaderOffsets(a);
    }

    lemma WriteAppends(a: Action)
      requires Sane() && Enabled(a) && (a.WriteSome? || a.WriteRest?)
      ensures Step(a).Sane() && Step(a).Pending() == Pending() + a.bytes
    {
      WriteUnread(a);
      WriteBegun(a);
      Regroup(Unread(), Begun(), a.bytes);
    }

    lemma WriteUnread(a: Action)
      requires Sane() && Enabled(a) && (a.WriteSome? || a.WriteRest?)
      ensures Step(a).Sane() && Step(a).Unread() == Unread()
    {
      WriterStepSane(a);
      var t := Step(a);
      BodyKept(data, t.data, Back(), Full());
      assert t.Taken() == Taken();
    }

    lemma WriteBegun(a: Action)
      requires Sane() && Enabled(a) && (a.WriteSome? || a.WriteRest?)
      ensures Step(a).Sane() && Step(a).Begun() == Begun() + a.bytes
    {
      WriterStepSane(a);
      assert Step(a).data[w][..Step(a).Put()] == data[w][..Put()] + a.bytes;
    }

    lemma MarkPreparedUnread()
      requires Sane() && Enabled(MarkPrepared)
      ensures Step(MarkPrepared).Sane() && Step(MarkPrepared).Unread() == Unread() + data[w]
    {
      WriterStepSane(MarkPrepared);
      BodySnoc(data, Back(), Full(), w);
      assert Step(MarkPrepared).Taken() == Taken();
      DropFront(Body(data, Back(), Full()), data[w], Taken());
    }

    lemma MarkPreparedKeeps()
      requires Sane() && Enabled(MarkPrepared)
      ensures Step(MarkPrepared).Sane() && Step(MarkPrepared).Pending() == Pending()
    {
      MarkPreparedUnread();
      assert Begun() == data[w][..len] == data[w];
      assert Step(MarkPrepared).Begun() == [];
    }

    lemma ReadSomeCuts(n: nat)
      requires Sane() && Enabled(ReadSome(n))
      ensures Step(ReadSome(n)).Sane()
      ensures Unread() == data[r][used[r]..used[r] + n] + Step(ReadSome(n)).Unread()
      ensures Step(ReadSome(n)).Begun() == Begun()
    {
      ReaderStepSane(ReadSome(n));
      CutFront(data[r], Body(data, Next(r, Count()), Full() - 1), used[r], used[r] + n);
    }

    lemma ReadSomeTakes(n: nat)
      requires Sane() && Enabled(ReadSome(n))
      ensures Step(ReadSome(n)).Sane()
      ensures Pending() == data[r][used[r]..used[r] + n] + Step(ReadSome(n)).Pending()
    {
      ReadSomeCuts(n);
      Regroup(data[r][used[r]..used[r] + n], Step(ReadSome(n)).Unread(), Begun());
    }

    lemma ReadRestCuts()
      requires Sane() && Enabled(ReadRest)
      ensures Step(ReadRest).Sane()
      ensures Unread() == data[r][used[r]..len] + Step(ReadRest).Unread() && Step(ReadRest).Begun() == Begun()
    {
      ReaderStepSane(ReadRest);
      CutFront(data[r], Body(data, Next(r, Count()), Full() - 1), used[r], len);
    }

    lemma ReadRestTakes()
      requires Sane() && Enabled(ReadRest)
      ensures Step(ReadRest).Sane()
      ensures Pending() == data[r][used[r]..len] + Step(ReadRest).Pending()
    {
      ReadRestCuts();
      Regroup(data[r][used[r]..len], Step(ReadRest).Unread(), Begun());
    }

    lemma MarkUnpreparedKeeps()
      requires Sane() && Enabled(MarkUnprepared)
      ensures Step(MarkUnprepared).Sane() && Step(MarkUnprepared).Pending() == Pending()
    {
      ReaderStepSane(MarkUnprepared);
      assert Body(data, r, Full())[len..] == Body(data, Next(r, Count()), Full() - 1);
    }

    lemma ClearForWriterGuard()
      requires Sane() && Enabled(ClearForWriter)
      ensures used[w] > 0 ==> w == r && reader == Working && prepared[r] && Full() == Count()
      ensures Put() == 0 && Step(ClearForWriter).Shape() && Step(ClearForWriter).Put() == 0
    {
    }

    lemma ClearForWriterUnread()
      requires Sane() && Enabled(ClearForWriter)
      ensures Step(ClearForWriter).Sane()
      ensures Step(ClearForWriter).Unread() == data[w][..used[w]] + Unread()
    {
      WriterStepSane(ClearForWriter);
      ClearForWriterGuard();
      var t := Step(ClearForWriter);
      if used[w] > 0 {
        assert t.Taken() == 0 && Taken() == used[r] && t.Back() == Back() == r;
        var first, rest := data[r], Body(data, Next(r, Count()), Full() - 1);
        CutFront(first, rest, 0, used[r]);
        assert (first + rest)[0..] == first + rest && first[0..used[r]] == first[..used[r]];
      } else {
        assert t.used == used;
      }
    }

    /** The writer clears an offset of the reader's: exactly what was read of the buffer comes again. */
    lemma ClearForWriterRepeats()
      requires Sane() && Enabled(ClearForWriter)
      ensures Step(ClearForWriter).Sane()
      ensures used[w] > 0 ==> w == r && reader == Working && prepared[r] && Full() == Count()
      ensures Step(ClearForWriter).Pending() == data[w][..used[w]] + Pending()
    {
      ClearForWriterUnread();
      ClearForWriterGuard();
      Regroup(data[w][..used[w]], Unread(), Begun());
    }

    lemma ClearForReaderUnread()
      requires Sane() && Enabled(ClearForReader)
      ensures Step(ClearForReader).Sane() && Step(ClearForReader).Unread() == Unread()
    {
      ReaderStepSane(ClearForReader);
      assert Step(ClearForReader).Taken() == Taken() == 0;
    }

    /** The reader clears an offset of the writer's: exactly what was pending is lost. */
    lemma ClearForReaderLoses()
      requires Sane() && Enabled(ClearForReader)
      ensures Step(ClearForReader).Sane()
      ensures used[r] > 0 ==> w == r && writer == Working && !prepared[r] && Full() == 0
      ensures Pending() == data[r][..used[r]] + Step(ClearForReader).Pending()
    {
      ReaderStepSane(ClearForReader);
      ClearForReaderUnread();
      var t := Step(ClearForReader);
      if used[r] > 0 {
        assert Unread() == [] && t.Begun() == [];
      } else {
        assert t.used == used && data[r][..0] == [];
        assert t.Begun() == Begun();
      }
    }

    lemma MoveWriterKeeps()
      requires Sane() && Enabled(MoveWriter)
      ensures Step(MoveWriter).Sane() && Step(MoveWriter).Pending() == Pending()
    {
      WriterStepSane(MoveWriter);
      var t := Step(MoveWriter);
      assert t.Front() == Front() && t.Full() == Full() && t.Put() == Put() == 0;
    }

    lemma CountUpKeeps()
      requires Sane() && Enabled(CountUp)
      ensures Step(CountUp).Sane() && Step(CountUp).Pending() == Pending()
    {
      WriterStepSane(CountUp);
      var t := Step(CountUp);
      assert t.Front() == Front() && t.Full() == Full() && t.Put() == Put() == 0;
    }

    lemma OtherReaderStepsKeep(a: Action)
      requires Sane() && Enabled(a) && (a.MoveReader? || a.CountDown?)
      ensures Step(a).Sane() && Step(a).Pending() == Pending()
    {
      ReaderStepSane(a);
    }

    lemma OtherStepsKeep(a: Action)
      requires Sane() && Enabled(a) && (a.MoveWriter? || a.CountUp? || a.MoveReader? || a.CountDown?)
      ensures Step(a).Sane() && Step(a).Pending() == Pending()
    {
      match a {
        case MoveWriter => MoveWriterKeeps();
        case CountUp => CountUpKeeps();
        case _ => OtherReaderStepsKeep(a);
      }
    }
  }

  // ---- Every step keeps the account --------------------------------------------------------

  lemma WriteInv(s: State, a: Action)
    requires s.Inv() && s.Enabled(a) && (a.WriteSome? || a.WriteRest?)
    ensures s.Step(a).Inv()
  {
    s.WriteAppends(a);
    Regroup(Without(s.past, Again), s.Pending(), a.bytes);
    assert s.prepared[s.r] ==> s.Step(a).data[s.r] == s.data[s.r] && s.Step(a).used[s.r] == s.used[s.r];
  }

  lemma ReadSomeAccounted(s: State, n: nat)
    requires s.Inv() && s.Enabled(ReadSome(n))
    ensures s.Step(ReadSome(n)).Sane() && s.Step(ReadSome(n)).Accounted()
  {
    s.ReadSomeTakes(n);
    var got := s.data[s.r][s.used[s.r]..s.used[s.r] + n];
    PassedOnce(s.past, got, Once);
    Regroup(Without(s.past, Again), got, s.Step(ReadSome(n)).Pending());
  }

  lemma ReadSomeRecent(s: State, n: nat)
    requires s.Inv() && s.Enabled(ReadSome(n))
    ensures s.Step(ReadSome(n)).Sane() && s.Step(ReadSome(n)).Recent()
  {
    s.ReaderStepSane(ReadSome(n));
    var before, u := s.data[s.r], s.used[s.r];
    assert before[..u + n] == before[..u] + before[u..u + n];
    RecentGrows(s.past, before[..u], before[u..u + n]);
  }

  lemma ReadSomeInv(s: State, n: nat)
    requires s.Inv() && s.Enabled(ReadSome(n))
    ensures s.Step(ReadSome(n)).Inv()
  {
    ReadSomeAccounted(s, n);
    ReadSomeRecent(s, n);
  }

  lemma RecentGrows(past: seq<Passed>, bytes: seq<byte>, more: seq<byte>)
    requires |bytes| <= |past| && past[|past| - |bytes|..] == All(bytes, Once)
    ensures var now := past + All(more, Once);
            now[|now| - |bytes + more|..] == All(bytes + more, Once)
  {
    assert All(bytes + more, Once) == All(bytes, Once) + All(more, Once);
  }

  lemma ReadRestInv(s: State)
    requires s.Inv() && s.Enabled(ReadRest)
    ensures s.Step(ReadRest).Inv()
  {
    s.ReadRestTakes();
    var got := s.data[s.r][s.used[s.r]..s.len];
    assert s.data[s.r][s.used[s.r]..] == got;
    PassedOnce(s.past, got, Once);
    Regroup(Without(s.past, Again), got, s.Step(ReadRest).Pending());
  }

  lemma ClearForWriterInv(s: State)
    requires s.Inv() && s.Enabled(ClearForWriter)
    ensures s.Step(ClearForWriter).Inv()
  {
    s.ClearForWriterRepeats();
    var piece := s.data[s.w][..s.used[s.w]];
    if s.used[s.w] > 0 {
      var head := s.past[..|s.past| - |piece|];
      assert s.past == head + s.past[|s.past| - |piece|..];
      RecalledFates(head, s.past, piece);
    } else {
      assert s.past == s.past + All(piece, Once);
      RecalledFates(s.past, s.past, piece);
    }
    Regroup(Without(Recalled(s.past, piece), Again), piece, s.Pending());
  }

  lemma ClearForReaderInv(s: State)
    requires s.Inv() && s.Enabled(ClearForReader)
    ensures s.Step(ClearForReader).Inv()
  {
    s.ClearForReaderLoses();
    var piece := s.data[s.r][..s.used[s.r]];
    PassedOnce(s.past, piece, Lost);
    Regroup(Without(s.past, Again), piece, s.Step(ClearForReader).Pending());
  }

  lemma MarkInv(s: State, a: Action)
    requires s.Inv() && s.Enabled(a) && (a.MarkPrepared? || a.MarkUnprepared?)
    ensures s.Step(a).Inv()
  {
    if a.MarkPrepared? {
      s.MarkPreparedKeeps();
      assert s.used[s.w] == 0;
    } else {
      s.MarkUnpreparedKeeps();
    }
  }

  lemma OtherInv(s: State, a: Action)
    requires s.Inv() && s.Enabled(a) && (a.MoveWriter? || a.CountUp? || a.MoveReader? || a.CountDown?)
    ensures s.Step(a).Inv()
  {
    s.OtherStepsKeep(a);
    assert a.CountDown? && s.prepared[s.r] ==> s.used[s.r] == 0;
  }

  /** Each step of either thread keeps the order of the buffers and the account of the bytes. */
  lemma StepInv(s: State, a: Action)
    requires s.Inv() && s.Enabled(a)
    ensures s.Step(a).Inv()
  {
    match a {
      case WriteSome(_) => WriteInv(s, a);
      case WriteRest(_) => WriteInv(s, a);
      case MarkPrepared => MarkInv(s, a);
      case ReadSome(n) => ReadSomeInv(s, n);
      case ReadRest => ReadRestInv(s);
      case MarkUnprepared => MarkInv(s, a);
      case ClearForWriter => ClearForWriterInv(s);
      case ClearForReader => ClearForReaderInv(s);
      case _ => OtherInv(s, a);
    }
  }

  function Overwrite(old': seq<byte>, at: nat, bytes: seq<byte>): seq<byte>
    requires at + |bytes| <= |old'|
  {
    old'[..at] + bytes + old'[at + |bytes|..]
  }

  /** One atomic step of either thread. */
  datatype Action =
    | WriteSome(bytes: seq<byte>)
    | WriteRest(bytes: seq<byte>)
    | MarkPrepared
    | MoveWriter
    | ClearForWriter
    | CountUp
    | ReadSome(n: nat)
    | ReadRest
    | MarkUnprepared
    | MoveReader
    | ClearForReader
    | CountDown
  {
    predicate ByWriter() {
      WriteSome? || WriteRest? || MarkPrepared? || MoveWriter? || ClearForWriter? || CountUp?
    }
  }


  // ---- Whole runs --------------------------------------------------------------------------

  /** All buffers empty, both threads at the first one. */
  function Init(count: nat, len: nat): State
    requires 0 < count
  {
    State(len, seq(count, _ => false), seq(count, _ => 0), seq(count, _ => seq(len, _ => 0)),
          0, 0, Working, Working, 0, [], [], [])
  }

  lemma InitInv(count: nat, len: nat)
    requires 0 < count && 0 < len
    ensures Init(count, len).Inv()
  {
  }

  /** The two threads take turns in any order. */
  ghost predicate PossibleRun(s: State, run: seq<Action>)
    decreases |run|
  {
    run == [] || (s.Enabled(run[0]) && s.Bounded() && PossibleRun(s.Step(run[0]), run[1..]))
  }

  ghost function After(s: State, run: seq<Action>): State
    requires PossibleRun(s, run)
    decreases |run|
  {
    if run == [] then s else After(s.Step(run[0]), run[1..])
  }

  lemma {:induction false} RunInv(s: State, run: seq<Action>)
    requires s.Inv() && PossibleRun(s, run)
    ensures After(s, run).Inv()
    decreases |run|
  {
    if run != [] {
      StepInv(s, run[0]);
      RunInv(s.Step(run[0]), run[1..]);
    }
  }

  /**
   In every run, the bytes read are those written, except that marked pieces are
   left out and marked pieces come twice. The prepared buffers form an interval,
   and the counter is off by at most one in either direction.
   */
  lemma StreamAccount(count: nat, len: nat, run: seq<Action>)
    requires 0 < count && 0 < len && PossibleRun(Init(count, len), run)
    ensures var t := After(Init(count, len), run);
            && t.Sane() && -1 <= t.bufferUsed <= t.Count() + 1
            && t.read == Without(t.past, Lost)
            && t.written == Without(t.past, Again) + t.Pending()
  {
    InitInv(count, len);
    RunInv(Init(count, len), run);
  }

  // ---- When bytes are lost or repeated -----------------------------------------------------

  /** How many bytes a step loses or repeats: the offset it clears. */
  function Clears(s: State, a: Action): nat
    requires s.Enabled(a)
  {
    if a.ClearForWriter? then s.used[s.w] else if a.ClearForReader? then s.used[s.r] else 0
  }

  /** How many of the bytes that have passed were lost or came again. */
  function Marks(past: seq<Passed>): nat {
    if past == [] then 0 else (if past[0].fate == Once then 0 else 1) + Marks(past[1..])
  }

  lemma {:induction false} MarksAppend(a: seq<Passed>, b: seq<Passed>)
    ensures Marks(a + b) == Marks(a) + Marks(b)
  {
    if a == [] {
      assert a + b == b;
    } else {
      assert (a + b)[1..] == a[1..] + b;
      MarksAppend(a[1..], b);
    }
  }

  lemma {:induction false} MarksAll(bytes: seq<byte>, fate: Fate)
    ensures Marks(All(bytes, fate)) == if fate == Once then 0 else |bytes|
  {
    if bytes != [] {
      assert All(bytes, fate)[1..] == All(bytes[1..], fate);
      MarksAll(bytes[1..], fate);
    }
  }

  lemma {:induction false} NoMarks(past: seq<Passed>)
    requires Marks(past) == 0
    ensures Without(past, Lost) == Without(past, Again)
  {
    if past != [] {
      NoMarks(past[1..]);
    }
  }

  lemma MarksMore(past: seq<Passed>, bytes: seq<byte>, fate: Fate)
    ensures Marks(past + All(bytes, fate)) == Marks(past) + if fate == Once then 0 else |bytes|
  {
    MarksAppend(past, All(bytes, fate));
    MarksAll(bytes, fate);
  }

  lemma MarksRecalled(head: seq<Passed>, past: seq<Passed>, bytes: seq<byte>)
    requires past == head + All(bytes, Once)
    ensures Marks(Recalled(past, bytes)) == Marks(past) + |bytes|
  {
    RecalledHead(head, bytes);
    MarksMore(head, bytes, Once);
    MarksMore(head, bytes, Again);
  }

  lemma RecallMarks(s: State)
    requires s.Inv() && s.Enabled(ClearForWriter)
    ensures Marks(s.Step(ClearForWriter).past) == Marks(s.past) + s.used[s.w]
  {
    s.ClearForWriterGuard();
    var piece := s.data[s.w][..s.used[s.w]];
    if s.used[s.w] > 0 {
      var head := s.past[..|s.past| - |piece|];
      assert s.past == head + s.past[|s.past| - |piece|..];
      MarksRecalled(head, s.past, piece);
    } else {
      assert s.past == s.past + All(piece, Once);
      MarksRecalled(s.past, s.past, piece);
    }
  }

  /** A step marks exactly as many bytes as the offset it clears tells. */
  lemma StepMarks(s: State, a: Action)
    requires s.Inv() && s.Enabled(a)
    ensures Marks(s.Step(a).past) == Marks(s.past) + Clears(s, a)
  {
    match a {
      case ReadSome(n) => MarksMore(s.past, s.data[s.r][s.used[s.r]..s.used[s.r] + n], Once);
      case ReadRest => MarksMore(s.past, s.data[s.r][s.used[s.r]..], Once);
      case ClearForReader => MarksMore(s.past, s.data[s.r][..s.used[s.r]], Lost);
      case ClearForWriter => RecallMarks(s);
      case _ =>
    }
  }

  /** All clearings of the run together. */
  ghost function Clearings(s: State, run: seq<Action>): nat
    requires PossibleRun(s, run)
    decreases |run|
  {
    if run == [] then 0 else Clears(s, run[0]) + Clearings(s.Step(run[0]), run[1..])
  }

  lemma {:induction false} RunMarks(s: State, run: seq<Action>)
    requires s.Inv() && PossibleRun(s, run)
    ensures After(s, run).Inv() && Marks(After(s, run).past) == Marks(s.past) + Clearings(s, run)
    decreases |run|
  {
    if run != [] {
      StepInv(s, run[0]);
      StepMarks(s, run[0]);
      RunMarks(s.Step(run[0]), run[1..]);
    }
  }

  /**
   Bytes are lost or repeated exactly when some clearing hits an offset that is
   not 0; otherwise what was read is a prefix of what was written.
   */
  lemma FifoExactly(count: nat, len: nat, run: seq<Action>)
    requires 0 < count && 0 < len && PossibleRun(Init(count, len), run)
    ensures var t := After(Init(count, len), run);
            && Marks(t.past) == Clearings(Init(count, len), run)
            && (Clearings(Init(count, len), run) == 0 ==> t.Sane() && t.written == t.read + t.Pending())
  {
    InitInv(count, len);
    RunMarks(Init(count, len), run);
    var t := After(Init(count, len), run);
    if Marks(t.past) == 0 {
      NoMarks(t.past);
    }
  }

  /**
   The writer never moves on while all buffers are prepared, and the reader never
   while none is.
   */
  ghost predicate KeepsDistance(s: State, run: seq<Action>)
    requires PossibleRun(s, run)
    decreases |run|
  {
    run == []
    || (&& (run[0].ClearForWriter? ==> s.Full() < s.Count())
        && (run[0].ClearForReader? ==> 0 < s.Full())
        && KeepsDistance(s.Step(run[0]), run[1..]))
  }

  lemma {:induction false} DistanceIsHarmless(s: State, run: seq<Action>)
    requires s.Inv() && PossibleRun(s, run) && KeepsDistance(s, run)
    ensures Clearings(s, run) == 0
    decreases |run|
  {
    if run != [] {
      if run[0].ClearForWriter? {
        s.ClearForWriterGuard();
      } else if run[0].ClearForReader? {
        s.ClearForReaderLoses();
      }
      StepInv(s, run[0]);
      DistanceIsHarmless(s.Step(run[0]), run[1..]);
    }
  }

  /** So the stream is a FIFO as long as the two threads keep their distance. */
  lemma FifoAtADistance(count: nat, len: nat, run: seq<Action>)
    requires 0 < count && 0 < len && PossibleRun(Init(count, len), run) && KeepsDistance(Init(count, len), run)
    ensures var t := After(Init(count, len), run); t.Sane() && t.written == t.read + t.Pending()
  {
    InitInv(count, len);
    DistanceIsHarmless(Init(count, len), run);
    FifoExactly(count, len, run);
  }
}
