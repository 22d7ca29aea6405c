/** The header in front of every user block, and how the host takes blocks apart. */
module TraceFraming {
  import opened Sequences
  import opened TraceLog

  const PAYLOAD_MAX: nat := BLOCK_SIZE - HEADER_SIZE

  /** What one call of the tracing interface wants to send. */
  datatype Message = Message(core: nat, payload: seq<byte>) {
    predicate Valid() {
      core < 2 && |payload| <= PAYLOAD_MAX
    }

    function SizeField(): (n: nat)
      requires Valid()
      ensures n < 0x1_0000
    {
      core * 0x8000 + |payload|
    }
  }

  type Sendable = m: Message | m.Valid() witness Message(0, [])

  function Word(n: nat): seq<byte>
    requires n < 0x1_0000
  {
    [n % 0x100, n / 0x100]
  }

  /** A completely written user block: both header words hold the size field. */
  function Frame(m: Message): (u: UserBlock)
    requires m.Valid()
    ensures HEADER_SIZE <= |u| <= BLOCK_SIZE
  {
    Word(m.SizeField()) + Word(m.SizeField()) + m.payload
  }

  function Frames(ms: seq<Sendable>): seq<UserBlock> {
    if ms == [] then [] else [Frame(ms[0])] + Frames(ms[1..])
  }

  /** The host's reading of trace data: header by header. */
  function Parse(s: seq<byte>): Option<seq<Message>>
    decreases |s|
  {
    if s == [] then Some([])
    else if |s| < HEADER_SIZE then None
    else
      var field: nat := s[0] as int + 0x100 * s[1] as int;
      var n := field % 0x8000;
      if s[2..4] != s[..2] || |s| < HEADER_SIZE + n then None
      else
        match Parse(s[HEADER_SIZE + n..])
        case None => None
        case Some(rest) => Some([Message(field / 0x8000, s[HEADER_SIZE..HEADER_SIZE + n])] + rest)
  }

  /** Whole user blocks in a row are read back as exactly the messages sent. */
  lemma {:induction false} ParseFrames(ms: seq<Sendable>)
    ensures Parse(Flat(Frames(ms))) == Some(ms)
  {
    if ms != [] {
      ParseFrames(ms[1..]);
      FlatCons(Frame(ms[0]), Frames(ms[1..]));
      ParseOne(ms[0], Flat(Frames(ms[1..])), ms[1..]);
      assert [ms[0]] + ms[1..] == ms;
    }
  }

  lemma HeaderOf(m: Sendable, tail: seq<byte>)
    ensures var s, n := Frame(m) + tail, m.SizeField();
            && s[..2] == Word(n) == s[2..4]
            && s[0] as int + 0x100 * s[1] as int == n
            && n % 0x8000 == |m.payload| && n / 0x8000 == m.core
  {
    var s, n := Frame(m) + tail, m.SizeField();
    assert s[0] == n % 0x100 && s[1] == n / 0x100;
  }

  lemma BodyOf(m: Sendable, tail: seq<byte>)
    ensures var s, n := Frame(m) + tail, |m.payload|;
            && HEADER_SIZE + n <= |s|
            && s[HEADER_SIZE..HEADER_SIZE + n] == m.payload && s[HEADER_SIZE + n..] == tail
  {
  }

  lemma ParseOne(m: Sendable, tail: seq<byte>, rest: seq<Message>)
    requires Parse(tail) == Some(rest)
    ensures Parse(Frame(m) + tail) == Some([m] + rest)
  {
    HeaderOf(m, tail);
    BodyOf(m, tail);
  }

  lemma {:induction false} FramesAppend(a: seq<Sendable>, b: seq<Sendable>)
    ensures Frames(a + b) == Frames(a) + Frames(b)
  {
    if a == [] {
      assert a + b == b;
    } else {
      assert (a + b)[1..] == a[1..] + b;
      FramesAppend(a[1..], b);
    }
  }

  function Snoc(ms: seq<Sendable>, m: Sendable): seq<Sendable> {
    ms + [m]
  }

  lemma {:induction false} FramesLength(ms: seq<Sendable>)
    ensures |Frames(ms)| == |ms|
  {
    if ms != [] {
      FramesLength(ms[1..]);
    }
  }

  function Before(ms: seq<Sendable>, n: nat): seq<Sendable>
    requires n <= |ms|
  {
    ms[..n]
  }

  function From(ms: seq<Sendable>, n: nat): seq<Sendable>
    requires n <= |ms|
  {
    ms[n..]
  }

  lemma BeforeAndFrom(ms: seq<Sendable>, n: nat)
    requires n <= |ms|
    ensures ms == Before(ms, n) + From(ms, n)
  {
  }

  /** The `n` messages from number `i` on. */
  function Part(ms: seq<Sendable>, i: nat, n: nat): seq<Sendable>
    requires i + n <= |ms|
  {
    Before(From(ms, i), n)
  }

  /** Where the user blocks of a list of messages are cut, the messages are cut. */
  lemma FramesCut(ms: seq<Sendable>, x: seq<UserBlock>, y: seq<UserBlock>)
    requires Frames(ms) == x + y
    ensures |x| <= |ms| && Frames(Before(ms, |x|)) == x && Frames(From(ms, |x|)) == y
  {
    FramesLength(ms);
    var a, b := Before(ms, |x|), From(ms, |x|);
    BeforeAndFrom(ms, |x|);
    FramesAppend(a, b);
    FramesLength(a);
    SameCut(Frames(a), Frames(b), x, y);
  }

  lemma SameCut<T>(a: seq<T>, b: seq<T>, x: seq<T>, y: seq<T>)
    requires a + b == x + y && |a| == |x|
    ensures a == x && b == y
  {
    assert a == (a + b)[..|a|] && b == (a + b)[|a|..];
    assert x == (x + y)[..|x|] && y == (x + y)[|x|..];
  }

  /** Any run of user blocks out of a log of messages holds just those messages. */
  lemma FramesSlice(ms: seq<Sendable>, before: seq<UserBlock>, read: seq<UserBlock>, after: seq<UserBlock>)
    requires Frames(ms) == before + (read + after)
    ensures |before| + |read| <= |ms|
    ensures Frames(Part(ms, |before|, |read|)) == read
  {
    FramesCut(ms, before, read + after);
    FramesCut(From(ms, |before|), read, after);
  }
}
