/**
 The commands of the I2C master: what they mean, and how a caller queues them.
 */
module I2cCommands {
  import opened Sequences

  const FIFO_LEN: nat := 32
  const MAX_BYTES: nat := 0xFF

  /** A queued command: what of it is still to be done. */
  datatype Cmd =
    | Restart
    | Stop
    | Write(data: seq<byte>, ackEn: bool)
    | WriteByte(value: byte, ackEn: bool)
    | Read(at: nat, left: nat, ack: bool)
  {
    function Left(): nat {
      match this
      case Restart | Stop => 0
      case Write(data, _) => |data|
      case WriteByte(_, _) => 1
      case Read(_, left, _) => left
    }
  }

  /** As the queueing functions make them: the byte count fits its field. */
  predicate IsQueued(c: Cmd) {
    c.Restart? || c.Stop? || 1 <= c.Left() <= MAX_BYTES
  }

  type Queued = c: Cmd | IsQueued(c) witness Restart

  /** What the controller is told to do, byte by byte. */
  datatype Event = Begin | End | Out(value: byte, check: bool) | In(ack: bool)

  function Outs(data: seq<byte>, check: bool): seq<Event> {
    seq(|data|, i requires 0 <= i < |data| => Out(data[i], check))
  }

  function Ins(n: nat, ack: bool): seq<Event> {
    seq(n, i => In(ack))
  }

  function Events(c: Cmd): seq<Event> {
    match c
    case Restart => [Begin]
    case Stop => [End]
    case Write(data, ackEn) => Outs(data, ackEn)
    case WriteByte(value, ackEn) => [Out(value, ackEn)]
    case Read(_, left, ack) => Ins(left, ack)
  }

  function AllEvents(cmds: seq<Cmd>): seq<Event> {
    if cmds == [] then [] else Events(cmds[0]) + AllEvents(cmds[1..])
  }

  /** Memory, and how many of the incoming bytes have been stored in it. */
  datatype Store = Store(memory: map<nat, byte>, taken: nat)

  function Put(s: Store, incoming: nat -> byte, at: nat, n: nat): Store
    decreases n
  {
    if n == 0 then s
    else Put(Store(s.memory[at := incoming(s.taken)], s.taken + 1), incoming, at + 1, n - 1)
  }

  /** The bytes land contiguously, in order, and nothing else changes. */
  lemma {:induction false} PutLands(s: Store, incoming: nat -> byte, at: nat, n: nat)
    ensures var t := Put(s, incoming, at, n);
            && t.taken == s.taken + n
            && (forall i :: at <= i < at + n ==> i in t.memory && t.memory[i] == incoming(s.taken + i - at))
            && (forall i :: i < at || at + n <= i ==>
                  (i in t.memory <==> i in s.memory) && (i in t.memory ==> t.memory[i] == s.memory[i]))
    decreases n
  {
    if n > 0 {
      PutLands(Store(s.memory[at := incoming(s.taken)], s.taken + 1), incoming, at + 1, n - 1);
    }
  }

  lemma {:induction false} PutSplit(s: Store, incoming: nat -> byte, at: nat, n: nat, m: nat)
    ensures Put(s, incoming, at, n + m) == Put(Put(s, incoming, at, n), incoming, at + n, m)
    decreases n
  {
    if n > 0 {
      PutSplit(Store(s.memory[at := incoming(s.taken)], s.taken + 1), incoming, at + 1, n - 1, m);
    }
  }

  function Stored(c: Cmd, s: Store, incoming: nat -> byte): Store {
    if c.Read? then Put(s, incoming, c.at, c.left) else s
  }

  /** Memory after the commands, done one after the other. */
  function AllStored(cmds: seq<Cmd>, s: Store, incoming: nat -> byte): Store
    decreases |cmds|
  {
    if cmds == [] then s else AllStored(cmds[1..], Stored(cmds[0], s, incoming), incoming)
  }

  lemma {:induction false} EventsAppend(a: seq<Cmd>, b: seq<Cmd>)
    ensures AllEvents(a + b) == AllEvents(a) + AllEvents(b)
  {
    if a == [] {
      assert a + b == b;
    } else {
      assert (a + b)[1..] == a[1..] + b;
      EventsAppend(a[1..], b);
    }
  }

  lemma {:induction false} StoredAppend(a: seq<Cmd>, b: seq<Cmd>, s: Store, incoming: nat -> byte)
    ensures AllStored(a + b, s, incoming) == AllStored(b, AllStored(a, s, incoming), incoming)
    decreases |a|
  {
    if a == [] {
      assert a + b == b;
    } else {
      assert (a + b)[1..] == a[1..] + b;
      StoredAppend(a[1..], b, Stored(a[0], s, incoming), incoming);
    }
  }

  /** Two lists mean the same: the same events and the same stores. */
  ghost predicate Same(a: seq<Cmd>, b: seq<Cmd>) {
    && AllEvents(a) == AllEvents(b)
    && forall s, incoming :: AllStored(a, s, incoming) == AllStored(b, s, incoming)
  }

  lemma SameAppend(a: seq<Cmd>, b: seq<Cmd>, c: seq<Cmd>)
    requires Same(b, c)
    ensures Same(a + b, a + c)
  {
    EventsAppend(a, b);
    EventsAppend(a, c);
    forall s, incoming
      ensures AllStored(a + b, s, incoming) == AllStored(a + c, s, incoming)
    {
      StoredAppend(a, b, s, incoming);
      StoredAppend(a, c, s, incoming);
    }
  }

  lemma SameBefore(a: seq<Cmd>, b: seq<Cmd>, c: seq<Cmd>)
    requires Same(a, b)
    ensures Same(a + c, b + c)
  {
    EventsAppend(a, c);
    EventsAppend(b, c);
    forall s, incoming
      ensures AllStored(a + c, s, incoming) == AllStored(b + c, s, incoming)
    {
      StoredAppend(a, c, s, incoming);
      StoredAppend(b, c, s, incoming);
    }
  }

  lemma OutsSplit(a: seq<byte>, b: seq<byte>, check: bool)
    ensures Outs(a + b, check) == Outs(a, check) + Outs(b, check)
  {
  }

  lemma InsSplit(n: nat, m: nat, ack: bool)
    ensures Ins(n + m, ack) == Ins(n, ack) + Ins(m, ack)
  {
  }

  lemma PairEvents(c: Cmd, d: Cmd)
    ensures AllEvents([c, d]) == Events(c) + Events(d)
    ensures AllEvents([c]) == Events(c)
  {
    assert [c, d][1..] == [d];
    assert AllEvents([d]) == Events(d);
  }

  lemma PairStored(c: Cmd, d: Cmd, s: Store, incoming: nat -> byte)
    ensures AllStored([c, d], s, incoming) == Stored(d, Stored(c, s, incoming), incoming)
    ensures AllStored([c], s, incoming) == Stored(c, s, incoming)
  {
    assert [c, d][1..] == [d];
    assert AllStored([d], Stored(c, s, incoming), incoming) == Stored(d, Stored(c, s, incoming), incoming);
  }

  /** Cutting a write in two changes nothing. */
  lemma WriteSplit(a: seq<byte>, b: seq<byte>, check: bool)
    ensures Same([Write(a, check), Write(b, check)], [Write(a + b, check)])
  {
    var parts, whole := [Write(a, check), Write(b, check)], [Write(a + b, check)];
    PairEvents(Write(a, check), Write(b, check));
    PairEvents(Write(a + b, check), Stop);
    OutsSplit(a, b, check);
    forall s, incoming
      ensures AllStored(parts, s, incoming) == AllStored(whole, s, incoming)
    {
      PairStored(Write(a, check), Write(b, check), s, incoming);
      PairStored(Write(a + b, check), Stop, s, incoming);
    }
  }

  /** Cutting a read in two changes nothing. */
  lemma ReadSplit(at: nat, n: nat, all: nat, ack: bool)
    requires n <= all
    ensures Same([Read(at, n, ack), Read(at + n, all - n, ack)], [Read(at, all, ack)])
  {
    var parts, whole := [Read(at, n, ack), Read(at + n, all - n, ack)], [Read(at, all, ack)];
    PairEvents(Read(at, n, ack), Read(at + n, all - n, ack));
    PairEvents(Read(at, all, ack), Stop);
    InsSplit(n, all - n, ack);
    forall s, incoming
      ensures AllStored(parts, s, incoming) == AllStored(whole, s, incoming)
    {
      PairStored(Read(at, n, ack), Read(at + n, all - n, ack), s, incoming);
      PairStored(Read(at, all, ack), Stop, s, incoming);
      PutSplit(s, incoming, at, n, all - n);
    }
  }

  lemma NothingLeft(a: seq<Cmd>, c: Cmd)
    requires !c.Restart? && !c.Stop? && c.Left() == 0
    ensures Same(a + [c], a)
  {
    EventsAppend(a, [c]);
    PairEvents(c, Stop);
    forall s, incoming
      ensures AllStored(a + [c], s, incoming) == AllStored(a, s, incoming)
    {
      StoredAppend(a, [c], s, incoming);
      PairStored(c, Stop, s, incoming);
    }
  }

  /** Queueing a first part leaves the rest to be queued. */
  lemma QueuePart(a: seq<Cmd>, part: Cmd, rest: Cmd, whole: Cmd)
    requires Same([part, rest], [whole])
    ensures Same(a + [part] + [rest], a + [whole])
  {
    assert a + [part] + [rest] == a + [part, rest];
    SameAppend(a, [part, rest], [whole]);
  }

  // ---- Queueing commands ------------------------------------------------------------

  /** The list of commands that a caller builds. Memory may run out. */
  class CmdLink {
    var cmds: seq<Queued>

    constructor ()
      ensures cmds == []
    {
      cmds := [];
    }

    method Append(c: Queued) returns (ok: bool)
      modifies this
      ensures cmds == if ok then old(cmds) + [c] else old(cmds)
    {
      ok := *;
      if ok {
        cmds := cmds + [c];
      }
    }

    method QueueStart() returns (ok: bool)
      modifies this
      ensures cmds == if ok then old(cmds) + [Restart] else old(cmds)
    {
      ok := Append(Restart);
    }

    method QueueStop() returns (ok: bool)
      modifies this
      ensures cmds == if ok then old(cmds) + [Stop] else old(cmds)
    {
      ok := Append(Stop);
    }

    /** A write of any length, queued in parts whose length fits one byte. */
    method QueueWrite(data: seq<byte>, ackEn: bool) returns (ok: bool)
      modifies this
      ensures ok ==> Same(cmds, old(cmds) + [Write(data, ackEn)])
    {
      var rest := data;
      while |rest| > 0
        invariant Same(cmds + [Write(rest, ackEn)], old(cmds) + [Write(data, ackEn)])
        decreases |rest|
      {
        var len := Min(|rest|, MAX_BYTES);
        WriteSplit(rest[..len], rest[len..], ackEn);
        assert rest[..len] + rest[len..] == rest;
        QueuePart(cmds, Write(rest[..len], ackEn), Write(rest[len..], ackEn), Write(rest, ackEn));
        ok := Append(Write(rest[..len], ackEn));
        if !ok {
          return;
        }
        rest := rest[len..];
      }
      NothingLeft(cmds, Write(rest, ackEn));
      ok := true;
    }

    method QueueWriteByte(value: byte, ackEn: bool) returns (ok: bool)
      modifies this
      ensures cmds == if ok then old(cmds) + [WriteByte(value, ackEn)] else old(cmds)
    {
      ok := Append(WriteByte(value, ackEn));
    }

    /** A read of any length, queued in parts whose length fits one byte. */
    method QueueRead(at: nat, len: nat, ack: bool) returns (ok: bool)
      modifies this
      ensures ok ==> Same(cmds, old(cmds) + [Read(at, len, ack)])
    {
      var from: nat, left: nat := at, len;
      while left > 0
        invariant Same(cmds + [Read(from, left, ack)], old(cmds) + [Read(at, len, ack)])
      {
        var part := Min(left, MAX_BYTES);
        ReadSplit(from, part, left, ack);
        QueuePart(cmds, Read(from, part, ack), Read(from + part, left - part, ack), Read(from, left, ack));
        ok := Append(Read(from, part, ack));
        if !ok {
          return;
        }
        from, left := from + part, left - part;
      }
      NothingLeft(cmds, Read(from, left, ack));
      ok := true;
    }

    /** Queues a request of any kind and length. */
    method Queue(c: Cmd) returns (ok: bool)
      modifies this
      ensures ok ==> Same(cmds, old(cmds) + [c])
    {
      match c {
        case Restart => ok := QueueStart();
        case Stop => ok := QueueStop();
        case Write(data, ackEn) => ok := QueueWrite(data, ackEn);
        case WriteByte(value, ackEn) => ok := QueueWriteByte(value, ackEn);
        case Read(at, left, ack) => ok := QueueRead(at, left, ack);
      }
    }
  }
}
