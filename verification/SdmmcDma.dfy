/**
 Transfers between an SD card and memory by DMA. The driver describes a buffer
 of any length with a ring of four descriptors and recycles each descriptor
 when an event tells that the hardware has finished one.
 */
module SdmmcDma {
  import opened Sequences

  const COUNT: nat := 4

  datatype Desc = Desc(owned: bool, last: bool, ptr: nat, size: nat, next: Option<nat>)

  const CLEARED: Desc := Desc(false, false, 0, 0, None)

  /** How the buffer is cut: pieces of `max` bytes and a shorter last one. */
  datatype Cut = Cut(len: nat, max: nat) {
    function Size(at: nat): nat
      requires at <= len
    {
      Min(len - at, max)
    }

    /** The descriptor in `slot` for the piece at `at`. */
    function Piece(slot: nat, at: nat): Desc
      requires at <= len
    {
      var last := at + Size(at) == len;
      Desc(true, last, at, Size(at), if last then None else Some((slot + 1) % COUNT))
    }

    /** How many pieces are left from `at` on. */
    function Pieces(at: nat): nat
      requires at <= len && 0 < max
    {
      (len - at + max - 1) / max
    }

    lemma PiecesStep(at: nat)
      requires at < len && 0 < max
      ensures Pieces(at) == 1 + Pieces(at + Size(at))
    {
      var rest := len - at - Size(at);
      if rest > 0 {
        assert len - at + max - 1 == (rest + max - 1) + max;
      }
      AddDivisor(rest + max - 1, max);
      AddDivisor(len - at - 1, max);
      if rest == 0 {
        Small(len - at - 1);
        Small(max - 1);
      }
    }

    lemma Left(at: nat)
      requires at <= len && 0 < max
      ensures Pieces(at) == 0 <==> at == len
    {
      if at < len {
        PiecesStep(at);
      } else {
        Small(max - 1);
      }
    }

    lemma Small(x: nat)
      requires x < max
      ensures x / max == 0
    {
    }

    /** From `hw` on, `n` consecutive descriptors cover the bytes from `at` to `end`. */
    ghost predicate Tiles(ring: seq<Desc>, hw: nat, at: nat, n: nat, end: nat)
      requires |ring| == COUNT && hw < COUNT && 0 < max
      decreases n
    {
      if n == 0 then at == end && at <= len
      else
        && at < len && ring[hw] == Piece(hw, at)
        && Tiles(ring, (hw + 1) % COUNT, at + Size(at), n - 1, end)
    }

    lemma {:induction false} TilesEnd(ring: seq<Desc>, hw: nat, at: nat, n: nat, end: nat)
      requires |ring| == COUNT && hw < COUNT && 0 < max && Tiles(ring, hw, at, n, end)
      ensures at <= end <= len && (n > 0 ==> at < end)
      decreases n
    {
      if n > 0 {
        TilesEnd(ring, (hw + 1) % COUNT, at + Size(at), n - 1, end);
      }
    }

    lemma {:induction false} TilesKept(ring: seq<Desc>, ring': seq<Desc>, hw: nat, at: nat, n: nat, end: nat)
      requires |ring| == |ring'| == COUNT && hw < COUNT && 0 < max && Tiles(ring, hw, at, n, end)
      requires forall x :: 0 <= x < COUNT && Within(x, hw, n) ==> ring'[x] == ring[x]
      requires n <= COUNT
      ensures Tiles(ring', hw, at, n, end)
      decreases n
    {
      if n > 0 {
        TilesKept(ring, ring', (hw + 1) % COUNT, at + Size(at), n - 1, end);
      }
    }

    lemma {:induction false} TilesGrow(ring: seq<Desc>, hw: nat, at: nat, n: nat, end: nat)
      requires |ring| == COUNT && hw < COUNT && 0 < max && Tiles(ring, hw, at, n, end)
      requires end < len && ring[(hw + n) % COUNT] == Piece((hw + n) % COUNT, end)
      ensures Tiles(ring, hw, at, n + 1, end + Size(end))
      decreases n
    {
      if n > 0 {
        TilesGrow(ring, (hw + 1) % COUNT, at + Size(at), n - 1, end);
      }
    }
  }

  /** The rings in which the hardware owns `n` descriptors, for the bytes from `at` to `end`. */
  ghost function Rings(cut: Cut, hw: nat, at: nat, n: nat, end: nat): iset<seq<Desc>>
    requires hw < COUNT && 0 < cut.max
  {
    iset ring | |ring| == COUNT && cut.Tiles(ring, hw, at, n, end) && OwnedFrom(ring, hw, n)
  }

  lemma FillDescribes(cut: Cut, ring: seq<Desc>, hw: nat, at: nat, n: nat, end: nat)
    requires hw < COUNT && 0 < cut.max && ring in Rings(cut, hw, at, n, end)
    requires n < COUNT && end < cut.len
    ensures var x := (hw + n) % COUNT;
            && !ring[x].owned
            && ring[x := cut.Piece(x, end)] in Rings(cut, hw, at, n + 1, end + cut.Size(end))
  {
    var x := (hw + n) % COUNT;
    var ring' := ring[x := cut.Piece(x, end)];
    forall y | 0 <= y < COUNT
      ensures Within(y, hw, n + 1) <==> Within(y, hw, n) || y == x
      ensures !Within(x, hw, n)
    {
      WithinSteps(y, hw, n);
    }
    cut.TilesKept(ring, ring', hw, at, n, end);
    cut.TilesGrow(ring', hw, at, n, end);
  }

  lemma FinishDescribes(cut: Cut, ring: seq<Desc>, hw: nat, at: nat, n: nat, end: nat)
    requires hw < COUNT && 0 < cut.max && ring in Rings(cut, hw, at, n, end)
    requires 0 < n <= COUNT
    ensures at < cut.len && ring[hw] == cut.Piece(hw, at)
    ensures ring[hw := ring[hw].(owned := false)] in Rings(cut, (hw + 1) % COUNT, at + cut.Size(at), n - 1, end)
  {
    var ring' := ring[hw := ring[hw].(owned := false)];
    FinishOwned(ring, hw, n);
    cut.TilesKept(ring, ring', (hw + 1) % COUNT, at + cut.Size(at), n - 1, end);
  }

  lemma FinishOwned(ring: seq<Desc>, hw: nat, n: nat)
    requires |ring| == COUNT && hw < COUNT && 0 < n <= COUNT && OwnedFrom(ring, hw, n)
    ensures OwnedFrom(ring[hw := ring[hw].(owned := false)], (hw + 1) % COUNT, n - 1)
    ensures !Within(hw, (hw + 1) % COUNT, n - 1)
  {
    forall x | 0 <= x < COUNT
      ensures Within(x, hw, n) <==> x == hw || Within(x, (hw + 1) % COUNT, n - 1)
      ensures !Within(hw, (hw + 1) % COUNT, n - 1)
    {
      WithinSteps(x, hw, n - 1);
    }
  }

  /** The same, counted back from the descriptor to be filled next. */
  lemma GiveBackDescribes(cut: Cut, ring: seq<Desc>, next: nat, at: nat, n: nat, end: nat)
    requires next < COUNT && 0 < n <= COUNT && 0 < cut.max && ring in Rings(cut, Back(next, n), at, n, end)
    ensures var x := Back(next, n);
            && |ring| == COUNT && at < cut.len && Back(next, n - 1) == (x + 1) % COUNT
            && ring[x := ring[x].(owned := false)] in Rings(cut, Back(next, n - 1), at + cut.Size(at), n - 1, end)
  {
    BackSteps(next, n - 1);
    FinishDescribes(cut, ring, Back(next, n), at, n, end);
  }

  lemma AddDivisor(x: nat, d: nat)
    requires 0 < d
    ensures (x + d) / d == x / d + 1
  {
    assert x + d == (x / d + 1) * d + x % d;
    Quotient((x / d + 1) * d + x % d, x / d + 1, x % d, d);
  }

  /** The slot `n` slots before `x`. */
  function Back(x: nat, n: nat): nat
    requires x < COUNT && n <= COUNT
  {
    (x + COUNT - n) % COUNT
  }

  lemma BackSteps(x: nat, n: nat)
    requires x < COUNT && n < COUNT
    ensures (Back(x, n) + n) % COUNT == x
    ensures Back((x + 1) % COUNT, n + 1) == Back(x, n)
    ensures Back(x, n) == (Back(x, n + 1) + 1) % COUNT
  {
  }

  /** Whether slot `x` is one of the `n` slots from `hw` on. */
  predicate Within(x: nat, hw: nat, n: nat)
    requires x < COUNT && hw < COUNT
  {
    (x + COUNT - hw) % COUNT < n
  }

  lemma WithinSteps(x: nat, hw: nat, n: nat)
    requires x < COUNT && hw < COUNT && n < COUNT
    ensures Within(x, hw, n + 1) <==> Within(x, hw, n) || x == (hw + n) % COUNT
    ensures Within(x, hw, n + 1) <==> x == hw || Within(x, (hw + 1) % COUNT, n)
    ensures !Within((hw + n) % COUNT, hw, n) && !Within(hw, (hw + 1) % COUNT, n)
  {
  }

  /** The slots that the hardware owns are the `n` from `hw` on. */
  ghost predicate OwnedFrom(ring: seq<Desc>, hw: nat, n: nat)
    requires |ring| == COUNT && hw < COUNT
  {
    forall x :: 0 <= x < COUNT ==> (ring[x].owned <==> Within(x, hw, n))
  }

  datatype Phase = SendingData | Busy

  /** A transfer of `stream` from the card to the front of `buffer`. */
  class Transfer {
    const cut: Cut
    const stream: seq<byte>
    const buffer: array<byte>
    const ring: array<Desc>

    // The driver's state, and how many events it has not handled yet.
    var sizeRemaining: nat
    var nextDesc: nat
    var descRemaining: int
    var phase: Phase
    var events: nat

    // The hardware: the descriptor it is at, and how many bytes it has moved.
    var hw: Option<nat>
    var moved: nat

    // How many descriptors the hardware owns.
    ghost var owned: nat

    ghost predicate Shape()
      reads this`nextDesc, this`owned, this`sizeRemaining
    {
      && ring.Length == COUNT && 0 < cut.max && |stream| == cut.len <= buffer.Length
      && nextDesc < COUNT && owned <= COUNT && sizeRemaining <= cut.len
    }

    /** How far the descriptors that were filled so far reach. */
    ghost function Reach(): nat
      requires Shape()
      reads this`nextDesc, this`owned, this`sizeRemaining
    {
      cut.len - sizeRemaining
    }

    /** The oldest descriptor that the hardware owns, or the next one to fill. */
    ghost function Oldest(): nat
      requires Shape()
      reads this`nextDesc, this`owned, this`sizeRemaining
    {
      Back(nextDesc, owned)
    }

    /** The rings that describe what the hardware has not moved yet. */
    ghost function Described(): iset<seq<Desc>>
      requires Shape()
      reads this`nextDesc, this`owned, this`sizeRemaining, this`moved
    {
      Rings(cut, Oldest(), moved, owned, Reach())
    }

    /** What was moved is in place, and the hardware knows where to go on. */
    ghost predicate Moving()
      requires Shape()
      reads this, buffer
    {
      && moved <= cut.len && buffer[..moved] == stream[..moved]
      && hw == if moved < cut.len then Some(Oldest()) else None
    }

    /** Each descriptor is free, with the hardware, or waits for its event. */
    ghost predicate Counted()
      requires Shape()
      reads this
    {
      && owned + events <= COUNT
      && (sizeRemaining > 0 ==> owned + events == COUNT)
      && descRemaining == owned + events + cut.Pieces(Reach())
      && (phase == Busy <==> descRemaining == 0)
    }

    ghost predicate Valid()
      reads this, ring, buffer
    {
      Shape() && ring[..] in Described() && Moving() && Counted()
    }

    /** Writes the descriptor for the next piece. */
    method Write() returns (size: nat)
      requires Shape() && sizeRemaining > 0
      modifies ring
      ensures size == cut.Size(Reach()) <= sizeRemaining
      ensures ring[..] == old(ring[..])[nextDesc := cut.Piece(nextDesc, Reach())]
    {
      size := if sizeRemaining < cut.max then sizeRemaining else cut.max;
      var last := size == sizeRemaining;
      ring[nextDesc] := Desc(true, last, cut.len - sizeRemaining, size,
                             if last then None else Some((nextDesc + 1) % COUNT));
    }

    /** Describes the next piece, in a descriptor that the hardware does not own. */
    method DescribeNext() returns (size: nat)
      requires Shape() && ring[..] in Described()
      requires sizeRemaining > 0 && owned < COUNT
      modifies ring
      ensures size == cut.Size(Reach()) <= sizeRemaining
      ensures ring[..] in Rings(cut, Oldest(), moved, owned + 1, Reach() + size)
    {
      BackSteps(nextDesc, owned);
      FillDescribes(cut, ring[..], Oldest(), moved, owned, Reach());
      assert !ring[nextDesc].owned;
      size := Write();
    }

    /** Fills the next descriptor. */
    method FillOne()
      requires Shape() && ring[..] in Described()
      requires sizeRemaining > 0 && owned < COUNT
      modifies this`sizeRemaining, this`nextDesc, this`owned, ring
      ensures Shape() && ring[..] in Described()
      ensures Oldest() == old(Oldest()) && owned == old(owned) + 1
      ensures Reach() == old(Reach() + cut.Size(Reach()))
    {
      var size := DescribeNext();
      GoOn(size);
    }

    /** Goes on to the next descriptor. */
    method GoOn(size: nat)
      requires Shape() && size <= sizeRemaining && owned < COUNT
      requires ring[..] in Rings(cut, Oldest(), moved, owned + 1, Reach() + size)
      modifies this`sizeRemaining, this`nextDesc, this`owned
      ensures Shape() && ring[..] in Described()
      ensures Oldest() == old(Oldest()) && owned == old(owned) + 1 && Reach() == old(Reach()) + size
    {
      BackSteps(nextDesc, owned);
      sizeRemaining := sizeRemaining - size;
      nextDesc := (nextDesc + 1) % COUNT;
      owned := owned + 1;
    }

    /** Fills up to `count` descriptors, as many as there are pieces left. */
    method Fill(count: nat)
      requires Shape() && ring[..] in Described()
      requires owned + count <= COUNT
      modifies this`sizeRemaining, this`nextDesc, this`owned, ring
      ensures Shape() && ring[..] in Described()
      ensures Oldest() == old(Oldest())
      ensures sizeRemaining > 0 ==> owned == old(owned) + count
      ensures owned <= old(owned) + count
      ensures owned + cut.Pieces(Reach()) == old(owned + cut.Pieces(Reach()))
      ensures sizeRemaining <= old(sizeRemaining)
    {
      for i := 0 to count
        invariant Shape() && ring[..] in Described()
        invariant Oldest() == old(Oldest()) && owned == old(owned) + i
        invariant owned + cut.Pieces(Reach()) == old(owned + cut.Pieces(Reach()))
        invariant sizeRemaining <= old(sizeRemaining)
      {
        if sizeRemaining == 0 {
          return;
        }
        cut.PiecesStep(Reach());
        FillOne();
      }
    }

    /** Prepares the transfer of a stream; shorter ones than 4 bytes are refused. */
    constructor (data: seq<byte>, dest: array<byte>, maxLen: nat)
      requires 4 <= |data| <= dest.Length && 0 < maxLen
      ensures Valid() && moved == 0 && events == 0
      ensures stream == data && buffer == dest && cut == Cut(|data|, maxLen)
    {
      stream, buffer, cut := data, dest, Cut(|data|, maxLen);
      ring := new Desc[COUNT](_ => CLEARED);
      sizeRemaining, nextDesc, descRemaining := |data|, 0, (|data| + maxLen - 1) / maxLen;
      phase, events, hw, moved, owned := SendingData, 0, Some(0), 0, 0;
      new;
      Fill(COUNT);
      cut.Left(Reach());
    }

    /** Copies what the card sends next to the piece at `at`. */
    method Receive(at: nat, size: nat)
      requires moved + size <= |stream| && at + size <= buffer.Length
      modifies buffer
      ensures buffer[at..at + size] == stream[moved..moved + size]
      ensures buffer[..at] == old(buffer[..at]) && buffer[at + size..] == old(buffer[at + size..])
    {
      CopyTo(buffer, at, stream[moved..moved + size]);
    }

    /** A piece that begins where the last one ended continues the stream. */
    method ReceiveNext(at: nat, size: nat)
      requires at == moved && moved + size <= |stream| <= buffer.Length && buffer[..moved] == stream[..moved]
      modifies buffer
      ensures buffer[..moved + size] == stream[..moved + size]
    {
      Receive(at, size);
      assert buffer[..moved + size] == buffer[..moved] + buffer[moved..moved + size];
      assert stream[..moved + size] == stream[..moved] + stream[moved..moved + size];
    }

    /** The hardware gives the descriptor it has finished back. */
    method GiveBack(x: nat)
      requires Shape() && ring[..] in Described() && owned > 0 && x == Oldest()
      requires moved < cut.len && ring[x] == cut.Piece(x, moved)
      modifies this`moved, this`owned, ring
      ensures Shape() && ring[..] in Described()
      ensures moved == old(moved + cut.Size(moved)) && owned == old(owned) - 1
      ensures Oldest() == (x + 1) % COUNT
    {
      Clear(x);
      Pass(cut.Size(moved));
    }

    /** What is left is still described. */
    method Clear(x: nat)
      requires Shape() && ring[..] in Described() && owned > 0 && x == Oldest() && moved <= cut.len
      modifies ring
      ensures moved < cut.len && Back(nextDesc, owned - 1) == (x + 1) % COUNT
      ensures ring[..] in Rings(cut, Back(nextDesc, owned - 1), moved + cut.Size(moved), owned - 1, Reach())
    {
      GiveBackDescribes(cut, ring[..], nextDesc, moved, owned, Reach());
      ghost var was := ring[..];
      ring[x] := ring[x].(owned := false);
      assert ring[..] == was[x := was[x].(owned := false)];
    }

    /** Counts a piece as moved. */
    method Pass(size: nat)
      requires Shape() && owned > 0
      requires ring[..] in Rings(cut, Back(nextDesc, owned - 1), moved + size, owned - 1, Reach())
      modifies this`moved, this`owned
      ensures Shape() && ring[..] in Described()
      ensures moved == old(moved) + size && owned == old(owned) - 1
      ensures Oldest() == old(Back(nextDesc, owned - 1))
    {
      moved := moved + size;
      owned := owned - 1;
    }

    /**
     The hardware moves the piece of a descriptor, gives the descriptor back
     and follows its link. It rests at a descriptor that it does not own.
     */
    method Move()
      requires Valid() && hw.Some?
      requires ring[hw.value].owned
      modifies this`hw, this`moved, this`events, this`owned, ring, buffer
      ensures Valid() && moved > old(moved) && events == old(events) + 1
    {
      var x, d := hw.value, ring[hw.value];
      assert Within(x, x, owned);
      FinishDescribes(cut, ring[..], x, moved, owned, Reach());
      ReceiveNext(d.ptr, d.size);
      GiveBack(x);
      hw, events := d.next, events + 1;
    }

    /** Handles one event: describes the next piece, if there is one. */
    method HandleDone()
      requires Valid() && events > 0
      modifies this`sizeRemaining, this`nextDesc, this`descRemaining, this`phase, this`events, this`owned, ring
      ensures Valid() && events == old(events) - 1
      ensures phase == Busy <==> moved == cut.len && events == 0
    {
      events := events - 1;
      descRemaining := descRemaining - 1;
      if sizeRemaining > 0 {
        Fill(1);
      }
      if descRemaining == 0 {
        phase := Busy;
      }
      Progress();
    }

    /**
     There is always something to do until the last byte is moved, and the
     count of descriptors is down to zero exactly when nothing is left.
     */
    lemma Progress()
      requires Valid()
      ensures descRemaining == 0 <==> moved == cut.len && events == 0
      ensures moved < cut.len ==> events > 0 || (hw.Some? && ring[hw.value].owned)
    {
      cut.TilesEnd(ring[..], Oldest(), moved, owned, Reach());
      cut.Left(Reach());
      assert ring[..][Oldest()].owned <==> Within(Oldest(), Oldest(), owned);
    }

    /** A whole transfer, for any timing of the hardware and its events. */
    method Run()
      requires Valid()
      modifies this`hw, this`moved, this`events, this`owned, ring, buffer,
               this`sizeRemaining, this`nextDesc, this`descRemaining, this`phase
      ensures Valid() && phase == Busy
      ensures buffer[..cut.len] == stream
    {
      while phase != Busy
        invariant Valid()
        decreases cut.len - moved, events
      {
        Progress();
        var event: bool := *;
        if events > 0 && (event || hw == None || !ring[hw.value].owned) {
          HandleDone();
        } else {
          Move();
        }
      }
      Progress();
      assert stream[..cut.len] == stream;
    }
  }
}
