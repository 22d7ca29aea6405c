/**
 The ring buffer of the tracing component. A reservation must be one
 contiguous piece of memory, so when the tail of the storage is too short the
 write index wraps early and `curSize` remembers where the live data ends.
 */
module TraceRing {
  import opened Sequences

  /** The three indices of a ring over a storage of `size` elements. */
  datatype Indices = Indices(cur: nat, rd: nat, wr: nat) {
    ghost predicate Fits(size: nat) {
      && (size == 0 ==> rd == 0 && wr == 0)
      && (0 < size ==> wr < size)
      && (rd <= wr ==> cur == size)
      && (wr < rd ==> rd < cur <= size)
    }

    /** Whether storage index `i` holds live data. */
    ghost predicate Live(i: int) {
      if rd <= wr then rd <= i < wr else rd <= i < cur || 0 <= i < wr
    }

    /** The live data of storage `mem`, oldest first. */
    ghost function Span<T>(mem: seq<T>): seq<T>
      requires Fits(|mem|)
    {
      if rd <= wr then mem[rd..wr] else mem[rd..cur] + mem[..wr]
    }

    /** The longest contiguous reservation there is room for. */
    ghost function Room(size: nat): int {
      if wr < rd then rd - wr - 1
      else if rd == 0 then size - wr - 1
      else if size - wr < rd - 1 then rd - 1
      else size - wr
    }
  }

  /** `y` is `x` after reserving `[at, at + n)`, whatever the storage holds. */
  ghost predicate Reserved(x: Indices, y: Indices, size: nat, at: nat, n: nat) {
    && x.Fits(size) && y.Fits(size) && at + n <= size
    && (forall i :: at <= i < at + n ==> !x.Live(i))
    && (|| (x.rd <= x.wr == at && y == Indices(size, x.rd, x.wr + n))
        || (x.rd <= x.wr == at && 0 < x.rd && x.wr + n == size && y == Indices(size, x.rd, 0))
        || (x.rd < x.wr && at == 0 && n < x.rd && y == Indices(x.wr, x.rd, n))
        || (x.rd == x.wr && at == 0 && n < x.rd && y == Indices(size, 0, n))
        || (x.wr < x.rd && at == x.wr && x.wr + n < x.rd && y == Indices(x.cur, x.rd, x.wr + n)))
  }

  lemma ReservedAppends<T>(x: Indices, y: Indices, mem: seq<T>, at: nat, n: nat)
    requires Reserved(x, y, |mem|, at, n)
    ensures y.Span(mem) == x.Span(mem) + mem[at..at + n]
  {
    if x.rd <= x.wr == at {
      assert mem[x.rd..at + n] == mem[x.rd..at] + mem[at..at + n];
    } else if x.wr < x.rd {
      assert mem[..at + n] == mem[..at] + mem[at..at + n];
    }
  }

  lemma LiveKept<T>(x: Indices, mem: seq<T>, mem': seq<T>)
    requires |mem| == |mem'| && x.Fits(|mem|)
    requires forall i :: 0 <= i < |mem| && x.Live(i) ==> mem[i] == mem'[i]
    ensures x.Span(mem) == x.Span(mem')
  {
    if x.rd <= x.wr {
      assert mem[x.rd..x.wr] == mem'[x.rd..x.wr];
    } else {
      assert mem[x.rd..x.cur] == mem'[x.rd..x.cur];
      assert mem[..x.wr] == mem'[..x.wr];
    }
  }

  /** What is stored in a reservation becomes the newest part of the contents. */
  lemma StoredAppends<T>(x: Indices, y: Indices, mem: seq<T>, mem': seq<T>, at: nat, src: seq<T>)
    requires |mem| == |mem'| && Reserved(x, y, |mem|, at, |src|)
    requires mem'[at..at + |src|] == src
    requires forall i :: 0 <= i < |mem| && !(at <= i < at + |src|) ==> mem'[i] == mem[i]
    ensures y.Span(mem') == x.Span(mem) + src
  {
    LiveKept(x, mem, mem');
    ReservedAppends(x, y, mem', at, |src|);
  }

  /** `y` is `x` after taking the `n` oldest elements, which lie at `x.rd`. */
  ghost predicate Taken(x: Indices, y: Indices, size: nat, n: nat) {
    && x.Fits(size) && y.Fits(size)
    && (|| (x.rd + n <= x.wr && y == Indices(size, x.rd + n, x.wr))
        || (x.wr < x.rd && x.rd + n < x.cur && y == Indices(x.cur, x.rd + n, x.wr))
        || (x.wr < x.rd && x.rd + n == x.cur && y == Indices(size, 0, x.wr)))
  }

  lemma TakenDrops<T>(x: Indices, y: Indices, mem: seq<T>, n: nat)
    requires Taken(x, y, |mem|, n)
    ensures x.rd + n <= |mem|
    ensures x.Span(mem) == mem[x.rd..x.rd + n] + y.Span(mem)
  {
    if x.rd + n <= x.wr {
      CutAt(mem, x.rd, x.rd + n, x.wr);
    } else {
      CutAt(mem, x.rd, x.rd + n, x.cur);
      Regroup(mem[x.rd..x.rd + n], mem[x.rd + n..x.cur], mem[..x.wr]);
    }
  }

  lemma CutAt<T>(s: seq<T>, a: nat, b: nat, c: nat)
    requires a <= b <= c <= |s|
    ensures s[a..c] == s[a..b] + s[b..c]
  {
  }

  lemma NextPiece<T>(before: seq<T>, src: seq<T>, i: nat, n: nat)
    requires i + n <= |src|
    ensures (before + src[..i]) + src[i..i + n] == before + src[..i + n]
  {
    assert src[..i + n] == src[..i] + src[i..i + n];
  }

  class Ring<T> {
    const data: array<T>
    var curSize: nat
    var rd: nat
    var wr: nat

    // Everything ever taken out.
    ghost var consumed: seq<T>

    ghost function Ix(): Indices
      reads this
    {
      Indices(curSize, rd, wr)
    }

    ghost predicate Shape()
      reads this
    {
      Ix().Fits(data.Length)
    }

    ghost function Contents(): seq<T>
      requires Shape()
      reads this, data
    {
      Ix().Span(data[..])
    }

    /** Everything ever put in: what came out is always a prefix of it. */
    ghost function Produced(): seq<T>
      requires Shape()
      reads this, data
    {
      consumed + Contents()
    }

    constructor (storage: array<T>)
      ensures Shape() && data == storage
      ensures Contents() == [] && consumed == []
    {
      data := storage;
      curSize := storage.Length;
      rd, wr := 0, 0;
      consumed := [];
    }

    /** How much one call of Consume can take. */
    function ReadSize(): (n: nat)
      requires Shape()
      reads this, data
      ensures n <= |Contents()|
      ensures n == 0 <==> Contents() == []
    {
      if rd <= wr then wr - rd else curSize - rd
    }

    /** How much can be produced without wrapping early. */
    function WriteSize(): (n: nat)
      requires Shape()
      reads this
      ensures n <= Ix().Room(data.Length) || n == 0
      ensures n < Ix().Room(data.Length) ==> 0 < rd <= wr && data.Length - wr < rd - 1
    {
      if rd <= wr then
        var n := data.Length - wr;
        if n > 0 && rd == 0 then n - 1 else n
      else
        rd - wr - 1
    }

    /**
     Reserves `n` elements. The reservation is contiguous, overlaps no live
     element, and (ReservedAppends) becomes the newest part of the contents
     whatever is then stored in it.
     */
    method Produce(n: nat) returns (ok: bool, at: nat)
      requires Shape()
      modifies this
      ensures Shape()
      ensures ok <==> n <= old(Ix()).Room(data.Length)
      ensures !ok ==> unchanged(this)
      ensures ok ==> Reserved(old(Ix()), Ix(), data.Length, at, n)
      ensures consumed == old(consumed)
    {
      at := wr;
      if rd <= wr {
        if wr + n >= data.Length {
          if rd == 0 {
            return false, at;
          }
          if wr + n == data.Length {
            wr := 0;
          } else {
            if n > rd - 1 {
              return false, at;
            }
            curSize := wr;
            wr := 0;
            at := 0;
            if rd == curSize {
              rd := 0;
              if curSize < data.Length {
                curSize := data.Length;
              }
            }
            wr := wr + n;
          }
        } else {
          wr := wr + n;
        }
      } else {
        if n > rd - wr - 1 {
          return false, at;
        }
        wr := wr + n;
      }
      return true, at;
    }

    /** Moves the read index past the `n` oldest elements. */
    method Skip(n: nat) returns (ok: bool)
      requires Shape()
      modifies this`rd, this`curSize
      ensures Shape()
      ensures ok <==> n <= old(ReadSize())
      ensures !ok ==> unchanged(this)
      ensures ok ==> Taken(old(Ix()), Ix(), data.Length, n)
    {
      if rd <= wr {
        if rd + n > wr {
          return false;
        }
        rd := rd + n;
      } else {
        if rd + n > curSize {
          return false;
        } else if rd + n == curSize {
          if curSize < data.Length {
            curSize := data.Length;
          }
          rd := 0;
        } else {
          rd := rd + n;
        }
      }
      return true;
    }

    /** Takes the `n` oldest elements, which lie contiguously at `at`. */
    method Consume(n: nat) returns (ok: bool, at: nat)
      requires Shape()
      modifies this
      ensures Shape()
      ensures ok <==> n <= old(ReadSize())
      ensures !ok ==> unchanged(this)
      ensures ok ==> at + n <= data.Length
      ensures ok ==> old(Contents()) == data[..][at..at + n] + Contents()
      ensures ok ==> consumed == old(consumed) + data[..][at..at + n]
      ensures Produced() == old(Produced())
    {
      at := rd;
      ghost var x := Ix();
      ok := Skip(n);
      if ok {
        TakenDrops(x, Ix(), data[..], n);
        ghost var piece := data[..][at..at + n];
        Regroup(consumed, piece, Contents());
        consumed := consumed + piece;
      }
    }

    /** Produces a reservation and copies `src` into it. */
    method Write(src: seq<T>) returns (ok: bool)
      requires Shape()
      modifies this, data
      ensures Shape()
      ensures ok <==> |src| <= old(Ix()).Room(data.Length)
      ensures !ok ==> unchanged(this) && unchanged(data)
      ensures ok ==> Contents() == old(Contents()) + src
      ensures consumed == old(consumed)
    {
      ghost var x, mem := Ix(), data[..];
      var at;
      ok, at := Produce(|src|);
      if ok {
        CopyTo(data, at, src);
        StoredAppends(x, Ix(), mem, data[..], at, src);
      }
    }

    /**
     Copies as much of `src` as fits, piece by piece. Stops early only when
     the ring reports that nothing more can be written.
     */
    method WriteAll(src: seq<T>) returns (total: nat)
      requires Shape()
      modifies this, data
      ensures Shape()
      ensures total <= |src|
      ensures total < |src| ==> WriteSize() == 0
      ensures Contents() == old(Contents()) + src[..total]
      ensures consumed == old(consumed)
    {
      total := 0;
      while total < |src|
        invariant Shape()
        invariant total <= |src|
        invariant Contents() == old(Contents()) + src[..total]
        invariant consumed == old(consumed)
      {
        var n := WriteSize();
        if n == 0 {
          break;
        }
        if n > |src| - total {
          n := |src| - total;
        }
        var ok := Write(src[total..total + n]);
        NextPiece(old(Contents()), src, total, n);
        total := total + n;
      }
    }
  }
}
