/**
 The remote-control transmitter. Hardware plays a cyclic memory of two halves
 item by item; whenever it has left a half, an interrupt lets the driver refill
 that half with the next items of the caller's array.
 */
module RmtTransmit {
  import opened Sequences

  datatype Pulse = Pulse(level: bool, duration: nat)

  /** Two pulses; a duration of zero ends the transmission. */
  datatype Item = Item(duration0: nat, level0: bool, duration1: nat, level1: bool) {
    predicate Stops() {
      duration0 == 0 || duration1 == 0
    }

    function Pulses(): seq<Pulse> {
      if duration0 == 0 then []
      else if duration1 == 0 then [Pulse(level0, duration0)]
      else [Pulse(level0, duration0), Pulse(level1, duration1)]
    }
  }

  const END: Item := Item(0, false, 0, false)

  /** The pulses that an item array stands for: up to the first zero duration. */
  function Pulses(items: seq<Item>): seq<Pulse> {
    if items == [] then []
    else items[0].Pulses() + if items[0].Stops() then [] else Pulses(items[1..])
  }

  predicate NoStops(items: seq<Item>) {
    forall i :: 0 <= i < |items| ==> !items[i].Stops()
  }

  lemma {:induction false} PulsesLength(items: seq<Item>)
    requires NoStops(items)
    ensures |Pulses(items)| == 2 * |items|
  {
    if items != [] {
      TwoPulses(items);
      PulsesLength(items[1..]);
    }
  }

  lemma TwoPulses(items: seq<Item>)
    requires items != [] && !items[0].Stops()
    ensures Pulses(items) == [Pulse(items[0].level0, items[0].duration0), Pulse(items[0].level1, items[0].duration1)]
                             + Pulses(items[1..])
  {
  }

  lemma {:induction false} PulsesAt(items: seq<Item>, i: nat)
    requires NoStops(items) && i < |items|
    ensures 2 * i + 1 < |Pulses(items)|
    ensures Pulses(items)[2 * i] == Pulse(items[i].level0, items[i].duration0)
    ensures Pulses(items)[2 * i + 1] == Pulse(items[i].level1, items[i].duration1)
    decreases i
  {
    TwoPulses(items);
    if i > 0 {
      PulsesAt(items[1..], i - 1);
      BehindTwo(Pulses(items)[0], Pulses(items)[1], Pulses(items[1..]), 2 * i);
      BehindTwo(Pulses(items)[0], Pulses(items)[1], Pulses(items[1..]), 2 * i + 1);
    }
  }

  lemma BehindTwo(a: Pulse, b: Pulse, rest: seq<Pulse>, k: nat)
    requires 2 <= k < 2 + |rest|
    ensures ([a, b] + rest)[k] == rest[k - 2]
  {
  }

  /** With no zero duration inside, all items are transmitted. */
  lemma AllPulses(items: seq<Item>)
    requires forall i :: 0 <= i < |items| ==> items[i].duration0 != 0 && items[i].duration1 != 0
    ensures |Pulses(items)| == 2 * |items|
    ensures forall i :: 0 <= i < |items| ==>
              && Pulses(items)[2 * i] == Pulse(items[i].level0, items[i].duration0)
              && Pulses(items)[2 * i + 1] == Pulse(items[i].level1, items[i].duration1)
  {
    PulsesLength(items);
    forall i | 0 <= i < |items|
      ensures Pulses(items)[2 * i] == Pulse(items[i].level0, items[i].duration0)
      ensures Pulses(items)[2 * i + 1] == Pulse(items[i].level1, items[i].duration1)
    {
      PulsesAt(items, i);
    }
  }

  ghost function PulsesFrom(items: seq<Item>, j: nat): seq<Pulse> {
    if j <= |items| then Pulses(items[j..]) else []
  }

  /** What `sent` still lacks is the pulses of the items from `j` on. */
  ghost predicate Owes(sent: seq<Pulse>, items: seq<Item>, j: nat) {
    sent + PulsesFrom(items, j) == Pulses(items)
  }

  lemma PulseStep(sent: seq<Pulse>, items: seq<Item>, j: nat)
    requires j <= |items| && Owes(sent, items, j)
    ensures if Stream(items, j).Stops() then sent + Stream(items, j).Pulses() == Pulses(items)
            else Owes(sent + Stream(items, j).Pulses(), items, j + 1)
  {
    if j < |items| {
      assert items[j..][1..] == items[j + 1..];
      Regroup(sent, items[j].Pulses(), Pulses(items[j + 1..]));
    }
  }

  /** How far slot `x` of a cyclic memory of `len` slots is ahead of `pos`. */
  function Ahead(x: int, pos: nat, len: int): (k: nat)
    requires 0 <= x < len && pos <= len
  {
    if x >= pos then x - pos else x + len - pos
  }

  function NextSlot(pos: nat, len: nat): nat {
    if pos + 1 == len then 0 else pos + 1
  }

  /** The j-th item of a transmission; the array is followed by an end mark. */
  ghost function Stream(items: seq<Item>, j: nat): Item {
    if j < |items| then items[j] else END
  }

  /**
   With `played` items played and slot `pos` next: those of the `filled` slots
   ahead that do not hold the item the transmission needs there.
   */
  ghost function Stale(m: seq<Item>, items: seq<Item>, pos: nat, played: nat, filled: int): set<int>
    requires pos <= |m|
  {
    set x | 0 <= x < |m| && Ahead(x, pos, |m|) < filled
            && played + Ahead(x, pos, |m|) <= |items|
            && m[x] != Stream(items, played + Ahead(x, pos, |m|))
  }

  lemma StaleInit(m: seq<Item>, items: seq<Item>)
    requires forall x :: 0 <= x < |m| && x <= |items| ==> m[x] == Stream(items, x)
    ensures Stale(m, items, 0, 0, |m|) == {}
  {
  }

  lemma NextIsFresh(m: seq<Item>, items: seq<Item>, pos: nat, played: nat, filled: nat)
    requires pos < |m| && 0 < filled && played <= |items|
    requires Stale(m, items, pos, played, filled) == {}
    ensures m[pos] == Stream(items, played)
  {
    assert Ahead(pos, pos, |m|) == 0;
    assert pos !in Stale(m, items, pos, played, filled);
  }

  lemma StalePlay(m: seq<Item>, items: seq<Item>, pos: nat, played: nat, filled: nat)
    requires pos < |m| && 0 < filled <= |m|
    requires Stale(m, items, pos, played, filled) == {}
    ensures Stale(m, items, NextSlot(pos, |m|), played + 1, filled - 1) == {}
  {
    assert Ahead(pos, pos, |m|) == 0;
    assert pos !in Stale(m, items, pos, played, filled);
    var after := Stale(m, items, NextSlot(pos, |m|), played + 1, filled - 1);
    forall x | 0 <= x < |m|
      ensures x !in after
    {
      assert x !in Stale(m, items, pos, played, filled);
      assert x != pos ==> Ahead(x, pos, |m|) == Ahead(x, NextSlot(pos, |m|), |m|) + 1;
    }
  }

  /** Filling the `n` slots that follow the filled ones leaves no stale slot. */
  lemma StaleRefill(m: seq<Item>, m': seq<Item>, items: seq<Item>, pos: nat, played: nat, filled: nat,
                    offset: nat, n: nat)
    requires pos < |m| == |m'| && offset + n <= |m| && filled + n <= |m|
    requires Stale(m, items, pos, played, filled) == {}
    requires n > 0 ==> Ahead(offset, pos, |m|) == filled
    requires forall x :: 0 <= x < |m| && !(offset <= x < offset + n) ==> m'[x] == m[x]
    requires forall x :: offset <= x < offset + n && played + filled + (x - offset) <= |items| ==>
               m'[x] == Stream(items, played + filled + (x - offset))
    ensures Stale(m', items, pos, played, filled + n) == {}
  {
    var after := Stale(m', items, pos, played, filled + n);
    forall x | 0 <= x < |m|
      ensures x !in after
    {
      var k := Ahead(x, pos, |m|);
      assert x !in Stale(m, items, pos, played, filled);
      if offset <= x < offset + n {
        assert k == filled + (x - offset) || k == filled + (x - offset) - |m|;
      }
    }
  }

  class Channel {
    const half: nat
    const mem: array<Item>

    // The driver's record of the transmission.
    var items: seq<Item>
    var txData: Option<nat>
    var txLenRem: nat
    var txOffset: nat
    var txSubLen: nat

    // The hardware: play position, items played since the last threshold
    // event, the two interrupt flags, and what has been sent.
    var running: bool
    var pos: nat
    var count: nat
    var thresholdEvent: bool
    var endEvent: bool
    var sent: seq<Pulse>

    // Items played so far, and how many slots ahead of `pos` are filled.
    ghost var played: nat
    ghost var filled: nat

    ghost predicate Shape() {
      0 < half && mem.Length == 2 * half
    }

    /** No transmission is going on and all interrupts have been served. */
    ghost predicate Idle()
      reads this
    {
      Shape() && !running && !endEvent && !thresholdEvent && txData == None
    }

    /** The bookkeeping of an array that does not fit the memory at once. */
    ghost predicate Refilling()
      reads this`items, this`txData, this`txLenRem, this`txOffset, this`txSubLen
      reads this`pos, this`count, this`thresholdEvent, this`played, this`filled
    {
      && txSubLen == half && count < half && count <= pos
      && (pos - count == 0 || pos - count == half)
      && filled == (if thresholdEvent then half else 2 * half) - count
      && txOffset == (if thresholdEvent then half - (pos - count) else pos - count)
      && txLenRem == (if played + filled < |items| then |items| - (played + filled) else 0)
      && txData == Some(|items| - txLenRem)
    }

    /** The bookkeeping of an array that was written in one go. */
    ghost predicate Single()
      reads this`items, this`txData, this`pos, this`count, this`played, this`filled
    {
      && txData == None && |items| < 2 * half
      && pos == played && filled == 2 * half - pos && count < half
    }

    ghost predicate Bookkeeping()
      reads this
    {
      if txData.Some? then Refilling() else running ==> Single()
    }

    ghost predicate Valid()
      reads this, mem
    {
      && Shape() && Bookkeeping()
      && (running ==>
            && !endEvent && pos < 2 * half
            && Stale(mem[..], items, pos, played, filled) == {}
            && played <= |items| && Owes(sent, items, played))
      && (!running ==> txData == None || endEvent)
    }

    constructor (halfLength: nat)
      requires 0 < halfLength
      ensures Valid() && Idle() && fresh(mem) && half == halfLength
    {
      half := halfLength;
      mem := new Item[2 * halfLength];
      items, txData, txLenRem, txOffset, txSubLen := [], None, 0, 0, 0;
      running, pos, count, thresholdEvent, endEvent, sent := false, 0, 0, false, false, [];
      played, filled := 0, 0;
    }

    method FillMemory(src: seq<Item>, from: nat, count: nat, offset: nat)
      requires from + count <= |src| && offset + count <= mem.Length
      modifies mem
      ensures forall x :: 0 <= x < mem.Length ==>
                mem[x] == if offset <= x < offset + count then src[from + (x - offset)] else old(mem[x])
    {
      var i := offset;
      while i < offset + count
        invariant offset <= i <= offset + count
        invariant forall x :: 0 <= x < mem.Length ==>
                    mem[x] == if offset <= x < i then src[from + (x - offset)] else old(mem[x])
      {
        mem[i] := src[from + (i - offset)];
        i := i + 1;
      }
    }

    /** Fills the memory as far as it goes and records what is left to do. */
    method Load(data: seq<Item>)
      requires Shape() && txData == None && data != []
      modifies this`items, this`txData, this`txLenRem, this`txOffset, this`txSubLen, mem
      ensures items == data
      ensures if |data| >= 2 * half
              then txData == Some(2 * half) && txLenRem == |data| - 2 * half && txOffset == 0 && txSubLen == half
              else txData == None
      ensures Stale(mem[..], items, 0, 0, 2 * half) == {}
    {
      items := data;
      if |data| >= 2 * half {
        FillMemory(data, 0, 2 * half, 0);
        txData := Some(2 * half);
        txLenRem := |data| - 2 * half;
        txOffset := 0;
        txSubLen := half;
      } else {
        FillMemory(data, 0, |data|, 0);
        mem[|data|] := END;
      }
      StaleInit(mem[..], data);
    }

    /** Starts the transmission of `data`; an empty array is an invalid argument. */
    method WriteItems(data: seq<Item>) returns (ok: bool)
      requires Valid() && Idle()
      modifies this, mem
      ensures Valid()
      ensures ok <==> data != []
      ensures ok ==> running && items == data && sent == [] && played == 0
      ensures !ok ==> unchanged(this) && unchanged(mem)
    {
      if |data| == 0 {
        return false;
      }
      Load(data);
      running, pos, count, sent := true, 0, 0, [];
      played, filled := 0, 2 * half;
      return true;
    }

    /** Copies the next items, and an end mark once they run out, into the free half. */
    method CopyNext()
      requires Shape() && txData.Some? && txSubLen == half
      requires txOffset == 0 || txOffset == half
      requires txLenRem <= |items| && txData.value == |items| - txLenRem
      modifies this`txData, this`txLenRem, mem
      ensures forall x :: 0 <= x < mem.Length && !(txOffset <= x < txOffset + half) ==> mem[x] == old(mem[x])
      ensures forall x :: txOffset <= x < txOffset + half && old(txData.value) + (x - txOffset) <= |items| ==>
                mem[x] == Stream(items, old(txData.value) + (x - txOffset))
      ensures txLenRem == if old(txLenRem) >= half then old(txLenRem) - half else 0
      ensures txData == Some(|items| - txLenRem)
    {
      var at := txData.value;
      if txLenRem >= txSubLen {
        FillMemory(items, at, txSubLen, txOffset);
        txData := Some(at + txSubLen);
        txLenRem := txLenRem - txSubLen;
      } else if txLenRem == 0 {
        mem[txOffset] := END;
      } else {
        FillMemory(items, at, txLenRem, txOffset);
        mem[txOffset + txLenRem] := END;
        txData := Some(at + txLenRem);
        txLenRem := 0;
      }
    }

    /** Refills the free half; the slots ahead then hold what the transmission needs. */
    method RefillHalf()
      requires Shape() && txData.Some? && txSubLen == half
      requires txOffset == 0 || txOffset == half
      requires txLenRem <= |items| && txData.value == |items| - txLenRem
      requires running ==>
                 && pos < mem.Length && 0 <= filled <= half
                 && Ahead(txOffset, pos, mem.Length) == filled
                 && (txLenRem > 0 ==> txData.value == played + filled)
                 && (txLenRem == 0 ==> |items| <= played + filled)
                 && Stale(mem[..], items, pos, played, filled) == {}
      modifies this`txData, this`txLenRem, mem
      ensures running ==> Stale(mem[..], items, pos, played, filled + half) == {}
      ensures txLenRem == if old(txLenRem) >= half then old(txLenRem) - half else 0
      ensures txData == Some(|items| - txLenRem)
    {
      ghost var m, at := mem[..], txData.value;
      CopyNext();
      if running {
        assert forall x :: txOffset <= x < txOffset + half && played + filled + (x - txOffset) <= |items| ==>
            played + filled + (x - txOffset) == at + (x - txOffset) && mem[..][x] == mem[x];
        StaleRefill(m, mem[..], items, pos, played, filled, txOffset, half);
      }
    }

    /** Refills the half that was left and turns to the other one. */
    method Refill()
      requires Valid() && thresholdEvent && txData.Some?
      modifies this`txData, this`txLenRem, this`txOffset, this`thresholdEvent, this`filled, mem
      ensures !thresholdEvent && txData.Some? && Refilling()
      ensures running ==> Stale(mem[..], items, pos, played, filled) == {}
    {
      thresholdEvent := false;
      RefillHalf();
      txOffset := if txOffset == 0 then txSubLen else 0;
      filled := filled + half;
    }

    /** The interrupt service for a threshold event. */
    method ServeThreshold()
      requires Valid() && thresholdEvent
      modifies this`txData, this`txLenRem, this`txOffset, this`thresholdEvent, this`filled, mem
      ensures Valid() && !thresholdEvent
      ensures txData.Some? == old(txData.Some?)
    {
      if txData.Some? {
        Refill();
      } else {
        thresholdEvent := false;
      }
    }

    /** The interrupt service for the end of a transmission. */
    method ServeEnd()
      requires Valid() && endEvent && !running
      modifies this`txData, this`txLenRem, this`txOffset, this`txSubLen, this`endEvent
      ensures Valid() && !endEvent && txData == None && txLenRem == 0 && txOffset == 0 && txSubLen == 0
    {
      endEvent := false;
      txData, txLenRem, txOffset, txSubLen := None, 0, 0, 0;
    }

    /** The hardware sends the pulses of `item` and stops at a zero duration. */
    method Send(item: Item)
      requires running && !endEvent && played <= |items| && Owes(sent, items, played) && item == Stream(items, played)
      modifies this`running, this`endEvent, this`sent
      ensures if running then !endEvent && played < |items| && Owes(sent, items, played + 1)
              else endEvent && sent == Pulses(items)
    {
      PulseStep(sent, items, played);
      sent := sent + item.Pulses();
      running, endEvent := !item.Stops(), item.Stops();
    }

    /** The hardware moves on and notices when it leaves a half. */
    method Advance()
      requires Shape() && running && pos < 2 * half && filled > 0 && Bookkeeping()
      requires played < |items|
      requires txData.Some? && thresholdEvent ==> count + 1 < half
      modifies this`pos, this`count, this`thresholdEvent, this`played, this`filled
      ensures pos == NextSlot(old(pos), mem.Length) && pos < 2 * half
      ensures played == old(played) + 1 && filled == old(filled) - 1
      ensures Bookkeeping()
    {
      pos := NextSlot(pos, mem.Length);
      count := count + 1;
      played, filled := played + 1, filled - 1;
      if count == half {
        count, thresholdEvent := 0, true;
      }
    }

    /** While items are left, at least one and at most all slots are filled. */
    lemma FilledBounds()
      requires Shape() && running && pos < 2 * half && played <= |items| && Bookkeeping()
      ensures 0 < filled <= 2 * half
    {
    }

    /** The hardware moves past an item it has just sent. */
    method MoveOn()
      requires Shape() && running && !endEvent && pos < 2 * half && Bookkeeping()
      requires played < |items| && Stale(mem[..], items, pos, played, filled) == {}
      requires txData.Some? && thresholdEvent ==> count + 1 < half
      modifies this`pos, this`count, this`thresholdEvent, this`played, this`filled
      ensures Bookkeeping() && pos < 2 * half && played == old(played) + 1
      ensures Stale(mem[..], items, pos, played, filled) == {}
    {
      FilledBounds();
      ghost var m, next, ahead := mem[..], NextSlot(pos, mem.Length), filled - 1;
      StalePlay(m, items, pos, played, filled);
      Advance();
      assert mem[..] == m && pos == next && filled == ahead;
    }

    /** The item that is played next is the one that the transmission needs. */
    method NextItem() returns (item: Item)
      requires Valid() && running
      ensures item == Stream(items, played)
    {
      FilledBounds();
      NextIsFresh(mem[..], items, pos, played, filled);
      return mem[pos];
    }

    /**
     The hardware plays one item. The timing assumption is in the precondition:
     it does not leave a half while the event for the other one is unserved.
     */
    method Play()
      requires Valid() && running
      requires txData.Some? && thresholdEvent ==> count + 1 < half
      modifies this`running, this`pos, this`count, this`thresholdEvent, this`endEvent, this`sent,
               this`played, this`filled
      ensures Valid()
      ensures running ==> played == old(played) + 1
      ensures !running ==> endEvent && sent == Pulses(items)
    {
      var item := NextItem();
      Send(item);
      if running {
        MoveOn();
      }
    }

    /**
     A whole transmission, under any timing that serves each threshold event
     before the hardware needs the refilled half.
     */
    method Transmit(data: seq<Item>) returns (ok: bool)
      requires Valid() && Idle()
      modifies this, mem
      ensures Valid() && Idle()
      ensures ok <==> data != []
      ensures ok ==> sent == Pulses(data)
      ensures !ok ==> sent == old(sent)
    {
      ok := WriteItems(data);
      if ok {
        while running
          invariant Valid() && items == data
          invariant !running ==> endEvent && sent == Pulses(data)
          decreases running, |data| - played, thresholdEvent
        {
          var early: bool := *;
          if thresholdEvent && (early || count + 1 == half) {
            ServeThreshold();
          } else {
            Play();
          }
        }
        ServeEnd();
        if thresholdEvent {
          ServeThreshold();
        }
      }
    }
  }
}
