/**
 The I2C controller's side: it executes its command registers from the first
 one on, until an END or STOP makes it interrupt the driver.
 */
module I2cController {
  import opened Sequences
  import opened I2cCommands

  const REGISTERS: nat := 16

  datatype OpCode = RStart | WriteOp | ReadOp | StopOp | EndOp

  datatype Register = Register(op: OpCode, byteNum: nat, ack: bool) {
    predicate Condition() {
      op == RStart || op == StopOp
    }
  }

  const END: Register := Register(EndOp, 0, false)

  /**
   One execution: what happened on the bus, the bytes left in the transmit
   FIFO, how many bytes were received, and whether the driver is interrupted.
   */
  datatype Ran = Ran(events: seq<Event>, tx: seq<byte>, got: nat, done: bool) {
    function After(before: seq<Event>, n: nat): Ran {
      this.(events := before + events, got := n + got)
    }
  }

  /** A write without enough bytes, or the end of the registers, ends in silence. */
  function Execute(regs: seq<Register>, i: nat, tx: seq<byte>): Ran
    decreases |regs| - i
  {
    if i >= |regs| then Ran([], tx, 0, false)
    else
      var r := regs[i];
      match r.op
      case RStart => Execute(regs, i + 1, tx).After([Begin], 0)
      case StopOp => Ran([End], tx, 0, true)
      case EndOp => Ran([], tx, 0, true)
      case WriteOp =>
        if r.byteNum > |tx| then Ran(Outs(tx, r.ack), [], 0, false)
        else Execute(regs, i + 1, tx[r.byteNum..]).After(Outs(tx[..r.byteNum], r.ack), 0)
      case ReadOp => Execute(regs, i + 1, tx).After(Ins(r.byteNum, r.ack), r.byteNum)
  }

  /** What the controller does with one register, and whether it goes on to the next. */
  datatype Did = Did(events: seq<Event>, tx: seq<byte>, got: nat, goesOn: bool, done: bool)

  function One(r: Register, tx: seq<byte>): Did {
    match r.op
    case RStart => Did([Begin], tx, 0, true, false)
    case StopOp => Did([End], tx, 0, false, true)
    case EndOp => Did([], tx, 0, false, true)
    case WriteOp =>
      if r.byteNum > |tx| then Did(Outs(tx, r.ack), [], 0, false, false)
      else Did(Outs(tx[..r.byteNum], r.ack), tx[r.byteNum..], 0, true, false)
    case ReadOp => Did(Ins(r.byteNum, r.ack), tx, r.byteNum, true, false)
  }

  /** Register by register. */
  lemma ExecuteOne(regs: seq<Register>, i: nat, tx: seq<byte>, before: seq<Event>, n: nat)
    requires i < |regs|
    ensures var d := One(regs[i], tx);
            Execute(regs, i, tx).After(before, n) ==
            if d.goesOn then Execute(regs, i + 1, d.tx).After(before + d.events, n + d.got)
            else Ran(before + d.events, d.tx, n + d.got, d.done)
  {
    var d := One(regs[i], tx);
    if d.goesOn {
      Regroup(before, d.events, Execute(regs, i + 1, d.tx).events);
    }
  }

  /** What a register stands for, given the bytes written to the FIFO for it. */
  function Told(r: Register, tx: seq<byte>): seq<Event> {
    match r.op
    case RStart => [Begin]
    case StopOp => [End]
    case WriteOp => Outs(tx, r.ack)
    case ReadOp => Ins(r.byteNum, r.ack)
    case EndOp => []
  }

  /** What the driver means by the registers from `i` to `to`. */
  function Handed(regs: seq<Register>, i: nat, to: nat, tx: seq<byte>): seq<Event>
    requires i <= to <= |regs|
    decreases |regs| - i
  {
    if i == to then [] else Told(regs[i], tx) + Handed(regs, i + 1, to, tx)
  }

  /** As the driver prepares a burst: conditions, then perhaps one write or read and an END. */
  ghost predicate Prepared(regs: seq<Register>, i: nat, to: nat, tx: seq<byte>) {
    && i < to < |regs|
    && (forall j :: i <= j < to - 1 ==> regs[j].Condition())
    && match regs[to - 1].op
       case RStart | StopOp => tx == []
       case WriteOp => 0 < regs[to - 1].byteNum == |tx| && regs[to].op == EndOp
       case ReadOp => 0 < regs[to - 1].byteNum && tx == [] && regs[to].op == EndOp
       case EndOp => false
  }

  /** No STOP before the last prepared register, and an end behind the last one. */
  ghost predicate Closed(regs: seq<Register>, i: nat, to: nat)
    requires i < to < |regs|
  {
    && (forall j :: i <= j < to - 1 ==> regs[j].op != StopOp)
    && (regs[to - 1].op == StopOp || regs[to].op == EndOp)
  }

  lemma PreparedStep(regs: seq<Register>, i: nat, to: nat, tx: seq<byte>)
    requires Prepared(regs, i + 1, to, tx) && regs[i].Condition()
    ensures Prepared(regs, i, to, tx)
  {
  }

  lemma ClosedStep(regs: seq<Register>, i: nat, to: nat)
    requires i + 1 < to < |regs|
    ensures Closed(regs, i, to) <==> regs[i].op != StopOp && Closed(regs, i + 1, to)
  {
  }

  /** As every register is that the driver has written. */
  predicate Usable(r: Register) {
    r.op == WriteOp || r.op == ReadOp ==> 0 < r.byteNum
  }

  function Received(r: Register): nat {
    if r.op == ReadOp then r.byteNum else 0
  }

  lemma ClosedLast(regs: seq<Register>, i: nat, tx: seq<byte>)
    requires Prepared(regs, i, i + 1, tx) && Closed(regs, i, i + 1)
    ensures Execute(regs, i, tx) == Ran(Told(regs[i], tx), [], Received(regs[i]), true)
  {
    assert regs[i].op != StopOp ==> Execute(regs, i + 1, []) == Ran([], [], 0, true);
    if regs[i].op == WriteOp {
      assert tx[..|tx|] == tx && tx[|tx|..] == [];
    }
  }

  lemma HandedOne(regs: seq<Register>, i: nat, tx: seq<byte>)
    requires i < |regs|
    ensures Handed(regs, i, i + 1, tx) == Told(regs[i], tx)
  {
    assert Handed(regs, i + 1, i + 1, tx) == [];
  }

  /** Start conditions up to register `k` are executed as they are meant. */
  lemma {:induction false} StartsFirst(regs: seq<Register>, i: nat, k: nat, to: nat, tx: seq<byte>)
    requires i <= k <= to <= |regs| && forall j :: i <= j < k ==> regs[j].op == RStart
    ensures Execute(regs, i, tx) == Execute(regs, k, tx).After(Handed(regs, i, k, tx), 0)
    ensures Handed(regs, i, to, tx) == Handed(regs, i, k, tx) + Handed(regs, k, to, tx)
    decreases |regs| - i
  {
    if i < k {
      StartsFirst(regs, i + 1, k, to, tx);
      Regroup([Begin], Handed(regs, i + 1, k, tx), Execute(regs, k, tx).events);
      Regroup([Begin], Handed(regs, i + 1, k, tx), Handed(regs, k, to, tx));
    }
  }

  /** A closed burst is executed as it is meant. */
  lemma ClosedExecutes(regs: seq<Register>, i: nat, to: nat, tx: seq<byte>)
    requires Prepared(regs, i, to, tx) && Closed(regs, i, to)
    ensures Execute(regs, i, tx) == Ran(Handed(regs, i, to, tx), [], Received(regs[to - 1]), true)
  {
    StartsFirst(regs, i, to - 1, to, tx);
    ClosedLast(regs, to - 1, tx);
    HandedOne(regs, to - 1, tx);
  }

  lemma {:induction false} HandedLength(regs: seq<Register>, i: nat, to: nat, tx: seq<byte>)
    requires Prepared(regs, i, to, tx)
    ensures |Handed(regs, i, to, tx)| >= to - i
    decreases |regs| - i
  {
    if i < to - 1 {
      HandedLength(regs, i + 1, to, tx);
    }
  }

  /** Any other burst ends in silence or does too much or too little. */
  lemma {:induction false} OpenFails(regs: seq<Register>, i: nat, to: nat, tx: seq<byte>)
    requires Prepared(regs, i, to, tx) && !Closed(regs, i, to) && Usable(regs[to])
    ensures !Execute(regs, i, tx).done || |Execute(regs, i, tx).events| != |Handed(regs, i, to, tx)|
    decreases |regs| - i
  {
    if i < to - 1 {
      if regs[i].op == StopOp {
        HandedLength(regs, i, to, tx);
      } else {
        OpenFails(regs, i + 1, to, tx);
      }
    } else {
      assert regs[i].op == RStart && Handed(regs, to, to, tx) == [];
      var next := Execute(regs, to, tx);
      assert !next.done || |next.events| > 0;
    }
  }

  /** How many start conditions come first. */
  function Lead(events: seq<Event>): nat {
    if events != [] && events[0] == Begin then 1 + Lead(events[1..]) else 0
  }

  lemma LeadOfBegin(events: seq<Event>)
    ensures Lead([Begin] + events) == 1 + Lead(events)
  {
    assert ([Begin] + events)[1..] == events;
  }

  lemma {:induction false} LeadAtLeast(regs: seq<Register>, i: nat, to: nat, tx: seq<byte>)
    requires Prepared(regs, i, to, tx)
    ensures Lead(Execute(regs, i, tx).events) >= Lead(Handed(regs, i, to, tx))
    decreases |regs| - i
  {
    if regs[i].op == RStart {
      LeadOfBegin(Handed(regs, i + 1, to, tx));
      LeadOfBegin(Execute(regs, i + 1, tx).events);
      if i < to - 1 {
        LeadAtLeast(regs, i + 1, to, tx);
      } else {
        assert Handed(regs, to, to, tx) == [];
      }
    }
  }

  lemma {:induction false} LeadOfStale(regs: seq<Register>, i: nat, k: nat, tx: seq<byte>)
    requires i <= k <= |regs| && forall j :: i <= j < k ==> regs[j].op == RStart
    ensures Lead(Execute(regs, i, tx).events) == k - i + Lead(Execute(regs, k, tx).events)
    decreases |regs| - i
  {
    if i < k {
      LeadOfStale(regs, i + 1, k, tx);
      var rest := Execute(regs, i + 1, tx).events;
      assert Execute(regs, i, tx).events == [Begin] + rest;
      LeadOfBegin(rest);
    }
  }

  /**
   A burst prepared from register `k` on, behind start conditions that were
   executed before, is executed as it is meant exactly when it begins at
   register 0 and is closed.
   */
  lemma BurstExact(regs: seq<Register>, k: nat, to: nat, tx: seq<byte>)
    requires Prepared(regs, k, to, tx) && Usable(regs[to])
    requires forall j :: 0 <= j < k ==> regs[j].op == RStart
    ensures var ran := Execute(regs, 0, tx);
            (ran.done && ran.events == Handed(regs, k, to, tx)) <==> k == 0 && Closed(regs, 0, to)
  {
    if k > 0 {
      LeadAtLeast(regs, k, to, tx);
      LeadOfStale(regs, 0, k, tx);
    } else if Closed(regs, 0, to) {
      ClosedExecutes(regs, 0, to, tx);
    } else {
      OpenFails(regs, 0, to, tx);
    }
  }
}
