/**
 The I2C master. The interrupt service cuts a list of commands into bursts that
 fit the FIFO and the command registers, and the controller executes each burst.
 */
module I2cMaster {
  import opened Sequences
  import opened I2cCommands
  import opened I2cController

  /** The bytes that come in, and what reading an empty receive FIFO yields. */
  datatype Wire = Wire(incoming: nat -> byte, blank: byte)

  /** The driver's record, the controller's registers and FIFOs, and what has happened. */
  datatype State = State(
    cmds: seq<Cmd>,
    idx: nat,
    reading: bool,
    rxCnt: nat,
    regs: seq<Register>,
    tx: seq<byte>,
    rx: seq<byte>,
    got: nat,
    store: Store,
    events: seq<Event>)
  {
    /** All but a read in progress is as it was queued. */
    ghost predicate Shape() {
      && |regs| == REGISTERS && idx + 1 < REGISTERS
      && (reading ==> cmds != [] && cmds[0].Read? && 0 < rxCnt <= FIFO_LEN && cmds[0].left <= MAX_BYTES)
      && forall i :: (if reading then 1 else 0) <= i < |cmds| ==> IsQueued(cmds[i])
    }

    ghost predicate Ready() {
      && |regs| == REGISTERS && idx + 1 < REGISTERS && cmds != []
      && forall i :: 0 <= i < |cmds| ==> IsQueued(cmds[i])
    }
  }

  function Total(cmds: seq<Cmd>): nat {
    if cmds == [] then 0 else cmds[0].Left() + Total(cmds[1..])
  }

  lemma TotalCons(c: Cmd, tail: seq<Cmd>)
    ensures Total([c] + tail) == c.Left() + Total(tail)
    ensures AllEvents([c] + tail) == Events(c) + AllEvents(tail)
  {
    assert ([c] + tail)[1..] == tail;
  }

  // ---- One interrupt ------------------------------------------------------------------

  /** Stores `n` bytes from the receive FIFO. */
  function PutFrom(s: Store, rx: seq<byte>, blank: byte, at: nat, n: nat): Store
    decreases n
  {
    if n == 0 then s
    else
      var v := if rx == [] then blank else rx[0];
      PutFrom(Store(s.memory[at := v], s.taken + 1), if rx == [] then [] else rx[1..], blank, at + 1, n - 1)
  }

  function Window(incoming: nat -> byte, from: nat, n: nat): seq<byte> {
    seq<byte>(n, i requires 0 <= i => incoming(from + i))
  }

  lemma WindowSplit(incoming: nat -> byte, from: nat, n: nat, m: nat)
    ensures Window(incoming, from, n + m) == Window(incoming, from, n) + Window(incoming, from + n, m)
  {
  }

  /** With the right bytes in the FIFO, these are stored. */
  lemma {:induction false} PutFromWindow(s: Store, w: Wire, at: nat, n: nat)
    ensures PutFrom(s, Window(w.incoming, s.taken, n), w.blank, at, n) == Put(s, w.incoming, at, n)
    decreases n
  {
    if n > 0 {
      var rx := Window(w.incoming, s.taken, n);
      assert rx[1..] == Window(w.incoming, s.taken + 1, n - 1);
      PutFromWindow(Store(s.memory[at := rx[0]], s.taken + 1), w, at + 1, n - 1);
    }
  }

  /** Stores the bytes of a read in progress and goes on to what is left to do. */
  function Resume(w: Wire, s: State): State
    requires s.Shape()
  {
    if !s.reading then s
    else
      var c, tail := s.cmds[0], s.cmds[1..];
      var t := s.(store := PutFrom(s.store, s.rx, w.blank, c.at, s.rxCnt), rx := s.rx[Min(s.rxCnt, |s.rx|)..],
                  rxCnt := 0);
      if c.left > 0 then t.(cmds := [c.(at := c.at + s.rxCnt)] + tail, idx := 0)
      else t.(cmds := tail)
  }

  /** Prepares registers up to the first write or read, the last register, or the end of the list. */
  function Prepare(s: State): State
    requires |s.regs| == REGISTERS && s.idx + 1 < REGISTERS && s.cmds != []
    decreases |s.cmds|
  {
    var c, tail := s.cmds[0], s.cmds[1..];
    match c
    case Restart => Proceed(s, Register(RStart, 0, false))
    case Stop => Proceed(s, Register(StopOp, 0, false))
    case Write(data, ackEn) =>
      var n := Min(|data|, FIFO_LEN);
      Handover(s, Register(WriteOp, n, ackEn), data[..n], if n < |data| then [Write(data[n..], ackEn)] + tail else tail)
      .(idx := 0, reading := false)
    case WriteByte(value, ackEn) =>
      Handover(s, Register(WriteOp, 1, ackEn), [value], tail).(idx := 0, reading := false)
    case Read(at, left, ack) =>
      var n := Min(left, FIFO_LEN);
      Handover(s, Register(ReadOp, n, ack), [], [Read(at, left - n, ack)] + tail).(reading := true, rxCnt := n)
  }

  /** A condition takes one register. */
  function Proceed(s: State, r: Register): State
    requires |s.regs| == REGISTERS && s.idx + 1 < REGISTERS && s.cmds != []
    decreases |s.cmds|, 0
  {
    var t := s.(regs := s.regs[s.idx := r], idx := s.idx + 1, cmds := s.cmds[1..]);
    if t.cmds == [] || t.idx >= 15 then t.(idx := 0, reading := false) else Prepare(t)
  }

  /** A write or read takes one register and an END behind it. */
  function Handover(s: State, r: Register, bytes: seq<byte>, rest: seq<Cmd>): State
    requires |s.regs| == REGISTERS && s.idx + 1 < REGISTERS
  {
    s.(regs := s.regs[s.idx := r][s.idx + 1 := END], tx := s.tx + bytes, cmds := rest)
  }

  /** The controller executes its registers. */
  function Transfer(w: Wire, s: State): State {
    var ran := Execute(s.regs, 0, s.tx);
    s.(tx := ran.tx, rx := s.rx + Window(w.incoming, s.got, ran.got), got := s.got + ran.got,
       events := s.events + ran.events)
  }

  // ---- When a list is executed as it is meant ---------------------------------------------

  /** Where a burst begins: what is left, the first register, and the registers that hold an END. */
  datatype Place = Place(cmds: seq<Cmd>, idx: nat, ends: set<nat>)

  function Ends(regs: seq<Register>): set<nat> {
    set i | 0 <= i < |regs| && regs[i].op == EndOp
  }

  /** The burst ends with this condition. */
  predicate LastOfBurst(cmds: seq<Cmd>, i: nat) {
    |cmds| == 1 || i + 1 >= 15
  }

  /** The first register behind the burst's commands. */
  function Behind(cmds: seq<Cmd>, i: nat): nat
    requires cmds != []
  {
    if (cmds[0].Restart? || cmds[0].Stop?) && !LastOfBurst(cmds, i) then Behind(cmds[1..], i + 1) else i + 1
  }

  /**
   A stop condition may only end the burst; a burst that ends with a start
   condition needs an END that an earlier burst has left behind it.
   */
  predicate BurstOk(cmds: seq<Cmd>, i: nat, ends: set<nat>)
    requires cmds != []
  {
    match cmds[0]
    case Restart => if LastOfBurst(cmds, i) then i + 1 in ends else BurstOk(cmds[1..], i + 1, ends)
    case Stop => LastOfBurst(cmds, i)
    case _ => true
  }

  /** Where the next burst begins. Only a read that is done leaves the index alone. */
  function NextPlace(cmds: seq<Cmd>, i: nat, ends: set<nat>): Place
    requires cmds != []
  {
    var tail := cmds[1..];
    match cmds[0]
    case Restart | Stop =>
      if LastOfBurst(cmds, i) then Place(tail, 0, ends - {i}) else NextPlace(tail, i + 1, ends - {i})
    case Write(data, ackEn) =>
      Place(if |data| > FIFO_LEN then [Write(data[FIFO_LEN..], ackEn)] + tail else tail, 0, ends - {i} + {i + 1})
    case WriteByte(_, _) => Place(tail, 0, ends - {i} + {i + 1})
    case Read(at, left, ack) =>
      if left > FIFO_LEN then Place([Read(at + FIFO_LEN, left - FIFO_LEN, ack)] + tail, 0, ends - {i} + {i + 1})
      else Place(tail, i, ends - {i} + {i + 1})
  }

  lemma {:induction false} NextPlaceShrinks(cmds: seq<Cmd>, i: nat, ends: set<nat>)
    requires cmds != [] && forall j :: 0 <= j < |cmds| ==> IsQueued(cmds[j])
    ensures var p := NextPlace(cmds, i, ends);
            && Total(p.cmds) <= Total(cmds)
            && (Total(p.cmds) < Total(cmds) || |p.cmds| < |cmds|)
            && |p.cmds| <= |cmds|
            && forall j :: 0 <= j < |p.cmds| ==> IsQueued(p.cmds[j])
  {
    var c, tail := cmds[0], cmds[1..];
    if (c.Restart? || c.Stop?) && !LastOfBurst(cmds, i) {
      NextPlaceShrinks(tail, i + 1, ends - {i});
    } else if c.Write? && |c.data| > FIFO_LEN {
      TotalCons(Write(c.data[FIFO_LEN..], c.ackEn), tail);
    } else if c.Read? && c.left > FIFO_LEN {
      TotalCons(Read(c.at + FIFO_LEN, c.left - FIFO_LEN, c.ack), tail);
    }
  }

  /**
   Every burst begins at register 0 and ends in order. This is a walk along the
   list: nothing is executed.
   */
  ghost predicate Executable(p: Place)
    requires forall j :: 0 <= j < |p.cmds| ==> IsQueued(p.cmds[j])
    decreases Total(p.cmds), |p.cmds|
  {
    p.cmds == []
    || (&& p.idx == 0 && BurstOk(p.cmds, 0, p.ends)
        && (NextPlaceShrinks(p.cmds, 0, p.ends); Executable(NextPlace(p.cmds, 0, p.ends))))
  }

  /** Fewer bytes are left, or as many bytes and fewer commands. */
  predicate Shrinks(from: seq<Cmd>, to: seq<Cmd>) {
    Total(to) < Total(from) || (Total(to) == Total(from) && |to| < |from|)
  }

  // ---- What preparing a burst does ----------------------------------------------------------

  predicate IsCondition(c: Cmd) {
    c.Restart? || c.Stop?
  }

  function Code(c: Cmd): Register {
    Register(if c.Stop? then StopOp else RStart, 0, false)
  }

  /** The state after one condition, when the burst goes on. */
  function Onward(s: State): State
    requires s.Ready()
  {
    s.(regs := s.regs[s.idx := Code(s.cmds[0])], idx := s.idx + 1, cmds := s.cmds[1..])
  }

  lemma PrepareUnfold(s: State)
    requires s.Ready() && IsCondition(s.cmds[0])
    ensures if LastOfBurst(s.cmds, s.idx) then Prepare(s) == Onward(s).(idx := 0, reading := false)
            else Onward(s).Ready() && Prepare(s) == Prepare(Onward(s))
  {
  }

  lemma {:induction false} PrepareKeeps(s: State)
    requires s.Ready()
    ensures var p, to := Prepare(s), Behind(s.cmds, s.idx);
            && s.idx < to < |p.regs| == REGISTERS
            && (p.rx, p.got, p.store, p.events) == (s.rx, s.got, s.store, s.events)
            && (forall j :: 0 <= j < REGISTERS && (j < s.idx || to < j) ==> p.regs[j] == s.regs[j])
            && (p.regs[to] == s.regs[to] || p.regs[to] == END)
    decreases |s.cmds|
  {
    if IsCondition(s.cmds[0]) {
      PrepareUnfold(s);
      if !LastOfBurst(s.cmds, s.idx) {
        PrepareKeeps(Onward(s));
      }
    }
  }

  lemma {:induction false} PrepareShape(s: State)
    requires s.Ready()
    ensures Prepare(s).Shape() && Shrinks(s.cmds, Prepare(s).cmds)
    decreases |s.cmds|
  {
    if IsCondition(s.cmds[0]) {
      PrepareUnfold(s);
      if !LastOfBurst(s.cmds, s.idx) {
        PrepareShape(Onward(s));
      }
    } else {
      HandoverShape(s);
    }
  }

  lemma HandoverShape(s: State)
    requires s.Ready() && !IsCondition(s.cmds[0])
    ensures Prepare(s).Shape() && Shrinks(s.cmds, Prepare(s).cmds)
  {
    var c, tail, p := s.cmds[0], s.cmds[1..], Prepare(s);
    assert forall i :: 0 <= i < |tail| ==> tail[i] == s.cmds[i + 1];
    if c.Write? && |c.data| > FIFO_LEN {
      TotalCons(Write(c.data[FIFO_LEN..], c.ackEn), tail);
    } else if c.Read? {
      TotalCons(Read(c.at, c.left - Min(c.left, FIFO_LEN), c.ack), tail);
    }
  }

  lemma {:induction false} PrepareUsable(s: State)
    requires s.Ready() && forall r :: r in s.regs ==> Usable(r)
    ensures forall r :: r in Prepare(s).regs ==> Usable(r)
    decreases |s.cmds|
  {
    if IsCondition(s.cmds[0]) {
      PrepareUnfold(s);
      if !LastOfBurst(s.cmds, s.idx) {
        assert forall r :: r in Onward(s).regs ==> r in s.regs || r == Code(s.cmds[0]);
        PrepareUsable(Onward(s));
      }
    } else {
      var p := Prepare(s);
      assert forall r :: r in p.regs ==> r in s.regs || r == p.regs[s.idx] || r == END;
    }
  }

  lemma {:induction false} PreparePrepares(s: State)
    requires s.Ready() && s.tx == []
    ensures Prepared(Prepare(s).regs, s.idx, Behind(s.cmds, s.idx), Prepare(s).tx)
    decreases |s.cmds|
  {
    if IsCondition(s.cmds[0]) {
      PrepareUnfold(s);
      if !LastOfBurst(s.cmds, s.idx) {
        var t := Onward(s);
        PreparePrepares(t);
        PrepareKeeps(t);
        assert Prepare(s).regs[s.idx] == t.regs[s.idx] == Code(s.cmds[0]);
        PreparedStep(Prepare(s).regs, s.idx, Behind(t.cmds, t.idx), Prepare(s).tx);
      }
    } else {
      HandoverPrepares(s);
    }
  }

  lemma HandoverPrepares(s: State)
    requires s.Ready() && s.tx == [] && !IsCondition(s.cmds[0])
    ensures Prepared(Prepare(s).regs, s.idx, s.idx + 1, Prepare(s).tx)
  {
    var p := Prepare(s);
    assert p.regs[s.idx + 1] == END;
    assert p.regs[s.idx].op == if s.cmds[0].Read? then ReadOp else WriteOp;
  }

  lemma HandedStep(regs: seq<Register>, i: nat, to: nat, tx: seq<byte>, c: Cmd, tail: seq<Cmd>, left: seq<Cmd>)
    requires i < to <= |regs| && IsCondition(c) && regs[i] == Code(c)
    requires Handed(regs, i + 1, to, tx) + AllEvents(left) == AllEvents(tail)
    ensures Handed(regs, i, to, tx) + AllEvents(left) == Events(c) + AllEvents(tail)
  {
    assert Told(regs[i], tx) == Events(c);
    Regroup(Events(c), Handed(regs, i + 1, to, tx), AllEvents(left));
  }

  /** A burst that begins with a condition and goes on behind it. */
  lemma PrepareFirst(s: State)
    requires s.Ready() && IsCondition(s.cmds[0]) && !LastOfBurst(s.cmds, s.idx)
    ensures var t := Onward(s);
            && t.Ready() && Prepare(s) == Prepare(t) && |t.cmds| < |s.cmds|
            && Behind(s.cmds, s.idx) == Behind(t.cmds, t.idx)
            && t.idx < Behind(t.cmds, t.idx) < |Prepare(s).regs| == REGISTERS
            && Prepare(s).regs[s.idx] == Code(s.cmds[0])
  {
    PrepareUnfold(s);
    PrepareKeeps(Onward(s));
  }

  lemma LastHands(s: State)
    requires s.Ready() && IsCondition(s.cmds[0]) && LastOfBurst(s.cmds, s.idx)
    ensures |Prepare(s).regs| == REGISTERS && Behind(s.cmds, s.idx) == s.idx + 1
    ensures Handed(Prepare(s).regs, s.idx, s.idx + 1, Prepare(s).tx) + AllEvents(Prepare(s).cmds) == AllEvents(s.cmds)
  {
    PrepareUnfold(s);
    assert Handed(Prepare(s).regs, s.idx + 1, s.idx + 1, Prepare(s).tx) == [];
  }

  lemma HandoverWhole(s: State)
    requires s.Ready() && s.tx == [] && !IsCondition(s.cmds[0])
    ensures |Prepare(s).regs| == REGISTERS && Behind(s.cmds, s.idx) == s.idx + 1
    ensures Handed(Prepare(s).regs, s.idx, s.idx + 1, Prepare(s).tx) + AllEvents(Prepare(s).cmds) == AllEvents(s.cmds)
  {
    PrepareKeeps(s);
    HandoverHands(s);
    HandedOne(Prepare(s).regs, s.idx, Prepare(s).tx);
  }

  /** What the registers are meant to do and what is left are together the list. */
  lemma {:induction false} PrepareHands(s: State)
    requires s.Ready() && s.tx == []
    ensures s.idx <= Behind(s.cmds, s.idx) <= |Prepare(s).regs|
    ensures Handed(Prepare(s).regs, s.idx, Behind(s.cmds, s.idx), Prepare(s).tx) + AllEvents(Prepare(s).cmds)
         == AllEvents(s.cmds)
    decreases |s.cmds|
  {
    var c, p, to := s.cmds[0], Prepare(s), Behind(s.cmds, s.idx);
    if IsCondition(c) && !LastOfBurst(s.cmds, s.idx) {
      PrepareFirst(s);
      PrepareHands(Onward(s));
      HandedStep(p.regs, s.idx, to, p.tx, c, s.cmds[1..], p.cmds);
    } else if IsCondition(c) {
      LastHands(s);
    } else {
      HandoverWhole(s);
    }
  }

  /** A part of a write or read, and the rest of it, are the whole. */
  lemma PartHands(part: seq<Event>, rest: Cmd, whole: Cmd, tail: seq<Cmd>)
    requires part + Events(rest) == Events(whole)
    ensures part + AllEvents([rest] + tail) == Events(whole) + AllEvents(tail)
  {
    TotalCons(rest, tail);
    Regroup(part, Events(rest), AllEvents(tail));
  }

  lemma WriteHands(s: State)
    requires s.Ready() && s.tx == [] && s.cmds[0].Write?
    ensures Told(Prepare(s).regs[s.idx], Prepare(s).tx) + AllEvents(Prepare(s).cmds) == AllEvents(s.cmds)
  {
    var c, p := s.cmds[0], Prepare(s);
    var n := Min(|c.data|, FIFO_LEN);
    assert c.data[..n] + c.data[n..] == c.data;
    OutsSplit(c.data[..n], c.data[n..], c.ackEn);
    assert p.regs[s.idx] == Register(WriteOp, n, c.ackEn) && p.tx == c.data[..n];
    if n < |c.data| {
      PartHands(Outs(c.data[..n], c.ackEn), Write(c.data[n..], c.ackEn), c, s.cmds[1..]);
    } else {
      assert c.data[..n] == c.data;
    }
  }

  lemma ReadHands(s: State)
    requires s.Ready() && s.tx == [] && s.cmds[0].Read?
    ensures Told(Prepare(s).regs[s.idx], Prepare(s).tx) + AllEvents(Prepare(s).cmds) == AllEvents(s.cmds)
  {
    var c, p := s.cmds[0], Prepare(s);
    var n := Min(c.left, FIFO_LEN);
    InsSplit(n, c.left - n, c.ack);
    assert p.regs[s.idx] == Register(ReadOp, n, c.ack);
    PartHands(Ins(n, c.ack), Read(c.at, c.left - n, c.ack), c, s.cmds[1..]);
  }

  lemma HandoverHands(s: State)
    requires s.Ready() && s.tx == [] && !IsCondition(s.cmds[0])
    ensures Told(Prepare(s).regs[s.idx], Prepare(s).tx) + AllEvents(Prepare(s).cmds) == AllEvents(s.cmds)
  {
    var c := s.cmds[0];
    if c.Write? {
      WriteHands(s);
    } else if c.Read? {
      ReadHands(s);
    } else {
      assert Prepare(s).tx == [c.value] && Outs([c.value], c.ackEn) == [Out(c.value, c.ackEn)];
    }
  }

  /** The walk along the list tells which bursts are closed. */
  lemma {:induction false} PrepareCloses(s: State)
    requires s.Ready() && s.tx == []
    ensures s.idx < Behind(s.cmds, s.idx) < |Prepare(s).regs|
    ensures Closed(Prepare(s).regs, s.idx, Behind(s.cmds, s.idx)) <==> BurstOk(s.cmds, s.idx, Ends(s.regs))
    decreases |s.cmds|
  {
    PrepareKeeps(s);
    if IsCondition(s.cmds[0]) {
      PrepareUnfold(s);
      if !LastOfBurst(s.cmds, s.idx) {
        var t := Onward(s);
        PrepareCloses(t);
        PrepareKeeps(t);
        ClosedStep(Prepare(s).regs, s.idx, Behind(s.cmds, s.idx));
        assert Prepare(s).regs[s.idx] == Code(s.cmds[0]);
        BurstOkLocal(t.cmds, t.idx, Ends(s.regs), Ends(t.regs));
      }
    }
  }

  lemma {:induction false} BurstOkLocal(cmds: seq<Cmd>, i: nat, e: set<nat>, f: set<nat>)
    requires cmds != [] && forall j :: j > i ==> (j in e <==> j in f)
    ensures BurstOk(cmds, i, e) <==> BurstOk(cmds, i, f)
  {
    if cmds[0].Restart? && !LastOfBurst(cmds, i) {
      BurstOkLocal(cmds[1..], i + 1, e, f);
    }
  }

  /** Where the list goes on after the prepared burst has been executed. */
  function Onwards(p: State): Place
    requires p.reading ==> p.cmds != [] && p.cmds[0].Read?
  {
    if !p.reading then Place(p.cmds, p.idx, Ends(p.regs))
    else
      var c, tail := p.cmds[0], p.cmds[1..];
      if c.left > 0 then Place([c.(at := c.at + p.rxCnt)] + tail, 0, Ends(p.regs)) else Place(tail, p.idx, Ends(p.regs))
  }

  lemma EndsUpdate(regs: seq<Register>, i: nat, r: Register)
    requires i < |regs|
    ensures Ends(regs[i := r]) == if r.op == EndOp then Ends(regs) + {i} else Ends(regs) - {i}
  {
  }

  lemma {:induction false} PrepareGoesOn(s: State)
    requires s.Ready()
    ensures Prepare(s).Shape() && Onwards(Prepare(s)) == NextPlace(s.cmds, s.idx, Ends(s.regs))
    decreases |s.cmds|
  {
    PrepareShape(s);
    if IsCondition(s.cmds[0]) {
      PrepareUnfold(s);
      EndsUpdate(s.regs, s.idx, Code(s.cmds[0]));
      if !LastOfBurst(s.cmds, s.idx) {
        PrepareGoesOn(Onward(s));
      }
    } else {
      HandoverGoesOn(s);
    }
  }

  lemma HandoverEnds(s: State)
    requires s.Ready() && !IsCondition(s.cmds[0])
    ensures Ends(Prepare(s).regs) == Ends(s.regs) - {s.idx} + {s.idx + 1}
  {
    var p := Prepare(s);
    var r := p.regs[s.idx];
    EndsUpdate(s.regs, s.idx, r);
    EndsUpdate(s.regs[s.idx := r], s.idx + 1, END);
    assert p.regs == s.regs[s.idx := r][s.idx + 1 := END];
  }

  lemma HandoverGoesOn(s: State)
    requires s.Ready() && !IsCondition(s.cmds[0])
    ensures Prepare(s).Shape() && Onwards(Prepare(s)) == NextPlace(s.cmds, s.idx, Ends(s.regs))
  {
    HandoverShape(s);
    HandoverEnds(s);
    if s.cmds[0].Read? {
      ReadPrepared(s);
      ReadGoesOn(s.cmds, s.idx, Ends(s.regs), Prepare(s));
    } else {
      WriteGoesOn(s);
    }
  }

  lemma WriteGoesOn(s: State)
    requires s.Ready() && (s.cmds[0].Write? || s.cmds[0].WriteByte?)
    ensures var p, q := Prepare(s), NextPlace(s.cmds, s.idx, Ends(s.regs));
            && !p.reading && p.idx == 0 == q.idx && p.cmds == q.cmds
            && q.ends == Ends(s.regs) - {s.idx} + {s.idx + 1}
  {
  }

  lemma ReadPrepared(s: State)
    requires s.Ready() && s.cmds[0].Read?
    ensures var p, c, n := Prepare(s), s.cmds[0], Min(s.cmds[0].left, FIFO_LEN);
            && p.reading && p.rxCnt == n && p.idx == s.idx
            && p.cmds == [Read(c.at, c.left - n, c.ack)] + s.cmds[1..]
  {
  }

  lemma ReadGoesOn(cmds: seq<Cmd>, i: nat, ends: set<nat>, p: State)
    requires cmds != [] && cmds[0].Read? && p.reading && p.rxCnt == Min(cmds[0].left, FIFO_LEN) && p.idx == i
    requires p.cmds == [Read(cmds[0].at, cmds[0].left - p.rxCnt, cmds[0].ack)] + cmds[1..]
    ensures Onwards(p).cmds == NextPlace(cmds, i, ends).cmds && Onwards(p).idx == NextPlace(cmds, i, ends).idx
    ensures NextPlace(cmds, i, ends).ends == ends - {i} + {i + 1}
  {
    assert p.cmds[1..] == cmds[1..];
  }

  /** The commands with what of a read is on its way. */
  function Outstanding(s: State): seq<Cmd>
    requires s.reading ==> s.cmds != [] && s.cmds[0].Read?
  {
    if s.reading then [s.cmds[0].(left := s.cmds[0].left + s.rxCnt)] + s.cmds[1..] else s.cmds
  }

  /** Preparing a burst leaves what is to be stored, and tells what is to be received. */
  lemma {:induction false} PrepareReads(s: State, store: Store, incoming: nat -> byte)
    requires s.Ready()
    ensures var p, to := Prepare(s), Behind(s.cmds, s.idx);
            && p.Shape() && s.idx < to <= |p.regs|
            && AllStored(Outstanding(p), store, incoming) == AllStored(s.cmds, store, incoming)
            && Received(p.regs[to - 1]) == (if p.reading then p.rxCnt else 0)
            && (p.idx == 0 || (p.reading && p.idx == to - 1))
    decreases |s.cmds|
  {
    PrepareShape(s);
    PrepareKeeps(s);
    if IsCondition(s.cmds[0]) {
      PrepareUnfold(s);
      if !LastOfBurst(s.cmds, s.idx) {
        PrepareReads(Onward(s), store, incoming);
      }
    } else {
      HandoverReads(s, store, incoming);
    }
  }

  lemma HandoverReads(s: State, store: Store, incoming: nat -> byte)
    requires s.Ready() && !IsCondition(s.cmds[0])
    ensures var p := Prepare(s);
            && p.Shape()
            && AllStored(Outstanding(p), store, incoming) == AllStored(s.cmds, store, incoming)
            && Received(p.regs[s.idx]) == (if p.reading then p.rxCnt else 0)
            && p.idx == if p.reading then s.idx else 0
  {
    HandoverShape(s);
    var c, tail, p := s.cmds[0], s.cmds[1..], Prepare(s);
    if c.Read? {
      assert Outstanding(p) == [c] + tail == s.cmds;
    } else if p.cmds != tail {
      assert p.cmds[1..] == tail;
    }
  }

  // ---- The whole execution --------------------------------------------------------------------

  lemma ResumeShape(w: Wire, s: State)
    requires s.Shape()
    ensures var d := Resume(w, s);
            && (d.cmds != [] ==> d.Ready())
            && AllEvents(d.cmds) == AllEvents(s.cmds) && Total(d.cmds) == Total(s.cmds) && |d.cmds| <= |s.cmds|
            && (d.regs, d.tx, d.events) == (s.regs, s.tx, s.events)
            && Onwards(s) == Place(d.cmds, d.idx, Ends(d.regs)) && d.idx <= s.idx
  {
    if s.reading {
      ResumeList(s.cmds, s.cmds[0].at + s.rxCnt);
    }
  }

  /** Where a read goes on, the list means the same; a read that is done means nothing. */
  lemma ResumeList(cmds: seq<Cmd>, at: nat)
    requires cmds != [] && cmds[0].Read?
    requires forall i :: 1 <= i < |cmds| ==> IsQueued(cmds[i])
    ensures var rest := if cmds[0].left > 0 then [cmds[0].(at := at)] + cmds[1..] else cmds[1..];
            && AllEvents(rest) == AllEvents(cmds) && Total(rest) == Total(cmds)
            && forall i :: (if cmds[0].left > 0 then 1 else 0) <= i < |rest| ==> IsQueued(rest[i])
  {
    var c, tail := cmds[0], cmds[1..];
    assert forall i :: 0 <= i < |tail| ==> tail[i] == cmds[i + 1];
    TotalCons(c, tail);
    TotalCons(c.(at := at), tail);
    assert cmds == [c] + tail;
  }

  /** The list is executed to its end, or the controller falls silent. */
  function Finish(w: Wire, s: State): (State, bool)
    requires s.Shape()
    decreases Total(s.cmds), |s.cmds|
  {
    ResumeShape(w, s);
    var d := Resume(w, s);
    if d.cmds == [] then (d, true)
    else
      PrepareShape(d);
      var p := Prepare(d);
      if Execute(p.regs, 0, p.tx).done then Finish(w, Transfer(w, p)) else (Transfer(w, p), false)
  }

  /**
   At every interrupt, what has been executed and what is left on the list are
   together `all`, so the controller has done just what the driver takes as done.
   */
  ghost predicate InStep(w: Wire, s: State, all: seq<Event>)
    requires s.Shape()
    decreases Total(s.cmds), |s.cmds|
  {
    && s.events + AllEvents(s.cmds) == all
    && (ResumeShape(w, s);
        var d := Resume(w, s);
        || d.cmds == []
        || (PrepareShape(d);
            var p := Prepare(d);
            Execute(p.regs, 0, p.tx).done && InStep(w, Transfer(w, p), all)))
  }

  /** The FIFOs hold what is on its way, and only start conditions stand before the index. */
  ghost predicate Sound(w: Wire, s: State) {
    && s.Shape() && s.tx == []
    && (forall j :: 0 <= j < s.idx ==> s.regs[j].op == RStart)
    && (forall r :: r in s.regs ==> Usable(r))
    && s.rx == Window(w.incoming, s.store.taken, if s.reading then s.rxCnt else 0)
    && s.got == s.store.taken + |s.rx|
  }

  lemma ResumeStores(w: Wire, s: State)
    requires Sound(w, s)
    ensures var d := Resume(w, s);
            && d.rx == [] && d.got == d.store.taken
            && AllStored(d.cmds, d.store, w.incoming) == AllStored(Outstanding(s), s.store, w.incoming)
  {
    if s.reading {
      var c, tail, n := s.cmds[0], s.cmds[1..], s.rxCnt;
      PutFromWindow(s.store, w, c.at, n);
      PutLands(s.store, w.incoming, c.at, n);
      PutSplit(s.store, w.incoming, c.at, n, c.left);
      assert Outstanding(s)[1..] == tail && ([c.(at := c.at + n)] + tail)[1..] == tail;
      assert n + c.left == c.left + n;
    }
  }

  /** After preparing a burst: what the execution of its registers is compared with. */
  ghost predicate Burst(w: Wire, d: State, p: State, to: nat) {
    && Sound(w, d.(reading := false)) && d.Ready() && p == Prepare(d) && to == Behind(d.cmds, d.idx)
  }

  lemma BurstFacts(w: Wire, d: State, p: State, to: nat)
    requires Burst(w, d, p, to)
    ensures d.idx < to < |p.regs| && p.Shape()
    ensures Prepared(p.regs, d.idx, to, p.tx) && Usable(p.regs[to])
    ensures forall j :: 0 <= j < d.idx ==> p.regs[j].op == RStart
    ensures Handed(p.regs, d.idx, to, p.tx) + AllEvents(p.cmds) == AllEvents(d.cmds)
    ensures Closed(p.regs, d.idx, to) <==> BurstOk(d.cmds, d.idx, Ends(d.regs))
    ensures Onwards(p) == NextPlace(d.cmds, d.idx, Ends(d.regs))
    ensures (p.rx, p.got, p.store, p.events) == (d.rx, d.got, d.store, d.events)
  {
    PrepareKeeps(d);
    PrepareShape(d);
    PreparePrepares(d);
    PrepareHands(d);
    PrepareCloses(d);
    PrepareGoesOn(d);
    assert d.regs[to] in d.regs;
  }

  /** A closed burst from register 0 on is executed as it is meant. */
  lemma BurstExecutes(w: Wire, d: State, p: State, to: nat)
    requires Burst(w, d, p, to) && d.idx == 0 && BurstOk(d.cmds, 0, Ends(d.regs))
    ensures 0 < to < |p.regs| == REGISTERS && p.idx < REGISTERS
    ensures Execute(p.regs, 0, p.tx) == Ran(Handed(p.regs, 0, to, p.tx), [], if p.reading then p.rxCnt else 0, true)
    ensures forall j :: 0 <= j < p.idx ==> p.regs[j].op == RStart
  {
    BurstFacts(w, d, p, to);
    PrepareReads(d, d.store, w.incoming);
    ClosedExecutes(p.regs, 0, to, p.tx);
  }

  /** It leaves everything in order. */
  lemma BurstSound(w: Wire, d: State, p: State, to: nat)
    requires Burst(w, d, p, to) && d.idx == 0 && BurstOk(d.cmds, 0, Ends(d.regs))
    ensures Sound(w, Transfer(w, p))
  {
    BurstExecutes(w, d, p, to);
    PrepareShape(d);
    PrepareKeeps(d);
    PrepareUsable(d);
    var t := Transfer(w, p);
    assert d.rx == [];
    assert t.rx == Window(w.incoming, t.store.taken, if t.reading then t.rxCnt else 0);
  }

  lemma ResumeSound(w: Wire, s: State)
    requires Sound(w, s) && Resume(w, s).cmds != []
    ensures var d := Resume(w, s); Burst(w, d, Prepare(d), Behind(d.cmds, d.idx))
  {
    ResumeShape(w, s);
    ResumeStores(w, s);
  }

  lemma OneBurst(w: Wire, s: State, d: State, p: State)
    requires Sound(w, s) && d == Resume(w, s) && d.cmds != [] && d.Ready() && p == Prepare(d)
    requires Onwards(s).idx == 0 && BurstOk(Onwards(s).cmds, 0, Onwards(s).ends)
    ensures p.Shape() && Execute(p.regs, 0, p.tx).done && Sound(w, Transfer(w, p))
    ensures Transfer(w, p).events + AllEvents(p.cmds) == s.events + AllEvents(s.cmds)
    ensures Onwards(p) == NextPlace(Onwards(s).cmds, 0, Onwards(s).ends)
  {
    ResumeShape(w, s);
    ResumeSound(w, s);
    var to := Behind(d.cmds, d.idx);
    BurstFacts(w, d, p, to);
    BurstExecutes(w, d, p, to);
    BurstSound(w, d, p, to);
    Regroup(s.events, Handed(p.regs, 0, to, p.tx), AllEvents(p.cmds));
  }

  /** From one interrupt to the next, when the burst is in order. */
  lemma NextInterrupt(w: Wire, s: State) returns (t: State)
    requires Sound(w, s) && Resume(w, s).cmds != []
    requires Onwards(s).idx == 0 && BurstOk(Onwards(s).cmds, 0, Onwards(s).ends)
    ensures Resume(w, s).Ready() && t == Transfer(w, Prepare(Resume(w, s)))
    ensures Sound(w, t) && Shrinks(s.cmds, t.cmds)
    ensures t.events + AllEvents(t.cmds) == s.events + AllEvents(s.cmds)
    ensures Onwards(t) == NextPlace(Onwards(s).cmds, 0, Onwards(s).ends)
    ensures AllStored(Outstanding(t), t.store, w.incoming) == AllStored(Outstanding(s), s.store, w.incoming)
    ensures Finish(w, s) == Finish(w, t)
    ensures InStep(w, s, s.events + AllEvents(s.cmds)) <==> InStep(w, t, s.events + AllEvents(s.cmds))
  {
    ResumeShape(w, s);
    var d := Resume(w, s);
    PrepareShape(d);
    var p := Prepare(d);
    OneBurst(w, s, d, p);
    BurstStores(w, s, d, p);
    t := Transfer(w, p);
    TransferKeeps(w, p);
    Unfold(w, s, d, p);
  }

  lemma TransferKeeps(w: Wire, p: State)
    requires p.Shape()
    ensures var t := Transfer(w, p);
            t.Shape() && t.store == p.store && Onwards(t) == Onwards(p) && Outstanding(t) == Outstanding(p)
  {
  }

  lemma Unfold(w: Wire, s: State, d: State, p: State)
    requires s.Shape() && d == Resume(w, s) && d.cmds != [] && d.Ready() && p == Prepare(d) && p.Shape()
    requires Execute(p.regs, 0, p.tx).done
    ensures Shrinks(s.cmds, p.cmds)
    ensures Finish(w, s) == Finish(w, Transfer(w, p))
    ensures forall all :: s.events + AllEvents(s.cmds) == all ==>
              (InStep(w, s, all) <==> InStep(w, Transfer(w, p), all))
  {
    ResumeShape(w, s);
    PrepareShape(d);
  }

  lemma BurstStores(w: Wire, s: State, d: State, p: State)
    requires Sound(w, s) && d == Resume(w, s) && d.cmds != [] && d.Ready() && p == Prepare(d)
    ensures p.Shape()
    ensures AllStored(Outstanding(p), p.store, w.incoming) == AllStored(Outstanding(s), s.store, w.incoming)
  {
    ResumeStores(w, s);
    PrepareKeeps(d);
    PrepareReads(d, d.store, w.incoming);
  }

  /** When the burst is not in order, the record is wrong after it. */
  lemma OutOfStep(w: Wire, s: State, d: State, p: State)
    requires Sound(w, s) && d == Resume(w, s) && d.cmds != [] && d.Ready() && p == Prepare(d)
    requires !(Onwards(s).idx == 0 && BurstOk(Onwards(s).cmds, 0, Onwards(s).ends))
    ensures p.Shape()
    ensures Execute(p.regs, 0, p.tx).done ==>
              Transfer(w, p).events + AllEvents(p.cmds) != s.events + AllEvents(s.cmds)
  {
    ResumeShape(w, s);
    ResumeStores(w, s);
    var to := Behind(d.cmds, d.idx);
    BurstFacts(w, d, p, to);
    BurstExact(p.regs, d.idx, to, p.tx);
    var done, handed := Execute(p.regs, 0, p.tx).events, Handed(p.regs, d.idx, to, p.tx);
    Regroup(s.events, handed, AllEvents(p.cmds));
    Cancel(s.events, done, handed, AllEvents(p.cmds));
  }

  lemma Cancel<T>(a: seq<T>, b: seq<T>, c: seq<T>, d: seq<T>)
    ensures (a + b) + d == (a + c) + d ==> b == c
  {
    if (a + b) + d == (a + c) + d {
      assert |b| == |c|;
      assert b == ((a + b) + d)[|a|..|a| + |b|] && c == ((a + c) + d)[|a|..|a| + |c|];
    }
  }

  /**
   Driver and controller are in step at every interrupt exactly when the walk
   along the list finds every burst in order.
   */
  lemma {:induction false} ListExact(w: Wire, s: State)
    requires Sound(w, s)
    ensures forall j :: 0 <= j < |Onwards(s).cmds| ==> IsQueued(Onwards(s).cmds[j])
    ensures InStep(w, s, s.events + AllEvents(s.cmds)) <==> Executable(Onwards(s))
    decreases Total(s.cmds), |s.cmds|
  {
    ResumeShape(w, s);
    var d := Resume(w, s);
    if d.cmds != [] {
      if d.idx == 0 && BurstOk(d.cmds, 0, Ends(d.regs)) {
        var t := NextInterrupt(w, s);
        ListExact(w, t);
      } else {
        PrepareShape(d);
        OutOfStep(w, s, d, Prepare(d));
      }
    }
  }

  /** An executable list is executed to its end: all events in order, all bytes stored. */
  lemma {:induction false} ListDone(w: Wire, s: State)
    requires Sound(w, s)
    requires forall j :: 0 <= j < |Onwards(s).cmds| ==> IsQueued(Onwards(s).cmds[j])
    requires Executable(Onwards(s))
    ensures Finish(w, s).1 && Finish(w, s).0.events == s.events + AllEvents(s.cmds)
    ensures Finish(w, s).0.store == AllStored(Outstanding(s), s.store, w.incoming)
    decreases Total(s.cmds), |s.cmds|
  {
    ResumeShape(w, s);
    var d := Resume(w, s);
    if d.cmds != [] {
      NextPlaceShrinks(d.cmds, 0, Ends(d.regs));
      var t := NextInterrupt(w, s);
      ListDone(w, t);
    } else {
      ResumeStores(w, s);
    }
  }

  /** The registers are as the driver writes them, whatever is executed. */
  lemma {:induction false} FinishUsable(w: Wire, s: State)
    requires s.Shape() && forall r :: r in s.regs ==> Usable(r)
    ensures forall r :: r in Finish(w, s).0.regs ==> Usable(r)
    decreases Total(s.cmds), |s.cmds|
  {
    ResumeShape(w, s);
    var d := Resume(w, s);
    if d.cmds != [] {
      PrepareShape(d);
      PrepareUsable(d);
      var p := Prepare(d);
      if Execute(p.regs, 0, p.tx).done {
        FinishUsable(w, Transfer(w, p));
      }
    }
  }

  // ---- Lists that work, and lists that do not ---------------------------------------------------

  /**
   Up to 14 start conditions, then a write or read, and so on, with a stop
   condition at the very end. A read that fits the FIFO may stand behind a start
   condition only at the end. `i` counts the start conditions just before.
   */
  predicate Usual(cmds: seq<Cmd>, i: nat) {
    if cmds == [] then i == 0
    else
      match cmds[0]
      case Restart => i < 14 && Usual(cmds[1..], i + 1)
      case Stop => |cmds| == 1
      case Write(_, _) => Usual(cmds[1..], 0)
      case WriteByte(_, _) => Usual(cmds[1..], 0)
      case Read(_, left, _) => (i == 0 || left > FIFO_LEN || |cmds| == 1) && Usual(cmds[1..], 0)
  }

  lemma {:induction false} UsualBurst(cmds: seq<Cmd>, i: nat, ends: set<nat>)
    requires cmds != [] && i <= 14 && Usual(cmds, i)
    ensures BurstOk(cmds, i, ends)
    ensures var p := NextPlace(cmds, i, ends);
            Usual(p.cmds, 0) && (p.cmds == [] || p.idx == 0)
  {
    var tail := cmds[1..];
    match cmds[0] {
      case Restart => UsualBurst(tail, i + 1, ends); UsualBurst(tail, i + 1, ends - {i});
      case Write(data, ackEn) => assert ([Write(data[Min(FIFO_LEN, |data|)..], ackEn)] + tail)[1..] == tail;
      case Read(at, left, ack) =>
        assert left > FIFO_LEN ==> ([Read(at + FIFO_LEN, left - FIFO_LEN, ack)] + tail)[1..] == tail;
      case _ =>
    }
  }

  /** Such lists are executed as they are meant, whatever the registers held before. */
  lemma {:induction false} UsualIsExecutable(cmds: seq<Cmd>, ends: set<nat>)
    requires (forall j :: 0 <= j < |cmds| ==> IsQueued(cmds[j])) && Usual(cmds, 0)
    ensures Executable(Place(cmds, 0, ends))
    decreases Total(cmds), |cmds|
  {
    if cmds != [] {
      UsualBurst(cmds, 0, ends);
      NextPlaceShrinks(cmds, 0, ends);
      var p := NextPlace(cmds, 0, ends);
      if p.cmds != [] {
        UsualIsExecutable(p.cmds, p.ends);
      }
    }
  }

  /** Before the first interrupt. */
  ghost predicate Fresh(w: Wire, s: State, list: seq<Cmd>) {
    Sound(w, s) && s.cmds == list && s.idx == 0 && !s.reading
  }

  lemma EventsOfThree(at: nat, ack: bool)
    ensures AllEvents([Restart, Read(at, 1, ack), Stop]) == [Begin, In(ack), End]
  {
    assert [Restart, Read(at, 1, ack), Stop][1..] == [Read(at, 1, ack), Stop];
    assert [Read(at, 1, ack), Stop][1..] == [Stop];
    assert AllEvents([Stop]) == [End] && Ins(1, ack) == [In(ack)];
    assert AllEvents([Read(at, 1, ack), Stop]) == [In(ack)] + [End];
  }

  lemma StartThenRead(w: Wire, s: State, at: nat, ack: bool)
    requires Fresh(w, s, [Restart, Read(at, 1, ack), Stop])
    ensures var p := Prepare(s);
            && p.cmds == [Read(at, 0, ack), Stop] && p.idx == 1 && p.reading && p.rxCnt == 1 && p.events == s.events
            && p.tx == [] && |p.regs| == REGISTERS
            && p.regs[0].op == RStart && p.regs[1] == Register(ReadOp, 1, ack) && p.regs[2] == END
  {
    PrepareUnfold(s);
    var q := Onward(s);
    assert q.cmds == [Read(at, 1, ack), Stop] && q.cmds[1..] == [Stop];
    assert [Read(at, 0, ack)] + [Stop] == [Read(at, 0, ack), Stop];
  }

  /**
   A short read behind a start condition leaves the index at 1, so the stop
   condition is prepared behind the old start condition, which is repeated.
   */
  lemma StartIsRepeated(w: Wire, s: State, at: nat, ack: bool)
    requires Fresh(w, s, [Restart, Read(at, 1, ack), Stop])
    ensures AllEvents(s.cmds) == [Begin, In(ack), End]
    ensures var (f, done) := Finish(w, s); done && f.events == s.events + [Begin, In(ack), Begin, End]
  {
    EventsOfThree(at, ack);
    StartThenRead(w, s, at, ack);
    PrepareShape(s);
    var p := Prepare(s);
    assert Ins(1, ack) == [In(ack)];
    assert Execute(p.regs, 2, []) == Ran([], [], 0, true);
    assert Execute(p.regs, 1, []) == Ran([In(ack)], [], 1, true);
    assert Execute(p.regs, 0, []) == Ran([Begin, In(ack)], [], 1, true);
    var t := Transfer(w, p);
    StopAfterRead(w, t, at, ack);
    assert (s.events + [Begin, In(ack)]) + [Begin, End] == s.events + [Begin, In(ack), Begin, End];
  }

  lemma StopAfterRead(w: Wire, t: State, at: nat, ack: bool)
    requires t.Shape() && t.reading && t.cmds == [Read(at, 0, ack), Stop] && t.idx == 1 && t.tx == []
    requires t.regs[0].op == RStart
    ensures var (f, done) := Finish(w, t); done && f.events == t.events + [Begin, End]
  {
    ResumeShape(w, t);
    var d := Resume(w, t);
    assert d.cmds == [Stop] && [Stop][1..] == [];
    PrepareShape(d);
    PrepareUnfold(d);
    var p := Prepare(d);
    assert Execute(p.regs, 1, []) == Ran([End], [], 0, true);
    assert Execute(p.regs, 0, []) == Ran([Begin, End], [], 0, true);
    var u := Transfer(w, p);
    assert u.cmds == [] && !u.reading && Resume(w, u) == u;
  }

  // ---- Two errors can cancel out ------------------------------------------------------------

  function Starts(n: nat): seq<Cmd> {
    seq(n, _ => Restart)
  }

  function Begins(n: nat): seq<Event> {
    seq(n, _ => Begin)
  }

  lemma {:induction false} EventsOfStarts(n: nat)
    ensures AllEvents(Starts(n)) == Begins(n)
    decreases n
  {
    if n > 0 {
      assert Starts(n)[1..] == Starts(n - 1);
      EventsOfStarts(n - 1);
      assert [Begin] + Begins(n - 1) == Begins(n);
    }
  }

  lemma {:induction false} ExecuteStarts(regs: seq<Register>, i: nat, n: nat)
    requires i + n < |regs| && regs[i + n].op == EndOp && forall j :: i <= j < i + n ==> regs[j].op == RStart
    ensures Execute(regs, i, []) == Ran(Begins(n), [], 0, true)
    decreases n
  {
    if n > 0 {
      ExecuteStarts(regs, i + 1, n - 1);
      assert [Begin] + Begins(n - 1) == Begins(n);
    }
  }

  /** Start conditions fill the registers up to number 14. */
  lemma {:induction false} PrepareStarts(s: State, m: nat)
    requires s.Ready() && s.cmds == Starts(m) && m + s.idx >= 15
    ensures var p := Prepare(s);
            && p.cmds == Starts(m + s.idx - 15) && p.idx == 0 && !p.reading && p.tx == s.tx && p.events == s.events
            && |p.regs| == REGISTERS
            && forall j :: 0 <= j < REGISTERS ==> p.regs[j] == if s.idx <= j < 15 then Code(Restart) else s.regs[j]
    decreases m
  {
    PrepareUnfold(s);
    assert Starts(m)[1..] == Starts(m - 1);
    if !LastOfBurst(s.cmds, s.idx) {
      PrepareStarts(Onward(s), m - 1);
    }
  }

  lemma StopThenStarts(w: Wire, s: State)
    requires Fresh(w, s, [Stop] + Starts(15)) && s.regs[15].op == EndOp
    ensures s.Ready()
    ensures var p := Prepare(s);
            && p.cmds == Starts(1) && p.idx == 0 && !p.reading && p.tx == [] && p.events == s.events
            && |p.regs| == REGISTERS && p.regs[0].op == StopOp && p.regs[15].op == EndOp
            && forall j :: 1 <= j < 15 ==> p.regs[j].op == RStart
  {
    assert s.cmds[1..] == Starts(15);
    PrepareUnfold(s);
    PrepareStarts(Onward(s), 15);
  }

  lemma LastStart(w: Wire, t: State)
    requires t.Shape() && t.cmds == Starts(1) && t.idx == 0 && !t.reading && t.tx == []
    requires t.regs[15].op == EndOp && forall j :: 1 <= j < 15 ==> t.regs[j].op == RStart
    ensures var (f, done) := Finish(w, t); done && f.events == t.events + Begins(15)
  {
    PrepareShape(t);
    PrepareUnfold(t);
    var p := Prepare(t);
    assert forall j :: 0 <= j < 15 ==> p.regs[j].op == RStart;
    ExecuteStarts(p.regs, 0, 15);
    var u := Transfer(w, p);
    assert u.cmds == [] && Resume(w, u) == u;
  }

  /**
   This list is not executable: its stop condition cuts the first burst short.
   But the 14 start conditions behind it are made up for by the second burst,
   which runs on into them. So the events at the end alone do not tell whether
   driver and controller were in step.
   */
  lemma TwoErrorsCancel(w: Wire, s: State)
    requires Fresh(w, s, [Stop] + Starts(15)) && s.regs[15].op == EndOp
    ensures !BurstOk(s.cmds, 0, Ends(s.regs))
    ensures var (f, done) := Finish(w, s); done && f.events == s.events + AllEvents(s.cmds)
  {
    StopThenStarts(w, s);
    PrepareShape(s);
    var p := Prepare(s);
    assert Execute(p.regs, 0, []) == Ran([End], [], 0, true);
    var t := Transfer(w, p);
    LastStart(w, t);
    assert s.cmds[1..] == Starts(15);
    EventsOfStarts(15);
    Regroup(s.events, [End], Begins(15));
  }

  // ---- The functions of the source, in place ------------------------------------------------

  datatype Status = Reading | Writing | Idle

  class Master {
    const wire: Wire
    const command: array<Register>

    // The driver's record of the execution.
    var cmds: seq<Cmd>
    var cmdIdx: nat
    var status: Status
    var rxCnt: nat
    var txFifoRemain: nat
    var rxFifoRemain: nat

    // The controller's FIFOs, the bytes it has received and the events on the
    // bus; the caller's memory.
    var tx: seq<byte>
    var rx: seq<byte>
    var got: nat
    var events: seq<Event>
    var store: Store

    ghost function Now(): State
      reads this, command
    {
      State(cmds, cmdIdx, status == Reading, rxCnt, command[..], tx, rx, got, store, events)
    }

    ghost predicate Valid()
      reads this, command
    {
      command.Length == REGISTERS && txFifoRemain == FIFO_LEN && rxFifoRemain == FIFO_LEN && Now().Shape()
    }

    ghost predicate Ready()
      reads this, command
    {
      command.Length == REGISTERS && txFifoRemain == FIFO_LEN && rxFifoRemain == FIFO_LEN && Now().Ready()
    }

    /** Moves received bytes to memory from `at` on. */
    method Fetch(at: nat)
      modifies this`rxCnt, this`store, this`rx
      ensures store == old(PutFrom(store, rx, wire.blank, at, rxCnt))
      ensures rx == old(rx[Min(rxCnt, |rx|)..]) && rxCnt == 0
    {
      var next := at;
      ghost var n := 0;
      while rxCnt > 0
        invariant n + rxCnt == old(rxCnt) && rx == old(rx)[Min(n, |old(rx)|)..]
        invariant PutFrom(store, rx, wire.blank, next, rxCnt) == old(PutFrom(store, rx, wire.blank, at, rxCnt))
        decreases rxCnt
      {
        var v := if rx == [] then wire.blank else rx[0];
        rx := if rx == [] then [] else rx[1..];
        store := Store(store.memory[next := v], store.taken + 1);
        next := next + 1;
        rxCnt := rxCnt - 1;
        n := n + 1;
      }
    }

    /** Fetches the bytes that were asked for and goes on to what is left to do. */
    method Drain()
      requires Valid() && status == Reading
      modifies this`cmds, this`rxCnt, this`store, this`rx, this`cmdIdx
      ensures Now() == Resume(wire, old(Now()))
    {
      var c, n := cmds[0], rxCnt;
      Fetch(c.at);
      if c.left > 0 {
        cmds := [c.(at := c.at + n)] + cmds[1..];
        cmdIdx := 0;
      } else {
        cmds := cmds[1..];
      }
    }

    /** Writes to the FIFO as much of `data` as the driver takes it to have room for. */
    method FillFifo(data: seq<byte>) returns (n: nat)
      modifies this`tx, this`txFifoRemain
      ensures n == Min(|data|, old(txFifoRemain)) && tx == old(tx) + data[..n]
    {
      n := 0;
      while txFifoRemain > 0 && n < |data|
        invariant n <= |data| && txFifoRemain + n == old(txFifoRemain)
        invariant tx == old(tx) + data[..n]
      {
        assert data[..n + 1] == data[..n] + [data[n]];
        tx := tx + [data[n]];
        txFifoRemain := txFifoRemain - 1;
        n := n + 1;
      }
    }

    /** Prepares a write, or as much of it as the FIFO takes, and ends the burst. */
    method PrepareWrite()
      requires Ready() && (cmds[0].Write? || cmds[0].WriteByte?)
      modifies this`cmds, this`cmdIdx, this`status, this`txFifoRemain, this`tx, command
      ensures Now() == Prepare(old(Now())) && txFifoRemain == FIFO_LEN
    {
      var c := cmds[0];
      var filled := 1;
      if c.Write? {
        filled := FillFifo(c.data);
        cmds := if filled < |c.data| then [c.(data := c.data[filled..])] + cmds[1..] else cmds[1..];
      } else {
        tx := tx + [c.value];
        cmds := cmds[1..];
      }
      command[cmdIdx] := Register(WriteOp, filled, c.ackEn);
      command[cmdIdx + 1] := END;
      txFifoRemain := FIFO_LEN;
      cmdIdx := 0;
      status := Writing;
    }

    /** Prepares a read, or as much of it as the FIFO takes, and ends the burst. */
    method PrepareRead()
      requires Ready() && cmds[0].Read?
      modifies this`cmds, this`status, this`rxCnt, command
      ensures Now() == Prepare(old(Now()))
    {
      var c := cmds[0];
      rxCnt := if c.left > rxFifoRemain then rxFifoRemain else c.left;
      cmds := [c.(left := c.left - rxCnt)] + cmds[1..];
      command[cmdIdx] := Register(ReadOp, rxCnt, c.ack);
      command[cmdIdx + 1] := END;
      status := Reading;
    }

    /** Prepares a start or stop condition; tells whether the burst ends here. */
    method PrepareCondition() returns (done: bool)
      requires Ready() && IsCondition(cmds[0])
      modifies this`cmds, this`cmdIdx, this`status, this`txFifoRemain, command
      ensures txFifoRemain == FIFO_LEN && done == LastOfBurst(old(cmds), old(cmdIdx))
      ensures Now() == if done then Prepare(old(Now())) else Onward(old(Now()))
    {
      command[cmdIdx] := Register(if cmds[0].Stop? then StopOp else RStart, 0, false);
      cmdIdx := cmdIdx + 1;
      cmds := cmds[1..];
      done := |cmds| == 0 || cmdIdx >= 15;
      if done {
        txFifoRemain := FIFO_LEN;
        cmdIdx := 0;
        status := Idle;
      }
    }

    /** Prepares one burst, up to the first write or read. */
    method PrepareBurst()
      requires Ready()
      modifies this`cmds, this`cmdIdx, this`status, this`rxCnt, this`txFifoRemain, this`tx, command
      ensures Valid() && Now() == Prepare(old(Now()))
    {
      PrepareShape(Now());
      while IsCondition(cmds[0])
        invariant Ready() && Prepare(Now()) == Prepare(old(Now()))
        decreases |cmds|
      {
        PrepareUnfold(Now());
        var done := PrepareCondition();
        if done {
          return;
        }
      }
      if cmds[0].Read? {
        PrepareRead();
      } else {
        PrepareWrite();
      }
    }

    /** The controller obeys one register. */
    method Obey(r: Register) returns (goesOn: bool, interrupts: bool)
      modifies this`tx, this`rx, this`got, this`events
      ensures var d := One(r, old(tx));
              && tx == d.tx && events == old(events) + d.events && got == old(got) + d.got
              && rx == old(rx) + Window(wire.incoming, old(got), d.got)
              && goesOn == d.goesOn && interrupts == d.done
    {
      goesOn, interrupts := true, false;
      match r.op {
        case RStart =>
          events := events + [Begin];
        case StopOp =>
          events := events + [End];
          goesOn, interrupts := false, true;
        case EndOp =>
          goesOn, interrupts := false, true;
        case WriteOp =>
          var n := Min(r.byteNum, |tx|);
          goesOn := n == r.byteNum;
          assert tx[..|tx|] == tx;
          events := events + Outs(tx[..n], r.ack);
          tx := tx[n..];
        case ReadOp =>
          events := events + Ins(r.byteNum, r.ack);
          rx := rx + Window(wire.incoming, got, r.byteNum);
          got := got + r.byteNum;
      }
    }

    /** The controller executes its registers; tells whether it interrupts at the end. */
    method StartTransfer() returns (interrupts: bool)
      requires command.Length == REGISTERS
      modifies this`tx, this`rx, this`got, this`events
      ensures Now() == Transfer(wire, old(Now()))
      ensures interrupts == Execute(command[..], 0, old(tx)).done
    {
      var i, goesOn := 0, true;
      interrupts := false;
      ghost var regs, ran := command[..], Execute(command[..], 0, tx);
      ghost var n: nat, done := 0, [];
      while goesOn && i < command.Length
        invariant 0 <= i <= command.Length
        invariant got == old(got) + n && events == old(events) + done
        invariant rx == old(rx) + Window(wire.incoming, old(got), n)
        invariant ran == if goesOn then Execute(regs, i, tx).After(done, n) else Ran(done, tx, n, interrupts)
        invariant goesOn ==> !interrupts
        decreases command.Length - i
      {
        ghost var d := One(regs[i], tx);
        ExecuteOne(regs, i, tx, done, n);
        Regroup(old(events), done, d.events);
        WindowSplit(wire.incoming, old(got), n, d.got);
        Regroup(old(rx), Window(wire.incoming, old(got), n), Window(wire.incoming, old(got) + n, d.got));
        goesOn, interrupts := Obey(command[i]);
        done, n := done + d.events, n + d.got;
        i := i + 1;
      }
    }

    /**
     One call of the interrupt service: fetches what came in and prepares the
     next burst, or finds that all is done.
     */
    method BeginStatic() returns (finished: bool)
      requires Valid()
      modifies this`cmds, this`cmdIdx, this`status, this`rxCnt, this`txFifoRemain, this`tx, this`rx, this`store, command
      ensures finished == (Resume(wire, old(Now())).cmds == [])
      ensures if finished then Now() == Resume(wire, old(Now()))
              else Resume(wire, old(Now())).Ready() && Valid() && Now() == Prepare(Resume(wire, old(Now())))
    {
      ResumeShape(wire, Now());
      if status == Reading {
        Drain();
      }
      if cmds == [] {
        return true;
      }
      PrepareBurst();
      return false;
    }

    /** As in the first call of the interrupt service. */
    ghost function Start(list: seq<Cmd>): State
      reads this, command
    {
      State(list, 0, false, 0, command[..], [], [], got, Store(store.memory, got), events)
    }

    /**
     Executes a list of commands. It succeeds unless the controller falls
     silent. Driver and controller are in step at every interrupt exactly when
     the list is executable, and then all events happen in order and all bytes
     are stored.
     */
    method CmdBegin(list: seq<Queued>) returns (ok: bool)
      requires command.Length == REGISTERS && forall r :: r in command[..] ==> Usable(r)
      modifies this, command
      ensures forall r :: r in command[..] ==> Usable(r)
      ensures old(Start(list)).Shape() && (Now(), ok) == Finish(wire, old(Start(list)))
      ensures InStep(wire, old(Start(list)), old(events) + AllEvents(list)) <==>
              Executable(Place(list, 0, Ends(old(command[..]))))
      ensures Executable(Place(list, 0, Ends(old(command[..])))) ==>
                && ok && events == old(events) + AllEvents(list)
                && store == AllStored(list, Store(old(store).memory, old(got)), wire.incoming)
    {
      Reset(list);
      ListIsExact(Now());
      FinishUsable(wire, Now());
      ok := ServeAll();
    }

    /** Everything as before the first call of the interrupt service. */
    method Reset(list: seq<Queued>)
      requires command.Length == REGISTERS && forall r :: r in command[..] ==> Usable(r)
      modifies this
      ensures Valid() && Now() == old(Start(list)) && Fresh(wire, Now(), list)
      ensures events == old(events)
    {
      cmds := list;
      status, cmdIdx, rxCnt, txFifoRemain, rxFifoRemain := Idle, 0, 0, FIFO_LEN, FIFO_LEN;
      tx, rx, store := [], [], Store(store.memory, got);
    }

    /** What is known of a list before it is executed. */
    lemma ListIsExact(s: State)
      requires Fresh(wire, s, s.cmds)
      ensures Onwards(s) == Place(s.cmds, 0, Ends(s.regs)) && Outstanding(s) == s.cmds
      ensures forall j :: 0 <= j < |s.cmds| ==> IsQueued(s.cmds[j])
      ensures InStep(wire, s, s.events + AllEvents(s.cmds)) <==> Executable(Onwards(s))
      ensures Executable(Onwards(s)) ==>
                && Finish(wire, s).1
                && Finish(wire, s).0.events == s.events + AllEvents(s.cmds)
                && Finish(wire, s).0.store == AllStored(s.cmds, s.store, wire.incoming)
    {
      ListExact(wire, s);
      if Executable(Onwards(s)) {
        ListDone(wire, s);
      }
    }

    /** Interrupt service and controller by turns. */
    method ServeAll() returns (ok: bool)
      requires Valid()
      modifies this`cmds, this`cmdIdx, this`status, this`rxCnt, this`txFifoRemain, this`tx, this`rx, this`store,
               this`got, this`events, command
      ensures (Now(), ok) == Finish(wire, old(Now()))
    {
      ghost var s := Now();
      ResumeShape(wire, s);
      var finished := BeginStatic();
      while !finished
        invariant s.Shape() && Finish(wire, s) == Finish(wire, old(Now()))
        invariant finished == (Resume(wire, s).cmds == [])
        invariant if finished then Now() == Resume(wire, s)
                  else Resume(wire, s).Ready() && Valid() && Now() == Prepare(Resume(wire, s))
        decreases !finished, Total(s.cmds), |s.cmds|
      {
        ResumeShape(wire, s);
        PrepareShape(Resume(wire, s));
        ok := StartTransfer();
        if !ok {
          return;
        }
        s := Now();
        finished := BeginStatic();
      }
      ok := true;
    }

    static method QueueAll(requests: seq<Cmd>) returns (ok: bool, list: seq<Queued>)
      ensures ok ==> Same(list, requests)
    {
      var link := new CmdLink();
      for i := 0 to |requests|
        invariant Same(link.cmds, requests[..i]) && fresh(link)
      {
        SameBefore(link.cmds, requests[..i], [requests[i]]);
        assert requests[..i + 1] == requests[..i] + [requests[i]];
        ok := link.Queue(requests[i]);
        if !ok {
          return ok, link.cmds;
        }
      }
      assert requests[..|requests|] == requests;
      return true, link.cmds;
    }

    /**
     Queues requests of any lengths and executes them: exactly these requests,
     if the list that they are queued as is executable.
     */
    method Transact(requests: seq<Cmd>) returns (ok: bool, list: seq<Queued>)
      requires command.Length == REGISTERS && forall r :: r in command[..] ==> Usable(r)
      modifies this, command
      ensures ok ==> Same(list, requests)
      ensures ok && Executable(Place(list, 0, Ends(old(command[..])))) ==>
                && events == old(events) + AllEvents(requests)
                && store == AllStored(requests, Store(old(store).memory, old(got)), wire.incoming)
    {
      ok, list := QueueAll(requests);
      if ok {
        ok := CmdBegin(list);
      }
    }
  }
}
