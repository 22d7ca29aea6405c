/**
 What the events at the end of an execution tell. For lists without long runs of
 start and stop conditions they are the right ones exactly when driver and
 controller were in step all along.
 */
module I2cOutcome {
  import opened Sequences
  import opened I2cCommands
  import opened I2cController
  import opened I2cMaster

  predicate IsByte(e: Event) {
    e.Out? || e.In?
  }

  /** How many bytes were written or read. */
  function Bytes(events: seq<Event>): nat {
    if events == [] then 0 else (if IsByte(events[0]) then 1 else 0) + Bytes(events[1..])
  }

  lemma {:induction false} BytesAppend(a: seq<Event>, b: seq<Event>)
    ensures Bytes(a + b) == Bytes(a) + Bytes(b)
  {
    if a == [] {
      assert a + b == b;
    } else {
      assert (a + b)[1..] == a[1..] + b;
      BytesAppend(a[1..], b);
    }
  }

  lemma {:induction false} BytesOuts(data: seq<byte>, check: bool)
    ensures Bytes(Outs(data, check)) == |data|
  {
    if data != [] {
      assert Outs(data, check)[1..] == Outs(data[1..], check);
      BytesOuts(data[1..], check);
    }
  }

  lemma {:induction false} BytesIns(n: nat, ack: bool)
    ensures Bytes(Ins(n, ack)) == n
    decreases n
  {
    if n > 0 {
      assert Ins(n, ack)[1..] == Ins(n - 1, ack);
      BytesIns(n - 1, ack);
    }
  }

  lemma BytesOfCmd(c: Cmd)
    ensures Bytes(Events(c)) == c.Left()
  {
    match c {
      case Write(data, ackEn) => BytesOuts(data, ackEn);
      case Read(_, left, ack) => BytesIns(left, ack);
      case _ =>
    }
  }

  lemma {:induction false} BytesOfList(cmds: seq<Cmd>)
    ensures Bytes(AllEvents(cmds)) == Total(cmds)
  {
    if cmds != [] {
      BytesOfCmd(cmds[0]);
      BytesAppend(Events(cmds[0]), AllEvents(cmds[1..]));
      BytesOfList(cmds[1..]);
    }
  }

  // ---- Registers ----------------------------------------------------------------------

  /** Behind each write or read there is an END, as the driver puts it there. */
  predicate Tidy(regs: seq<Register>) {
    forall j :: 0 <= j < |regs| && (regs[j].op == WriteOp || regs[j].op == ReadOp) ==>
      0 < regs[j].byteNum && j + 1 < |regs| && regs[j + 1].op == EndOp
  }

  ghost predicate Conditions(regs: seq<Register>, n: nat) {
    n <= |regs| && forall j :: 0 <= j < n ==> regs[j].Condition()
  }

  /** Bytes on the bus come last in an execution, if there are any. */
  lemma {:induction false} BytesComeLast(regs: seq<Register>, i: nat, tx: seq<byte>)
    requires Tidy(regs) && Execute(regs, i, tx).done
    ensures var e := Execute(regs, i, tx).events; Bytes(e) == 0 || IsByte(e[|e| - 1])
    decreases |regs| - i
  {
    var r := regs[i];
    match r.op {
      case RStart =>
        BytesComeLast(regs, i + 1, tx);
        var rest := Execute(regs, i + 1, tx).events;
        BytesAppend([Begin], rest);
      case StopOp =>
      case EndOp =>
      case WriteOp =>
        assert Execute(regs, i + 1, tx[r.byteNum..]).events == [];
        assert Execute(regs, i, tx).events == Outs(tx[..r.byteNum], r.ack);
      case ReadOp =>
        assert Execute(regs, i + 1, tx).events == [];
        assert Execute(regs, i, tx).events == Ins(r.byteNum, r.ack);
    }
  }

  /** A stop condition ends the execution before any bytes. */
  lemma {:induction false} StopEnds(regs: seq<Register>, i: nat, stop: nat, tx: seq<byte>)
    requires i <= stop < |regs| && regs[stop].op == StopOp && forall j :: i <= j < stop ==> regs[j].Condition()
    ensures Bytes(Execute(regs, i, tx).events) == 0
    decreases |regs| - i
  {
    if regs[i].op == RStart {
      StopEnds(regs, i + 1, stop, tx);
      BytesAppend([Begin], Execute(regs, i + 1, tx).events);
    }
  }

  lemma {:induction false} StartsHaveNoBytes(regs: seq<Register>, i: nat, k: nat, tx: seq<byte>)
    requires i <= k <= |regs| && forall j :: i <= j < k ==> regs[j].op == RStart
    ensures Bytes(Handed(regs, i, k, tx)) == 0
    decreases |regs| - i
  {
    if i < k {
      StartsHaveNoBytes(regs, i + 1, k, tx);
      BytesAppend([Begin], Handed(regs, i + 1, k, tx));
    }
  }

  /** Conditions up to a write or read that an END follows: its bytes are written or read, or none. */
  lemma BytesAtMost(regs: seq<Register>, i: nat, last: nat, tx: seq<byte>)
    requires i <= last && last + 1 < |regs| && forall j :: i <= j < last ==> regs[j].Condition()
    requires (regs[last].op == WriteOp || regs[last].op == ReadOp) && regs[last + 1].op == EndOp
    ensures Bytes(Execute(regs, i, tx).events) <= regs[last].byteNum
    ensures (exists j :: i <= j < last && regs[j].op == StopOp) ==> Bytes(Execute(regs, i, tx).events) == 0
  {
    if stop :| i <= stop < last && regs[stop].op == StopOp {
      StopEnds(regs, i, stop, tx);
    } else {
      StartsFirst(regs, i, last, last, tx);
      StartsHaveNoBytes(regs, i, last, tx);
      BytesAppend(Handed(regs, i, last, tx), Execute(regs, last, tx).events);
      BytesOfOne(regs, last, tx);
    }
  }

  lemma BytesOfOne(regs: seq<Register>, i: nat, tx: seq<byte>)
    requires i + 1 < |regs| && (regs[i].op == WriteOp || regs[i].op == ReadOp) && regs[i + 1].op == EndOp
    ensures Bytes(Execute(regs, i, tx).events) <= regs[i].byteNum
  {
    var r := regs[i];
    if r.op == WriteOp {
      var n := Min(r.byteNum, |tx|);
      BytesOuts(tx[..n], r.ack);
      assert tx[..|tx|] == tx;
      assert Execute(regs, i, tx).events == Outs(tx[..n], r.ack);
    } else {
      BytesIns(r.byteNum, r.ack);
      assert Execute(regs, i, tx).events == Ins(r.byteNum, r.ack);
    }
  }

  /** Conditions all the way: no bytes. */
  lemma {:induction false} NoBytes(regs: seq<Register>, i: nat, tx: seq<byte>)
    requires i <= |regs| && forall j :: i <= j < |regs| ==> regs[j].op != WriteOp && regs[j].op != ReadOp
    ensures Bytes(Execute(regs, i, tx).events) == 0
    decreases |regs| - i
  {
    if i < |regs| && regs[i].op == RStart {
      NoBytes(regs, i + 1, tx);
      BytesAppend([Begin], Execute(regs, i + 1, tx).events);
    }
  }

  // ---- Once a byte is missing, it stays missing --------------------------------------------

  /** The registers are as a driver in any state leaves them. */
  ghost predicate Loose(s: State) {
    s.Shape() && Tidy(s.regs) && Conditions(s.regs, s.idx)
  }

  lemma TidyCondition(regs: seq<Register>, i: nat, r: Register)
    requires i + 1 < |regs| && Tidy(regs) && Conditions(regs, i) && r.Condition()
    ensures Tidy(regs[i := r]) && Conditions(regs[i := r], i + 1)
  {
  }

  lemma TidyHandover(regs: seq<Register>, i: nat, r: Register)
    requires i + 1 < |regs| && Tidy(regs) && Conditions(regs, i)
    requires r.op == WriteOp || r.op == ReadOp ==> 0 < r.byteNum
    ensures Tidy(regs[i := r][i + 1 := END]) && Conditions(regs[i := r][i + 1 := END], i)
  {
  }

  /** The registers stay tidy. */
  lemma {:induction false} BurstTidy(s: State)
    requires s.Ready() && Tidy(s.regs) && Conditions(s.regs, s.idx)
    ensures var p, to := Prepare(s), Behind(s.cmds, s.idx);
            && 0 < to < |p.regs| == REGISTERS
            && Tidy(p.regs) && Conditions(p.regs, to - 1) && p.idx <= to - 1
    decreases |s.cmds|
  {
    var c := s.cmds[0];
    if IsCondition(c) {
      TidyCondition(s.regs, s.idx, Code(c));
      if !LastOfBurst(s.cmds, s.idx) {
        PrepareFirst(s);
        BurstTidy(Onward(s));
      } else {
        PrepareUnfold(s);
      }
    } else {
      HandoverTidy(s);
    }
  }

  /** What the bytes of one burst come to. */
  lemma {:induction false} BurstTotals(s: State)
    requires s.Ready()
    ensures var p, to := Prepare(s), Behind(s.cmds, s.idx);
            && 0 < to < |p.regs| == REGISTERS && Total(p.cmds) <= Total(s.cmds)
            && if p.regs[to - 1].Condition() then Total(p.cmds) == Total(s.cmds) && (p.cmds == [] || to == 15)
               else Total(p.cmds) + p.regs[to - 1].byteNum == Total(s.cmds) && p.regs[to].op == EndOp
                    && (p.regs[to - 1].op == WriteOp || p.regs[to - 1].op == ReadOp)
    decreases |s.cmds|
  {
    var c := s.cmds[0];
    if IsCondition(c) {
      if !LastOfBurst(s.cmds, s.idx) {
        PrepareFirst(s);
        BurstTotals(Onward(s));
      } else {
        PrepareUnfold(s);
      }
    } else {
      HandoverTotals(s);
    }
  }

  lemma BurstBytes(s: State)
    requires s.Ready() && Tidy(s.regs) && Conditions(s.regs, s.idx)
    ensures var p, to := Prepare(s), Behind(s.cmds, s.idx);
            && 0 < to < |p.regs| == REGISTERS
            && Tidy(p.regs) && Conditions(p.regs, to - 1) && p.idx <= to - 1
            && Total(p.cmds) <= Total(s.cmds)
            && if p.regs[to - 1].Condition() then Total(p.cmds) == Total(s.cmds) && (p.cmds == [] || to == 15)
               else Total(p.cmds) + p.regs[to - 1].byteNum == Total(s.cmds) && p.regs[to].op == EndOp
                    && (p.regs[to - 1].op == WriteOp || p.regs[to - 1].op == ReadOp)
  {
    BurstTidy(s);
    BurstTotals(s);
  }

  lemma HandoverTidy(s: State)
    requires s.Ready() && Tidy(s.regs) && Conditions(s.regs, s.idx) && !IsCondition(s.cmds[0])
    ensures Tidy(Prepare(s).regs) && Conditions(Prepare(s).regs, s.idx) && Prepare(s).idx <= s.idx
  {
    TidyHandover(s.regs, s.idx, Prepare(s).regs[s.idx]);
  }

  lemma HandoverTotals(s: State)
    requires s.Ready() && !IsCondition(s.cmds[0])
    ensures var p := Prepare(s);
            && Total(p.cmds) + p.regs[s.idx].byteNum == Total(s.cmds) && p.regs[s.idx + 1].op == EndOp
            && (p.regs[s.idx].op == WriteOp || p.regs[s.idx].op == ReadOp)
  {
    var c, tail := s.cmds[0], s.cmds[1..];
    if c.Write? && |c.data| > FIFO_LEN {
      TotalCons(Write(c.data[FIFO_LEN..], c.ackEn), tail);
    } else if c.Read? {
      TotalCons(Read(c.at, c.left - Min(c.left, FIFO_LEN), c.ack), tail);
    }
  }

  /** A condition stands last in the list. */
  predicate EndsInCondition(cmds: seq<Cmd>) {
    cmds != [] && IsCondition(cmds[|cmds| - 1])
  }

  /** The last command stays the last one. */
  lemma {:induction false} LastStays(s: State)
    requires s.Ready()
    ensures var p, to := Prepare(s), Behind(s.cmds, s.idx);
            && 0 < to < |p.regs|
            && (EndsInCondition(p.cmds) || (p.cmds == [] && p.regs[to - 1].Condition()) ==> EndsInCondition(s.cmds))
    decreases |s.cmds|
  {
    PrepareKeeps(s);
    var tail := s.cmds[1..];
    if IsCondition(s.cmds[0]) {
      PrepareUnfold(s);
      if !LastOfBurst(s.cmds, s.idx) {
        LastStays(Onward(s));
      }
    } else {
      HandoverLast(s);
    }
  }

  lemma HandoverLast(s: State)
    requires s.Ready() && !IsCondition(s.cmds[0])
    ensures EndsInCondition(Prepare(s).cmds) ==> EndsInCondition(s.cmds)
    ensures !Prepare(s).regs[s.idx].Condition()
  {
    var tail, p := s.cmds[1..], Prepare(s);
    if p.cmds != tail {
      assert p.cmds[1..] == tail;
    }
  }

  lemma ResumeLast(w: Wire, s: State)
    requires s.Shape()
    ensures EndsInCondition(Resume(w, s).cmds) ==> EndsInCondition(s.cmds)
  {
    if s.reading {
      var tail := s.cmds[1..];
      assert Resume(w, s).cmds != tail ==> Resume(w, s).cmds[1..] == tail;
    }
  }

  /** The last register that is prepared, apart from an END. */
  ghost function LastRegister(d: State): Register
    requires d.Ready()
  {
    PrepareKeeps(d);
    Prepare(d).regs[Behind(d.cmds, d.idx) - 1]
  }

  /** The bytes that the controller moves in a burst that does not end the list. */
  lemma BurstMovesAtMost(d: State)
    requires d.Ready() && Tidy(d.regs) && Conditions(d.regs, d.idx)
    requires Prepare(d).cmds != [] || !LastRegister(d).Condition()
    ensures Bytes(Execute(Prepare(d).regs, 0, Prepare(d).tx).events) + Total(Prepare(d).cmds) <= Total(d.cmds)
  {
    BurstBytes(d);
    var p, to := Prepare(d), Behind(d.cmds, d.idx);
    if p.regs[to - 1].Condition() {
      NoBytes(p.regs, 0, p.tx);
    } else {
      BytesAtMost(p.regs, 0, to - 1, p.tx);
    }
  }

  /** The burst that ends the list may run on into old registers, but then bytes come last. */
  lemma LastBurst(w: Wire, s: State, d: State, p: State, all: seq<Event>)
    requires Loose(s) && d == Resume(w, s) && d.cmds != [] && d.Ready() && p == Prepare(d) && p.Shape()
    requires Execute(p.regs, 0, p.tx).done && p.cmds == [] && LastRegister(d).Condition()
    requires Bytes(s.events) < Bytes(all) && (EndsInCondition(s.cmds) ==> all != [] && !IsByte(all[|all| - 1]))
    ensures Transfer(w, p).events != all
  {
    ResumeShape(w, s);
    PrepareKeeps(d);
    LastStays(d);
    ResumeLast(w, s);
    BurstTidy(d);
    BytesComeLast(p.regs, 0, p.tx);
    BytesThenCondition(s.events, Execute(p.regs, 0, p.tx).events, all);
  }

  lemma BytesThenCondition(before: seq<Event>, e: seq<Event>, all: seq<Event>)
    requires Bytes(e) == 0 || (e != [] && IsByte(e[|e| - 1]))
    requires Bytes(before) < Bytes(all) && all != [] && !IsByte(all[|all| - 1])
    ensures before + e != all
  {
    BytesAppend(before, e);
    assert e != [] ==> (before + e)[|before + e| - 1] == e[|e| - 1];
  }

  /** With fewer bytes done and to be done than `all` has, the execution never comes to `all`. */
  lemma {:induction false} MissingStays(w: Wire, s: State, all: seq<Event>)
    requires Loose(s) && Bytes(s.events) + Total(s.cmds) < Bytes(all)
    requires EndsInCondition(s.cmds) ==> all != [] && !IsByte(all[|all| - 1])
    ensures Finish(w, s).1 ==> Finish(w, s).0.events != all
    decreases Total(s.cmds), |s.cmds|
  {
    ResumeShape(w, s);
    var d := Resume(w, s);
    if d.cmds != [] {
      PrepareShape(d);
      PrepareKeeps(d);
      BurstBytes(d);
      var p := Prepare(d);
      var t, ran := Transfer(w, p), Execute(p.regs, 0, p.tx);
      if ran.done {
        if p.cmds == [] && LastRegister(d).Condition() {
          LastBurst(w, s, d, p, all);
        } else {
          BurstMovesAtMost(d);
          BytesAppend(s.events, ran.events);
          LastStays(d);
          ResumeLast(w, s);
          MissingStays(w, t, all);
        }
      }
    }
  }

  // ---- The first burst out of order ----------------------------------------------------------

  /** At most 15 start and stop conditions in a row; `i` of them come just before. */
  predicate ShortRuns(cmds: seq<Cmd>, i: nat) {
    if cmds == [] then true
    else if IsCondition(cmds[0]) then i < 15 && ShortRuns(cmds[1..], i + 1)
    else ShortRuns(cmds[1..], 0)
  }

  lemma {:induction false} FewerBefore(cmds: seq<Cmd>, i: nat, j: nat)
    requires ShortRuns(cmds, i) && j <= i
    ensures ShortRuns(cmds, j)
  {
    if cmds != [] && IsCondition(cmds[0]) {
      FewerBefore(cmds[1..], i + 1, j + 1);
    }
  }

  lemma {:induction false} ShortBurst(cmds: seq<Cmd>, i: nat, ends: set<nat>)
    requires cmds != [] && ShortRuns(cmds, i)
    ensures ShortRuns(NextPlace(cmds, i, ends).cmds, 0)
  {
    var c, tail := cmds[0], cmds[1..];
    if IsCondition(c) {
      if LastOfBurst(cmds, i) {
        FewerBefore(tail, i + 1, 0);
      } else {
        ShortBurst(tail, i + 1, ends - {i});
      }
    } else if c.Write? && |c.data| > FIFO_LEN {
      assert ([Write(c.data[FIFO_LEN..], c.ackEn)] + tail)[1..] == tail;
    } else if c.Read? && c.left > FIFO_LEN {
      assert ([Read(c.at + FIFO_LEN, c.left - FIFO_LEN, c.ack)] + tail)[1..] == tail;
    }
  }

  /** A burst that ends with a condition before the list does has filled the registers with conditions. */
  lemma {:induction false} FullBurst(d: State, i: nat)
    requires d.Ready() && ShortRuns(d.cmds, i)
    requires LastRegister(d).Condition() && Prepare(d).cmds != []
    ensures Behind(d.cmds, d.idx) == 15 && ShortRuns(Prepare(d).cmds, i + 15 - d.idx)
    decreases |d.cmds|
  {
    PrepareKeeps(d);
    if IsCondition(d.cmds[0]) {
      PrepareUnfold(d);
      if !LastOfBurst(d.cmds, d.idx) {
        FullBurst(Onward(d), i + 1);
      }
    } else {
      HandoverLast(d);
    }
  }

  /** How many events come before the first byte. */
  function Quiet(events: seq<Event>): nat {
    if events != [] && !IsByte(events[0]) then 1 + Quiet(events[1..]) else 0
  }

  lemma {:induction false} QuietOfPrefix(x: seq<Event>, y: seq<Event>)
    requires x <= y && Bytes(x) == 0
    ensures |x| <= Quiet(y)
  {
    if x != [] {
      QuietOfPrefix(x[1..], y[1..]);
    }
  }

  lemma {:induction false} QuietOfShort(cmds: seq<Cmd>, i: nat)
    requires ShortRuns(cmds, i) && i <= 15 && forall j :: 0 <= j < |cmds| ==> IsQueued(cmds[j])
    ensures Quiet(AllEvents(cmds)) <= 15 - i
  {
    if cmds != [] {
      var rest := AllEvents(cmds[1..]);
      assert Events(cmds[0]) != [] && AllEvents(cmds)[0] == Events(cmds[0])[0];
      if IsCondition(cmds[0]) {
        QuietOfShort(cmds[1..], i + 1);
        assert AllEvents(cmds)[1..] == rest;
      }
    }
  }

  /** What has happened on the bus stays. */
  lemma {:induction false} FinishExtends(w: Wire, s: State)
    requires s.Shape()
    ensures s.events <= Finish(w, s).0.events
    decreases Total(s.cmds), |s.cmds|
  {
    ResumeShape(w, s);
    var d := Resume(w, s);
    if d.cmds != [] {
      PrepareShape(d);
      PrepareKeeps(d);
      var p := Prepare(d);
      if Execute(p.regs, 0, p.tx).done {
        FinishExtends(w, Transfer(w, p));
      }
    }
  }

  lemma {:induction false} LeadOfPrefix(x: seq<Event>, y: seq<Event>)
    requires x <= y
    ensures Lead(x) <= Lead(y) && Lead(x) <= |x|
    ensures Lead(x) < |x| ==> Lead(x) == Lead(y)
  {
    if x != [] && x[0] == Begin {
      LeadOfPrefix(x[1..], y[1..]);
    }
  }

  lemma {:induction false} AllStarts(regs: seq<Register>, i: nat, to: nat, tx: seq<byte>)
    requires Prepared(regs, i, to, tx) && Lead(Handed(regs, i, to, tx)) == |Handed(regs, i, to, tx)|
    ensures forall j :: i <= j < to ==> regs[j].op == RStart
    decreases |regs| - i
  {
    if regs[i].op == RStart {
      LeadOfBegin(Handed(regs, i + 1, to, tx));
      if i < to - 1 {
        AllStarts(regs, i + 1, to, tx);
      }
    }
  }

  lemma {:induction false} LeadBegins(events: seq<Event>, i: nat)
    requires i < Lead(events)
    ensures i < |events| && events[i] == Begin
  {
    if i > 0 {
      LeadBegins(events[1..], i - 1);
    }
  }

  lemma LeadOfAll(events: seq<Event>)
    ensures Lead(events) <= |events|
  {
    LeadOfPrefix(events, events);
  }

  /** Where it is a prefix of what is due, a burst behind `k` old start conditions is all start conditions. */
  lemma StaleStarts(regs: seq<Register>, k: nat, to: nat, tx: seq<byte>, rest: seq<Event>)
    requires 0 < k && Prepared(regs, k, to, tx) && forall j :: 0 <= j < k ==> regs[j].op == RStart
    requires Execute(regs, 0, tx).events <= Handed(regs, k, to, tx) + rest
    ensures regs[to - 1].op == RStart && Lead(Execute(regs, 0, tx).events) >= to
    ensures rest != [] && rest[0] == Begin
  {
    LeadAtLeast(regs, k, to, tx);
    LeadOfStale(regs, 0, k, tx);
    var x, handed := Execute(regs, 0, tx).events, Handed(regs, k, to, tx);
    LeadOfPrefix(handed, handed + rest);
    LeadOfPrefix(x, handed + rest);
    HandedLength(regs, k, to, tx);
    AllStarts(regs, k, to, tx);
    LeadOfAll(handed + rest);
    LeadBegins(x, |handed|);
    assert rest[0] == (handed + rest)[|handed|];
  }

  lemma StalePrepared(w: Wire, s: State, d: State, p: State)
    requires Sound(w, s) && d == Resume(w, s) && d.cmds != [] && d.Ready() && p == Prepare(d)
    ensures var to := Behind(d.cmds, d.idx);
            && d.idx < to < |p.regs| && Prepared(p.regs, d.idx, to, p.tx)
            && (forall j :: 0 <= j < d.idx ==> p.regs[j].op == RStart)
            && AllEvents(s.cmds) == Handed(p.regs, d.idx, to, p.tx) + AllEvents(p.cmds)
            && LastRegister(d) == p.regs[to - 1]
            && (p.regs[to - 1].Condition() ==> p.cmds == [] || to == 15)
  {
    ResumeShape(w, s);
    ResumeSound(w, s);
    BurstFacts(w, d, p, Behind(d.cmds, d.idx));
    BurstTotals(d);
  }

  /**
   A burst that begins behind old start conditions puts more of them on the bus
   than the list has there, unless 15 or more are due in a row.
   */
  lemma StaleIsFatal(w: Wire, s: State, d: State, p: State)
    requires Sound(w, s) && Tidy(s.regs)
    requires d == Resume(w, s) && d.cmds != [] && d.idx > 0 && d.Ready() && p == Prepare(d) && p.Shape()
    ensures Execute(p.regs, 0, p.tx).events <= AllEvents(s.cmds) ==>
              && p.cmds != [] && AllEvents(p.cmds) != [] && AllEvents(p.cmds)[0] == Begin
              && LastRegister(d).Condition() && Lead(Execute(p.regs, 0, p.tx).events) >= 15
              && Lead(AllEvents(s.cmds)) >= 15
  {
    var x := Execute(p.regs, 0, p.tx).events;
    StalePrepared(w, s, d, p);
    if x <= AllEvents(s.cmds) {
      StaleStarts(p.regs, d.idx, Behind(d.cmds, d.idx), p.tx, AllEvents(p.cmds));
      LeadOfPrefix(x, AllEvents(s.cmds));
    }
  }

  lemma {:induction false} LastEvent(cmds: seq<Cmd>)
    requires EndsInCondition(cmds) && forall j :: 0 <= j < |cmds| ==> IsQueued(cmds[j])
    ensures var e := AllEvents(cmds); e != [] && !IsByte(e[|e| - 1])
  {
    if |cmds| > 1 {
      assert cmds[1..][|cmds| - 2] == cmds[|cmds| - 1];
      LastEvent(cmds[1..]);
    } else {
      assert cmds[1..] == [];
    }
  }

  /** A stop condition before the end of a burst drops what stands behind it. */
  lemma CutIsFatal(w: Wire, s: State, d: State, p: State)
    requires Sound(w, s) && Tidy(s.regs)
    requires d == Resume(w, s) && d.cmds != [] && d.idx == 0 && d.Ready() && p == Prepare(d) && p.Shape()
    requires !BurstOk(d.cmds, 0, Ends(d.regs)) && Execute(p.regs, 0, p.tx).done
    requires p.cmds == [] || !LastRegister(d).Condition()
    ensures if p.cmds == [] && LastRegister(d).Condition()
            then |Execute(p.regs, 0, p.tx).events| != |AllEvents(s.cmds)|
            else Bytes(Execute(p.regs, 0, p.tx).events) + Total(p.cmds) < Total(s.cmds)
  {
    ResumeShape(w, s);
    ResumeSound(w, s);
    var to := Behind(d.cmds, 0);
    BurstFacts(w, d, p, to);
    BurstBytes(d);
    if p.cmds == [] && LastRegister(d).Condition() {
      OpenFails(p.regs, 0, to, p.tx);
      assert AllEvents(p.cmds) == [];
    } else {
      BytesAtMost(p.regs, 0, to - 1, p.tx);
    }
  }

  /** The first event of a burst from register 0 on is the one that is due. */
  lemma FirstEvent(regs: seq<Register>, to: nat, tx: seq<byte>)
    requires Prepared(regs, 0, to, tx)
    ensures var x, handed := Execute(regs, 0, tx).events, Handed(regs, 0, to, tx);
            x != [] && handed != [] && x[0] == handed[0]
  {
  }

  lemma BurstFirst(t: State)
    requires t.Ready() && t.idx == 0 && t.tx == []
    ensures var x, due := Execute(Prepare(t).regs, 0, Prepare(t).tx).events, AllEvents(t.cmds);
            x != [] && due != [] && x[0] == due[0]
  {
    PreparePrepares(t);
    PrepareHands(t);
    FirstEvent(Prepare(t).regs, Behind(t.cmds, 0), Prepare(t).tx);
  }

  /** Whatever happened before, the next burst from register 0 on begins with what is next on the list. */
  lemma NextEvent(w: Wire, t: State)
    requires t.Shape() && !t.reading && t.idx == 0 && t.tx == [] && t.cmds != []
    ensures AllEvents(t.cmds) != []
    ensures Finish(w, t).1 ==> t.events + [AllEvents(t.cmds)[0]] <= Finish(w, t).0.events
  {
    BurstFirst(t);
    PrepareShape(t);
    PrepareKeeps(t);
    var p := Prepare(t);
    if Execute(p.regs, 0, p.tx).done {
      FinishExtends(w, Transfer(w, p));
      assert [AllEvents(t.cmds)[0]] <= Execute(p.regs, 0, p.tx).events;
    }
  }

  lemma {:induction false} NothingToSend(regs: seq<Register>, i: nat)
    ensures Execute(regs, i, []).tx == []
    decreases |regs| - i
  {
    if i < |regs| {
      NothingToSend(regs, i + 1);
    }
  }

  /** A burst that ends with a condition sends nothing. */
  lemma ConditionsSend(w: Wire, s: State, d: State, p: State)
    requires Sound(w, s) && Tidy(s.regs) && d == Resume(w, s) && d.cmds != [] && d.Ready()
    requires p == Prepare(d) && p.Shape() && p.cmds != [] && LastRegister(d).Condition()
    ensures p.tx == [] && Execute(p.regs, 0, p.tx).tx == [] && Bytes(Execute(p.regs, 0, p.tx).events) == 0
  {
    ResumeSound(w, s);
    PreparePrepares(d);
    BurstBytes(d);
    NothingToSend(p.regs, 0);
    NoBytes(p.regs, 0, p.tx);
  }

  /** After a burst that ends with a condition before the list does, the next one begins at register 0. */
  lemma {:induction false} NextFromZero(d: State)
    requires d.Ready() && LastRegister(d).Condition()
    ensures !Prepare(d).reading && Prepare(d).idx == 0
    decreases |d.cmds|
  {
    PrepareKeeps(d);
    if IsCondition(d.cmds[0]) {
      PrepareUnfold(d);
      if !LastOfBurst(d.cmds, d.idx) {
        NextFromZero(Onward(d));
      }
    } else {
      HandoverLast(d);
    }
  }

  /** Such a burst, out of order, and the first event of the next one are not what the list has there. */
  lemma FullBurstFails(w: Wire, s: State, d: State, p: State)
    requires Sound(w, s) && Tidy(s.regs) && d == Resume(w, s) && d.cmds != [] && d.Ready()
    requires p == Prepare(d) && p.Shape() && p.cmds != [] && LastRegister(d).Condition()
    requires ShortRuns(d.cmds, 0) && !(d.idx == 0 && BurstOk(d.cmds, 0, Ends(d.regs)))
    requires Execute(p.regs, 0, p.tx).done && AllEvents(p.cmds) != []
    ensures !(Execute(p.regs, 0, p.tx).events + [AllEvents(p.cmds)[0]] <= AllEvents(s.cmds))
  {
    ResumeShape(w, s);
    ConditionsSend(w, s, d, p);
    FullBurst(d, 0);
    QuietOfShort(d.cmds, 0);
    var x, next := Execute(p.regs, 0, p.tx).events, AllEvents(p.cmds)[0];
    if x + [next] <= AllEvents(s.cmds) {
      assert x <= x + [next];
      QuietOfPrefix(x, AllEvents(s.cmds));
      if d.idx > 0 {
        StaleIsFatal(w, s, d, p);
        LeadOfAll(x);
        BytesAppend(x, [next]);
        QuietOfPrefix(x + [next], AllEvents(s.cmds));
      } else {
        FullCutFails(w, s, d, p);
      }
    }
  }

  lemma FullCutFails(w: Wire, s: State, d: State, p: State)
    requires Sound(w, s) && Tidy(s.regs) && d == Resume(w, s) && d.cmds != [] && d.Ready() && d.idx == 0
    requires p == Prepare(d) && p.Shape() && p.cmds != [] && LastRegister(d).Condition()
    requires ShortRuns(d.cmds, 0) && !BurstOk(d.cmds, 0, Ends(d.regs))
    requires Execute(p.regs, 0, p.tx).done && AllEvents(p.cmds) != []
    requires |Execute(p.regs, 0, p.tx).events| <= 15
    ensures !(Execute(p.regs, 0, p.tx).events + [AllEvents(p.cmds)[0]] <= AllEvents(s.cmds))
  {
    ResumeShape(w, s);
    ResumeSound(w, s);
    FullBurst(d, 0);
    BurstFacts(w, d, p, 15);
    BurstBytes(d);
    OpenFails(p.regs, 0, 15, p.tx);
    HandedConditions(p.regs, 0, 15, p.tx);
    NextFromZero(d);
    ByteDue(p.cmds);
    NoByteDue(Execute(p.regs, 0, p.tx).events, Handed(p.regs, 0, 15, p.tx), AllEvents(p.cmds));
  }

  lemma ByteDue(cmds: seq<Cmd>)
    requires cmds != [] && !IsCondition(cmds[0]) && IsQueued(cmds[0])
    ensures AllEvents(cmds) != [] && IsByte(AllEvents(cmds)[0])
  {
    var c := cmds[0];
    assert Events(c) != [] && IsByte(Events(c)[0]);
    assert AllEvents(cmds)[0] == Events(c)[0];
  }

  /** Among conditions that are due, no byte is. */
  lemma NoByteDue(x: seq<Event>, handed: seq<Event>, rest: seq<Event>)
    requires |x| < |handed| && forall j :: 0 <= j < |handed| ==> !IsByte(handed[j])
    requires rest != [] && IsByte(rest[0])
    ensures !(x + [rest[0]] <= handed + rest)
  {
    assert (x + [rest[0]])[|x|] != (handed + rest)[|x|];
  }

  lemma {:induction false} HandedConditions(regs: seq<Register>, i: nat, to: nat, tx: seq<byte>)
    requires i <= to <= |regs| && forall j :: i <= j < to ==> regs[j].Condition()
    ensures |Handed(regs, i, to, tx)| == to - i
    ensures forall j :: 0 <= j < to - i ==> !IsByte(Handed(regs, i, to, tx)[j])
    decreases |regs| - i
  {
    if i < to {
      HandedConditions(regs, i + 1, to, tx);
    }
  }

  /** So the execution does not come to the events of the list. */
  lemma FullBurstIsFatal(w: Wire, s: State, d: State, p: State)
    requires Sound(w, s) && Tidy(s.regs) && d == Resume(w, s) && d.cmds != [] && d.Ready()
    requires p == Prepare(d) && p.Shape() && p.cmds != [] && LastRegister(d).Condition()
    requires ShortRuns(d.cmds, 0) && !(d.idx == 0 && BurstOk(d.cmds, 0, Ends(d.regs)))
    requires Execute(p.regs, 0, p.tx).done
    ensures Transfer(w, p).Shape()
    ensures Finish(w, Transfer(w, p)).1 ==> Finish(w, Transfer(w, p)).0.events != s.events + AllEvents(s.cmds)
  {
    var t, x := Transfer(w, p), Execute(p.regs, 0, p.tx).events;
    PrepareKeeps(d);
    ConditionsSend(w, s, d, p);
    NextFromZero(d);
    NextEvent(w, t);
    FullBurstFails(w, s, d, p);
    var next := AllEvents(p.cmds)[0];
    Regroup(s.events, x, [next]);
    if Finish(w, t).1 && Finish(w, t).0.events == s.events + AllEvents(s.cmds) {
      PrefixOfRest(s.events, x + [next], AllEvents(s.cmds));
    }
  }

  /** From a burst out of order on, the execution does not come to the events of the list. */
  lemma OutOfOrder(w: Wire, s: State)
    requires Sound(w, s) && Tidy(s.regs)
    requires Resume(w, s).cmds != [] && ShortRuns(Onwards(s).cmds, 0)
    requires !(Onwards(s).idx == 0 && BurstOk(Onwards(s).cmds, 0, Onwards(s).ends))
    ensures Finish(w, s).1 ==> Finish(w, s).0.events != s.events + AllEvents(s.cmds)
  {
    ResumeShape(w, s);
    var d := Resume(w, s);
    PrepareShape(d);
    PrepareKeeps(d);
    var p, all := Prepare(d), s.events + AllEvents(s.cmds);
    var t, x := Transfer(w, p), Execute(p.regs, 0, p.tx).events;
    if Execute(p.regs, 0, p.tx).done {
      FinishExtends(w, t);
      if p.cmds != [] && LastRegister(d).Condition() {
        FullBurstIsFatal(w, s, d, p);
      } else if d.idx > 0 {
        StaleIsFatal(w, s, d, p);
        if Finish(w, t).0.events == all {
          PrefixOfRest(s.events, x, AllEvents(s.cmds));
        }
      } else {
        CutIsFatal(w, s, d, p);
        if !(p.cmds == [] && LastRegister(d).Condition()) {
          CutStays(w, s, d, p, all);
        }
      }
    }
  }

  lemma PrefixOfRest<T>(a: seq<T>, x: seq<T>, e: seq<T>)
    requires a + x <= a + e
    ensures x <= e
  {
    assert x == (a + x)[|a|..] && e == (a + e)[|a|..];
  }

  lemma CutStays(w: Wire, s: State, d: State, p: State, all: seq<Event>)
    requires Sound(w, s) && Tidy(s.regs) && d == Resume(w, s) && d.cmds != [] && d.idx == 0 && d.Ready()
    requires p == Prepare(d) && p.Shape() && all == s.events + AllEvents(s.cmds)
    requires Bytes(Execute(p.regs, 0, p.tx).events) + Total(p.cmds) < Total(s.cmds)
    ensures Finish(w, Transfer(w, p)).1 ==> Finish(w, Transfer(w, p)).0.events != all
  {
    AfterBurst(w, s, d, p);
    BytesAppend(s.events, Execute(p.regs, 0, p.tx).events);
    BytesAppend(s.events, AllEvents(s.cmds));
    BytesOfList(s.cmds);
    if EndsInCondition(s.cmds) {
      EndOfAll(w, s);
    }
    MissingStays(w, Transfer(w, p), all);
  }

  /** What the execution of any burst leaves. */
  lemma AfterBurst(w: Wire, s: State, d: State, p: State)
    requires Loose(s) && d == Resume(w, s) && d.cmds != [] && d.Ready() && p == Prepare(d) && p.Shape()
    ensures var t := Transfer(w, p);
            && Loose(t) && t.cmds == p.cmds && t.events == s.events + Execute(p.regs, 0, p.tx).events
            && (EndsInCondition(t.cmds) ==> EndsInCondition(s.cmds))
  {
    ResumeShape(w, s);
    PrepareKeeps(d);
    BurstTidy(d);
    LastStays(d);
    ResumeLast(w, s);
  }

  lemma EndOfAll(w: Wire, s: State)
    requires s.Shape() && EndsInCondition(s.cmds)
    ensures var all := s.events + AllEvents(s.cmds); all != [] && !IsByte(all[|all| - 1])
  {
    if s.reading {
      var tail := s.cmds[1..];
      assert tail[|tail| - 1] == s.cmds[|s.cmds| - 1];
      LastEvent(tail);
    } else {
      LastEvent(s.cmds);
    }
  }

  /**
   For a list with at most 15 conditions in a row, and registers as the driver
   leaves them: the execution ends with just the events of the list exactly when
   every burst is in order.
   */
  lemma {:induction false} OutcomeExact(w: Wire, s: State)
    requires Sound(w, s) && Tidy(s.regs) && ShortRuns(Onwards(s).cmds, 0)
    ensures forall j :: 0 <= j < |Onwards(s).cmds| ==> IsQueued(Onwards(s).cmds[j])
    ensures Finish(w, s).1 && Finish(w, s).0.events == s.events + AllEvents(s.cmds) <==> Executable(Onwards(s))
    decreases Total(s.cmds), |s.cmds|
  {
    ResumeShape(w, s);
    var d := Resume(w, s);
    if d.cmds != [] {
      if d.idx == 0 && BurstOk(d.cmds, 0, Ends(d.regs)) {
        var t := NextInterrupt(w, s);
        BurstBytes(d);
        PrepareKeeps(d);
        ShortBurst(d.cmds, 0, Ends(d.regs));
        OutcomeExact(w, t);
      } else {
        OutOfOrder(w, s);
      }
    }
  }

  // ---- One transaction after the other ------------------------------------------------------

  /** Whatever is executed, the registers stay tidy. */
  lemma {:induction false} FinishTidy(w: Wire, s: State)
    requires Loose(s)
    ensures |Finish(w, s).0.regs| == REGISTERS && Tidy(Finish(w, s).0.regs)
    decreases Total(s.cmds), |s.cmds|
  {
    ResumeShape(w, s);
    var d := Resume(w, s);
    if d.cmds != [] {
      PrepareShape(d);
      BurstTidy(d);
      var p := Prepare(d);
      if Execute(p.regs, 0, p.tx).done {
        FinishTidy(w, Transfer(w, p));
      }
    }
  }

  /** The state in which the list `next` is begun after the execution that ended in `f`. */
  function Begun(f: State, next: seq<Cmd>): State {
    State(next, 0, false, 0, f.regs, [], [], f.got, Store(f.store.memory, f.got), f.events)
  }

  /** So after any list, executed as it was meant or not, the exact condition holds for the next one. */
  lemma NextTransaction(w: Wire, s: State, next: seq<Queued>)
    requires Sound(w, s) && Tidy(s.regs) && ShortRuns(next, 0)
    ensures var t := Begun(Finish(w, s).0, next);
            && Fresh(w, t, next) && Tidy(t.regs)
            && (Finish(w, t).1 && Finish(w, t).0.events == t.events + AllEvents(next)
                <==> Executable(Place(next, 0, Ends(t.regs))))
  {
    FinishTidy(w, s);
    FinishUsable(w, s);
    OutcomeExact(w, Begun(Finish(w, s).0, next));
  }
}
