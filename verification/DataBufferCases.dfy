/** Runs of the audio stream in which a byte is lost, or read twice. */
module DataBufferCases {
  import opened Sequences
  import opened DataBuffer

  const FIRST_READ: seq<Passed> := [Passed(1, Once), Passed(2, Once)]

  ghost predicate Leads(s: State, run: seq<Action>, t: State) {
    PossibleRun(s, run) && After(s, run) == t
  }

  ghost predicate Reachable(count: nat, len: nat, t: State)
    requires 0 < count
  {
    exists run :: Leads(Init(count, len), run, t)
  }

  lemma {:induction false} LeadsFurther(s: State, run: seq<Action>, t: State, a: Action)
    requires Leads(s, run, t) && t.Enabled(a) && t.Bounded()
    ensures Leads(s, run + [a], t.Step(a))
    decreases |run|
  {
    if run == [] {
      assert [a][1..] == [];
    } else {
      assert (run + [a])[1..] == run[1..] + [a];
      LeadsFurther(s.Step(run[0]), run[1..], t, a);
    }
  }

  lemma Reach(s: State, a: Action, t: State)
    requires Reachable(2, 2, s) && s.Enabled(a) && s.Bounded() && s.Step(a) == t
    ensures Reachable(2, 2, t)
  {
    var run :| Leads(Init(2, 2), run, s);
    LeadsFurther(Init(2, 2), run, s, a);
  }

  lemma ReachFilled(s: State, bytes: seq<byte>, data: seq<seq<byte>>)
    requires Reachable(2, 2, s) && s.Enabled(WriteRest(bytes)) && s.Bounded() && s.len == |bytes|
    requires data == s.data[s.w := bytes]
    ensures Reachable(2, 2, s.(data := data, writer := Copied, written := s.written + bytes))
  {
    var t := s.Step(WriteRest(bytes));
    assert s.used[s.w] == 0 && Overwrite(s.data[s.w], 0, bytes) == bytes;
    assert t.used == s.used;
    Reach(s, WriteRest(bytes), t);
  }

  /** Two buffers of two bytes, the first of them full. */
  const HALF_FULL: State :=
    State(2, [true, false], [0, 0], [[1, 2], [0, 0]], 1, 0, Working, Working, 1, [1, 2], [], [])

  lemma ReachFirstFilled()
    ensures Reachable(2, 2,
              State(2, [false, false], [0, 0], [[1, 2], [0, 0]], 0, 0, Copied, Working, 0, [1, 2], [], []))
  {
    var s := State(2, [false, false], [0, 0], [[0, 0], [0, 0]], 0, 0, Working, Working, 0, [], [], []);
    var init := Init(2, 2);
    assert init.prepared == s.prepared && init.used == s.used;
    assert init.data[0] == [0, 0] && init.data[1] == [0, 0] && init.data == s.data;
    assert Leads(init, [], s);
    ReachFilled(s, [1, 2], [[1, 2], [0, 0]]);
    assert s.written + [1, 2] == [1, 2];
  }

  lemma ReachHalfFull()
    ensures Reachable(2, 2, HALF_FULL)
  {
    ReachFirstFilled();
    var s1 := State(2, [false, false], [0, 0], [[1, 2], [0, 0]], 0, 0, Copied, Working, 0, [1, 2], [], []);
    var s2 := s1.(prepared := [true, false], writer := Marked);
    Reach(s1, MarkPrepared, s2);
    Reach(s2, MoveWriter, s2.(w := 1, writer := Moved));
    Reach(s2.(w := 1, writer := Moved), ClearForWriter, s2.(w := 1, writer := Cleared));
    Reach(s2.(w := 1, writer := Cleared), CountUp, HALF_FULL);
  }

  /** The reader has emptied the first buffer and is at the second one, not looking yet. */
  const READER_MOVED: State :=
    State(2, [false, false], [0, 0], [[1, 2], [0, 0]], 1, 1, Working, Moved, 1, [1, 2], [1, 2], FIRST_READ)

  lemma ReachReaderMoved()
    ensures Reachable(2, 2, READER_MOVED)
  {
    ReachHalfFull();
    var s1 := HALF_FULL.(reader := Copied, read := [1, 2], past := FIRST_READ);
    assert All([1, 2], Once) == FIRST_READ;
    Reach(HALF_FULL, ReadRest, s1);
    var s2 := s1.(prepared := [false, false], reader := Marked);
    Reach(s1, MarkUnprepared, s2);
    Reach(s2, MoveReader, READER_MOVED);
  }

  /** The writer has put a byte into the second buffer, and the reader has cleared its offset. */
  const BYTE_LOST: State :=
    State(2, [false, false], [0, 0], [[1, 2], [3, 0]], 1, 1, Working, Working, 0, [1, 2, 3], [1, 2],
          FIRST_READ + [Passed(3, Lost)])

  lemma ReachByteLost()
    ensures Reachable(2, 2, BYTE_LOST)
  {
    ReachReaderMoved();
    var s1 := READER_MOVED.(data := [[1, 2], [3, 0]], used := [0, 1], written := [1, 2, 3]);
    assert Overwrite([0, 0], 0, [3]) == [3, 0];
    Reach(READER_MOVED, WriteSome([3]), s1);
    var s2 := s1.(used := [0, 0], reader := Cleared, past := FIRST_READ + [Passed(3, Lost)]);
    assert All([3], Lost) == [Passed(3, Lost)];
    Reach(s1, ClearForReader, s2);
    Reach(s2, CountDown, BYTE_LOST);
  }

  /** A reader that moves to a buffer in progress makes the writer lose a byte. */
  lemma ReaderCanLoseBytes()
    ensures exists t :: Reachable(2, 2, t) && Passed(3, Lost) in t.past
                        && t.read == [1, 2, 4, 5] && t.written == [1, 2, 3, 4, 5]
  {
    ReachByteLost();
    ReachFilled(BYTE_LOST, [4, 5], [[1, 2], [4, 5]]);
    var s1 := BYTE_LOST.(data := [[1, 2], [4, 5]], writer := Copied, written := [1, 2, 3, 4, 5]);
    assert s1.written == BYTE_LOST.written + [4, 5];
    var s2 := s1.(prepared := [false, true], writer := Marked);
    Reach(s1, MarkPrepared, s2);
    var s3 := s2.(reader := Copied, read := [1, 2, 4, 5], past := s2.past + All([4, 5], Once));
    Reach(s2, ReadRest, s3);
    assert s3.past[2] == Passed(3, Lost);
  }

  /** Both buffers are full, and the writer has moved on to the first one. */
  const CAUGHT_UP: State :=
    State(2, [true, true], [0, 0], [[1, 2], [3, 4]], 0, 0, Moved, Working, 1, [1, 2, 3, 4], [], [])

  lemma ReachCaughtUp()
    ensures Reachable(2, 2, CAUGHT_UP)
  {
    ReachHalfFull();
    ReachFilled(HALF_FULL, [3, 4], [[1, 2], [3, 4]]);
    var s1 := HALF_FULL.(data := [[1, 2], [3, 4]], writer := Copied, written := [1, 2, 3, 4]);
    assert s1.written == HALF_FULL.written + [3, 4];
    var s2 := s1.(prepared := [true, true], writer := Marked);
    Reach(s1, MarkPrepared, s2);
    Reach(s2, MoveWriter, CAUGHT_UP);
  }

  /** The reader has read one byte of the first buffer, and the writer has cleared its offset. */
  const OFFSET_CLEARED: State :=
    State(2, [true, true], [0, 0], [[1, 2], [3, 4]], 0, 0, Cleared, Working, 1, [1, 2, 3, 4], [1], [Passed(1, Again)])

  lemma ReachOneRead()
    ensures Reachable(2, 2, CAUGHT_UP.(used := [1, 0], read := [1], past := [Passed(1, Once)]))
  {
    ReachCaughtUp();
    assert All([1], Once) == [Passed(1, Once)];
    Reach(CAUGHT_UP, ReadSome(1), CAUGHT_UP.(used := [1, 0], read := [1], past := [Passed(1, Once)]));
  }

  lemma ReachOffsetCleared()
    ensures Reachable(2, 2, OFFSET_CLEARED)
  {
    ReachOneRead();
    var s := CAUGHT_UP.(used := [1, 0], read := [1], past := [Passed(1, Once)]);
    assert All([1], Again) == [Passed(1, Again)];
    assert s.past[..0] == [] && s.data[0][..1] == [1];
    assert Recalled(s.past, [1]) == [Passed(1, Again)];
    Reach(s, ClearForWriter, OFFSET_CLEARED);
  }

  /** A writer that catches up with the reader makes it read a byte again. */
  lemma WriterCanRepeatBytes()
    ensures exists t :: Reachable(2, 2, t) && Passed(1, Again) in t.past
                        && t.read == [1, 1, 2] && t.written == [1, 2, 3, 4]
  {
    ReachOffsetCleared();
    var t := OFFSET_CLEARED.(reader := Copied, read := [1, 1, 2], past := [Passed(1, Again)] + FIRST_READ);
    assert All([1, 2], Once) == FIRST_READ;
    Reach(OFFSET_CLEARED, ReadRest, t);
    assert t.past[0] == Passed(1, Again);
  }
}
