/**
 The boot selection of over-the-air updates: two flash sectors hold a sequence
 number each, the highest valid one names the partition to boot, and a switch
 rewrites the other sector.
 */
module OtaSelect {
  import opened Sequences

  const SEQ_MAX: nat := 0xFFFF_FFFF
  const WORD: nat := 0x1_0000_0000

  type Word = n: nat | n <= SEQ_MAX

  /** A checksum of a sequence number. Nothing is assumed about it. */
  type Checksum = nat -> nat

  datatype Record = Record(otaSeq: Word, crc: nat)

  const ERASED: Record := Record(SEQ_MAX, SEQ_MAX)

  predicate RecordValid(sum: Checksum, r: Record) {
    r.otaSeq != SEQ_MAX && r.crc == sum(r.otaSeq)
  }

  datatype Boot = Factory | Slot(i: nat)

  /** The source subtracts 1 in 32-bit unsigned arithmetic. */
  function SlotOf(otaSeq: Word, count: nat): nat
    requires 0 < count
  {
    (if otaSeq == 0 then SEQ_MAX else otaSeq - 1) % count
  }

  function Max(a: Word, b: Word): Word {
    if a >= b then a else b
  }

  // ---- Arithmetic of the next sequence number ---------------------------------

  /** Slot x is named by x + 1 and, for the last slot, by 0. */
  lemma RemainderOfNext(x: nat, n: nat)
    requires x < n
    ensures (x + 1) % n == if x + 1 < n then x + 1 else 0
  {
  }

  /** A number congruent to x + 1 names slot x, unless it is 0. */
  lemma SlotOfCandidate(i: nat, x: nat, n: nat)
    requires x < n
    ensures var c := (x + 1) % n + i * n;
            1 <= c <= SEQ_MAX ==> SlotOf(c, n) == x
  {
    RemainderOfNext(x, n);
    var m := i * n;
    if x + 1 < n {
      assert (x + m) % n == x by {
        Quotient(i * n + x, i, x, n);
      }
    } else if i > 0 {
      var previous := (i - 1) * n;
      assert m == previous + n by {
        assert i * n == (i - 1) * n + n;
      }
      assert (x + previous) % n == x by {
        Quotient((i - 1) * n + x, i - 1, x, n);
      }
    }
  }

  // ---- What the two sectors hold ------------------------------------------------

  datatype Sectors = Sectors(r0: Record, r1: Record) {
    function At(sec: nat): Record {
      if sec == 0 then r0 else r1
    }

    function With(sec: nat, r: Record): Sectors {
      if sec == 0 then this.(r0 := r) else this.(r1 := r)
    }

    /** The slot that the highest valid number names, or the factory image. */
    function Boot(sum: Checksum, count: nat): Boot
      requires 0 < count
    {
      if AnyValid(sum) then Slot(SlotOf(Highest(sum), count)) else Factory
    }

    /** The sector that a switch rewrites. */
    function Spare(sum: Checksum): nat {
      if RecordValid(sum, r0) && (!RecordValid(sum, r1) || r0.otaSeq >= r1.otaSeq) then 1 else 0
    }

    /** The number that names the current choice, or 0. */
    function Highest(sum: Checksum): Word {
      Max(if RecordValid(sum, r0) then r0.otaSeq else 0, if RecordValid(sum, r1) then r1.otaSeq else 0)
    }

    predicate AnyValid(sum: Checksum) {
      RecordValid(sum, r0) || RecordValid(sum, r1)
    }
  }

  // ---- The search for a new number -------------------------------------------------

  /** The `i`th number that is tried for slot `x`, in 32-bit unsigned arithmetic. */
  function Number(x: nat, i: nat, count: nat): Word
    requires 0 < count
  {
    ((x + 1) % count + i * count) % WORD
  }

  /** `c` is the first number tried that is not below `low`. */
  ghost predicate Found(c: Word, low: nat, x: nat, count: nat)
    requires 0 < count
  {
    exists i: nat :: c == Number(x, i, count) && low <= c && FirstAt(i, low, x, count)
  }

  ghost predicate FirstAt(i: nat, low: nat, x: nat, count: nat)
    requires 0 < count
  {
    forall j: nat :: j < i ==> Number(x, j, count) < low
  }

  /** No number tried is large enough, so the search goes on for ever. */
  ghost predicate NeverFound(low: nat, x: nat, count: nat)
    requires 0 < count
  {
    forall i: nat :: Number(x, i, count) < low
  }

  /** The number of a new record for slot `x`. */
  ghost predicate NewNumber(sum: Checksum, s: Sectors, c: Word, x: nat, count: nat)
    requires 0 < count
  {
    x < count && if s.AnyValid(sum) then Found(c, s.Highest(sum), x, count) else c == x + 1
  }

  /** The largest 32-bit number that names slot `x`. */
  function LastNumber(x: nat, count: nat): nat
    requires 0 < count <= SEQ_MAX
  {
    (x + 1) % count + LastTimes(x, count) * count
  }

  function LastTimes(x: nat, count: nat): nat
    requires 0 < count <= SEQ_MAX
  {
    (SEQ_MAX - (x + 1) % count) / count
  }

  lemma LastNumberBounds(x: nat, count: nat)
    requires 0 < count <= SEQ_MAX
    ensures SEQ_MAX - count < LastNumber(x, count) <= SEQ_MAX
  {
    var rest := SEQ_MAX - (x + 1) % count;
    assert rest == rest / count * count + rest % count;
  }

  /** Two numbers with the same remainder are equal or differ by `n` at least. */
  lemma Apart(c: nat, last: nat, r: nat, i: nat, j: nat, n: nat)
    requires c == r + i * n && last == r + j * n
    ensures c == last || c + n <= last || last + n <= c
  {
    if i < j {
      TimesLe(i + 1, j, n);
    } else if j < i {
      TimesLe(j + 1, i, n);
    }
  }

  /** Up to the last number that names the slot, nothing wraps around. */
  lemma NoWrap(x: nat, i: nat, count: nat)
    requires 0 < count <= SEQ_MAX && i <= LastTimes(x, count)
    ensures Number(x, i, count) == (x + 1) % count + i * count <= LastNumber(x, count)
  {
    LastNumberBounds(x, count);
    TimesLe(i, LastTimes(x, count), count);
  }

  /** A search from `low`, if a number that names the slot is left, finds the least of these. */
  lemma FoundInTime(c: Word, low: nat, x: nat, count: nat) returns (i: nat)
    requires 0 < count <= SEQ_MAX && low <= LastNumber(x, count) && Found(c, low, x, count)
    ensures c == (x + 1) % count + i * count && low <= c < low + count && c <= LastNumber(x, count)
  {
    i :| c == Number(x, i, count) && low <= c && FirstAt(i, low, x, count);
    NoWrap(x, LastTimes(x, count), count);
    assert Number(x, LastTimes(x, count), count) >= low;
    NoWrap(x, i, count);
    if i > 0 {
      NoWrap(x, i - 1, count);
      assert Number(x, i - 1, count) < low;
      assert (i - 1) * count + count == i * count;
    }
  }

  /** A number that names slot `x` is congruent to x + 1. */
  lemma NamedForm(c: Word, x: nat, count: nat) returns (i: nat)
    requires 0 < count && x < count && 1 <= c && SlotOf(c, count) == x
    ensures c == (x + 1) % count + i * count
  {
    RemainderOfNext(x, count);
    i := (c - 1) / count;
    assert c - 1 == i * count + x;
    if x + 1 == count {
      assert (i + 1) * count == i * count + count;
      i := i + 1;
    }
  }

  /** A number that names the slot is one of the numbers up to the last one. */
  lemma NamedInTime(c: Word, x: nat, count: nat)
    requires 0 < count <= SEQ_MAX && x < count && 1 <= c && SlotOf(c, count) == x
    ensures c <= LastNumber(x, count)
  {
    var i := NamedForm(c, x, count);
    LastNumberBounds(x, count);
    Apart(c, LastNumber(x, count), (x + 1) % count, i, LastTimes(x, count), count);
  }

  /** Beyond it, the search wraps around, and what it finds names another slot. */
  lemma FoundTooLate(c: Word, low: nat, x: nat, count: nat)
    requires 0 < count <= SEQ_MAX && x < count && LastNumber(x, count) < low && Found(c, low, x, count)
    ensures LastNumber(x, count) < c <= SEQ_MAX && SlotOf(c, count) != x
  {
    if SlotOf(c, count) == x {
      NamedInTime(c, x, count);
    }
  }

  /**
   Power may fail at any moment before the new record is complete. As long as
   the spare sector holds its old record or an invalid one, the choice stands.
   */
  lemma InterruptedKeepsBoot(sum: Checksum, s: Sectors, r: Record, count: nat)
    requires 0 < count
    requires !RecordValid(sum, r)
    ensures s.With(s.Spare(sum), r).Boot(sum, count) == s.Boot(sum, count)
  {
  }

  /** A complete new record is the highest one, unless its number marks an erased sector. */
  lemma NewRecordLeads(sum: Checksum, s: Sectors, c: Word, x: nat, count: nat)
    requires 0 < count && NewNumber(sum, s, c, x, count)
    ensures var t := s.With(s.Spare(sum), Record(c, sum(c)));
            t.Boot(sum, count) == if c == SEQ_MAX then s.Boot(sum, count) else Slot(SlotOf(c, count))
  {
    if c == SEQ_MAX {
      InterruptedKeepsBoot(sum, s, Record(c, sum(c)), count);
    }
  }

  /** What boots after a completed switch to slot `x`. */
  lemma CompletedSwitches(sum: Checksum, s: Sectors, c: Word, x: nat, count: nat)
    requires 0 < count < SEQ_MAX && NewNumber(sum, s, c, x, count)
    ensures s.With(s.Spare(sum), Record(c, sum(c))).Boot(sum, count) == Chosen(s.Boot(sum, count), x, c, count)
    ensures LastNumber(x, count) < c ==> SlotOf(c, count) != x
  {
    NewRecordLeads(sum, s, c, x, count);
    LastNumberBounds(x, count);
    if !s.AnyValid(sum) {
      Quotient(x, 0, x, count);
      NamedInTime(c, x, count);
    } else if s.Highest(sum) <= LastNumber(x, count) {
      var i := FoundInTime(c, s.Highest(sum), x, count);
      SlotOfCandidate(i, x, count);
    } else {
      FoundTooLate(c, s.Highest(sum), x, count);
    }
  }

  /** The choice that number `c` makes for slot `x`. */
  function Chosen(before: Boot, x: nat, c: Word, count: nat): Boot
    requires 0 < count <= SEQ_MAX
  {
    if c == SEQ_MAX then before
    else if c == 0 then Slot(SEQ_MAX % count)
    else if c <= LastNumber(x, count) then Slot(x)
    else Slot((c - 1) % count)
  }

  /** Only a switch to the last slot, when the highest valid number is 0, is numbered 0. */
  lemma NumberedZero(sum: Checksum, s: Sectors, c: Word, x: nat, count: nat)
    requires 0 < count <= SEQ_MAX && NewNumber(sum, s, c, x, count)
    ensures c == 0 <==> s.AnyValid(sum) && s.Highest(sum) == 0 && x + 1 == count
  {
    RemainderOfNext(x, count);
    if s.AnyValid(sum) && s.Highest(sum) <= LastNumber(x, count) {
      var i := FoundInTime(c, s.Highest(sum), x, count);
      if i > 0 {
        TimesLe(1, i, count);
      }
    }
  }

  /** The new number is one that names the slot exactly when the highest valid number leaves one. */
  lemma NumberFits(sum: Checksum, s: Sectors, c: Word, x: nat, count: nat)
    requires 0 < count < SEQ_MAX && NewNumber(sum, s, c, x, count)
    ensures c <= LastNumber(x, count) <==> s.AnyValid(sum) ==> s.Highest(sum) <= LastNumber(x, count)
  {
    if !s.AnyValid(sum) {
      Quotient(x, 0, x, count);
      NamedInTime(c, x, count);
    } else if s.Highest(sum) <= LastNumber(x, count) {
      var i := FoundInTime(c, s.Highest(sum), x, count);
    }
  }

  /** The number that marks an erased sector is taken, as one that names the slot, near the end only. */
  lemma NumberedLast(sum: Checksum, s: Sectors, c: Word, x: nat, count: nat)
    requires 0 < count < SEQ_MAX && NewNumber(sum, s, c, x, count)
    ensures c == SEQ_MAX == LastNumber(x, count) <==>
            s.AnyValid(sum) && LastNumber(x, count) == SEQ_MAX && SEQ_MAX - count < s.Highest(sum)
  {
    if s.AnyValid(sum) && LastNumber(x, count) == SEQ_MAX {
      var i := FoundInTime(c, s.Highest(sum), x, count);
      Apart(c, SEQ_MAX, (x + 1) % count, i, LastTimes(x, count), count);
    }
  }

  /**
   A switch, once completed, chooses slot `x`. It does not when the highest valid
   number leaves no 32-bit number that names the slot; when it leaves only the one
   that marks an erased sector, and another slot was chosen before; and when that
   number is 0, the last slot is asked for, and 2^32 is no multiple of the number
   of slots. All of this can be told beforehand.
   */
  predicate Hits(sum: Checksum, s: Sectors, x: nat, count: nat)
    requires 0 < count <= SEQ_MAX
  {
    || !s.AnyValid(sum)
    || (&& s.Highest(sum) <= LastNumber(x, count)
        && (SEQ_MAX - count < s.Highest(sum) && LastNumber(x, count) == SEQ_MAX ==> s.Boot(sum, count) == Slot(x))
        && (s.Highest(sum) == 0 && x + 1 == count ==> SEQ_MAX % count == x))
  }

  lemma SwitchesExactly(sum: Checksum, s: Sectors, c: Word, x: nat, count: nat)
    requires 0 < count < SEQ_MAX && NewNumber(sum, s, c, x, count)
    ensures s.With(s.Spare(sum), Record(c, sum(c))).Boot(sum, count) == Slot(x) <==> Hits(sum, s, x, count)
  {
    CompletedSwitches(sum, s, c, x, count);
    NumberFits(sum, s, c, x, count);
    if c <= LastNumber(x, count) {
      NumberedZero(sum, s, c, x, count);
      NumberedLast(sum, s, c, x, count);
      LastNumberBounds(x, count);
    } else {
      HighestNamesOther(sum, s, x, count);
    }
  }

  lemma HighestNamesOther(sum: Checksum, s: Sectors, x: nat, count: nat)
    requires 0 < count <= SEQ_MAX && x < count && s.AnyValid(sum) && LastNumber(x, count) < s.Highest(sum)
    ensures s.Boot(sum, count) != Slot(x)
  {
    if SlotOf(s.Highest(sum), count) == x {
      NamedInTime(s.Highest(sum), x, count);
    }
  }

  /** The last slot of three is missed when a valid record is numbered 0. */
  lemma ZeroSequenceCanMiss(sum: Checksum)
    ensures var s := Sectors(Record(0, sum(0)), ERASED);
            && NewNumber(sum, s, 0, 2, 3)
            && s.With(s.Spare(sum), Record(0, sum(0))).Boot(sum, 3) == Slot(0)
  {
    assert Number(2, 0, 3) == 0 && FirstAt(0, 0, 2, 3);
  }

  /**
   With three slots and a valid record numbered 2^32 - 2, the search for slot 0
   wraps around. It finds the number that marks an erased sector, so slot 1, which
   was chosen before, still boots.
   */
  lemma WrappedSearchMisses(sum: Checksum)
    ensures var s := Sectors(Record(SEQ_MAX - 1, sum(SEQ_MAX - 1)), ERASED);
            && NewNumber(sum, s, SEQ_MAX, 0, 3)
            && s.Boot(sum, 3) == s.With(s.Spare(sum), Record(SEQ_MAX, sum(SEQ_MAX))).Boot(sum, 3) == Slot(1)
  {
    var i := 2863311530;
    assert Number(0, i, 3) == SEQ_MAX;
    forall j: nat | j < i
      ensures Number(0, j, 3) < SEQ_MAX - 1
    {
      var q := (1 + j * 3) / WORD;
      assert 1 + j * 3 == q * WORD + Number(0, j, 3) && 0 <= q <= 1;
    }
    assert FirstAt(i, SEQ_MAX - 1, 0, 3);
  }

  // ---- When the search ends ---------------------------------------------------------

  /** The power of two that divides a number of slots. */
  function Even(count: nat): nat {
    if count % 16 == 0 then 16
    else if count % 8 == 0 then 8
    else if count % 4 == 0 then 4
    else if count % 2 == 0 then 2
    else 1
  }

  /** Odd numbers have an inverse modulo 2^32. */
  function Inverse(odd: nat): nat {
    match odd
    case 1 => 1
    case 3 => 0xAAAA_AAAB
    case 5 => 0xCCCC_CCCD
    case 7 => 0xB6DB_6DB7
    case 9 => 0x38E3_8E39
    case 11 => 0xBA2E_8BA3
    case 13 => 0xC4EC_4EC5
    case 15 => 0xEEEE_EEEF
    case _ => 0
  }

  /** The largest 32-bit number that the search can come to. */
  function LastTried(x: nat, count: nat): nat {
    WORD - Even(count) + (x + 1) % Even(count)
  }

  lemma InverseTimes(odd: nat) returns (k: nat)
    requires odd < 16 && odd % 2 == 1
    ensures Inverse(odd) * odd == 1 + k * WORD
  {
    k := Inverse(odd) * odd / WORD;
  }

  lemma OddPart(count: nat) returns (m: nat)
    requires 0 < count <= 16
    ensures count == Even(count) * m && m < 16 && m % 2 == 1
  {
    m := count / Even(count);
  }

  /** Multiples of `n` that are cut off at 2^32 keep what they leave as remainder. */
  lemma Residue(a: nat, z: int, q: int, n: nat, w: nat, c: Word)
    requires 0 < n && WORD == n * w && c == a + n * z - q * (n * w)
    ensures c <= WORD - n + a % n
  {
    var k := a / n + z - q * w;
    assert c == a % n + k * n by {
      assert a == a / n * n + a % n;
      assert k * n == a / n * n + n * z - q * (n * w);
    }
    if w <= k {
      TimesLe(w, k, n);
    } else {
      TimesLe(k, w - 1, n);
    }
  }

  lemma Factor(i: int, count: int, n: int, m: int)
    requires count == n * m
    ensures i * count == n * (i * m)
  {
  }

  lemma Division(a: nat, count: nat) returns (t: nat)
    requires 0 < count
    ensures a == t * count + a % count
  {
    t := a / count;
  }

  lemma TriedAtMost(x: nat, i: nat, count: nat)
    requires 0 < count <= 16
    ensures Number(x, i, count) <= LastTried(x, count)
  {
    var n := Even(count);
    var m := OddPart(count);
    var r := (x + 1) % count;
    var t := Division(x + 1, count);
    var q := (r + i * count) / WORD;
    assert r + i * count == q * WORD + Number(x, i, count);
    Factor(i, count, n, m);
    Factor(t, count, n, m);
    assert n * (i * m - t * m) == n * (i * m) - n * (t * m);
    Residue(x + 1, i * m - t * m, q, n, WORD / n, Number(x, i, count));
  }

  /** The inverse of the odd part leads to any number with the right remainder. */
  lemma Leads(r: nat, last: Word, d: nat, n: nat, m: nat, inverse: nat, k: nat)
    requires inverse * m == 1 + k * WORD && d * n == last + WORD - r
    ensures (r + d * inverse * (n * m)) % WORD == last
  {
    var over := 1 + d * n * k;
    calc {
      r + d * inverse * (n * m);
      r + d * n * (inverse * m);
      r + d * n * (1 + k * WORD);
      r + d * n + d * n * k * WORD;
      last + over * WORD;
    }
    Quotient(over * WORD + last, over, last, WORD);
  }

  lemma LastIsTried(x: nat, count: nat) returns (i: nat)
    requires 0 < count <= 16
    ensures Number(x, i, count) == LastTried(x, count)
  {
    var n := Even(count);
    var m := OddPart(count);
    var k := InverseTimes(m);
    var d := Steps(x, count, n, m);
    i := d * Inverse(m);
    Leads((x + 1) % count, LastTried(x, count), d, n, m, Inverse(m), k);
  }

  lemma Steps(x: nat, count: nat, n: nat, m: nat) returns (d: nat)
    requires 0 < count <= 16 && n == Even(count) && count == n * m
    ensures d * n == LastTried(x, count) + WORD - (x + 1) % count
  {
    var t := Division(x + 1, count);
    Factor(t, count, n, m);
    d := Distance(x, (x + 1) % count, t * m, n);
  }

  /** How far it is, in steps of `n`, from the first number tried to the last one. */
  lemma Distance(x: nat, r: nat, u: nat, n: nat) returns (d: nat)
    requires n in {1, 2, 4, 8, 16} && x + 1 == n * u + r && r <= 16
    ensures d * n == 2 * WORD - n + (x + 1) % n - r
  {
    SameRemainder(x + 1, r, u, n);
    match n {
      case 1 => d := 2 * WORD - 1 - r;
      case 2 => d := WORD - 1 - r / 2;
      case 4 => d := WORD / 2 - 1 - r / 4;
      case 8 => d := WORD / 4 - 1 - r / 8;
      case _ => d := WORD / 8 - 1 - r / 16;
    }
  }

  lemma SameRemainder(a: nat, r: nat, u: nat, n: nat)
    requires 0 < n && a == n * u + r
    ensures a % n == r % n
  {
    var q := r / n;
    assert a == r % n + (u + q) * n by {
      assert r == q * n + r % n;
    }
    Quotient((u + q) * n + r % n, u + q, r % n, n);
  }

  /** The search ends exactly when the highest valid number is not beyond the last number that it can come to. */
  lemma SearchEndsExactly(low: Word, x: nat, count: nat)
    requires 0 < count <= 16
    ensures NeverFound(low, x, count) <==> LastTried(x, count) < low
    ensures (exists c: Word :: Found(c, low, x, count)) <==> low <= LastTried(x, count)
  {
    forall i: nat
      ensures Number(x, i, count) <= LastTried(x, count)
    {
      TriedAtMost(x, i, count);
    }
    var last := LastIsTried(x, count);
    if low <= LastTried(x, count) {
      var i := First(last, low, x, count);
      assert Found(Number(x, i, count), low, x, count);
    }
  }

  lemma {:induction false} First(last: nat, low: Word, x: nat, count: nat) returns (i: nat)
    requires 0 < count && low <= Number(x, last, count)
    ensures low <= Number(x, i, count) && FirstAt(i, low, x, count)
    decreases last
  {
    if j: nat :| j < last && low <= Number(x, j, count) {
      i := First(j, low, x, count);
    } else {
      i := last;
    }
  }

  /** With four slots and a valid record numbered 2^32 - 2, the switch to slot 0 never returns. */
  lemma SearchCanBeEndless()
    ensures NeverFound(SEQ_MAX - 1, 0, 4)
  {
    SearchEndsExactly(SEQ_MAX - 1, 0, 4);
  }

  /** The counter of the search is a 32-bit number, too. */
  lemma Periodic(x: nat, i: nat, count: nat)
    requires 0 < count
    ensures Number(x, i, count) == Number(x, i % WORD, count)
  {
    var r, q, j := (x + 1) % count, i / WORD, i % WORD;
    var c, p := Number(x, j, count), (r + j * count) / WORD;
    assert r + j * count == c + p * WORD;
    assert i * count == q * count * WORD + j * count by {
      assert i == q * WORD + j;
    }
    var over := p + q * count;
    assert over * WORD == p * WORD + q * count * WORD;
    Quotient(over * WORD + c, over, c, WORD);
  }

  // ---- Any number of switches and power failures --------------------------------

  /** One attempt to select slot `x`: complete with number `c`, or cut short. */
  datatype Attempt = Complete(x: nat, c: Word) | CutShort(torn: Record) | CutEarly

  ghost predicate Possible(sum: Checksum, count: nat, s: Sectors, a: Attempt)
    requires 0 < count
  {
    match a
    case Complete(x, c) => NewNumber(sum, s, c, x, count)
    case CutShort(torn) => !RecordValid(sum, torn)
    case CutEarly => true
  }

  function After(sum: Checksum, s: Sectors, a: Attempt): Sectors {
    match a
    case Complete(_, c) => s.With(s.Spare(sum), Record(c, sum(c)))
    case CutShort(torn) => s.With(s.Spare(sum), torn)
    case CutEarly => s
  }

  ghost predicate PossibleRun(sum: Checksum, count: nat, s: Sectors, attempts: seq<Attempt>)
    requires 0 < count < SEQ_MAX
    decreases |attempts|
  {
    attempts == []
    || (Possible(sum, count, s, attempts[0]) && PossibleRun(sum, count, After(sum, s, attempts[0]), attempts[1..]))
  }

  function AfterRun(sum: Checksum, s: Sectors, attempts: seq<Attempt>): Sectors
    decreases |attempts|
  {
    if attempts == [] then s else AfterRun(sum, After(sum, s, attempts[0]), attempts[1..])
  }

  /** The choice of the last completed attempt, or what was chosen before. */
  function LastCompleted(boot: Boot, count: nat, attempts: seq<Attempt>): Boot
    requires 0 < count < SEQ_MAX
    decreases |attempts|
  {
    if attempts == [] then boot
    else
      match attempts[0]
      case Complete(x, c) => LastCompleted(Chosen(boot, x, c, count), count, attempts[1..])
      case _ => LastCompleted(boot, count, attempts[1..])
  }

  /** After any history, the device boots what the last completed switch has chosen. */
  lemma {:induction false} BootsLastCompleted(sum: Checksum, count: nat, s: Sectors, attempts: seq<Attempt>)
    requires 0 < count < SEQ_MAX && PossibleRun(sum, count, s, attempts)
    ensures AfterRun(sum, s, attempts).Boot(sum, count) == LastCompleted(s.Boot(sum, count), count, attempts)
    decreases |attempts|
  {
    if attempts != [] {
      var t := After(sum, s, attempts[0]);
      match attempts[0] {
        case Complete(x, c) => CompletedSwitches(sum, s, c, x, count);
        case CutShort(torn) => InterruptedKeepsBoot(sum, s, torn, count);
        case CutEarly =>
      }
      BootsLastCompleted(sum, count, t, attempts[1..]);
    }
  }

  // ---- The functions of the source, in place ------------------------------------

  /** When the power fails, or a flash operation fails, during a rewrite. */
  datatype Cut = NoCut | BeforeErase | Erasing(torn: Record) | BeforeWrite | Writing(torn: Record)

  datatype Result = Done | Incomplete | InvalidArg | Endless

  class OtaData {
    const sum: Checksum
    const count: nat
    const flash: array<Record>
    const select: array<Record>

    ghost predicate Valid() {
      flash.Length == 2 && select.Length == 2 && flash != select && 0 < count <= 16
    }

    ghost function Now(): Sectors
      requires Valid()
      reads flash
    {
      Sectors(flash[0], flash[1])
    }

    constructor (checksum: Checksum, partitions: nat, data: array<Record>)
      requires data.Length == 2 && 0 < partitions <= 16
      ensures Valid() && flash == data && sum == checksum && count == partitions && fresh(select)
    {
      sum, count, flash := checksum, partitions, data;
      select := new Record[2];
    }

    /** Which partition the boot selection names. */
    method GetBootPartition() returns (b: Boot)
      requires Valid()
      modifies select
      ensures b == Now().Boot(sum, count)
    {
      select[0], select[1] := flash[0], flash[1];
      if select[0].otaSeq == SEQ_MAX && select[1].otaSeq == SEQ_MAX {
        b := Factory;
      } else if RecordValid(sum, select[0]) && RecordValid(sum, select[1]) {
        b := Slot(SlotOf(Max(select[0].otaSeq, select[1].otaSeq), count));
      } else if RecordValid(sum, select[0]) {
        b := Slot(SlotOf(select[0].otaSeq, count));
      } else if RecordValid(sum, select[1]) {
        b := Slot(SlotOf(select[1].otaSeq, count));
      } else {
        b := Factory;
      }
    }

    /** Erases sector `sec` and writes a record numbered `n` into it. */
    method RewriteSeq(n: Word, sec: nat, cut: Cut) returns (res: Result)
      requires Valid() && sec < 2
      requires cut.Erasing? || cut.Writing? ==> !RecordValid(sum, cut.torn)
      modifies select, flash
      ensures res == if cut == NoCut then Done else Incomplete
      ensures res == Done ==> Now() == old(Now()).With(sec, Record(n, sum(n)))
      ensures res == Incomplete ==>
                || Now() == old(Now())
                || exists r :: !RecordValid(sum, r) && Now() == old(Now()).With(sec, r)
    {
      select[sec] := Record(n, sum(n));
      if cut == BeforeErase {
        return Incomplete;
      }
      if cut.Erasing? {
        flash[sec] := cut.torn;
        return Incomplete;
      }
      flash[sec] := ERASED;
      if cut == BeforeWrite {
        assert !RecordValid(sum, ERASED) && Now() == old(Now()).With(sec, ERASED);
        return Incomplete;
      }
      if cut.Writing? {
        flash[sec] := cut.torn;
        return Incomplete;
      }
      flash[sec] := select[sec];
      return Done;
    }

    /** The first number tried that is not below `low`. A search that has tried all never ends. */
    method NextSeq(low: Word, x: nat) returns (c: Option<Word>)
      requires Valid() && x < count
      ensures c.Some? ==> Found(c.value, low, x, count)
      ensures c == None <==> LastTried(x, count) < low
    {
      SearchEndsExactly(low, x, count);
      var i: Word := 0;
      while low > Number(x, i, count)
        invariant FirstAt(i, low, x, count)
        decreases SEQ_MAX - i
      {
        if i == SEQ_MAX {
          forall j: nat
            ensures Number(x, j, count) < low
          {
            Periodic(x, j, count);
            assert j % WORD < i || j % WORD == i;
          }
          return None;
        }
        i := i + 1;
      }
      return Some(Number(x, i, count));
    }

    /** The number of a new record for slot `x`, and the sector to write it to. */
    method NewRecord(x: nat) returns (c: Option<Word>, sec: nat)
      requires Valid() && x < count && select[0] == flash[0] && select[1] == flash[1]
      ensures sec == Now().Spare(sum)
      ensures c.Some? ==> NewNumber(sum, Now(), c.value, x, count)
      ensures c == None <==> Now().AnyValid(sum) && LastTried(x, count) < Now().Highest(sum)
    {
      if RecordValid(sum, select[0]) && RecordValid(sum, select[1]) {
        c := NextSeq(Max(select[0].otaSeq, select[1].otaSeq), x);
        sec := if select[0].otaSeq >= select[1].otaSeq then 1 else 0;
      } else if RecordValid(sum, select[0]) {
        c := NextSeq(select[0].otaSeq, x);
        sec := 1;
      } else if RecordValid(sum, select[1]) {
        c := NextSeq(select[1].otaSeq, x);
        sec := 0;
      } else {
        c := Some(x + 1);
        sec := 0;
      }
    }

    /**
     Selects the partition with sub-type id `subtype`. An interrupted call
     leaves the choice alone; `c` is the number of a completed one.
     */
    method RewriteOtaData(subtype: nat, cut: Cut) returns (res: Result, ghost c: Word)
      requires Valid()
      requires cut.Erasing? || cut.Writing? ==> !RecordValid(sum, cut.torn)
      modifies select, flash
      ensures res == InvalidArg <==> subtype % 16 >= count
      ensures res == Endless <==>
              && subtype % 16 < count && old(Now().AnyValid(sum))
              && LastTried(subtype % 16, count) < old(Now().Highest(sum))
      ensures res == InvalidArg || res == Endless ==> Now() == old(Now())
      ensures res == Incomplete ==> Now().Boot(sum, count) == old(Now().Boot(sum, count))
      ensures res == Done ==>
                && NewNumber(sum, old(Now()), c, subtype % 16, count)
                && Now().Boot(sum, count) == Chosen(old(Now().Boot(sum, count)), subtype % 16, c, count)
                && (Now().Boot(sum, count) == Slot(subtype % 16) <==> Hits(sum, old(Now()), subtype % 16, count))
    {
      var x := subtype % 16;
      c := 0;
      if x >= count {
        return InvalidArg, c;
      }
      select[0], select[1] := flash[0], flash[1];
      ghost var s := Now();
      var n, sec := NewRecord(x);
      if n == None {
        return Endless, c;
      }
      c := n.value;
      CompletedSwitches(sum, s, c, x, count);
      SwitchesExactly(sum, s, c, x, count);
      res := RewriteSeq(n.value, sec, cut);
      if res == Incomplete && Now() != s {
        var r :| !RecordValid(sum, r) && Now() == s.With(sec, r);
        InterruptedKeepsBoot(sum, s, r, count);
      }
    }
  }
}
