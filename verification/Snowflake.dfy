/**
 Snowflake ids: a timestamp, a worker's number and a sequence number shifted into one 64-bit word.
 The clock is what its readings are; a generator that has to wait reads on until the clock moves.
 */
module Snowflake {
  const START_TIME := 1498608000000
  const WORKER_ID_BITS := 10
  const SEQUENCE_BITS := 12
  const WORKER_ID_MOVE_BITS := SEQUENCE_BITS
  const TIMESTAMP_MOVE_BITS := SEQUENCE_BITS + WORKER_ID_BITS
  const TIMESTAMP_BITS := 41

  // ---------- words ----------

  function Pow2(n: nat): (p: nat)
    ensures p > 0
  {
    if n == 0 then 1 else 2 * Pow2(n - 1)
  }

  const MAX_WORKER_ID := Pow2(WORKER_ID_BITS) - 1
  const SEQUENCE_MASK := Pow2(SEQUENCE_BITS) - 1
  const WORD := Pow2(64)

  /** `a | b` of unsigned numbers. */
  function Or(a: nat, b: nat): nat {
    if a == 0 && b == 0 then 0
    else 2 * Or(a / 2, b / 2) + if a % 2 == 1 || b % 2 == 1 then 1 else 0
  }

  /** `a & b` of unsigned numbers. */
  function And(a: nat, b: nat): nat {
    if a == 0 || b == 0 then 0
    else 2 * And(a / 2, b / 2) + if a % 2 == 1 && b % 2 == 1 then 1 else 0
  }

  /** `x << n` in an unsigned 64-bit word. */
  function ShiftLeft(x: int, n: nat): nat {
    (x * Pow2(n)) % WORD
  }

  /** A 64-bit word read as a `long`. */
  function Signed(w: nat): int {
    if w >= Pow2(63) then w - WORD else w
  }

  lemma {:induction false} OrDisjoint(a: nat, b: nat, n: nat)
    requires b < Pow2(n)
    ensures Or(a * Pow2(n), b) == a * Pow2(n) + b
    decreases n
  {
    if n == 0 {
      OrZero(a);
    } else {
      var high := a * Pow2(n);
      assert high == 2 * (a * Pow2(n - 1));
      OrDisjoint(a, b / 2, n - 1);
      assert high / 2 == a * Pow2(n - 1) && high % 2 == 0;
      if high == 0 && b == 0 {
      } else {
        assert Or(high, b) == 2 * Or(high / 2, b / 2) + b % 2;
      }
    }
  }

  lemma {:induction false} OrZero(a: nat)
    ensures Or(a, 0) == a
  {
    if a > 0 {
      OrZero(a / 2);
    }
  }

  lemma AndStep(a: nat, p: nat)
    requires a > 0 && p > 0
    ensures And(a, 2 * p - 1) == 2 * And(a / 2, p - 1) + a % 2
  {
    var m := 2 * p - 1;
    assert m / 2 == p - 1 && m % 2 == 1;
  }

  lemma {:induction false} AndMask(a: nat, n: nat, p: nat)
    requires p == Pow2(n)
    ensures And(a, p - 1) == a % p
    decreases n
  {
    if n > 0 && a > 0 {
      var half := Pow2(n - 1);
      AndStep(a, half);
      AndMask(a / 2, n - 1, half);
      HalfMod(a, half);
    }
  }

  lemma HalfMod(a: nat, p: nat)
    requires p > 0
    ensures a % (2 * p) == 2 * ((a / 2) % p) + a % 2
  {
    var q, r := (a / 2) / p, (a / 2) % p;
    assert a / 2 == p * q + r;
    assert a == (2 * p) * q + (2 * r + a % 2);
    ModIs(a, 2 * p, q, 2 * r + a % 2);
  }

  lemma MultipleOf(m: nat, d: int)
    requires m > 0
    ensures d >= 1 ==> m * d >= m
    ensures d <= -1 ==> m * d <= 0 - m
  {
  }

  lemma ModIs(a: nat, m: nat, q: nat, r: nat)
    requires m > 0 && a == m * q + r && r < m
    ensures a % m == r && a / m == q
  {
    var d := a / m - q;
    assert a == m * (a / m) + a % m;
    assert m * d == r - a % m;
    MultipleOf(m, d);
  }

  // ---------- the generator ----------

  /** The last timestamp used and the last sequence number. */
  datatype State = State(lastTimestamp: int, sequence: nat)

  const INITIAL := State(-1, 0)

  datatype Outcome =
    | Issued(id: int)
    | ClockMovedBackwards(millis: int)
    | StillWaiting

  /** The timestamp, the worker and the sequence number, shifted and or-ed. */
  function Word(timestamp: int, workerId: nat, sequence: nat): int {
    Signed(Or(Or(ShiftLeft(timestamp - START_TIME, TIMESTAMP_MOVE_BITS), ShiftLeft(workerId, WORKER_ID_MOVE_BITS)),
      sequence))
  }

  /** The first reading after the last timestamp, if there is one. */
  function NextMillis(readings: seq<int>, lastTimestamp: int): (t: int)
    ensures t > lastTimestamp || t == lastTimestamp
    ensures t > lastTimestamp ==> t in readings
    ensures t == lastTimestamp ==> forall r :: r in readings ==> r <= lastTimestamp
  {
    if readings == [] then lastTimestamp
    else
      assert forall r :: r in readings ==> r == readings[0] || r in readings[1..];
      if readings[0] > lastTimestamp then readings[0] else NextMillis(readings[1..], lastTimestamp)
  }

  /** What a call does: the clock reads `now`, and `later` while it waits. */
  function Next(s: State, workerId: nat, now: int, later: seq<int>): (State, Outcome) {
    if now < s.lastTimestamp then (s, ClockMovedBackwards(s.lastTimestamp - now))
    else if now == s.lastTimestamp then
      var sequence := And(s.sequence + 1, SEQUENCE_MASK);
      if sequence == 0 then
        var t := NextMillis(later, s.lastTimestamp);
        if t == s.lastTimestamp then (State(s.lastTimestamp, 0), StillWaiting)
        else (State(t, 0), Issued(Word(t, workerId, 0)))
      else (State(now, sequence), Issued(Word(now, workerId, sequence)))
    else (State(now, 0), Issued(Word(now, workerId, 0)))
  }

  class SnowflakeIdGenerator {
    const workerId: nat
    var sequence: nat
    var lastTimestamp: int

    constructor (workerId: nat)
      requires workerId <= MAX_WORKER_ID
      ensures this.workerId == workerId && Now() == INITIAL
    {
      this.workerId := workerId;
      sequence, lastTimestamp := 0, -1;
    }

    ghost function Now(): State
      reads this
    {
      State(lastTimestamp, sequence)
    }

    method NextId(now: int, later: seq<int>) returns (outcome: Outcome)
      modifies this
      ensures (Now(), outcome) == Next(old(Now()), workerId, now, later)
    {
      var timestamp := now;
      if timestamp < lastTimestamp {
        return ClockMovedBackwards(lastTimestamp - timestamp);
      }
      if lastTimestamp == timestamp {
        sequence := And(sequence + 1, SEQUENCE_MASK);
        if sequence == 0 {
          timestamp := BlockTillNextMillis(later);
          if timestamp <= lastTimestamp {
            return StillWaiting;
          }
        }
      } else {
        sequence := 0;
      }
      lastTimestamp := timestamp;
      return Issued(Word(timestamp, workerId, sequence));
    }

    /** Reads the clock until it has moved on; the last timestamp if it has not by the last reading. */
    method BlockTillNextMillis(readings: seq<int>) returns (timestamp: int)
      ensures timestamp == NextMillis(readings, lastTimestamp)
    {
      var i := 0;
      assert readings[0..] == readings;
      while i < |readings| && readings[i] <= lastTimestamp
        invariant 0 <= i <= |readings|
        invariant NextMillis(readings[i..], lastTimestamp) == NextMillis(readings, lastTimestamp)
      {
        assert readings[i..][1..] == readings[i + 1..];
        i := i + 1;
      }
      timestamp := if i < |readings| then readings[i] else lastTimestamp;
    }
  }

  /** A worker's number is accepted or refused. */
  method NewGenerator(workerId: int) returns (generator: SnowflakeIdGenerator?)
    ensures generator != null <==> 0 <= workerId <= MAX_WORKER_ID
    ensures generator != null ==> fresh(generator) && generator.workerId == workerId && generator.Now() == INITIAL
  {
    if workerId > MAX_WORKER_ID || workerId < 0 {
      return null;
    }
    generator := new SnowflakeIdGenerator(workerId);
  }

  // ---------- what the ids are ----------

  /** Readings the timestamp field has room for. */
  predicate InRange(t: int) {
    START_TIME <= t < START_TIME + Pow2(TIMESTAMP_BITS)
  }

  lemma {:induction false} PowAdds(m: nat, n: nat)
    ensures Pow2(m + n) == Pow2(m) * Pow2(n)
  {
    if m > 0 {
      PowAdds(m - 1, n);
      assert Pow2(m) * Pow2(n) == 2 * (Pow2(m - 1) * Pow2(n));
    }
  }

  lemma Powers()
    ensures Pow2(12) == 4096 && Pow2(10) == 1024 && Pow2(22) == 4194304 && Pow2(41) == 2199023255552
    ensures WORD == 18446744073709551616 && Pow2(63) == 9223372036854775808
  {
    SmallPowers();
    PowAdds(12, 10);
    PowAdds(22, 10);
    PowAdds(32, 9);
    PowAdds(41, 22);
    PowAdds(32, 32);
  }

  lemma SmallPowers()
    ensures Pow2(9) == 512 && Pow2(10) == 1024 && Pow2(12) == 4096
  {
    assert Pow2(4) == 16;
    PowAdds(4, 4);
    PowAdds(8, 1);
    PowAdds(8, 2);
    PowAdds(8, 4);
  }

  /** In range, the fields stand side by side. */
  lemma WordIsSum(timestamp: int, workerId: nat, sequence: nat)
    requires InRange(timestamp) && workerId <= MAX_WORKER_ID && sequence <= SEQUENCE_MASK
    ensures Word(timestamp, workerId, sequence) == (timestamp - START_TIME) * 4194304 + workerId * 4096 + sequence
  {
    Powers();
    var t := timestamp - START_TIME;
    assert 0 <= t * 4194304 < Pow2(63);
    assert ShiftLeft(t, TIMESTAMP_MOVE_BITS) == t * Pow2(22);
    assert ShiftLeft(workerId, WORKER_ID_MOVE_BITS) == workerId * Pow2(12);
    OrDisjoint(t, workerId * 4096, 22);
    var both := t * 1024 + workerId;
    assert both * 4096 == t * 4194304 + workerId * 4096;
    OrDisjoint(both, sequence, 12);
  }

  /** The three fields can be read back from an id. */
  lemma FieldsDecode(timestamp: int, workerId: nat, sequence: nat)
    requires InRange(timestamp) && workerId <= MAX_WORKER_ID && sequence <= SEQUENCE_MASK
    ensures var id := Word(timestamp, workerId, sequence);
      id >= 0 && id / 4194304 + START_TIME == timestamp && (id / 4096) % 1024 == workerId && id % 4096 == sequence
  {
    Powers();
    WordIsSum(timestamp, workerId, sequence);
    SumDecodes(timestamp - START_TIME, workerId, sequence);
  }

  lemma SumDecodes(t: nat, w: nat, s: nat)
    requires w < 1024 && s < 4096
    ensures var id := t * 4194304 + w * 4096 + s;
      id / 4194304 == t && (id / 4096) % 1024 == w && id % 4096 == s
  {
    var id := t * 4194304 + w * 4096 + s;
    ModIs(id, 4194304, t, w * 4096 + s);
    ModIs(id, 4096, t * 1024 + w, s);
    ModIs(t * 1024 + w, 1024, t, w);
  }

  /** Ids of different workers differ, whatever the times and sequence numbers. */
  lemma WorkersDiffer(t: int, w: nat, s: nat, t': int, w': nat, s': nat)
    requires InRange(t) && w <= MAX_WORKER_ID && s <= SEQUENCE_MASK
    requires InRange(t') && w' <= MAX_WORKER_ID && s' <= SEQUENCE_MASK && w != w'
    ensures Word(t, w, s) != Word(t', w', s')
  {
    FieldsDecode(t, w, s);
    FieldsDecode(t', w', s');
  }

  /** The first reading that is later than `last`. */
  ghost predicate FirstLater(readings: seq<int>, last: int, t: int) {
    exists i :: 0 <= i < |readings| && readings[i] == t > last && forall j :: 0 <= j < i ==> readings[j] <= last
  }

  lemma {:induction false} NextMillisIsFirst(readings: seq<int>, last: int)
    ensures NextMillis(readings, last) > last ==> FirstLater(readings, last, NextMillis(readings, last))
  {
    if readings != [] {
      if readings[0] > last {
        assert readings[0] == NextMillis(readings, last);
      } else {
        NextMillisIsFirst(readings[1..], last);
        if NextMillis(readings, last) > last {
          var i :| 0 <= i < |readings[1..]| && readings[1..][i] == NextMillis(readings, last)
            && forall j :: 0 <= j < i ==> readings[1..][j] <= last;
          forall j | 0 <= j < i + 1 ensures readings[j] <= last {
            assert j > 0 ==> readings[j] == readings[1..][j - 1];
          }
          assert readings[i + 1] == NextMillis(readings, last);
        }
      }
    }
  }

  /** What a call does, in numbers: in a new millisecond the sequence begins at 0, in the same one it goes on up to
      4095, and after that the call waits for the first later reading. */
  lemma {:induction false} NextExactly(s: State, workerId: nat, now: int, later: seq<int>)
    requires s.sequence <= 4095 && workerId <= MAX_WORKER_ID
    ensures var (s', outcome) := Next(s, workerId, now, later);
      && (now < s.lastTimestamp ==> s' == s && outcome == ClockMovedBackwards(s.lastTimestamp - now))
      && (now > s.lastTimestamp ==> s' == State(now, 0))
      && (now == s.lastTimestamp && s.sequence < 4095 ==> s' == State(now, s.sequence + 1))
      && (now == s.lastTimestamp && s.sequence == 4095 ==>
        if exists r :: r in later && r > now then FirstLater(later, now, s'.lastTimestamp) && s'.sequence == 0
        else outcome == StillWaiting && s' == State(now, 0))
      && (outcome.Issued? <==>
        now > s.lastTimestamp || (now == s.lastTimestamp && (s.sequence < 4095 || exists r :: r in later && r > now)))
      && (outcome.Issued? && InRange(s'.lastTimestamp) ==>
        outcome.id == (s'.lastTimestamp - START_TIME) * 4194304 + workerId * 4096 + s'.sequence)
  {
    SmallPowers();
    NextSequence(s.sequence);
    NextMillisIsFirst(later, s.lastTimestamp);
    var (s', outcome) := Next(s, workerId, now, later);
    if outcome.Issued? && InRange(s'.lastTimestamp) {
      WordIsSum(s'.lastTimestamp, workerId, s'.sequence);
    }
  }

  // ---------- whole runs ----------

  /** One call: what the clock reads, and what it reads while the call waits. */
  datatype Call = Call(now: int, later: seq<int>)

  predicate CallInRange(c: Call) {
    InRange(c.now) && forall r :: r in c.later ==> InRange(r)
  }

  /** The ids issued by a sequence of calls; a call still waiting is the last. */
  function Ids(s: State, workerId: nat, calls: seq<Call>): seq<int>
    decreases |calls|
  {
    if calls == [] then []
    else
      var (s', outcome) := Next(s, workerId, calls[0].now, calls[0].later);
      if outcome.StillWaiting? then []
      else if outcome.Issued? then [outcome.id] + Ids(s', workerId, calls[1..])
      else Ids(s', workerId, calls[1..])
  }

  /** A state the generator can be in. */
  predicate Reachable(s: State) {
    s == INITIAL || (InRange(s.lastTimestamp) && s.sequence <= SEQUENCE_MASK)
  }

  /** The id last issued; anything below the ids if there is none. */
  ghost predicate LastIs(s: State, workerId: nat, last: int) {
    if s == INITIAL then last == -1
    else InRange(s.lastTimestamp) && last == (s.lastTimestamp - START_TIME) * 4194304 + workerId * 4096 + s.sequence
  }

  /** A call that issues an id issues a larger one than the last; one that is refused changes nothing. */
  lemma NextGrows(s: State, workerId: nat, c: Call, last: int)
    requires Reachable(s) && workerId <= MAX_WORKER_ID && CallInRange(c) && LastIs(s, workerId, last)
    ensures var (s', outcome) := Next(s, workerId, c.now, c.later);
      && Reachable(s')
      && (outcome.Issued? ==> LastIs(s', workerId, outcome.id) && outcome.id > last)
      && (outcome.ClockMovedBackwards? ==> s' == s && c.now < s.lastTimestamp)
  {
    NextState(s, workerId, c);
    var (s', outcome) := Next(s, workerId, c.now, c.later);
    if outcome.Issued? {
      WordIsSum(s'.lastTimestamp, workerId, s'.sequence);
      Powers();
    }
  }

  /** The second state is later in time or, at the same time, in sequence. */
  predicate Later(s: State, s': State) {
    s'.lastTimestamp > s.lastTimestamp || (s'.lastTimestamp == s.lastTimestamp && s'.sequence > s.sequence)
  }

  lemma NextState(s: State, workerId: nat, c: Call)
    requires Reachable(s) && CallInRange(c)
    ensures var (s', outcome) := Next(s, workerId, c.now, c.later);
      && Reachable(s')
      && (outcome.Issued? ==> InRange(s'.lastTimestamp) && s'.sequence <= SEQUENCE_MASK && Later(s, s'))
      && (outcome.Issued? ==> outcome.id == Word(s'.lastTimestamp, workerId, s'.sequence))
      && (outcome.ClockMovedBackwards? ==> s' == s && c.now < s.lastTimestamp)
  {
    NextSequence(s.sequence);
  }

  lemma NextSequence(sequence: nat)
    ensures sequence <= SEQUENCE_MASK ==>
      And(sequence + 1, SEQUENCE_MASK) == if sequence == SEQUENCE_MASK then 0 else sequence + 1
    ensures SEQUENCE_MASK > 0
  {
    SmallPowers();
    AndMask(sequence + 1, SEQUENCE_BITS, 4096);
  }

  ghost predicate IncreasingFrom(ids: seq<int>, last: int) {
    (forall i, j :: 0 <= i < j < |ids| ==> ids[i] < ids[j]) && forall i :: 0 <= i < |ids| ==> ids[i] > last
  }

  lemma OneMoreInFront(id: int, ids: seq<int>, last: int)
    requires IncreasingFrom(ids, id) && id > last
    ensures IncreasingFrom([id] + ids, last)
  {
  }

  /** Over a whole run, whatever the clock does within its range, the ids are strictly increasing. */
  lemma {:induction false} IdsIncreaseFrom(s: State, workerId: nat, calls: seq<Call>, last: int)
    requires Reachable(s) && workerId <= MAX_WORKER_ID && LastIs(s, workerId, last) && forall c :: c in calls ==>
      CallInRange(c)
    ensures IncreasingFrom(Ids(s, workerId, calls), last)
    decreases |calls|
  {
    if calls != [] {
      NextGrows(s, workerId, calls[0], last);
      var (s', outcome) := Next(s, workerId, calls[0].now, calls[0].later);
      if outcome.Issued? {
        IdsIncreaseFrom(s', workerId, calls[1..], outcome.id);
        OneMoreInFront(outcome.id, Ids(s', workerId, calls[1..]), last);
      } else if outcome.ClockMovedBackwards? {
        IdsIncreaseFrom(s', workerId, calls[1..], last);
      }
    }
  }

  lemma IdsIncrease(workerId: nat, calls: seq<Call>)
    requires workerId <= MAX_WORKER_ID && forall c :: c in calls ==> CallInRange(c)
    ensures IncreasingFrom(Ids(INITIAL, workerId, calls), -1)
  {
    IdsIncreaseFrom(INITIAL, workerId, calls, -1);
  }
}
