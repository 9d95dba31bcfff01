/** The generator of order and trade IDs: 41 bits of milliseconds, 10 bits of node, 12 bits of sequence. Machine words
    are integers here, and the bit operations are defined bit by bit. */
module Snowflakes {
  import opened PowersOfTwo

  const NODE_MAX := 1023
  const SEQUENCE_MAX := 4095
  const EPOCH := 1704067200000
  const SPAN := 0x200_0000_0000 // 2^41 milliseconds
  const WORD := 0x1_0000_0000_0000_0000

  // ------------------------------------------------------------------ bits

  function Or(a: nat, b: nat): nat
    decreases a + b
  {
    if a == 0 && b == 0 then 0 else (if a % 2 == 1 || b % 2 == 1 then 1 else 0) + 2 * Or(a / 2, b / 2)
  }

  function And(a: nat, b: nat): nat
    decreases a + b
  {
    if a == 0 && b == 0 then 0 else (if a % 2 == 1 && b % 2 == 1 then 1 else 0) + 2 * And(a / 2, b / 2)
  }

  /** The word that a signed number becomes when it is shifted left. */
  function ShiftLeft(a: int, n: nat): nat { (a * Pow2(n)) % WORD }

  function ShiftRight(a: nat, n: nat): nat { if n == 0 then a else ShiftRight(a / 2, n - 1) }

  lemma {:induction false} OrZero(a: nat)
    ensures Or(a, 0) == a
  {
    if a > 0 { OrZero(a / 2); }
  }

  /** Putting a number into bits that are free. */
  lemma {:induction false} OrAdds(a: nat, b: nat, n: nat)
    requires b < Pow2(n)
    ensures Or(a * Pow2(n), b) == a * Pow2(n) + b
    decreases n
  {
    if n == 0 {
      OrZero(a);
    } else {
      var p := Pow2(n - 1);
      assert a * Pow2(n) == 2 * (a * p);
      OrAdds(a, b / 2, n - 1);
    }
  }

  /** Masking the low bits is the remainder. */
  lemma {:induction false} AndIsRemainder(a: nat, n: nat)
    ensures And(a, Pow2(n) - 1) == a % Pow2(n)
    decreases n
  {
    if n == 0 {
      AndZero(a);
    } else {
      var p := Pow2(n - 1);
      AndIsRemainder(a / 2, n - 1);
      assert (2 * p - 1) / 2 == p - 1;
      HalfRemainder(a, p);
    }
  }

  lemma {:induction false} AndZero(a: nat)
    ensures And(a, 0) == 0
  {
    if a > 0 { AndZero(a / 2); }
  }

  lemma HalfRemainder(a: nat, p: nat)
    requires p > 0
    ensures a % (2 * p) == a % 2 + 2 * ((a / 2) % p)
  {
    var h := a / 2;
    assert h == p * (h / p) + h % p;
    assert a == (2 * p) * (h / p) + (a % 2 + 2 * (h % p));
    RemainderIs(a, 2 * p, h / p, a % 2 + 2 * (h % p));
  }

  lemma RemainderIs(a: int, m: nat, q: int, r: nat)
    requires m > 0 && a == m * q + r && r < m
    ensures a % m == r && a / m == q
  {
    var k := a / m - q;
    assert m * k == m * (a / m) - m * q == r - a % m;
    Multiple(m, k);
  }

  lemma Multiple(m: nat, k: int)
    ensures k > 0 ==> m * k >= m
    ensures k < 0 ==> m * k <= 0 - m
  {
    if k > 0 {
      Product(m, k - 1);
    } else if k < 0 {
      Product(m, 0 - k - 1);
    }
  }

  lemma Product(a: nat, b: nat)
    ensures a * b >= 0 && a * (b + 1) == a * b + a && a * (0 - b - 1) == 0 - a * b - a
  {
  }

  /** Shifting right is dividing by a power of two. */
  lemma {:induction false} ShiftDivides(a: nat, n: nat)
    ensures ShiftRight(a, n) == a / Pow2(n)
    decreases n
  {
    if n > 0 {
      ShiftDivides(a / 2, n - 1);
      HalfQuotient(a, Pow2(n - 1));
    }
  }

  lemma HalfQuotient(a: nat, p: nat)
    requires p > 0
    ensures a / 2 / p == a / (2 * p)
  {
    var h := a / 2;
    assert h == p * (h / p) + h % p;
    assert a == (2 * p) * (h / p) + (a % 2 + 2 * (h % p));
    RemainderIs(a, 2 * p, h / p, a % 2 + 2 * (h % p));
  }

  lemma Powers()
    ensures Pow2(12) == 4096 && Pow2(22) == 4194304 && Pow2(10) == 1024
  {
    assert Pow2(5) == 32 && Pow2(10) == 1024 && Pow2(15) == 32768 && Pow2(20) == 1048576;
  }

  // ------------------------------------------------------------------ one ID

  function MakeId(now: int, node: nat, sequence: nat): nat {
    Or(Or(ShiftLeft(now - EPOCH, 22), ShiftLeft(node, 12)), sequence)
  }

  function TimeOf(id: nat): int { ShiftRight(id, 22) + EPOCH }

  function NodeOf(id: nat): nat { And(ShiftRight(id, 12), NODE_MAX) }

  function SequenceOf(id: nat): nat { And(id, SEQUENCE_MAX) }

  /** A clock reading that IDs have room for. */
  predicate InRange(now: int) { EPOCH <= now < EPOCH + SPAN }

  lemma IdIsSum(now: int, node: nat, sequence: nat)
    requires InRange(now) && node <= NODE_MAX && sequence <= SEQUENCE_MAX
    ensures MakeId(now, node, sequence) == (now - EPOCH) * 4194304 + node * 4096 + sequence
  {
    hide *;
    var d := now - EPOCH;
    Offset(now);
    Shifts(d, node);
    Powers();
    OrAdds(d, node * 4096, 22);
    OrAdds(d * 1024 + node, sequence, 12);
    MakeIdIs(now, node, sequence);
  }

  /** An ID in numbers. */
  lemma IdInNumbers(now: int, node: nat, sequence: nat)
    requires 1704067200000 <= now < 1704067200000 + 2199023255552 && node <= 1023 && sequence <= 4095
    ensures MakeId(now, node, sequence) == (now - 1704067200000) * 4194304 + node * 4096 + sequence
  {
    IdIsSum(now, node, sequence);
    hide MakeId;
  }

  lemma Offset(now: int)
    requires InRange(now)
    ensures 0 <= now - EPOCH < SPAN && NODE_MAX == 1023 && SEQUENCE_MAX == 4095
  {
  }

  lemma Shifts(d: nat, node: nat)
    requires d < SPAN && node <= NODE_MAX
    ensures ShiftLeft(d, 22) == d * 4194304 && ShiftLeft(node, 12) == node * 4096
  {
    hide Pow2;
    Powers();
  }

  lemma MakeIdIs(now: int, node: nat, sequence: nat)
    ensures MakeId(now, node, sequence) == Or(Or(ShiftLeft(now - EPOCH, 22), ShiftLeft(node, 12)), sequence)
  {
  }

  lemma Digits(d: nat, node: nat, sequence: nat)
    requires d < SPAN && node <= NODE_MAX && sequence <= SEQUENCE_MAX
    ensures var id := d * 4194304 + node * 4096 + sequence;
      id / 4194304 == d && (id / 4096) % 1024 == node && id % 4096 == sequence && id < WORD / 2
  {
    var id := d * 4194304 + node * 4096 + sequence;
    RemainderIs(id, 4096, d * 1024 + node, sequence);
    RemainderIs(id / 4096, 1024, d, node);
    RemainderIs(id, 4194304, d, node * 4096 + sequence);
  }

  /** Every ID is below 2^63, and its time, node and sequence can be read off it. */
  lemma FieldsAreRecoverable(now: int, node: nat, sequence: nat)
    requires InRange(now) && node <= NODE_MAX && sequence <= SEQUENCE_MAX
    ensures var id := MakeId(now, node, sequence);
      TimeOf(id) == now && NodeOf(id) == node && SequenceOf(id) == sequence && id < WORD / 2
  {
    hide *;
    var id := MakeId(now, node, sequence);
    Offset(now);
    Reading(id);
    IdIsSum(now, node, sequence);
    Digits(now - EPOCH, node, sequence);
  }

  lemma Reading(id: nat)
    ensures TimeOf(id) == id / 4194304 + EPOCH && NodeOf(id) == (id / 4096) % 1024 && SequenceOf(id) == id % 4096
  {
    hide Pow2, And, ShiftRight;
    Powers();
    ShiftDivides(id, 22);
    ShiftDivides(id, 12);
    AndIsRemainder(id, 12);
    AndIsRemainder(id / 4096, 10);
  }

  // ------------------------------------------------------------------ the generator

  datatype Gen = Gen(timestamp: int, node: nat, sequence: nat) {
    /** A new generator, or one whose last ID was made at a time that IDs have room for. */
    predicate Ok() {
      node <= NODE_MAX && if timestamp == 0 then sequence == 0 else InRange(timestamp) && sequence <= SEQUENCE_MAX
    }
  }

  /** An ID; or the panic because the clock went backwards; or the wait for a later millisecond that never came. */
  datatype Outcome = Id(id: nat) | Panic | Waiting

  datatype Turn = Turn(out: Outcome, gen: Gen, clock: seq<int>)

  /** Readings of the clock up to the first one after last. */
  function Later(clock: seq<int>, last: int): (rest: seq<int>)
    ensures |rest| <= |clock| && (rest != [] ==> rest[0] > last)
    ensures forall now <- rest :: now in clock
  {
    if clock == [] || clock[0] > last then clock else Later(clock[1..], last)
  }

  function Issue(g: Gen, now: int, clock: seq<int>): Turn
    requires g.sequence <= SEQUENCE_MAX
  {
    Turn(Id(MakeId(now, g.node, g.sequence)), g.(timestamp := now), clock)
  }

  /** One call of Generate, reading the clock from a list of readings. */
  function NextTurn(g: Gen, clock: seq<int>): Turn
    requires g.sequence <= SEQUENCE_MAX
  {
    if clock == [] then Turn(Waiting, g, [])
    else if clock[0] < g.timestamp then Turn(Panic, g, clock[1..])
    else if clock[0] == g.timestamp then
      var s := (g.sequence + 1) % (SEQUENCE_MAX + 1);
      if s != 0 then Issue(g.(sequence := s), clock[0], clock[1..])
      else
        var rest := Later(clock[1..], g.timestamp);
        if rest == [] then Turn(Waiting, g.(sequence := 0), []) else Issue(g.(sequence := 0), rest[0], rest[1..])
    else Issue(g.(sequence := 0), clock[0], clock[1..])
  }

  /** The IDs of one generator, call after call, until the clock runs out or goes backwards. */
  function Ids(g: Gen, clock: seq<int>): seq<nat>
    requires g.sequence <= SEQUENCE_MAX
    decreases |clock|
  {
    var t := NextTurn(g, clock);
    if t.out.Id? && t.gen.sequence <= SEQUENCE_MAX && |t.clock| < |clock| then [t.out.id] + Ids(t.gen, t.clock) else []
  }

  /** A new ID is later than the last one, and has the generator's own state written into it. */
  lemma OneTurn(g: Gen, clock: seq<int>)
    requires g.Ok() && forall now <- clock :: InRange(now)
    ensures var t := NextTurn(g, clock);
      && (forall now <- t.clock :: InRange(now))
      && (t.out.Id? ==> t.gen.Ok() && t.gen.timestamp != 0 && t.gen.node == g.node && |t.clock| < |clock|)
      && (t.out.Id? ==> t.out.id == MakeId(t.gen.timestamp, g.node, t.gen.sequence))
      && (t.out.Id? ==> g.timestamp <= t.gen.timestamp)
      && (t.out.Id? && g.timestamp == t.gen.timestamp ==> g.sequence < t.gen.sequence)
  {
    hide MakeId;
    if clock != [] {
      assert clock[0] in clock && forall now <- clock[1..] :: now in clock;
      var rest := Later(clock[1..], g.timestamp);
      assert rest != [] ==> rest[0] in rest && forall now <- rest[1..] :: now in rest;
    }
  }

  lemma LaterIsLarger(g: Gen, h: Gen)
    requires g.Ok() && h.Ok() && g.timestamp != 0 && h.timestamp != 0 && g.node == h.node
    requires g.timestamp < h.timestamp || (g.timestamp == h.timestamp && g.sequence < h.sequence)
    ensures MakeId(g.timestamp, g.node, g.sequence) < MakeId(h.timestamp, h.node, h.sequence)
  {
    IdIsSum(g.timestamp, g.node, g.sequence);
    IdIsSum(h.timestamp, h.node, h.sequence);
    hide MakeId;
  }

  predicate Increasing(ids: seq<nat>) { forall i, j :: 0 <= i < j < |ids| ==> ids[i] < ids[j] }

  lemma Prepended(id: nat, ids: seq<nat>)
    requires Increasing(ids) && forall x <- ids :: id < x
    ensures Increasing([id] + ids)
  {
    assert forall j :: 0 <= j < |ids| ==> ids[j] in ids;
  }

  /** IDs of one generator strictly increase, stay below 2^63, and carry the generator's node. */
  lemma {:induction false} IdsIncrease(g: Gen, clock: seq<int>)
    requires g.Ok() && forall now <- clock :: InRange(now)
    ensures var ids := Ids(g, clock);
      && Increasing(ids) && (forall id <- ids :: id < WORD / 2 && NodeOf(id) == g.node && InRange(TimeOf(id)))
      && (g.timestamp != 0 ==> forall id <- ids :: MakeId(g.timestamp, g.node, g.sequence) < id)
    decreases |clock|
  {
    hide MakeId, NodeOf, TimeOf, NextTurn;
    OneTurn(g, clock);
    var t := NextTurn(g, clock);
    if t.out.Id? {
      IdsIncrease(t.gen, t.clock);
      FieldsAreRecoverable(t.gen.timestamp, g.node, t.gen.sequence);
      if g.timestamp != 0 { LaterIsLarger(g, t.gen); }
      Prepended(t.out.id, Ids(t.gen, t.clock));
    }
  }

  /** A shifted time leaves the low bits free, even if it is negative or does not fit. */
  lemma ShiftedTime(d: int) returns (k: nat)
    ensures ShiftLeft(d, 22) == k * 4194304
  {
    hide Pow2;
    Powers();
    var n := 0x400_0000_0000;
    k := d % n;
    assert n * 4194304 == WORD;
    assert d == n * (d / n) + k;
    assert d * 4194304 == WORD * (d / n) + k * 4194304;
    RemainderIs(d * 4194304, WORD, d / n, k * 4194304);
  }

  /** Whatever the clock says, an ID carries the node. */
  lemma CarriesNode(now: int, node: nat, sequence: nat)
    requires node <= NODE_MAX && sequence <= SEQUENCE_MAX
    ensures NodeOf(MakeId(now, node, sequence)) == node
  {
    hide *;
    var k := ShiftedTime(now - EPOCH);
    Limits();
    Shifts(0, node);
    Powers();
    OrAdds(k, node * 4096, 22);
    OrAdds(k * 1024 + node, sequence, 12);
    MakeIdIs(now, node, sequence);
    var id := MakeId(now, node, sequence);
    Reading(id);
    RemainderIs(id, 4096, k * 1024 + node, sequence);
    RemainderIs(id / 4096, 1024, k, node);
  }

  lemma Limits()
    ensures NODE_MAX == 1023 && SEQUENCE_MAX == 4095 && SPAN > 0
  {
  }

  lemma {:induction false} IdsCarryNode(g: Gen, clock: seq<int>)
    requires g.node <= NODE_MAX && g.sequence <= SEQUENCE_MAX
    ensures forall id <- Ids(g, clock) :: NodeOf(id) == g.node
    decreases |clock|
  {
    hide MakeId, NodeOf, NextTurn;
    var t := NextTurn(g, clock);
    TurnMakesId(g, clock);
    if t.out.Id? && |t.clock| < |clock| {
      CarriesNode(t.gen.timestamp, g.node, t.gen.sequence);
      IdsCarryNode(t.gen, t.clock);
    }
  }

  lemma TurnMakesId(g: Gen, clock: seq<int>)
    requires g.sequence <= SEQUENCE_MAX
    ensures var t := NextTurn(g, clock);
      && (t.out.Id? ==> t.gen.node == g.node && t.gen.sequence <= SEQUENCE_MAX)
      && (t.out.Id? ==> t.out.id == MakeId(t.gen.timestamp, g.node, t.gen.sequence))
  {
    hide MakeId;
  }

  /** Generators with different node numbers never issue the same ID, whatever their clocks say. */
  lemma NodesNeverCollide(g: Gen, h: Gen, clock: seq<int>, other: seq<int>)
    requires g.node <= NODE_MAX && h.node <= NODE_MAX && g.node != h.node
    requires g.sequence <= SEQUENCE_MAX && h.sequence <= SEQUENCE_MAX
    ensures forall id <- Ids(g, clock) :: id !in Ids(h, other)
  {
    IdsCarryNode(g, clock);
    IdsCarryNode(h, other);
  }

  /** The sequence wraps to zero exactly by waiting for a later millisecond: it never issues the same one again. */
  lemma WrapWaits(g: Gen, clock: seq<int>)
    requires g.Ok() && g.timestamp != 0 && g.sequence == SEQUENCE_MAX && clock != [] && clock[0] == g.timestamp
    ensures var t := NextTurn(g, clock);
      && !t.out.Panic? && (t.out.Id? ==> t.gen.sequence == 0 && t.gen.timestamp > g.timestamp)
      && (t.out.Waiting? <==> forall now <- clock :: now <= g.timestamp)
  {
    hide MakeId;
    NoLater(clock[1..], g.timestamp);
    assert forall now <- clock :: now == clock[0] || now in clock[1..];
    assert forall now <- clock[1..] :: now in clock;
  }

  lemma {:induction false} NoLater(clock: seq<int>, last: int)
    ensures Later(clock, last) == [] <==> forall now <- clock :: now <= last
  {
    if clock != [] {
      NoLater(clock[1..], last);
      assert clock[0] in clock && forall now <- clock[1..] :: now in clock;
      assert forall now <- clock :: now == clock[0] || now in clock[1..];
    }
  }

  // ------------------------------------------------------------------ what the sequence counts

  /** How many of these IDs were made in one millisecond. */
  function CountAt(ids: seq<nat>, time: int): nat {
    if ids == [] then 0 else (if TimeOf(ids[0]) == time then 1 else 0) + CountAt(ids[1..], time)
  }

  /** How many IDs of one millisecond the generator has made before. */
  function MadeAt(g: Gen, time: int): nat { if g.timestamp != 0 && time == g.timestamp then g.sequence + 1 else 0 }

  /** One call, case by case, in numbers: the clock has gone backwards; it shows a new millisecond; it shows the same
      one, which has a number left; or the same one, of which all numbers are used. */
  lemma TurnIs(g: Gen, clock: seq<int>)
    requires g.sequence <= 4095 && clock != []
    ensures var t, now := NextTurn(g, clock), clock[0];
      && (t.out.Panic? <==> now < g.timestamp) && (t.out.Panic? ==> t.gen == g && t.clock == clock[1..])
      && (now > g.timestamp ==> t.out.Id? && t.gen == Gen(now, g.node, 0) && t.clock == clock[1..])
      && (now == g.timestamp && g.sequence < 4095 ==>
           t.out.Id? && t.gen == Gen(now, g.node, g.sequence + 1) && t.clock == clock[1..])
      && (now == g.timestamp && g.sequence == 4095 ==> (t.out.Waiting? <==> forall later <- clock :: later <= now))
      && (now == g.timestamp && g.sequence == 4095 && t.out.Id? ==>
           t.gen == Gen(t.gen.timestamp, g.node, 0) && t.gen.timestamp > now && t.gen.timestamp in clock &&
           |t.clock| + 2 <= |clock|)
      && (t.out.Id? ==> t.out.id == MakeId(t.gen.timestamp, g.node, t.gen.sequence))
  {
    hide MakeId;
    NoLater(clock[1..], g.timestamp);
    assert forall now <- clock :: now == clock[0] || now in clock[1..];
    assert forall now <- clock[1..] :: now in clock;
    var rest := Later(clock[1..], g.timestamp);
    assert rest != [] ==> rest[0] in rest;
  }

  /** An ID that is issued has a later time, or the next number of the same millisecond. */
  lemma TurnCounts(g: Gen, clock: seq<int>)
    requires g.Ok() && (forall now <- clock :: InRange(now)) && NextTurn(g, clock).out.Id?
    ensures var t := NextTurn(g, clock);
      && t.gen.Ok() && t.gen.timestamp != 0 && t.gen.timestamp >= g.timestamp && |t.clock| < |clock|
      && (forall now <- t.clock :: InRange(now))
      && TimeOf(t.out.id) == t.gen.timestamp && SequenceOf(t.out.id) == t.gen.sequence
      && t.gen.sequence == MadeAt(g, t.gen.timestamp)
  {
    hide MakeId, TimeOf, SequenceOf;
    OneTurn(g, clock);
    if clock != [] { TurnIs(g, clock); }
    var t := NextTurn(g, clock);
    FieldsAreRecoverable(t.gen.timestamp, g.node, t.gen.sequence);
    assert clock != [] ==> clock[0] in clock;
  }

  lemma {:induction false} TimesGoOn(g: Gen, clock: seq<int>)
    requires g.Ok() && forall now <- clock :: InRange(now)
    ensures forall id <- Ids(g, clock) :: TimeOf(id) >= g.timestamp
    decreases |clock|
  {
    hide MakeId, TimeOf, SequenceOf, NextTurn;
    OneTurn(g, clock);
    var t := NextTurn(g, clock);
    if t.out.Id? {
      TurnCounts(g, clock);
      TimesGoOn(t.gen, t.clock);
    }
  }

  /** The sequence number of ID i is the number of IDs made before it in the same millisecond. */
  predicate Numbered(g: Gen, ids: seq<nat>, i: nat)
    requires i < |ids|
  {
    SequenceOf(ids[i]) == CountAt(ids[..i], TimeOf(ids[i])) + MadeAt(g, TimeOf(ids[i]))
  }

  predicate AllNumbered(g: Gen, ids: seq<nat>) { forall i: nat :: i < |ids| ==> Numbered(g, ids, i) }

  /** In every run the sequence counts the IDs of each millisecond, from zero in every one that the run enters. */
  lemma {:induction false} SequenceCounts(g: Gen, clock: seq<int>)
    requires g.Ok() && forall now <- clock :: InRange(now)
    ensures AllNumbered(g, Ids(g, clock))
    decreases |clock|
  {
    hide MakeId, TimeOf, SequenceOf, NextTurn, MadeAt;
    OneTurn(g, clock);
    var t := NextTurn(g, clock);
    if t.out.Id? {
      TurnCounts(g, clock);
      var ids, rest := Ids(g, clock), Ids(t.gen, t.clock);
      SequenceCounts(t.gen, t.clock);
      assert AllNumbered(t.gen, rest);
      TimesGoOn(t.gen, t.clock);
      assert ids == [t.out.id] + rest;
      forall i: nat | i < |ids|
        ensures Numbered(g, ids, i)
      {
        if i == 0 {
          assert ids[..i] == [] && ids[i] == t.out.id;
        } else {
          var j: nat := i - 1;
          assert j < |rest| && Numbered(t.gen, rest, j) && rest[j] in rest;
          assert ids[..i] == [t.out.id] + rest[..j] && ids[i] == rest[j];
          CountsOn(g, t.gen, t.out.id, rest[..j], TimeOf(rest[j]));
        }
      }
    }
  }

  /** So for a new generator the sequence number is just the number of earlier IDs of the same millisecond. */
  lemma NewGeneratorCounts(g: Gen, clock: seq<int>, i: nat)
    requires g.Ok() && g.timestamp == 0 && (forall now <- clock :: InRange(now)) && i < |Ids(g, clock)|
    ensures var ids := Ids(g, clock); SequenceOf(ids[i]) == CountAt(ids[..i], TimeOf(ids[i]))
  {
    SequenceCounts(g, clock);
    hide Ids, SequenceOf, TimeOf;
    assert Numbered(g, Ids(g, clock), i);
  }

  /** The count of a millisecond after one more ID. */
  lemma CountsOn(g: Gen, h: Gen, id: nat, ids: seq<nat>, time: int)
    requires h.timestamp != 0 && h.timestamp >= g.timestamp && TimeOf(id) == h.timestamp && time >= h.timestamp
    requires h.sequence == MadeAt(g, h.timestamp)
    ensures CountAt([id] + ids, time) + MadeAt(g, time) == CountAt(ids, time) + MadeAt(h, time)
  {
    hide TimeOf;
    assert ([id] + ids)[1..] == ids;
  }

  /** Issuing exactly these IDs takes the generator g and its clock to h and the readings that are left. */
  ghost predicate Issues(g: Gen, clock: seq<int>, ids: seq<nat>, h: Gen, left: seq<int>)
    decreases |ids|
  {
    if ids == [] then h == g && left == clock
    else
      g.sequence <= SEQUENCE_MAX && var t := NextTurn(g, clock);
      t.out == Id(ids[0]) && Issues(t.gen, t.clock, ids[1..], h, left)
  }

  lemma {:induction false} IssuedCounts(g: Gen, clock: seq<int>, ids: seq<nat>, h: Gen, left: seq<int>)
    requires g.Ok() && (forall now <- clock :: InRange(now)) && Issues(g, clock, ids, h, left)
    ensures h.Ok() && h.timestamp >= g.timestamp && forall now <- left :: InRange(now)
    ensures h.timestamp != 0 ==> h.sequence + 1 == CountAt(ids, h.timestamp) + MadeAt(g, h.timestamp)
    ensures ids != [] ==> h.timestamp != 0 && h.timestamp == TimeOf(ids[|ids| - 1])
    decreases |ids|
  {
    hide MakeId, TimeOf, SequenceOf, NextTurn;
    if ids != [] {
      var t := NextTurn(g, clock);
      TurnCounts(g, clock);
      IssuedCounts(t.gen, t.clock, ids[1..], h, left);
      assert ids == [t.out.id] + ids[1..];
      CountsOn(g, t.gen, t.out.id, ids[1..], h.timestamp);
    }
  }

  /** Does this call read the clock more than once? */
  predicate Waits(g: Gen, clock: seq<int>)
    requires g.sequence <= SEQUENCE_MAX
  {
    var t := NextTurn(g, clock);
    clock != [] && (t.out.Waiting? || |t.clock| + 1 < |clock|)
  }

  /** A call of a generator waits exactly if all 4096 numbers of the millisecond that the clock shows have been used. */
  lemma WaitsIff(g: Gen, clock: seq<int>, ids: seq<nat>, h: Gen, left: seq<int>)
    requires g.Ok() && g.timestamp == 0 && (forall now <- clock :: InRange(now)) && Issues(g, clock, ids, h, left)
    ensures h.sequence <= SEQUENCE_MAX
    ensures Waits(h, left) <==>
      left != [] && ids != [] && left[0] == TimeOf(ids[|ids| - 1]) && CountAt(ids, left[0]) == 4096
  {
    hide MakeId, TimeOf, SequenceOf, NextTurn, CountAt, Issues;
    IssuedCounts(g, clock, ids, h, left);
    if left != [] {
      assert left[0] in left;
      TurnIs(h, left);
      NothingIssued(g, clock, ids, h, left);
    }
  }

  lemma NothingIssued(g: Gen, clock: seq<int>, ids: seq<nat>, h: Gen, left: seq<int>)
    requires Issues(g, clock, ids, h, left)
    ensures ids == [] ==> h == g
  {
    hide NextTurn;
  }

  /** A source of clock readings. */
  class Clock {
    var readings: seq<int>

    constructor (readings: seq<int>)
      ensures this.readings == readings
    {
      this.readings := readings;
    }
  }

  class Snowflake {
    var timestamp: int
    const nodeID: nat
    var sequence: nat

    constructor (nodeID: nat)
      requires nodeID <= NODE_MAX
      ensures State() == Gen(0, nodeID, 0)
    {
      timestamp, this.nodeID, sequence := 0, nodeID, 0;
    }

    function State(): Gen
      reads this
    {
      Gen(timestamp, nodeID, sequence)
    }

    method Generate(clock: Clock) returns (out: Outcome)
      requires sequence <= SEQUENCE_MAX
      modifies this, clock
      ensures Turn(out, State(), clock.readings) == NextTurn(old(State()), old(clock.readings))
      ensures sequence <= SEQUENCE_MAX
      ensures var c := old(clock.readings);
        && (c != [] ==> (out.Panic? <==> c[0] < old(timestamp)))
        && (c != [] && c[0] > old(timestamp) ==> out.Id? && timestamp == c[0] && sequence == 0)
        && (c != [] && c[0] == old(timestamp) && old(sequence) < 4095 ==>
              out.Id? && timestamp == c[0] && sequence == old(sequence) + 1)
    {
      hide MakeId, Pow2, And;
      Powers();
      if clock.readings != [] { TurnIs(State(), clock.readings); }
      if clock.readings == [] {
        return Waiting;
      }
      var now := clock.readings[0];
      clock.readings := clock.readings[1..];
      if now < timestamp {
        return Panic;
      }
      if now == timestamp {
        AndIsRemainder(sequence + 1, 12);
        sequence := And(sequence + 1, SEQUENCE_MAX);
        if sequence == 0 {
          ghost var rest := Later(clock.readings, timestamp);
          while now <= timestamp
            invariant timestamp == old(timestamp) && sequence == 0
            invariant now <= timestamp ==> Later(clock.readings, timestamp) == rest
            invariant now > timestamp ==> rest != [] && now == rest[0] && clock.readings == rest[1..]
            decreases |clock.readings|, timestamp - now
          {
            if clock.readings == [] {
              return Waiting;
            }
            now := clock.readings[0];
            clock.readings := clock.readings[1..];
          }
        }
      } else {
        sequence := 0;
      }
      timestamp := now;
      return Id(MakeId(now, nodeID, sequence));
    }
  }

  /** The program's check before it makes a generator. */
  method NewSnowflake(nodeID: int) returns (s: Snowflake?)
    ensures s == null <==> nodeID < 0 || nodeID > 1023
    ensures s != null ==> fresh(s) && s.State() == Gen(0, nodeID, 0) && s.State().Ok()
  {
    if nodeID < 0 || nodeID > NODE_MAX {
      return null;
    }
    s := new Snowflake(nodeID);
  }
}
