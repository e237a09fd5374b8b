/**
 The single-producer single-consumer rings between two cores, one memory access per step.

 The producer loads both indices, stores the record word by word and publishes by storing
 `prod`; the consumer loads `prod`, reads and prints every record up to it, and only then
 stores `cons` back. Indices wrap at 2^32. A run is any interleaving of the two programs,
 starting from an initialised ring. The event ring and the command ring are two instances.
 */
module SpscRing {
  import opened Arith

  const WRAP: nat := 0x1_0000_0000

  type Word = int

  /** `width` words per slot, of which the consumer reads `loads`, in that order. */
  datatype Config = Config(capacity: nat, width: nat, loads: seq<nat>)

  predicate ValidConfig(c: Config) {
    0 < c.capacity < WRAP && forall k :: 0 <= k < |c.loads| ==> c.loads[k] < c.width
  }

  /** Where the producer is inside one call. */
  datatype Producer =
    | Idle
    | LoadCons(img: seq<Word>, prod: nat)
    | Check(img: seq<Word>, prod: nat, cons: nat)
    | Store(img: seq<Word>, prod: nat, done: nat)

  /** Where the consumer is inside its polling loop. */
  datatype Consumer =
    | Start
    | Poll(cons: nat)
    | Scan(cons: nat, prod: nat)
    | Load(cons: nat, prod: nat, got: seq<Word>)

  datatype Printed = Printed(index: nat, words: seq<Word>)

  /** The shared memory, the two programs, and what has been observed of the run so far. */
  datatype State = State(prod: nat, cons: nat, slots: seq<seq<Word>>, producer: Producer, consumer: Consumer,
                         accepted: seq<seq<Word>>, printed: seq<Printed>)

  datatype Action = Emit(img: seq<Word>) | ProducerStep | ConsumerStep

  ghost predicate Shaped(c: Config, s: State) {
    && ValidConfig(c) && |s.slots| == c.capacity && s.prod < WRAP && s.cons < WRAP
    && (forall i :: 0 <= i < |s.slots| ==> |s.slots[i]| == c.width)
    && (!s.producer.Idle? ==> |s.producer.img| == c.width && s.producer.prod < WRAP)
    && (s.producer.Store? ==> s.producer.done <= c.width)
    && (s.producer.Check? ==> s.producer.cons < WRAP)
    && (!s.consumer.Start? ==> s.consumer.cons < WRAP)
    && (s.consumer.Scan? || s.consumer.Load? ==> s.consumer.prod < WRAP)
    && (s.consumer.Load? ==> |s.consumer.got| <= |c.loads|)
  }

  /** After initialisation: both indices zero, the slots holding whatever they held. */
  function Init(slots: seq<seq<Word>>): State {
    State(0, 0, slots, Idle, Start, [], [])
  }

  /** 32-bit subtraction. */
  function Sub32(a: nat, b: nat): (r: nat)
    requires a < WRAP && b < WRAP
    ensures r < WRAP
  {
    (a - b) % WRAP
  }

  function Inc32(a: nat): (r: nat)
    ensures r < WRAP
  {
    (a + 1) % WRAP
  }

  function Next(c: Config, s: State, a: Action): (t: State)
    requires Shaped(c, s) && (a.Emit? ==> |a.img| == c.width)
    ensures Shaped(c, t)
  {
    match a
    case Emit(img) => if s.producer.Idle? then s.(producer := LoadCons(img, s.prod)) else s
    case ProducerStep => NextProducer(c, s)
    case ConsumerStep => NextConsumer(c, s)
  }

  function NextProducer(c: Config, s: State): (t: State)
    requires Shaped(c, s)
    ensures Shaped(c, t)
  {
    match s.producer
    case Idle => s
    case LoadCons(img, prod) => s.(producer := Check(img, prod, s.cons))
    case Check(img, prod, cons) =>
      if Sub32(prod, cons) >= c.capacity then s.(producer := Idle)   // full: the newest is dropped
      else s.(producer := Store(img, prod, 0))
    case Store(img, prod, done) =>
      if done < c.width then
        var i := prod % c.capacity;
        s.(slots := s.slots[i := s.slots[i][done := img[done]]], producer := Store(img, prod, done + 1))
      else s.(prod := Inc32(prod), producer := Idle, accepted := s.accepted + [img])
  }

  function NextConsumer(c: Config, s: State): (t: State)
    requires Shaped(c, s)
    ensures Shaped(c, t)
  {
    match s.consumer
    case Start => s.(consumer := Poll(s.cons))
    case Poll(cons) => s.(consumer := Scan(cons, s.prod))
    case Scan(cons, prod) =>
      if cons == prod then s.(cons := cons, consumer := Poll(cons)) else s.(consumer := Load(cons, prod, []))
    case Load(cons, prod, got) =>
      if |got| < |c.loads| then
        s.(consumer := Load(cons, prod, got + [s.slots[cons % c.capacity][c.loads[|got|]]]))
      else s.(consumer := Scan(Inc32(cons), prod), printed := s.printed + [Printed(cons, got)])
  }

  ghost predicate ValidRun(c: Config, run: seq<Action>) {
    forall a | a in run :: a.Emit? ==> |a.img| == c.width
  }

  /** An interleaving of the two programs. */
  ghost function Exec(c: Config, s: State, run: seq<Action>): (t: State)
    requires Shaped(c, s) && ValidRun(c, run)
    ensures Shaped(c, t)
  {
    if run == [] then s else
    var n := |run| - 1;
    Next(c, Exec(c, s, run[..n]), run[n])
  }

  // ----- index arithmetic -----

  ghost predicate Divides(capacity: nat) {
    capacity > 0 && WRAP % capacity == 0
  }

  /** A wrapped index selects the slot of the true index. */
  lemma SlotOfIndex(capacity: nat, n: nat)
    requires Divides(capacity)
    ensures (n % WRAP) % capacity == n % capacity
  {
    assert n == WRAP * (n / WRAP) + n % WRAP;
    var q := WRAP / capacity;
    assert WRAP == capacity * q;
    assert WRAP * (n / WRAP) == capacity * (q * (n / WRAP));
    ModAddMultiple(n % WRAP, capacity, q * (n / WRAP));
  }

  lemma WindowDistinct(capacity: nat, n: nat, m: nat)
    requires capacity > 0 && n < m < n + capacity
    ensures n % capacity != m % capacity
  {
    if n % capacity == m % capacity {
      var k := SameRemainder(m, n, capacity);
      MulSign(capacity, k);
      assert false;
    }
  }

  /** No two indices of any window of `capacity` consecutive ones select the same slot. */
  ghost predicate WindowsInjective(capacity: nat)
    requires capacity > 0
  {
    forall n: nat, m: nat :: n < m < n + capacity ==> (n % WRAP) % capacity != (m % WRAP) % capacity
  }

  lemma InjectiveExactlyWhenDivides(capacity: nat)
    requires 0 < capacity < WRAP
    ensures WindowsInjective(capacity) <==> Divides(capacity)
  {
    if Divides(capacity) {
      forall n: nat, m: nat | n < m < n + capacity
        ensures (n % WRAP) % capacity != (m % WRAP) % capacity
      {
        SlotOfIndex(capacity, n);
        SlotOfIndex(capacity, m);
        WindowDistinct(capacity, n, m);
      }
    } else {
      var n := LastSlotZero(capacity);
      SlotZeroTwice(capacity, n);
      assert (n % WRAP) % capacity == (WRAP % WRAP) % capacity;
    }
  }

  lemma SlotZeroTwice(capacity: nat, n: nat)
    requires 0 < capacity && n < WRAP && n % capacity == 0
    ensures (n % WRAP) % capacity == 0 && (WRAP % WRAP) % capacity == 0
  {
    DivModUnique(n, WRAP, 0, n);
    DivModUnique(0, capacity, 0, 0);
  }

  /** Otherwise slot 0 is reused one window early at the wrap. */
  lemma LastSlotZero(capacity: nat) returns (n: nat)
    requires 0 < capacity < WRAP && !Divides(capacity)
    ensures n < WRAP < n + capacity && n % capacity == 0 && n == WRAP - WRAP % capacity
  {
    var q := WRAP / capacity;
    n := capacity * q;
    assert WRAP == capacity * q + WRAP % capacity;
    ModOfMultiple(q, capacity);
  }

  /** 32-bit subtraction gives the true backlog, across the wrap. */
  lemma Backlog(p: nat, q: nat)
    requires q <= p < q + WRAP
    ensures Sub32(p % WRAP, q % WRAP) == p - q
  {
    var a, b := p / WRAP, q / WRAP;
    assert p == WRAP * a + p % WRAP && q == WRAP * b + q % WRAP;
    assert (p % WRAP - q % WRAP) == (p - q) + WRAP * (b - a);
    ModAddMultiple(p - q, WRAP, b - a);
    DivModUnique(p - q, WRAP, 0, p - q);
  }

  lemma NextIndex(n: nat)
    ensures Inc32(n % WRAP) == (n + 1) % WRAP
  {
  }

  lemma OneFurther(p: nat, x: nat)
    requires p < WRAP && x < WRAP && Sub32(p, x) < WRAP - 1
    ensures Sub32(Inc32(p), x) == Sub32(p, x) + 1
  {
  }

  // ----- the invariant -----

  /** How far behind the published index a wrapped index is. */
  function Behind(s: State, index: nat): nat
    requires s.prod < WRAP && index < WRAP
  {
    Sub32(s.prod, index)
  }

  ghost predicate Indices(c: Config, s: State)
    requires Shaped(c, s)
  {
    var accepted, printed := |s.accepted|, |s.printed|;
    && s.prod == accepted % WRAP
    && printed <= accepted && accepted - printed <= Behind(s, s.cons) <= c.capacity && Behind(s, s.cons) <= accepted
    && (s.consumer.Start? ==> printed == 0 && s.cons == 0)
    && (!s.consumer.Start? ==> s.consumer.cons == printed % WRAP)
    && (s.consumer.Scan? || s.consumer.Load? ==> Behind(s, s.consumer.prod) <= accepted - printed)
    && (s.consumer.Load? ==> Behind(s, s.consumer.prod) < accepted - printed)
    && (!s.producer.Idle? ==> s.producer.prod == s.prod)
    && (s.producer.Check? ==> Behind(s, s.cons) <= Behind(s, s.producer.cons) <= c.capacity)
    && (s.producer.Store? ==> Behind(s, s.cons) < c.capacity)
  }

  /** Records accepted and not yet acknowledged are in their slots. */
  ghost predicate Slots(c: Config, s: State)
    requires Shaped(c, s) && Indices(c, s)
  {
    && (forall n {:trigger s.accepted[n]} :: 0 <= n < |s.accepted| ==> |s.accepted[n]| == c.width)
    && (forall n {:trigger s.accepted[n]} ::
          |s.accepted| - Behind(s, s.cons) <= n < |s.accepted| ==> s.slots[n % c.capacity] == s.accepted[n])
    && (s.producer.Store? ==>
          forall k :: 0 <= k < s.producer.done ==> s.slots[s.prod % c.capacity][k] == s.producer.img[k])
  }

  function Pick(words: seq<Word>, loads: seq<nat>): seq<Word>
    requires forall k :: 0 <= k < |loads| ==> loads[k] < |words|
  {
    seq(|loads|, k requires 0 <= k < |loads| => words[loads[k]])
  }

  /** What the consumer printed is, in order and without gaps or repeats, what was accepted. */
  ghost predicate Faithful(c: Config, s: State)
    requires ValidConfig(c)
  {
    |s.printed| <= |s.accepted| &&
    forall n {:trigger s.printed[n]} :: 0 <= n < |s.printed| ==>
      |s.accepted[n]| == c.width && s.printed[n] == Printed(n % WRAP, Pick(s.accepted[n], c.loads))
  }

  ghost predicate Reading(c: Config, s: State)
    requires Shaped(c, s) && Indices(c, s) && Slots(c, s)
  {
    s.consumer.Load? ==>
      var record := s.accepted[|s.printed|];
      forall k :: 0 <= k < |s.consumer.got| ==> s.consumer.got[k] == record[c.loads[k]]
  }

  ghost predicate Inv(c: Config, s: State)
    requires Shaped(c, s)
  {
    Indices(c, s) && Slots(c, s) && Reading(c, s) && Faithful(c, s)
  }

  lemma InitInv(c: Config, slots: seq<seq<Word>>)
    requires Shaped(c, Init(slots))
    ensures Inv(c, Init(slots))
  {
  }

  lemma SlotOfProd(c: Config, s: State)
    requires Shaped(c, s) && Indices(c, s) && Divides(c.capacity)
    ensures s.prod % c.capacity == |s.accepted| % c.capacity
    ensures !s.consumer.Start? ==> s.consumer.cons % c.capacity == |s.printed| % c.capacity
  {
    SlotOfIndex(c.capacity, |s.accepted|);
    SlotOfIndex(c.capacity, |s.printed|);
  }

  lemma ProducerStepInv(c: Config, s: State)
    requires Shaped(c, s) && Inv(c, s) && Divides(c.capacity)
    ensures Inv(c, NextProducer(c, s))
  {
    if s.producer.Store? {
      SlotOfProd(c, s);
      if s.producer.done < c.width { StoreInv(c, s); } else { PublishInv(c, s); }
    }
  }

  /** Storing a word touches no slot that still has to be read. */
  lemma StoreInv(c: Config, s: State)
    requires Shaped(c, s) && Inv(c, s) && s.producer.Store? && s.producer.done < c.width
    requires s.prod % c.capacity == |s.accepted| % c.capacity
    ensures Inv(c, NextProducer(c, s))
  {
    var t := NextProducer(c, s);
    forall n {:trigger t.accepted[n]} | |t.accepted| - Behind(t, t.cons) <= n < |t.accepted|
      ensures t.slots[n % c.capacity] == t.accepted[n]
    {
      WindowDistinct(c.capacity, n, |s.accepted|);
    }
  }

  lemma PublishIndices(c: Config, s: State)
    requires Shaped(c, s) && Indices(c, s) && s.producer.Store? && s.producer.done == c.width
    ensures Indices(c, NextProducer(c, s))
    ensures Behind(NextProducer(c, s), s.cons) == Behind(s, s.cons) + 1
  {
    NextIndex(|s.accepted|);
    OneFurther(s.prod, s.cons);
    if s.consumer.Scan? || s.consumer.Load? {
      OneFurther(s.prod, s.consumer.prod);
    }
  }

  lemma PublishInv(c: Config, s: State)
    requires Shaped(c, s) && Inv(c, s) && s.producer.Store? && s.producer.done == c.width
    requires s.prod % c.capacity == |s.accepted| % c.capacity
    ensures Inv(c, NextProducer(c, s))
  {
    PublishIndices(c, s);
    var t := NextProducer(c, s);
    assert s.slots[|s.accepted| % c.capacity] == s.producer.img;
    forall n {:trigger t.accepted[n]} | |t.accepted| - Behind(t, t.cons) <= n < |t.accepted|
      ensures t.slots[n % c.capacity] == t.accepted[n]
    {
      if n < |s.accepted| { assert t.accepted[n] == s.accepted[n]; }
    }
  }

  lemma ConsumerStepInv(c: Config, s: State)
    requires Shaped(c, s) && Inv(c, s) && Divides(c.capacity)
    ensures Inv(c, NextConsumer(c, s))
  {
    match s.consumer
    case Start =>
    case Poll(cons) => Backlog(|s.accepted|, |s.printed|);
    case Scan(cons, prod) => ScanInv(c, s);
    case Load(cons, prod, got) =>
      SlotOfProd(c, s);
      LoadInv(c, s);
  }

  lemma ScanIndices(c: Config, s: State)
    requires Shaped(c, s) && Indices(c, s) && s.consumer.Scan?
    ensures Indices(c, NextConsumer(c, s))
    ensures s.consumer.cons == s.consumer.prod ==>
              Behind(s, s.consumer.cons) == |s.accepted| - |s.printed| <= Behind(s, s.cons)
  {
    Backlog(|s.accepted|, |s.printed|);
    if s.consumer.cons != s.consumer.prod && Behind(s, s.consumer.prod) == |s.accepted| - |s.printed| {
      SameBehind(s.prod, s.consumer.cons, s.consumer.prod);
      assert false;
    }
  }

  lemma SameBehind(p: nat, x: nat, y: nat)
    requires p < WRAP && x < WRAP && y < WRAP && Sub32(p, x) == Sub32(p, y)
    ensures x == y
  {
  }

  lemma ScanInv(c: Config, s: State)
    requires Shaped(c, s) && Inv(c, s) && s.consumer.Scan?
    ensures Inv(c, NextConsumer(c, s))
  {
    ScanIndices(c, s);
    var t := NextConsumer(c, s);
    forall n {:trigger t.accepted[n]} | |t.accepted| - Behind(t, t.cons) <= n < |t.accepted|
      ensures t.slots[n % c.capacity] == t.accepted[n]
    {
      assert t.accepted[n] == s.accepted[n];
    }
  }

  lemma LoadInv(c: Config, s: State)
    requires Shaped(c, s) && Inv(c, s) && s.consumer.Load?
    requires s.consumer.cons % c.capacity == |s.printed| % c.capacity
    ensures Inv(c, NextConsumer(c, s))
  {
    var record := s.accepted[|s.printed|];
    assert s.slots[|s.printed| % c.capacity] == record;
    if |s.consumer.got| == |c.loads| { PrintInv(c, s); }
  }

  lemma PrintInv(c: Config, s: State)
    requires Shaped(c, s) && Inv(c, s) && s.consumer.Load? && |s.consumer.got| == |c.loads|
    ensures Inv(c, NextConsumer(c, s))
  {
    NextIndex(|s.printed|);
    var t := NextConsumer(c, s);
    assert s.consumer.got == Pick(s.accepted[|s.printed|], c.loads);
    forall n {:trigger t.printed[n]} | 0 <= n < |t.printed|
      ensures |t.accepted[n]| == c.width && t.printed[n] == Printed(n % WRAP, Pick(t.accepted[n], c.loads))
    {
      if n < |s.printed| { assert t.printed[n] == s.printed[n]; }
    }
  }

  lemma NextInv(c: Config, s: State, a: Action)
    requires Shaped(c, s) && Inv(c, s) && Divides(c.capacity) && (a.Emit? ==> |a.img| == c.width)
    ensures Inv(c, Next(c, s, a))
  {
    match a
    case Emit(_) =>
    case ProducerStep => ProducerStepInv(c, s);
    case ConsumerStep => ConsumerStepInv(c, s);
  }

  lemma {:induction false} RunInv(c: Config, slots: seq<seq<Word>>, run: seq<Action>)
    requires Shaped(c, Init(slots)) && ValidRun(c, run) && Divides(c.capacity)
    ensures Inv(c, Exec(c, Init(slots), run))
  {
    if run == [] {
      InitInv(c, slots);
    } else {
      var n := |run| - 1;
      RunInv(c, slots, run[..n]);
      assert run[n] in run;
      NextInv(c, Exec(c, Init(slots), run[..n]), run[n]);
    }
  }

  // ----- the ring is a FIFO -----

  /** Accepted and not yet printed. */
  ghost function Queue(s: State): seq<seq<Word>>
    requires |s.printed| <= |s.accepted|
  {
    s.accepted[|s.printed|..]
  }

  /** Every step of either program is a step of an unbounded FIFO: nothing, an enqueue of the record
      being emitted, or a dequeue that prints the oldest record. */
  lemma NextRefinesFifo(c: Config, s: State, a: Action)
    requires Shaped(c, s) && Inv(c, s) && Divides(c.capacity) && (a.Emit? ==> |a.img| == c.width)
    ensures var t := Next(c, s, a);
            |t.printed| <= |t.accepted| &&
            (|| (t.printed == s.printed && Queue(t) == Queue(s))
             || (s.producer.Store? && t.printed == s.printed && Queue(t) == Queue(s) + [s.producer.img])
             || (Queue(s) != [] && |Queue(s)[0]| == c.width && Queue(t) == Queue(s)[1..] &&
                 t.printed == s.printed + [Printed(|s.printed| % WRAP, Pick(Queue(s)[0], c.loads))]))
  {
    NextInv(c, s, a);
    var t := Next(c, s, a);
    if |t.printed| != |s.printed| {
      var n := |s.printed|;
      assert t.printed[n] == Printed(n % WRAP, Pick(t.accepted[n], c.loads));
      assert t.accepted == s.accepted && Queue(s)[0] == s.accepted[n];
    }
  }

  /** A call is refused only when, as of its load of `cons`, the ring holds `capacity` records that
      are not acknowledged; it then changes nothing. */
  lemma RefusedMeansFull(c: Config, s: State)
    requires Shaped(c, s) && Inv(c, s) && s.producer.Check?
    requires NextProducer(c, s).producer.Idle?
    ensures Behind(s, s.producer.cons) == c.capacity && NextProducer(c, s) == s.(producer := Idle)
  {
  }

  /** In every interleaving, from any initial slot contents: what has been printed is an in-order,
      duplicate-free prefix of what was accepted, and no record still to be printed is overwritten. */
  lemma {:induction false} FifoInEveryInterleaving(c: Config, slots: seq<seq<Word>>, run: seq<Action>)
    requires Shaped(c, Init(slots)) && ValidRun(c, run) && Divides(c.capacity)
    ensures var s := Exec(c, Init(slots), run);
            Faithful(c, s) &&
            forall n :: |s.printed| <= n < |s.accepted| ==> s.slots[n % c.capacity] == s.accepted[n]
  {
    RunInv(c, slots, run);
  }

  // ----- and only when the capacity divides 2^32 -----

  lemma {:induction false} ExecAppend(c: Config, s: State, a: seq<Action>, b: seq<Action>)
    requires Shaped(c, s) && ValidRun(c, a) && ValidRun(c, b)
    ensures ValidRun(c, a + b) && Exec(c, s, a + b) == Exec(c, Exec(c, s, a), b)
  {
    if b == [] {
      assert a + b == a;
    } else {
      var n := |b| - 1;
      ExecAppend(c, s, a, b[..n]);
      assert (a + b)[..|a + b| - 1] == a + b[..n];
    }
  }

  ghost function Steps(a: Action, n: nat): (r: seq<Action>)
    ensures |r| == n && forall x :: x in r ==> x == a
  {
    seq(n, i => a)
  }

  lemma {:induction false} OneMore(c: Config, s: State, a: Action, n: nat)
    requires Shaped(c, s) && !a.Emit?
    ensures Exec(c, s, Steps(a, n + 1)) == Next(c, Exec(c, s, Steps(a, n)), a)
    ensures Exec(c, s, Steps(a, 0)) == s
  {
    assert Steps(a, n + 1)[..n] == Steps(a, n);
  }

  lemma {:induction false} StoreWords(c: Config, s: State, k: nat)
    requires Shaped(c, s) && s.producer.Store? && s.producer.done == 0 && k <= c.width
    ensures var i, img := s.producer.prod % c.capacity, s.producer.img;
            Exec(c, s, Steps(ProducerStep, k)) ==
            s.(producer := s.producer.(done := k), slots := s.slots[i := img[..k] + s.slots[i][k..]])
  {
    var i, img := s.producer.prod % c.capacity, s.producer.img;
    if k == 0 {
      OneMore(c, s, ProducerStep, 0);
      assert img[..0] + s.slots[i][0..] == s.slots[i];
      assert s.slots[i := s.slots[i]] == s.slots;
    } else {
      StoreWords(c, s, k - 1);
      OneMore(c, s, ProducerStep, k - 1);
      StoreOne(img, s.slots, i, k);
    }
  }

  lemma StoreOne(img: seq<Word>, slots: seq<seq<Word>>, i: nat, k: nat)
    requires i < |slots| && 0 < k <= |img| == |slots[i]|
    ensures var before, after := img[..k - 1] + slots[i][k - 1..], img[..k] + slots[i][k..];
            before[k - 1 := img[k - 1]] == after && slots[i := before][i := after] == slots[i := after]
  {
  }

  /** The call, the load of `cons` and the check: the producer starts to store. */
  lemma {:induction false} EmitStarts(c: Config, s: State, img: seq<Word>)
    requires Shaped(c, s) && s.producer.Idle? && Behind(s, s.cons) < c.capacity && |img| == c.width
    ensures Exec(c, s, [Emit(img)] + Steps(ProducerStep, 2)) == s.(producer := Store(img, s.prod, 0))
  {
    var start := [Emit(img)] + Steps(ProducerStep, 2);
    assert start[..2] == [Emit(img), ProducerStep] && start[..2][..1] == [Emit(img)] && start[..1][..0] == [];
    assert Exec(c, s, start[..1]) == s.(producer := LoadCons(img, s.prod));
    assert Exec(c, s, start[..2]) == s.(producer := Check(img, s.prod, s.cons));
  }

  /** The words and the index: the record is published. */
  lemma {:induction false} EmitStores(c: Config, t: State)
    requires Shaped(c, t) && t.producer.Store? && t.producer.done == 0
    ensures var prod, img := t.producer.prod, t.producer.img;
            Exec(c, t, Steps(ProducerStep, c.width + 1)) ==
            t.(producer := Idle, prod := Inc32(prod), slots := t.slots[prod % c.capacity := img],
               accepted := t.accepted + [img])
  {
    var i, img := t.producer.prod % c.capacity, t.producer.img;
    StoreWords(c, t, c.width);
    OneMore(c, t, ProducerStep, c.width);
    assert img[..c.width] + t.slots[i][c.width..] == img;
  }

  /** Every record the producer is called with is one of these. */
  ghost predicate EmitsOnly(run: seq<Action>, images: seq<Word> -> bool) {
    forall a | a in run :: a.Emit? ==> images(a.img)
  }

  /** One call of the producer with nobody else running. */
  lemma EmitAlone(c: Config, s: State, img: seq<Word>) returns (run: seq<Action>)
    requires Shaped(c, s) && s.producer.Idle? && Behind(s, s.cons) < c.capacity && |img| == c.width
    ensures ValidRun(c, run) && forall a | a in run :: a.Emit? ==> a.img == img
    ensures Exec(c, s, run) ==
            s.(prod := Inc32(s.prod), slots := s.slots[s.prod % c.capacity := img], accepted := s.accepted + [img])
  {
    var start := [Emit(img)] + Steps(ProducerStep, 2);
    EmitStarts(c, s, img);
    EmitStores(c, Exec(c, s, start));
    run := start + Steps(ProducerStep, c.width + 1);
    ExecAppend(c, s, start, Steps(ProducerStep, c.width + 1));
  }

  lemma {:induction false} LoadWords(c: Config, s: State, words: seq<Word>, k: nat)
    requires Shaped(c, s) && s.consumer.Load? && s.consumer.got == [] && k <= |c.loads|
    requires words == Pick(s.slots[s.consumer.cons % c.capacity], c.loads)
    ensures Exec(c, s, Steps(ConsumerStep, k)) == s.(consumer := s.consumer.(got := words[..k]))
  {
    if k == 0 {
      OneMore(c, s, ConsumerStep, 0);
    } else {
      LoadWords(c, s, words, k - 1);
      OneMore(c, s, ConsumerStep, k - 1);
      LoadOne(c, s, words, k - 1);
    }
  }

  lemma LoadOne(c: Config, s: State, words: seq<Word>, k: nat)
    requires Shaped(c, s) && s.consumer.Load? && k < |c.loads|
    requires words == Pick(s.slots[s.consumer.cons % c.capacity], c.loads)
    ensures var t := s.(consumer := s.consumer.(got := words[..k]));
            Shaped(c, t) && NextConsumer(c, t) == s.(consumer := s.consumer.(got := words[..k + 1]))
  {
    assert words[..k] + [words[k]] == words[..k + 1];
  }

  /** The consumer printing one record with nobody else running. */
  lemma PrintAlone(c: Config, s: State) returns (run: seq<Action>)
    requires Shaped(c, s) && s.consumer.Poll? && s.consumer.cons != s.prod
    ensures ValidRun(c, run) && forall a | a in run :: a.ConsumerStep?
    ensures var cons := s.consumer.cons;
            Exec(c, s, run) == s.(consumer := Scan(Inc32(cons), s.prod),
                                  printed := s.printed + [Printed(cons, Pick(s.slots[cons % c.capacity], c.loads))])
  {
    var cons := s.consumer.cons;
    var t := s.(consumer := Load(cons, s.prod, []));
    assert Exec(c, s, Steps(ConsumerStep, 2)) == t by {
      OneMore(c, s, ConsumerStep, 0);
      OneMore(c, s, ConsumerStep, 1);
    }
    var words := Pick(s.slots[cons % c.capacity], c.loads);
    LoadWords(c, t, words, |c.loads|);
    OneMore(c, t, ConsumerStep, |c.loads|);
    assert words[..|c.loads|] == words;
    run := Steps(ConsumerStep, 2) + Steps(ConsumerStep, |c.loads| + 1);
    ExecAppend(c, s, Steps(ConsumerStep, 2), Steps(ConsumerStep, |c.loads| + 1));
  }

  /** Everything printed and acknowledged after `m` records. */
  ghost predicate Quiet(c: Config, s: State, m: nat) {
    && Shaped(c, s) && s.producer.Idle? && s.consumer == Poll(m) && m < WRAP
    && s.prod == m && s.cons == m && |s.accepted| == m && |s.printed| == m
  }

  lemma {:induction false} ReachQuiet(c: Config, slots: seq<seq<Word>>, img: seq<Word>, m: nat)
    returns (run: seq<Action>)
    requires Shaped(c, Init(slots)) && |img| == c.width && m < WRAP
    ensures ValidRun(c, run) && Quiet(c, Exec(c, Init(slots), run), m)
    ensures forall a | a in run :: a.Emit? ==> a.img == img
  {
    if m == 0 {
      run := Steps(ConsumerStep, 1);
      OneMore(c, Init(slots), ConsumerStep, 0);
    } else {
      var before := ReachQuiet(c, slots, img, m - 1);
      var s := Exec(c, Init(slots), before);
      var round := Round(c, s, img, m - 1);
      ExecAppend(c, Init(slots), before, round);
      run := before + round;
    }
  }

  lemma Round(c: Config, s: State, img: seq<Word>, m: nat) returns (run: seq<Action>)
    requires Quiet(c, s, m) && |img| == c.width && m + 1 < WRAP
    ensures ValidRun(c, run) && Quiet(c, Exec(c, s, run), m + 1)
    ensures forall a | a in run :: a.Emit? ==> a.img == img
  {
    var emit := EmitAlone(c, s, img);
    var t := Exec(c, s, emit);
    var rest := PrintAndAck(c, t, m);
    ExecAppend(c, s, emit, rest);
    run := emit + rest;
  }

  lemma PrintAndAck(c: Config, t: State, m: nat) returns (run: seq<Action>)
    requires Shaped(c, t) && t.consumer == Poll(m) && m + 1 < WRAP && t.prod == m + 1
    ensures ValidRun(c, run) && forall a | a in run :: a.ConsumerStep?
    ensures var u := Exec(c, t, run);
            u.(printed := t.printed) == t.(cons := m + 1, consumer := Poll(m + 1)) && |u.printed| == |t.printed| + 1
  {
    var print1 := PrintAlone(c, t);
    var u := Exec(c, t, print1);
    Acknowledges(c, u);
    ExecAppend(c, t, print1, Steps(ConsumerStep, 1));
    run := print1 + Steps(ConsumerStep, 1);
  }

  lemma {:induction false} Acknowledges(c: Config, u: State)
    requires Shaped(c, u) && u.consumer.Scan? && u.consumer.cons == u.consumer.prod
    ensures Exec(c, u, Steps(ConsumerStep, 1)) == u.(cons := u.consumer.cons, consumer := Poll(u.consumer.cons))
  {
    OneMore(c, u, ConsumerStep, 0);
  }

  /** `k` records more than in `s`, with the consumer where it was. */
  ghost predicate Emitted(c: Config, s: State, t: State, img: seq<Word>, m: nat, k: nat) {
    && Shaped(c, t) && t.producer.Idle? && t.consumer == s.consumer && t.cons == s.cons && t.printed == s.printed
    && t.prod == (m + k) % WRAP && t.accepted == s.accepted + seq(k, i => img)
  }

  lemma EmitNext(c: Config, s: State, t: State, img: seq<Word>, m: nat, k: nat) returns (emit: seq<Action>)
    requires Quiet(c, s, m) && |img| == c.width && 0 < k < c.capacity && m + k <= WRAP
    requires Emitted(c, s, t, img, m, k - 1)
    ensures ValidRun(c, emit) && Emitted(c, s, Exec(c, t, emit), img, m, k)
    ensures forall a | a in emit :: a.Emit? ==> a.img == img
  {
    Backlog(m + k - 1, m);
    emit := EmitAlone(c, t, img);
    NextIndex(m + k - 1);
    OneMoreImage(s.accepted, img, k);
  }

  /** `k` records emitted one after another while the consumer does not run. */
  lemma {:induction false} EmitMany(c: Config, s: State, img: seq<Word>, m: nat, k: nat) returns (run: seq<Action>)
    requires Quiet(c, s, m) && |img| == c.width && k < c.capacity && m + k <= WRAP
    ensures ValidRun(c, run) && Emitted(c, s, Exec(c, s, run), img, m, k)
    ensures forall a | a in run :: a.Emit? ==> a.img == img
  {
    if k == 0 {
      run := [];
      assert s.accepted + seq(0, i => img) == s.accepted;
    } else {
      var before := EmitMany(c, s, img, m, k - 1);
      var emit := EmitNext(c, s, Exec(c, s, before), img, m, k);
      ExecAppend(c, s, before, emit);
      run := before + emit;
    }
  }

  lemma OneMoreImage(accepted: seq<seq<Word>>, img: seq<Word>, k: nat)
    requires k > 0
    ensures accepted + seq(k - 1, i => img) + [img] == accepted + seq(k, i => img)
  {
  }

  /** If the capacity does not divide 2^32, then for any two records the consumer can tell apart some
      run of calls with just these two prints one that was overwritten unread. */
  lemma OverwriteAtWrap(c: Config, slots: seq<seq<Word>>, x: seq<Word>, y: seq<Word>) returns (run: seq<Action>)
    requires Shaped(c, Init(slots)) && !Divides(c.capacity)
    requires |x| == |y| == c.width && Pick(x, c.loads) != Pick(y, c.loads)
    ensures ValidRun(c, run) && EmitsOnly(run, img => img == x || img == y)
    ensures !Faithful(c, Exec(c, Init(slots), run))
  {
    var m := LastSlotZero(c.capacity);
    var r := WRAP - m;
    var quiet := ReachQuiet(c, slots, x, m);
    var s := Exec(c, Init(slots), quiet);
    var many := EmitMany(c, s, x, m, r);
    var t := Exec(c, s, many);
    Backlog(WRAP, m);
    var emit := EmitAlone(c, t, y);
    var u := Exec(c, t, emit);
    var print1 := PrintAlone(c, u);
    ExecAppend(c, t, emit, print1);
    ExecAppend(c, s, many, emit + print1);
    ExecAppend(c, Init(slots), quiet, many + (emit + print1));
    run := quiet + (many + (emit + print1));
    var v := Exec(c, Init(slots), run);
    assert v.accepted[m] == x;
    assert v.printed[m] == Printed(m, Pick(y, c.loads));
  }

  /** The ring is a FIFO in every interleaving exactly when its capacity divides 2^32, whatever records
      the producer is called with, as long as the consumer can tell two of them apart. */
  lemma {:induction false} FifoExactlyWhenDivides(c: Config, slots: seq<seq<Word>>, images: seq<Word> -> bool,
                                                  x: seq<Word>, y: seq<Word>)
    requires Shaped(c, Init(slots)) && images(x) && images(y)
    requires |x| == |y| == c.width && Pick(x, c.loads) != Pick(y, c.loads)
    ensures (forall run | ValidRun(c, run) && EmitsOnly(run, images) :: Faithful(c, Exec(c, Init(slots), run)))
            <==> Divides(c.capacity)
  {
    if Divides(c.capacity) {
      forall run | ValidRun(c, run) && EmitsOnly(run, images) ensures Faithful(c, Exec(c, Init(slots), run)) {
        FifoInEveryInterleaving(c, slots, run);
      }
    } else {
      var run := OverwriteAtWrap(c, slots, x, y);
      assert EmitsOnly(run, images);
    }
  }
}
