/**
 The ring functions themselves, as they run when nobody interferes: the event ring's
 producer and drain, and the command ring's push with the image it copies.

 `SpscRing` has the same programs one memory access at a time.
 */
module AmpRing {
  import opened Common
  import opened Arith
  import opened SpscRing

  const RING_MAGIC: nat := 0x474E5241
  const RING_VERSION: nat := 1
  const EVT_USER_BASE: nat := 0x0100
  const CMD_RING_MAGIC: nat := 0x444D4341
  const CMD_RING_CAP: nat := 2
  const ABI_VERSION: nat := 1
  const BLOB_MAX: nat := 512
  const CMD_WORDS: nat := 132

  /** An event record's words: type, version, reserved, timestamp, value. */
  const EVENT_WIDTH: nat := 5

  function EventImage(ts: Word, value: Word): (img: seq<Word>)
    ensures |img| == EVENT_WIDTH
  {
    [EVT_USER_BASE, RING_VERSION, 0, ts, value]
  }

  /** What the drain prints of a record: value, timestamp, type. */
  const DRAIN_LOADS: seq<nat> := [4, 3, 0]

  // ----- the contents of a ring, as a function of its memory -----

  function SlotIndex(capacity: nat, index: nat): (i: nat)
    requires capacity > 0
    ensures i < capacity
  {
    (index % WRAP) % capacity
  }

  ghost predicate WellFormed(slots: seq<seq<Word>>, width: nat, capacity: nat, prod: nat, cons: nat) {
    && capacity < WRAP && |slots| == capacity
    && (forall i :: 0 <= i < |slots| ==> |slots[i]| == width)
    && prod < WRAP && cons < WRAP && Sub32(prod, cons) <= capacity
  }

  /** The records published and not acknowledged, oldest first. */
  ghost function Contents(slots: seq<seq<Word>>, capacity: nat, prod: nat, cons: nat): (q: seq<seq<Word>>)
    requires |slots| == capacity && prod < WRAP && cons < WRAP && Sub32(prod, cons) <= capacity
    ensures |q| == Sub32(prod, cons)
  {
    var n := Sub32(prod, cons);
    seq(n, i requires 0 <= i < n => slots[SlotIndex(capacity, cons + i)])
  }

  lemma DistinctSlots(capacity: nat, n: nat, m: nat)
    requires Divides(capacity) && n < m < n + capacity
    ensures SlotIndex(capacity, n) != SlotIndex(capacity, m)
  {
    SlotOfIndex(capacity, n);
    SlotOfIndex(capacity, m);
    WindowDistinct(capacity, n, m);
  }

  lemma Advance(cons: nat, prod: nat)
    requires prod < WRAP && cons < WRAP
    ensures (cons + Sub32(prod, cons)) % WRAP == prod
  {
  }

  lemma Reached(cons: nat, prod: nat, n: nat)
    requires prod < WRAP && cons < WRAP && n <= Sub32(prod, cons) && (cons + n) % WRAP == prod
    ensures n == Sub32(prod, cons)
  {
  }

  /** Writing the slot of `prod` appends to the contents once `prod` moves. */
  lemma Published(was: seq<seq<Word>>, width: nat, capacity: nat, prod: nat, cons: nat, img: seq<Word>)
    requires WellFormed(was, width, capacity, prod, cons) && Sub32(prod, cons) < capacity && |img| == width
    ensures var now := was[prod % capacity := img];
            WellFormed(now, width, capacity, Inc32(prod), cons) &&
            (Divides(capacity) ==>
               Contents(now, capacity, Inc32(prod), cons) == Contents(was, capacity, prod, cons) + [img])
  {
    var n, now := Sub32(prod, cons), was[prod % capacity := img];
    OneFurther(prod, cons);
    if Divides(capacity) { AppendsRecord(was, capacity, prod, cons, img); }
  }

  lemma AppendsRecord(was: seq<seq<Word>>, capacity: nat, prod: nat, cons: nat, img: seq<Word>)
    requires Divides(capacity) && capacity < WRAP && |was| == capacity && prod < WRAP && cons < WRAP
    requires Sub32(prod, cons) < capacity && Sub32(Inc32(prod), cons) == Sub32(prod, cons) + 1
    ensures Contents(was[prod % capacity := img], capacity, Inc32(prod), cons)
         == Contents(was, capacity, prod, cons) + [img]
  {
    var n, now := Sub32(prod, cons), was[prod % capacity := img];
    var q, q' := Contents(was, capacity, prod, cons), Contents(now, capacity, Inc32(prod), cons);
    Advance(cons, prod);
    assert SlotIndex(capacity, cons + n) == prod % capacity;
    assert q'[n] == now[SlotIndex(capacity, cons + n)] == img;
    forall i | 0 <= i < n ensures q'[i] == q[i] {
      Untouched(was, capacity, prod, cons, i, img);
    }
  }

  lemma Untouched(was: seq<seq<Word>>, capacity: nat, prod: nat, cons: nat, i: nat, img: seq<Word>)
    requires Divides(capacity) && |was| == capacity && prod < WRAP && cons < WRAP
    requires i < Sub32(prod, cons) < capacity
    ensures was[prod % capacity := img][SlotIndex(capacity, cons + i)] == was[SlotIndex(capacity, cons + i)]
  {
    Advance(cons, prod);
    DistinctSlots(capacity, cons + i, cons + Sub32(prod, cons));
  }

  lemma DrainNext(slots: seq<seq<Word>>, width: nat, capacity: nat, prod: nat, cons: nat, n: nat)
    requires WellFormed(slots, width, capacity, prod, cons) && n <= Sub32(prod, cons) && (cons + n) % WRAP != prod
    ensures n < Sub32(prod, cons) && capacity > 0
    ensures Contents(slots, capacity, prod, cons)[n] == slots[(cons + n) % WRAP % capacity]
    ensures |slots[(cons + n) % WRAP % capacity]| == width
    ensures Inc32((cons + n) % WRAP) == (cons + n + 1) % WRAP
  {
    Advance(cons, prod);
    NextIndex(cons + n);
    var i := SlotIndex(capacity, cons + n);
    assert Contents(slots, capacity, prod, cons)[n] == slots[i];
  }

  /** Each record's value, timestamp and type, under consecutive indices. */
  ghost predicate PrintsInOrder(printed: seq<Printed>, queue: seq<seq<Word>>, cons: nat) {
    |printed| <= |queue| &&
    forall k :: 0 <= k < |printed| ==>
      |queue[k]| == 5 && printed[k] == Printed((cons + k) % WRAP, [queue[k][4], queue[k][3], queue[k][0]])
  }

  lemma PrintsNext(printed: seq<Printed>, queue: seq<seq<Word>>, cons: nat)
    requires PrintsInOrder(printed, queue, cons) && |printed| < |queue| && |queue[|printed|]| == 5
    ensures var rec := queue[|printed|];
            PrintsInOrder(printed + [Printed((cons + |printed|) % WRAP, [rec[4], rec[3], rec[0]])], queue, cons)
  {
  }

  /** A control block and the slots behind it. */
  class Ring {
    var magic: nat
    var version: nat
    var capacity: nat
    var prod: nat
    var cons: nat
    const slots: array<seq<Word>>
    const width: nat

    /** Memory that no one has initialised. */
    constructor (nslots: nat, width: nat)
      ensures fresh(slots) && slots.Length == nslots && this.width == width
      ensures forall i :: 0 <= i < nslots ==> |slots[i]| == width
    {
      this.width := width;
      slots := new seq<Word>[nslots](i => seq(width, k => 0));
    }

    ghost predicate Valid()
      reads this, slots
    {
      WellFormed(slots[..], width, capacity, prod, cons)
    }

    ghost function Queued(): seq<seq<Word>>
      requires Valid()
      reads this, slots
    {
      Contents(slots[..], capacity, prod, cons)
    }

    method InitEventRing(cap: nat)
      requires cap < WRAP && slots.Length == cap
      requires forall i :: 0 <= i < slots.Length ==> |slots[i]| == width
      modifies this
      ensures Valid() && capacity == cap && Queued() == []
      ensures magic == 0x474E5241 && version == 1
    {
      magic := RING_MAGIC;
      version := RING_VERSION;
      capacity := cap;
      prod := 0;
      cons := 0;
    }

    method InitCmdRing()
      requires slots.Length == CMD_RING_CAP
      requires forall i :: 0 <= i < slots.Length ==> |slots[i]| == width
      modifies this
      ensures Valid() && capacity == 2 && Queued() == [] && magic == 0x444D4341
    {
      version := 1;
      capacity := CMD_RING_CAP;
      prod := 0;
      cons := 0;
      magic := CMD_RING_MAGIC;
    }

    /** amp_ring_emit: a full ring refuses the newest record; a ring without slots refuses all. */
    method Emit(ts: Word, value: Word) returns (ok: bool)
      requires Valid() && width == EVENT_WIDTH
      modifies this`prod, slots
      ensures Valid()
      ensures ok == (|old(Queued())| < capacity)
      ensures !ok ==> prod == old(prod) && slots[..] == old(slots[..])
      ensures ok ==> prod == Inc32(old(prod)) && slots[..] == old(slots[..][prod % capacity := [256, 1, 0, ts, value]])
      ensures ok && Divides(capacity) ==> Queued() == old(Queued()) + [[256, 1, 0, ts, value]]
    {
      var p := prod;
      var c := cons;
      if Sub32(p, c) >= capacity {
        return false;
      }
      var i := p % capacity;
      ghost var was := slots[..];
      Published(was, width, capacity, p, c, EventImage(ts, value));
      slots[i] := slots[i][0 := EVT_USER_BASE];
      slots[i] := slots[i][1 := RING_VERSION];
      slots[i] := slots[i][2 := 0];
      slots[i] := slots[i][3 := ts];
      slots[i] := slots[i][4 := value];
      assert slots[i] == EventImage(ts, value);
      assert slots[..] == was[i := EventImage(ts, value)];
      prod := Inc32(p);
      return true;
    }

    /** One turn of the drain's polling loop: everything published, then the acknowledgement. */
    method DrainOnce() returns (printed: seq<Printed>)
      requires Valid() && width == EVENT_WIDTH
      modifies this`cons
      ensures Valid() && Queued() == []
      ensures |printed| == |old(Queued())| && PrintsInOrder(printed, old(Queued()), old(cons))
    {
      printed := [];
      var c, p := cons, prod;
      ghost var queue := Contents(slots[..], capacity, prod, cons);
      while c != p
        invariant cons == old(cons) && c == (cons + |printed|) % WRAP && |printed| <= |queue|
        invariant PrintsInOrder(printed, queue, cons)
        decreases |queue| - |printed|
      {
        DrainNext(slots[..], width, capacity, prod, cons, |printed|);
        var rec := slots[c % capacity];
        PrintsNext(printed, queue, cons);
        printed := printed + [Printed(c, [rec[4], rec[3], rec[0]])];
        c := Inc32(c);
      }
      Reached(cons, prod, |printed|);
      cons := c;
    }

    /** amp_cmd_ring_push, with the copy done as a55_cmd does it: word by word, index last. */
    method Push(rec: seq<Word>) returns (ok: bool)
      requires Valid() && |rec| == width
      modifies this`prod, slots
      ensures Valid()
      ensures ok == (magic == 0x444D4341 && |old(Queued())| < capacity)
      ensures !ok ==> prod == old(prod) && slots[..] == old(slots[..])
      ensures ok ==> prod == Inc32(old(prod)) && slots[..] == old(slots[..][prod % capacity := rec])
      ensures ok && Divides(capacity) ==> Queued() == old(Queued()) + [rec]
    {
      if magic != CMD_RING_MAGIC {
        return false;
      }
      var p, c := prod, cons;
      if Sub32(p, c) >= capacity {
        return false;
      }
      var slot := p % capacity;
      ghost var was := slots[..];
      Published(was, width, capacity, p, c, rec);
      assert rec[..0] + was[slot][0..] == was[slot];
      for i := 0 to width
        invariant slots[..] == was[slot := rec[..i] + was[slot][i..]]
      {
        var words := slots[slot];
        assert words[i := rec[i]] == rec[..i + 1] + was[slot][i + 1..];
        slots[slot] := words[i := rec[i]];
      }
      assert rec[..width] + was[slot][width..] == rec;
      prod := Inc32(p);
      return true;
    }
  }

  // ----- the image of a command -----

  /** Four bytes as one little-endian word. */
  function Pack(b0: int, b1: int, b2: int, b3: int): Word {
    b0 + 0x100 * b1 + 0x1_0000 * b2 + 0x100_0000 * b3
  }

  function BlobByte(img: seq<Word>, i: nat): int
    requires |img| == CMD_WORDS && i < BLOB_MAX
  {
    var w := img[4 + i / 4];
    match i % 4
    case 0 => w % 0x100
    case 1 => (w / 0x100) % 0x100
    case 2 => (w / 0x1_0000) % 0x100
    case _ => (w / 0x100_0000) % 0x100
  }

  function ByteOr0(blob: seq<byte>, i: nat): byte { if i < |blob| then blob[i] else 0 }

  ghost function WordOf(blob: seq<byte>, j: nat): Word {
    ByteOr0(blob, 4 * j) + 0x100 * ByteOr0(blob, 4 * j + 1) +
    0x1_0000 * ByteOr0(blob, 4 * j + 2) + 0x100_0000 * ByteOr0(blob, 4 * j + 3)
  }

  /** The first `k` words after the header hold the blob's bytes in order, zero past its end. */
  ghost predicate LittleEndian(img: seq<Word>, blob: seq<byte>, k: nat) {
    |img| >= 4 + k && forall j :: 0 <= j < k ==> img[4 + j] == WordOf(blob, j)
  }

  /** The record image: header words, then the blob packed and padded with zeros. */
  method BuildImage(cmd: nat, ivars: nat, blob: seq<byte>) returns (img: seq<Word>)
    requires |blob| <= BLOB_MAX
    ensures |img| == 132
    ensures img[0] == cmd && img[1] == 1 && img[2] == |blob| && img[3] == ivars
    ensures forall i :: 0 <= i < 512 ==> BlobByte(img, i) == if i < |blob| then blob[i] else 0
    ensures LittleEndian(img, blob, 128)
  {
    var padded := blob + seq(BLOB_MAX - |blob|, i => 0);
    img := [cmd, ABI_VERSION, |blob|, ivars];
    for k := 0 to BLOB_MAX / 4
      invariant |img| == 4 + k && img[..4] == [cmd, ABI_VERSION, |blob|, ivars]
      invariant LittleEndian(img, blob, k)
    {
      img := img + [Pack(padded[4 * k], padded[4 * k + 1], padded[4 * k + 2], padded[4 * k + 3])];
    }
    assert img[0] == img[..4][0] && img[1] == img[..4][1] && img[2] == img[..4][2] && img[3] == img[..4][3];
    PackedBytes(blob, img);
  }

  lemma PackedBytes(blob: seq<byte>, img: seq<Word>)
    requires |img| == CMD_WORDS && LittleEndian(img, blob, 128)
    ensures forall i :: 0 <= i < BLOB_MAX ==> BlobByte(img, i) == ByteOr0(blob, i)
  {
    forall i | 0 <= i < BLOB_MAX ensures BlobByte(img, i) == ByteOr0(blob, i) {
      var j := i / 4;
      assert img[4 + j] == WordOf(blob, j);
      UnpackByte(ByteOr0(blob, 4 * j), ByteOr0(blob, 4 * j + 1), ByteOr0(blob, 4 * j + 2), ByteOr0(blob, 4 * j + 3));
    }
  }

  lemma UnpackByte(b0: byte, b1: byte, b2: byte, b3: byte)
    ensures var w := Pack(b0, b1, b2, b3);
            w % 0x100 == b0 && (w / 0x100) % 0x100 == b1 &&
            (w / 0x1_0000) % 0x100 == b2 && (w / 0x100_0000) % 0x100 == b3
  {
    var w := Pack(b0, b1, b2, b3);
    var b0', b1', b2', b3': int := b0, b1, b2, b3;
    DivModUnique(w, 0x100, b1' + 0x100 * b2' + 0x1_0000 * b3', b0');
    DivModUnique(w, 0x1_0000, b2' + 0x100 * b3', b0' + 0x100 * b1');
    DivModUnique(w, 0x100_0000, b3', b0' + 0x100 * b1' + 0x1_0000 * b2');
    DivModUnique(w / 0x100, 0x100, b2' + 0x100 * b3', b1');
    DivModUnique(w / 0x1_0000, 0x100, b3', b2');
  }

  // ----- the same programs, one access at a time -----

  /** A whole call with nobody else running does to the shared memory what `Emit` and `Push` do. */
  lemma CallAlone(c: Config, s: State, img: seq<Word>) returns (run: seq<Action>)
    requires Shaped(c, s) && s.producer.Idle? && |img| == c.width
    ensures ValidRun(c, run)
    ensures Exec(c, s, run) ==
            if Sub32(s.prod, s.cons) < c.capacity
            then s.(prod := Inc32(s.prod), slots := s.slots[s.prod % c.capacity := img], accepted := s.accepted + [img])
            else s
  {
    if Sub32(s.prod, s.cons) < c.capacity {
      run := EmitAlone(c, s, img);
    } else {
      run := [Emit(img), ProducerStep, ProducerStep];
      assert run[..2] == [Emit(img), ProducerStep] && run[..2][..1] == [Emit(img)] && run[..1][..0] == [];
      assert Exec(c, s, run[..1]) == s.(producer := LoadCons(img, s.prod));
      assert Exec(c, s, run[..2]) == s.(producer := Check(img, s.prod, s.cons));
    }
  }

  /** The two rings as configurations of the state machine. */
  function EventConfig(capacity: nat): Config {
    Config(capacity, EVENT_WIDTH, DRAIN_LOADS)
  }

  function CommandConfig(loads: seq<nat>): Config {
    Config(CMD_RING_CAP, CMD_WORDS, loads)
  }

  predicate IsEvent(img: seq<Word>) {
    |img| == EVENT_WIDTH && img == EventImage(img[3], img[4])
  }

  /** The event ring, with the records its producer really writes: what the drain prints is what was
      accepted, in every interleaving, if and only if the capacity divides 2^32. */
  lemma EventRingExactlyWhen(capacity: nat, slots: seq<seq<Word>>)
    requires Shaped(EventConfig(capacity), Init(slots))
    ensures (forall run | ValidRun(EventConfig(capacity), run) && EmitsOnly(run, IsEvent) ::
               Faithful(EventConfig(capacity), Exec(EventConfig(capacity), Init(slots), run)))
            <==> Divides(capacity)
  {
    var x, y := EventImage(0, 0), EventImage(0, 1);
    assert Pick(x, DRAIN_LOADS)[0] == 0 && Pick(y, DRAIN_LOADS)[0] == 1;
    FifoExactlyWhenDivides(EventConfig(capacity), slots, IsEvent, x, y);
  }

  lemma {:induction false} AcceptedAreEmitted(c: Config, slots: seq<seq<Word>>, run: seq<Action>,
                                              images: seq<Word> -> bool)
    requires Shaped(c, Init(slots)) && ValidRun(c, run) && EmitsOnly(run, images)
    ensures var s := Exec(c, Init(slots), run);
            (forall img | img in s.accepted :: images(img)) && (!s.producer.Idle? ==> images(s.producer.img))
  {
    if run != [] {
      var n := |run| - 1;
      AcceptedAreEmitted(c, slots, run[..n], images);
      assert run[n] in run;
    }
  }

  /** What the drain prints of the event ring, in every interleaving: for each record emitted with a timestamp
      and a value, in order, the value, the timestamp and the event type. */
  lemma {:induction false} EventRunPrints(capacity: nat, slots: seq<seq<Word>>, run: seq<Action>, n: nat)
    requires Divides(capacity) && Shaped(EventConfig(capacity), Init(slots))
    requires ValidRun(EventConfig(capacity), run) && EmitsOnly(run, IsEvent)
    requires n < |Exec(EventConfig(capacity), Init(slots), run).printed|
    ensures var s := Exec(EventConfig(capacity), Init(slots), run);
            n < |s.accepted| && |s.accepted[n]| == 5 &&
            var ts, value := s.accepted[n][3], s.accepted[n][4];
            s.accepted[n] == [256, 1, 0, ts, value] && s.printed[n] == Printed(n % WRAP, [value, ts, 256])
  {
    var c := EventConfig(capacity);
    var s := Exec(c, Init(slots), run);
    FifoInEveryInterleaving(c, slots, run);
    AcceptedAreEmitted(c, slots, run, IsEvent);
    var p := s.printed[n];
    assert |s.accepted[n]| == c.width && IsEvent(s.accepted[n]);
    assert p == Printed(n % WRAP, Pick(s.accepted[n], DRAIN_LOADS));
    var words := Pick(s.accepted[n], DRAIN_LOADS);
    assert words == [words[0], words[1], words[2]];
  }

  /** The command ring's capacity is one for which every interleaving is a FIFO, whatever words
      its consumer loads. */
  lemma {:induction false} CommandRingIsFifo(loads: seq<nat>, slots: seq<seq<Word>>, run: seq<Action>)
    requires Shaped(CommandConfig(loads), Init(slots)) && ValidRun(CommandConfig(loads), run)
    ensures Faithful(CommandConfig(loads), Exec(CommandConfig(loads), Init(slots), run))
  {
    FifoInEveryInterleaving(CommandConfig(loads), slots, run);
  }
}
