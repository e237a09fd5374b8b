/**
 Admission of a probe against the published capability table.

 A probe admitted once stays admitted by every later firmware whose schema history passed the gate.
 */
module ProbeAdmit {
  import opened Common
  import opened Bits
  import opened ProbeCtx
  import opened ProbeGate

  datatype Capability = Capability(id: nat, execClass: string, budget: nat, words: nat, bitmap: Bitmap)
  datatype View = View(buildId: seq<nat>, entries: seq<Capability>)
  datatype Requirement = Requirement(attachId: nat, fields: Bitmap, cost: nat, buildId: seq<nat>, bound: bool)
  datatype Verdict = Admitted | NoSuchAttach | MissingField(id: nat) | OverBudget | WrongFirmware

  ghost predicate ValidView(v: View) {
    forall i :: 0 <= i < |v.entries| ==> WellSized(v.entries[i].bitmap)
  }

  // ----- what admission means -----

  predicate Provides(c: Capability, id: nat) { id / WORD < c.words && Has(c.bitmap, id) }

  /** Asked for and not provided. */
  predicate Missing(c: Capability, r: Requirement, id: nat) { Has(r.fields, id) && !Provides(c, id) }

  function FirstEntry(es: seq<Capability>, id: nat): (i: nat)
    ensures i <= |es| && (i < |es| ==> es[i].id == id) && forall j :: 0 <= j < i ==> es[j].id != id
  {
    if es == [] || es[0].id == id then 0 else 1 + FirstEntry(es[1..], id)
  }

  ghost predicate Firmware(v: View, r: Requirement) { r.bound ==> r.buildId == v.buildId }

  ghost predicate Admissible(v: View, r: Requirement) {
    && Firmware(v, r)
    && var i := FirstEntry(v.entries, r.attachId);
       i < |v.entries| && (forall id: nat :: !Missing(v.entries[i], r, id)) && r.cost <= v.entries[i].budget
  }

  // ----- the decision as it is taken -----

  method FindEntry(es: seq<Capability>, id: nat) returns (i: nat)
    ensures i == FirstEntry(es, id)
  {
    i := 0;
    while i < |es|
      invariant i <= |es| && forall j :: 0 <= j < i ==> es[j].id != id
    {
      if es[i].id == id { return; }
      i := i + 1;
    }
  }

  /** The lowest set bit of a word. */
  method LowestBit(w: nat) returns (b: nat)
    requires 0 < w && Fits(w)
    ensures b < WORD && Bit(w, b) && forall k: nat :: k < b ==> !Bit(w, k)
  {
    ghost var some := SomeBit(w, WORD);
    b := 0;
    while !Bit(w, b)
      invariant b <= some && forall k: nat :: k < b ==> !Bit(w, k)
      decreases some - b
    {
      b := b + 1;
    }
  }

  /** The bits of one requested word that the entry does not provide. */
  function Lacking(c: Capability, r: Requirement, w: nat): nat
    requires w < |r.fields| && w < |c.bitmap|
  {
    AndNot(r.fields[w], if w < c.words then c.bitmap[w] else 0)
  }

  lemma {:induction false} LackingBits(c: Capability, r: Requirement, id: nat)
    requires WellSized(c.bitmap) && WellSized(r.fields) && id < MAX_FIELDS
    ensures Bit(Lacking(c, r, id / WORD), id % WORD) <==> Missing(c, r, id)
  {
    var w := id / WORD;
    ClearedBit(r.fields[w], if w < c.words then c.bitmap[w] else 0, id % WORD);
    NoBits(id % WORD);
  }

  lemma WordClear(c: Capability, r: Requirement, w: nat)
    requires WellSized(c.bitmap) && WellSized(r.fields) && w < BITMAP_WORDS && Lacking(c, r, w) == 0
    ensures forall id: nat :: id / WORD == w ==> !Missing(c, r, id)
  {
    forall id: nat | id / WORD == w ensures !Missing(c, r, id) {
      LackingBits(c, r, id);
      NoBits(id % WORD);
    }
  }

  lemma IdOfBit(w: nat, b: nat)
    requires b < WORD
    ensures (w * WORD + b) / WORD == w && (w * WORD + b) % WORD == b
  {
  }

  /** Both loops over the words, the provided ones and the ones past them. */
  method FirstMissing(c: Capability, r: Requirement) returns (at: Option<nat>)
    requires WellSized(c.bitmap) && WellSized(r.fields)
    ensures at.None? ==> forall id: nat :: !Missing(c, r, id)
    ensures at.Some? ==> Missing(c, r, at.value) && forall id: nat :: id < at.value ==> !Missing(c, r, id)
  {
    for w := 0 to BITMAP_WORDS
      invariant forall id: nat :: id / WORD < w ==> !Missing(c, r, id)
    {
      var missing := Lacking(c, r, w);
      if missing != 0 {
        AndNotFits(r.fields[w], if w < c.words then c.bitmap[w] else 0);
        var b := LowestBit(missing);
        FoundIsFirst(c, r, w, b);
        return Some(w * WORD + b);
      }
      WordClear(c, r, w);
    }
    at := None;
  }

  lemma {:induction false} FoundIsFirst(c: Capability, r: Requirement, w: nat, b: nat)
    requires WellSized(c.bitmap) && WellSized(r.fields) && w < BITMAP_WORDS && b < WORD
    requires Bit(Lacking(c, r, w), b) && forall k: nat :: k < b ==> !Bit(Lacking(c, r, w), k)
    requires forall id: nat :: id / WORD < w ==> !Missing(c, r, id)
    ensures Missing(c, r, w * WORD + b) && forall id: nat :: id < w * WORD + b ==> !Missing(c, r, id)
  {
    IdOfBit(w, b);
    LackingBits(c, r, w * WORD + b);
    forall id: nat | id < w * WORD + b ensures !Missing(c, r, id) {
      if id / WORD >= w {
        assert id / WORD == w && id % WORD < b;
        LackingBits(c, r, id);
      }
    }
  }

  /** Every bit asked for is set in a word the entry has. */
  ghost predicate Grants(c: Capability, r: Requirement)
    requires WellSized(c.bitmap) && WellSized(r.fields)
  {
    forall w: nat, b: nat :: w < 4 && b < 64 && Bit(r.fields[w], b) ==> w < c.words && Bit(c.bitmap[w], b)
  }

  lemma GrantsAll(c: Capability, r: Requirement)
    requires WellSized(c.bitmap) && WellSized(r.fields)
    ensures Grants(c, r) <==> forall id: nat :: !Missing(c, r, id)
  {
    if forall id: nat :: !Missing(c, r, id) {
      forall w: nat, b: nat | w < 4 && b < 64 && Bit(r.fields[w], b) ensures w < c.words && Bit(c.bitmap[w], b) {
        IdOfBit(w, b);
        assert !Missing(c, r, w * WORD + b);
      }
    }
    if Grants(c, r) {
      forall id: nat ensures !Missing(c, r, id) {
        if Has(r.fields, id) { assert Bit(r.fields[id / WORD], id % WORD); }
      }
    }
  }

  /** The first entry of an attach point has the fields and the budget a probe asks for. */
  ghost predicate FirstGrants(v: View, r: Requirement, i: nat)
    requires ValidView(v) && WellSized(r.fields)
  {
    i < |v.entries| && v.entries[i].id == r.attachId && (forall j :: 0 <= j < i ==> v.entries[j].id != r.attachId) &&
    r.cost <= v.entries[i].budget && Grants(v.entries[i], r)
  }

  lemma AdmissibleExactly(v: View, r: Requirement)
    requires ValidView(v) && WellSized(r.fields)
    ensures Admissible(v, r) <==> (!r.bound || r.buildId == v.buildId) && exists i: nat :: FirstGrants(v, r, i)
  {
    var k := FirstEntry(v.entries, r.attachId);
    if k < |v.entries| {
      GrantsAll(v.entries[k], r);
      assert FirstGrants(v, r, k) <==> r.cost <= v.entries[k].budget && Grants(v.entries[k], r);
    }
    forall i: nat | FirstGrants(v, r, i) ensures i == k { }
  }

  method Admit(v: View, r: Requirement) returns (d: Verdict)
    requires ValidView(v) && WellSized(r.fields)
    ensures d.Admitted? <==> Admissible(v, r)
    ensures d.Admitted? <==> (!r.bound || r.buildId == v.buildId) && exists i: nat :: FirstGrants(v, r, i)
    ensures d.WrongFirmware? <==> !Firmware(v, r)
    ensures d.NoSuchAttach? <==> Firmware(v, r) && FirstEntry(v.entries, r.attachId) == |v.entries|
    ensures d.MissingField? ==> var i := FirstEntry(v.entries, r.attachId);
              i < |v.entries| && Missing(v.entries[i], r, d.id) &&
              forall id: nat :: id < d.id ==> !Missing(v.entries[i], r, id)
    ensures d.OverBudget? ==> var i := FirstEntry(v.entries, r.attachId);
              i < |v.entries| && (forall id: nat :: !Missing(v.entries[i], r, id)) && r.cost > v.entries[i].budget
  {
    AdmissibleExactly(v, r);
    if r.bound && r.buildId != v.buildId { return WrongFirmware; }
    var i := FindEntry(v.entries, r.attachId);
    if i == |v.entries| { return NoSuchAttach; }
    var c := v.entries[i];
    var lack := FirstMissing(c, r);
    if lack.Some? { return MissingField(lack.value); }
    if r.cost > c.budget { return OverBudget; }
    d := Admitted;
  }

  // ----- the published table -----

  /** An attach point's entry. */
  ghost predicate EntryOf(s: Schema, at: Attach, c: Capability) {
    c.id == at.id && c.execClass == at.execClass && c.budget == at.budget && c.words == BITMAP_WORDS &&
    IsBitmap(s.fields, at.fields, c.bitmap)
  }

  /** The attach points built in, in declaration order. */
  function Built(ats: seq<Attach>, built: set<string>): (r: seq<Attach>)
    ensures forall i :: 0 <= i < |r| ==> r[i] in ats && r[i].name in built
    ensures forall at | at in ats && at.name in built :: at in r
  {
    if ats == [] then [] else
    var at := ats[|ats| - 1];
    var init := Built(ats[..|ats| - 1], built);
    assert ats == ats[..|ats| - 1] + [at];
    if at.name in built then init + [at] else init
  }

  /** A firmware publishes an entry for each attach point built into it, and for nothing else. */
  ghost predicate Publishes(s: Schema, built: set<string>, v: View) {
    var ats := Built(s.attaches, built);
    |v.entries| == |ats| && forall i :: 0 <= i < |ats| ==> EntryOf(s, ats[i], v.entries[i])
  }

  lemma EntryIsAttach(s: Schema, built: set<string>, v: View, i: nat) returns (a: nat)
    requires Publishes(s, built, v) && i < |v.entries|
    ensures a < |s.attaches| && s.attaches[a].name in built && EntryOf(s, s.attaches[a], v.entries[i])
  {
    var at := Built(s.attaches, built)[i];
    assert at in s.attaches && at.name in built;
    a :| 0 <= a < |s.attaches| && s.attaches[a] == at;
  }

  /** Attach ids are unique, so the entry found for an id is that attach point's. */
  lemma EntryFound(s: Schema, built: set<string>, v: View, b: nat) returns (j: nat)
    requires SchemaOk(s) && Publishes(s, built, v) && b < |s.attaches| && s.attaches[b].name in built
    ensures j == FirstEntry(v.entries, s.attaches[b].id) < |v.entries| && EntryOf(s, s.attaches[b], v.entries[j])
  {
    j := FirstEntry(v.entries, s.attaches[b].id);
    var ats := Built(s.attaches, built);
    assert s.attaches[b] in s.attaches;
    var i :| 0 <= i < |ats| && ats[i] == s.attaches[b];
    assert v.entries[i].id == s.attaches[b].id;
    var a := EntryIsAttach(s, built, v, j);
    SameId(s, a, b);
  }

  lemma SameId(s: Schema, a: nat, b: nat)
    requires SchemaOk(s) && a < |s.attaches| && b < |s.attaches| && s.attaches[a].id == s.attaches[b].id
    ensures a == b
  {
  }

  lemma EntryKeeps(before: Schema, after: Schema, a: nat, b: nat, c: Capability, e: Capability, id: nat)
    requires SchemaOk(before) && SchemaOk(after) && Kept(Project(before), Project(after))
    requires a < |before.attaches| && b < |after.attaches| && EntryOf(before, before.attaches[a], c) &&
             EntryOf(after, after.attaches[b], e)
    requires forall f | f in before.attaches[a].fields :: f in after.attaches[b].fields
    requires Provides(c, id)
    ensures Provides(e, id)
  {
    assert AttachOk(before.fields, before.attaches[a]);
    BitmapGrows(before, after, before.attaches[a].fields, after.attaches[b].fields, c.bitmap, e.bitmap, id);
  }

  lemma EntryAdmits(h: seq<Schema>, i: nat, j: nat, a: nat, b: nat, c: Capability, e: Capability, r: Requirement,
                    id: nat)
    requires History(h) && i <= j < |h| && a < |h[i].attaches| && b < |h[j].attaches|
    requires EntryOf(h[i], h[i].attaches[a], c) && EntryOf(h[j], h[j].attaches[b], e)
    requires forall f | f in h[i].attaches[a].fields :: f in h[j].attaches[b].fields
    requires !Missing(c, r, id)
    ensures !Missing(e, r, id)
  {
    if Provides(c, id) {
      KeptAlong(h, i, j);
      EntryKeeps(h[i], h[j], a, b, c, e, id);
    }
  }

  /** A probe one firmware admits, every later firmware of the history admits. */
  lemma AdmittedStaysAdmitted(h: seq<Schema>, i: nat, j: nat, built: set<string>, more: set<string>,
                              v: View, x: View, r: Requirement)
    requires History(h) && i <= j < |h| && built <= more
    requires Publishes(h[i], built, v) && Publishes(h[j], more, x)
    requires Admissible(v, r) && Firmware(x, r)
    ensures Admissible(x, r)
  {
    KeptAlong(h, i, j);
    var k := FirstEntry(v.entries, r.attachId);
    var a := EntryIsAttach(h[i], built, v, k);
    var b := AttachStays(h[i], h[j], a);
    var m := EntryFound(h[j], more, x, b);
    forall id: nat ensures !Missing(x.entries[m], r, id) {
      EntryAdmits(h, i, j, a, b, v.entries[k], x.entries[m], r, id);
    }
  }
}
