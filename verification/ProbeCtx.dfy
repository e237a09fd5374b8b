/**
 The probe context contract: field ids, the schema check, and the bitmap of fields each attach
 point provides.
 */
module ProbeCtx {
  import opened Common
  import opened Bits

  const BITMAP_WORDS: nat := 4
  const MAX_FIELDS: nat := BITMAP_WORDS * WORD

  datatype Field = Field(name: string, ctype: string, size: int, signed: bool, expose: Option<string>)
  datatype Attach = Attach(name: string, id: nat, execClass: string, budget: nat, fields: seq<string>)
  datatype SlotState = SlotState(name: string, value: nat)
  datatype Schema = Schema(fields: seq<Field>, attaches: seq<Attach>, states: seq<SlotState>)

  // ----- field ids -----

  /** The index of a field, or -1. */
  function FieldIndex(fs: seq<Field>, name: string): (i: int)
    ensures -1 <= i < |fs| && (i >= 0 ==> fs[i].name == name && forall j :: 0 <= j < i ==> fs[j].name != name)
    ensures i < 0 <==> forall j :: 0 <= j < |fs| ==> fs[j].name != name
  {
    if fs == [] then -1
    else if fs[0].name == name then 0
    else var i := FieldIndex(fs[1..], name); if i < 0 then -1 else i + 1
  }

  /** One-based, so that zero stays "invalid". */
  function FieldId(fs: seq<Field>, name: string): (id: nat)
    ensures id <= |fs|
  {
    FieldIndex(fs, name) + 1
  }

  method FindField(fs: seq<Field>, name: string) returns (i: int)
    ensures i == FieldIndex(fs, name)
  {
    i := 0;
    while i < |fs|
      invariant 0 <= i <= |fs| && forall j :: 0 <= j < i ==> fs[j].name != name
    {
      if fs[i].name == name { return; }
      i := i + 1;
    }
    i := -1;
  }

  // ----- the schema check -----

  predicate FieldOk(f: Field) {
    f.name != "" && (f.size == 1 || f.size == 2 || f.size == 4 || f.size == 8) &&
    (f.expose.Some? ==> f.expose.value == "int")
  }

  predicate AttachOk(fs: seq<Field>, a: Attach) {
    && 0 < a.id < 0xF000
    && (a.execClass == "THREAD" || a.execClass == "SCHED_LOCKED" || a.execClass == "ISR")
    && a.fields != []
    && forall k :: 0 <= k < |a.fields| ==> FieldIndex(fs, a.fields[k]) >= 0
  }

  predicate SchemaOk(s: Schema) {
    && |s.fields| <= MAX_FIELDS
    && (forall i :: 0 <= i < |s.fields| ==> FieldOk(s.fields[i]))
    && (forall i, j :: 0 <= j < i < |s.fields| ==> s.fields[j].name != s.fields[i].name)
    && (forall a :: 0 <= a < |s.attaches| ==> AttachOk(s.fields, s.attaches[a]))
    && (forall a, b :: 0 <= b < a < |s.attaches| ==>
          s.attaches[b].id != s.attaches[a].id && s.attaches[b].name != s.attaches[a].name)
  }

  ghost predicate IsField(fs: seq<Field>, name: string) { exists i :: 0 <= i < |fs| && fs[i].name == name }

  method CheckSchema(s: Schema) returns (ok: bool)
    ensures ok <==> SchemaOk(s)
    ensures ok <==>
            && |s.fields| <= 256
            && (forall i :: 0 <= i < |s.fields| ==>
                  s.fields[i].name != "" && s.fields[i].size in {1, 2, 4, 8} &&
                  (s.fields[i].expose == None || s.fields[i].expose == Some("int")))
            && (forall i, j :: 0 <= j < i < |s.fields| ==> s.fields[j].name != s.fields[i].name)
            && (forall a :: 0 <= a < |s.attaches| ==>
                  0 < s.attaches[a].id < 0xF000 && s.attaches[a].execClass in {"THREAD", "SCHED_LOCKED", "ISR"} &&
                  s.attaches[a].fields != [] &&
                  forall k :: 0 <= k < |s.attaches[a].fields| ==> IsField(s.fields, s.attaches[a].fields[k]))
            && (forall a, b :: 0 <= b < a < |s.attaches| ==>
                  s.attaches[b].id != s.attaches[a].id && s.attaches[b].name != s.attaches[a].name)
  {
    if |s.fields| > MAX_FIELDS { return false; }
    ok := CheckFields(s.fields);
    if ok { ok := CheckAttaches(s); }
  }

  method CheckFields(fs: seq<Field>) returns (ok: bool)
    ensures ok <==> (forall i :: 0 <= i < |fs| ==> FieldOk(fs[i])) &&
                    forall i, j :: 0 <= j < i < |fs| ==> fs[j].name != fs[i].name
  {
    for i := 0 to |fs|
      invariant forall k :: 0 <= k < i ==> FieldOk(fs[k])
      invariant forall k, j :: 0 <= j < k < i ==> fs[j].name != fs[k].name
    {
      if !FieldOk(fs[i]) { return false; }
      for j := 0 to i
        invariant forall k :: 0 <= k < j ==> fs[k].name != fs[i].name
      {
        if fs[j].name == fs[i].name { return false; }
      }
    }
    ok := true;
  }

  method CheckAttaches(s: Schema) returns (ok: bool)
    ensures ok <==> (forall a :: 0 <= a < |s.attaches| ==> AttachOk(s.fields, s.attaches[a])) &&
                    forall a, b :: 0 <= b < a < |s.attaches| ==>
                      s.attaches[b].id != s.attaches[a].id && s.attaches[b].name != s.attaches[a].name
  {
    for a := 0 to |s.attaches|
      invariant forall k :: 0 <= k < a ==> AttachOk(s.fields, s.attaches[k])
      invariant forall k, b :: 0 <= b < k < a ==>
                  s.attaches[b].id != s.attaches[k].id && s.attaches[b].name != s.attaches[k].name
    {
      var at := s.attaches[a];
      if at.id == 0 || at.id >= 0xF000 { return false; }
      if at.execClass != "THREAD" && at.execClass != "SCHED_LOCKED" && at.execClass != "ISR" { return false; }
      if at.fields == [] { return false; }
      for b := 0 to a
        invariant forall k :: 0 <= k < b ==> s.attaches[k].id != at.id && s.attaches[k].name != at.name
      {
        if s.attaches[b].id == at.id || s.attaches[b].name == at.name { return false; }
      }
      for k := 0 to |at.fields|
        invariant forall j :: 0 <= j < k ==> FieldIndex(s.fields, at.fields[j]) >= 0
      {
        var i := FindField(s.fields, at.fields[k]);
        if i < 0 {
          assert !AttachOk(s.fields, s.attaches[a]);
          return false;
        }
      }
    }
    ok := true;
  }

  // ----- the bitmap -----

  type Bitmap = seq<nat>

  ghost predicate WellSized(w: Bitmap) {
    |w| == BITMAP_WORDS && forall i :: 0 <= i < |w| ==> Fits(w[i])
  }

  predicate Has(w: Bitmap, id: nat) {
    id / WORD < |w| && Bit(w[id / WORD], id % WORD)
  }

  ghost predicate Lists(fs: seq<Field>, names: seq<string>, id: nat) {
    exists k :: 0 <= k < |names| && FieldId(fs, names[k]) == id
  }

  /** Every listed field has a bit in the words. */
  ghost predicate Within(fs: seq<Field>, names: seq<string>) {
    forall k :: 0 <= k < |names| ==> FieldId(fs, names[k]) < MAX_FIELDS
  }

  /** The words for a list of fields: bit `id` set exactly for the listed ones. */
  ghost predicate IsBitmap(fs: seq<Field>, names: seq<string>, w: Bitmap) {
    Within(fs, names) && WellSized(w) && forall id: nat :: Has(w, id) <==> id < MAX_FIELDS && Lists(fs, names, id)
  }

  /**
   Clear the words, then set one bit per listed field. The result says whether every bit fell
   inside them: an id of 256 addresses a fifth word.
   */
  method AttachBitmap(fs: seq<Field>, at: Attach, w: array<nat>) returns (inside: bool)
    requires w.Length == BITMAP_WORDS
    modifies w
    ensures WellSized(w[..])
    ensures inside <==> Within(fs, at.fields)
    ensures inside ==> IsBitmap(fs, at.fields, w[..])
  {
    for i := 0 to BITMAP_WORDS
      invariant forall j :: 0 <= j < i ==> w[j] == 0
    {
      w[i] := 0;
    }
    NoneSet(w[..]);
    for k := 0 to |at.fields|
      invariant WellSized(w[..])
      invariant forall j :: 0 <= j < k ==> FieldId(fs, at.fields[j]) < MAX_FIELDS
      invariant forall id: nat :: Has(w[..], id) <==> id < MAX_FIELDS && Lists(fs, at.fields[..k], id)
    {
      var i := FindField(fs, at.fields[k]);
      var id: nat := i + 1;
      if id / WORD >= BITMAP_WORDS {
        return false;
      }
      ghost var was := w[..];
      w[id / WORD] := WithBit(w[id / WORD], id % WORD);
      assert w[..] == SetId(was, id);
      SetIdFits(was, id);
      forall x: nat ensures Has(w[..], x) <==> x < MAX_FIELDS && Lists(fs, at.fields[..k + 1], x) {
        SetIdHas(was, id, x);
        ListsMore(fs, at.fields, k, x);
      }
    }
    assert at.fields[..|at.fields|] == at.fields;
    inside := true;
  }

  function SetId(w: Bitmap, id: nat): Bitmap
    requires id / WORD < |w|
  {
    w[id / WORD := WithBit(w[id / WORD], id % WORD)]
  }

  lemma SetIdFits(w: Bitmap, id: nat)
    requires WellSized(w) && id / WORD < |w|
    ensures WellSized(SetId(w, id))
  {
    SetFits(w[id / WORD], id % WORD, WORD);
  }

  lemma SetIdHas(w: Bitmap, id: nat, x: nat)
    requires id / WORD < |w|
    ensures Has(SetId(w, id), x) <==> Has(w, x) || x == id
  {
    if x / WORD == id / WORD {
      SetBit(w[id / WORD], x % WORD, id % WORD);
    }
  }

  lemma NoneSet(w: Bitmap)
    requires forall i :: 0 <= i < |w| ==> w[i] == 0
    ensures forall id: nat :: !Has(w, id)
  {
    forall id: nat ensures !Has(w, id) { NoBits(id % WORD); }
  }

  lemma ListsMore(fs: seq<Field>, names: seq<string>, k: nat, id: nat)
    requires k < |names|
    ensures Lists(fs, names[..k + 1], id) <==> Lists(fs, names[..k], id) || FieldId(fs, names[k]) == id
  {
    if Lists(fs, names[..k], id) {
      var j :| 0 <= j < k && FieldId(fs, names[..k][j]) == id;
      assert names[..k + 1][j] == names[..k][j];
    }
    if FieldId(fs, names[k]) == id { assert names[..k + 1][k] == names[k]; }
    if Lists(fs, names[..k + 1], id) {
      var j :| 0 <= j < k + 1 && FieldId(fs, names[..k + 1][j]) == id;
      if j < k { assert names[..k][j] == names[..k + 1][j]; }
    }
  }

  /** The check admits one field more than four words hold: the bitmap fits unless that field is listed. */
  lemma BitmapFitsExactly(s: Schema, a: nat)
    requires SchemaOk(s) && a < |s.attaches|
    ensures Within(s.fields, s.attaches[a].fields) <==>
            !(|s.fields| == MAX_FIELDS && s.fields[MAX_FIELDS - 1].name in s.attaches[a].fields)
  {
    var names := s.attaches[a].fields;
    assert AttachOk(s.fields, s.attaches[a]);
    if |s.fields| == MAX_FIELDS {
      var last := s.fields[MAX_FIELDS - 1].name;
      if last in names {
        var k :| 0 <= k < |names| && names[k] == last;
        assert FieldIndex(s.fields, last) == MAX_FIELDS - 1;
        assert FieldId(s.fields, names[k]) == MAX_FIELDS;
      } else {
        forall k | 0 <= k < |names| ensures FieldId(s.fields, names[k]) < MAX_FIELDS {
          assert s.fields[FieldIndex(s.fields, names[k])].name == names[k];
        }
      }
    }
  }

  /** A name of `n + 1` letters. */
  function Letters(n: nat): (name: string)
    ensures |name| == n + 1
  {
    seq(n + 1, _ => 'x')
  }

  /** As many fields as the check admits, and an attach point that lists the last of them. */
  function FullSchema(at: Attach): Schema {
    Schema(seq(MAX_FIELDS, i requires i >= 0 => Field(Letters(i), "u64", 8, false, None)),
           [at.(fields := [Letters(MAX_FIELDS - 1)])], [])
  }

  /** The check passes that schema, and the bit is past the last word. */
  lemma LastFieldHasNoBit(at: Attach)
    requires 0 < at.id < 0xF000 && at.execClass == "THREAD"
    ensures var s := FullSchema(at);
            SchemaOk(s) && FieldId(s.fields, s.attaches[0].fields[0]) / WORD == BITMAP_WORDS &&
            !Within(s.fields, s.attaches[0].fields)
  {
    var s := FullSchema(at);
    var fs, last := s.fields, Letters(MAX_FIELDS - 1);
    forall i, j | 0 <= j < i < |fs| ensures fs[j].name != fs[i].name {
      assert |fs[j].name| == j + 1 && |fs[i].name| == i + 1;
    }
    assert fs[MAX_FIELDS - 1].name == last;
    assert FieldIndex(fs, last) == MAX_FIELDS - 1;
    assert s.attaches[0].fields[0] == last && AttachOk(fs, s.attaches[0]);
  }

  ghost predicate Declared(fs: seq<Field>, names: seq<string>) {
    forall k :: 0 <= k < |names| ==> FieldIndex(fs, names[k]) >= 0
  }

  lemma {:induction false} ListsField(fs: seq<Field>, names: seq<string>, name: string)
    requires Declared(fs, names) && FieldIndex(fs, name) >= 0
    ensures Lists(fs, names, FieldId(fs, name)) <==> name in names
  {
    var id := FieldId(fs, name);
    if Lists(fs, names, id) {
      var k :| 0 <= k < |names| && FieldId(fs, names[k]) == id;
      assert fs[id - 1].name == names[k];
    }
    if name in names {
      var k :| 0 <= k < |names| && names[k] == name;
      assert FieldId(fs, names[k]) == id;
    }
  }

  lemma ListsNotZero(fs: seq<Field>, names: seq<string>)
    requires Declared(fs, names)
    ensures !Lists(fs, names, 0)
  {
  }

  /** In a checked schema the bit of a field is set exactly when the attach point lists it; bit zero never is. */
  lemma {:induction false} BitOfField(s: Schema, a: nat, w: Bitmap, name: string)
    requires SchemaOk(s) && a < |s.attaches| && IsBitmap(s.fields, s.attaches[a].fields, w)
    requires FieldIndex(s.fields, name) >= 0 && FieldId(s.fields, name) < MAX_FIELDS
    ensures Has(w, FieldId(s.fields, name)) <==> name in s.attaches[a].fields
    ensures !Has(w, 0)
  {
    assert AttachOk(s.fields, s.attaches[a]);
    ListsField(s.fields, s.attaches[a].fields, name);
    ListsNotZero(s.fields, s.attaches[a].fields);
  }
}
