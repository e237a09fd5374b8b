/** The evolution gate of the probe context contract, and what it keeps along any history. */
module ProbeGate {
  import opened Common
  import opened ProbeCtx

  datatype FieldTerm = FieldTerm(id: nat, ctype: string, size: int, signed: bool, expose: Option<string>)
  datatype AttachTerm = AttachTerm(id: nat, execClass: string, budget: nat, fields: seq<string>)
  datatype Projection = Projection(words: nat, fields: map<string, FieldTerm>, attaches: map<string, AttachTerm>,
                                   states: map<string, nat>)

  // ----- the projection -----

  function FieldTerms(fs: seq<Field>): map<string, FieldTerm> {
    if fs == [] then map[] else
    var n := |fs| - 1;
    FieldTerms(fs[..n])[fs[n].name := FieldTerm(n + 1, fs[n].ctype, fs[n].size, fs[n].signed, fs[n].expose)]
  }

  function AttachTerms(ats: seq<Attach>): map<string, AttachTerm> {
    if ats == [] then map[] else
    var at := ats[|ats| - 1];
    AttachTerms(ats[..|ats| - 1])[at.name := AttachTerm(at.id, at.execClass, at.budget, at.fields)]
  }

  function StateTerms(ss: seq<SlotState>): map<string, nat> {
    if ss == [] then map[] else StateTerms(ss[..|ss| - 1])[ss[|ss| - 1].name := ss[|ss| - 1].value]
  }

  function Project(s: Schema): Projection {
    Projection(BITMAP_WORDS, FieldTerms(s.fields), AttachTerms(s.attaches), StateTerms(s.states))
  }

  // ----- the gate -----

  datatype Violation =
    | WordsChanged | FieldRemoved(name: string) | FieldChanged(name: string) | ExposeChanged(name: string)
    | AttachRemoved(name: string) | AttachRenumbered(name: string)
    | ClassChanged(name: string) | BudgetFell(name: string)
    | FieldWithdrawn(name: string, field: string) | StateRemoved(name: string) | StateChanged(name: string)

  predicate FieldKept(o: FieldTerm, n: FieldTerm) {
    o.id == n.id && o.ctype == n.ctype && o.size == n.size && o.signed == n.signed &&
    (o.expose.None? || o.expose == n.expose)
  }

  predicate AttachKept(o: AttachTerm, n: AttachTerm) {
    o.id == n.id && o.execClass == n.execClass && n.budget >= o.budget && forall f | f in o.fields :: f in n.fields
  }

  predicate FieldsKept(o: map<string, FieldTerm>, n: map<string, FieldTerm>) {
    forall k | k in o :: k in n && FieldKept(o[k], n[k])
  }

  predicate AttachesKept(o: map<string, AttachTerm>, n: map<string, AttachTerm>) {
    forall k | k in o :: k in n && AttachKept(o[k], n[k])
  }

  predicate StatesKept(o: map<string, nat>, n: map<string, nat>) {
    forall k | k in o :: k in n && n[k] == o[k]
  }

  /** Nothing the old contract published is missing or different in the new one. */
  predicate Kept(o: Projection, n: Projection) {
    o.words == n.words && FieldsKept(o.fields, n.fields) &&
    AttachesKept(o.attaches, n.attaches) && StatesKept(o.states, n.states)
  }

  method Violations(o: Projection, n: Projection) returns (v: seq<Violation>)
    ensures v == [] <==> Kept(o, n)
  {
    v := if o.words != n.words then [WordsChanged] else [];
    var a := FieldViolations(o.fields, n.fields);
    var b := AttachViolations(o.attaches, n.attaches);
    var c := StateViolations(o.states, n.states);
    v := v + a + b + c;
  }

  method FieldViolations(o: map<string, FieldTerm>, n: map<string, FieldTerm>) returns (v: seq<Violation>)
    ensures v == [] <==> FieldsKept(o, n)
  {
    v := [];
    var names := o.Keys;
    while names != {}
      invariant names <= o.Keys
      invariant v == [] <==> forall k | k in o && k !in names :: k in n && FieldKept(o[k], n[k])
      decreases |names|
    {
      var k :| k in names;
      names := names - {k};
      if k !in n {
        v := v + [FieldRemoved(k)];
      } else {
        var f, g := o[k], n[k];
        if f.id != g.id || f.ctype != g.ctype || f.size != g.size || f.signed != g.signed {
          v := v + [FieldChanged(k)];
        }
        if f.expose != g.expose && f.expose.Some? { v := v + [ExposeChanged(k)]; }
      }
    }
  }

  method AttachViolations(o: map<string, AttachTerm>, n: map<string, AttachTerm>) returns (v: seq<Violation>)
    ensures v == [] <==> AttachesKept(o, n)
  {
    v := [];
    var names := o.Keys;
    while names != {}
      invariant names <= o.Keys
      invariant v == [] <==> forall k | k in o && k !in names :: k in n && AttachKept(o[k], n[k])
      decreases |names|
    {
      var k :| k in names;
      names := names - {k};
      if k !in n {
        v := v + [AttachRemoved(k)];
      } else {
        var more := AttachChanges(k, o[k], n[k]);
        v := v + more;
      }
    }
  }

  method AttachChanges(name: string, o: AttachTerm, n: AttachTerm) returns (v: seq<Violation>)
    ensures v == [] <==> AttachKept(o, n)
  {
    v := [];
    if o.id != n.id { v := v + [AttachRenumbered(name)]; }
    if o.execClass != n.execClass { v := v + [ClassChanged(name)]; }
    if n.budget < o.budget { v := v + [BudgetFell(name)]; }
    for i := 0 to |o.fields|
      invariant v == [] <==> (o.id == n.id && o.execClass == n.execClass && n.budget >= o.budget &&
                               forall f | f in o.fields[..i] :: f in n.fields)
    {
      if o.fields[i] !in n.fields { v := v + [FieldWithdrawn(name, o.fields[i])]; }
      assert o.fields[..i + 1] == o.fields[..i] + [o.fields[i]];
    }
    assert o.fields[..|o.fields|] == o.fields;
  }

  method StateViolations(o: map<string, nat>, n: map<string, nat>) returns (v: seq<Violation>)
    ensures v == [] <==> StatesKept(o, n)
  {
    v := [];
    var names := o.Keys;
    while names != {}
      invariant names <= o.Keys
      invariant v == [] <==> forall k | k in o && k !in names :: k in n && n[k] == o[k]
      decreases |names|
    {
      var k :| k in names;
      names := names - {k};
      if k !in n { v := v + [StateRemoved(k)]; }
      else if n[k] != o[k] { v := v + [StateChanged(k)]; }
    }
  }

  // ----- along a history -----

  ghost predicate History(h: seq<Schema>) {
    && (forall i :: 0 <= i < |h| ==> SchemaOk(h[i]))
    && forall i {:trigger h[i]} :: 0 < i < |h| ==> Kept(Project(h[i - 1]), Project(h[i]))
  }

  /** Whatever one version published, every later version keeps. */
  lemma {:induction false} KeptAlong(h: seq<Schema>, i: nat, j: nat)
    requires History(h) && i <= j < |h|
    ensures Kept(Project(h[i]), Project(h[j]))
    decreases j - i
  {
    if i < j {
      KeptAlong(h, i, j - 1);
      assert Kept(Project(h[j - 1]), Project(h[j]));
    }
  }

  lemma {:induction false} FieldTermAt(fs: seq<Field>, i: nat)
    requires i < |fs| && forall a, b :: 0 <= b < a < |fs| ==> fs[b].name != fs[a].name
    ensures fs[i].name in FieldTerms(fs)
    ensures FieldTerms(fs)[fs[i].name] == FieldTerm(i + 1, fs[i].ctype, fs[i].size, fs[i].signed, fs[i].expose)
  {
    var n := |fs| - 1;
    if i < n { FieldTermAt(fs[..n], i); }
  }

  lemma {:induction false} FieldTermFrom(fs: seq<Field>, name: string)
    requires name in FieldTerms(fs)
    ensures FieldIndex(fs, name) >= 0
  {
    var n := |fs| - 1;
    if fs[n].name != name {
      FieldTermFrom(fs[..n], name);
      var j :| 0 <= j < n && fs[..n][j].name == name;
      assert fs[j].name == name;
    }
  }

  lemma {:induction false} AttachTermAt(ats: seq<Attach>, i: nat)
    requires i < |ats| && forall a, b :: 0 <= b < a < |ats| ==> ats[b].name != ats[a].name
    ensures ats[i].name in AttachTerms(ats)
    ensures AttachTerms(ats)[ats[i].name] == AttachTerm(ats[i].id, ats[i].execClass, ats[i].budget, ats[i].fields)
  {
    var n := |ats| - 1;
    if i < n { AttachTermAt(ats[..n], i); }
  }

  lemma {:induction false} AttachTermFrom(ats: seq<Attach>, name: string) returns (i: nat)
    requires name in AttachTerms(ats)
    ensures i < |ats| && ats[i].name == name
  {
    var n := |ats| - 1;
    if ats[n].name == name { i := n; } else { i := AttachTermFrom(ats[..n], name); }
  }

  /** Every published term is compared: one entry changed, or the number of words. */
  lemma ChangeSeen(p: Projection, k: string, f: FieldTerm, a: AttachTerm, v: nat, w: nat)
    ensures k in p.fields ==>
              (Kept(p, p.(fields := p.fields[k := f])) <==>
               var o := p.fields[k];
               f.id == o.id && f.ctype == o.ctype && f.size == o.size && f.signed == o.signed &&
               (o.expose.None? || f.expose == o.expose))
    ensures k in p.attaches ==>
              (Kept(p, p.(attaches := p.attaches[k := a])) <==>
               var o := p.attaches[k];
               a.id == o.id && a.execClass == o.execClass && a.budget >= o.budget &&
               forall x | x in o.fields :: x in a.fields)
    ensures k in p.states ==> (Kept(p, p.(states := p.states[k := v])) <==> v == p.states[k])
    ensures Kept(p, p.(words := w)) <==> w == p.words
  {
    if k in p.fields { assert FieldKept(p.fields[k], f) <==> Kept(p, p.(fields := p.fields[k := f])); }
    if k in p.attaches { assert AttachKept(p.attaches[k], a) <==> Kept(p, p.(attaches := p.attaches[k := a])); }
  }

  /** And everything published and gone is seen. */
  lemma RemovalSeen(o: Projection, n: Projection)
    requires Kept(o, n)
    ensures o.fields.Keys <= n.fields.Keys && o.attaches.Keys <= n.attaches.Keys && o.states.Keys <= n.states.Keys
  {
  }

  /** A field id keeps naming the same field, at the same type and width. */
  lemma {:induction false} FieldStays(before: Schema, after: Schema, name: string)
    requires SchemaOk(before) && SchemaOk(after) && Kept(Project(before), Project(after))
    requires FieldIndex(before.fields, name) >= 0
    ensures FieldId(after.fields, name) == FieldId(before.fields, name) <= |after.fields|
    ensures var i := FieldIndex(before.fields, name); var f, g := before.fields[i], after.fields[i];
            g.name == f.name && g.ctype == f.ctype && g.size == f.size && g.signed == f.signed &&
            (f.expose.Some? ==> g.expose == f.expose)
  {
    FieldTermAt(before.fields, FieldIndex(before.fields, name));
    FieldTermFrom(after.fields, name);
    FieldTermAt(after.fields, FieldIndex(after.fields, name));
  }

  /** An attach point stays: same id and class, no lower ceiling, no field withdrawn. */
  lemma AttachStays(before: Schema, after: Schema, a: nat) returns (b: nat)
    requires SchemaOk(before) && SchemaOk(after) && Kept(Project(before), Project(after)) && a < |before.attaches|
    ensures b < |after.attaches|
    ensures var o, n := before.attaches[a], after.attaches[b];
            n.name == o.name && n.id == o.id && n.execClass == o.execClass && n.budget >= o.budget &&
            forall f | f in o.fields :: f in n.fields
  {
    AttachTermAt(before.attaches, a);
    b := AttachTermFrom(after.attaches, before.attaches[a].name);
    AttachTermAt(after.attaches, b);
  }

  /** The last row of a slot state's name is what is published. */
  ghost predicate StateIs(ss: seq<SlotState>, name: string, v: nat) {
    exists i :: 0 <= i < |ss| && ss[i].name == name && ss[i].value == v &&
                forall j :: i < j < |ss| ==> ss[j].name != name
  }

  lemma {:induction false} StateTermIs(ss: seq<SlotState>, name: string, v: nat)
    ensures name in StateTerms(ss) && StateTerms(ss)[name] == v <==> StateIs(ss, name, v)
  {
    if ss != [] {
      var n := |ss| - 1;
      StateTermIs(ss[..n], name, v);
      if ss[n].name != name {
        if StateIs(ss[..n], name, v) {
          var i :| 0 <= i < n && ss[..n][i].name == name && ss[..n][i].value == v &&
                   forall j :: i < j < n ==> ss[..n][j].name != name;
          assert ss[i].name == name && forall j :: i < j < |ss| ==> ss[j].name != name;
        }
        if StateIs(ss, name, v) {
          var i :| 0 <= i < |ss| && ss[i].name == name && ss[i].value == v &&
                   forall j :: i < j < |ss| ==> ss[j].name != name;
          assert ss[..n][i].name == name && forall j :: i < j < n ==> ss[..n][j].name != name;
        }
      }
    }
  }

  /** A slot state keeps its number. */
  lemma StateStays(before: Schema, after: Schema, name: string, v: nat)
    requires Kept(Project(before), Project(after)) && StateIs(before.states, name, v)
    ensures StateIs(after.states, name, v)
  {
    StateTermIs(before.states, name, v);
    StateTermIs(after.states, name, v);
  }

  lemma ListingGrows(before: Schema, after: Schema, o: seq<string>, n: seq<string>, id: nat)
    requires SchemaOk(before) && SchemaOk(after) && Kept(Project(before), Project(after)) && Declared(before.fields, o)
    requires (forall f | f in o :: f in n) && Lists(before.fields, o, id)
    ensures Lists(after.fields, n, id)
  {
    var k :| 0 <= k < |o| && FieldId(before.fields, o[k]) == id;
    FieldStays(before, after, o[k]);
    assert o[k] in o;
    var j :| 0 <= j < |n| && n[j] == o[k];
    assert FieldId(after.fields, n[j]) == id;
  }

  /** Every bit of the old bitmap is a bit of the new one. */
  lemma BitmapGrows(before: Schema, after: Schema, o: seq<string>, n: seq<string>, w: Bitmap, x: Bitmap, id: nat)
    requires SchemaOk(before) && SchemaOk(after) && Kept(Project(before), Project(after)) && Declared(before.fields, o)
    requires forall f | f in o :: f in n
    requires IsBitmap(before.fields, o, w) && IsBitmap(after.fields, n, x) && Has(w, id)
    ensures Has(x, id)
  {
    assert Lists(before.fields, o, id);
    ListingGrows(before, after, o, n, id);
  }
}
