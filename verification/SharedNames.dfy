/**
 Fields and derivations of one name. The generator knows both; in the gate's vocabulary the
 derivation takes the field over, so the gate sees the channel without that field.
 */
module SharedNames {
  import opened Common
  import opened IntExpr
  import opened ReaderGate
  import opened TwoParsers

  /** The fields that no derivation takes over. */
  function Kept(fs: seq<FieldDecl>, ds: seq<DerivedDecl>): (r: seq<FieldDecl>)
    ensures forall f | f in r :: f in fs && FindDerived(ds, f.name).None?
  {
    if fs == [] then []
    else if FindDerived(ds, fs[0].name).None? then [fs[0]] + Kept(fs[1..], ds)
    else Kept(fs[1..], ds)
  }

  /** The channel as the gate sees it. */
  function Visible(c: Channel): Channel { Channel(c.id, Kept(c.fields, c.derived), c.derived) }

  ghost predicate DistinctFields(fs: seq<FieldDecl>) {
    forall i, j :: 0 <= i < j < |fs| ==> fs[i].name != fs[j].name
  }

  lemma DistinctTail(fs: seq<FieldDecl>)
    requires fs != [] && DistinctFields(fs)
    ensures DistinctFields(fs[1..]) && forall f | f in fs[1..] :: f.name != fs[0].name
  {
    forall f | f in fs[1..] ensures f.name != fs[0].name {
      var i :| 0 <= i < |fs[1..]| && fs[1..][i] == f;
      assert fs[i + 1] == f;
    }
  }

  lemma DistinctCons(f: FieldDecl, fs: seq<FieldDecl>)
    requires DistinctFields(fs) && forall g | g in fs :: g.name != f.name
    ensures DistinctFields([f] + fs)
  {
    var all := [f] + fs;
    forall i, j | 0 <= i < j < |all| ensures all[i].name != all[j].name {
      assert all[j] == fs[j - 1] && all[j] in fs;
      if i > 0 { assert all[i] == fs[i - 1]; }
    }
  }

  lemma {:induction false} KeptDistinct(fs: seq<FieldDecl>, ds: seq<DerivedDecl>)
    requires DistinctFields(fs)
    ensures DistinctFields(Kept(fs, ds))
  {
    if fs != [] {
      DistinctTail(fs);
      KeptDistinct(fs[1..], ds);
      if FindDerived(ds, fs[0].name).None? { DistinctCons(fs[0], Kept(fs[1..], ds)); }
    }
  }

  lemma {:induction false} KeptFinds(fs: seq<FieldDecl>, ds: seq<DerivedDecl>, name: string)
    requires FindDerived(ds, name).None?
    ensures FindField(Kept(fs, ds), name) == FindField(fs, name)
  {
    if fs != [] {
      KeptFinds(fs[1..], ds, name);
      var rest := Kept(fs[1..], ds);
      if FindDerived(ds, fs[0].name).None? { assert ([fs[0]] + rest)[1..] == rest; }
    }
  }

  lemma VisibleIsNamed(c: Channel)
    requires Named(c)
    ensures Named(Visible(c))
  {
    KeptDistinct(c.fields, c.derived);
    var r := Kept(c.fields, c.derived);
    forall i | 0 <= i < |r| ensures r[i].name != "" { assert r[i] in c.fields; }
  }

  lemma {:induction false} FieldPropFound(fs: seq<FieldDecl>, name: string)
    requires name in FieldProps(fs)
    ensures FindField(fs, name).Some?
  {
    var n := |fs| - 1;
    if fs[n].name != name { FieldPropFound(fs[..n], name); }
    assert fs[n] in fs;
    forall f | f in fs[..n] ensures f in fs {}
  }

  lemma {:induction false} PropFound(c: Channel, ds: seq<DerivedDecl>, name: string)
    requires name in AllProps(c.fields, ds)
    ensures FindField(c.fields, name).Some? || FindDerived(ds, name).Some?
  {
    if ds == [] {
      FieldPropFound(c.fields, name);
    } else {
      var n := |ds| - 1;
      if ds[n].name != name { PropFound(c, ds[..n], name); }
      assert ds[n] in ds;
      forall d | d in ds[..n] ensures d in ds {}
    }
  }

  /** Dropping the shadowed fields changes nothing the gate looks up. */
  lemma {:induction false} SameProps(c: Channel)
    requires Named(c)
    ensures AllProps(Visible(c).fields, c.derived) == AllProps(c.fields, c.derived)
  {
    var p, q := AllProps(Visible(c).fields, c.derived), AllProps(c.fields, c.derived);
    VisibleIsNamed(c);
    forall name ensures name in p <==> name in q
                ensures name in p ==> p[name] == q[name]
    {
      SameProp(c, name);
    }
  }

  lemma {:induction false} SameProp(c: Channel, name: string)
    requires Named(c) && Named(Visible(c))
    ensures var p, q := AllProps(Visible(c).fields, c.derived), AllProps(c.fields, c.derived);
            (name in p <==> name in q) && (name in p ==> p[name] == q[name])
  {
    var v := Visible(c);
    if FindDerived(c.derived, name).Some? {
      DerivedProp(c, name);
      DerivedProp(v, name);
    } else {
      KeptFinds(c.fields, c.derived, name);
      if FindField(c.fields, name).Some? {
        FieldProp(c, name);
        FieldProp(v, name);
      } else {
        if name in AllProps(c.fields, c.derived) { PropFound(c, c.derived, name); }
        if name in AllProps(v.fields, c.derived) { PropFound(v, c.derived, name); }
      }
    }
  }
}
