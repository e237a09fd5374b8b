/**
 Byte layout of one ringbuf record, and the decoder generated from it.

 `LayoutFields` computes offsets the way a C compiler lays out a struct, `RequiredBytes`
 the shortest record a reader accepts, and `Unpack` is the generated decoder, which
 reads as zero any field a short record does not reach.
 */
module RecordLayout {
  import opened Common
  import opened Arith

  /** The types a record field may have: those with a known spelling on both ends. */
  datatype CType = U8 | U16 | U32 | U64 | S8 | S16 | S32 | S64 | Char | UnsignedChar | EventHdr

  function SizeOf(t: CType): nat {
    match t
    case U8 | S8 | Char | UnsignedChar => 1
    case U16 | S16 => 2
    case U32 | S32 => 4
    case U64 | S64 => 8
    case EventHdr => 16
  }

  function AlignOf(t: CType): nat {
    if t.EventHdr? then 8 else SizeOf(t)
  }

  /** One row of a schema table. `count` is an array length, not positive for a scalar. */
  datatype RecField = RecField(name: string, ctype: CType, count: int, size: int, align: int, expose: string)

  datatype RecSchema = RecSchema(fields: seq<RecField>, requiredThrough: Option<string>)

  function Elems(f: RecField): nat
    ensures Elems(f) > 0
  {
    if f.count > 0 then f.count else 1
  }

  /** What `layout` refuses to lay out. */
  predicate Laid(fs: seq<RecField>) {
    forall f | f in fs :: f.size > 0 && f.align > 0
  }

  function Bytes(f: RecField): (n: nat)
    requires f.size > 0
    ensures n > 0
  {
    PositiveProduct(f.size, Elems(f));
    f.size * Elems(f)
  }

  lemma PositiveProduct(a: int, b: int)
    requires a > 0 && b > 0
    ensures a * b > 0
  {
  }

  function AlignUp(n: nat, a: nat): (r: nat)
    requires a > 0
    ensures n <= r < n + a && r % a == 0
  {
    if n % a == 0 then n else
    PaddedToMultiple(n, a);
    n + (a - n % a)
  }

  lemma PaddedToMultiple(n: nat, a: nat)
    requires a > 0
    ensures (n + (a - n % a)) % a == 0
  {
    assert n == a * (n / a) + n % a;
    assert n + (a - n % a) == a * (n / a + 1);
    ModOfMultiple(n / a + 1, a);
  }

  // ----- the layout, as a function of the field's position -----

  function Offset(fs: seq<RecField>, i: nat): nat
    requires Laid(fs) && i < |fs|
    decreases i, 1
  {
    AlignUp(End(fs, i), fs[i].align)
  }

  /** The end of the first `i` fields. */
  function End(fs: seq<RecField>, i: nat): nat
    requires Laid(fs) && i <= |fs|
    decreases i, 0
  {
    if i == 0 then 0 else Offset(fs, i - 1) + Bytes(fs[i - 1])
  }

  function MaxAlign(fs: seq<RecField>): nat
    requires Laid(fs)
    ensures MaxAlign(fs) >= 1
  {
    if fs == [] then 1 else
    var m := MaxAlign(fs[..|fs| - 1]);
    var a := fs[|fs| - 1].align;
    if a > m then a else m
  }

  function Total(fs: seq<RecField>): nat
    requires Laid(fs)
  {
    AlignUp(End(fs, |fs|), MaxAlign(fs))
  }

  /** `None` where the generator stops. */
  method LayoutFields(fs: seq<RecField>) returns (r: Option<Pair<seq<nat>, nat>>)
    ensures r.Some? <==> Laid(fs)
    ensures r.Some? ==> |r.value.fst| == |fs| && r.value.snd == Total(fs)
    ensures r.Some? ==> forall i :: 0 <= i < |fs| ==> r.value.fst[i] == Offset(fs, i)
  {
    var offs: seq<nat>, off: nat, maxalign: nat := [], 0, 1;
    for i := 0 to |fs|
      invariant Laid(fs[..i]) && |offs| == i
      invariant off == End(fs[..i], i) && maxalign == MaxAlign(fs[..i])
      invariant forall j :: 0 <= j < i ==> offs[j] == Offset(fs[..i], j)
    {
      var f := fs[i];
      if f.size <= 0 || f.align <= 0 {
        assert f in fs;
        return None;
      }
      var next := fs[..i + 1];
      assert next[..i] == fs[..i];
      AppendKeepsLayout(fs[..i], next);
      if off % f.align != 0 {
        off := off + (f.align - off % f.align);
      }
      offs := offs + [off];
      off := off + Bytes(f);
      if f.align > maxalign {
        maxalign := f.align;
      }
    }
    assert fs[..|fs|] == fs;
    if off % maxalign != 0 {
      off := off + (maxalign - off % maxalign);
    }
    return Some(Pair(offs, off));
  }

  /** The first rows of `gs` take the same space as `fs`. */
  ghost predicate Extends(fs: seq<RecField>, gs: seq<RecField>) {
    |fs| <= |gs| &&
    forall i :: 0 <= i < |fs| ==> fs[i].size == gs[i].size && fs[i].count == gs[i].count && fs[i].align == gs[i].align
  }

  /** Appending fields moves nothing that was already there. */
  lemma {:induction false} AppendKeepsLayout(fs: seq<RecField>, gs: seq<RecField>)
    requires Laid(fs) && Laid(gs) && Extends(fs, gs)
    ensures forall i :: 0 <= i <= |fs| ==> End(fs, i) == End(gs, i)
    ensures forall i :: 0 <= i < |fs| ==> Offset(fs, i) == Offset(gs, i)
  {
    for k := 0 to |fs|
      invariant forall i :: 0 <= i <= k ==> End(fs, i) == End(gs, i)
      invariant forall i :: 0 <= i < k ==> Offset(fs, i) == Offset(gs, i)
    {
      assert Offset(fs, k) == Offset(gs, k);
      assert End(fs, k + 1) == End(gs, k + 1);
    }
  }

  /** Fields do not overlap, in table order. */
  lemma {:induction false} EndsGrow(fs: seq<RecField>, i: nat, j: nat)
    requires Laid(fs) && i <= j <= |fs|
    ensures End(fs, i) <= End(fs, j)
    ensures i < j ==> End(fs, i) <= Offset(fs, i) < End(fs, i + 1) <= End(fs, j)
    decreases j - i
  {
    if i < j { EndsGrow(fs, i + 1, j); }
  }

  lemma {:induction false} FieldsInRecord(fs: seq<RecField>, i: nat)
    requires Laid(fs) && i < |fs|
    ensures Offset(fs, i) + Bytes(fs[i]) == End(fs, i + 1) <= Total(fs)
  {
    EndsGrow(fs, i + 1, |fs|);
  }

  // ----- the C compiler's rule, stated on its own -----

  ghost predicate LeastMultiple(n: nat, lo: nat, a: nat) {
    a > 0 && n % a == 0 && lo <= n && forall m: nat :: lo <= m && m % a == 0 ==> n <= m
  }

  /** sizeof a member: an array of `count` elements where it is positive. */
  function MemberSize(f: RecField): int { f.size * if f.count > 0 then f.count else 1 }

  /** Struct layout as the C compiler does it: each member at the least aligned address after
      the previous one, the whole padded to the widest alignment. */
  ghost predicate CompilerLayout(fs: seq<RecField>, offs: seq<nat>, total: nat)
    requires Laid(fs)
  {
    && |offs| == |fs|
    && (forall i | 0 <= i < |fs| ::
          LeastMultiple(offs[i], if i == 0 then 0 else offs[i - 1] + MemberSize(fs[i - 1]), fs[i].align))
    && exists a: nat {:trigger IsWidest(fs, a)} ::
         IsWidest(fs, a) &&
         LeastMultiple(total, if fs == [] then 0 else offs[|fs| - 1] + MemberSize(fs[|fs| - 1]), a)
  }

  ghost predicate IsWidest(fs: seq<RecField>, a: nat) {
    (forall f | f in fs :: f.align <= a) && (if fs == [] then a == 1 else exists f | f in fs :: f.align == a)
  }

  lemma {:induction false} MaxAlignIsWidest(fs: seq<RecField>)
    requires Laid(fs)
    ensures IsWidest(fs, MaxAlign(fs))
  {
    if |fs| == 1 {
      assert fs[..0] == [];
      assert fs[0] in fs;
    } else if fs != [] {
      var n := |fs| - 1;
      MaxAlignIsWidest(fs[..n]);
      assert fs == fs[..n] + [fs[n]];
      assert fs[n] in fs && forall f :: f in fs[..n] ==> f in fs;
    }
  }

  lemma AlignUpIsLeast(lo: nat, a: nat)
    requires a > 0
    ensures LeastMultiple(AlignUp(lo, a), lo, a)
  {
    forall m: nat | lo <= m && m % a == 0 ensures AlignUp(lo, a) <= m {
      if m < AlignUp(lo, a) {
        MultiplesApart(AlignUp(lo, a), m, a);
        assert false;
      }
    }
  }

  lemma {:induction false} LayoutIsCompilerLayout(fs: seq<RecField>, offs: seq<nat>)
    requires Laid(fs) && |offs| == |fs|
    requires forall i :: 0 <= i < |fs| ==> offs[i] == Offset(fs, i)
    ensures CompilerLayout(fs, offs, Total(fs))
  {
    forall i | 0 <= i < |fs|
      ensures LeastMultiple(offs[i], if i == 0 then 0 else offs[i - 1] + MemberSize(fs[i - 1]), fs[i].align)
    {
      AlignUpIsLeast(End(fs, i), fs[i].align);
    }
    MaxAlignIsWidest(fs);
    AlignUpIsLeast(End(fs, |fs|), MaxAlign(fs));
  }

  // ----- the accepted prefix -----

  function FieldIndex(fs: seq<RecField>, name: string): (r: Option<nat>)
    ensures r.Some? ==> r.value < |fs| && fs[r.value].name == name &&
                         forall j :: 0 <= j < r.value ==> fs[j].name != name
    ensures r.None? ==> forall f | f in fs :: f.name != name
  {
    if fs == [] then None
    else if fs[0].name == name then Some(0)
    else match FieldIndex(fs[1..], name)
         case None => None
         case Some(i) => Some(i + 1)
  }

  /** A schema the generator emits a decoder for. */
  predicate Valid(s: RecSchema) {
    Laid(s.fields) && (s.requiredThrough.Some? ==> FieldIndex(s.fields, s.requiredThrough.value).Some?)
  }

  function RequiredBytes(s: RecSchema): (n: nat)
    requires Valid(s)
    ensures n <= Total(s.fields)
  {
    if s.requiredThrough.None? then Total(s.fields) else
    var i := FieldIndex(s.fields, s.requiredThrough.value).value;
    FieldsInRecord(s.fields, i);
    End(s.fields, i + 1)
  }

  /** The field the schema names as the last one a record must have. */
  ghost predicate Through(s: RecSchema, i: nat)
    requires i < |s.fields|
  {
    s.requiredThrough == Some(s.fields[i].name) && forall j :: 0 <= j < i ==> s.fields[j].name != s.fields[i].name
  }

  lemma {:induction false} OnlyThrough(s: RecSchema, i: nat)
    requires Laid(s.fields) && i < |s.fields| && Through(s, i)
    ensures Valid(s) && RequiredBytes(s) == Offset(s.fields, i) + Bytes(s.fields[i])
    ensures forall j :: 0 <= j < |s.fields| && Through(s, j) ==> j == i
  {
    assert s.fields[i] in s.fields;
    RequiredAt(s, i);
  }

  lemma {:induction false} RequiredAt(s: RecSchema, i: nat)
    requires Valid(s) && i < |s.fields| && Through(s, i)
    ensures RequiredBytes(s) == Offset(s.fields, i) + Bytes(s.fields[i])
  {
    assert FieldIndex(s.fields, s.fields[i].name) == Some(i);
  }

  /** A scalar member of a C type. */
  function Member(name: string, t: CType): RecField { RecField(name, t, 0, SizeOf(t), AlignOf(t), "") }

  /** The event header's size and alignment are those of its struct. */
  lemma HeaderIsStruct()
    ensures var fs := [Member("type", U16), Member("version", U16), Member("reserved", U32), Member("timestamp", U64)];
            && Laid(fs)
            && Offset(fs, 0) == 0 && Offset(fs, 1) == 2 && Offset(fs, 2) == 4 && Offset(fs, 3) == 8
            && Total(fs) == SizeOf(EventHdr) == 16 && MaxAlign(fs) == AlignOf(EventHdr) == 8
  {
    var fs := [Member("type", U16), Member("version", U16), Member("reserved", U32), Member("timestamp", U64)];
    assert End(fs, 1) == 2;
    assert End(fs, 2) == 4;
    assert End(fs, 3) == 8;
    assert End(fs, 4) == 16;
    MaxAlignIsWidest(fs);
    assert fs[3] in fs;
  }

  /** required_bytes; None where the schema names a field it does not have. */
  method RequiredOf(s: RecSchema, offs: seq<nat>, total: nat) returns (r: Option<nat>)
    requires Laid(s.fields) && |offs| == |s.fields| && total == Total(s.fields)
    requires forall i :: 0 <= i < |offs| ==> offs[i] == Offset(s.fields, i)
    ensures r.Some? <==> Valid(s)
    ensures r.Some? ==> r.value == RequiredBytes(s)
    ensures s.requiredThrough.None? ==> r == Some(Total(s.fields))
    ensures forall i :: 0 <= i < |s.fields| && Through(s, i) ==> r == Some(Offset(s.fields, i) + Bytes(s.fields[i]))
  {
    if s.requiredThrough.None? { return Some(total); }
    var name := s.requiredThrough.value;
    for i := 0 to |s.fields|
      invariant forall j :: 0 <= j < i ==> s.fields[j].name != name
    {
      if s.fields[i].name == name {
        assert Through(s, i);
        OnlyThrough(s, i);
        return Some(offs[i] + Bytes(s.fields[i]));
      }
    }
    r := None;
  }

  // ----- decoding -----

  function Zeros(n: nat): (z: seq<byte>)
    ensures |z| == n && forall i :: 0 <= i < n ==> z[i] == 0
  {
    seq(n, i => 0)
  }

  predicate IsCString(f: RecField) { f.count > 0 && f.ctype.Char? }

  /** A `char[]` is a C string: its last byte is forced to NUL. */
  function Terminated(f: RecField, bs: seq<byte>): (r: seq<byte>)
    ensures |r| == |bs|
  {
    if IsCString(f) && bs != [] then bs[|bs| - 1 := 0] else bs
  }

  predicate Accepts(s: RecSchema, data: seq<byte>)
    requires Valid(s)
  {
    RequiredBytes(s) <= |data|
  }

  /** Field `i` as a reader with schema `s` sees it in a record. */
  function Decoded(s: RecSchema, i: nat, data: seq<byte>): (r: seq<byte>)
    requires Valid(s) && i < |s.fields|
    ensures |r| == Bytes(s.fields[i])
  {
    if End(s.fields, i + 1) <= |data|
    then Terminated(s.fields[i], data[Offset(s.fields, i)..End(s.fields, i + 1)])
    else Zeros(Bytes(s.fields[i]))
  }

  /** Byte by byte, what the record has at the field's place, but zero past the record's end and at the end
      of a `char` array. */
  ghost predicate AsWritten(s: RecSchema, i: nat, data: seq<byte>, got: seq<byte>)
    requires Valid(s) && i < |s.fields|
  {
    var f, at := s.fields[i], Offset(s.fields, i);
    |got| == Bytes(f) &&
    forall j :: 0 <= j < Bytes(f) ==>
      got[j] == if |data| < at + Bytes(f) || (f.ctype.Char? && f.count > 0 && j == Bytes(f) - 1) then 0
                else data[at + j]
  }

  lemma DecodedIsWritten(s: RecSchema, i: nat, data: seq<byte>)
    requires Valid(s) && i < |s.fields|
    ensures AsWritten(s, i, data, Decoded(s, i, data))
  {
  }

  /** The records a reader accepts: those that reach the end of the field the schema names. */
  lemma AcceptsExactly(s: RecSchema, data: seq<byte>)
    requires Valid(s)
    ensures s.requiredThrough.None? ==> (Accepts(s, data) <==> Total(s.fields) <= |data|)
    ensures forall i :: 0 <= i < |s.fields| && Through(s, i) ==>
              (Accepts(s, data) <==> Offset(s.fields, i) + Bytes(s.fields[i]) <= |data|)
  {
    forall i | 0 <= i < |s.fields| && Through(s, i)
      ensures Accepts(s, data) <==> Offset(s.fields, i) + Bytes(s.fields[i]) <= |data|
    {
      RequiredAt(s, i);
    }
  }

  /** The generated decoder: 0, or -1 when the record is too short. `out` is the caller's mirror
      struct, one cell per member, holding anything on entry. */
  method Unpack(s: RecSchema, data: seq<byte>, out: array<seq<byte>>) returns (rc: int)
    requires Valid(s) && out.Length == |s.fields|
    requires forall i :: 0 <= i < out.Length ==> |out[i]| == Bytes(s.fields[i])
    modifies out
    ensures rc == (if Accepts(s, data) then 0 else -1)
    ensures rc == -1 ==> out[..] == old(out[..])
    ensures rc == 0 ==> forall i :: 0 <= i < out.Length ==> out[i] == Decoded(s, i, data)
    ensures rc == 0 ==> forall i :: 0 <= i < out.Length ==> AsWritten(s, i, data, out[i])
  {
    var req := RequiredBytes(s);
    if |data| < req {
      return -1;
    }
    var cleared := req < Total(s.fields);
    if cleared {
      ClearMirror(s, out);
    }
    for i := 0 to out.Length
      invariant forall j :: 0 <= j < i ==> out[j] == Decoded(s, j, data)
      invariant forall j :: i <= j < out.Length ==> |out[j]| == Bytes(s.fields[j])
      invariant cleared ==> forall j :: i <= j < out.Length ==> out[j] == Zeros(Bytes(s.fields[j]))
    {
      FieldsInRecord(s.fields, i);
      out[i] := UnpackField(s, i, req, data, out[i]);
    }
    forall i | 0 <= i < out.Length { DecodedIsWritten(s, i, data); }
    return 0;
  }

  /** memset(out, 0, sizeof *out) */
  method ClearMirror(s: RecSchema, out: array<seq<byte>>)
    requires Valid(s) && out.Length == |s.fields|
    modifies out
    ensures forall j :: 0 <= j < out.Length ==> out[j] == Zeros(Bytes(s.fields[j]))
  {
    for i := 0 to out.Length
      invariant forall j :: 0 <= j < i ==> out[j] == Zeros(Bytes(s.fields[j]))
    {
      out[i] := Zeros(Bytes(s.fields[i]));
    }
  }

  /** The two lines the decoder has for one member: a copy, guarded when the member lies past
      the accepted prefix, and the terminator of a string. */
  method UnpackField(s: RecSchema, i: nat, req: nat, data: seq<byte>, was: seq<byte>) returns (r: seq<byte>)
    requires Valid(s) && i < |s.fields| && req == RequiredBytes(s) <= |data|
    requires |was| == Bytes(s.fields[i])
    requires req < Total(s.fields) ==> was == Zeros(Bytes(s.fields[i]))
    ensures r == Decoded(s, i, data) && AsWritten(s, i, data, r)
  {
    FieldsInRecord(s.fields, i);
    var end := End(s.fields, i + 1);
    r := was;
    if end <= req || end <= |data| {
      r := data[Offset(s.fields, i)..end];
    }
    if IsCString(s.fields[i]) {
      r := r[|r| - 1 := 0];
    }
  }

  // ----- schemas whose sizes are those of their C types -----

  /** Assumed of a table: its sizes and alignments are those of the C types. The generated static
      assertions check offsets and the total, which a too narrow last field can slip past. */
  ghost predicate Typed(fs: seq<RecField>) {
    forall f | f in fs :: f.size == SizeOf(f.ctype) && f.align == AlignOf(f.ctype)
  }

  lemma {:induction false} TypedMaxAlign(fs: seq<RecField>)
    requires Typed(fs) && Laid(fs)
    ensures MaxAlign(fs) == 1 || MaxAlign(fs) == 2 || MaxAlign(fs) == 4 || MaxAlign(fs) == 8
  {
    if fs != [] {
      assert fs[|fs| - 1] in fs;
      TypedMaxAlign(fs[..|fs| - 1]);
    }
  }

  lemma {:induction false} MaxAlignGrows(fs: seq<RecField>, gs: seq<RecField>)
    requires Laid(fs) && Laid(gs) && Extends(fs, gs)
    ensures MaxAlign(fs) <= MaxAlign(gs)
    decreases |gs|
  {
    if |fs| < |gs| {
      MaxAlignGrows(fs, gs[..|gs| - 1]);
    } else if fs != [] {
      MaxAlignGrows(fs[..|fs| - 1], gs[..|gs| - 1]);
    }
  }

  /** Appending fields never shortens the record. */
  lemma TotalGrows(fs: seq<RecField>, gs: seq<RecField>)
    requires Typed(fs) && Typed(gs) && Laid(fs) && Laid(gs) && Extends(fs, gs)
    ensures Total(fs) <= Total(gs)
  {
    TypedMaxAlign(fs);
    TypedMaxAlign(gs);
    MaxAlignGrows(fs, gs);
    AppendKeepsLayout(fs, gs);
    EndsGrow(gs, |fs|, |gs|);
    AlignUpMonotone(End(fs, |fs|), MaxAlign(fs), End(gs, |gs|), MaxAlign(gs));
  }

  lemma AlignUpMonotone(n: nat, a: nat, m: nat, b: nat)
    requires a == 1 || a == 2 || a == 4 || a == 8
    requires b == 1 || b == 2 || b == 4 || b == 8
    requires a <= b && n <= m
    ensures AlignUp(n, a) <= AlignUp(m, b)
  {
    DivisorOfDivisor(AlignUp(m, b), a, b / a);
    AlignUpIsLeast(n, a);
  }
}
