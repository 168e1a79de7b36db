/**
 lib/codec.c: the schema-driven translation between C structs and JSON trees. A schema is
 a priskv_object; a struct is the list of its fields' values; a JSON object is a map.
 */
module Codec {
  import opened Wrappers

  datatype Schema = Bool | Int | UInt64 | Str | Obj(fields: seq<Field>)

  datatype Field = Field(name: string, isArray: bool, schema: Schema, required: bool, ignored: bool)

  /** A C value; a string is a pointer and may be NULL. An array field is a pointer and a length. */
  datatype Data = DBool(b: bool) | DInt(n: int) | DUInt(u: nat) | DStr(s: Option<string>) | DObj(vals: seq<Data>)
                | DArray(items: seq<Data>)

  datatype Json = JBool(b: bool) | JInt(n: int) | JString(s: string) | JObject(members: map<string, Json>)
                | JArray(items: seq<Json>)

  // ---------------------------------------------------------------- shapes

  /** d is a value of schema s. */
  predicate Typed(d: Data, s: Schema)
    decreases s, 0, 0
  {
    match s
    case Bool => d.DBool?
    case Int => d.DInt? && -0x8000_0000 <= d.n < 0x8000_0000
    case UInt64 => d.DUInt? && d.u < 0x1_0000_0000_0000_0000
    case Str => d.DStr?
    case Obj(fs) => d.DObj? && FieldsTyped(d.vals, fs)
  }

  predicate FieldsTyped(ds: seq<Data>, fs: seq<Field>)
    decreases fs, 2, 0
  {
    if fs == [] then ds == []
    else ds != [] && FieldTyped(ds[0], fs[0]) && FieldsTyped(ds[1..], fs[1..])
  }

  predicate FieldTyped(d: Data, f: Field)
    decreases f, 1, 0
  {
    if f.isArray then d.DArray? && ItemsTyped(d.items, f.schema) else Typed(d, f.schema)
  }

  predicate ItemsTyped(ds: seq<Data>, s: Schema)
    decreases s, 1, |ds|
  {
    ds != [] ==> Typed(ds[0], s) && ItemsTyped(ds[1..], s)
  }

  /** Field names are distinct in every object of the schema. */
  predicate Distinct(s: Schema)
    decreases s, 0
  {
    s.Obj? ==> FieldsDistinct(s.fields)
  }

  predicate FieldsDistinct(fs: seq<Field>)
    decreases fs, 1
  {
    fs != [] ==> Unused(fs[0].name, fs[1..]) && Distinct(fs[0].schema) && FieldsDistinct(fs[1..])
  }

  predicate Unused(name: string, fs: seq<Field>) {
    forall i | 0 <= i < |fs| :: fs[i].name != name
  }

  // ---------------------------------------------------------------- coding

  /** Line 480 reads the element count as a C int: its low 32 bits, with sign. */
  function Count(n: nat): int {
    (n + 0x8000_0000) % 0x1_0000_0000 - 0x8000_0000
  }

  const MAX_ITEMS: nat := 0x8000_0000

  /** Whether a field is left out of the JSON object (lines 396-419, 467, 482). */
  predicate Dropped(d: Data, f: Field) {
    f.ignored &&
    if f.isArray then d.DArray? && Count(|d.items|) == 0
    else match d
         case DInt(n) => n == 0
         case DUInt(u) => u == 0
         case DStr(s) => s.None?
         case _ => false
  }

  /** None when an array's count reads as negative: the JSON library refuses such an array. */
  function Code(d: Data, s: Schema): Option<Json>
    requires Typed(d, s)
    decreases s, 0, 0
  {
    match s
    case Bool => Some(JBool(d.b))
    case Int => Some(JInt(d.n))
    case UInt64 => Some(JInt(d.u))
    case Str => Some(JString(if d.s.Some? then d.s.value else ""))
    case Obj(fs) => Members(CodeFields(d.vals, fs))
  }

  function Members(m: Option<map<string, Json>>): Option<Json> {
    if m.None? then None else Some(JObject(m.value))
  }

  function CodeFields(ds: seq<Data>, fs: seq<Field>): Option<map<string, Json>>
    requires FieldsTyped(ds, fs)
    decreases fs, 2, 0
  {
    if fs == [] then Some(map[])
    else if Dropped(ds[0], fs[0]) then CodeFields(ds[1..], fs[1..])
    else Added(fs[0].name, CodeField(ds[0], fs[0]), CodeFields(ds[1..], fs[1..]))
  }

  /** A later field of the same name wins. */
  function Added(name: string, j: Option<Json>, rest: Option<map<string, Json>>): Option<map<string, Json>> {
    if j.None? || rest.None? then None
    else if name in rest.value then rest
    else Some(rest.value[name := j.value])
  }

  function CodeField(d: Data, f: Field): Option<Json>
    requires FieldTyped(d, f)
    decreases f, 1, 0
  {
    if !f.isArray then Code(d, f.schema)
    else if Count(|d.items|) < 0 then None
    else
      ItemsTypedUpto(d.items, f.schema, Count(|d.items|));
      Elements(CodeItems(d.items[..Count(|d.items|)], f.schema))
  }

  function Elements(js: Option<seq<Json>>): Option<Json> {
    if js.None? then None else Some(JArray(js.value))
  }

  function CodeItems(ds: seq<Data>, s: Schema): Option<seq<Json>>
    requires ItemsTyped(ds, s)
    decreases s, 1, |ds|
  {
    if ds == [] then Some([]) else Before(Code(ds[0], s), CodeItems(ds[1..], s))
  }

  function Before(j: Option<Json>, js: Option<seq<Json>>): Option<seq<Json>> {
    if j.None? || js.None? then None else Some([j.value] + js.value)
  }

  lemma {:induction false} ItemsTypedUpto(ds: seq<Data>, s: Schema, n: nat)
    requires ItemsTyped(ds, s) && n <= |ds|
    ensures ItemsTyped(ds[..n], s)
  {
    if n > 0 {
      ItemsTypedUpto(ds[1..], s, n - 1);
      assert ds[..n][1..] == ds[1..][..n - 1];
    }
  }

  // ---------------------------------------------------------------- decoding

  /** A zeroed struct. */
  function Zero(s: Schema): Data
    decreases s, 0, 0
  {
    match s
    case Bool => DBool(false)
    case Int => DInt(0)
    case UInt64 => DUInt(0)
    case Str => DStr(None)
    case Obj(fs) => DObj(ZeroFields(fs))
  }

  function ZeroFields(fs: seq<Field>): seq<Data>
    decreases fs, 2, 0
  {
    if fs == [] then [] else [ZeroField(fs[0])] + ZeroFields(fs[1..])
  }

  function ZeroField(f: Field): Data
    decreases f, 1, 0
  {
    if f.isArray then DArray([]) else Zero(f.schema)
  }

  /** json_object_get_int saturates at the ends of a C int. */
  function Clamp(n: int): int {
    if n < -0x8000_0000 then -0x8000_0000 else if n > 0x7fff_ffff then 0x7fff_ffff else n
  }

  /** json_object_get_uint64 saturates at zero and at 2^64 - 1. */
  function ClampU(n: int): nat {
    if n < 0 then 0 else if n > 0xffff_ffff_ffff_ffff then 0xffff_ffff_ffff_ffff else n
  }

  function Decode(j: Json, s: Schema): Option<Data>
    decreases s, 0, 0
  {
    match s
    case Bool => if j.JBool? then Some(DBool(j.b)) else None
    case Int => if j.JInt? then Some(DInt(Clamp(j.n))) else None
    case UInt64 => if j.JInt? then Some(DUInt(ClampU(j.n))) else None
    case Str => if j.JString? then Some(DStr(Some(j.s))) else None
    case Obj(fs) =>
      if !j.JObject? then None
      else match DecodeFields(j.members, fs)
           case None => None
           case Some(ds) => Some(DObj(ds))
  }

  function DecodeFields(m: map<string, Json>, fs: seq<Field>): Option<seq<Data>>
    decreases fs, 2, 0
  {
    if fs == [] then Some([])
    else match DecodeField(m, fs[0])
         case None => None
         case Some(d) =>
           match DecodeFields(m, fs[1..])
           case None => None
           case Some(ds) => Some([d] + ds)
  }

  function DecodeField(m: map<string, Json>, f: Field): Option<Data>
    decreases f, 1, 0
  {
    if f.name !in m then (if f.required then None else Some(ZeroField(f)))
    else if f.isArray then
      (if !m[f.name].JArray? then None
       else match DecodeItems(m[f.name].items, f.schema)
            case None => None
            case Some(ds) => Some(DArray(ds)))
    else Decode(m[f.name], f.schema)
  }

  function DecodeItems(js: seq<Json>, s: Schema): Option<seq<Data>>
    decreases s, 1, |js|
  {
    if js == [] then Some([])
    else match Decode(js[0], s)
         case None => None
         case Some(d) =>
           match DecodeItems(js[1..], s)
           case None => None
           case Some(ds) => Some([d] + ds)
  }

  // ---------------------------------------------------------------- what survives

  /** A null string stands only in a field that is ignored and not required; a required and ignored
      field holds no zero and no empty array; every array has fewer than 2^31 elements. */
  predicate Clean(d: Data, s: Schema)
    requires Typed(d, s)
    decreases s, 0, 0
  {
    match s
    case Str => d.s.Some?
    case Obj(fs) => FieldsClean(d.vals, fs)
    case _ => true
  }

  predicate FieldsClean(ds: seq<Data>, fs: seq<Field>)
    requires FieldsTyped(ds, fs)
    decreases fs, 2, 0
  {
    fs != [] ==> FieldClean(ds[0], fs[0]) && FieldsClean(ds[1..], fs[1..])
  }

  predicate FieldClean(d: Data, f: Field)
    requires FieldTyped(d, f)
    decreases f, 1, 0
  {
    if f.isArray then
      && |d.items| < MAX_ITEMS && (d.items == [] && f.ignored ==> !f.required)
      && ItemsClean(d.items, f.schema)
    else
      match d
      case DInt(n) => n == 0 && f.ignored ==> !f.required
      case DUInt(u) => u == 0 && f.ignored ==> !f.required
      case DStr(s) => s.None? ==> f.ignored && !f.required
      case _ => Clean(d, f.schema)
  }

  predicate ItemsClean(ds: seq<Data>, s: Schema)
    requires ItemsTyped(ds, s)
    decreases s, 1, |ds|
  {
    ds != [] ==> Clean(ds[0], s) && ItemsClean(ds[1..], s)
  }

  // ---------------------------------------------------------------- round trip

  /** Coding succeeds and decoding gives the value back exactly when it is clean. */
  lemma {:induction false} RoundTrip(d: Data, s: Schema)
    requires Typed(d, s) && Distinct(s)
    ensures Code(d, s).Some? && Decode(Code(d, s).value, s) == Some(d) <==> Clean(d, s)
    decreases s, 0, 0
  {
    if s.Obj? {
      FieldsCode(d.vals, s.fields);
      if CodeFields(d.vals, s.fields).Some? {
        CodedHolds(d.vals, s.fields);
        FieldsRoundTrip(d.vals, s.fields, CodeFields(d.vals, s.fields).value);
      }
    }
  }

  /** Clean fields can be coded. */
  lemma {:induction false} FieldsCode(ds: seq<Data>, fs: seq<Field>)
    requires FieldsTyped(ds, fs) && FieldsDistinct(fs)
    ensures FieldsClean(ds, fs) ==> CodeFields(ds, fs).Some?
    decreases fs, 2, 0
  {
    if fs != [] {
      FieldCode(ds[0], fs[0]);
      FieldsCode(ds[1..], fs[1..]);
    }
  }

  lemma {:induction false} FieldCode(d: Data, f: Field)
    requires FieldTyped(d, f) && Distinct(f.schema)
    ensures FieldClean(d, f) && !Dropped(d, f) ==> CodeField(d, f).Some?
    decreases f, 1, 0
  {
    if !f.isArray {
      RoundTrip(d, f.schema);
    } else if |d.items| < MAX_ITEMS {
      assert d.items[..|d.items|] == d.items;
      ItemsRoundTrip(d.items, f.schema);
    }
  }

  /** m holds what each field is coded to, and nothing for a dropped one. */
  predicate Holds(m: map<string, Json>, ds: seq<Data>, fs: seq<Field>)
    requires FieldsTyped(ds, fs)
  {
    fs != [] ==>
      && (if Dropped(ds[0], fs[0]) then fs[0].name !in m
          else fs[0].name in m && CodeField(ds[0], fs[0]) == Some(m[fs[0].name]))
      && Holds(m, ds[1..], fs[1..])
  }

  lemma {:induction false} FieldsRoundTrip(ds: seq<Data>, fs: seq<Field>, m: map<string, Json>)
    requires FieldsTyped(ds, fs) && FieldsDistinct(fs) && Holds(m, ds, fs)
    ensures DecodeFields(m, fs) == Some(ds) <==> FieldsClean(ds, fs)
    decreases fs, 2, 0
  {
    if fs != [] {
      FieldRoundTrip(ds[0], fs[0], m);
      FieldsRoundTrip(ds[1..], fs[1..], m);
      assert ds == [ds[0]] + ds[1..];
    }
  }

  lemma {:induction false} FieldRoundTrip(d: Data, f: Field, m: map<string, Json>)
    requires FieldTyped(d, f) && Distinct(f.schema)
    requires if Dropped(d, f) then f.name !in m else f.name in m && CodeField(d, f) == Some(m[f.name])
    ensures DecodeField(m, f) == Some(d) <==> FieldClean(d, f)
    decreases f, 1, 0
  {
    if f.isArray && |d.items| >= MAX_ITEMS {
      TooMany(d, f, m);
    } else if Dropped(d, f) {
      DroppedIsZero(d, f);
    } else if f.isArray {
      assert d.items[..|d.items|] == d.items;
      ItemsRoundTrip(d.items, f.schema);
    } else {
      RoundTrip(d, f.schema);
    }
  }

  /** An array of 2^31 elements or more comes back shorter. */
  lemma {:induction false} TooMany(d: Data, f: Field, m: map<string, Json>)
    requires FieldTyped(d, f) && f.isArray && |d.items| >= MAX_ITEMS
    requires if Dropped(d, f) then f.name !in m else f.name in m && CodeField(d, f) == Some(m[f.name])
    ensures DecodeField(m, f) != Some(d)
  {
    if !Dropped(d, f) {
      var n := Count(|d.items|);
      ItemsTypedUpto(d.items, f.schema, n);
      ItemsLength(d.items[..n], f.schema);
      DecodedLength(m[f.name].items, f.schema);
    }
  }

  lemma {:induction false} ItemsLength(ds: seq<Data>, s: Schema)
    requires ItemsTyped(ds, s)
    ensures CodeItems(ds, s).Some? ==> |CodeItems(ds, s).value| == |ds|
  {
    if ds != [] { ItemsLength(ds[1..], s); }
  }

  lemma {:induction false} DecodedLength(js: seq<Json>, s: Schema)
    ensures DecodeItems(js, s).Some? ==> |DecodeItems(js, s).value| == |js|
  {
    if js != [] { DecodedLength(js[1..], s); }
  }

  /** What the zeroed struct already holds is all the ignore rule ever drops, up to 2^31 elements. */
  lemma {:induction false} DroppedIsZero(d: Data, f: Field)
    requires FieldTyped(d, f) && Dropped(d, f)
    ensures ZeroField(f) == d <==> !f.isArray || |d.items| < MAX_ITEMS
  {
    if !f.isArray {
      match f.schema
      case Bool =>
      case Int =>
      case UInt64 =>
      case Str =>
      case Obj(_) =>
    }
  }

  lemma {:induction false} ItemsRoundTrip(ds: seq<Data>, s: Schema)
    requires ItemsTyped(ds, s) && Distinct(s)
    ensures CodeItems(ds, s).Some? && DecodeItems(CodeItems(ds, s).value, s) == Some(ds) <==> ItemsClean(ds, s)
    decreases s, 1, |ds|
  {
    if ds != [] {
      RoundTrip(ds[0], s);
      ItemsRoundTrip(ds[1..], s);
      if CodeItems(ds, s).Some? {
        var js := CodeItems(ds, s).value;
        assert js[1..] == CodeItems(ds[1..], s).value;
      }
      assert ds == [ds[0]] + ds[1..];
    }
  }

  lemma {:induction false} CodedNames(ds: seq<Data>, fs: seq<Field>, name: string)
    requires FieldsTyped(ds, fs) && Unused(name, fs) && CodeFields(ds, fs).Some?
    ensures name !in CodeFields(ds, fs).value
  {
    if fs != [] {
      assert fs[0].name != name;
      assert Unused(name, fs[1..]) by { assert forall i | 0 <= i < |fs[1..]| :: fs[1..][i] == fs[i + 1]; }
      CodedNames(ds[1..], fs[1..], name);
    }
  }

  lemma {:induction false} HoldsMore(m: map<string, Json>, m': map<string, Json>, ds: seq<Data>, fs: seq<Field>)
    requires FieldsTyped(ds, fs) && Holds(m, ds, fs)
    requires forall i | 0 <= i < |fs| ::
               (fs[i].name in m <==> fs[i].name in m') && (fs[i].name in m ==> m[fs[i].name] == m'[fs[i].name])
    ensures Holds(m', ds, fs)
  {
    if fs != [] {
      assert forall i | 0 <= i < |fs[1..]| :: fs[1..][i] == fs[i + 1];
      HoldsMore(m, m', ds[1..], fs[1..]);
    }
  }

  lemma {:induction false} CodedHolds(ds: seq<Data>, fs: seq<Field>)
    requires FieldsTyped(ds, fs) && FieldsDistinct(fs) && CodeFields(ds, fs).Some?
    ensures Holds(CodeFields(ds, fs).value, ds, fs)
  {
    if fs != [] {
      CodedHolds(ds[1..], fs[1..]);
      CodedNames(ds[1..], fs[1..], fs[0].name);
      HoldsMore(CodeFields(ds[1..], fs[1..]).value, CodeFields(ds, fs).value, ds[1..], fs[1..]);
    }
  }

  /** What a field is written as: nothing if it is ignored and zero, null or of no elements, and
      otherwise its value; a null string is written as an empty one. */
  predicate WrittenAs(d: Data, f: Field, m: map<string, Json>)
    requires FieldTyped(d, f)
  {
    if f.isArray then
      if f.ignored && Count(|d.items|) == 0 then f.name !in m
      else f.name in m && m[f.name].JArray? && |m[f.name].items| == Count(|d.items|)
    else
      match d
      case DBool(b) => f.name in m && m[f.name] == JBool(b)
      case DInt(n) => if f.ignored && n == 0 then f.name !in m else f.name in m && m[f.name] == JInt(n)
      case DUInt(u) => if f.ignored && u == 0 then f.name !in m else f.name in m && m[f.name] == JInt(u)
      case DStr(None) => if f.ignored then f.name !in m else f.name in m && m[f.name] == JString("")
      case DStr(Some(s)) => f.name in m && m[f.name] == JString(s)
      case _ => f.name in m && m[f.name].JObject?
  }

  /** Every field of a coded object is written so. */
  lemma {:induction false} FieldWritten(ds: seq<Data>, fs: seq<Field>, i: nat)
    requires FieldsTyped(ds, fs) && FieldsDistinct(fs) && CodeFields(ds, fs).Some? && i < |fs|
    ensures |ds| == |fs| && FieldTyped(ds[i], fs[i]) && WrittenAs(ds[i], fs[i], CodeFields(ds, fs).value)
  {
    TypedAt(ds, fs, i);
    CodedHolds(ds, fs);
    HeldWritten(ds, fs, CodeFields(ds, fs).value, i);
  }

  lemma {:induction false} ScalarCoded(d: Data, s: Schema)
    requires Typed(d, s)
    ensures match s
            case Bool => Code(d, s) == Some(JBool(d.b))
            case Int => Code(d, s) == Some(JInt(d.n))
            case UInt64 => Code(d, s) == Some(JInt(d.u))
            case Str => Code(d, s) == Some(JString(if d.s.Some? then d.s.value else ""))
            case Obj(_) => Code(d, s).Some? ==> Code(d, s).value.JObject?
  {
  }

  lemma {:induction false} HeldWritten(ds: seq<Data>, fs: seq<Field>, m: map<string, Json>, i: nat)
    requires FieldsTyped(ds, fs) && Holds(m, ds, fs) && i < |fs|
    ensures |ds| == |fs| && FieldTyped(ds[i], fs[i]) && WrittenAs(ds[i], fs[i], m)
  {
    TypedAt(ds, fs, i);
    if i > 0 {
      HeldWritten(ds[1..], fs[1..], m, i - 1);
    } else if !fs[0].isArray {
      ScalarCoded(ds[0], fs[0].schema);
    } else if fs[0].isArray && Count(|ds[0].items|) >= 0 {
      ItemsTypedUpto(ds[0].items, fs[0].schema, Count(|ds[0].items|));
      ItemsLength(ds[0].items[..Count(|ds[0].items|)], fs[0].schema);
    }
  }

  function Distance(a: int, b: int): nat { if a < b then b - a else a - b }

  /** A scalar is decoded from JSON of its own type only; a number becomes the nearest one its C
      type can hold. */
  lemma {:induction false} ScalarDecoded(j: Json)
    ensures Decode(j, Bool) == (if j.JBool? then Some(DBool(j.b)) else None)
    ensures Decode(j, Str) == (if j.JString? then Some(DStr(Some(j.s))) else None)
    ensures (Decode(j, Int).Some? <==> j.JInt?) && (Decode(j, UInt64).Some? <==> j.JInt?)
    ensures j.JInt? ==>
              var d, u := Decode(j, Int).value, Decode(j, UInt64).value;
              && Typed(d, Int) && Typed(u, UInt64)
              && (forall x | -0x8000_0000 <= x < 0x8000_0000 :: Distance(d.n, j.n) <= Distance(x, j.n))
              && (forall x | 0 <= x < 0x1_0000_0000_0000_0000 :: Distance(u.u, j.n) <= Distance(x, j.n))
  {
  }

  /** An object is decoded exactly when each of its fields is, and field by field. */
  lemma {:induction false} FieldsDecoded(m: map<string, Json>, fs: seq<Field>)
    ensures DecodeFields(m, fs).Some? <==> forall i | 0 <= i < |fs| :: DecodeField(m, fs[i]).Some?
    ensures DecodeFields(m, fs).Some? ==>
              && |DecodeFields(m, fs).value| == |fs|
              && forall i | 0 <= i < |fs| :: DecodeField(m, fs[i]) == Some(DecodeFields(m, fs).value[i])
  {
    if fs != [] {
      var rest := fs[1..];
      FieldsDecoded(m, rest);
      assert fs == [fs[0]] + rest;
      if forall i | 0 <= i < |fs| :: DecodeField(m, fs[i]).Some? {
        forall i | 0 <= i < |rest|
          ensures DecodeField(m, rest[i]).Some?
        {
          assert rest[i] == fs[i + 1];
        }
      }
    }
  }

  /** An object is decoded from a JSON object only, and an array from a JSON array whose elements all
      decode, one by one. */
  lemma {:induction false} ShapesDecoded(j: Json, fs: seq<Field>, m: map<string, Json>, f: Field)
    ensures Decode(j, Obj(fs)).Some? <==> j.JObject? && DecodeFields(j.members, fs).Some?
    ensures Decode(j, Obj(fs)).Some? ==> Decode(j, Obj(fs)).value == DObj(DecodeFields(j.members, fs).value)
    ensures f.isArray && f.name in m ==>
              (DecodeField(m, f).Some? <==>
                 && m[f.name].JArray?
                 && forall i | 0 <= i < |m[f.name].items| :: Decode(m[f.name].items[i], f.schema).Some?)
    ensures f.isArray && f.name in m && DecodeField(m, f).Some? ==>
              && DecodeField(m, f).value.DArray? && |DecodeField(m, f).value.items| == |m[f.name].items|
              && forall i | 0 <= i < |m[f.name].items| ::
                   Decode(m[f.name].items[i], f.schema) == Some(DecodeField(m, f).value.items[i])
  {
    if f.isArray && f.name in m && m[f.name].JArray? { ItemsDecoded(m[f.name].items, f.schema); }
  }

  lemma {:induction false} ItemsDecoded(js: seq<Json>, s: Schema)
    ensures DecodeItems(js, s).Some? <==> forall i | 0 <= i < |js| :: Decode(js[i], s).Some?
    ensures DecodeItems(js, s).Some? ==>
              && |DecodeItems(js, s).value| == |js|
              && forall i | 0 <= i < |js| :: Decode(js[i], s) == Some(DecodeItems(js, s).value[i])
  {
    if js != [] {
      var rest := js[1..];
      ItemsDecoded(rest, s);
      assert js == [js[0]] + rest;
      if forall i | 0 <= i < |js| :: Decode(js[i], s).Some? {
        forall i | 0 <= i < |rest|
          ensures Decode(rest[i], s).Some?
        {
          assert rest[i] == js[i + 1];
        }
      }
    }
  }

  /** Of several written fields of one name the last one stands in the object. */
  lemma {:induction false} LastWins(ds: seq<Data>, fs: seq<Field>, i: nat)
    requires FieldsTyped(ds, fs) && CodeFields(ds, fs).Some? && i < |fs| == |ds|
    requires FieldTyped(ds[i], fs[i]) && !Dropped(ds[i], fs[i])
    requires forall j | i < j < |fs| && fs[j].name == fs[i].name :: Dropped(ds[j], fs[j])
    ensures fs[i].name in CodeFields(ds, fs).value
    ensures CodeField(ds[i], fs[i]) == Some(CodeFields(ds, fs).value[fs[i].name])
  {
    if i > 0 {
      LastWins(ds[1..], fs[1..], i - 1);
    } else {
      forall j | 0 <= j < |fs[1..]| && fs[1..][j].name == fs[0].name
        ensures Dropped(ds[1..][j], fs[1..][j])
      {
        assert fs[1..][j] == fs[j + 1] && ds[1..][j] == ds[j + 1];
      }
      NameUnwritten(ds[1..], fs[1..], fs[0].name);
    }
  }

  lemma {:induction false} NameUnwritten(ds: seq<Data>, fs: seq<Field>, name: string)
    requires FieldsTyped(ds, fs) && CodeFields(ds, fs).Some? && |ds| == |fs|
    requires forall j | 0 <= j < |fs| && fs[j].name == name :: Dropped(ds[j], fs[j])
    ensures name !in CodeFields(ds, fs).value
  {
    if fs != [] {
      forall j | 0 <= j < |fs[1..]| && fs[1..][j].name == name
        ensures Dropped(ds[1..][j], fs[1..][j])
      {
        assert fs[1..][j] == fs[j + 1] && ds[1..][j] == ds[j + 1];
      }
      NameUnwritten(ds[1..], fs[1..], name);
    }
  }

  /** A missing field fails if it is required and otherwise reads as zero, false, null or empty. */
  lemma {:induction false} MissingField(m: map<string, Json>, f: Field)
    requires f.name !in m && (f.isArray || !f.schema.Obj?)
    ensures DecodeField(m, f) ==
              if f.required then None
              else if f.isArray then Some(DArray([]))
              else match f.schema
                   case Bool => Some(DBool(false))
                   case Int => Some(DInt(0))
                   case UInt64 => Some(DUInt(0))
                   case _ => Some(DStr(None))
  {
    assert !f.isArray ==> ZeroField(f) == Zero(f.schema);
  }

  /** A null string comes back as an empty one. */
  lemma {:induction false} NullString()
    ensures Code(DStr(None), Str).Some? && Decode(Code(DStr(None), Str).value, Str) == Some(DStr(Some("")))
  {
  }

  /** A required number that the ignore rule drops makes decoding fail. */
  lemma {:induction false} DroppedRequired(name: string)
    ensures var f := Field(name, false, Int, true, true);
            FieldTyped(DInt(0), f) && Dropped(DInt(0), f) && forall m | name !in m :: DecodeField(m, f) == None
  {
  }

  // ---------------------------------------------------------------- the loops

  lemma {:induction false} TypedAt(ds: seq<Data>, fs: seq<Field>, i: nat)
    requires FieldsTyped(ds, fs) && i <= |fs|
    ensures |ds| == |fs| && FieldsTyped(ds[i..], fs[i..]) && (i < |fs| ==> FieldTyped(ds[i], fs[i]))
  {
    if i > 0 {
      TypedAt(ds[1..], fs[1..], i - 1);
      assert ds[1..][i - 1..] == ds[i..] && fs[1..][i - 1..] == fs[i..];
    } else if fs != [] {
      TypedAt(ds[1..], fs[1..], 0);
      assert ds[0..] == ds && fs[0..] == fs;
    }
  }

  lemma {:induction false} ItemsTypedAt(ds: seq<Data>, s: Schema, i: nat)
    requires ItemsTyped(ds, s) && i <= |ds|
    ensures ItemsTyped(ds[i..], s) && (i < |ds| ==> Typed(ds[i], s))
  {
    if i > 0 {
      ItemsTypedAt(ds[1..], s, i - 1);
      assert ds[1..][i - 1..] == ds[i..];
    } else {
      assert ds[0..] == ds;
    }
  }

  /** __priskv_code_obj and the coder table: one pass over the fields, adding to a JSON object. */
  method CodeValue(d: Data, s: Schema) returns (j: Option<Json>)
    requires Typed(d, s)
    ensures j == Code(d, s)
    decreases s, 0, 0
  {
    match s
    case Bool => j := Some(JBool(d.b));
    case Int => j := Some(JInt(d.n));
    case UInt64 => j := Some(JInt(d.u));
    case Str => j := Some(JString(if d.s.Some? then d.s.value else ""));
    case Obj(fs) =>
      var m := CodeObject(d.vals, fs);
      j := Members(m);
  }

  ghost function Joined(m: map<string, Json>, r: Option<map<string, Json>>): Option<map<string, Json>> {
    if r.None? then None else Some(m + r.value)
  }

  method CodeObject(ds: seq<Data>, fs: seq<Field>) returns (r: Option<map<string, Json>>)
    requires FieldsTyped(ds, fs)
    ensures r == CodeFields(ds, fs)
    decreases fs, 2, 0
  {
    var m: map<string, Json> := map[];
    TypedAt(ds, fs, 0);
    assert ds[0..] == ds && fs[0..] == fs;
    JoinedNone(CodeFields(ds, fs));
    for i := 0 to |fs|
      invariant |ds| == |fs| && FieldsTyped(ds[i..], fs[i..])
      invariant Joined(m, CodeFields(ds[i..], fs[i..])) == CodeFields(ds, fs)
    {
      var d, f := ds[i], fs[i];
      TypedAt(ds, fs, i);
      TypedAt(ds, fs, i + 1);
      assert ds[i..][1..] == ds[i + 1..] && fs[i..][1..] == fs[i + 1..];
      if !Dropped(d, f) {
        var j := CodeOne(d, f);
        if j.None? { return None; }
        AddField(m, CodeFields(ds[i + 1..], fs[i + 1..]), f.name, j.value);
        m := m[f.name := j.value];
      }
    }
    assert m + map[] == m;
    r := Some(m);
  }

  method CodeOne(d: Data, f: Field) returns (j: Option<Json>)
    requires FieldTyped(d, f)
    ensures j == CodeField(d, f)
    decreases f, 1, 0
  {
    if f.isArray {
      var js := CodeArray(d.items, f.schema);
      j := Elements(js);
    } else {
      j := CodeValue(d, f.schema);
    }
  }

  lemma {:induction false} JoinedNone(r: Option<map<string, Json>>)
    ensures Joined(map[], r) == r
  {
    if r.Some? { assert map[] + r.value == r.value; }
  }

  lemma {:induction false} AddField(m: map<string, Json>, rest: Option<map<string, Json>>, name: string, j: Json)
    ensures Joined(m, Added(name, Some(j), rest)) == Joined(m[name := j], rest)
  {
    if rest.Some? {
      var r := rest.value;
      assert m + (if name in r then r else r[name := j]) == m[name := j] + r;
    }
  }

  /** The array branch: the count read as an int, then one element after the other. */
  method CodeArray(ds: seq<Data>, s: Schema) returns (r: Option<seq<Json>>)
    requires ItemsTyped(ds, s)
    ensures Count(|ds|) < 0 ==> r == None
    ensures Count(|ds|) >= 0 ==> ItemsTyped(ds[..Count(|ds|)], s) && r == CodeItems(ds[..Count(|ds|)], s)
    decreases s, 1, |ds|
  {
    var len := Count(|ds|);
    if len < 0 { return None; }
    ItemsTypedUpto(ds, s, len);
    ghost var part := ds[..len];
    var js: seq<Json> := [];
    assert part[0..] == part;
    FollowedNone(CodeItems(part, s));
    for i := 0 to len
      invariant ItemsTyped(part[i..], s) && Followed(js, CodeItems(part[i..], s)) == CodeItems(part, s)
    {
      ItemsTypedAt(part, s, i);
      ItemsTypedAt(part, s, i + 1);
      assert part[i..][1..] == part[i + 1..] && part[i] == ds[i];
      var j := CodeValue(ds[i], s);
      if j.None? { return None; }
      FollowedStep(js, j.value, CodeItems(part[i + 1..], s));
      js := js + [j.value];
    }
    assert js + [] == js;
    r := Some(js);
  }

  ghost function Followed(js: seq<Json>, r: Option<seq<Json>>): Option<seq<Json>> {
    if r.None? then None else Some(js + r.value)
  }

  lemma {:induction false} FollowedNone(r: Option<seq<Json>>)
    ensures Followed([], r) == r
  {
    if r.Some? { assert [] + r.value == r.value; }
  }

  lemma {:induction false} FollowedStep(js: seq<Json>, j: Json, r: Option<seq<Json>>)
    ensures Followed(js, Before(Some(j), r)) == Followed(js + [j], r)
  {
    if r.Some? { assert js + ([j] + r.value) == js + [j] + r.value; }
  }

  /** __priskv_decode_obj and the decoder table: one pass over the fields of a zeroed struct. */
  method DecodeValue(j: Json, s: Schema) returns (r: Option<Data>)
    ensures r == Decode(j, s)
    decreases s, 0, 0
  {
    match s
    case Bool => r := if j.JBool? then Some(DBool(j.b)) else None;
    case Int => r := if j.JInt? then Some(DInt(Clamp(j.n))) else None;
    case UInt64 => r := if j.JInt? then Some(DUInt(ClampU(j.n))) else None;
    case Str => r := if j.JString? then Some(DStr(Some(j.s))) else None;
    case Obj(fs) =>
      if !j.JObject? {
        return None;
      }
      var ds := DecodeObject(j.members, fs);
      r := if ds.None? then None else Some(DObj(ds.value));
  }

  lemma {:induction false} ZeroLength(fs: seq<Field>)
    ensures |ZeroFields(fs)| == |fs| && forall i | 0 <= i < |fs| :: ZeroFields(fs)[i] == ZeroField(fs[i])
  {
    if fs != [] { ZeroLength(fs[1..]); }
  }

  method DecodeObject(m: map<string, Json>, fs: seq<Field>) returns (r: Option<seq<Data>>)
    ensures r == DecodeFields(m, fs)
    decreases fs, 2, 0
  {
    var data := ZeroFields(fs);
    ZeroLength(fs);
    assert fs[0..] == fs && data[..0] == [];
    AfterNone(DecodeFields(m, fs));
    for i := 0 to |fs|
      invariant |data| == |fs| && forall k | i <= k < |fs| :: data[k] == ZeroField(fs[k])
      invariant DecodeFields(m, fs) == After(data[..i], DecodeFields(m, fs[i..]))
    {
      var f := fs[i];
      assert fs[i..][1..] == fs[i + 1..];
      var d := Some(data[i]);
      if f.name in m {
        if f.isArray {
          if !m[f.name].JArray? {
            return None;
          }
          var ds := DecodeArray(m[f.name].items, f.schema);
          d := if ds.None? then None else Some(DArray(ds.value));
        } else {
          d := DecodeValue(m[f.name], f.schema);
        }
        if d.None? {
          return None;
        }
      } else if f.required {
        return None;
      }
      AfterStep(data[..i], d.value, DecodeFields(m, fs[i + 1..]));
      data := data[i := d.value];
      assert data[..i + 1] == data[..i] + [d.value];
    }
    assert data[..|fs|] == data && data + [] == data;
    r := Some(data);
  }

  ghost function After(ds: seq<Data>, r: Option<seq<Data>>): Option<seq<Data>> {
    if r.None? then None else Some(ds + r.value)
  }

  lemma {:induction false} AfterNone(r: Option<seq<Data>>)
    ensures After([], r) == r
  {
    if r.Some? { assert [] + r.value == r.value; }
  }

  lemma {:induction false} AfterStep(ds: seq<Data>, d: Data, r: Option<seq<Data>>)
    ensures After(ds, After([d], r)) == After(ds + [d], r)
  {
    if r.Some? { assert ds + ([d] + r.value) == ds + [d] + r.value; }
  }

  method DecodeArray(js: seq<Json>, s: Schema) returns (r: Option<seq<Data>>)
    ensures r == DecodeItems(js, s)
    decreases s, 1, |js|
  {
    var data: seq<Data> := [];
    assert js[0..] == js;
    AfterNone(DecodeItems(js, s));
    for i := 0 to |js|
      invariant DecodeItems(js, s) == After(data, DecodeItems(js[i..], s))
    {
      assert js[i..][1..] == js[i + 1..];
      var d := DecodeValue(js[i], s);
      if d.None? {
        return None;
      }
      AfterStep(data, d.value, DecodeItems(js[i + 1..], s));
      data := data + [d.value];
    }
    assert data + [] == data;
    r := Some(data);
  }
}
