/** The stored form of a table schema: writers that append bytes, readers that advance a cursor. */
module Codec {
  import opened Base
  import opened BigEndian

  /** A string is its bytes; `Utf8` says which byte strings are strings. */
  type Text = Bytes
  type Utf8 = Bytes -> bool

  datatype Typmod = Typmod(precision: nat, scale: nat)

  datatype ColumnType =
    | Bool | Int4 | Int8 | Text | Float8 | Numeric(typmod: Option<Typmod>) | Date
    | Time | Timestamp | Timestamptz | Interval | Bytea

  datatype Column = Column(name: Text, ty: ColumnType)
  datatype Pair = Pair(key: Text, value: Text)
  datatype ForeignMeta = ForeignMeta(server: Text, options: seq<Pair>)
  datatype Schema = Schema(tableId: nat, columns: seq<Column>, foreignMeta: Option<ForeignMeta>)

  datatype CodecError =
    | Truncated | NotUtf8 | BadPrecision | UnknownType(tag: byte) | UnknownVersion(v: byte) | UnknownFlag(f: byte)

  /** A reader's result: the value and the bytes the cursor has not consumed. */
  type Parsed<T> = Result<(T, Bytes), CodecError>

  const SCHEMA_VERSION: byte := 2

  // ---- Writers --------------------------------------------------------------------------------

  function U32Bytes(n: nat): Bytes { Encode(n % U32, 4) }

  function StrBytes(s: Text): Bytes { U32Bytes(|s|) + s }

  function Tag(ty: ColumnType): byte {
    match ty
    case Bool => 0 case Int4 => 1 case Int8 => 2 case Text => 3 case Float8 => 4 case Numeric(_) => 5
    case Date => 6 case Time => 7 case Timestamp => 8 case Timestamptz => 9 case Interval => 10 case Bytea => 11
  }

  /** The date-time types carry a reserved precision byte. */
  predicate Reserved(ty: ColumnType) { ty.Time? || ty.Timestamp? || ty.Timestamptz? || ty.Interval? }

  function TypeBytes(ty: ColumnType): Bytes {
    [Tag(ty)] +
    match ty
    case Numeric(Some(t)) => [1] + Encode(t.precision, 2) + Encode(t.scale, 2)
    case Numeric(None) => [0]
    case _ => if Reserved(ty) then [0] else []
  }

  function ColumnBytes(c: Column): Bytes { StrBytes(c.name) + TypeBytes(c.ty) }

  function WriteMany<T>(write: T -> Bytes, xs: seq<T>): Bytes {
    if xs == [] then [] else WriteMany(write, xs[..|xs| - 1]) + write(xs[|xs| - 1])
  }

  function PairBytes(p: Pair): Bytes { StrBytes(p.key) + StrBytes(p.value) }

  function MetaBytes(m: Option<ForeignMeta>): Bytes {
    match m
    case None => [0]
    case Some(f) => [1] + StrBytes(f.server) + U32Bytes(|f.options|) + WriteMany(PairBytes, f.options)
  }

  function SchemaBytes(s: Schema): Bytes {
    [SCHEMA_VERSION] + U32Bytes(s.tableId) + U32Bytes(|s.columns|) + WriteMany(ColumnBytes, s.columns) +
    MetaBytes(s.foreignMeta)
  }

  // ---- Readers --------------------------------------------------------------------------------

  function TakeU8(b: Bytes): Parsed<byte> { if b == [] then Err(Truncated) else Ok((b[0], b[1..])) }

  function TakeN(b: Bytes, n: nat): Parsed<Bytes> { if |b| < n then Err(Truncated) else Ok((b[..n], b[n..])) }

  function ReadNumber(b: Bytes, width: nat): Parsed<nat> {
    match TakeN(b, width) case Err(e) => Err(e) case Ok((h, rest)) => Ok((Value(h), rest))
  }

  function ReadString(b: Bytes, utf8: Utf8): Parsed<Text> {
    match ReadNumber(b, 4)
    case Err(e) => Err(e)
    case Ok((len, rest)) =>
      match TakeN(rest, len)
      case Err(e) => Err(e)
      case Ok((s, rest')) => if utf8(s) then Ok((s, rest')) else Err(NotUtf8)
  }

  function ReadReserved(b: Bytes, ty: ColumnType): Parsed<ColumnType> {
    match TakeU8(b) case Err(e) => Err(e) case Ok((p, rest)) => if p != 0 then Err(BadPrecision) else Ok((ty, rest))
  }

  function ReadTypmod(b: Bytes): Parsed<ColumnType> {
    match TakeU8(b)
    case Err(e) => Err(e)
    case Ok((flag, rest)) =>
      if flag != 1 then Ok((Numeric(None), rest))
      else
        match ReadNumber(rest, 2)
        case Err(e) => Err(e)
        case Ok((p, rest1)) =>
          match ReadNumber(rest1, 2) case Err(e) => Err(e) case Ok((s, rest2)) => Ok((Numeric(Some(Typmod(p, s))), rest2))
  }

  function ReadType(b: Bytes): Parsed<ColumnType> {
    match TakeU8(b)
    case Err(e) => Err(e)
    case Ok((tag, rest)) =>
      if tag == 0 then Ok((Bool, rest)) else if tag == 1 then Ok((Int4, rest)) else if tag == 2 then Ok((Int8, rest))
      else if tag == 3 then Ok((ColumnType.Text, rest)) else if tag == 4 then Ok((Float8, rest))
      else if tag == 5 then ReadTypmod(rest)
      else if tag == 6 then Ok((Date, rest)) else if tag == 7 then ReadReserved(rest, Time)
      else if tag == 8 then ReadReserved(rest, Timestamp) else if tag == 9 then ReadReserved(rest, Timestamptz)
      else if tag == 10 then ReadReserved(rest, Interval) else if tag == 11 then Ok((Bytea, rest))
      else Err(UnknownType(tag))
  }

  function ReadColumn(b: Bytes, utf8: Utf8): Parsed<Column> {
    match ReadString(b, utf8)
    case Err(e) => Err(e)
    case Ok((name, rest)) => match ReadType(rest) case Err(e) => Err(e) case Ok((ty, rest')) => Ok((Column(name, ty), rest'))
  }

  function ReadPair(b: Bytes, utf8: Utf8): Parsed<Pair> {
    match ReadString(b, utf8)
    case Err(e) => Err(e)
    case Ok((k, rest)) => match ReadString(rest, utf8) case Err(e) => Err(e) case Ok((v, rest')) => Ok((Pair(k, v), rest'))
  }

  function ReadMany<T>(read: Bytes -> Parsed<T>, b: Bytes, n: nat): Parsed<seq<T>>
    decreases n
  {
    if n == 0 then Ok(([], b))
    else
      match read(b)
      case Err(e) => Err(e)
      case Ok((x, rest)) =>
        match ReadMany(read, rest, n - 1) case Err(e) => Err(e) case Ok((xs, rest')) => Ok(([x] + xs, rest'))
  }

  function ColumnReader(utf8: Utf8): Bytes -> Parsed<Column> { b => ReadColumn(b, utf8) }

  function PairReader(utf8: Utf8): Bytes -> Parsed<Pair> { b => ReadPair(b, utf8) }

  function ReadOptions(b: Bytes, utf8: Utf8): Parsed<seq<Pair>> {
    match ReadNumber(b, 4) case Err(e) => Err(e) case Ok((n, rest)) => ReadMany(PairReader(utf8), rest, n)
  }

  function ReadForeign(b: Bytes, utf8: Utf8): Parsed<Option<ForeignMeta>> {
    match ReadString(b, utf8)
    case Err(e) => Err(e)
    case Ok((server, rest)) =>
      match ReadOptions(rest, utf8) case Err(e) => Err(e) case Ok((os, rest')) => Ok((Some(ForeignMeta(server, os)), rest'))
  }

  function ReadMeta(b: Bytes, utf8: Utf8): Parsed<Option<ForeignMeta>> {
    match TakeU8(b)
    case Err(e) => Err(e)
    case Ok((flag, rest)) =>
      if flag == 0 then Ok((None, rest)) else if flag == 1 then ReadForeign(rest, utf8) else Err(UnknownFlag(flag))
  }

  function ReadBody(b: Bytes, utf8: Utf8): Parsed<Schema> {
    match ReadNumber(b, 4)
    case Err(e) => Err(e)
    case Ok((id, rest)) =>
      match ReadNumber(rest, 4)
      case Err(e) => Err(e)
      case Ok((n, rest1)) =>
        match ReadMany(ColumnReader(utf8), rest1, n)
        case Err(e) => Err(e)
        case Ok((cs, rest2)) =>
          match ReadMeta(rest2, utf8) case Err(e) => Err(e) case Ok((m, rest3)) => Ok((Schema(id, cs, m), rest3))
  }

  function ReadSchema(b: Bytes, utf8: Utf8): Parsed<Schema> {
    match TakeU8(b)
    case Err(e) => Err(e)
    case Ok((v, rest)) => if v != SCHEMA_VERSION then Err(UnknownVersion(v)) else ReadBody(rest, utf8)
  }

  // ---- More bytes change nothing read so far --------------------------------------------------

  lemma NumberExtends(b: Bytes, x: Bytes, width: nat)
    requires ReadNumber(b, width).Ok?
    ensures ReadNumber(b + x, width) == Ok((ReadNumber(b, width).value.0, ReadNumber(b, width).value.1 + x))
  {
    assert (b + x)[..width] == b[..width] && (b + x)[width..] == b[width..] + x;
  }

  lemma U8Extends(b: Bytes, x: Bytes)
    requires b != []
    ensures TakeU8(b + x) == Ok((b[0], b[1..] + x))
  {
    assert (b + x)[1..] == b[1..] + x;
  }

  lemma StringExtends(b: Bytes, x: Bytes, utf8: Utf8)
    requires ReadString(b, utf8).Ok?
    ensures ReadString(b + x, utf8) == Ok((ReadString(b, utf8).value.0, ReadString(b, utf8).value.1 + x))
  {
    NumberExtends(b, x, 4);
    var (len, rest) := ReadNumber(b, 4).value;
    assert (rest + x)[..len] == rest[..len] && (rest + x)[len..] == rest[len..] + x;
  }

  lemma TypmodExtends(b: Bytes, x: Bytes)
    requires ReadTypmod(b).Ok?
    ensures ReadTypmod(b + x) == Ok((ReadTypmod(b).value.0, ReadTypmod(b).value.1 + x))
  {
    U8Extends(b, x);
    if b[0] == 1 {
      NumberExtends(b[1..], x, 2);
      NumberExtends(ReadNumber(b[1..], 2).value.1, x, 2);
    }
  }

  lemma TypeExtends(b: Bytes, x: Bytes)
    requires ReadType(b).Ok?
    ensures ReadType(b + x) == Ok((ReadType(b).value.0, ReadType(b).value.1 + x))
  {
    U8Extends(b, x);
    if b[0] == 5 {
      TypmodExtends(b[1..], x);
    } else if 7 <= b[0] <= 10 {
      U8Extends(b[1..], x);
    }
  }

  ghost predicate Extends<T(!new)>(read: Bytes -> Parsed<T>) {
    forall b: Bytes, x: Bytes | read(b).Ok? :: read(b + x) == Ok((read(b).value.0, read(b).value.1 + x))
  }

  lemma {:induction false} ManyExtends<T(!new)>(read: Bytes -> Parsed<T>, b: Bytes, x: Bytes, n: nat)
    requires Extends(read) && ReadMany(read, b, n).Ok?
    ensures ReadMany(read, b + x, n) == Ok((ReadMany(read, b, n).value.0, ReadMany(read, b, n).value.1 + x))
    decreases n
  {
    if n > 0 { ManyExtends(read, read(b).value.1, x, n - 1); }
  }

  lemma ReadersExtend(utf8: Utf8)
    ensures Extends(ColumnReader(utf8)) && Extends(PairReader(utf8))
  {
    forall b: Bytes, x: Bytes | ReadColumn(b, utf8).Ok?
      ensures ReadColumn(b + x, utf8) == Ok((ReadColumn(b, utf8).value.0, ReadColumn(b, utf8).value.1 + x))
    {
      StringExtends(b, x, utf8);
      TypeExtends(ReadString(b, utf8).value.1, x);
    }
    forall b: Bytes, x: Bytes | ReadPair(b, utf8).Ok?
      ensures ReadPair(b + x, utf8) == Ok((ReadPair(b, utf8).value.0, ReadPair(b, utf8).value.1 + x))
    {
      StringExtends(b, x, utf8);
      StringExtends(ReadString(b, utf8).value.1, x, utf8);
    }
  }

  lemma MetaExtends(b: Bytes, x: Bytes, utf8: Utf8)
    requires ReadMeta(b, utf8).Ok?
    ensures ReadMeta(b + x, utf8) == Ok((ReadMeta(b, utf8).value.0, ReadMeta(b, utf8).value.1 + x))
  {
    U8Extends(b, x);
    if b[0] == 1 {
      StringExtends(b[1..], x, utf8);
      var rest := ReadString(b[1..], utf8).value.1;
      NumberExtends(rest, x, 4);
      var (n, rest') := ReadNumber(rest, 4).value;
      ReadersExtend(utf8);
      ManyExtends(PairReader(utf8), rest', x, n);
    }
  }

  lemma BodyExtends(b: Bytes, x: Bytes, utf8: Utf8)
    requires ReadBody(b, utf8).Ok?
    ensures ReadBody(b + x, utf8) == Ok((ReadBody(b, utf8).value.0, ReadBody(b, utf8).value.1 + x))
  {
    NumberExtends(b, x, 4);
    var rest := ReadNumber(b, 4).value.1;
    NumberExtends(rest, x, 4);
    var (n, rest1) := ReadNumber(rest, 4).value;
    ReadersExtend(utf8);
    ManyExtends(ColumnReader(utf8), rest1, x, n);
    MetaExtends(ReadMany(ColumnReader(utf8), rest1, n).value.1, x, utf8);
  }

  lemma SchemaExtends(b: Bytes, x: Bytes, utf8: Utf8)
    requires ReadSchema(b, utf8).Ok?
    ensures ReadSchema(b + x, utf8) == Ok((ReadSchema(b, utf8).value.0, ReadSchema(b, utf8).value.1 + x))
  {
    U8Extends(b, x);
    BodyExtends(b[1..], x, utf8);
  }

  // ---- Round trip -------------------------------------------------------------------------------

  ghost predicate TextOk(s: Text, utf8: Utf8) { |s| < U32 && utf8(s) }

  ghost predicate TypeOk(ty: ColumnType) {
    ty.Numeric? && ty.typmod.Some? ==> ty.typmod.value.precision < 0x1_0000 && ty.typmod.value.scale < 0x1_0000
  }

  ghost predicate PairsOk(ps: seq<Pair>, utf8: Utf8) {
    forall i | 0 <= i < |ps| :: TextOk(ps[i].key, utf8) && TextOk(ps[i].value, utf8)
  }

  ghost predicate ColumnsOk(cs: seq<Column>, utf8: Utf8) {
    forall i | 0 <= i < |cs| :: TextOk(cs[i].name, utf8) && TypeOk(cs[i].ty)
  }

  /** Strings are strings, and ids, counts and lengths fit the widths they are written in. */
  ghost predicate SchemaOk(s: Schema, utf8: Utf8) {
    && s.tableId < U32 && |s.columns| < U32 && ColumnsOk(s.columns, utf8)
    && (s.foreignMeta.Some? ==>
          TextOk(s.foreignMeta.value.server, utf8) && |s.foreignMeta.value.options| < U32 &&
          PairsOk(s.foreignMeta.value.options, utf8))
  }

  lemma NumberBack(n: nat, width: nat, rest: Bytes)
    requires n < Pow256(width)
    ensures ReadNumber(Encode(n, width) + rest, width) == Ok((n, rest))
  {
    ValueOfEncode(n, width);
    var b := Encode(n, width) + rest;
    assert b[..width] == Encode(n, width) && b[width..] == rest;
  }

  lemma U32Back(n: nat, rest: Bytes)
    requires n < U32
    ensures ReadNumber(U32Bytes(n) + rest, 4) == Ok((n, rest))
  {
    U64IsPow();
    NumberBack(n, 4, rest);
  }

  lemma StringBack(s: Text, rest: Bytes, utf8: Utf8)
    requires TextOk(s, utf8)
    ensures ReadString(StrBytes(s) + rest, utf8) == Ok((s, rest))
  {
    assert StrBytes(s) + rest == U32Bytes(|s|) + (s + rest);
    U32Back(|s|, s + rest);
    assert (s + rest)[..|s|] == s && (s + rest)[|s|..] == rest;
  }

  lemma TypeBack(ty: ColumnType, rest: Bytes)
    requires TypeOk(ty)
    ensures ReadType(TypeBytes(ty) + rest) == Ok((ty, rest))
  {
    var b := TypeBytes(ty) + rest;
    assert b[0] == Tag(ty);
    if ty.Numeric? {
      if ty.typmod.Some? {
        var t := ty.typmod.value;
        assert Pow256(2) == 256 * (256 * Pow256(0)) == 0x1_0000;
        assert b[1..] == [1] + (Encode(t.precision, 2) + (Encode(t.scale, 2) + rest));
        assert b[1..][1..] == Encode(t.precision, 2) + (Encode(t.scale, 2) + rest);
        NumberBack(t.precision, 2, Encode(t.scale, 2) + rest);
        NumberBack(t.scale, 2, rest);
      } else {
        assert b[1..] == [0] + rest && b[1..][1..] == rest;
      }
    } else if Reserved(ty) {
      assert b[1..] == [0] + rest && b[1..][1..] == rest;
    } else {
      assert b[1..] == rest;
    }
  }

  lemma ColumnBack(c: Column, rest: Bytes, utf8: Utf8)
    requires TextOk(c.name, utf8) && TypeOk(c.ty)
    ensures ReadColumn(ColumnBytes(c) + rest, utf8) == Ok((c, rest))
  {
    assert ColumnBytes(c) + rest == StrBytes(c.name) + (TypeBytes(c.ty) + rest);
    StringBack(c.name, TypeBytes(c.ty) + rest, utf8);
    TypeBack(c.ty, rest);
  }

  lemma PairBack(p: Pair, rest: Bytes, utf8: Utf8)
    requires TextOk(p.key, utf8) && TextOk(p.value, utf8)
    ensures ReadPair(PairBytes(p) + rest, utf8) == Ok((p, rest))
  {
    assert PairBytes(p) + rest == StrBytes(p.key) + (StrBytes(p.value) + rest);
    StringBack(p.key, StrBytes(p.value) + rest, utf8);
    StringBack(p.value, rest, utf8);
  }

  /** A reader that inverts a writer on each element inverts the written list. */
  lemma {:induction false} ManyBack<T(!new)>(read: Bytes -> Parsed<T>, write: T -> Bytes, xs: seq<T>, rest: Bytes)
    requires forall i: nat, r: Bytes | i < |xs| :: read(write(xs[i]) + r) == Ok((xs[i], r))
    ensures ReadMany(read, WriteMany(write, xs) + rest, |xs|) == Ok((xs, rest))
  {
    if xs == [] {
      assert WriteMany(write, xs) + rest == rest;
    } else {
      assert xs == [xs[0]] + xs[1..];
      WriteFirst(write, xs[0], xs[1..]);
      var more := WriteMany(write, xs[1..]) + rest;
      assert WriteMany(write, xs) + rest == write(xs[0]) + more;
      forall i: nat, r: Bytes | i < |xs[1..]| ensures read(write(xs[1..][i]) + r) == Ok((xs[1..][i], r)) {
        assert xs[1..][i] == xs[i + 1];
      }
      ManyBack(read, write, xs[1..], rest);
      assert [xs[0]] + xs[1..] == xs;
    }
  }

  lemma WriteLast<T>(write: T -> Bytes, xs: seq<T>, x: T)
    ensures WriteMany(write, xs + [x]) == WriteMany(write, xs) + write(x)
  {
    assert (xs + [x])[..|xs|] == xs;
  }

  lemma {:induction false} WriteFirst<T>(write: T -> Bytes, x: T, ys: seq<T>)
    ensures WriteMany(write, [x] + ys) == write(x) + WriteMany(write, ys)
  {
    if ys == [] {
      WriteLast(write, [], x);
      assert [] + [x] == [x] + ys;
    } else {
      var mid, y := ys[..|ys| - 1], ys[|ys| - 1];
      WriteFirst(write, x, mid);
      WriteLast(write, [x] + mid, y);
      assert [x] + ys == [x] + mid + [y];
    }
  }

  lemma ColumnsBack(cs: seq<Column>, rest: Bytes, utf8: Utf8)
    requires ColumnsOk(cs, utf8)
    ensures ReadMany(ColumnReader(utf8), WriteMany(ColumnBytes, cs) + rest, |cs|) == Ok((cs, rest))
  {
    forall i: nat, r: Bytes | i < |cs| ensures ColumnReader(utf8)(ColumnBytes(cs[i]) + r) == Ok((cs[i], r)) {
      ColumnBack(cs[i], r, utf8);
    }
    ManyBack(ColumnReader(utf8), ColumnBytes, cs, rest);
  }

  lemma PairsBack(ps: seq<Pair>, rest: Bytes, utf8: Utf8)
    requires PairsOk(ps, utf8)
    ensures ReadMany(PairReader(utf8), WriteMany(PairBytes, ps) + rest, |ps|) == Ok((ps, rest))
  {
    forall i: nat, r: Bytes | i < |ps| ensures PairReader(utf8)(PairBytes(ps[i]) + r) == Ok((ps[i], r)) {
      PairBack(ps[i], r, utf8);
    }
    ManyBack(PairReader(utf8), PairBytes, ps, rest);
  }

  lemma MetaBack(m: Option<ForeignMeta>, utf8: Utf8)
    requires m.Some? ==> TextOk(m.value.server, utf8) && |m.value.options| < U32 && PairsOk(m.value.options, utf8)
    ensures ReadMeta(MetaBytes(m), utf8) == Ok((m, []))
  {
    if m.Some? {
      var f := m.value;
      var options := U32Bytes(|f.options|) + WriteMany(PairBytes, f.options);
      assert MetaBytes(m)[1..] == StrBytes(f.server) + options;
      StringBack(f.server, options, utf8);
      U32Back(|f.options|, WriteMany(PairBytes, f.options));
      PairsBack(f.options, [], utf8);
      assert WriteMany(PairBytes, f.options) + [] == WriteMany(PairBytes, f.options);
    } else {
      assert MetaBytes(m)[1..] == [];
    }
  }

  /** ROUND TRIP: reading a written schema gives back the same id, columns and foreign metadata and
      consumes every byte. */
  lemma RoundTrip(s: Schema, utf8: Utf8)
    requires SchemaOk(s, utf8)
    ensures ReadSchema(SchemaBytes(s), utf8) == Ok((s, []))
  {
    var meta := MetaBytes(s.foreignMeta);
    var columns := WriteMany(ColumnBytes, s.columns) + meta;
    var body := U32Bytes(s.tableId) + (U32Bytes(|s.columns|) + columns);
    assert SchemaBytes(s) == [SCHEMA_VERSION] + body;
    assert SchemaBytes(s)[1..] == body;
    U32Back(s.tableId, U32Bytes(|s.columns|) + columns);
    U32Back(|s.columns|, columns);
    ColumnsBack(s.columns, meta, utf8);
    MetaBack(s.foreignMeta, utf8);
  }

  /** No strict prefix of an encoding is accepted. */
  lemma StrictPrefixRejected(s: Schema, utf8: Utf8, n: nat)
    requires SchemaOk(s, utf8) && n < |SchemaBytes(s)|
    ensures ReadSchema(SchemaBytes(s)[..n], utf8).Err?
  {
    var b := SchemaBytes(s);
    RoundTrip(s, utf8);
    assert b[..n] + b[n..] == b;
    if ReadSchema(b[..n], utf8).Ok? { SchemaExtends(b[..n], b[n..], utf8); }
  }

  /** Two schemas with the same encoding are the same schema. */
  lemma Injective(a: Schema, b: Schema, utf8: Utf8)
    requires SchemaOk(a, utf8) && SchemaOk(b, utf8) && SchemaBytes(a) == SchemaBytes(b)
    ensures a == b
  {
    RoundTrip(a, utf8);
    RoundTrip(b, utf8);
  }

  /** The fixed part of the format: a version byte, then the id and the column count in four bytes
      each, most significant first. */
  lemma Header(s: Schema)
    requires s.tableId < U32 && |s.columns| < U32
    ensures |SchemaBytes(s)| >= 10 && SchemaBytes(s)[0] == 2
    ensures Value(SchemaBytes(s)[1..5]) == s.tableId && Value(SchemaBytes(s)[5..9]) == |s.columns|
  {
    var id, n, rest := U32Bytes(s.tableId), U32Bytes(|s.columns|), WriteMany(ColumnBytes, s.columns) + MetaBytes(s.foreignMeta);
    assert SchemaBytes(s) == [SCHEMA_VERSION] + id + n + rest;
    U32Value(s.tableId);
    U32Value(|s.columns|);
    HeaderParts(SCHEMA_VERSION, id, n, rest);
    assert MetaBytes(s.foreignMeta) != [];
  }

  lemma U32Value(n: nat)
    requires n < U32
    ensures |U32Bytes(n)| == 4 && Value(U32Bytes(n)) == n
  {
    U64IsPow();
    ValueOfEncode(n, 4);
  }

  lemma HeaderParts(v: byte, a: Bytes, b: Bytes, rest: Bytes)
    requires |a| == |b| == 4
    ensures ([v] + a + b + rest)[1..5] == a && ([v] + a + b + rest)[5..9] == b
  {}

  /** What a reader refuses: no bytes, another version, an unknown type or flag, a reserved byte
      that is not zero, and bytes that are no string. */
  lemma Refused(b: Bytes, s: Text, utf8: Utf8)
    ensures b == [] ==> ReadSchema(b, utf8) == Err(Truncated) && ReadType(b) == Err(Truncated)
    ensures b != [] && b[0] != 2 ==> ReadSchema(b, utf8) == Err(UnknownVersion(b[0]))
    ensures b != [] && b[0] > 11 ==> ReadType(b) == Err(UnknownType(b[0]))
    ensures |b| > 1 && 7 <= b[0] <= 10 && b[1] != 0 ==> ReadType(b) == Err(BadPrecision)
    ensures b != [] && b[0] > 1 ==> ReadMeta(b, utf8) == Err(UnknownFlag(b[0]))
    ensures |s| < U32 && !utf8(s) ==> ReadString(StrBytes(s) + b, utf8) == Err(NotUtf8)
  {
    if |s| < U32 {
      assert StrBytes(s) + b == U32Bytes(|s|) + (s + b);
      U32Back(|s|, s + b);
      assert (s + b)[..|s|] == s;
    }
  }

  // ---- The loops ------------------------------------------------------------------------------

  /** A counted list: its length, then its elements one by one. */
  method WriteList<T>(out: Bytes, write: T -> Bytes, xs: seq<T>) returns (out': Bytes)
    ensures out' == out + U32Bytes(|xs|) + WriteMany(write, xs)
  {
    out' := out + U32Bytes(|xs|);
    ghost var start := out';
    assert start + [] == start;
    for i := 0 to |xs|
      invariant out' == start + WriteMany(write, xs[..i])
    {
      assert xs[..i + 1][..i] == xs[..i];
      assert start + WriteMany(write, xs[..i + 1]) == start + WriteMany(write, xs[..i]) + write(xs[i]);
      out' := out' + write(xs[i]);
    }
    assert xs[..|xs|] == xs;
  }

  lemma ForeignJoins(out: Bytes, f: ForeignMeta)
    ensures out + [1] + StrBytes(f.server) + U32Bytes(|f.options|) + WriteMany(PairBytes, f.options) == out + MetaBytes(Some(f))
  {}

  /** `serialize_schema`. */
  method SerializeSchema(s: Schema) returns (out: Bytes)
    ensures out == SchemaBytes(s)
  {
    out := WriteList([SCHEMA_VERSION] + U32Bytes(s.tableId), ColumnBytes, s.columns);
    match s.foreignMeta
    case None => out := out + [0];
    case Some(f) =>
      ForeignJoins(out, f);
      out := WriteList(out + [1] + StrBytes(f.server), PairBytes, f.options);
  }

  /** Prepend what has been read already. */
  function Prepend<T>(done: seq<T>, r: Parsed<seq<T>>): Parsed<seq<T>> {
    match r case Err(e) => Err(e) case Ok((xs, rest)) => Ok((done + xs, rest))
  }

  lemma PrependOneMore<T>(done: seq<T>, x: T, r: Parsed<seq<T>>)
    ensures Prepend(done, Prepend([x], r)) == Prepend(done + [x], r)
  {
    if r.Ok? { assert done + ([x] + r.value.0) == done + [x] + r.value.0; }
  }

  /** The counted loop of a reader. */
  method ReadList<T>(read: Bytes -> Parsed<T>, b: Bytes, n: nat) returns (r: Parsed<seq<T>>)
    ensures r == ReadMany(read, b, n)
  {
    var cur, xs := b, [];
    ghost var goal := ReadMany(read, b, n);
    assert goal.Ok? ==> [] + goal.value.0 == goal.value.0;
    for i := 0 to n
      invariant goal == Prepend(xs, ReadMany(read, cur, n - i))
    {
      match read(cur)
      case Err(e) => return Err(e);
      case Ok((x, rest)) =>
        PrependOneMore(xs, x, ReadMany(read, rest, n - i - 1));
        cur, xs := rest, xs + [x];
    }
    assert xs + [] == xs;
    r := Ok((xs, cur));
  }

  /** `deserialize_schema`, which also reports the bytes it leaves unread. */
  method DeserializeSchema(b: Bytes, utf8: Utf8) returns (r: Parsed<Schema>)
    ensures r == ReadSchema(b, utf8)
  {
    if b == [] { return Err(Truncated); }
    if b[0] != SCHEMA_VERSION { return Err(UnknownVersion(b[0])); }
    var id := ReadNumber(b[1..], 4);
    if id.Err? { return Err(id.error); }
    var n := ReadNumber(id.value.1, 4);
    if n.Err? { return Err(n.error); }
    var columns := ReadList(ColumnReader(utf8), n.value.1, n.value.0);
    if columns.Err? { return Err(columns.error); }
    var flag := TakeU8(columns.value.1);
    if flag.Err? { return Err(flag.error); }
    var cur := flag.value.1;
    if flag.value.0 == 0 { return Ok((Schema(id.value.0, columns.value.0, None), cur)); }
    if flag.value.0 != 1 { return Err(UnknownFlag(flag.value.0)); }
    var server := ReadString(cur, utf8);
    if server.Err? { return Err(server.error); }
    var count := ReadNumber(server.value.1, 4);
    if count.Err? { return Err(count.error); }
    var options := ReadList(PairReader(utf8), count.value.1, count.value.0);
    if options.Err? { return Err(options.error); }
    return Ok((Schema(id.value.0, columns.value.0, Some(ForeignMeta(server.value.0, options.value.0))), options.value.1));
  }
}
