/** The binary partition table that is compared with, and written into, flash images. */
module PartitionTable {
  import opened Bytes

  const RECORD: nat := 32
  const TABLE: nat := 0xC00
  const LABEL_MAX: nat := 15
  const LABEL_FIELD: nat := 16

  datatype Kind = App | Data | OtherKind

  datatype Subtype = OtaSlot(slot: nat) | OtaData | Nvs | CoreDump | Spiffs | OtherSubtype

  /** A catalogue row; the label is its UTF-8 encoding. */
  datatype Row = Row(name: Bytes, kind: Kind, subtype: Subtype, offset: nat, size: nat)

  datatype Failure = LabelTooLong | UnknownType | OutOfRange | TooManyRows

  datatype Outcome<T> = Made(value: T) | Refused(failure: Failure)

  function KindCode(kind: Kind): Option<byte> {
    match kind
    case App => Some(0)
    case Data => Some(1)
    case OtherKind => None
  }

  function SubtypeCode(kind: Kind, subtype: Subtype): Option<byte> {
    match (kind, subtype)
    case (App, OtaSlot(i)) => if i < 16 then Some(0x10 + i) else None
    case (Data, OtaData) => Some(0)
    case (Data, Nvs) => Some(2)
    case (Data, CoreDump) => Some(3)
    case (Data, Spiffs) => Some(0x82)
    case _ => None
  }

  function ToLittleEndian(v: nat, n: nat): (s: Bytes)
    ensures |s| == n
  {
    if n == 0 then [] else [v % 256] + ToLittleEndian(v / 256, n - 1)
  }

  function LittleEndian(s: Bytes): nat {
    if s == [] then 0 else s[0] + 256 * LittleEndian(s[1..])
  }

  function Zeros(n: nat): (z: Bytes)
    ensures |z| == n && forall i :: 0 <= i < n ==> z[i] == 0
  {
    seq(n, _ => 0)
  }

  predicate Encodable(r: Row) {
    && |r.name| <= LABEL_MAX
    && KindCode(r.kind).Some? && SubtypeCode(r.kind, r.subtype).Some?
    && r.offset < 0x1_0000_0000 && r.size < 0x1_0000_0000
  }

  function WhyNot(r: Row): Failure {
    if |r.name| > LABEL_MAX then LabelTooLong
    else if KindCode(r.kind).None? || SubtypeCode(r.kind, r.subtype).None? then UnknownType
    else OutOfRange
  }

  /** One record: magic, type, subtype, offset, size, zero-padded label, flags. */
  function Record(r: Row): (b: Bytes)
    requires Encodable(r)
    ensures |b| == RECORD
  {
    [0xAA, 0x50, KindCode(r.kind).value, SubtypeCode(r.kind, r.subtype).value]
      + ToLittleEndian(r.offset, 4) + ToLittleEndian(r.size, 4)
      + (r.name + Zeros(LABEL_FIELD - |r.name|)) + ToLittleEndian(0, 4)
  }

  function Records(rows: seq<Row>): (b: Bytes)
    requires forall i :: 0 <= i < |rows| ==> Encodable(rows[i])
    ensures |b| == RECORD * |rows|
  {
    if rows == [] then [] else Records(rows[..|rows| - 1]) + Record(rows[|rows| - 1])
  }

  function Erased(n: nat): (e: Bytes)
    ensures |e| == n
  {
    seq(n, _ => 0xFF)
  }

  /** The checksum record: its own magic, fourteen erased octets and the MD5 of the rows. */
  function Trailer(md5: Bytes -> Bytes, records: Bytes): Bytes {
    [0xEB, 0xEB] + Erased(14) + md5(records)
  }

  predicate AllEncodable(rows: seq<Row>) {
    forall i :: 0 <= i < |rows| ==> Encodable(rows[i])
  }

  /** The table of a list of rows, filling its part of the sector. */
  function TableOf(md5: Bytes -> Bytes, rows: seq<Row>): (t: Bytes)
    requires AllEncodable(rows) && |Records(rows) + Trailer(md5, Records(rows))| <= TABLE
    ensures |t| == TABLE
  {
    var used := Records(rows) + Trailer(md5, Records(rows));
    used + Erased(TABLE - |used|)
  }

  method PartitionBinary(md5: Bytes -> Bytes, rows: seq<Row>) returns (out: Outcome<Bytes>)
    ensures out.Made? <==> AllEncodable(rows) && |Records(rows) + Trailer(md5, Records(rows))| <= TABLE
    ensures out.Made? ==> out.value == TableOf(md5, rows)
    ensures out.Refused? && !AllEncodable(rows) ==>
      exists i :: 0 <= i < |rows| && !Encodable(rows[i]) && AllEncodable(rows[..i]) && out.failure == WhyNot(rows[i])
    ensures out.Refused? && AllEncodable(rows) ==> out.failure == TooManyRows
  {
    hide Record, Trailer;
    var records: Bytes := [];
    assert rows[..0] == [];
    for i := 0 to |rows|
      invariant AllEncodable(rows[..i]) && records == Records(rows[..i])
    {
      var row := rows[i];
      if |row.name| > LABEL_MAX {
        return Refused(LabelTooLong);
      }
      if KindCode(row.kind).None? || SubtypeCode(row.kind, row.subtype).None? {
        return Refused(UnknownType);
      }
      if row.offset >= 0x1_0000_0000 || row.size >= 0x1_0000_0000 {
        return Refused(OutOfRange);
      }
      assert rows[..i + 1][..i] == rows[..i];
      records := records + Record(row);
    }
    assert rows[..|rows|] == rows;
    records := records + Trailer(md5, records);
    if |records| > TABLE {
      return Refused(TooManyRows);
    }
    return Made(records + Erased(TABLE - |records|));
  }

  // ---- The octets of a table -----------------------------------------------------------------

  /** The type and subtype octets: application slots 0 to 15, and four kinds of data. */
  predicate Codes(r: Row, kind: byte, subtype: byte) {
    || (r.kind.App? && kind == 0 && r.subtype.OtaSlot? && r.subtype.slot < 16 && subtype == 0x10 + r.subtype.slot)
    || (r.kind.Data? && kind == 1 && r.subtype.OtaData? && subtype == 0x00)
    || (r.kind.Data? && kind == 1 && r.subtype.Nvs? && subtype == 0x02)
    || (r.kind.Data? && kind == 1 && r.subtype.CoreDump? && subtype == 0x03)
    || (r.kind.Data? && kind == 1 && r.subtype.Spiffs? && subtype == 0x82)
  }

  /** Four octets with the low one first. */
  predicate Word(b: Bytes, v: nat) {
    |b| == 4 && (var o0: nat, o1: nat, o2: nat, o3: nat := b[0], b[1], b[2], b[3];
                 v == o0 + 0x100 * o1 + 0x1_0000 * o2 + 0x100_0000 * o3)
  }

  /** A row that a record can hold. */
  lemma EncodableMeans(r: Row)
    ensures Encodable(r) <==>
              |r.name| <= 15 && (exists k, s :: Codes(r, k, s)) && r.offset <= 0xFFFF_FFFF && r.size <= 0xFFFF_FFFF
    ensures |r.name| > 15 ==> WhyNot(r) == LabelTooLong
    ensures |r.name| <= 15 && (forall k, s :: !Codes(r, k, s)) ==> WhyNot(r) == UnknownType
    ensures |r.name| <= 15 && (exists k, s :: Codes(r, k, s)) ==> WhyNot(r) == OutOfRange
  {
    if KindCode(r.kind).Some? && SubtypeCode(r.kind, r.subtype).Some? {
      assert Codes(r, KindCode(r.kind).value, SubtypeCode(r.kind, r.subtype).value);
    }
  }

  lemma WordDigits(v: nat)
    requires v < 0x1_0000_0000
    ensures Word(ToLittleEndian(v, 4), v)
  {
    var a, b, c := v / 256, v / 256 / 256, v / 256 / 256 / 256;
    assert ToLittleEndian(c, 1) == [c % 256] + ToLittleEndian(c / 256, 0);
    assert ToLittleEndian(b, 2) == [b % 256] + ToLittleEndian(c, 1);
    assert ToLittleEndian(a, 3) == [a % 256] + ToLittleEndian(b, 2);
    assert ToLittleEndian(v, 4) == [v % 256] + ToLittleEndian(a, 3);
  }

  /** The thirty-two octets of a row. */
  lemma RecordOctets(r: Row)
    requires Encodable(r)
    ensures var b := Record(r);
            && |b| == 32 && b[0] == 0xAA && b[1] == 0x50 && Codes(r, b[2], b[3])
            && Word(b[4..8], r.offset) && Word(b[8..12], r.size)
            && b[12..12 + |r.name|] == r.name && (forall i :: 12 + |r.name| <= i < 32 ==> b[i] == 0)
  {
    WordDigits(r.offset);
    WordDigits(r.size);
    hide ToLittleEndian, Word;
    RecordLayout(r, []);
    assert Record(r) + [] == Record(r);
    LastWord();
  }

  lemma LastWord()
    ensures ToLittleEndian(0, 4) == [0, 0, 0, 0]
  {
    assert ToLittleEndian(0, 1) == [0] + ToLittleEndian(0, 0);
    assert ToLittleEndian(0, 2) == [0] + ToLittleEndian(0, 1);
    assert ToLittleEndian(0, 3) == [0] + ToLittleEndian(0, 2);
  }

  lemma {:induction false} RecordStands(rows: seq<Row>, k: nat)
    requires AllEncodable(rows) && k < |rows|
    ensures Records(rows)[32 * k..32 * k + 32] == Record(rows[k])
  {
    hide Record;
    var n := |rows| - 1;
    if k < n {
      RecordStands(rows[..n], k);
      assert Records(rows)[32 * k..32 * k + 32] == Records(rows[..n])[32 * k..32 * k + 32];
    }
  }

  /** A table is 3072 octets: its records, two octets 0xEB, fourteen erased ones, the MD5 of the records, and erased ones. */
  lemma TableOctets(md5: Bytes -> Bytes, rows: seq<Row>)
    requires AllEncodable(rows) && |md5(Records(rows))| == 16
    ensures |Records(rows) + Trailer(md5, Records(rows))| <= TABLE <==> |rows| <= 95
    ensures |rows| <= 95 ==>
              var t, n := TableOf(md5, rows), 32 * |rows|;
              && |t| == 3072 && t[..n] == Records(rows) && t[n] == t[n + 1] == 0xEB
              && (forall i :: n + 2 <= i < n + 16 ==> t[i] == 0xFF)
              && t[n + 16..n + 32] == md5(Records(rows))
              && (forall i :: n + 32 <= i < 3072 ==> t[i] == 0xFF)
  {
    hide Records;
  }

  // ---- Reading a table back ------------------------------------------------------------------

  /** What a record says. */
  datatype Fields = Fields(kindCode: byte, subtypeCode: byte, offset: nat, size: nat, name: Bytes)

  function Stripped(name: Bytes): Bytes {
    if name != [] && name[|name| - 1] == 0 then Stripped(name[..|name| - 1]) else name
  }

  function ReadRecord(b: Bytes): Fields
    requires |b| >= RECORD
  {
    Fields(b[2], b[3], LittleEndian(b[4..8]), LittleEndian(b[8..12]), Stripped(b[12..28]))
  }

  /** Records are read while their magic lasts. */
  function ReadTable(b: Bytes): seq<Fields> {
    if |b| >= RECORD && b[..2] == [0xAA, 0x50] then [ReadRecord(b)] + ReadTable(b[RECORD..]) else []
  }

  function FieldsOf(r: Row): Fields
    requires Encodable(r)
  {
    Fields(KindCode(r.kind).value, SubtypeCode(r.kind, r.subtype).value, r.offset, r.size, r.name)
  }

  function AllFields(rows: seq<Row>): (f: seq<Fields>)
    requires AllEncodable(rows)
    ensures |f| == |rows|
  {
    if rows == [] then [] else [FieldsOf(rows[0])] + AllFields(rows[1..])
  }

  /** The label does not itself end in the padding. */
  predicate PlainLabel(r: Row) {
    r.name == [] || r.name[|r.name| - 1] != 0
  }

  lemma {:induction false} LittleEndianInverse(v: nat, n: nat)
    requires v < Pow256(n)
    ensures LittleEndian(ToLittleEndian(v, n)) == v
  {
    if n > 0 {
      LittleEndianInverse(v / 256, n - 1);
      assert ToLittleEndian(v, n)[1..] == ToLittleEndian(v / 256, n - 1);
    }
  }

  lemma {:induction false} StripPadding(name: Bytes, n: nat)
    requires name == [] || name[|name| - 1] != 0
    ensures Stripped(name + Zeros(n)) == name
  {
    var padded := name + Zeros(n);
    if n > 0 {
      StripPadding(name, n - 1);
      assert padded[..|padded| - 1] == name + Zeros(n - 1);
    } else {
      assert padded == name;
    }
  }

  lemma RecordLayout(r: Row, rest: Bytes)
    requires Encodable(r)
    ensures var b := Record(r) + rest;
            && b[..2] == [0xAA, 0x50] && b[2] == KindCode(r.kind).value && b[3] == SubtypeCode(r.kind, r.subtype).value
            && b[4..8] == ToLittleEndian(r.offset, 4) && b[8..12] == ToLittleEndian(r.size, 4)
            && b[12..28] == r.name + Zeros(LABEL_FIELD - |r.name|) && b[RECORD..] == rest
  {
    hide ToLittleEndian, Zeros, KindCode, SubtypeCode;
  }

  lemma RecordReads(r: Row, rest: Bytes)
    requires Encodable(r) && PlainLabel(r)
    ensures ReadRecord(Record(r) + rest) == FieldsOf(r)
  {
    hide Record, ToLittleEndian, Zeros, KindCode, SubtypeCode, LittleEndian, Stripped;
    RecordLayout(r, rest);
    WidthValues();
    LittleEndianInverse(r.offset, 4);
    LittleEndianInverse(r.size, 4);
    StripPadding(r.name, LABEL_FIELD - |r.name|);
  }

  lemma {:induction false} RecordsFront(rows: seq<Row>)
    requires AllEncodable(rows) && rows != []
    ensures Records(rows) == Record(rows[0]) + Records(rows[1..])
    decreases |rows|
  {
    hide Record;
    if |rows| == 1 {
      assert Records(rows[..0]) == [] && Records(rows[1..]) == [];
    } else {
      var n := |rows| - 1;
      RecordsFront(rows[..n]);
      assert rows[..n][1..] == rows[1..][..n - 1];
      assert Records(rows[1..]) == Records(rows[1..][..n - 1]) + Record(rows[n]);
      Associates(Record(rows[0]), Records(rows[1..][..n - 1]), Record(rows[n]));
    }
  }

  lemma {:induction false} RecordsRead(rows: seq<Row>, rest: Bytes)
    requires AllEncodable(rows) && (forall i :: 0 <= i < |rows| ==> PlainLabel(rows[i]))
    requires |rest| >= 2 && rest[..2] == [0xEB, 0xEB]
    ensures ReadTable(Records(rows) + rest) == AllFields(rows)
    decreases |rows|
  {
    hide Record, ReadRecord, FieldsOf;
    var b := Records(rows) + rest;
    if rows == [] {
      assert b == rest;
    } else {
      RecordsFront(rows);
      var tail := Records(rows[1..]) + rest;
      Associates(Record(rows[0]), Records(rows[1..]), rest);
      RecordLayout(rows[0], tail);
      RecordReads(rows[0], tail);
      RecordsRead(rows[1..], rest);
    }
  }

  /** A reader of the table format finds exactly the rows the table was made from. */
  lemma TableReadsBack(md5: Bytes -> Bytes, rows: seq<Row>)
    requires AllEncodable(rows) && |Records(rows) + Trailer(md5, Records(rows))| <= TABLE
    requires forall i :: 0 <= i < |rows| ==> PlainLabel(rows[i])
    ensures ReadTable(TableOf(md5, rows)) == AllFields(rows)
  {
    hide Records, ReadTable, AllFields;
    var trailer := Trailer(md5, Records(rows));
    var rest := trailer + Erased(TABLE - |Records(rows) + trailer|);
    Associates(Records(rows), trailer, Erased(TABLE - |Records(rows) + trailer|));
    RecordsRead(rows, rest);
  }

  lemma FieldsDiffer(a: Row, b: Row)
    requires Encodable(a) && Encodable(b)
    ensures FieldsOf(a) == FieldsOf(b) <==> a == b
  {
  }

  lemma {:induction false} AllFieldsDiffer(a: seq<Row>, b: seq<Row>)
    requires AllEncodable(a) && AllEncodable(b) && AllFields(a) == AllFields(b)
    ensures a == b
  {
    hide FieldsOf;
    if a != [] && b != [] {
      FieldsDiffer(a[0], b[0]);
      assert AllFields(a)[1..] == AllFields(a[1..]) && AllFields(b)[1..] == AllFields(b[1..]);
      AllFieldsDiffer(a[1..], b[1..]);
      assert a == [a[0]] + a[1..] && b == [b[0]] + b[1..];
    }
  }

  /** So comparing table octets compares layouts: no two row lists share a table. */
  lemma TableIsInjective(md5: Bytes -> Bytes, a: seq<Row>, b: seq<Row>)
    requires AllEncodable(a) && |Records(a) + Trailer(md5, Records(a))| <= TABLE
    requires AllEncodable(b) && |Records(b) + Trailer(md5, Records(b))| <= TABLE
    requires forall i :: 0 <= i < |a| ==> PlainLabel(a[i])
    requires forall i :: 0 <= i < |b| ==> PlainLabel(b[i])
    requires TableOf(md5, a) == TableOf(md5, b)
    ensures a == b
  {
    hide TableOf, AllFields, ReadTable;
    TableReadsBack(md5, a);
    TableReadsBack(md5, b);
    AllFieldsDiffer(a, b);
  }
}
