/** MariaRow: the buffers that result rows are received in, reused from row to row. */
module ResultRow {
  import opened MachineInts
  import opened Clock
  import opened Server
  import opened Encoding

  /** A column buffer: plain bytes, or bytes that hold a MYSQL_TIME. */
  datatype Buffer = ByteBuffer(bytes: seq<byte>) | TimeBuffer(time: MysqlTime)

  /** The part of a MYSQL_BIND that changes: whether it points at the column's buffer,
      and how many bytes the library may write there. */
  datatype ResultBind = ResultBind(attached: bool, bufferLength: nat)

  /** An element of a data frame column. Unset is the content of a new vector. */
  datatype Value =
    | Unset
    | NA
    | Int(int32: int32)
    | Verbatim(bytes: seq<byte>)  // the eight bytes of an integer64 or a double
    | Bool(truth: bool)
    | Text(bytes: seq<byte>)
    | Blob(bytes: seq<byte>)
    | Real(x: real)

  function LittleEndian(bytes: seq<byte>): nat {
    if bytes == [] then 0 else bytes[0] as nat + 256 * LittleEndian(bytes[1..])
  }

  /** The bytes of a number, the least significant first. */
  function BytesOf(n: nat, len: nat): (bytes: seq<byte>)
    ensures |bytes| == len && (len > 0 ==> bytes[0] as nat == n % 256)
  {
    if len == 0 then [] else [(n % 256) as byte] + BytesOf(n / 256, len - 1)
  }

  function Pow256(len: nat): (p: nat)
    ensures p > 0
  {
    if len == 0 then 1 else 256 * Pow256(len - 1)
  }

  /** The value of the bytes of a number is the number, if they are enough for it. */
  lemma {:induction false} LittleEndianBytes(n: nat, len: nat)
    requires n < Pow256(len)
    ensures LittleEndian(BytesOf(n, len)) == n
    decreases len
  {
    if len == 0 {
    } else {
      LittleEndianBytes(n / 256, len - 1);
      assert BytesOf(n, len)[1..] == BytesOf(n / 256, len - 1);
    }
  }

  /** The int stored in four bytes. */
  function IntOf(bytes: seq<byte>): int32
    requires |bytes| == 4
  {
    var n := bytes[0] as int + 256 * bytes[1] as int + 65536 * bytes[2] as int + 16777216 * bytes[3] as int;
    ToSigned(n as uint32)
  }

  /** What the protocol sends for a column of a type; BIT(1) travels as one byte. */
  predicate Conforms(cell: Cell, kind: FieldType) {
    match cell
    case NullCell => true
    case TimeCell(t) => kind == MyTime || (kind in {MyDate, MyDateTime} && Decodable(t))
    case BytesCell(bytes) =>
      match kind
      case MyInt32 => |bytes| == 4
      case MyInt64 => |bytes| == 8
      case MyDbl => |bytes| == 8
      case MyLgl => |bytes| == 1
      case MyStr => true
      case MyRaw => true
      case _ => false
  }

  predicate RowConforms(row: Row, types: seq<FieldType>) {
    |row| == |types| && forall j :: 0 <= j < |row| ==> Conforms(row[j], types[j])
  }

  /** The R value that a server cell stands for. */
  function Decode(cell: Cell, kind: FieldType): Value
    requires Conforms(cell, kind)
  {
    match cell
    case NullCell => NA
    case TimeCell(t) =>
      Real(if kind == MyDate then DateValue(t) else if kind == MyDateTime then DateTimeValue(t) else TimeValue(t))
    case BytesCell(bytes) =>
      match kind
      case MyInt32 => Int(IntOf(bytes))
      case MyLgl => Bool(bytes == [1])
      case MyStr => Text(bytes)
      case MyRaw => Blob(bytes)
      case _ => Verbatim(bytes)
  }

  lemma FourBytes(u: nat)
    requires u < 0x1_0000_0000
    ensures u == u % 256 + 256 * (u / 256 % 256) + 65536 * (u / 65536 % 256) + 16777216 * (u / 16777216 % 256)
  {
    var u1 := u / 256;
    var u2 := u1 / 256;
    assert u2 == u / 65536 && u2 / 256 == u / 16777216;
  }

  /** Every int arrives as itself, if its four bytes do, the least significant first. */
  lemma IntArrives(n: int32, bytes: seq<byte>)
    requires |bytes| == 4
    requires var u := n as int % 0x1_0000_0000;
             && bytes[0] as int == u % 256 && bytes[1] as int == u / 256 % 256
             && bytes[2] as int == u / 65536 % 256 && bytes[3] as int == u / 16777216 % 256
    ensures Conforms(BytesCell(bytes), MyInt32) && Decode(BytesCell(bytes), MyInt32) == Int(n)
  {
    FourBytes(n as int % 0x1_0000_0000);
  }

  /** A BIT(1) arrives as TRUE exactly if it is set, text and blobs arrive with their bytes, an
      integer64 or a double with its eight bytes, and NULL as NA in every column. */
  lemma BytesArrive(bytes: seq<byte>, kind: FieldType)
    ensures Conforms(NullCell, kind) && Decode(NullCell, kind) == NA
    ensures |bytes| == 1 ==>
              && Conforms(BytesCell(bytes), MyLgl)
              && Decode(BytesCell(bytes), MyLgl) == Bool(bytes[0] == 1)
    ensures Conforms(BytesCell(bytes), MyStr) && Decode(BytesCell(bytes), MyStr) == Text(bytes)
    ensures Conforms(BytesCell(bytes), MyRaw) && Decode(BytesCell(bytes), MyRaw) == Blob(bytes)
    ensures |bytes| == 8 && kind in {MyInt64, MyDbl} ==>
              Conforms(BytesCell(bytes), kind) && Decode(BytesCell(bytes), kind) == Verbatim(bytes)
  {}

  /** Without column metadata no buffers are bound and nothing of a row arrives. */
  predicate Receivable(row: Row, types: seq<FieldType>) {
    types != [] ==> RowConforms(row, types)
  }

  predicate AllReceivable(rows: seq<Row>, types: seq<FieldType>) {
    forall i :: 0 <= i < |rows| ==> Receivable(rows[i], types)
  }

  function DecodedRow(row: Row, types: seq<FieldType>): (values: seq<Value>)
    requires Receivable(row, types)
  {
    seq(|types|, j requires 0 <= j < |types| => Decode(row[j], types[j]))
  }

  function DecodedRows(rows: seq<Row>, types: seq<FieldType>): (decoded: seq<seq<Value>>)
    requires AllReceivable(rows, types)
    ensures |decoded| == |rows|
  {
    seq(|rows|, i requires 0 <= i < |rows| => DecodedRow(rows[i], types))
  }

  lemma DecodedConcat(a: seq<Row>, b: seq<Row>, types: seq<FieldType>)
    requires AllReceivable(a, types) && AllReceivable(b, types)
    ensures AllReceivable(a + b, types) && DecodedRows(a + b, types) == DecodedRows(a, types) + DecodedRows(b, types)
  {}

  predicate IsTimed(kind: FieldType) { kind in {MyDate, MyDateTime, MyTime} }

  predicate IsVariable(kind: FieldType) { kind in {MyStr, MyRaw} }

  /** Writes the first bytes of `bytes` over the front of a buffer. */
  function Overwrite(buffer: seq<byte>, bytes: seq<byte>): seq<byte> {
    if |bytes| <= |buffer| then bytes + buffer[|bytes|..] else bytes[..|buffer|]
  }

  class MariaRow {
    var types: seq<FieldType>
    var buffers: seq<Buffer>
    var lengths: seq<nat>
    var nulls: seq<bool>
    var binds: seq<ResultBind>

    /** String and blob columns offer no buffer between two rows, and the upper bytes
        of a BIT(1) buffer are zero. */
    ghost predicate Valid()
      reads this
    {
      && |types| == |buffers| == |lengths| == |nulls| == |binds|
      && forall j :: 0 <= j < |types| ==> ColumnValid(types[j], buffers[j], binds[j])
    }

    static ghost predicate ColumnValid(kind: FieldType, buffer: Buffer, bind: ResultBind) {
      if IsVariable(kind) then buffer.ByteBuffer? && bind == ResultBind(false, 0)
      else if IsTimed(kind) then buffer.TimeBuffer? && bind == ResultBind(true, TIME_SIZE)
      else
        && buffer.ByteBuffer?
        && bind == ResultBind(true, FixedSize(kind))
        && |buffer.bytes| == FixedSize(kind)
        && (kind == MyLgl ==> buffer.bytes[1..] == [0, 0, 0])
    }

    /** The buffers hold a row, as far as the library fills them by itself. */
    ghost predicate Holds(row: Row)
      requires Valid()
      reads this
    {
      && RowConforms(row, types)
      && forall j :: 0 <= j < |row| ==> ColumnHolds(row[j], types[j], buffers[j], lengths[j], nulls[j])
    }

    static ghost predicate ColumnHolds(cell: Cell, kind: FieldType, buffer: Buffer, length: nat, isNull: bool) {
      match cell
      case NullCell => isNull
      case TimeCell(t) => !isNull && buffer == TimeBuffer(t)
      case BytesCell(bytes) =>
        && !isNull
        && length == |bytes|
        && (kind == MyLgl ==> buffer == ByteBuffer(bytes + [0, 0, 0]))
        && (!IsVariable(kind) && kind != MyLgl ==> buffer == ByteBuffer(bytes))
    }

    constructor ()
      ensures Valid() && types == []
    {
      types, buffers, lengths, nulls, binds := [], [], [], [], [];
    }

    static function FixedSize(kind: FieldType): nat {
      match kind
      case MyInt32 => 4
      case MyLgl => 4
      case MyInt64 => 8
      case MyDbl => 8
      case _ => 0
    }

    static function ZeroBuffer(kind: FieldType): Buffer {
      if IsTimed(kind) then TimeBuffer(ZERO_TIME) else ByteBuffer(seq(FixedSize(kind), _ => 0))
    }

    /** Prepares zeroed buffers for the columns of a result. */
    method Setup(columnTypes: seq<FieldType>)
      modifies this
      ensures Valid() && types == columnTypes
      ensures forall j :: 0 <= j < |types| ==> buffers[j] == ZeroBuffer(types[j]) && !nulls[j]
    {
      types := columnTypes;
      var n := |types|;
      buffers := [];
      lengths := [];
      nulls := [];
      binds := [];
      for j := 0 to n
        invariant types == columnTypes && n == |types|
        invariant |buffers| == |lengths| == |nulls| == |binds| == j
        invariant forall k :: 0 <= k < j ==> ColumnValid(types[k], buffers[k], binds[k])
        invariant forall k :: 0 <= k < j ==> buffers[k] == ZeroBuffer(types[k]) && !nulls[k]
      {
        var size := if IsTimed(types[j]) then TIME_SIZE else FixedSize(types[j]);
        buffers := buffers + [ZeroBuffer(types[j])];
        lengths := lengths + [size];
        binds := binds + [ResultBind(size > 0, size)];
        nulls := nulls + [false];
      }
    }

    /** What `mysql_stmt_fetch` does to the buffers: it sets the null flag and the full
        length of each cell and writes no more bytes than the binding allows. */
    method Receive(row: Row)
      requires Valid() && RowConforms(row, types)
      modifies `buffers, `lengths, `nulls
      ensures Valid() && Holds(row)
    {
      for j := 0 to |types|
        invariant Valid()
        invariant forall k :: 0 <= k < j ==> ColumnHolds(row[k], types[k], buffers[k], lengths[k], nulls[k])
      {
        match row[j] {
          case NullCell =>
            nulls := nulls[j := true];
          case TimeCell(t) =>
            nulls := nulls[j := false];
            buffers := buffers[j := TimeBuffer(t)];
          case BytesCell(bytes) =>
            nulls := nulls[j := false];
            lengths := lengths[j := |bytes|];
            if binds[j].attached {
              buffers := buffers[j := ByteBuffer(Overwrite(buffers[j].bytes, bytes))];
            }
        }
      }
    }

    /** Delivers column j of the current row of the statement. */
    method SetListValue(current: Row, j: nat) returns (v: Value)
      requires Valid() && Holds(current) && j < |types|
      modifies `buffers, `binds
      ensures Valid() && Holds(current)
      ensures v == Decode(current[j], types[j])
    {
      if nulls[j] {
        return NA;
      }
      match types[j] {
        case MyInt32 =>
          v := Int(IntOf(buffers[j].bytes));
        case MyLgl =>
          v := Bool(IntOf(buffers[j].bytes) == 1);
        case MyDate =>
          v := Real(DateValue(buffers[j].time));
        case MyDateTime =>
          v := Real(DateTimeValue(buffers[j].time));
        case MyTime =>
          v := Real(TimeValue(buffers[j].time));
        case MyStr =>
          FetchBuffer(current, j);
          v := Text(buffers[j].bytes);
        case MyRaw =>
          FetchBuffer(current, j);
          v := Blob(buffers[j].bytes[..lengths[j]]);
        case _ =>
          v := Verbatim(buffers[j].bytes);
      }
    }

    /** Fetches a string or blob again, into a buffer of its length, and takes the
        buffer back from the binding for the next row. */
    method FetchBuffer(current: Row, j: nat)
      requires Valid() && Holds(current) && j < |types| && IsVariable(types[j]) && !nulls[j]
      modifies `buffers, `binds
      ensures Valid() && Holds(current)
      ensures buffers[j] == ByteBuffer(current[j].bytes)
    {
      var length := lengths[j];
      buffers := buffers[j := ByteBuffer(seq(length, _ => 0))];
      if length == 0 {
        return;
      }
      binds := binds[j := ResultBind(true, length)];
      // mysql_stmt_fetch_column
      buffers := buffers[j := ByteBuffer(Overwrite(buffers[j].bytes, current[j].bytes))];
      binds := binds[j := ResultBind(false, 0)];
    }
  }
}
