/** What passes between the driver and the client library, and the server behind it:
    an arbitrary deterministic machine whose state is the log of work done in it. */
module Server {
  import opened MachineInts
  import opened Clock

  datatype Option<+T> = None | Some(value: T)

  newtype byte = x: int | 0 <= x < 256

  /** The column types the driver distinguishes. */
  datatype FieldType = MyInt32 | MyInt64 | MyDbl | MyStr | MyDate | MyDateTime | MyTime | MyRaw | MyLgl

  // ----- Parameters -----

  /** One element of an R vector; Missing stands for NA (and for a NULL list element),
      NaN for the doubles that are neither a number nor NA. */
  datatype Scalar =
    | Missing
    | Logical(truth: bool)
    | Integer(int32: int32)
    | Number(x: real)
    | NaN
    | Bytes(bytes: seq<byte>)
    | Integer64(int64: int)

  /** An R vector, and the type the driver would bind it as (None: unsupported). */
  datatype Column = Column(kind: Option<FieldType>, values: seq<Scalar>)

  predicate HasType(v: Scalar, kind: FieldType) {
    match v
    case Missing => true
    case Logical(_) => kind == MyLgl
    case Integer(_) => kind == MyInt32
    case Number(_) => kind in {MyDbl, MyDate, MyDateTime, MyTime}
    case NaN => kind in {MyDbl, MyDate, MyDateTime, MyTime}
    case Bytes(_) => kind in {MyStr, MyRaw}
    case Integer64(_) => kind == MyInt64
  }

  /** R vectors are homogeneous. */
  predicate WellTyped(column: Column) {
    column.kind.Some? ==>
      forall i :: 0 <= i < |column.values| ==> HasType(column.values[i], column.kind.value)
  }

  /** A parameter as it reaches the server. Wild is what a read through a null
      pointer, or past the end of a value, would deliver. */
  datatype Sent = Null | Plain(kind: FieldType, value: Scalar) | Timed(kind: FieldType, time: MysqlTime) | Wild

  // ----- Results -----

  /** A cell of a result row as the server holds it. */
  datatype Cell = NullCell | BytesCell(bytes: seq<byte>) | TimeCell(time: MysqlTime)

  type Row = seq<Cell>

  // ----- The server -----

  datatype Work = Work(sql: string, args: seq<Sent>)

  type Log = seq<Work>

  /** Answer to an execution: whether it succeeded, the work it added (a failed
      statement may leave some behind), the number of rows it affected, and the rows of
      its result, whose transfer may break off after the last of them. */
  datatype Reply = Reply(ok: bool, effect: Log, affected: nat, rows: seq<Row>, broken: bool)

  /** Number of parameters, the result metadata known at preparation and after an
      execution (a procedure call reports its columns only then), and whether the
      library accepts buffers for the result columns. */
  datatype Prepared = Prepared(
    nParams: nat,
    fields: Option<seq<FieldType>>,
    lateFields: Option<seq<FieldType>>,
    bindable: bool)

  datatype PrepareReply = UnsupportedProtocol | PrepareFailed | PrepareOk(prepared: Prepared)

  datatype Server = Server(prepare: string -> PrepareReply, run: (Log, Work) -> Reply)

  /** What the library answers for a statement whose connection has been closed. */
  function DeadReply(log: Log, work: Work): Reply {
    Reply(false, [], 0, [], false)
  }
}
