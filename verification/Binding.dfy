/** MariaBinding: walks a table of parameters and points the statement's bindings at
    one row after the other. */
module Binding {
  import opened MachineInts
  import opened Clock
  import opened Calendar
  import opened CivilDays
  import opened Server
  import opened Encoding

  /** Where the library reads a parameter from when it executes. */
  datatype Pointer = NullPointer | ToValue(value: Scalar) | ToTimeBuffer(index: nat)

  datatype MysqlBind = MysqlBind(buffer: Pointer, bufferLength: nat, kind: FieldType)

  const UNBOUND := MysqlBind(NullPointer, 0, MyDbl)

  /** `std::vector::resize`: keeps the front, pads with a default. */
  function Resized<T>(v: seq<T>, n: nat, pad: T): (r: seq<T>)
    ensures |r| == n
    ensures forall k :: 0 <= k < n && k < |v| ==> r[k] == v[k]
    ensures n == |v| ==> r == v
  {
    if n <= |v| then v[..n] else v + seq(n - |v|, _ => pad)
  }

  /** What the library reads through a binding. */
  function Read(b: MysqlBind, timeBuffers: seq<MysqlTime>): Sent {
    match b.buffer
    case NullPointer => Wild
    case ToTimeBuffer(k) => if k < |timeBuffers| then Timed(b.kind, timeBuffers[k]) else Wild
    case ToValue(v) =>
      if !v.Bytes? then Plain(b.kind, v)
      else if b.bufferLength <= |v.bytes| then Plain(b.kind, Bytes(v.bytes[..b.bufferLength]))
      else Wild
  }

  /** Columns of one length, of the bound types, whose values have an encoding. */
  predicate Coherent(params: seq<Column>, types: seq<FieldType>, nRows: nat) {
    && |params| == |types|
    && forall j :: 0 <= j < |params| ==>
         && params[j].kind == Some(types[j])
         && WellTyped(params[j])
         && |params[j].values| == nRows
         && forall i :: 0 <= i < nRows ==> Encodable(params[j].values[i], types[j])
  }

  /** Row i of a parameter table, as the server is meant to receive it. */
  function EncodedRow(params: seq<Column>, types: seq<FieldType>, nRows: nat, i: nat): (row: seq<Sent>)
    requires Coherent(params, types, nRows) && i < nRows
  {
    seq(|params|, j requires 0 <= j < |params| => Encode(params[j].values[i], types[j]))
  }

  /** A parameter table as R hands it over: homogeneous vectors whose dates and times
      have an encoding. */
  predicate RTable(params: seq<Column>) {
    forall j :: 0 <= j < |params| ==>
      && WellTyped(params[j])
      && (params[j].kind.Some? ==>
            forall i :: 0 <= i < |params[j].values| ==> Encodable(params[j].values[i], params[j].kind.value))
  }

  predicate SameLength(params: seq<Column>) {
    forall j :: 0 <= j < |params| ==> |params[j].values| == |params[0].values|
  }

  predicate Usable(params: seq<Column>) {
    RTable(params) && SameLength(params)
  }

  /** The checks of `init_binding` against the number of parameters of the statement. */
  predicate Accepted(params: seq<Column>, p: nat) {
    params != [] && |params| == p && forall j :: 0 <= j < p ==> params[j].kind.Some?
  }

  function Kinds(params: seq<Column>): (kinds: seq<FieldType>)
    requires Accepted(params, |params|)
  {
    seq(|params|, j requires 0 <= j < |params| => params[j].kind.value)
  }

  /** All rows of a parameter table, as the server is meant to receive them. */
  function EncodedTable(params: seq<Column>): (rows: seq<seq<Sent>>)
    requires Usable(params) && Accepted(params, |params|)
  {
    var n := |params[0].values|;
    seq(n, i requires 0 <= i < n => EncodedRow(params, Kinds(params), n, i))
  }

  /** The k-th row to be sent holds, for each parameter, the k-th element of its column,
      encoded by the type of that column. */
  lemma EncodedCells(params: seq<Column>, i: nat, j: nat)
    requires Usable(params) && Accepted(params, |params|) && j < |params| && i < |params[j].values|
    ensures i < |EncodedTable(params)| == |params[j].values| && |EncodedTable(params)[i]| == |params|
    ensures HasType(params[j].values[i], params[j].kind.value)
    ensures Encodable(params[j].values[i], params[j].kind.value)
    ensures EncodedTable(params)[i][j] == Encode(params[j].values[i], params[j].kind.value)
  {
    assert |params[j].values| == |params[0].values|;
  }

  class MariaBinding {
    var params: seq<Column>
    var p: nat
    var i: nat
    var nRows: nat
    var bindings: seq<MysqlBind>
    var isNull: seq<bool>
    var types: seq<FieldType>
    var timeBuffers: seq<MysqlTime>

    ghost predicate Valid()
      reads this
    {
      && |bindings| == |isNull| == |types| == |timeBuffers| == p
      && i <= nRows
      && forall j :: 0 <= j < p && bindings[j].buffer.ToTimeBuffer? ==> bindings[j].buffer.index == j
    }

    /** The parameter table can be read for all rows that are still to come. This is
        what a failing InitBinding destroys. */
    ghost predicate Safe()
      reads this
    {
      i < nRows ==> Coherent(params, types, nRows) && BuffersTyped()
    }

    ghost predicate BuffersTyped()
      reads this
    {
      |bindings| == |types| && forall j :: 0 <= j < |types| ==> bindings[j].kind == types[j]
    }

    constructor ()
      ensures Valid() && i == nRows == p == 0 && params == []
    {
      params, p, i, nRows := [], 0, 0, 0;
      bindings, isNull, types, timeBuffers := [], [], [], [];
    }

    /** What an execution sends now: the library reads through the bound pointers. */
    function Sent(): seq<Sent>
      requires Valid()
      reads this
    {
      seq(p, j requires 0 <= j < p reads this requires Valid() =>
        if isNull[j] then Null else Read(bindings[j], timeBuffers))
    }

    /** The rows still to be sent. */
    ghost function Todo(): (rows: seq<seq<Sent>>)
      requires Valid() && Safe()
      reads this
      ensures |rows| == nRows - i
    {
      if i < nRows then seq(nRows - i, k requires 0 <= k < nRows - i reads this requires Valid() && Safe() =>
        EncodedRow(params, types, nRows, i + k))
      else []
    }

    method Setup(paramCount: nat)
      requires Valid()
      modifies this
      ensures Valid() && p == paramCount
      ensures params == old(params) && i == old(i) && nRows == old(nRows)
      ensures old(p) == paramCount ==> unchanged(this)
    {
      p := paramCount;
      bindings := Resized(bindings, p, UNBOUND);
      types := Resized(types, p, MyDbl);
      isNull := Resized(isNull, p, false);
      timeBuffers := Resized(timeBuffers, p, ZERO_TIME);
    }

    /** Takes over a new parameter table. The table is replaced before it is checked. */
    method InitBinding(newParams: seq<Column>) returns (ok: bool)
      requires Valid()
      modifies this
      ensures params == newParams && p == old(p)
      ensures ok <==> Accepted(newParams, p)
      ensures ok <==> newParams != [] && |newParams| == p && forall j :: 0 <= j < p ==> newParams[j].kind.Some?
      ensures Valid()
      ensures ok ==> i == 0 && nRows == |newParams[0].values| && types == Kinds(newParams)
      ensures ok ==> forall j :: 0 <= j < p ==> bindings[j].bufferLength == BufferSize(types[j])
      ensures ok && Usable(newParams) ==> Safe() && Todo() == EncodedTable(newParams)
      ensures newParams == [] || |newParams| != p ==>
                && i == old(i) && nRows == old(nRows) && types == old(types) && bindings == old(bindings)
                && isNull == old(isNull) && timeBuffers == old(timeBuffers)
      ensures !ok && newParams != [] && |newParams| == p ==>
                i == 0 && nRows == if newParams[0].kind.Some? then |newParams[0].values| else old(nRows)
      // A refused table is left in place of the one being walked: only if there seems to be
      // no row left to be sent can the walk go on.
      ensures !ok && p > 0 ==> (Safe() <==> i == nRows)
    {
      params := newParams;
      if |params| == 0 {
        return false;
      }
      if p != |params| {
        return false;
      }
      i := 0;
      for j := 0 to p
        invariant params == newParams && p == old(p) && i == 0 && Valid()
        invariant forall k :: 0 <= k < j ==> newParams[k].kind == Some(types[k]) && bindings[k].kind == types[k]
        invariant forall k :: 0 <= k < j ==> bindings[k].bufferLength == BufferSize(types[k])
        invariant nRows == if j > 0 then |newParams[0].values| else old(nRows)
      {
        if params[j].kind.None? {
          return false;
        }
        var kind := params[j].kind.value;
        types := types[j := kind];
        if j == 0 {
          nRows := |params[j].values|;
        }
        BindingUpdate(j, kind, BufferSize(kind));
      }
      return true;
    }

    static function BufferSize(kind: FieldType): (size: nat)
      ensures size == TIME_SIZE <==> kind in {MyDate, MyDateTime, MyTime}
      ensures (size == 8 <==> kind == MyDbl) && (size == 4 <==> kind == MyInt32) && (size == 1 <==> kind == MyLgl)
      ensures size == 0 <==> kind in {MyStr, MyRaw, MyInt64}
    {
      match kind
      case MyLgl => 1
      case MyInt32 => 4
      case MyDbl => 8
      case MyDate => TIME_SIZE
      case MyDateTime => TIME_SIZE
      case MyTime => TIME_SIZE
      case _ => 0
    }

    method BindingUpdate(j: nat, kind: FieldType, size: nat)
      requires j < |bindings|
      modifies `bindings
      ensures bindings == old(bindings)[j := old(bindings)[j].(bufferLength := size, kind := kind)]
    {
      bindings := bindings[j := bindings[j].(bufferLength := size, kind := kind)];
    }

    /** Points the bindings at the next row. On success the library will send exactly
        that row: NULL where the value is missing, although the binding still holds
        the pointer, length and time record of an earlier row there. */
    method BindNextRow() returns (more: bool)
      requires Valid() && Safe()
      modifies this
      ensures Valid() && Safe()
      ensures more <==> old(i) < nRows
      ensures params == old(params) && types == old(types) && nRows == old(nRows) && p == old(p)
      ensures !more ==> unchanged(this)
      ensures more ==> i == old(i) + 1 && Coherent(params, types, nRows)
      ensures more ==> Sent() == EncodedRow(params, types, nRows, old(i))
      ensures more ==> |Sent()| == p
      ensures more ==> forall j :: 0 <= j < p ==> Sent()[j] == Encode(params[j].values[old(i)], types[j])
      ensures more ==> old(Todo()) == [Sent()] + Todo()
    {
      if i >= nRows {
        return false;
      }
      for j := 0 to p
        invariant Valid() && BuffersTyped()
        invariant params == old(params) && types == old(types) && nRows == old(nRows) && p == old(p) && i == old(i)
        invariant forall k :: 0 <= k < j ==>
          Encode(params[k].values[i], types[k]) == if isNull[k] then Null else Read(bindings[k], timeBuffers)
      {
        BindCell(j);
      }
      i := i + 1;
      return true;
    }

    method BindCell(j: nat)
      requires Valid() && BuffersTyped() && Coherent(params, types, nRows) && i < nRows && j < p
      modifies `bindings, `isNull, `timeBuffers
      ensures Valid() && BuffersTyped()
      ensures Encode(params[j].values[i], types[j]) == if isNull[j] then Null else Read(bindings[j], timeBuffers)
      ensures forall k :: 0 <= k < p && k != j ==>
        bindings[k] == old(bindings[k]) && isNull[k] == old(isNull[k]) && timeBuffers[k] == old(timeBuffers[k])
    {
      var v := params[j].values[i];
      assert HasType(v, types[j]);
      var missing := BindValue(j, v);
      isNull := isNull[j := missing];
    }

    /** Binding j is of its column's type, and points at no other time buffer than its own. */
    ghost predicate Slot(j: nat)
      requires j < |bindings| && j < |types|
      reads `bindings, `types
    {
      bindings[j].kind == types[j] && (bindings[j].buffer.ToTimeBuffer? ==> bindings[j].buffer.index == j)
    }

    /** A value that can be bound to parameter j. */
    ghost predicate Bindable(j: nat, v: Scalar)
      reads this
    {
      && |bindings| == |types| == |timeBuffers| == p && j < p
      && Slot(j) && HasType(v, types[j]) && Encodable(v, types[j])
    }

    /** Parameter j will be sent as this value. */
    ghost predicate Conveys(j: nat, v: Scalar, missing: bool)
      reads this
    {
      && |bindings| == |types| == |timeBuffers| == p && j < p && Slot(j)
      && Encodable(v, types[j])
      && Encode(v, types[j]) == if missing then Null else Read(bindings[j], timeBuffers)
    }

    method BindValue(j: nat, v: Scalar) returns (missing: bool)
      requires Bindable(j, v)
      modifies `bindings, `timeBuffers
      ensures Conveys(j, v, missing)
      ensures forall k :: 0 <= k < p && k != j ==>
        bindings[k] == old(bindings[k]) && timeBuffers[k] == old(timeBuffers[k])
    {
      match types[j] {
        case MyStr => missing := BindBytes(j, v);
        case MyRaw => missing := BindBytes(j, v);
        case MyDate => missing := BindTimed(j, v);
        case MyDateTime => missing := BindTimed(j, v);
        case MyTime => missing := BindTimed(j, v);
        case _ => missing := BindPlain(j, v);
      }
    }

    /** Logical values and numbers. For doubles only NA counts as missing, and NaN is bound. */
    method BindPlain(j: nat, v: Scalar) returns (missing: bool)
      requires Bindable(j, v) && types[j] !in {MyStr, MyRaw, MyDate, MyDateTime, MyTime}
      modifies `bindings
      ensures Conveys(j, v, missing)
      ensures forall k :: 0 <= k < p && k != j ==> bindings[k] == old(bindings[k])
    {
      if v.Missing? {
        return true;
      }
      missing := false;
      bindings := bindings[j := bindings[j].(buffer := ToValue(v))];
    }

    /** Strings and blobs, which are sent with their length. */
    method BindBytes(j: nat, v: Scalar) returns (missing: bool)
      requires Bindable(j, v) && types[j] in {MyStr, MyRaw}
      modifies `bindings
      ensures Conveys(j, v, missing)
      ensures forall k :: 0 <= k < p && k != j ==> bindings[k] == old(bindings[k])
    {
      if v.Missing? {
        return true;
      }
      missing := false;
      bindings := bindings[j := bindings[j].(buffer := ToValue(v), bufferLength := |v.bytes|)];
      assert v.bytes[..|v.bytes|] == v.bytes;
    }

    /** The three types that are sent as a time record, for which NaN counts as missing too.
        Every field of the record is written, so nothing of the previous row's value is
        left in it. */
    method BindTimed(j: nat, v: Scalar) returns (missing: bool)
      requires Bindable(j, v) && types[j] in {MyDate, MyDateTime, MyTime}
      modifies `bindings, `timeBuffers
      ensures Conveys(j, v, missing)
      ensures forall k :: 0 <= k < p && k != j ==>
        bindings[k] == old(bindings[k]) && timeBuffers[k] == old(timeBuffers[k])
    {
      if v.Missing? || v.NaN? {
        return true;
      }
      missing := false;
      SetRecord(j, v.x);
      bindings := bindings[j := bindings[j].(bufferLength := TIME_SIZE, buffer := ToTimeBuffer(j))];
    }

    /** The time record of a value that is not missing. */
    method SetRecord(j: nat, x: real)
      requires j < |types| && j < |timeBuffers| && types[j] in {MyDate, MyDateTime, MyTime}
      requires Encodable(Number(x), types[j])
      modifies `timeBuffers
      ensures |timeBuffers| == |old(timeBuffers)| && Timed(types[j], timeBuffers[j]) == Encode(Number(x), types[j])
      ensures forall k :: 0 <= k < |timeBuffers| && k != j ==> timeBuffers[k] == old(timeBuffers[k])
    {
      if types[j] == MyTime {
        ClearDateBuffer(j);
        SetTimeBuffer(j, x);
      } else if types[j] == MyDate {
        SetDateBuffer(j, x.Floor as int32);
        ClearTimeBuffer(j);
      } else {
        var days := (x / 86400.0).Floor;
        WithinDay(x);
        SetDateBuffer(j, days as int32);
        SetTimeBuffer(j, x - days as real * 86400.0);
      }
    }

    method ClearDateBuffer(j: nat)
      requires j < |timeBuffers|
      modifies `timeBuffers
      ensures timeBuffers == old(timeBuffers)[j := old(timeBuffers)[j].(year := 0, month := 0, day := 0)]
    {
      timeBuffers := timeBuffers[j := timeBuffers[j].(year := 0, month := 0, day := 0)];
    }

    method ClearTimeBuffer(j: nat)
      requires j < |timeBuffers|
      modifies `timeBuffers
      ensures timeBuffers ==
        old(timeBuffers)[j := old(timeBuffers)[j].(hour := 0, minute := 0, second := 0, secondPart := 0, neg := false)]
    {
      timeBuffers :=
        timeBuffers[j := timeBuffers[j].(hour := 0, minute := 0, second := 0, secondPart := 0, neg := false)];
    }

    /** Stores the date that lies `date` days after 1970-01-01. The 32-bit types show
        that no step overflows and no unsigned difference goes below zero. */
    method SetDateBuffer(j: nat, date: int32)
      requires j < |timeBuffers| && DayFits(date as int)
      modifies `timeBuffers
      ensures timeBuffers == old(timeBuffers)[j := WithDate(old(timeBuffers)[j], date as int)]
    {
      var y, m, d := CivilFromDays(date);
      timeBuffers := timeBuffers[j := timeBuffers[j].(year := ToUnsigned(y), month := m, day := d)];
    }

    /** The date that lies `date` days after 1970-01-01. */
    static method CivilFromDays(date: int32) returns (year: int32, m: uint32, d: uint32)
      requires DayFits(date as int)
      ensures Date(year as int, m as int, d as int) == DateOfDay(date as int)
    {
      var era, doe := EraOfDay(date);
      ghost var _, _, _, civil := CivilOfDay(date as int, era as int, doe as int);
      var yoe, doy := YearOfDay(doe);
      var y: int32 := yoe as int32 + era * 400;
      m, d := MonthOfDay(doy);
      year := y + (if m <= 2 then 1 else 0);
      assert Date(year as int, m as int, d as int) == civil;
    }

    /** Era, and day of that era. */
    static method EraOfDay(date: int32) returns (era: int32, doe: uint32)
      requires DayFits(date as int)
      ensures date as int + 719468 == 146097 * era as int + doe as int && doe <= 146096
      ensures -20_000 <= era <= 20_000
    {
      var date0: int32 := date + 719468;
      era := TruncDiv146097(if date0 >= 0 then date0 else date0 - 146096);
      assert era as int == date0 as int / 146097;
      doe := (date0 - era * 146097) as uint32;
    }

    /** Year of the era, and day of that year. */
    static method YearOfDay(doe: uint32) returns (yoe: uint32, doy: uint32)
      requires doe <= 146096
      ensures yoe as int == (doe as int - doe as int / 1460 + doe as int / 36524 - doe as int / 146096) / 365
      ensures doy as int == doe as int - (365 * yoe as int + yoe as int / 4 - yoe as int / 100)
      ensures yoe <= 399 && doy <= 365
      ensures DaysBeforeYear(yoe as int) + doy as int == doe as int
    {
      ghost var year, _, _, _ := CivilOfDay(doe as int - 719468, 0, doe as int);
      EraSplit(year, 0, year);
      yoe := (doe - doe / 1460 + doe / 36524 - doe / 146096) / 365;
      doy := doe - (365 * yoe + yoe / 4 - yoe / 100);
    }

    /** Month, and day of that month, in a year that starts in March. */
    static method MonthOfDay(doy: uint32) returns (m: uint32, d: uint32)
      requires doy <= 365
      ensures 1 <= m <= 12 && 1 <= d <= 31
      ensures var mp := (5 * doy as int + 2) / 153;
              m as int == (if mp < 10 then mp + 3 else mp - 9) && d as int == doy as int - (153 * mp + 2) / 5 + 1
      ensures DaysBeforeMonth(m as int) + d as int - 1 == doy as int
    {
      var mp := (5 * doy + 2) / 153;
      d := doy - (153 * mp + 2) / 5 + 1;
      m := if mp < 10 then mp + 3 else mp - 9;
    }

    /** Splits a duration by repeated truncation; the result is the division of its
        whole microseconds. */
    method SetTimeBuffer(j: nat, duration: real)
      requires j < |timeBuffers| && HoursFit(duration)
      modifies `timeBuffers
      ensures timeBuffers == old(timeBuffers)[j := WithClock(old(timeBuffers)[j], duration)]
    {
      var neg := false;
      var time := duration;
      if time < 0.0 {
        neg := true;
        time := -time;
      }
      var wholeSeconds := Trunc(time) as real;
      var fracSeconds := time - wholeSeconds;
      var wholeMinutes := Trunc(time / 60.0) as real;
      var seconds := wholeSeconds - wholeMinutes * 60.0;
      var hours := Trunc(time / 3600.0) as real;
      var minutes := wholeMinutes - hours * 60.0;
      TruncationSplit(time, Trunc(time), Trunc(time / 60.0), Trunc(time / 3600.0));
      assert minutes == (Trunc(time / 60.0) - Trunc(time / 3600.0) * 60) as real;
      assert seconds == (Trunc(time) - Trunc(time / 60.0) * 60) as real;
      timeBuffers := timeBuffers[j := timeBuffers[j].(
        hour := hours.Floor as uint32,
        minute := minutes.Floor as uint32,
        second := seconds.Floor as uint32,
        secondPart := (fracSeconds * 1000000.0).Floor,
        neg := neg)];
    }
  }

  /** A table with no columns is refused while a row of the one before is left to be sent:
      the walk then goes on over a table that does not fit. */
  method RefusedRebind() returns (b: MariaBinding)
    ensures fresh(b) && b.Valid() && b.params == [] && b.i < b.nRows && !b.Safe()
  {
    b := new MariaBinding();
    b.Setup(1);
    var accepted := b.InitBinding([Column(Some(MyDbl), [Number(1.0)])]);
    var refused := b.InitBinding([]);
  }
}
