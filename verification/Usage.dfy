/** What a caller gets from the documented ways of using a prepared query: binding a table
    of parameters, fetching in chunks of any sizes, and fetching until completion. */
module Usage {
  import opened Server
  import opened Binding
  import opened ResultRow
  import opened DataFrames
  import opened Stream
  import opened Client

  /** A query that can be fetched from. */
  ghost predicate Ready(prep: MariaResultPrep)
    reads prep`stmt, prep`stmtOpen, prep`cursor, prep`types, prep`spec, prep`bound,
          prep.bindingInput, prep.bindingOutput
  {
    prep.Valid() && prep.stmtOpen && prep.bound && prep.spec.Some? && prep.bindingInput.Safe()
  }

  /** The rows that are left, and whether they end without an error. */
  ghost function Left(prep: MariaResultPrep): Feed
    requires prep.Valid() && prep.bindingInput.Safe()
    reads prep`stmt, prep`cursor, prep`types, prep`complete, prep.conn`open, prep.conn.session,
          prep.bindingInput, prep.bindingOutput
  {
    Drain(prep.Runs(), prep.stmt.sql, prep.Source(), prep.conn.session.Visible())
  }

  /** Unlimited fetches can count the rows in an int. */
  predicate Countable(sizes: seq<int>, rows: nat) {
    rows <= MAX_ROWS || forall i :: 0 <= i < |sizes| ==> sizes[i] >= 0
  }

  /** The rows of the frames that were fetched, put together, are those of a chunk of the
      stream; nothing is said of them if a fetch has failed. */
  ghost predicate Delivered(prep: MariaResultPrep, rows: seq<seq<Value>>, failed: bool, c: Chunk)
    requires prep.Valid() && prep.bindingInput.Safe()
    reads prep`stmt, prep`cursor, prep`types, prep`complete, prep.conn`open, prep.conn.session,
          prep.bindingInput, prep.bindingOutput
  {
    && failed == (c.stop == Error)
    && prep.Source() == c.src && prep.conn.session.Visible() == c.log
    && (!failed ==> AllReceivable(c.rows, prep.types) && rows == DecodedRows(c.rows, prep.types))
  }

  // ----- Fetching in chunks -----

  method FetchChunk(prep: MariaResultPrep, n: int) returns (rows: seq<seq<Value>>, failed: bool)
    requires Ready(prep) && Countable([n], |Left(prep).rows|)
    modifies prep`cursor, prep`current, prep`spec, prep`complete, prep`rowsAffected, prep`rowsFetched,
             prep.bindingInput, prep.bindingOutput, prep.conn.session`pending
    ensures Ready(prep) && Delivered(prep, rows, failed, old(prep.NextChunk(n)))
    ensures prep.rowsFetched == old(prep.rowsFetched) + |old(prep.NextChunk(n)).rows|
    ensures n != 0 ==> (prep.Complete() <==> old(prep.NextChunk(n)).stop == End)
  {
    assert n < 0 ==> [n][0] < 0;
    var f, _ := prep.Fetch(n);
    rows, failed := [], f.FetchFailed?;
    if f.Frame? {
      ghost var c := old(prep.NextChunk(n));
      assert c.stop != Error;
      ShownRows(f.df, |prep.types|, DecodedRows(c.rows, prep.types));
      rows := RowsOf(f.df);
    }
  }

  /** A fetch that has not failed, and the fetches after it. */
  lemma JoinDelivered(prep: MariaResultPrep, first: seq<seq<Value>>, others: seq<seq<Value>>, failed: bool,
                      c1: Chunk, c2: Chunk)
    requires prep.Valid() && prep.bindingInput.Safe() && Delivered(prep, others, failed, c2)
    requires AllReceivable(c1.rows, prep.types) && first == DecodedRows(c1.rows, prep.types)
    ensures Delivered(prep, first + others, failed, c2.(rows := c1.rows + c2.rows))
  {
    if !failed {
      DecodedConcat(c1.rows, c2.rows, prep.types);
    }
  }

  /** Fetches of any sizes, one after the other, up to the first failure. */
  method FetchSizes(prep: MariaResultPrep, sizes: seq<int>) returns (rows: seq<seq<Value>>, failed: bool)
    requires Ready(prep) && Countable(sizes, |Left(prep).rows|)
    modifies prep`cursor, prep`current, prep`spec, prep`complete, prep`rowsAffected, prep`rowsFetched,
             prep.bindingInput, prep.bindingOutput, prep.conn.session`pending
    ensures Ready(prep)
    ensures Delivered(prep, rows, failed,
              old(Fetches(prep.Runs(), prep.stmt.sql, prep.Source(), prep.conn.session.Visible(), sizes)))
    ensures prep.rowsFetched == old(prep.rowsFetched) +
              |old(Fetches(prep.Runs(), prep.stmt.sql, prep.Source(), prep.conn.session.Visible(), sizes)).rows|
    decreases |sizes|, 1
  {
    if sizes == [] {
      rows, failed := [], false;
    } else {
      ghost var c := prep.NextChunk(sizes[0]);
      TakeIsPrefix(prep.Runs(), prep.stmt.sql, prep.Source(), prep.conn.session.Visible(), sizes[0]);
      rows, failed := FetchChunk(prep, sizes[0]);
      if !failed {
        rows, failed := FetchOthers(prep, sizes[1..], rows, c);
      }
    }
  }

  method FetchOthers(prep: MariaResultPrep, sizes: seq<int>, first: seq<seq<Value>>, ghost c: Chunk)
    returns (rows: seq<seq<Value>>, failed: bool)
    requires Ready(prep) && Countable(sizes, |Left(prep).rows|)
    requires AllReceivable(c.rows, prep.types) && first == DecodedRows(c.rows, prep.types)
    modifies prep`cursor, prep`current, prep`spec, prep`complete, prep`rowsAffected, prep`rowsFetched,
             prep.bindingInput, prep.bindingOutput, prep.conn.session`pending
    ensures Ready(prep)
    ensures var others :=
              old(Fetches(prep.Runs(), prep.stmt.sql, prep.Source(), prep.conn.session.Visible(), sizes));
            && Delivered(prep, rows, failed, others.(rows := c.rows + others.rows))
            && prep.rowsFetched == old(prep.rowsFetched) + |others.rows|
    decreases |sizes|, 2
  {
    ghost var others := Fetches(prep.Runs(), prep.stmt.sql, prep.Source(), prep.conn.session.Visible(), sizes);
    rows, failed := FetchSizes(prep, sizes);
    JoinDelivered(prep, first, rows, failed, c, others);
    rows := first + rows;
  }

  /** The rows that are left, as far as fetches of these sizes ask for them. */
  ghost predicate Arrived(types: seq<FieldType>, left: Feed, sizes: seq<int>, rows: seq<seq<Value>>, failed: bool) {
    if AsksForMore(sizes, |left.rows|) then
      && failed == !left.ok
      && (left.ok ==> AllReceivable(left.rows, types) && rows == DecodedRows(left.rows, types))
    else
      && !failed && 0 <= Asked(sizes) <= |left.rows|
      && AllReceivable(left.rows[..Asked(sizes)], types)
      && rows == DecodedRows(left.rows[..Asked(sizes)], types)
  }

  /** However the rows that are left are cut into fetches, they arrive in order, and all of
      them once a fetch asks for more than there are. */
  method FetchLeft(prep: MariaResultPrep, sizes: seq<int>) returns (rows: seq<seq<Value>>, failed: bool)
    requires Ready(prep) && Countable(sizes, |Left(prep).rows|)
    modifies prep`cursor, prep`current, prep`spec, prep`complete, prep`rowsAffected, prep`rowsFetched,
             prep.bindingInput, prep.bindingOutput, prep.conn.session`pending
    ensures Ready(prep) && Arrived(prep.types, old(Left(prep)), sizes, rows, failed)
    ensures !failed ==> prep.rowsFetched == old(prep.rowsFetched) + |rows|
  {
    Chunking(prep.Runs(), prep.stmt.sql, prep.Source(), prep.conn.session.Visible(), sizes);
    rows, failed := FetchSizes(prep, sizes);
  }

  // ----- Binding, then fetching -----

  /** Binding a table of parameters to a query and fetching from it in chunks of any sizes
      gives the first rows of the concatenated results of all parameter rows, in order, and
      all of them once a fetch asks for more than there are. */
  method BindAndFetch(prep: MariaResultPrep, params: seq<Column>, sizes: seq<int>)
    returns (rows: seq<seq<Value>>, failed: bool)
    requires prep.Valid() && prep.stmtOpen && prep.spec.Some? && Usable(params) && Accepted(params, prep.nParams)
    requires Countable(sizes, |Concatenated(
               prep.Runs(), prep.stmt.sql, EncodedTable(params), prep.conn.session.Visible()).rows|)
    modifies prep`cursor, prep`current, prep`spec, prep`complete, prep`rowsAffected, prep`rowsFetched, prep`bound,
             prep.bindingInput, prep.bindingOutput, prep.conn.session`pending
    ensures Ready(prep)
    ensures var all := old(Concatenated(
              prep.Runs(), prep.stmt.sql, EncodedTable(params), prep.conn.session.Visible()));
            Arrived(prep.types, all, sizes, rows, failed)
    // The rows of all fetches are counted, those before binding too.
    ensures !failed && old(prep.rowsFetched) + |rows| < 0x8000_0000 ==>
              prep.RowsFetched() as int == old(prep.rowsFetched) + |rows|
  {
    var _ := prep.Bind(params);
    rows, failed := FetchLeft(prep, sizes);
  }

  // ----- Fetching until completion -----

  /** A loop of fetches over the rows `goal` has delivered these rows so far. */
  ghost predicate Looping(prep: MariaResultPrep, goal: Feed, pulled: seq<Row>, rows: seq<seq<Value>>)
    requires prep.Valid() && prep.bindingInput.Safe()
    reads prep`stmt, prep`cursor, prep`types, prep`complete, prep.conn`open, prep.conn.session,
          prep.bindingInput, prep.bindingOutput
  {
    && AllReceivable(pulled, prep.types) && rows == DecodedRows(pulled, prep.types)
    && goal == Left(prep).(rows := pulled + Left(prep).rows)
  }

  lemma LoopGoesOn(
    prep: MariaResultPrep, goal: Feed, pulled: seq<Row>, rows: seq<seq<Value>>, c: Chunk, chunk: seq<seq<Value>>)
    requires prep.Valid() && prep.bindingInput.Safe()
    requires AllReceivable(pulled, prep.types) && rows == DecodedRows(pulled, prep.types)
    requires AllReceivable(c.rows, prep.types) && chunk == DecodedRows(c.rows, prep.types)
    requires goal == Left(prep).(rows := pulled + (c.rows + Left(prep).rows))
    ensures Looping(prep, goal, pulled + c.rows, rows + chunk)
  {
    DecodedConcat(pulled, c.rows, prep.types);
    assert pulled + (c.rows + Left(prep).rows) == pulled + c.rows + Left(prep).rows;
  }

  /** One round of the loop. */
  method FetchMore(prep: MariaResultPrep, n: nat, rows: seq<seq<Value>>, ghost goal: Feed, ghost pulled: seq<Row>)
    returns (out: seq<seq<Value>>, failed: bool, ghost pulledNow: seq<Row>)
    requires Ready(prep) && n > 0 && Looping(prep, goal, pulled, rows)
    modifies prep`cursor, prep`current, prep`spec, prep`complete, prep`rowsAffected, prep`rowsFetched,
             prep.bindingInput, prep.bindingOutput, prep.conn.session`pending
    ensures Ready(prep)
    ensures if failed then !goal.ok else Looping(prep, goal, pulledNow, out)
    ensures !failed ==> if prep.Complete() then Left(prep).rows == [] && Left(prep).ok
                        else |Left(prep).rows| < old(|Left(prep).rows|)
  {
    ghost var c := prep.NextChunk(n);
    ghost var left := Drain(prep.Runs(), prep.stmt.sql, c.src, c.log);
    TakeLeaves(prep.Runs(), prep.stmt.sql, prep.Source(), prep.conn.session.Visible(), n);
    out, failed := FetchChunk(prep, n);
    assert Left(prep) == left;
    pulledNow := pulled + c.rows;
    if !failed {
      LoopGoesOn(prep, goal, pulled, rows, c, out);
    }
    out := rows + out;
  }

  /** The loop that the documentation gives: fetch n rows while the result is not complete.
      It delivers all rows that are left if the result is not complete to begin with; right
      after binding it is, and then it delivers nothing. */
  method FetchUntilComplete(prep: MariaResultPrep, n: nat) returns (rows: seq<seq<Value>>, failed: bool)
    requires Ready(prep) && n > 0
    modifies prep`cursor, prep`current, prep`spec, prep`complete, prep`rowsAffected, prep`rowsFetched,
             prep.bindingInput, prep.bindingOutput, prep.conn.session`pending
    ensures Ready(prep)
    ensures old(prep.Complete()) ==> rows == [] && !failed && prep.Source() == old(prep.Source())
    ensures !old(prep.Complete()) ==>
              var left := old(Left(prep));
              && failed == !left.ok
              && (left.ok ==> AllReceivable(left.rows, prep.types) && rows == DecodedRows(left.rows, prep.types))
  {
    rows, failed := [], false;
    ghost var goal, pulled: seq<Row>, started := Left(prep), [], false;
    assert [] + goal.rows == goal.rows;
    while !failed && !prep.Complete()
      invariant Ready(prep)
      invariant if failed then !goal.ok else Looping(prep, goal, pulled, rows)
      invariant started ==>
                  !old(prep.Complete()) && (!failed && prep.Complete() ==> Left(prep).rows == [] && goal.ok)
      invariant !started ==>
                  && rows == [] && !failed
                  && prep.Source() == old(prep.Source()) && prep.Complete() == old(prep.Complete())
      decreases !failed, !prep.Complete(), if failed then 0 else |Left(prep).rows|
    {
      rows, failed, pulled := FetchMore(prep, n, rows, goal, pulled);
      started := true;
    }
    assert pulled + [] == pulled;
  }

  // ----- Queries that announce their columns only when they are executed -----

  /** The rows of a query have the columns it announces, whatever its parameters. */
  lemma {:induction false} ConcatenatedReceivable(
    prep: MariaResultPrep, types: seq<FieldType>, todo: seq<seq<Sent>>, log: Log)
    requires prep.conn.session.server.prepare(prep.stmt.sql) == PrepareOk(prep.stmt.prepared)
    requires prep.stmt.prepared.fields == Some(types) || prep.stmt.prepared.lateFields == Some(types)
    ensures AllReceivable(Concatenated(prep.Runs(), prep.stmt.sql, todo, log).rows, types)
    decreases |todo|
  {
    if todo == [] {
    } else {
      var work := Work(prep.stmt.sql, todo[0]);
      var reply := prep.Runs()(log, work);
      assert RowsAsAnnounced(prep.conn.session.server.prepare(work.sql), prep.conn.session.server.run(log, work));
      ConcatenatedReceivable(prep, types, todo[1..], log + reply.effect);
    }
  }

  /** Without columns the rows of such a query are what it would have delivered exactly if
      there are none (or if it has no columns indeed, and only the last execution has rows). */
  lemma LateDelivers(run: Run, sql: string, todo: seq<seq<Sent>>, log: Log, cursor: Cursor, late: seq<FieldType>)
    requires todo != [] && Concatenated(run, sql, todo, log).ok
    requires AllReceivable(Concatenated(run, sql, todo, log).rows, late)
    ensures var all := Concatenated(run, sql, todo, log).rows;
            var left := ReadableRows(run, sql, todo, log, cursor);
            DecodedRows(left, []) == DecodedRows(all, late) <==>
            all == [] || (late == [] && RowsBeforeLast(run, sql, todo, log) == [])
  {
    LateMetadataKeepsLast(run, sql, todo, log, cursor);
    var all, left := Concatenated(run, sql, todo, log).rows, ReadableRows(run, sql, todo, log, cursor);
    var front := RowsBeforeLast(run, sql, todo, log);
    assert |all| == |front| + |left|;
    if all != [] && late != [] {
      assert |DecodedRows(all, late)[0]| > 0;
      assert left != [] ==> |DecodedRows(left, [])[0]| == 0;
    }
  }

  /** A query with parameters and no metadata when it was prepared, but columns when it is
      executed, as a procedure call: its column types have been cached before they were
      known, as none. */
  ghost predicate Late(prep: MariaResultPrep)
    reads prep`stmt, prep`stmtOpen, prep`cursor, prep`types, prep`spec, prep.bindingInput, prep.bindingOutput
  {
    && prep.Valid() && prep.stmtOpen && prep.spec.None? && prep.types == [] && !prep.isStatement
    && prep.conn.session.server.prepare(prep.stmt.sql) == PrepareOk(prep.stmt.prepared)
    && prep.stmt.prepared.lateFields.Some?
  }

  /** Binding executes such a query for all parameter rows, and leaves the rows of the last. */
  method BindLate(prep: MariaResultPrep, params: seq<Column>)
    requires Late(prep) && Usable(params) && Accepted(params, prep.nParams) && EncodedTable(params) != []
    requires Concatenated(prep.Runs(), prep.stmt.sql, EncodedTable(params), prep.conn.session.Visible()).ok
    modifies prep`cursor, prep`spec, prep`complete, prep`rowsAffected, prep`bound, prep.bindingInput,
             prep.conn.session`pending
    ensures Ready(prep) && Left(prep).ok
    ensures Left(prep).rows == old(ReadableRows(
              prep.Runs(), prep.stmt.sql, EncodedTable(params), prep.conn.session.Visible(), prep.OpenCursor()))
  {
    LateMetadataKeepsLast(
      prep.Runs(), prep.stmt.sql, EncodedTable(params), prep.conn.session.Visible(), prep.OpenCursor());
    var _ := prep.Bind(params);
  }

  /** The rows that arrive are without columns, and they are what was sent exactly if no rows
      were sent. */
  ghost predicate ArrivedLate(run: Run, sql: string, todo: seq<seq<Sent>>, log: Log, before: Cursor,
                              late: seq<FieldType>, sizes: seq<int>, rows: seq<seq<Value>>)
  {
    var all := Concatenated(run, sql, todo, log).rows;
    && (forall i :: 0 <= i < |rows| ==> rows[i] == [])
    && AllReceivable(all, late)
    && (AsksForMore(sizes, |ReadableRows(run, sql, todo, log, before)|) ==>
          (rows == DecodedRows(all, late) <==>
           all == [] || (late == [] && RowsBeforeLast(run, sql, todo, log) == [])))
  }

  lemma ArrivesLate(run: Run, sql: string, todo: seq<seq<Sent>>, log: Log, before: Cursor, late: seq<FieldType>,
                    left: Feed, sizes: seq<int>, rows: seq<seq<Value>>, failed: bool)
    requires todo != [] && Concatenated(run, sql, todo, log).ok
    requires AllReceivable(Concatenated(run, sql, todo, log).rows, late)
    requires left.ok && left.rows == ReadableRows(run, sql, todo, log, before)
    requires Arrived([], left, sizes, rows, failed)
    ensures !failed && ArrivedLate(run, sql, todo, log, before, late, sizes, rows)
  {
    LateDelivers(run, sql, todo, log, before, late);
  }

  /** No frame that is fetched from such a query has a column. With nothing failing on the
      server and enough rows asked for, what arrives is what was sent exactly if no rows
      were sent. */
  method BindLateAndFetch(prep: MariaResultPrep, params: seq<Column>, sizes: seq<int>)
    returns (rows: seq<seq<Value>>, failed: bool)
    requires Late(prep) && Usable(params) && Accepted(params, prep.nParams) && EncodedTable(params) != []
    requires var all := Concatenated(
               prep.Runs(), prep.stmt.sql, EncodedTable(params), prep.conn.session.Visible());
             all.ok && Countable(sizes, |all.rows|)
    modifies prep`cursor, prep`current, prep`spec, prep`complete, prep`rowsAffected, prep`rowsFetched, prep`bound,
             prep.bindingInput, prep.bindingOutput, prep.conn.session`pending
    ensures !failed
    ensures ArrivedLate(
              prep.Runs(), prep.stmt.sql, EncodedTable(params), old(prep.conn.session.Visible()),
              old(prep.OpenCursor()), prep.stmt.prepared.lateFields.value, sizes, rows)
  {
    ghost var run, sql, todo, log := prep.Runs(), prep.stmt.sql, EncodedTable(params), prep.conn.session.Visible();
    ghost var late, before := prep.stmt.prepared.lateFields.value, prep.OpenCursor();
    ConcatenatedReceivable(prep, late, todo, log);
    LateMetadataKeepsLast(run, sql, todo, log, before);
    BindLate(prep, params);
    ghost var left := Left(prep);
    rows, failed := FetchLeft(prep, sizes);
    ArrivesLate(run, sql, todo, log, before, late, left, sizes, rows, failed);
  }

  /** One parameter row, one row in the result, one column: the row arrives without it. */
  lemma LateRowIsLost(bytes: seq<byte>)
    ensures var run, row: Row := OneRow([BytesCell(bytes)], false), [BytesCell(bytes)];
            && Concatenated(run, "", [[]], []).rows == [row]
            && DecodedRows([row], [MyStr]) == [[Text(bytes)]]
            && DecodedRows(ReadableRows(run, "", [[]], [], Failed), []) == [[]]
  {
    var run, row: Row := OneRow([BytesCell(bytes)], false), [BytesCell(bytes)];
    var todo: seq<seq<Sent>>, log: Log := [[]], [];
    assert todo[1..] == [] && log + [] == log && [row] + [] == [row];
    assert Concatenated(run, "", todo[1..], log).rows == [];
    assert ExecuteAll(run, "", todo, log, Failed) == Tally(true, 0, log, Rows([row], false));
    assert ReadableRows(run, "", todo, log, Failed) == [row];
    assert DecodedRow(row, [MyStr]) == [Text(bytes)];
  }
}
