/** Writing a data frame to a table: the statements that are sent, and the transaction
    around them. */
module WriteTable {
  import opened MachineInts
  import opened Server
  import opened ResultRow
  import opened DataFrames
  import opened Stream
  import opened Conversation
  import opened Client
  import L = Lifecycle

  /** The statements that one call sends; how their texts are put together is left out. */
  datatype Texts = Texts(probe: string, drop: string, create: string, count: string, load: string)

  /** What is decided outside the database: whether the file for LOAD DATA can be written,
      and whether the field types can be worked out. */
  datatype Local = Local(fileWritten: bool, typesKnown: bool)

  // ----- Specification: what the calls do to the log of a server -----

  /** `dbExecute` */
  function Executed(server: ProtocolServer, sql: string, log: Log): (Option<int>, Log) {
    (if SendOk(server, sql, true, log) then RowsReported(server, sql, true, log) else None,
     SendLog(server, sql, true, log))
  }

  /** `dbGetQuery`: all rows of the result, unless it still waits for parameters or its
      transfer breaks off. */
  function Queried(server: ProtocolServer, sql: string, log: Log): (r: (Option<seq<seq<Value>>>, Log))
  {
    var reply := server.run(log, Work(sql, []));
    assert RowsAsAnnounced(server.prepare(sql), reply);
    var rows :=
      if !SendOk(server, sql, false, log) then None
      else match server.prepare(sql)
        case PrepareOk(p) =>
          if p.nParams > 0 then None
          else if FieldsSent(p, false).None? then Some([])
          else if reply.broken then None
          else Some(DecodedRows(reply.rows, FieldsSent(p, false).value))
        case _ => Some([]);
    (rows, SendLog(server, sql, false, log))
  }

  /** The number in the first cell of a count. */
  function CountIn(rows: seq<seq<Value>>): int {
    if rows == [] || rows[0] == [] then 0
    else match rows[0][0]
      case Verbatim(bytes) => LittleEndian(bytes)
      case Int(n) => n as int
      case _ => 0
  }

  /** The database part of `db_append_table`: the number of rows added, which is counted
      before and after if the server does not report it. */
  function Loaded(server: ProtocolServer, texts: Texts, log: Log): (Option<int>, Log)
  {
    var (before, log1) := Queried(server, texts.count, log);
    if before.None? then (None, log1)
    else
      var (out, log2) := Executed(server, texts.load, log1);
      if out != Some(0) then (out, log2)
      else
        var (after, log3) := Queried(server, texts.count, log2);
        (if after.None? then None else Some(CountIn(after.value) - CountIn(before.value)), log3)
  }

  datatype Options = Options(nrow: nat, temporary: bool, overwrite: bool, append: bool)

  /** `dbWriteTable` up to dropping the table: whether it goes on, and whether the table has
      to be created. */
  function Cleared(server: ProtocolServer, texts: Texts, o: Options, log: Log): (bool, bool, Log)
  {
    var (probe, log1) := if o.temporary then (None, log) else Queried(server, texts.probe, log);
    if probe.Some? && !o.overwrite && !o.append then (false, false, log1)
    else
      var (dropped, log2) := if o.overwrite then Executed(server, texts.drop, log1) else (Some(0), log1);
      (dropped.Some?, probe.None? || o.overwrite, log2)
  }

  /** `dbWriteTable` between begin and commit; `strict` if missing rows are an error. */
  function FilledTable(server: ProtocolServer, texts: Texts, local: Local, o: Options, strict: bool, log: Log)
    : (bool, Log)
  {
    var (ok, create, log1) := Cleared(server, texts, o, log);
    if ok then CreatedAndLoaded(server, texts, local, o, strict, create, log1) else (false, log1)
  }

  function CreatedAndLoaded(
    server: ProtocolServer, texts: Texts, local: Local, o: Options, strict: bool, create: bool, log: Log)
    : (bool, Log)
  {
    if create && !local.typesKnown then (false, log)
    else
      var (created, log1) := if create then Executed(server, texts.create, log) else (Some(0), log);
      if created.None? then (false, log1)
      else if o.nrow == 0 then (true, log1)
      else if !local.fileWritten then (false, log1)
      else
        var (out, log2) := Loaded(server, texts, log1);
        (out.Some? && (strict ==> out.value >= o.nrow), log2)
  }

  /** The log after looking for, dropping and creating the table. */
  function BeforeRows(server: ProtocolServer, texts: Texts, local: Local, o: Options, log: Log): Log {
    var (ok, create, log1) := Cleared(server, texts, o, log);
    if ok && create && local.typesKnown then Executed(server, texts.create, log1).1 else log1
  }

  /** Rows come last: the work of loading, if any, follows that of dropping and creating the
      table, so that a server that commits when it drops or creates a table has committed
      none of the rows. Success means that loading was the last thing done; when missing
      rows are an error, at least as many rows as there are were added by it. */
  lemma AllRowsLoaded(server: ProtocolServer, texts: Texts, local: Local, o: Options, strict: bool, log: Log)
    ensures var ddl := BeforeRows(server, texts, local, o, log);
            var filled := FilledTable(server, texts, local, o, strict, log);
            var loaded := Loaded(server, texts, ddl);
            && log <= ddl <= filled.1
            && (filled.1 == ddl || (o.nrow > 0 && filled.1 == loaded.1))
            && (filled.0 && o.nrow > 0 ==>
                  loaded.0.Some? && filled.1 == loaded.1 && (strict ==> loaded.0.value >= o.nrow))
  {
    LogsGrow(server, texts, BeforeRows(server, texts, local, o, log));
  }

  lemma LogsGrow(server: ProtocolServer, texts: Texts, log: Log)
    ensures log <= Loaded(server, texts, log).1
  {
    var log1 := Queried(server, texts.count, log).1;
    var log2 := Executed(server, texts.load, log1).1;
    assert log <= log1 <= log2 <= Queried(server, texts.count, log2).1;
  }

  // ----- What the specification says, from the outcomes of single statements -----

  /** `dbExecute` succeeds if the statement does, and reports the rows that the server counted,
      none for a query or for immediate execution, and NA for a statement with parameters. */
  lemma ExecutedByReply(server: ProtocolServer, sql: string, log: Log)
    ensures var reply := server.run(log, Work(sql, []));
            match server.prepare(sql)
            case PrepareFailed => Executed(server, sql, log) == (None, log)
            case UnsupportedProtocol =>
              Executed(server, sql, log) == (if reply.ok then Some(0) else None, log + reply.effect)
            case PrepareOk(p) =>
              if p.nParams > 0 then Executed(server, sql, log) == (None, log)
              else if !reply.ok || (p.fields.Some? && !p.bindable) then
                Executed(server, sql, log) == (None, log + reply.effect)
              else
                && Executed(server, sql, log).1 == log + reply.effect
                && (p.fields.Some? ==> Executed(server, sql, log).0 == Some(0))
                && (p.fields.None? && reply.affected < 0x8000_0000 ==>
                      Executed(server, sql, log).0 == Some(reply.affected))
  {
    SendByReply(server, sql, true, log);
    var reply := server.run(log, Work(sql, []));
    if reply.affected < 0x8000_0000 {
      ConversionsAreModular(0, reply.affected as uint32);
    }
  }

  /** A count arrives as a number, whether the server sends an int or eight bytes. */
  lemma CountArrives(n: int32, k: nat)
    requires k < Pow256(8)
    ensures CountIn([[Int(n)]]) == n as int && CountIn([[Verbatim(BytesOf(k, 8))]]) == k
  {
    LittleEndianBytes(k, 8);
  }

  /** Loading reports what the server reports, or else by how much two counts differ that arrive
      as integer64; without a count before, nothing is loaded. */
  lemma LoadedByCounts(server: ProtocolServer, texts: Texts, log: Log, b: nat, a: nat)
    requires b < Pow256(8) && a < Pow256(8)
    ensures var (before, log1) := Queried(server, texts.count, log);
            var (out, log2) := Executed(server, texts.load, log1);
            var (after, log3) := Queried(server, texts.count, log2);
            && (before.None? ==> Loaded(server, texts, log) == (None, log1))
            && (before.Some? && out != Some(0) ==> Loaded(server, texts, log) == (out, log2))
            && (before.Some? && out == Some(0) ==>
                  && Loaded(server, texts, log).1 == log3
                  && (after.None? ==> Loaded(server, texts, log).0 == None)
                  && (before.value == [[Verbatim(BytesOf(b, 8))]] && after == Some([[Verbatim(BytesOf(a, 8))]]) ==>
                        Loaded(server, texts, log).0 == Some(a - b)))
  {
    CountArrives(0, b);
    CountArrives(0, a);
  }

  /** From this log on rows are loaded, and that is all: nothing without rows, a failure
      without a file, and otherwise the outcome of loading, for which too few rows count as a
      failure if they are an error. */
  predicate LoadsFrom(filled: (bool, Log), server: ProtocolServer, texts: Texts, local: Local, nrow: nat, strict: bool,
                      log: Log)
  {
    if nrow == 0 then filled == (true, log)
    else if !local.fileWritten then filled == (false, log)
    else
      var (out, after) := Loaded(server, texts, log);
      filled.1 == after && (filled.0 <==> out.Some? && (out.value >= nrow || !strict))
  }

  /** An existing table is refused, with nothing sent but the probe, unless it is to be
      overwritten or appended to. */
  lemma ExistingRefused(server: ProtocolServer, texts: Texts, local: Local, o: Options, strict: bool, log: Log)
    requires !o.temporary && !o.overwrite && !o.append && Queried(server, texts.probe, log).0.Some?
    ensures FilledTable(server, texts, local, o, strict, log) == (false, Queried(server, texts.probe, log).1)
  {}

  /** Appending to an existing table neither drops nor creates: rows are loaded after the probe. */
  lemma ExistingAppended(server: ProtocolServer, texts: Texts, local: Local, o: Options, strict: bool, log: Log)
    requires !o.temporary && !o.overwrite && o.append && Queried(server, texts.probe, log).0.Some?
    ensures LoadsFrom(FilledTable(server, texts, local, o, strict, log), server, texts, local, o.nrow, strict,
                      Queried(server, texts.probe, log).1)
  {}

  /** A table that is missing, or temporary, which is not looked for, is created once, before
      rows are loaded, if it is not to be overwritten. */
  lemma MissingCreated(server: ProtocolServer, texts: Texts, local: Local, o: Options, strict: bool, log: Log)
    requires !o.overwrite && (o.temporary || Queried(server, texts.probe, log).0.None?)
    ensures var filled := FilledTable(server, texts, local, o, strict, log);
            var probed := if o.temporary then log else Queried(server, texts.probe, log).1;
            var (created, log1) := Executed(server, texts.create, probed);
            if !local.typesKnown then filled == (false, probed)
            else if created.None? then filled == (false, log1)
            else LoadsFrom(filled, server, texts, local, o.nrow, strict, log1)
  {}

  /** To be overwritten, a table is dropped and then created, whether it was found or not. */
  lemma OverwrittenRecreated(server: ProtocolServer, texts: Texts, local: Local, o: Options, strict: bool, log: Log)
    requires o.overwrite
    ensures var filled := FilledTable(server, texts, local, o, strict, log);
            var probed := if o.temporary then log else Queried(server, texts.probe, log).1;
            var (dropped, log1) := Executed(server, texts.drop, probed);
            var (created, log2) := Executed(server, texts.create, log1);
            if dropped.None? || !local.typesKnown then filled == (false, log1)
            else if created.None? then filled == (false, log2)
            else LoadsFrom(filled, server, texts, local, o.nrow, strict, log2)
  {}

  // ----- Single statements, as R sends them -----

  lemma {:induction false} Unused(ids: set<L.Id>) returns (id: L.Id)
    ensures forall k :: k in ids ==> k < id
    decreases ids
  {
    if ids == {} {
      id := 0;
    } else {
      var k :| k in ids;
      var above := Unused(ids - {k});
      assert forall j :: j in ids ==> j == k || j in ids - {k};
      id := if k < above then above else k + 1;
    }
  }

  /** No committed work is lost, and within a transaction only uncommitted work is added. */
  ghost predicate Extends(before: L.World, after: L.World) {
    && after.open == before.open && after.transacting == before.transacting
    && before.durable <= after.durable
    && (before.transacting ==> after.durable == before.durable && before.pending <= after.pending)
  }

  lemma StepExtends(w: L.World, e: L.Event)
    requires w.open && L.Enabled(w, e) && (e.Create? || e.Fetch? || e.Destroy?)
    ensures Extends(w, L.Step(w, e)) && L.Step(w, e).Visible() == w.Visible() + L.Effect(w, e)
  {
    if w.transacting {
      L.StepIsolated(w, e);
    }
    L.StepConserves(w, e);
  }

  /** Immediate execution outside a transaction is committed when it succeeds. */
  lemma SimpleIsCommitted(w: L.World, e: L.Event)
    requires w.open && !w.transacting && e.Create? && L.Enabled(w, e)
    requires (e.immediate || e.prep.Unsupported?) && e.simple.Done?
    ensures L.Step(w, e).pending == []
  {}

  /** `dbClearResult` */
  method Clear(res: DbResult)
    requires res.Live() && res.conn.open
    modifies res.conn`current, res.conn`results, res.conn`impls, res.conn.session, res.Handles()
    ensures res.conn.Consistent() && Extends(old(res.conn.View()), res.conn.View())
    ensures res.conn.session.Visible() == old(res.conn.session.Visible())
    ensures res.conn.current == if old(res.conn.current) == res then null else old(res.conn.current)
    ensures !old(res.conn.transacting) && (res.impl.PrepImpl? || old(res.conn.session.pending) == []) ==>
              res.conn.session.pending == []
  {
    StepExtends(res.conn.View(), L.Destroy(res.id));
    ghost var log := res.conn.session.Visible();
    assert log + [] == log;
    res.Release();
    assert res.conn.session.Visible() == res.conn.View().Visible();
  }

  /** A result that has just been sent reports what the server said. */
  lemma ReportsAffected(prep: MariaResultPrep, sql: string, log: Log)
    requires prep.JustSent(sql, true, log)
    ensures RowsReported(prep.conn.session.server, sql, true, log) ==
            if prep.RowsAffected().None? then None else Some(prep.RowsAffected().value as int)
  {}

  /** `dbGetRowsAffected` and `dbClearResult` */
  method ReportAndClear(res: DbResult, ghost sql: string, ghost log: Log) returns (affected: Option<int>)
    requires res.Live() && res.conn.open
    requires if res.impl.PrepImpl? then res.impl.prep.JustSent(sql, true, log)
             else res.conn.session.server.prepare(sql).UnsupportedProtocol?
    modifies res.conn`current, res.conn`results, res.conn`impls, res.conn.session, res.Handles()
    ensures res.conn.Consistent() && Extends(old(res.conn.View()), res.conn.View())
    ensures res.conn.session.Visible() == old(res.conn.session.Visible())
    ensures res.conn.current == if old(res.conn.current) == res then null else old(res.conn.current)
    ensures affected == RowsReported(res.conn.session.server, sql, true, log)
    ensures !old(res.conn.transacting) && (res.impl.PrepImpl? || old(res.conn.session.pending) == []) ==>
              res.conn.session.pending == []
  {
    affected := Some(0);
    if res.impl.PrepImpl? {
      ReportsAffected(res.impl.prep, sql, log);
      var n := res.impl.prep.RowsAffected();
      affected := if n.None? then None else Some(n.value as int);
    }
    Clear(res);
  }

  /** `dbSendQuery` and `dbSendStatement`; the result is null if they fail. */
  method Send(conn: DbConnection, sql: string, isStatement: bool) returns (res: DbResult?)
    requires conn.Consistent() && conn.open
    modifies conn`current, conn`results, conn`impls, conn.session,
             if conn.current != null then conn.current.Handles() else {}
    ensures conn.Consistent() && Extends(old(conn.View()), conn.View()) && conn.current == res
    ensures conn.session.Visible() == SendLog(conn.session.server, sql, isStatement, old(conn.session.Visible()))
    ensures res != null <==> SendOk(conn.session.server, sql, isStatement, old(conn.session.Visible()))
    ensures res != null ==>
              && fresh(res) && res.conn == conn && res.Live()
              && (if res.impl.PrepImpl? then
                    && fresh(res.impl.prep) && fresh(res.impl.prep.bindingInput) && fresh(res.impl.prep.bindingOutput)
                    && res.Sent(sql, isStatement, old(conn.session.Visible()))
                  else
                    && conn.session.server.prepare(sql).UnsupportedProtocol?
                    && (!old(conn.transacting) ==> conn.session.pending == []))
  {
    ghost var w := conn.View();
    ghost var id := Unused(conn.results.Keys);
    ghost var e;
    res, e := DbResult.CreateAndSendQuery(conn, sql, isStatement, false, id);
    StepExtends(w, e);
    if res != null && res.impl.SimpleImpl? && !w.transacting {
      SimpleIsCommitted(w, e);
    }
    assert conn.session.Visible() == conn.View().Visible();
  }

  /** `dbExecute` */
  method DbExecute(conn: DbConnection, sql: string) returns (affected: Option<int>)
    requires conn.Consistent() && conn.open
    modifies conn`current, conn`results, conn`impls, conn.session,
             if conn.current != null then conn.current.Handles() else {}
    ensures conn.Consistent() && Extends(old(conn.View()), conn.View()) && conn.current == null
    ensures (affected, conn.session.Visible()) == Executed(conn.session.server, sql, old(conn.session.Visible()))
    // Outside a transaction what succeeds is committed.
    ensures !old(conn.transacting) && affected.Some? ==> conn.session.pending == []
  {
    ghost var log := conn.session.Visible();
    var res := Send(conn, sql, true);
    if res == null {
      return None;
    }
    affected := ReportAndClear(res, sql, log);
  }

  /** What a fetch of everything takes from a query that has just been sent. */
  lemma SentStream(prep: MariaResultPrep, sql: string, log: Log)
    requires prep.Valid() && prep.JustSent(sql, false, log) && prep.conn.open && prep.nParams == 0 && prep.spec.Some?
    ensures prep.bindingInput.Safe()
    ensures var reply := prep.conn.session.server.run(log, Work(sql, []));
            var c := prep.NextChunk(-1);
            && TakesAll(c, reply, prep.conn.session.Visible())
            && Drain(prep.Runs(), sql, prep.Source(), prep.conn.session.Visible()).rows == reply.rows
  {
    var reply := prep.conn.session.server.run(log, Work(sql, []));
    assert prep.Source() == Source(Rows(reply.rows, reply.broken), []);
    assert reply.rows + [] == reply.rows;
    TakeIsPrefix(prep.Runs(), sql, prep.Source(), prep.conn.session.Visible(), -1);
  }

  lemma SentFetchable(prep: MariaResultPrep, sql: string, log: Log)
    requires prep.Valid() && prep.JustSent(sql, false, log) && prep.conn.open
    requires |prep.conn.session.server.run(log, Work(sql, [])).rows| <= MAX_ROWS
    ensures prep.Fetchable(-1)
  {
    if prep.nParams == 0 && prep.spec.Some? {
      SentStream(prep, sql, log);
    } else {
      var c := prep.OpenCursor();
      assert c.Rows? ==> c.rest + [] == c.rest;
    }
  }

  function RowsFetched(f: Fetched): Option<seq<seq<Value>>> {
    if f.Frame? && Rectangular(f.df, |f.df.columns|, f.df.nrow) then Some(RowsOf(f.df)) else None
  }

  /** The chunk that a fetch of everything takes, for the reply to a query. */
  ghost predicate TakesAll(c: Chunk, reply: Reply, now: Log) {
    c.rows == reply.rows && c.stop == (if reply.broken then Error else End) && c.log == now
  }

  /** After a fetch of all rows of a query that had just been sent. */
  lemma AllFetched(
    prep: MariaResultPrep, f: Fetched, c: Chunk, counter: nat, sql: string, p: Prepared, log: Log, now: Log)
    requires prep.Valid() && prep.bindingInput.Safe() && prep.AfterFetch(f, c, counter, now)
    requires prep.conn.session.server.prepare(sql) == PrepareOk(p) && SendOk(prep.conn.session.server, sql, false, log)
    requires var fields := FieldsSent(p, false);
             && prep.types == (if fields.Some? then fields.value else []) && prep.spec == fields
             && prep.bound == (p.nParams == 0)
    requires p.nParams == 0 && FieldsSent(p, false).Some? ==>
               TakesAll(c, prep.conn.session.server.run(log, Work(sql, [])), now)
    ensures prep.conn.session.Visible() == now
    ensures RowsFetched(f) == Queried(prep.conn.session.server, sql, log).0
  {
    var reply := prep.conn.session.server.run(log, Work(sql, []));
    if f.Frame? {
      ShownRows(f.df, |prep.types|, if prep.spec.Some? then DecodedRows(reply.rows, prep.types) else []);
    }
  }

  /** `dbFetch` of all rows of a query that has just been sent. */
  method FetchAll(res: DbResult, ghost sql: string, ghost log: Log) returns (rows: Option<seq<seq<Value>>>)
    requires res.Live() && res.conn.open && res.impl.PrepImpl? && res.impl.prep.stmtOpen
    requires res.impl.prep.Valid() && res.impl.prep.JustSent(sql, false, log)
    requires |res.conn.session.server.run(log, Work(sql, [])).rows| <= MAX_ROWS
    requires SendOk(res.conn.session.server, sql, false, log)
    modifies res.impl.prep`cursor, res.impl.prep`current, res.impl.prep`spec, res.impl.prep`complete,
             res.impl.prep`rowsAffected, res.impl.prep`rowsFetched, res.impl.prep.bindingInput,
             res.impl.prep.bindingOutput, res.conn.session`pending
    ensures res.conn.session.pending == old(res.conn.session.pending)
    ensures rows == Queried(res.conn.session.server, sql, log).0
  {
    ghost var now := res.conn.session.Visible();
    ghost var prep := res.impl.prep;
    assert prep.Fetchable(-1) by { SentFetchable(prep, sql, log); }
    ghost var c, counter, p := prep.NextChunk(-1), prep.rowsFetched, prep.stmt.prepared;
    assert prep.nParams == 0 && prep.spec.Some? ==>
        TakesAll(c, res.conn.session.server.run(log, Work(sql, [])), now) by {
      if prep.nParams == 0 && prep.spec.Some? {
        SentStream(prep, sql, log);
      }
    }
    var f, effect := res.FetchImpl(-1);
    AllFetched(prep, f, c, counter, sql, p, log, now);
    rows := RowsFetched(f);
    assert |res.conn.session.Visible()| == |now|;
  }

  /** The same after immediate execution, which has no rows to offer. */
  method FetchNothing() returns (rows: Option<seq<seq<Value>>>)
    ensures rows == Some([])
  {
    var f := DbResult.FetchSimple();
    ShownRows(f.df, 0, []);
    rows := RowsFetched(f);
  }

  /** Queries whose results can be counted in an int. */
  ghost predicate Countable(server: ProtocolServer, sql: string) {
    forall log: Log :: |server.run(log, Work(sql, [])).rows| <= MAX_ROWS
  }

  /** `dbGetQuery` */
  method DbGetQuery(conn: DbConnection, sql: string) returns (rows: Option<seq<seq<Value>>>)
    requires conn.Consistent() && conn.open && Countable(conn.session.server, sql)
    modifies conn`current, conn`results, conn`impls, conn.session,
             if conn.current != null then conn.current.Handles() else {}
    ensures conn.Consistent() && Extends(old(conn.View()), conn.View()) && conn.current == null
    ensures (rows, conn.session.Visible()) == Queried(conn.session.server, sql, old(conn.session.Visible()))
  {
    ghost var log := conn.session.Visible();
    var res := Send(conn, sql, false);
    rows := None;
    if res != null {
      rows := FetchAndClear(res, sql, log);
    }
  }

  /** `dbFetch` and `dbClearResult`; the result is current, so that the check of `fetch` passes. */
  method FetchAndClear(res: DbResult, ghost sql: string, ghost log: Log) returns (rows: Option<seq<seq<Value>>>)
    requires res.Live() && res.conn.open && res.conn.current == res
    requires if res.impl.PrepImpl? then res.impl.prep.Valid() && res.impl.prep.JustSent(sql, false, log)
             else res.conn.session.server.prepare(sql).UnsupportedProtocol?
    requires |res.conn.session.server.run(log, Work(sql, [])).rows| <= MAX_ROWS
    requires SendOk(res.conn.session.server, sql, false, log)
    modifies res.conn`current, res.conn`results, res.conn`impls, res.conn.session, res.Handles(),
             if res.impl.PrepImpl? then {res.impl.prep.bindingInput, res.impl.prep.bindingOutput} else {}
    ensures res.conn.Consistent() && Extends(old(res.conn.View()), res.conn.View())
    ensures res.conn.session.Visible() == old(res.conn.session.Visible()) && res.conn.current == null
    ensures rows == Queried(res.conn.session.server, sql, log).0
  {
    if res.impl.PrepImpl? {
      rows := FetchAll(res, sql, log);
    } else {
      rows := FetchNothing();
    }
    Clear(res);
  }

  // ----- Appending and writing -----

  /** The database part of `db_append_table`. */
  method LoadFile(conn: DbConnection, texts: Texts) returns (out: Option<int>)
    requires conn.Consistent() && conn.open && Countable(conn.session.server, texts.count)
    modifies conn`current, conn`results, conn`impls, conn.session,
             if conn.current != null then conn.current.Handles() else {}
    ensures conn.Consistent() && Extends(old(conn.View()), conn.View()) && conn.current == null
    ensures (out, conn.session.Visible()) == Loaded(conn.session.server, texts, old(conn.session.Visible()))
  {
    var before := DbGetQuery(conn, texts.count);
    if before.None? {
      return None;
    }
    out := DbExecute(conn, texts.load);
    if out == Some(0) {
      out := CountAgain(conn, texts, CountIn(before.value));
    }
  }

  /** The number of rows that have been added since they were counted before. */
  method CountAgain(conn: DbConnection, texts: Texts, before: int) returns (added: Option<int>)
    requires conn.Consistent() && conn.open && Countable(conn.session.server, texts.count)
    modifies conn`current, conn`results, conn`impls, conn.session,
             if conn.current != null then conn.current.Handles() else {}
    ensures conn.Consistent() && Extends(old(conn.View()), conn.View()) && conn.current == null
    ensures var (after, log) := Queried(conn.session.server, texts.count, old(conn.session.Visible()));
            && conn.session.Visible() == log
            && added == if after.None? then None else Some(CountIn(after.value) - before)
  {
    var after := DbGetQuery(conn, texts.count);
    added := if after.None? then None else Some(CountIn(after.value) - before);
  }

  /** The end of a transaction: commit on success, and rollback by the exit handler otherwise. */
  method EndTransaction(conn: DbConnection, ok: bool)
    requires conn.Consistent() && conn.open && conn.transacting
    modifies conn`transacting, conn.session
    ensures conn.Consistent() && !conn.transacting && conn.session.pending == []
    ensures conn.session.durable == if ok then old(conn.session.Visible()) else old(conn.session.durable)
  {
    if ok {
      var _ := conn.Commit();
    } else {
      var _ := conn.Rollback();
    }
  }

  /** `db_append_table` as `dbAppendTable` calls it. By default it begins a transaction of
      its own: within one of the caller it always fails and changes nothing, and otherwise
      either what the statements did is durable, with all rows among it, or nothing is.
      If it is told not to be safe it only loads the file. */
  method AppendTable(conn: DbConnection, texts: Texts, local: Local, nrow: nat, safe: bool) returns (out: Option<int>)
    requires conn.Consistent() && conn.open && Countable(conn.session.server, texts.count)
    modifies conn`current, conn`transacting, conn`results, conn`impls, conn.session,
             if conn.current != null then conn.current.Handles() else {}
    ensures conn.Consistent() && conn.open && conn.transacting == old(conn.transacting)
    ensures (safe && old(conn.transacting)) || !local.fileWritten ==> out.None? && conn.View() == old(conn.View())
    ensures safe && !old(conn.transacting) && local.fileWritten ==>
              var loaded := Loaded(conn.session.server, texts, old(conn.session.Visible()));
              && (out.Some? <==> loaded.0.Some? && loaded.0.value >= nrow) && (out.Some? ==> out == loaded.0)
              && conn.session.pending == []
              && conn.session.durable == (if out.Some? then loaded.1 else old(conn.session.durable))
    ensures !safe && local.fileWritten ==>
              && (out, conn.session.Visible()) == Executed(conn.session.server, texts.load, old(conn.session.Visible()))
              && Extends(old(conn.View()), conn.View())
  {
    out := None;
    if local.fileWritten {
      if safe {
        var begun := conn.BeginTransaction();
        if begun {
          out := LoadAndEnd(conn, texts, nrow);
        }
      } else {
        out := DbExecute(conn, texts.load);
      }
    }
  }

  method LoadAndEnd(conn: DbConnection, texts: Texts, nrow: nat) returns (out: Option<int>)
    requires conn.Consistent() && conn.open && conn.transacting && Countable(conn.session.server, texts.count)
    modifies conn`current, conn`transacting, conn`results, conn`impls, conn.session,
             if conn.current != null then conn.current.Handles() else {}
    ensures conn.Consistent() && conn.open && !conn.transacting && conn.session.pending == []
    ensures var loaded := Loaded(conn.session.server, texts, old(conn.session.Visible()));
            && (out.Some? <==> loaded.0.Some? && loaded.0.value >= nrow) && (out.Some? ==> out == loaded.0)
            && conn.session.durable == (if out.Some? then loaded.1 else old(conn.session.durable))
  {
    out := LoadFile(conn, texts);
    if out.Some? && out.value < nrow {
      out := None;
    }
    EndTransaction(conn, out.Some?);
  }

  /** `dbWriteTable` up to dropping the table. */
  method ProbeAndDrop(conn: DbConnection, texts: Texts, o: Options) returns (ok: bool, create: bool)
    requires conn.Consistent() && conn.open && Countable(conn.session.server, texts.probe)
    modifies conn`current, conn`results, conn`impls, conn.session,
             if conn.current != null then conn.current.Handles() else {}
    ensures conn.Consistent() && Extends(old(conn.View()), conn.View())
    ensures conn.current == null || conn.current == old(conn.current)
    ensures (ok, create, conn.session.Visible()) ==
            Cleared(conn.session.server, texts, o, old(conn.session.Visible()))
  {
    var found := false;
    if !o.temporary {
      var probe := DbGetQuery(conn, texts.probe);
      found := probe.Some?;
      if found && !o.overwrite && !o.append {
        return false, false;
      }
    }
    ok, create := true, !found || o.overwrite;
    if o.overwrite {
      var dropped := DbExecute(conn, texts.drop);
      ok := dropped.Some?;
    }
  }

  /** `dbWriteTable` between begin and commit. */
  method CreateAndFill(conn: DbConnection, texts: Texts, local: Local, o: Options, strict: bool) returns (ok: bool)
    requires conn.Consistent() && conn.open
    requires Countable(conn.session.server, texts.count) && Countable(conn.session.server, texts.probe)
    modifies conn`current, conn`results, conn`impls, conn.session,
             if conn.current != null then conn.current.Handles() else {}
    ensures conn.Consistent() && Extends(old(conn.View()), conn.View())
    ensures (ok, conn.session.Visible()) ==
            FilledTable(conn.session.server, texts, local, o, strict, old(conn.session.Visible()))
  {
    var create;
    ok, create := ProbeAndDrop(conn, texts, o);
    if ok {
      ok := CreateAndLoad(conn, texts, local, o, strict, create);
    }
  }

  method CreateAndLoad(conn: DbConnection, texts: Texts, local: Local, o: Options, strict: bool, create: bool)
    returns (ok: bool)
    requires conn.Consistent() && conn.open && Countable(conn.session.server, texts.count)
    modifies conn`current, conn`results, conn`impls, conn.session,
             if conn.current != null then conn.current.Handles() else {}
    ensures conn.Consistent() && Extends(old(conn.View()), conn.View())
    ensures (ok, conn.session.Visible()) ==
            CreatedAndLoaded(conn.session.server, texts, local, o, strict, create, old(conn.session.Visible()))
  {
    if create {
      if !local.typesKnown {
        return false;
      }
      var created := DbExecute(conn, texts.create);
      if created.None? {
        return false;
      }
    }
    if o.nrow > 0 {
      if !local.fileWritten {
        return false;
      }
      var out := LoadFile(conn, texts);
      if out.None? || (out.value < o.nrow && strict) {
        return false;
      }
    }
    return true;
  }

  /** `dbWriteTable`: opens a transaction only if there is none, and on every exit leaves
      the transaction flag as it was. Within a transaction of the caller it only adds
      uncommitted work. Its own transaction makes everything durable on success, and on
      failure leaves the durable state as it was. */
  method WriteTable(conn: DbConnection, texts: Texts, local: Local, o: Options) returns (ok: bool)
    requires conn.Consistent() && conn.open
    requires Countable(conn.session.server, texts.count) && Countable(conn.session.server, texts.probe)
    modifies conn`current, conn`transacting, conn`results, conn`impls, conn.session,
             if conn.current != null then conn.current.Handles() else {}
    ensures conn.Consistent() && conn.open && conn.transacting == old(conn.transacting)
    ensures o.overwrite && o.append ==> !ok && conn.View() == old(conn.View())
    ensures !(o.overwrite && o.append) ==>
              var strict, log := !old(conn.transacting), old(conn.session.Visible());
              var filled := FilledTable(conn.session.server, texts, local, o, strict, log);
              && ok == filled.0
              && (if old(conn.transacting) then
                    Extends(old(conn.View()), conn.View()) && conn.session.Visible() == filled.1
                  else
                    && conn.session.pending == []
                    && conn.session.durable == if ok then filled.1 else old(conn.session.durable))
  {
    if o.overwrite && o.append {
      return false;
    }
    var needTransaction := !conn.transacting;
    if needTransaction {
      var _ := conn.BeginTransaction();
    }
    ok := CreateAndFill(conn, texts, local, o, needTransaction);
    if needTransaction {
      EndTransaction(conn, ok);
    }
  }
}
