/** The driver's objects: DbConnection, DbResult and MariaResultPrep, which refer to
    each other, and the server session they share. */
module Client {
  import opened MachineInts
  import opened Server
  import opened Binding
  import opened ResultRow
  import opened DataFrames
  import opened Stream
  import opened Conversation
  import L = Lifecycle

  /** What the protocol guarantees about a server: the rows of a statement have the
      columns its metadata announce. */
  ghost predicate Protocol(server: Server) {
    forall sql: string, log: Log, args: seq<Sent> ::
      RowsAsAnnounced(server.prepare(sql), server.run(log, Work(sql, args)))
  }

  ghost predicate RowsAsAnnounced(prepared: PrepareReply, reply: Reply) {
    prepared.PrepareOk? ==>
      && (prepared.prepared.fields.Some? ==> AllReceivable(reply.rows, prepared.prepared.fields.value))
      && (prepared.prepared.lateFields.Some? ==> AllReceivable(reply.rows, prepared.prepared.lateFields.value))
  }

  /** The servers that do so. */
  type ProtocolServer = server: Server | Protocol(server)
    ghost witness Server(_ => PrepareFailed, (_, _) => Reply(false, [], 0, [], false))

  /** The server side of a connection. Autocommit is off: work stays pending until it
      is committed or rolled back. */
  class Session {
    const server: ProtocolServer
    var durable: Log
    var pending: Log

    constructor (server: ProtocolServer, durable: Log)
      ensures this.server == server && this.durable == durable && pending == []
    {
      this.server := server;
      this.durable := durable;
      pending := [];
    }

    function Visible(): Log
      reads this
    {
      durable + pending
    }

    method Perform(effect: Log)
      modifies `pending
      ensures pending == old(pending) + effect && Visible() == old(Visible()) + effect
    {
      assert durable + (pending + effect) == durable + pending + effect;
      pending := pending + effect;
    }

    method Commit()
      modifies this
      ensures durable == old(Visible()) && pending == []
    {
      durable := durable + pending;
      pending := [];
    }

    method Rollback()
      modifies `pending
      ensures pending == []
    {
      pending := [];
    }
  }

  class DbConnection {
    const session: Session
    var open: bool               // pConn_ is not NULL
    var current: DbResult?       // pCurrentResult_
    var transacting: bool
    ghost var results: map<L.Id, DbResult>  // the fully built results, until they are destroyed
    ghost var impls: map<L.Id, L.Impl>      // what they own

    constructor (session: Session)
      requires session.pending == []
      ensures this.session == session && View() == L.Connected(session.durable) && Consistent()
    {
      this.session := session;
      open, current, transacting := true, null, false;
      results, impls := map[], map[];
    }

    /** The connection and its results as a state of the life cycle. */
    ghost function View(): L.World
      reads this, session
    {
      L.World(open, transacting, session.durable, session.pending, CurrentId(), impls)
    }

    ghost function CurrentId(): Option<L.Id>
      reads `current
    {
      if current == null then None else Some(current.id)
    }

    /** Each recorded result belongs to this connection, shares its statement with no
        other, and owns what `impls` says. */
    ghost predicate Tracked()
      reads `results, `impls, results.Values`impl,
            (set r | r in results.Values && r.impl.PrepImpl? :: r.impl.prep)`stmtOpen
    {
      && results.Keys == impls.Keys
      && forall id :: id in results ==>
           var r := results[id];
           r.id == id && r.conn == this && r.Built() && r.Kind() == impls[id]
    }

    ghost predicate Consistent()
      reads `current, `results, `impls, results.Values`impl,
            (set r | r in results.Values && r.impl.PrepImpl? :: r.impl.prep)`stmtOpen
    {
      && Tracked()
      && (current != null ==> current.id in results && results[current.id] == current)
      && L.OneOwner(CurrentId(), impls)
    }

    /** Forgets a result that is destroyed. */
    ghost method Delist(id: L.Id)
      requires Tracked() && id in results
      modifies this`results, this`impls
      ensures Tracked() && results == old(results) - {id} && impls == old(impls) - {id}
    {
      results := results - {id};
      impls := impls - {id};
    }

    method Autocommit()
      modifies session
      ensures View() == L.Autocommit(old(View()))
    {
      if !transacting && open {
        session.Commit();
      }
    }

    /** Makes a result current; the one that was is cancelled. */
    method SetCurrentResult(r: DbResult)
      requires Tracked() && (current != null ==> current.id in results && results[current.id] == current)
      modifies this`current, this`impls, session, if current != null then current.Handles() else {}
      ensures Tracked() && current == r
      ensures View() == if r == old(current) then old(View()) else L.TakeOver(old(View()), r.id)
    {
      if r == current {
        return;
      }
      if current != null {
        current.Close();
      }
      current := r;
    }

    /** The destructor of the current result takes it off the connection. */
    method ResetCurrentResult(r: DbResult)
      requires Tracked() && r.conn == this && r.Known()
      modifies this`current, this`impls, session, r.Handles()
      ensures Tracked() && current == if r == old(current) then null else old(current)
      ensures View() == if r != old(current) then old(View())
                        else (if r.impl.NoImpl? then old(View()) else L.Close(old(View()), r.id)).(current := None)
    {
      if r != current {
        return;
      }
      r.Close();
      current := null;
    }

    /** Immediate execution. A failure is raised before the commit. */
    method Exec(sql: string) returns (ok: bool, ghost outcome: L.SimpleOutcome)
      requires open
      modifies session
      ensures var reply := session.server.run(old(session.Visible()), Work(sql, []));
              ok == reply.ok && outcome == (if ok then L.Done(reply.effect) else L.QueryError(reply.effect))
      ensures var worked := L.AddWork(old(View()), outcome.effect);
              View() == if ok then L.Autocommit(worked) else worked
    {
      var reply := session.server.run(session.Visible(), Work(sql, []));
      session.Perform(reply.effect);
      if !reply.ok {
        return false, L.QueryError(reply.effect);
      }
      Autocommit();
      return true, L.Done(reply.effect);
    }

    method BeginTransaction() returns (ok: bool)
      requires Consistent()
      modifies this`transacting
      ensures ok == (old(!transacting) && open)
      ensures transacting == (old(transacting) || ok)
      ensures Consistent() && View() == L.Step(old(View()), L.Begin)
    {
      if transacting {
        return false;
      }
      if !open {
        return false;
      }
      transacting := true;
      return true;
    }

    method Commit() returns (ok: bool)
      requires Consistent()
      modifies this`transacting, session
      ensures ok == (old(transacting) && open)
      ensures if ok then !transacting && session.durable == old(session.Visible()) && session.pending == []
              else View() == old(View())
      ensures Consistent() && View() == L.Step(old(View()), L.Commit)
    {
      if !transacting {
        return false;
      }
      if !open {
        return false;
      }
      session.Commit();
      transacting := false;
      return true;
    }

    method Rollback() returns (ok: bool)
      requires Consistent()
      modifies this`transacting, session
      ensures ok == (old(transacting) && open)
      ensures if ok then !transacting && session.durable == old(session.durable) && session.pending == []
              else View() == old(View())
      ensures Consistent() && View() == L.Step(old(View()), L.Rollback)
    {
      if !transacting {
        return false;
      }
      if !open {
        return false;
      }
      session.Rollback();
      transacting := false;
      return true;
    }

    /** The server drops what was not committed. The results stay, with their handles. */
    method Disconnect()
      requires Consistent()
      modifies this`open, session
      ensures Consistent() && View() == L.Step(old(View()), L.Disconnect)
    {
      if !open {
        return;
      }
      session.Rollback();
      open := false;
    }
  }

  /** What a result owns. Immediate execution leaves nothing behind; NoImpl is a result
      whose constructor has not finished. */
  datatype Impl = NoImpl | PrepImpl(prep: MariaResultPrep) | SimpleImpl

  class DbResult {
    const conn: DbConnection
    ghost const id: L.Id
    var impl: Impl

    ghost function Handles(): set<MariaResultPrep>
      reads `impl
    {
      if impl.PrepImpl? then {impl.prep} else {}
    }

    /** The constructor has finished, and a statement belongs to this result alone. */
    ghost predicate Built()
      reads `impl
    {
      !impl.NoImpl? && (impl.PrepImpl? ==> impl.prep.conn == conn && impl.prep.owner == id)
    }

    ghost function Kind(): L.Impl
      reads `impl, Handles()`stmtOpen
    {
      if impl.PrepImpl? then L.Prep(impl.prep.stmtOpen) else L.Simple
    }

    constructor (conn: DbConnection, ghost id: L.Id)
      ensures this.conn == conn && this.id == id && impl == NoImpl
    {
      this.conn := conn;
      this.id := id;
      impl := NoImpl;
    }

    /** The connection has this result on record, once its constructor has finished. */
    ghost predicate Known()
      reads `impl, conn`results
    {
      if impl.NoImpl? then id !in conn.results else id in conn.results && conn.results[id] == this
    }

    /** What a successful constructor has left behind. */
    ghost predicate Sent(sql: string, isStatement: bool, log: Log)
      reads this, Handles(), if impl.PrepImpl? then {impl.prep.bindingInput, impl.prep.bindingOutput} else {}
    {
      impl.PrepImpl? ==> impl.prep.Valid() && impl.prep.JustSent(sql, isStatement, log)
    }

    method Close()
      requires conn.Tracked() && Known()
      modifies conn`impls, conn.session, Handles()
      ensures conn.Tracked()
      ensures conn.View() == if impl.NoImpl? then old(conn.View()) else L.Close(old(conn.View()), id)
    {
      if impl.PrepImpl? {
        impl.prep.Close();
        conn.impls := conn.impls[id := L.Prep(false)];
        forall k | k in conn.results ensures conn.impls[k] == conn.results[k].Kind() {
          if k != id && conn.results[k].impl.PrepImpl? {
            assert conn.results[k].impl.prep.owner == k;
          }
        }
      }
    }

    /** Makes a prepared statement and sends the query. Without success the statement is
        destroyed again, which commits outside a transaction. */
    static method TryPrepared(conn: DbConnection, sql: string, isStatement: bool, ghost id: L.Id)
      returns (prep: MariaResultPrep, sent: SendOutcome, ghost outcome: L.PrepOutcome)
      requires conn.open
      modifies conn.session
      ensures fresh(prep) && fresh(prep.bindingInput) && fresh(prep.bindingOutput)
      ensures prep.conn == conn && prep.owner == id && prep.Valid()
      ensures outcome == PlannedPrep(conn.session.server, sql, isStatement, old(conn.session.Visible()))
      ensures sent == (if outcome.Unsupported? then UnsupportedPS else if outcome.Ready? then Delivered else SendFailed)
      ensures var worked := L.AddWork(old(conn.View()), L.PrepEffect(outcome));
              conn.View() == if sent == Delivered then worked else L.Autocommit(worked)
      ensures sent == Delivered ==> prep.JustSent(sql, isStatement, old(conn.session.Visible()))
    {
      outcome := PlannedPrep(conn.session.server, sql, isStatement, conn.session.Visible());
      prep := new MariaResultPrep(conn, isStatement, id);
      sent := prep.SendQuery(sql);
      if sent != Delivered {
        prep.Close();
      }
    }

    /** `res.swap(impl)`: the constructor has finished, and the result goes on record. */
    method SwapImpl(res: Impl)
      requires conn.Tracked() && impl.NoImpl? && Known() && !res.NoImpl?
      requires res.PrepImpl? ==> res.prep.conn == conn && res.prep.owner == id
      modifies this`impl, conn`impls, conn`results
      ensures conn.Tracked() && impl == res
      ensures conn.results == old(conn.results)[id := this] && conn.impls == old(conn.impls)[id := Kind()]
    {
      assert forall k :: k in conn.results ==> conn.results[k] != this;
      impl := res;
      conn.impls := conn.impls[id := Kind()];
      conn.results := conn.results[id := this];
    }

    /** The prepared-statement part of the constructor of MariaResult. */
    method RunPrepared(sql: string, isStatement: bool) returns (sent: SendOutcome, ghost outcome: L.PrepOutcome)
      requires conn.open && conn.current == this && impl.NoImpl?
      requires conn.Tracked() && Known()
      modifies this`impl, conn`current, conn`impls, conn`results, conn.session
      ensures conn.Tracked()
      ensures conn.results == if sent == Delivered then old(conn.results)[id := this] else old(conn.results)
      ensures outcome == PlannedPrep(conn.session.server, sql, isStatement, old(conn.session.Visible()))
      ensures sent == (if outcome.Unsupported? then UnsupportedPS else if outcome.Ready? then Delivered else SendFailed)
      ensures conn.View() == if sent == UnsupportedPS then L.Autocommit(old(conn.View()))
                             else L.RunPrep(old(conn.View()), id, outcome, L.Done([]))
      ensures conn.current == if sent == SendFailed then null else this
      ensures sent == Delivered ==>
                && impl.PrepImpl?
                && fresh(impl.prep) && fresh(impl.prep.bindingInput) && fresh(impl.prep.bindingOutput)
      ensures sent != Delivered ==> impl.NoImpl?
      ensures sent == Delivered ==> Sent(sql, isStatement, old(conn.session.Visible()))
    {
      ghost var before := conn.View();
      var prep;
      prep, sent, outcome := TryPrepared(conn, sql, isStatement, id);
      if sent != Delivered {
        L.PrepFails(before, id, outcome, L.Done([]));
      }
      if sent == Delivered {
        SwapImpl(PrepImpl(prep));
      } else if sent == SendFailed {
        conn.ResetCurrentResult(this);
      }
    }

    /** The immediate part of the constructor of MariaResult. */
    method RunSimple(sql: string) returns (ok: bool, ghost outcome: L.SimpleOutcome)
      requires conn.open && conn.current == this && impl.NoImpl? && conn.Tracked() && Known()
      modifies this`impl, conn`current, conn`impls, conn`results, conn.session
      ensures conn.Tracked()
      ensures conn.results == if ok then old(conn.results)[id := this] else old(conn.results)
      ensures outcome == PlannedSimple(conn.session.server, sql, old(conn.session.Visible())) && (ok <==> outcome.Done?)
      ensures conn.View() == L.RunSimple(old(conn.View()), id, outcome)
      ensures if ok then conn.current == this && impl.SimpleImpl? else conn.current == null
    {
      ok, outcome := conn.Exec(sql);
      if !ok {
        conn.ResetCurrentResult(this);
        return;
      }
      SwapImpl(SimpleImpl);
    }

    /** The body of the constructor of MariaResult: tries a prepared statement and falls
        back to immediate execution. */
    method RunQuery(sql: string, isStatement: bool, immediate: bool) returns (ok: bool, ghost e: L.Event)
      requires conn.open && conn.current == this && impl.NoImpl?
      requires conn.Tracked() && Known()
      modifies this`impl, conn`current, conn`impls, conn`results, conn.session
      ensures conn.Tracked()
      ensures conn.results == if ok then old(conn.results)[id := this] else old(conn.results)
      ensures e == Planned(id, conn.session.server, sql, isStatement, immediate, old(conn.session.Visible()))
      ensures conn.View() == if immediate then L.RunSimple(old(conn.View()), id, e.simple)
                             else L.RunPrep(old(conn.View()), id, e.prep, e.simple)
      ensures ok == L.Succeeds(e) && conn.current == if ok then this else null
      ensures ok ==>
                && !impl.NoImpl? && (impl.SimpleImpl? <==> immediate || e.prep.Unsupported?)
                && Sent(sql, isStatement, old(conn.session.Visible()))
                && (impl.PrepImpl? ==>
                      fresh(impl.prep) && fresh(impl.prep.bindingInput) && fresh(impl.prep.bindingOutput))
    {
      ghost var before, log := conn.View(), conn.session.Visible();
      e := Planned(id, conn.session.server, sql, isStatement, immediate, log);
      var fallback;
      fallback, ok := immediate, false;
      if !immediate {
        var sent, _ := RunPrepared(sql, isStatement);
        fallback, ok := sent == UnsupportedPS, sent == Delivered;
        assert fallback ==> conn.session.Visible() == log by { L.AutocommitVisible(before); }
      }
      if fallback {
        ghost var outcome;
        ok, outcome := RunSimple(sql);
      }
    }

    /** The constructor of MariaResult, which begins with the one of DbResult: it cancels
        the current result. The result is null if the constructor throws. */
    static method Construct(conn: DbConnection, sql: string, isStatement: bool, immediate: bool, ghost id: L.Id)
      returns (result: DbResult?, ghost e: L.Event)
      requires conn.open && conn.Consistent() && id !in conn.results
      modifies conn`current, conn`impls, conn`results, conn.session,
               if conn.current != null then conn.current.Handles() else {}
      ensures conn.results == if result == null then old(conn.results) else old(conn.results)[id := result]
      ensures e == Planned(id, conn.session.server, sql, isStatement, immediate, old(conn.session.Visible()))
      ensures conn.View() == L.Step(old(conn.View()), e) && (result != null <==> L.Succeeds(e))
      ensures conn.Consistent() && conn.current == result
      ensures result != null ==>
                && fresh(result) && result.id == id && result.conn == conn && !result.impl.NoImpl?
                && (result.impl.SimpleImpl? <==> immediate || e.prep.Unsupported?)
                && (result.impl.PrepImpl? ==>
                      && fresh(result.impl.prep)
                      && fresh(result.impl.prep.bindingInput) && fresh(result.impl.prep.bindingOutput))
                && result.Sent(sql, isStatement, old(conn.session.Visible()))
    {
      ghost var before := conn.View();
      var res := new DbResult(conn, id);
      conn.SetCurrentResult(res);
      TakeOverVisible(before, id);
      assert conn.session.Visible() == conn.View().Visible();
      var ok;
      ok, e := res.RunQuery(sql, isStatement, immediate);
      assert conn.View() == L.Step(before, e);
      L.StepOwned(before, e);
      result := if ok then res else null;
    }

    /** `result_create` */
    static method CreateAndSendQuery(
      conn: DbConnection, sql: string, isStatement: bool, immediate: bool, ghost id: L.Id)
      returns (result: DbResult?, ghost e: L.Event)
      requires conn.Consistent() && id !in conn.results
      modifies conn`current, conn`results, conn`impls, conn.session,
               if conn.current != null then conn.current.Handles() else {}
      ensures e == Planned(id, conn.session.server, sql, isStatement, immediate, old(conn.session.Visible()))
      ensures conn.Consistent() && conn.View() == L.Step(old(conn.View()), e)
      ensures result != null <==> conn.open && L.Succeeds(e)
      ensures conn.results == if result == null then old(conn.results) else old(conn.results)[id := result]
      ensures result == null ==> conn.current == if conn.open then null else old(conn.current)
      ensures result != null ==>
                && fresh(result) && result.conn == conn && conn.current == result
                && (result.impl.SimpleImpl? <==> immediate || e.prep.Unsupported?)
                && (result.impl.PrepImpl? ==>
                      && fresh(result.impl.prep)
                      && fresh(result.impl.prep.bindingInput) && fresh(result.impl.prep.bindingOutput))
                && result.Sent(sql, isStatement, old(conn.session.Visible()))
    {
      e := Planned(id, conn.session.server, sql, isStatement, immediate, conn.session.Visible());
      result := null;
      if conn.open {
        result, e := Construct(conn, sql, isStatement, immediate, id);
      }
    }

    /** A live result that is known to the connection. */
    ghost predicate Live()
      reads conn`current, conn`results, conn`impls, conn.results.Values`impl,
            (set r | r in conn.results.Values && r.impl.PrepImpl? :: r.impl.prep)`stmtOpen
    {
      conn.Consistent() && id in conn.results && conn.results[id] == this
    }

    method ValidateParams(params: seq<Column>) returns (ok: bool)
      ensures ok <==> SameLength(params)
    {
      if |params| != 0 {
        var n := |params[0].values|;
        for j := 1 to |params|
          invariant forall k :: 0 <= k < j ==> |params[k].values| == n
        {
          if |params[j].values| != n {
            return false;
          }
        }
      }
      return true;
    }

    /** `bind`. There is no check that this is the current result: its handle has to be
        open, which the life cycle shows to be so exactly for the current result. */
    method Bind(params: seq<Column>) returns (ok: bool, ghost e: L.Event)
      requires Live() && (SameLength(params) ==> L.BindDefined(conn.View(), id) && RTable(params))
      requires impl.PrepImpl? ==> impl.prep.Valid()
      modifies Handles()`cursor, Handles()`spec, Handles()`complete, Handles()`rowsAffected, Handles()`bound,
               if impl.PrepImpl? then {impl.prep.bindingInput} else {}, conn.session`pending
      ensures !SameLength(params) ==> !ok && unchanged(conn.session) && unchanged(Handles())
      ensures !SameLength(params) && impl.PrepImpl? ==> unchanged(impl.prep.bindingInput)
      ensures SameLength(params) ==> e.Bind? && e.id == id && conn.View() == L.Step(old(conn.View()), e)
      ensures SameLength(params) && impl.PrepImpl? ==>
                && impl.prep.Valid() && impl.prep.stmtOpen
                && impl.prep.AfterBind(
                     ok, params, old(impl.prep.spec.Some?), old(conn.session.Visible()), old(impl.prep.OpenCursor()))
      ensures impl.SimpleImpl? ==> !ok
    {
      e := L.Bind(id, []);
      ok := ValidateParams(params);
      if ok {
        ok, e := BindAny(params);
      }
    }

    /** `impl->bind`, for either kind of result. */
    method BindAny(params: seq<Column>) returns (ok: bool, ghost e: L.Event)
      requires Live() && L.BindDefined(conn.View(), id) && Usable(params)
      requires impl.PrepImpl? ==> impl.prep.Valid()
      modifies Handles()`cursor, Handles()`spec, Handles()`complete, Handles()`rowsAffected, Handles()`bound,
               if impl.PrepImpl? then {impl.prep.bindingInput} else {}, conn.session`pending
      ensures e.Bind? && e.id == id && conn.View() == L.Step(old(conn.View()), e)
      ensures impl.PrepImpl? ==>
                && impl.prep.Valid() && impl.prep.stmtOpen
                && impl.prep.AfterBind(
                     ok, params, old(impl.prep.spec.Some?), old(conn.session.Visible()), old(impl.prep.OpenCursor()))
      ensures impl.SimpleImpl? ==> !ok
    {
      ghost var effect := [];
      ok := false;
      if impl.PrepImpl? {
        ok, effect := BindImpl(params);
      }
      e := L.Bind(id, effect);
    }

    method BindImpl(params: seq<Column>) returns (ok: bool, ghost effect: Log)
      requires Live() && impl.PrepImpl? && impl.prep.Valid() && impl.prep.stmtOpen && Usable(params)
      modifies impl.prep`cursor, impl.prep`spec, impl.prep`complete, impl.prep`rowsAffected, impl.prep`bound,
               impl.prep.bindingInput, conn.session`pending
      ensures impl.prep.Valid()
      ensures impl.prep.AfterBind(
                ok, params, old(impl.prep.spec.Some?), old(conn.session.Visible()), old(impl.prep.OpenCursor()))
      ensures conn.View() == L.AddWork(old(conn.View()), effect)
    {
      ghost var pending := conn.session.pending;
      ok := impl.prep.Bind(params);
      effect := conn.session.pending[|pending|..];
      assert conn.session.pending == pending + effect;
    }

    /** `fetch`: fails on a result that is not current, and otherwise finds its handle
        open. */
    method Fetch(nMax: int) returns (r: ResultFetch, ghost e: L.Event)
      requires Live() && (impl.PrepImpl? ==> impl.prep.Valid() && impl.prep.Fetchable(nMax))
      modifies Handles()`cursor, Handles()`current, Handles()`spec, Handles()`complete, Handles()`rowsAffected,
               Handles()`rowsFetched, conn.session`pending,
               if impl.PrepImpl? then {impl.prep.bindingInput, impl.prep.bindingOutput} else {}
      ensures e.Fetch? && e.id == id && conn.View() == L.Step(old(conn.View()), e)
      ensures r == Inactive <==> conn.current != this
      ensures impl.PrepImpl? ==> impl.prep.Valid() && impl.prep.spec == old(impl.prep.spec)
      ensures conn.current == this && impl.PrepImpl? ==>
                && r.Fetched? && impl.prep.stmtOpen && impl.prep.bindingInput.Safe()
                && impl.prep.AfterFetch(
                     r.outcome, old(impl.prep.NextChunk(nMax)), old(impl.prep.rowsFetched), old(conn.session.Visible()))
      ensures conn.current == this && impl.SimpleImpl? ==>
                r.Fetched? && r.outcome.Frame? && Shows(r.outcome.df, 0, []) && conn.View() == old(conn.View())
    {
      r, e := Inactive, L.Fetch(id, []);
      if conn.current == this {
        if impl.PrepImpl? {
          var f, effect := FetchImpl(nMax);
          r, e := Fetched(f), L.Fetch(id, effect);
        } else {
          var f := FetchSimple();
          r := Fetched(f);
        }
      }
    }

    /** A result of immediate execution has no rows. */
    static method FetchSimple() returns (f: Fetched)
      ensures f.Frame? && Shows(f.df, 0, [])
    {
      var df := DfCreate([], 0);
      f := Frame(df);
    }

    method FetchImpl(nMax: int) returns (f: Fetched, ghost effect: Log)
      requires Live() && impl.PrepImpl? && impl.prep.Valid() && impl.prep.stmtOpen && impl.prep.Fetchable(nMax)
      modifies impl.prep`cursor, impl.prep`current, impl.prep`spec, impl.prep`complete, impl.prep`rowsAffected,
               impl.prep`rowsFetched, impl.prep.bindingInput, impl.prep.bindingOutput, conn.session`pending
      ensures impl.prep.Valid() && impl.prep.bindingInput.Safe() && impl.prep.spec == old(impl.prep.spec)
      ensures impl.prep.AfterFetch(
                f, old(impl.prep.NextChunk(nMax)), old(impl.prep.rowsFetched), old(conn.session.Visible()))
      ensures conn.View() == L.AddWork(old(conn.View()), effect)
    {
      ghost var pending := conn.session.pending;
      ghost var copied;
      f, copied := impl.prep.Fetch(nMax);
      effect := conn.session.pending[|pending|..];
      assert conn.session.pending == pending + effect;
    }

    /** The destructor, run by `result_release` or by R's garbage collector. */
    method Release()
      requires Live()
      modifies conn`current, conn`results, conn`impls, conn.session, Handles()
      ensures conn.Consistent() && conn.View() == L.Step(old(conn.View()), L.Destroy(id))
      ensures conn.results == old(conn.results) - {id}
      ensures conn.current == if old(conn.current) == this then null else old(conn.current)
    {
      ghost var before := conn.View();
      Dispose();
      conn.Delist(id);
      assert conn.View() == L.Step(before, L.Destroy(id));
      L.StepOwned(before, L.Destroy(id));
    }

    method Dispose()
      requires Live()
      modifies conn`current, conn`impls, conn.session, Handles()
      ensures conn.Tracked() && conn.View() == L.Dispose(old(conn.View()), id)
      ensures conn.current == if old(conn.current) == this then null else old(conn.current)
    {
      conn.ResetCurrentResult(this);
      if impl.PrepImpl? {
        assert conn.impls == conn.impls[id := L.Prep(false)];
        Close();
      }
    }
  }

  datatype ResultFetch = Inactive | Fetched(outcome: Fetched)

  /** A statement handle of the library, as preparing it leaves it. */
  datatype Statement = Statement(sql: string, prepared: Prepared)

  const UNPREPARED := Statement("", Prepared(0, None, None, true))

  datatype SendOutcome = Delivered | UnsupportedPS | SendFailed

  datatype RowRead = RowArrived | NoMoreRows | RowFailed

  datatype Advance = Executed | AllExecuted | ExecutionFailed

  datatype Fetched = NotBound | FetchFailed | Frame(df: DataFrame)

  /** The largest capacity that doubling reaches in an int. */
  const MAX_ROWS: nat := 100 * 0x100_0000

  function Pow2(k: nat): (p: nat)
    ensures p > 0
  {
    if k == 0 then 1 else 2 * Pow2(k - 1)
  }

  lemma {:induction false} Pow2Grows(j: nat, k: nat)
    requires j <= k
    ensures Pow2(j) <= Pow2(k)
    decreases k - j
  {
    if j == k {
    } else {
      Pow2Grows(j + 1, k);
    }
  }

  lemma MaxRowsIsCapacity()
    ensures MAX_ROWS == 100 * Pow2(24) && MAX_ROWS <= 0x7fff_ffff < 2 * MAX_ROWS
  {
    assert Pow2(8) == 0x100;
    assert Pow2(16) == 0x1_0000;
  }

  /** The capacity of an unlimited fetch is 100 doubled k times, no more than i rows
      needed, and the doublings have copied this many rows. */
  predicate Doubled(n: nat, k: nat, i: nat, copied: nat) {
    n == 100 * Pow2(k) && n <= MAX_ROWS && i <= n && (k > 0 ==> n < 2 * i) && copied == n - 100
  }

  /** Doubling when one more row has to fit keeps within an int. */
  lemma DoubleOnce(n: nat, k: nat, copied: nat)
    requires Doubled(n, k, n, copied) && n < MAX_ROWS
    ensures Doubled(2 * n, k + 1, n + 1, copied + n)
  {
    MaxRowsIsCapacity();
    if k >= 24 {
      Pow2Grows(24, k);
    }
    Pow2Grows(k + 1, 24);
  }

  class MariaResultPrep {
    const conn: DbConnection
    ghost const owner: L.Id               // the result this is part of
    const isStatement: bool
    const bindingInput: MariaBinding
    const bindingOutput: MariaRow
    var stmtOpen: bool                    // pStatement_ is not NULL
    var stmt: Statement                   // what it points at
    var cursor: Cursor                    // its open result
    var current: Row                      // and the row of it that was read last
    var spec: Option<seq<FieldType>>      // pSpec_, the result metadata
    var types: seq<FieldType>             // their cached types
    var nParams: nat
    var rowsAffected: nat
    var rowsFetched: nat
    var bound: bool
    var complete: bool

    ghost predicate Valid()
      reads `stmt, `cursor, `types, bindingInput, bindingOutput
    {
      && bindingInput.Valid()
      && bindingOutput.Valid()
      && bindingOutput.types == types
     
      && ResultValid()
    }

    ghost predicate ResultValid()
      reads `stmt, `cursor, `types
    {
      && !cursor.Exhausted?
      && (cursor.Rows? ==> AllReceivable(cursor.rest, types))
      && (types != [] ==>
            && conn.session.server.prepare(stmt.sql) == PrepareOk(stmt.prepared)
            && (stmt.prepared.fields == Some(types) || stmt.prepared.lateFields == Some(types)))
    }

    /** What executing a statement leads to: a closed connection answers with errors. */
    ghost function Runs(): Run
      reads conn`open
    {
      if conn.open then conn.session.server.run else DeadReply
    }

    /** Only uncommitted work has been added, and none to a closed connection. */
    ghost predicate Adds(before: Log)
      reads conn`open, conn.session`pending
    {
      before <= conn.session.pending && (!conn.open ==> conn.session.pending == before)
    }

    ghost function OpenCursor(): Cursor
      reads `cursor, `complete, conn`open
    {
      if complete then Exhausted else if !conn.open then Failed else cursor
    }

    /** The stream that is left, as the flags and cursors of this object encode it. */
    ghost function Source(): Source
      requires Valid() && bindingInput.Safe()
      reads `stmt, `cursor, `types, `complete, conn`open, bindingInput, bindingOutput
    {
      Stream.Source(OpenCursor(), bindingInput.Todo())
    }

    constructor (conn: DbConnection, isStatement: bool, ghost owner: L.Id)
      ensures Valid() && this.conn == conn && this.owner == owner && this.isStatement == isStatement
      ensures stmtOpen && stmt == UNPREPARED && cursor == Failed && spec.None? && types == [] && !bound && !complete
      ensures rowsAffected == rowsFetched == 0
      ensures fresh(bindingInput) && fresh(bindingOutput) && bindingInput.i == bindingInput.nRows && bindingInput.p == 0
    {
      this.conn := conn;
      this.owner := owner;
      this.isStatement := isStatement;
      bindingInput := new MariaBinding();
      bindingOutput := new MariaRow();
      stmtOpen, stmt, cursor, current := true, UNPREPARED, Failed, [];
      spec, types := None, [];
      rowsAffected, rowsFetched, nParams := 0, 0, 0;
      bound, complete := false, false;
    }

    /** What a fetch needs: the parameter rows left to be sent can be read, and the number
        of rows of an unlimited fetch can be counted in an int while doubling. */
    ghost predicate Fetchable(nMax: int)
      requires Valid()
      reads `stmt, `cursor, `types, `complete, conn`open, conn.session, bindingInput, bindingOutput
    {
      && bindingInput.Safe()
      && (nMax < 0 ==>
            |Drain(Runs(), stmt.sql, Source(), conn.session.Visible()).rows| <= MAX_ROWS)
    }

    /** The state after a successful `send_query`: with parameters nothing has been
        executed yet, without any the one execution is open. */
    ghost predicate JustSent(sql: string, statement: bool, log: Log)
      reads this, bindingInput
    {
      && bindingInput.i == bindingInput.nRows && isStatement == statement
      && stmtOpen && stmt.sql == sql
      && conn.session.server.prepare(sql) == PrepareOk(stmt.prepared) && nParams == stmt.prepared.nParams
      && spec == FieldsSent(stmt.prepared, isStatement) && types == (if spec.Some? then spec.value else [])
      && !complete
      && (if nParams > 0 then !bound && cursor == Failed
          else
            var reply := conn.session.server.run(log, Work(sql, []));
            && bound
            && cursor == Rows(reply.rows, reply.broken)
            && rowsAffected == (if spec.None? then reply.affected else 0))
    }

    /** `mysql_stmt_execute` with the current bindings, and what follows it. */
    method Execute() returns (ok: bool)
      requires Valid() && stmtOpen
      modifies `cursor, `spec, `complete, `rowsAffected, conn.session`pending
      ensures Valid()
      ensures var reply := Runs()(old(conn.session.Visible()), Work(stmt.sql, bindingInput.Sent()));
              && ok == reply.ok && !complete
              && conn.session.pending == old(conn.session.pending) + reply.effect
              && conn.session.Visible() == old(conn.session.Visible()) + reply.effect
              && OpenCursor() == (if ok then Rows(reply.rows, reply.broken) else Failed)
              && spec == (if ok && old(spec).None? && !isStatement then stmt.prepared.lateFields else old(spec))
              && rowsAffected == old(rowsAffected) + (if ok && spec.None? then reply.affected else 0)
    {
      complete := false;
      var reply;
      if conn.open {
        reply := conn.session.server.run(conn.session.Visible(), Work(stmt.sql, bindingInput.Sent()));
      } else {
        reply := DeadReply(conn.session.Visible(), Work(stmt.sql, bindingInput.Sent()));
      }
      conn.session.Perform(reply.effect);
      if !reply.ok {
        cursor := Failed;
        return false;
      }
      cursor := Rows(reply.rows, reply.broken);
      if spec.None? && !isStatement {
        spec := stmt.prepared.lateFields;
      }
      if spec.None? {
        rowsAffected := rowsAffected + reply.affected;
      }
      return true;
    }

    /** How far an attempt to read a row has brought a pull whose outcome is `goal`. */
    ghost predicate Pulling(r: RowRead, goal: (Pulled, Source, Log))
      requires Valid() && bindingInput.Safe()
      reads `stmt, `cursor, `current, `types, `complete, conn`open, conn.session, bindingInput, bindingOutput
    {
      match r
      case RowArrived =>
        && goal == (Got(current), Source(), conn.session.Visible())
        && Receivable(current, types)
        && (types != [] ==> bindingOutput.Holds(current))
      case NoMoreRows =>
        && OpenCursor() == Exhausted
        && goal == Pull(Runs(), stmt.sql, Source(), conn.session.Visible())
      case RowFailed => goal == (Errored, Source(), conn.session.Visible())
    }

    method FetchRow() returns (r: RowRead)
      requires Valid() && stmtOpen && bindingInput.Safe()
      modifies `cursor, `current, `complete, bindingOutput
      ensures Valid()
      ensures bindingInput.Safe()
      ensures Pulling(r, old(Pull(Runs(), stmt.sql, Source(), conn.session.Visible())))
    {
      if complete {
        return NoMoreRows;
      }
      // mysql_stmt_fetch
      if !conn.open || cursor.Failed? || cursor.Exhausted? {
        return RowFailed;
      }
      if cursor.rest != [] {
        var row := cursor.rest[0];
        assert Receivable(row, types);
        cursor, current := cursor.(rest := cursor.rest[1..]), row;
        if |types| > 0 {
          bindingOutput.Receive(row);
        }
        return RowArrived;
      }
      if cursor.broken {
        cursor := Failed;
        return RowFailed;
      }
      complete := true;
      return NoMoreRows;
    }

    /** The body of the loop in `step`: executes the next parameter row, if any. */
    method ExecuteNext() returns (a: Advance)
      requires Valid() && stmtOpen && bindingInput.Safe() && spec.Some? && OpenCursor() == Exhausted
      modifies `cursor, `spec, `complete, `rowsAffected, conn.session`pending, bindingInput
      ensures Valid() && bindingInput.Safe()
      ensures var goal := old(Pull(Runs(), stmt.sql, Source(), conn.session.Visible()));
              match a
              case AllExecuted => goal == (Ended, Source(), conn.session.Visible())
              case ExecutionFailed => goal == (Errored, Source(), conn.session.Visible())
              case Executed =>
                && goal == Pull(Runs(), stmt.sql, Source(), conn.session.Visible())
                && bindingInput.nRows - bindingInput.i < old(bindingInput.nRows - bindingInput.i)
      ensures Adds(old(conn.session.pending)) && spec == old(spec)
    {
      ghost var todo := bindingInput.Todo();
      var more := bindingInput.BindNextRow();
      if !more {
        return AllExecuted;
      }
      assert todo[0] == bindingInput.Sent() && todo[1..] == bindingInput.Todo();
      var ok := Execute();
      return if ok then Executed else ExecutionFailed;
    }

    /** One round of the loop in `step`: executes the next parameter row, and tries to read
        a row of its result. */
    method ExecuteAndFetch(ghost goal: (Pulled, Source, Log)) returns (a: Advance, r: RowRead)
      requires Valid() && stmtOpen && bindingInput.Safe() && spec.Some? && Pulling(NoMoreRows, goal)
      modifies `cursor, `current, `spec, `complete, `rowsAffected, conn.session`pending, bindingInput, bindingOutput
      ensures Valid()
      ensures bindingInput.Safe() && spec == old(spec) && Adds(old(conn.session.pending))
      ensures match a
              case AllExecuted => goal == (Ended, Source(), conn.session.Visible())
              case ExecutionFailed => goal == (Errored, Source(), conn.session.Visible())
              case Executed =>
                Pulling(r, goal) && bindingInput.nRows - bindingInput.i < old(bindingInput.nRows - bindingInput.i)
    {
      r := NoMoreRows;
      a := ExecuteNext();
      if a == Executed {
        r := FetchRow();
      }
    }

    /** The loop in `step`. */
    method StepToRow() returns (p: Pulled)
      requires Valid() && stmtOpen && bindingInput.Safe() && spec.Some?
      modifies `cursor, `current, `spec, `complete, `rowsAffected, conn.session`pending, bindingInput, bindingOutput
      ensures Valid() && bindingInput.Safe() && spec == old(spec)
      ensures (p, Source(), conn.session.Visible()) == old(Pull(Runs(), stmt.sql, Source(), conn.session.Visible()))
      ensures Adds(old(conn.session.pending))
      ensures p.Got? ==> current == p.row && Receivable(p.row, types) && (types != [] ==> bindingOutput.Holds(p.row))
    {
      ghost var goal := Pull(Runs(), stmt.sql, Source(), conn.session.Visible());
      var r := FetchRow();
      while r == NoMoreRows
        invariant Valid() && bindingInput.Safe() && spec == old(spec)
        invariant Adds(old(conn.session.pending))
        invariant Pulling(r, goal)
        decreases bindingInput.nRows - bindingInput.i
      {
        var a;
        a, r := ExecuteAndFetch(goal);
        if a != Executed {
          return if a == AllExecuted then Ended else Errored;
        }
      }
      p := if r == RowFailed then Errored else Got(current);
    }

    method Step() returns (p: Pulled)
      requires Valid() && stmtOpen && bindingInput.Safe() && spec.Some?
      modifies `cursor, `current, `spec, `complete, `rowsAffected, `rowsFetched, conn.session`pending,
               bindingInput, bindingOutput
      ensures Valid() && bindingInput.Safe() && spec == old(spec)
      ensures (p, Source(), conn.session.Visible()) == old(Pull(Runs(), stmt.sql, Source(), conn.session.Visible()))
      ensures Adds(old(conn.session.pending))
      ensures rowsFetched == old(rowsFetched) + (if p.Got? then 1 else 0)
      ensures p.Got? ==> current == p.row && Receivable(p.row, types) && (types != [] ==> bindingOutput.Holds(p.row))
    {
      p := StepToRow();
      if p.Got? {
        rowsFetched := rowsFetched + 1;
      }
    }

    /** Stores the current row as row i of the data frame. */
    method FillRow(df: DataFrame, i: nat, ghost rows: seq<seq<Value>>) returns (out: DataFrame)
      requires Valid() && stmtOpen
      requires Filled(df, |types|, df.nrow, rows) && i == |rows| < df.nrow
      requires Receivable(current, types) && (types != [] ==> bindingOutput.Holds(current))
      modifies bindingOutput
      ensures Valid()
      ensures Filled(out, |types|, df.nrow, rows + [DecodedRow(current, types)])
    {
      out := df;
      for j := 0 to |types|
        invariant Valid() && (types != [] ==> bindingOutput.Holds(current))
        invariant Filled(out, |types|, df.nrow, rows)
        invariant forall c :: 0 <= c < j ==> out.columns[c][i] == Decode(current[c], types[c])
      {
        var v := bindingOutput.SetListValue(current, j);
        out := out.(columns := out.columns[j := out.columns[j][i := v]]);
      }
    }

    /** Adds the current row to the data frame, which doubles if it is full. */
    method AppendRow(df: DataFrame, i: nat, ghost rows: seq<seq<Value>>) returns (out: DataFrame)
      requires Valid() && stmtOpen
      requires Filled(df, |types|, df.nrow, rows) && i == |rows| && df.nrow > 0
      requires Receivable(current, types) && (types != [] ==> bindingOutput.Holds(current))
      modifies bindingOutput
      ensures Valid()
      ensures out.nrow == if i < df.nrow then df.nrow else 2 * df.nrow
      ensures Filled(out, |types|, out.nrow, rows + [DecodedRow(current, types)])
    {
      out := df;
      if i >= df.nrow {
        out := DfResize(out, df.nrow * 2, rows);
      }
      out := FillRow(out, i, rows);
    }

    /** A fetch whose outcome is `goal` has pulled these rows so far. */
    ghost predicate Fetching(goal: Chunk, pulled: seq<Row>, nMax: int)
      requires Valid() && bindingInput.Safe()
      reads `stmt, `cursor, `types, `complete, conn`open, conn.session, bindingInput, bindingOutput
    {
      var others := Take(Runs(), stmt.sql, Source(), conn.session.Visible(), nMax - |pulled|);
      && (nMax > 0 ==> |pulled| <= nMax)
      && goal == others.(rows := pulled + others.rows)
    }

    method PullRow(ghost goal: Chunk, ghost pulled: seq<Row>, ghost nMax: int) returns (p: Pulled)
      requires Valid() && stmtOpen && bindingInput.Safe() && spec.Some?
      requires Fetching(goal, pulled, nMax) && nMax != |pulled|
      modifies `cursor, `current, `spec, `complete, `rowsAffected, `rowsFetched, conn.session`pending,
               bindingInput, bindingOutput
      ensures Valid() && bindingInput.Safe() && spec == old(spec)
      ensures Adds(old(conn.session.pending))
      ensures rowsFetched == old(rowsFetched) + (if p.Got? then 1 else 0)
      ensures match p
              case Got(row) =>
                && Fetching(goal, pulled + [row], nMax) && |pulled| < |goal.rows|
                && current == row && Receivable(row, types)
                && (types != [] ==> bindingOutput.Holds(row))
              case _ => goal == Chunk(pulled, if p.Ended? then End else Error, Source(), conn.session.Visible())
    {
      p := Step();
      if p.Got? {
        ghost var others := Take(Runs(), stmt.sql, Source(), conn.session.Visible(), nMax - |pulled| - 1);
        assert pulled + ([p.row] + others.rows) == pulled + [p.row] + others.rows;
      } else {
        assert pulled + [] == pulled;
      }
    }

    /** The rows pulled so far are the first rows of the data frame. */
    ghost predicate Stored(pulled: seq<Row>, df: DataFrame)
      reads `types
    {
      AllReceivable(pulled, types) && Filled(df, |types|, df.nrow, DecodedRows(pulled, types))
    }

    /** The next row is pulled and stored; a full data frame is doubled first. */
    method FetchOne(df: DataFrame, i: nat, ghost goal: Chunk, ghost pulled: seq<Row>, ghost nMax: int)
      returns (p: Pulled, out: DataFrame)
      requires Valid() && stmtOpen && bindingInput.Safe() && spec.Some?
      requires Fetching(goal, pulled, nMax) && nMax != |pulled| && i == |pulled|
      requires Stored(pulled, df) && df.nrow > 0
      modifies `cursor, `current, `spec, `complete, `rowsAffected, `rowsFetched, conn.session`pending,
               bindingInput, bindingOutput
      ensures Valid() && bindingInput.Safe() && spec == old(spec)
      ensures Adds(old(conn.session.pending))
      ensures rowsFetched == old(rowsFetched) + (if p.Got? then 1 else 0)
      ensures p.Got? ==>
                && Fetching(goal, pulled + [p.row], nMax) && |pulled| < |goal.rows|
                && Stored(pulled + [p.row], out)
                && out.nrow == (if i < df.nrow then df.nrow else 2 * df.nrow)
      ensures !p.Got? ==>
                && goal == Chunk(pulled, if p.Ended? then End else Error, Source(), conn.session.Visible())
                && out == df
    {
      out := df;
      p := PullRow(goal, pulled, nMax);
      if p.Got? {
        assert DecodedRows(pulled + [p.row], types) == DecodedRows(pulled, types) + [DecodedRow(p.row, types)];
        out := AppendRow(out, i, DecodedRows(pulled, types));
      }
    }

    /** The loop of `fetch` after i rows: with a limit the data frame has that many rows,
        without one it has been doubled k times. */
    ghost predicate Sized(df: DataFrame, i: nat, nMax: int, k: nat, copied: nat) {
      if nMax < 0 then Doubled(df.nrow, k, i, copied) else 0 < nMax == df.nrow && copied == 0
    }

    /** One round of the loop in `fetch`. */
    method FetchRound(df: DataFrame, i: nat, ghost goal: Chunk, ghost pulled: seq<Row>, ghost nMax: int,
                      ghost k: nat, ghost copied: nat)
      returns (p: Pulled, out: DataFrame, ghost pulledNow: seq<Row>, ghost kNow: nat, ghost copiedNow: nat)
      requires Valid() && stmtOpen && bindingInput.Safe() && spec.Some?
      requires Fetching(goal, pulled, nMax) && i == |pulled| && (i < df.nrow || nMax < 0)
      requires nMax < 0 ==> |goal.rows| <= MAX_ROWS
      requires Stored(pulled, df) && Sized(df, i, nMax, k, copied)
      modifies `cursor, `current, `spec, `complete, `rowsAffected, `rowsFetched, conn.session`pending,
               bindingInput, bindingOutput
      ensures Valid() && bindingInput.Safe() && spec == old(spec)
      ensures Adds(old(conn.session.pending))
      ensures rowsFetched - old(rowsFetched) == |pulledNow| - |pulled| == if p.Got? then 1 else 0
      ensures Stored(pulledNow, out) && Sized(out, |pulledNow|, nMax, kNow, copiedNow) && |pulledNow| <= |goal.rows|
      ensures if p.Got? then Fetching(goal, pulledNow, nMax)
              else goal == Chunk(pulledNow, if p.Ended? then End else Error, Source(), conn.session.Visible())
    {
      pulledNow, kNow, copiedNow := pulled, k, copied;
      p, out := FetchOne(df, i, goal, pulled, nMax);
      if p.Got? {
        pulledNow := pulled + [p.row];
        if i >= df.nrow {
          DoubleOnce(df.nrow, k, copied);
          kNow, copiedNow := k + 1, copied + i;
        }
      }
    }

    /** The loop of `fetch`: fills a data frame row by row, doubling it when it is full. */
    method FetchLoop(nMax: int, ghost goal: Chunk) returns (df: DataFrame, i: nat, failed: bool, ghost copied: nat)
      requires Valid() && stmtOpen && bindingInput.Safe() && spec.Some? && nMax != 0
      requires Fetching(goal, [], nMax)
      requires nMax < 0 ==> |goal.rows| <= MAX_ROWS
      modifies `cursor, `current, `spec, `complete, `rowsAffected, `rowsFetched, conn.session`pending,
               bindingInput, bindingOutput
      ensures Valid() && bindingInput.Safe() && spec == old(spec)
      ensures Adds(old(conn.session.pending))
      ensures Source() == goal.src && conn.session.Visible() == goal.log
      ensures i == |goal.rows| && rowsFetched == old(rowsFetched) + i && (failed <==> goal.stop == Error)
      ensures Stored(goal.rows, df)
      ensures exists k :: Sized(df, i, nMax, k, copied)
    {
      df := DfCreate(types, if nMax < 0 then 100 else nMax);
      i, failed := 0, false;
      ghost var pulled: seq<Row>, k := [], 0;
      copied := 0;
      var p: Pulled := Got([]);
      while p.Got? && (i < df.nrow || nMax < 0)
        invariant Valid() && bindingInput.Safe() && spec == old(spec)
        invariant Adds(old(conn.session.pending))
        invariant i == |pulled| <= |goal.rows| && rowsFetched == old(rowsFetched) + i
        invariant Stored(pulled, df) && Sized(df, i, nMax, k, copied)
        invariant if p.Got? then Fetching(goal, pulled, nMax)
                  else goal == Chunk(pulled, if p.Ended? then End else Error, Source(), conn.session.Visible())
        decreases p.Got?, |goal.rows| - i
      {
        p, df, pulled, k, copied := FetchRound(df, i, goal, pulled, nMax, k, copied);
        if p.Got? {
          i := i + 1;
        }
      }
      failed := p.Errored?;
      assert goal.rows == pulled;
    }

    /** The loop, and trimming back to what was actually used. */
    method FetchRows(nMax: int, ghost goal: Chunk) returns (r: Fetched, ghost copied: nat)
      requires Valid() && stmtOpen && bindingInput.Safe() && spec.Some? && nMax != 0
      requires Fetching(goal, [], nMax)
      requires nMax < 0 ==> |goal.rows| <= MAX_ROWS
      requires bound
      modifies `cursor, `current, `spec, `complete, `rowsAffected, `rowsFetched, conn.session`pending,
               bindingInput, bindingOutput
      ensures Valid() && bindingInput.Safe() && spec == old(spec)
      ensures Adds(old(conn.session.pending))
      ensures AfterFetch(r, goal, old(rowsFetched), old(conn.session.Visible()))
      ensures r.Frame? ==> copied <= 3 * r.df.nrow
    {
      var df, i, failed;
      df, i, failed, copied := FetchLoop(nMax, goal);
      if failed {
        return FetchFailed, copied;
      }
      if i < df.nrow {
        df := DfResize(df, i, DecodedRows(goal.rows, types));
        copied := copied + i;
      }
      r := Frame(df);
    }

    /** What a fetch takes from the stream. */
    ghost function NextChunk(nMax: int): Chunk
      requires Valid() && bindingInput.Safe()
      reads `stmt, `cursor, `types, `complete, conn`open, conn.session, bindingInput, bindingOutput
    {
      Take(Runs(), stmt.sql, Source(), conn.session.Visible(), nMax)
    }

    /** The outcome of a fetch, given the chunk of the stream it is to take, the row counter
        and the log before. */
    ghost predicate AfterFetch(r: Fetched, c: Chunk, fetchedBefore: nat, log: Log)
      requires Valid() && bindingInput.Safe()
      reads `stmt, `cursor, `types, `complete, `bound, `spec, `rowsFetched, conn`open, conn.session,
            bindingInput, bindingOutput
    {
      if !bound then r == NotBound && rowsFetched == fetchedBefore && conn.session.Visible() == log
      else if spec.None? then
        r.Frame? && Shows(r.df, |types|, []) && rowsFetched == fetchedBefore && conn.session.Visible() == log
      else
      && Source() == c.src && conn.session.Visible() == c.log
      && rowsFetched == fetchedBefore + |c.rows|
      && AllReceivable(c.rows, types)
      && (c.stop == Error ==> r == FetchFailed)
      && (c.stop != Error ==> r.Frame? && Shows(r.df, |types|, DecodedRows(c.rows, types)))
    }

    /** `fetch`: the next nMax rows as a data frame, or all that are left for negative
        nMax. A failure loses the rows read so far, but not from the row counter. */
    method Fetch(nMax: int) returns (r: Fetched, ghost copied: nat)
      requires Valid() && stmtOpen && Fetchable(nMax)
      modifies `cursor, `current, `spec, `complete, `rowsAffected, `rowsFetched, conn.session`pending,
               bindingInput, bindingOutput
      ensures Valid() && bindingInput.Safe() && spec == old(spec)
      ensures Adds(old(conn.session.pending))
      ensures AfterFetch(r, old(NextChunk(nMax)), old(rowsFetched), old(conn.session.Visible()))
      ensures bound && spec.Some? && nMax != 0 ==> (Complete() <==> old(NextChunk(nMax)).stop == End)
      ensures !bound || spec.None? || nMax == 0 ==>
                Source() == old(Source()) && unchanged(`cursor, `complete, `rowsFetched) && unchanged(conn.session)
      ensures r.Frame? ==> copied <= 3 * r.df.nrow
    {
      copied := 0;
      if !bound {
        return NotBound, 0;
      }
      if spec.None? || nMax == 0 {
        var df := DfCreate(types, 0);
        return Frame(df), 0;
      }
      ghost var goal := Take(Runs(), stmt.sql, Source(), conn.session.Visible(), nMax);
      assert [] + goal.rows == goal.rows;
      TakeIsPrefix(Runs(), stmt.sql, Source(), conn.session.Visible(), nMax);
      EndIsExhausted(Runs(), stmt.sql, Source(), conn.session.Visible(), nMax);
      r, copied := FetchRows(nMax, goal);
    }

    /** The outcome of binding a table, given whether the statement had result metadata,
        what it could see and its open result. */
    ghost predicate AfterBind(ok: bool, params: seq<Column>, hadResult: bool, log: Log, before: Cursor)
      requires Valid() && Usable(params)
      reads this, conn, conn.session, bindingInput, bindingOutput
    {
      if !Accepted(params, nParams) then
        && !ok && rowsAffected == 0 && conn.session.Visible() == log
        && (nParams > 0 ==> (bindingInput.Safe() <==> bindingInput.i == bindingInput.nRows))
      else if hadResult then
        && ok && Complete() && spec.Some? && RowsAffected() == Some(0) && conn.session.Visible() == log
        && bindingInput.Safe() && Source() == Stream.Source(Exhausted, EncodedTable(params))
      else
        && Tallied(ExecuteAll(Runs(), stmt.sql, EncodedTable(params), log, before), ok)
        && bindingInput.Safe()
        && (ok ==> bound && bindingInput.Todo() == [] && spec == FieldsExecuted(EncodedTable(params) != []))
        && (ok && spec.None? ==> Complete() && Reports(ExecuteAll(Runs(), stmt.sql, EncodedTable(params), log, before)))
    }

    /** The first part of `bind`: a new parameter table takes the place of the old one, even if
        it is refused. */
    method TakeTable(params: seq<Column>) returns (ok: bool)
      requires bindingInput.Valid() && Usable(params)
      modifies `rowsAffected, bindingInput
      ensures bindingInput.Valid() && rowsAffected == 0 && (ok <==> Accepted(params, nParams))
      ensures ok ==> bindingInput.Safe() && bindingInput.Todo() == EncodedTable(params)
      ensures !ok && nParams > 0 ==> (bindingInput.Safe() <==> bindingInput.i == bindingInput.nRows)
    {
      rowsAffected := 0;
      bindingInput.Setup(nParams);
      ok := bindingInput.InitBinding(params);
    }

    /** The affected rows that R is told of are those of the tally, if an int can hold them. */
    ghost predicate Reports(tally: Tally)
      reads `bound, `rowsAffected
    {
      tally.affected < 0x8000_0000 ==> RowsAffected() == Some(tally.affected as int32)
    }

    /** `bind`: takes over a parameter table. A query only prepares its stream, and
        already calls itself complete; a statement executes all rows, in order, up to
        the first failure. */
    method Bind(params: seq<Column>) returns (ok: bool)
      requires Valid() && stmtOpen && Usable(params)
      modifies `cursor, `spec, `complete, `rowsAffected, `bound, conn.session`pending, bindingInput
      ensures Valid()
      ensures Adds(old(conn.session.pending))
      ensures AfterBind(ok, params, old(spec).Some?, old(conn.session.Visible()), old(OpenCursor()))
      ensures !Accepted(params, nParams) ==> unchanged(`cursor, `spec, `complete, `bound) && unchanged(conn.session)
    {
      ok := TakeTable(params);
      if !ok {
        return;
      }
      if spec.Some? {
        complete := true;
      } else {
        ok := ExecuteTable();
        if !ok {
          return;
        }
      }
      bound := true;
    }

    /** An execution of all parameter rows whose tally is `goal` still has these rows to
        execute, and has affected `done` rows so far; `started` if there has been an execution. */
    ghost predicate Executing(goal: Tally, rest: seq<seq<Sent>>, done: nat, started: bool)
      reads `stmt, `cursor, `complete, `spec, `rowsAffected, conn`open, conn.session
    {
      var others := ExecuteAll(Runs(), stmt.sql, rest, conn.session.Visible(), OpenCursor());
      && goal == others.(affected := done + others.affected)
      && (spec.None? ==> rowsAffected == done)
      && spec == FieldsExecuted(started)
    }

    /** The metadata of a statement that had none when it was prepared: a query asks again
        after each execution. */
    function FieldsExecuted(started: bool): Option<seq<FieldType>>
      reads `stmt
    {
      if started && !isStatement then stmt.prepared.lateFields else None
    }

    /** The execution of all parameter rows has ended, with this tally. */
    ghost predicate Tallied(goal: Tally, ok: bool)
      reads `cursor, `complete, `spec, `rowsAffected, conn`open, conn.session
    {
      && ok == goal.ok && conn.session.Visible() == goal.log && OpenCursor() == goal.cursor
      && (spec.None? ==> rowsAffected == goal.affected)
    }

    /** The body of the loop in `bind`. */
    method ExecuteRow(ghost goal: Tally, ghost rest: seq<seq<Sent>>, ghost done: nat, ghost started: bool)
      returns (ok: bool, ghost total: nat)
      requires Valid() && stmtOpen && rest != [] && rest[0] == bindingInput.Sent()
      requires Executing(goal, rest, done, started)
      modifies `cursor, `spec, `complete, `rowsAffected, conn.session`pending
      ensures Valid()
      ensures Adds(old(conn.session.pending))
      ensures if ok then Executing(goal, rest[1..], total, true) else Tallied(goal, false)
    {
      total := done + Runs()(conn.session.Visible(), Work(stmt.sql, bindingInput.Sent())).affected;
      ok := Execute();
    }

    /** The rows that are still to be executed; the bindings may point at the first of them. */
    ghost function Upcoming(pointed: bool): seq<seq<Sent>>
      requires bindingInput.Valid() && bindingInput.Safe()
      reads bindingInput
    {
      if pointed then [bindingInput.Sent()] + bindingInput.Todo() else bindingInput.Todo()
    }

    /** `bind_next_row`, as the loop in `bind` sees it. */
    method PointAtNext() returns (more: bool)
      requires bindingInput.Valid() && bindingInput.Safe()
      modifies bindingInput
      ensures bindingInput.Valid() && bindingInput.Safe()
      ensures Upcoming(more) == old(bindingInput.Todo()) && (more <==> old(bindingInput.Todo()) != [])
    {
      more := bindingInput.BindNextRow();
    }

    /** The body of the loop in `bind`, and the binding of the row after it. */
    method ExecuteBound(ghost goal: Tally, ghost done: nat, ghost started: bool)
      returns (ok: bool, more: bool, ghost total: nat)
      requires Valid() && stmtOpen && bindingInput.Safe() && Executing(goal, Upcoming(true), done, started)
      modifies `cursor, `spec, `complete, `rowsAffected, conn.session`pending, bindingInput
      ensures Valid() && bindingInput.Safe()
      ensures Adds(old(conn.session.pending))
      ensures if ok then
                && Executing(goal, Upcoming(more), total, true) && (more <==> Upcoming(more) != [])
                && |Upcoming(more)| < old(|Upcoming(true)|)
              else Tallied(goal, false)
    {
      more := false;
      ghost var rest := Upcoming(true);
      ok, total := ExecuteRow(goal, rest, done, started);
      if ok {
        assert rest[1..] == bindingInput.Todo();
        more := PointAtNext();
      }
    }

    /** The loop of `bind`. */
    method ExecuteTable() returns (ok: bool)
      requires Valid() && stmtOpen && spec.None? && bindingInput.Safe() && rowsAffected == 0
      modifies `cursor, `spec, `complete, `rowsAffected, conn.session`pending, bindingInput
      ensures Valid() && bindingInput.Safe()
      ensures Adds(old(conn.session.pending))
      ensures Tallied(
                old(ExecuteAll(Runs(), stmt.sql, bindingInput.Todo(), conn.session.Visible(), OpenCursor())), ok)
      ensures ok ==> bindingInput.Todo() == [] && spec == FieldsExecuted(old(bindingInput.Todo() != []))
    {
      ghost var done: nat, started, any := 0, false, bindingInput.Todo() != [];
      ghost var goal := ExecuteAll(Runs(), stmt.sql, bindingInput.Todo(), conn.session.Visible(), OpenCursor());
      var more := PointAtNext();
      while more
        invariant Valid() && bindingInput.Safe()
        invariant Adds(old(conn.session.pending))
        invariant Executing(goal, Upcoming(more), done, started)
        invariant (more <==> Upcoming(more) != []) && (started || more <==> any)
        decreases |Upcoming(more)|
      {
        ok, more, done := ExecuteBound(goal, done, started);
        if !ok {
          return;
        }
        started := true;
      }
      ok := true;
    }

    /** The execution of a statement without parameters. */
    method ExecuteFirst() returns (ok: bool)
      requires Valid() && conn.open && stmtOpen && rowsAffected == 0 && bindingInput.p == 0
      modifies `cursor, `spec, `complete, `rowsAffected, `bound, conn.session`pending
      ensures Valid()
      ensures var reply := conn.session.server.run(old(conn.session.Visible()), Work(stmt.sql, []));
              && ok == bound == reply.ok && !complete
              && conn.session.pending == old(conn.session.pending) + reply.effect
              && cursor == (if ok then Rows(reply.rows, reply.broken) else Failed)
              && spec == (if ok && old(spec).None? && !isStatement then stmt.prepared.lateFields else old(spec))
              && rowsAffected == (if ok && spec.None? then reply.affected else 0)
    {
      assert bindingInput.Sent() == [];
      ok := Execute();
      bound := ok;
    }

    /** `send_query`: prepares the statement and, if it has no parameters, executes it. */
    method SendQuery(sql: string) returns (r: SendOutcome)
      requires Valid() && conn.open && stmtOpen && stmt == UNPREPARED && cursor == Failed && spec.None? && types == []
      requires !bound && !complete && rowsAffected == 0 && bindingInput.p == 0 && bindingInput.i == bindingInput.nRows
      modifies `stmt, `cursor, `spec, `types, `nParams, `complete, `rowsAffected, `bound, conn.session`pending,
               bindingOutput
      ensures Valid()
      ensures var planned := PlannedPrep(conn.session.server, sql, isStatement, old(conn.session.Visible()));
              && r == (if planned.Unsupported? then UnsupportedPS else if planned.Ready? then Delivered else SendFailed)
              && conn.session.pending == old(conn.session.pending) + L.PrepEffect(planned)
      ensures r == Delivered ==> JustSent(sql, isStatement, old(conn.session.Visible()))
    {
      var reply := conn.session.server.prepare(sql);
      if !reply.PrepareOk? {
        return if reply.UnsupportedProtocol? then UnsupportedPS else SendFailed;
      }
      stmt := Statement(sql, reply.prepared);
      nParams := reply.prepared.nParams;
      spec := reply.prepared.fields;
      var ok := true;
      if nParams == 0 {
        ok := ExecuteFirst();
      }
      if ok && spec.Some? {
        ok := CacheMetadata();
      }
      r := if ok then Delivered else SendFailed;
    }

    /** `cache_metadata`, and setting up the buffers for the result. */
    method CacheMetadata() returns (ok: bool)
      requires Valid() && stmtOpen && spec.Some? && types == []
      requires conn.session.server.prepare(stmt.sql) == PrepareOk(stmt.prepared)
      requires stmt.prepared.fields == spec || stmt.prepared.lateFields == spec
      requires cursor.Rows? ==> AllReceivable(cursor.rest, spec.value)
      modifies `types, bindingOutput
      ensures Valid() && types == spec.value && ok == stmt.prepared.bindable
    {
      types := spec.value;
      bindingOutput.Setup(types);
      ok := stmt.prepared.bindable;
    }

    /** `close`, also the body of the destructor: gives up the handles and commits,
        unless the connection is in a transaction or closed. */
    method Close()
      modifies `stmtOpen, `spec, conn.session
      ensures !stmtOpen && spec.None?
      ensures old(Valid()) ==> Valid()
      ensures conn.View() == L.Autocommit(old(conn.View()))
    {
      spec := None;
      stmtOpen := false;
      conn.Autocommit();
    }

    /** Number of affected rows as an R integer (NA before bind), exact if an int can hold it. */
    function RowsAffected(): (r: Option<int32>)
      reads `bound, `rowsAffected
      ensures r.None? <==> !bound
      ensures bound && rowsAffected < 0x8000_0000 ==> r == Some(rowsAffected as int32)
    {
      if !bound then None else Some(ToSigned((rowsAffected % 0x1_0000_0000) as uint32))
    }

    /** Number of rows fetched as an R integer (0 before bind), exact if an int can hold it. */
    function RowsFetched(): (r: int32)
      reads `bound, `rowsFetched
      ensures !bound ==> r == 0
      ensures bound && rowsFetched < 0x8000_0000 ==> r == rowsFetched as int32
    {
      if !bound then 0 else ToSigned((rowsFetched % 0x1_0000_0000) as uint32)
    }

    /** Nothing is complete before it is bound, and every bound statement is. */
    predicate Complete(): (r: bool)
      reads `bound, `spec, `complete
      ensures r ==> bound
      ensures bound && spec.None? ==> r
    {
      bound && (spec.None? || complete)
    }
  }
}
