/** What a constructor of a result asks of the server, and the event it amounts to. */
module Conversation {
  import opened MachineInts
  import opened Server
  import L = Lifecycle

  /** The result metadata that a result without parameters ends up with: if there are none
      when it is prepared, a query looks again after it has been executed. */
  function FieldsSent(p: Prepared, isStatement: bool): Option<seq<FieldType>> {
    if p.fields.None? && p.nParams == 0 && !isStatement then p.lateFields else p.fields
  }

  function PlannedPrep(server: Server, sql: string, isStatement: bool, log: Log): L.PrepOutcome {
    match server.prepare(sql)
    case UnsupportedProtocol => L.Unsupported
    case PrepareFailed => L.PrepareError
    case PrepareOk(p) =>
      var reply := server.run(log, Work(sql, []));
      var effect := if p.nParams == 0 then reply.effect else [];
      if p.nParams == 0 && !reply.ok then L.ExecuteError(effect)
      else if FieldsSent(p, isStatement).Some? && !p.bindable then L.SetupError(effect)
      else L.Ready(effect)
  }

  function PlannedSimple(server: Server, sql: string, log: Log): L.SimpleOutcome {
    var reply := server.run(log, Work(sql, []));
    if reply.ok then L.Done(reply.effect) else L.QueryError(reply.effect)
  }

  /** The event of creating a result, given what the statement can see. */
  function Planned(id: L.Id, server: Server, sql: string, isStatement: bool, immediate: bool, log: Log): L.Event {
    L.Create(id, immediate, PlannedPrep(server, sql, isStatement, log), PlannedSimple(server, sql, log))
  }

  /** Log and outcome of creating a result that is not immediate. */
  function SendLog(server: Server, sql: string, isStatement: bool, log: Log): Log {
    var prep := PlannedPrep(server, sql, isStatement, log);
    log + if prep.Unsupported? then PlannedSimple(server, sql, log).effect else L.PrepEffect(prep)
  }

  predicate SendOk(server: Server, sql: string, isStatement: bool, log: Log) {
    var prep := PlannedPrep(server, sql, isStatement, log);
    if prep.Unsupported? then PlannedSimple(server, sql, log).Done? else prep.Ready?
  }

  /** The number of affected rows that a successful statement reports; NA (None) if it is
      still waiting for its parameters. */
  function RowsReported(server: Server, sql: string, isStatement: bool, log: Log): Option<int> {
    match server.prepare(sql)
    case PrepareOk(p) =>
      if p.nParams > 0 then None
      else if FieldsSent(p, isStatement).Some? then Some(0)
      else Some(ToSigned((server.run(log, Work(sql, [])).affected % 0x1_0000_0000) as uint32) as int)
    case _ => Some(0)
  }

  /** What sending comes to, from the server's answers alone: a statement with parameters is not
      executed yet, one without is, and success needs buffers for the columns that are known
      by then. */
  lemma SendByReply(server: Server, sql: string, isStatement: bool, log: Log)
    ensures var reply := server.run(log, Work(sql, []));
            match server.prepare(sql)
            case PrepareFailed =>
              !SendOk(server, sql, isStatement, log) && SendLog(server, sql, isStatement, log) == log
            case UnsupportedProtocol =>
              && (SendOk(server, sql, isStatement, log) <==> reply.ok)
              && SendLog(server, sql, isStatement, log) == log + reply.effect
            case PrepareOk(p) =>
              if p.nParams > 0 then
                && (SendOk(server, sql, isStatement, log) <==> p.fields.None? || p.bindable)
                && SendLog(server, sql, isStatement, log) == log
              else
                && (SendOk(server, sql, isStatement, log) <==>
                    reply.ok && (p.bindable || (p.fields.None? && (isStatement || p.lateFields.None?))))
                && SendLog(server, sql, isStatement, log) == log + reply.effect
  {
    assert log + [] == log;
  }

  /** Creating a result does what sending comes to, for immediate execution as for statements
      that cannot be prepared; only a prepared statement has a handle to be closed later. */
  lemma CreationByReply(w: L.World, id: L.Id, server: Server, sql: string, isStatement: bool, immediate: bool)
    requires w.open && id !in w.results
    ensures var log, e := w.Visible(), Planned(id, server, sql, isStatement, immediate, w.Visible());
            var reply := server.run(log, Work(sql, []));
            var ok := if immediate then reply.ok else SendOk(server, sql, isStatement, log);
            && (L.Succeeds(e) <==> ok)
            && L.Step(w, e).current == (if ok then Some(id) else None)
            && L.Step(w, e).Visible() ==
               (if immediate then log + reply.effect else SendLog(server, sql, isStatement, log))
            && (ok ==> id in L.Step(w, e).results
                       && L.Step(w, e).results[id] ==
                          if immediate || server.prepare(sql).UnsupportedProtocol? then L.Simple else L.Prep(true))
  {
    L.StepConserves(w, Planned(id, server, sql, isStatement, immediate, w.Visible()));
  }

  /** The constructor sees the same log whether or not cancelling commits before it. */
  lemma TakeOverVisible(w: L.World, id: L.Id)
    ensures L.TakeOver(w, id).Visible() == w.Visible()
  {
    L.AutocommitVisible(w);
  }
}
