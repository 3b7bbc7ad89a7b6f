/** Connections, results and transactions as a state machine. Results are created,
    used and destroyed in any order (destruction is up to R's garbage collector); each
    event carries what the server did in it, so that the theorems hold for every server. */
module Lifecycle {
  import opened Server

  /** The identity of a result object. */
  type Id = nat

  /** What a fully built result owns: a prepared statement, whose handle may already
      have been closed, or nothing (immediate execution). */
  datatype Impl = Prep(handleOpen: bool) | Simple

  datatype World = World(
    open: bool,             // the connection has not been closed
    transacting: bool,      // the client-side transaction flag
    durable: Log,           // committed work
    pending: Log,           // work the server holds uncommitted (autocommit is off)
    current: Option<Id>,    // the connection's current result
    results: map<Id, Impl>)  // all fully built results that have not been destroyed
  {
    /** What a statement executed now would see. */
    function Visible(): Log { durable + pending }
  }

  /** How the prepared-statement part of a constructor ended, with the work done. */
  datatype PrepOutcome =
    | InitFailed
    | Unsupported
    | PrepareError
    | ExecuteError(effect: Log)
    | SetupError(effect: Log)
    | Ready(effect: Log)

  function PrepEffect(outcome: PrepOutcome): Log {
    if outcome.InitFailed? || outcome.Unsupported? || outcome.PrepareError? then [] else outcome.effect
  }

  /** How immediate execution ended. */
  datatype SimpleOutcome = QueryError(effect: Log) | Done(effect: Log)

  datatype Event =
    | Create(id: Id, immediate: bool, prep: PrepOutcome, simple: SimpleOutcome)
    | Bind(id: Id, effect: Log)
    | Fetch(id: Id, effect: Log)
    | Destroy(id: Id)
    | Begin
    | Commit
    | Rollback
    | Disconnect

  // ----- Steps -----

  function Autocommit(w: World): World {
    if !w.transacting && w.open then w.(durable := w.durable + w.pending, pending := []) else w
  }

  function AddWork(w: World, effect: Log): World {
    if w.open then w.(pending := w.pending + effect) else w
  }

  /** `close` of a built result: a prepared statement gives up its handle and commits. */
  function Close(w: World, id: Id): World
    requires id in w.results
  {
    if w.results[id].Prep? then Autocommit(w.(results := w.results[id := Prep(false)])) else w
  }

  /** `set_current_result` for a result under construction. */
  function TakeOver(w: World, id: Id): World {
    if w.current.Some? && w.current.value in w.results then Close(w, w.current.value).(current := Some(id))
    else w.(current := Some(id))
  }

  /** The destructor of the base class, when the constructor has thrown. */
  function Abandon(w: World): World {
    w.(current := None)
  }

  function RunSimple(w: World, id: Id, outcome: SimpleOutcome): World {
    match outcome
    case QueryError(effect) => Abandon(AddWork(w, effect))
    case Done(effect) =>
      var done := Autocommit(AddWork(w, effect));
      done.(results := done.results[id := Simple])
  }

  function RunPrep(w: World, id: Id, outcome: PrepOutcome, simple: SimpleOutcome): World {
    match outcome
    case InitFailed => Abandon(w)
    case Unsupported => RunSimple(Autocommit(w), id, simple)
    case PrepareError => Abandon(Autocommit(w))
    case ExecuteError(effect) => Abandon(Autocommit(AddWork(w, effect)))
    case SetupError(effect) => Abandon(Autocommit(AddWork(w, effect)))
    case Ready(effect) =>
      var ready := AddWork(w, effect);
      ready.(results := ready.results[id := Prep(true)])
  }

  /** The destructors: the current result is taken off the connection and closed, and a
      prepared statement is closed (once more) as it is destroyed. */
  function Dispose(w: World, id: Id): World
    requires id in w.results
  {
    var w1 := if w.current == Some(id) then Close(w, id).(current := None) else w;
    if w1.results[id].Prep? then Autocommit(w1) else w1
  }

  /** `bind` does not look at the current result, unlike `fetch`: on a prepared statement
      whose handle has been closed it has no defined meaning. */
  predicate BindDefined(w: World, id: Id)
    requires id in w.results
  {
    w.results[id] != Prep(false)
  }

  predicate Enabled(w: World, e: Event) {
    match e
    case Create(id, _, _, _) => id !in w.results
    case Bind(id, _) => id in w.results && BindDefined(w, id)
    case Fetch(id, _) => id in w.results
    case Destroy(id) => id in w.results
    case _ => true
  }

  function Step(w: World, e: Event): World
    requires Enabled(w, e)
  {
    match e
    case Create(id, immediate, prep, simple) =>
      if !w.open then w
      else if immediate then RunSimple(TakeOver(w, id), id, simple)
      else RunPrep(TakeOver(w, id), id, prep, simple)
    case Bind(id, effect) =>
      if w.results[id].Simple? then w else AddWork(w, effect)
    case Fetch(id, effect) =>
      if w.current != Some(id) || w.results[id].Simple? then w else AddWork(w, effect)
    case Destroy(id) => var w1 := Dispose(w, id); w1.(results := w1.results - {id})
    case Begin =>
      if w.transacting || !w.open then w else w.(transacting := true)
    case Commit =>
      if !w.transacting || !w.open then w
      else w.(durable := w.durable + w.pending, pending := [], transacting := false)
    case Rollback =>
      if !w.transacting || !w.open then w else w.(pending := [], transacting := false)
    case Disconnect =>
      if !w.open then w else w.(open := false, pending := [])
  }

  predicate Feasible(w: World, es: seq<Event>)
    decreases |es|
  {
    es == [] || (Enabled(w, es[0]) && Feasible(Step(w, es[0]), es[1..]))
  }

  function Run(w: World, es: seq<Event>): World
    requires Feasible(w, es)
    decreases |es|
  {
    if es == [] then w else Run(Step(w, es[0]), es[1..])
  }

  /** A connection as `dbConnect` leaves it. */
  function Connected(durable: Log): World {
    World(true, false, durable, [], None, map[])
  }

  /** A prepared statement that cannot be used is destroyed again, which autocommits. */
  lemma PrepFails(w: World, id: Id, outcome: PrepOutcome, simple: SimpleOutcome)
    requires !outcome.InitFailed? && !outcome.Ready?
    ensures var cleaned := Autocommit(AddWork(w, PrepEffect(outcome)));
            && (outcome.Unsupported? ==> cleaned == Autocommit(w))
            && (!outcome.Unsupported? ==> RunPrep(w, id, outcome, simple) == Abandon(cleaned))
  {
    assert w.pending + [] == w.pending;
  }

  // ----- Ownership of statement handles -----

  /** The current result is null or a live result whose handles are open, and no other
      result has an open handle. */
  ghost predicate OneOwner(current: Option<Id>, results: map<Id, Impl>) {
    && (current.Some? ==> current.value in results && results[current.value] != Prep(false))
    && (forall id :: id in results && results[id] == Prep(true) ==> current == Some(id))
  }

  ghost predicate Owned(w: World) {
    OneOwner(w.current, w.results)
  }

  lemma CreateOwned(w: World, id: Id, immediate: bool, prep: PrepOutcome, simple: SimpleOutcome)
    requires Owned(w) && id !in w.results && w.open
    ensures Owned(Step(w, Create(id, immediate, prep, simple)))
  {
    var w1 := TakeOver(w, id);
    assert forall r :: r in w1.results ==> w1.results[r] != Prep(true);
  }

  lemma DestroyOwned(w: World, id: Id)
    requires Owned(w) && id in w.results
    ensures Owned(Step(w, Destroy(id)))
  {
    var w1 := if w.current == Some(id) then Close(w, id).(current := None) else w;
    assert w1.current != Some(id);
  }

  lemma StepOwned(w: World, e: Event)
    requires Owned(w) && Enabled(w, e)
    ensures Owned(Step(w, e))
  {
    if e.Create? && w.open {
      CreateOwned(w, e.id, e.immediate, e.prep, e.simple);
    } else if e.Destroy? {
      DestroyOwned(w, e.id);
    }
  }

  lemma {:induction false} RunOwned(w: World, es: seq<Event>)
    requires Owned(w) && Feasible(w, es)
    ensures Owned(Run(w, es))
    decreases |es|
  {
    if es == [] {
    } else {
      StepOwned(w, es[0]);
      RunOwned(Step(w, es[0]), es[1..]);
    }
  }

  /** In every reachable state at most one statement handle is open, a fetch that passes
      the check for the current result finds its handle open, and a bind is defined
      exactly on current results and on results of immediate execution. */
  lemma HandlesInEveryRun(durable: Log, es: seq<Event>)
    requires Feasible(Connected(durable), es)
    ensures var w := Run(Connected(durable), es);
            && (forall a, b | a in w.results && b in w.results ::
                  w.results[a] == Prep(true) && w.results[b] == Prep(true) ==> a == b)
            && (w.current.Some? ==> w.current.value in w.results && w.results[w.current.value] != Prep(false))
            && (forall id :: id in w.results ==>
                  (BindDefined(w, id) <==> w.current == Some(id) || w.results[id].Simple?))
  {
    RunOwned(Connected(durable), es);
  }

  /** The results after the current one has been cancelled. */
  function Cancelled(w: World): map<Id, Impl> {
    if w.current.Some? && w.current.value in w.results && w.results[w.current.value].Prep? then
      w.results[w.current.value := Prep(false)]
    else w.results
  }

  /** The constructor does not throw. */
  predicate Succeeds(e: Event)
    requires e.Create?
  {
    if e.immediate || e.prep.Unsupported? then e.simple.Done? else e.prep.Ready?
  }

  /** A constructor closes the result that was current, and adds its own unless it throws. */
  lemma CreateResults(w: World, e: Event)
    requires Enabled(w, e) && e.Create? && w.open
    ensures var w' := Step(w, e);
            if Succeeds(e) then
              && w'.current == Some(e.id) && e.id in w'.results
              && w'.results == Cancelled(w)[e.id := w'.results[e.id]]
            else w'.current == None && w'.results == Cancelled(w)
  {
    assert TakeOver(w, e.id).results == Cancelled(w);
  }

  // ----- Conservation of work -----

  /** The work that the server did in an event. */
  function Effect(w: World, e: Event): Log
    requires Enabled(w, e)
  {
    if !w.open then []
    else
      match e
      case Create(_, immediate, prep, simple) =>
        if immediate || prep.Unsupported? then simple.effect else PrepEffect(prep)
      case Bind(id, effect) => if w.results[id].Simple? then [] else effect
      case Fetch(id, effect) => if w.current != Some(id) || w.results[id].Simple? then [] else effect
      case _ => []
  }

  predicate Discards(w: World, e: Event) {
    w.open && ((e.Rollback? && w.transacting) || e.Disconnect?)
  }

  lemma AutocommitVisible(w: World)
    ensures Autocommit(w).Visible() == w.Visible() && w.durable <= Autocommit(w).durable
  {
    assert w.durable + w.pending + [] == w.durable + w.pending;
  }

  lemma WorkVisible(w: World, effect: Log)
    ensures AddWork(w, effect).Visible() == if w.open then w.Visible() + effect else w.Visible()
    ensures AddWork(w, effect).durable == w.durable && AddWork(w, effect).open == w.open
  {
    assert w.durable + (w.pending + effect) == w.durable + w.pending + effect;
  }

  lemma CreateConserves(w: World, id: Id, immediate: bool, prep: PrepOutcome, simple: SimpleOutcome)
    requires id !in w.results && w.open
    ensures var e := Create(id, immediate, prep, simple);
            && Step(w, e).Visible() == w.Visible() + Effect(w, e)
            && w.durable <= Step(w, e).durable
  {
    var w1 := TakeOver(w, id);
    AutocommitVisible(w);
    assert w1.Visible() == w.Visible() && w1.open && w.durable <= w1.durable;
    assert w.Visible() + [] == w.Visible();
    var w2 := if immediate then w1 else Autocommit(w1);
    AutocommitVisible(w1);
    if immediate || prep.Unsupported? {
      WorkVisible(w2, simple.effect);
      AutocommitVisible(AddWork(w2, simple.effect));
    } else if !prep.InitFailed? && !prep.PrepareError? {
      WorkVisible(w1, prep.effect);
      AutocommitVisible(AddWork(w1, prep.effect));
    }
  }

  /** Nothing is lost or doubled: an event adds its work to what is visible, except that
      rolling back and disconnecting drop exactly the pending work. */
  lemma StepConserves(w: World, e: Event)
    requires Enabled(w, e)
    ensures Step(w, e).Visible() == if Discards(w, e) then w.durable else w.Visible() + Effect(w, e)
    ensures w.durable <= Step(w, e).durable
  {
    assert w.durable + [] == w.durable;
    assert w.Visible() + [] == w.Visible();
    match e
    case Create(id, immediate, prep, simple) =>
      if w.open {
        CreateConserves(w, id, immediate, prep, simple);
      }
    case Bind(id, effect) => WorkVisible(w, effect);
    case Fetch(id, effect) => WorkVisible(w, effect);
    case Destroy(id) =>
      var w1 := if w.current == Some(id) then Close(w, id).(current := None) else w;
      AutocommitVisible(w);
      AutocommitVisible(w1);
    case _ =>
  }

  // ----- Transactions -----

  /** The work done in a run, in order. */
  function WorkDone(w: World, es: seq<Event>): Log
    requires Feasible(w, es)
    decreases |es|
  {
    if es == [] then [] else Effect(w, es[0]) + WorkDone(Step(w, es[0]), es[1..])
  }

  predicate WithinTransaction(es: seq<Event>) {
    forall i :: 0 <= i < |es| ==> !es[i].Commit? && !es[i].Rollback?
  }

  predicate StaysConnected(es: seq<Event>) {
    forall i :: 0 <= i < |es| ==> !es[i].Disconnect?
  }

  lemma StepIsolated(w: World, e: Event)
    requires Enabled(w, e) && w.transacting && !e.Commit? && !e.Rollback?
    ensures Step(w, e).transacting && Step(w, e).durable == w.durable
    ensures w.open && !e.Disconnect? ==> Step(w, e).open && Step(w, e).pending == w.pending + Effect(w, e)
  {
    assert w.pending + [] == w.pending;
  }

  /** Isolation: between begin and the end of the transaction the durable state stays,
      whatever results are created, bound, fetched, cancelled, fail to construct or are
      destroyed, and the pending work is exactly the work done, in order. */
  lemma {:induction false} RunIsolated(w: World, es: seq<Event>)
    requires Feasible(w, es) && w.transacting && WithinTransaction(es)
    ensures Run(w, es).transacting && Run(w, es).durable == w.durable
    ensures w.open && StaysConnected(es) ==> Run(w, es).open && Run(w, es).pending == w.pending + WorkDone(w, es)
    decreases |es|
  {
    if es == [] {
      assert w.pending + [] == w.pending;
    } else {
      StepIsolated(w, es[0]);
      RunIsolated(Step(w, es[0]), es[1..]);
      if w.open && StaysConnected(es) {
        assert w.pending + (Effect(w, es[0]) + WorkDone(Step(w, es[0]), es[1..]))
            == w.pending + Effect(w, es[0]) + WorkDone(Step(w, es[0]), es[1..]);
      }
    }
  }

  /** Commit makes exactly the transaction's work durable, on top of what was pending when
      it began. Rollback leaves the durable state as it was at begin; it brings back what
      was visible at begin exactly if nothing was pending then. */
  lemma Transaction(w: World, es: seq<Event>)
    requires w.open && !w.transacting
    requires Feasible(Step(w, Begin), es) && WithinTransaction(es) && StaysConnected(es)
    ensures var body := Run(Step(w, Begin), es);
            && Step(body, Commit).durable == w.Visible() + WorkDone(Step(w, Begin), es)
            && Step(body, Commit).pending == []
            && Step(body, Rollback).durable == w.durable
            && (Step(body, Rollback).Visible() == w.Visible() <==> w.pending == [])
  {
    RunIsolated(Step(w, Begin), es);
    var done := WorkDone(Step(w, Begin), es);
    assert w.durable + (w.pending + done) == w.durable + w.pending + done;
    assert w.durable + [] == w.durable;
    if w.pending != [] {
      assert |w.durable + w.pending| > |w.durable|;
    }
  }

  // ----- No forgotten work -----

  /** A prepared statement is the connection's current result: a caller has not cleared it. */
  predicate StatementOpen(w: World) {
    w.current.Some? && w.current.value in w.results && w.results[w.current.value].Prep?
  }

  /** Outside a transaction, uncommitted work belongs to the current result, and that is
      a prepared statement, so that closing it commits. A closed connection has none. */
  predicate Tidy(w: World) {
    && (!w.open ==> w.pending == [])
    && (w.open && !w.transacting && w.pending != [] ==> StatementOpen(w))
  }

  /** Immediate execution throws before it commits, and its result has nothing to close:
      a failing query that has done some work leaves it uncommitted. */
  predicate LeavesResidue(w: World, e: Event) {
    && e.Create? && w.open && !w.transacting
    && (e.immediate || e.prep.Unsupported?)
    && e.simple.QueryError? && e.simple.effect != []
  }

  /** Every step keeps uncommitted work in order, except exactly that one. */
  lemma StepTidy(w: World, e: Event)
    requires Enabled(w, e) && Owned(w) && Tidy(w)
    ensures Tidy(Step(w, e)) <==> !LeavesResidue(w, e)
  {
  }

  predicate NoResidue(w: World, es: seq<Event>)
    requires Feasible(w, es)
    decreases |es|
  {
    es == [] || (!LeavesResidue(w, es[0]) && NoResidue(Step(w, es[0]), es[1..]))
  }

  lemma {:induction false} RunTidy(w: World, es: seq<Event>)
    requires Feasible(w, es) && Owned(w) && Tidy(w) && NoResidue(w, es)
    ensures Tidy(Run(w, es))
    decreases |es|
  {
    if es == [] {
    } else {
      StepTidy(w, es[0]);
      StepOwned(w, es[0]);
      RunTidy(Step(w, es[0]), es[1..]);
    }
  }

  predicate NothingForgotten(w: World) {
    w.open && !w.transacting && w.current.None? ==> w.pending == []
  }

  /** Nothing is forgotten in any state that a run goes through. */
  predicate NeverForgets(w: World, es: seq<Event>)
    requires Feasible(w, es)
    decreases |es|
  {
    NothingForgotten(w) && (es == [] || NeverForgets(Step(w, es[0]), es[1..]))
  }

  lemma {:induction false} ForgetsOnlyResidue(w: World, es: seq<Event>)
    requires Feasible(w, es) && Owned(w) && Tidy(w)
    ensures NeverForgets(w, es) <==> NoResidue(w, es)
    decreases |es|
  {
    if es == [] {
    } else {
      var w1 := Step(w, es[0]);
      StepTidy(w, es[0]);
      StepOwned(w, es[0]);
      if LeavesResidue(w, es[0]) {
        assert !NothingForgotten(w1);
      } else {
        ForgetsOnlyResidue(w1, es[1..]);
      }
    }
  }

  /** No forgotten work: a connection that is open, not in a transaction and without a
      current result has no uncommitted work, in all states of a run exactly if no immediate
      query fails in it after doing some work. */
  lemma NoForgottenWork(durable: Log, es: seq<Event>)
    requires Feasible(Connected(durable), es)
    ensures NeverForgets(Connected(durable), es) <==> NoResidue(Connected(durable), es)
  {
    ForgetsOnlyResidue(Connected(durable), es);
  }

  // ----- What a rollback restores -----

  /** Beginning a transaction here and rolling it back, whatever is done in between,
      restores what was visible. */
  ghost predicate RollbackRestores(w: World) {
    forall es: seq<Event> ::
      Feasible(Step(w, Begin), es) && WithinTransaction(es) && StaysConnected(es) ==>
        Step(Run(Step(w, Begin), es), Rollback).Visible() == w.Visible()
  }

  lemma RestoresWithoutPending(w: World)
    requires w.open && !w.transacting
    ensures RollbackRestores(w) <==> w.pending == []
  {
    forall es: seq<Event> | Feasible(Step(w, Begin), es) && WithinTransaction(es) && StaysConnected(es)
      ensures Step(Run(Step(w, Begin), es), Rollback).Visible() == w.Visible() <==> w.pending == []
    {
      Transaction(w, es);
    }
    assert Feasible(Step(w, Begin), []);
  }

  /** The same, also after one more fetch from any of the results. */
  ghost predicate RestoresAfterFetches(w: World) {
    && RollbackRestores(w)
    && (forall id: Id, effect: Log :: id in w.results ==> RollbackRestores(Step(w, Fetch(id, effect))))
  }

  /** For a caller: with no prepared statement open when it begins, every transaction that
      is rolled back leaves what was visible before, after every run without a failing
      immediate query as above. With one open that is not so: it is enough to fetch from it
      before the transaction begins. */
  lemma RollbackOfCaller(durable: Log, es: seq<Event>)
    requires Feasible(Connected(durable), es) && NoResidue(Connected(durable), es)
    ensures var w := Run(Connected(durable), es);
            w.open && !w.transacting ==> (RestoresAfterFetches(w) <==> !StatementOpen(w))
  {
    var w := Run(Connected(durable), es);
    RunTidy(Connected(durable), es);
    if w.open && !w.transacting {
      RestoresWithoutPending(w);
      if StatementOpen(w) {
        FetchBeforeBegin(w, [Work("", [])]);
      } else {
        forall id: Id, effect: Log | id in w.results ensures RollbackRestores(Step(w, Fetch(id, effect))) {
          assert Step(w, Fetch(id, effect)) == w;
        }
      }
    }
  }

  lemma FetchBeforeBegin(w: World, effect: Log)
    requires w.open && !w.transacting && StatementOpen(w) && effect != []
    ensures !RollbackRestores(Step(w, Fetch(w.current.value, effect)))
  {
    RestoresWithoutPending(Step(w, Fetch(w.current.value, effect)));
    assert |w.pending + effect| > 0;
  }

  // ----- Runs in which more might have been expected -----

  /** A failing immediate query that has done some work leaves a connection that is open,
      idle and outside a transaction with uncommitted work. */
  lemma ResidueIsForgotten(durable: Log, id: Id, residue: Log)
    requires residue != []
    ensures var es := [Create(id, true, InitFailed, QueryError(residue))];
            && Feasible(Connected(durable), es)
            && var w := Run(Connected(durable), es);
               w.open && !w.transacting && w.current.None? && w.pending == residue
  {
    var e := Create(id, true, InitFailed, QueryError(residue));
    assert [e][1..] == [];
    assert [] + residue == residue;
  }

  /** A statement that was executed before a transaction began, and whose result was still
      open then, is rolled back with the transaction. */
  lemma StatementBeforeBegin(durable: Log, id: Id, effect: Log)
    ensures var e1 := Create(id, false, Ready(effect), Done([]));
            var w1 := Step(Connected(durable), e1);
            && w1.Visible() == durable + effect && Enabled(Step(w1, Begin), Destroy(id))
            && Step(Step(Step(w1, Begin), Destroy(id)), Rollback).Visible() == durable
  {
    assert [] + effect == effect && durable + [] == durable;
  }

  /** Cancelling a prepared statement makes binding to it undefined, fetching not. */
  lemma CancelledBind(durable: Log, a: Id, b: Id, effect: Log)
    requires a != b
    ensures var e1 := Create(a, false, Ready([]), Done([]));
            var e2 := Create(b, false, Ready([]), Done([]));
            && Feasible(Connected(durable), [e1, e2])
            && var w := Run(Connected(durable), [e1, e2]);
               a in w.results && b in w.results && !BindDefined(w, a) && BindDefined(w, b)
               && Enabled(w, Fetch(a, effect)) && Step(w, Fetch(a, effect)) == w
  {
    var e1 := Create(a, false, Ready([]), Done([]));
    var e2 := Create(b, false, Ready([]), Done([]));
    var es := [e1, e2];
    assert es[1..] == [e2] && [e2][1..] == [];
    var w1 := Step(Connected(durable), e1);
    assert w1.results == map[a := Prep(true)] && w1.current == Some(a);
    var w2 := Step(w1, e2);
    assert w2.results == map[a := Prep(false), b := Prep(true)] && w2.current == Some(b);
    assert Feasible(w1, [e2]) && Run(w1, [e2]) == w2;
  }
}
