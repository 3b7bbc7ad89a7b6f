/** The rows that a bound query delivers, as one stream: the results of all parameter
    rows, one after the other. Fetching is described as pulling single rows; the
    theorems say that every way of cutting the stream into fetches delivers it. */
module Stream {
  import opened Server

  type Run = (Log, Work) -> Reply

  /** The open result of an execution. Reading a Failed cursor is an error. */
  datatype Cursor = Exhausted | Rows(rest: seq<Row>, broken: bool) | Failed

  /** What is left of the open result, and the parameter rows not yet executed. */
  datatype Source = Source(cursor: Cursor, todo: seq<seq<Sent>>)

  // ----- Specification: the whole stream -----

  /** All rows, whether they end without an error, and the server's log afterwards. */
  datatype Feed = Feed(rows: seq<Row>, ok: bool, log: Log)

  /** Concatenated results of all parameter rows, up to the first error. */
  function Concatenated(run: Run, sql: string, todo: seq<seq<Sent>>, log: Log): Feed {
    if todo == [] then Feed([], true, log)
    else
      var reply := run(log, Work(sql, todo[0]));
      var after := log + reply.effect;
      if !reply.ok then Feed([], false, after)
      else if reply.broken then Feed(reply.rows, false, after)
      else
        var others := Concatenated(run, sql, todo[1..], after);
        others.(rows := reply.rows + others.rows)
  }

  function Drain(run: Run, sql: string, src: Source, log: Log): Feed {
    match src.cursor
    case Failed => Feed([], false, log)
    case Exhausted => Concatenated(run, sql, src.todo, log)
    case Rows(rest, broken) =>
      if broken then Feed(rest, false, log)
      else
        var others := Concatenated(run, sql, src.todo, log);
        others.(rows := rest + others.rows)
  }

  // ----- The lazy machine: one row at a time -----

  datatype Pulled = Got(row: Row) | Ended | Errored

  function Pull(run: Run, sql: string, src: Source, log: Log): (Pulled, Source, Log)
    decreases |src.todo|
  {
    if src.cursor.Failed? then (Errored, src, log)
    else if src.cursor.Rows? && src.cursor.rest != [] then
      (Got(src.cursor.rest[0]), src.(cursor := src.cursor.(rest := src.cursor.rest[1..])), log)
    else if src.cursor.Rows? && src.cursor.broken then (Errored, src.(cursor := Failed), log)
    else if src.todo == [] then (Ended, Source(Exhausted, []), log)
    else
      var reply := run(log, Work(sql, src.todo[0]));
      var after := log + reply.effect;
      if !reply.ok then (Errored, Source(Failed, src.todo[1..]), after)
      else Pull(run, sql, Source(Rows(reply.rows, reply.broken), src.todo[1..]), after)
  }

  function RowsLeft(c: Cursor): nat {
    if c.Rows? then |c.rest| else 0
  }

  /** Whether a pull from this source would go on to the next parameter row. */
  predicate Advances(src: Source) {
    !src.cursor.Failed? && !(src.cursor.Rows? && (src.cursor.rest != [] || src.cursor.broken)) && src.todo != []
  }

  /** Termination of everything that pulls: either no parameter row is executed and the
      open result gets shorter, or fewer parameter rows are left. */
  lemma {:induction false} PullShrinks(run: Run, sql: string, src: Source, log: Log)
    ensures var (p, src', _) := Pull(run, sql, src, log);
            && |src'.todo| <= |src.todo|
            && (p.Got? && |src'.todo| == |src.todo| ==> RowsLeft(src'.cursor) < RowsLeft(src.cursor))
    decreases |src.todo|
  {
    if Advances(src) {
      var reply := run(log, Work(sql, src.todo[0]));
      PullShrinks(run, sql, Source(Rows(reply.rows, reply.broken), src.todo[1..]), log + reply.effect);
    }
  }

  /** One row is pulled exactly when the stream has one, and it is the first one. */
  lemma {:induction false} PullDrains(run: Run, sql: string, src: Source, log: Log)
    ensures var feed := Drain(run, sql, src, log);
            var (p, src', log') := Pull(run, sql, src, log);
            match p
            case Got(row) => feed.rows != [] && row == feed.rows[0]
                             && Drain(run, sql, src', log') == feed.(rows := feed.rows[1..])
            case Ended => feed == Feed([], true, log') && src' == Source(Exhausted, [])
            case Errored => feed == Feed([], false, log') && src'.cursor == Failed
    decreases |src.todo|
  {
    if src.cursor.Failed? {
    } else if src.cursor.Rows? && src.cursor.rest != [] {
      var rest := src.cursor.rest;
      var others := Concatenated(run, sql, src.todo, log).rows;
      assert (rest + others)[1..] == rest[1..] + others;
    } else if src.cursor.Rows? && src.cursor.broken {
    } else {
      if src.cursor.Rows? {
        var others := Concatenated(run, sql, src.todo, log).rows;
        assert src.cursor.rest + others == others;
      }
      if src.todo != [] {
        var reply := run(log, Work(sql, src.todo[0]));
        if reply.ok {
          PullDrains(run, sql, Source(Rows(reply.rows, reply.broken), src.todo[1..]), log + reply.effect);
        }
      }
    }
  }

  // ----- One fetch -----

  /** Outcome of a fetch: the rows pulled, whether it stopped because it had enough
      (More), because the stream ended, or by an error, and what is left. */
  datatype Chunk = Chunk(rows: seq<Row>, stop: Stop, src: Source, log: Log)

  datatype Stop = More | End | Error

  /** Pulls n rows, or all of them for negative n. */
  function Take(run: Run, sql: string, src: Source, log: Log, n: int): Chunk
    decreases |src.todo|, RowsLeft(src.cursor)
  {
    if n == 0 then Chunk([], More, src, log)
    else
      var (p, src', log') := Pull(run, sql, src, log);
      match p
      case Ended => Chunk([], End, src', log')
      case Errored => Chunk([], Error, src', log')
      case Got(row) =>
        PullShrinks(run, sql, src, log);
        var others := Take(run, sql, src', log', n - 1);
        others.(rows := [row] + others.rows)
  }

  /** A fetch of n rows delivers the next n rows of the stream; if there are fewer, it
      delivers all that are left and sees the end, or fails if an error comes first. */
  lemma {:induction false} TakeIsPrefix(run: Run, sql: string, src: Source, log: Log, n: int)
    ensures var feed := Drain(run, sql, src, log);
            var c := Take(run, sql, src, log, n);
            if 0 <= n <= |feed.rows| then
              && c.stop == More && c.rows == feed.rows[..n]
              && Drain(run, sql, c.src, c.log) == feed.(rows := feed.rows[n..])
            else
              && c.rows == feed.rows && c.log == feed.log
              && c.stop == (if feed.ok then End else Error)
              && (feed.ok ==> c.src == Source(Exhausted, []))
              && (!feed.ok ==> c.src.cursor == Failed)
    decreases |src.todo|, RowsLeft(src.cursor)
  {
    var rows := Drain(run, sql, src, log).rows;
    if n == 0 {
      assert rows[0..] == rows;
    } else {
      PullDrains(run, sql, src, log);
      var (p, src', log') := Pull(run, sql, src, log);
      if p.Got? {
        PullShrinks(run, sql, src, log);
        TakeIsPrefix(run, sql, src', log', n - 1);
        assert rows == [rows[0]] + rows[1..];
        if 1 <= n <= |rows| {
          assert rows[..n] == [rows[0]] + rows[1..][..n - 1];
          assert rows[1..][n - 1..] == rows[n..];
        }
      }
    }
  }

  /** What a fetch of n rows has taken and what it has left make up the stream. */
  lemma TakeLeaves(run: Run, sql: string, src: Source, log: Log, n: nat)
    requires n > 0
    ensures var feed := Drain(run, sql, src, log);
            var c := Take(run, sql, src, log, n);
            var left := Drain(run, sql, c.src, c.log);
            if c.stop == Error then !feed.ok
            else
              && feed == left.(rows := c.rows + left.rows)
              && if c.stop == End then left.rows == [] && left.ok else |left.rows| < |feed.rows|
  {
    TakeIsPrefix(run, sql, src, log, n);
    var feed := Drain(run, sql, src, log);
    assert feed.rows + [] == feed.rows;
    if n <= |feed.rows| {
      assert feed.rows[..n] + feed.rows[n..] == feed.rows;
    }
  }

  /** A fetch that asks for rows leaves the result at its end exactly if it saw the end. */
  lemma {:induction false} EndIsExhausted(run: Run, sql: string, src: Source, log: Log, n: int)
    requires n != 0
    ensures var c := Take(run, sql, src, log, n); c.src.cursor.Exhausted? <==> c.stop == End
    decreases |src.todo|, RowsLeft(src.cursor)
  {
    var (p, src', log') := Pull(run, sql, src, log);
    PullDrains(run, sql, src, log);
    PullShrinks(run, sql, src, log);
    if p.Got? {
      GotLeavesRows(run, sql, src, log);
      if n != 1 {
        EndIsExhausted(run, sql, src', log', n - 1);
      }
    }
  }

  lemma {:induction false} GotLeavesRows(run: Run, sql: string, src: Source, log: Log)
    ensures var (p, src', _) := Pull(run, sql, src, log); p.Got? ==> src'.cursor.Rows?
    decreases |src.todo|
  {
    if Advances(src) {
      var reply := run(log, Work(sql, src.todo[0]));
      GotLeavesRows(run, sql, Source(Rows(reply.rows, reply.broken), src.todo[1..]), log + reply.effect);
    }
  }

  // ----- Any sequence of fetches -----

  /** The rows of a sequence of fetches put together; an error ends the sequence. */
  function Fetches(run: Run, sql: string, src: Source, log: Log, sizes: seq<int>): Chunk
    decreases |sizes|
  {
    if sizes == [] then Chunk([], More, src, log)
    else
      var c := Take(run, sql, src, log, sizes[0]);
      if c.stop == Error then c
      else
        var others := Fetches(run, sql, c.src, c.log, sizes[1..]);
        others.(rows := c.rows + others.rows)
  }

  /** Whether fetches of these sizes ask for more than m rows; -1 asks for all. */
  predicate AsksForMore(sizes: seq<int>, m: nat)
    decreases |sizes|
  {
    sizes != [] &&
    (sizes[0] < 0 || sizes[0] > m || AsksForMore(sizes[1..], m - sizes[0]))
  }

  /** The number of rows asked for. */
  function Asked(sizes: seq<int>): int {
    if sizes == [] then 0 else sizes[0] + Asked(sizes[1..])
  }

  /** Chunking: however a stream is cut into fetches, the rows that arrive are the
      first rows of the concatenated results of the parameter rows, and all of them
      once a fetch has asked for more than there are. */
  lemma {:induction false} Chunking(run: Run, sql: string, src: Source, log: Log, sizes: seq<int>)
    ensures var feed := Drain(run, sql, src, log);
            var c := Fetches(run, sql, src, log, sizes);
            if AsksForMore(sizes, |feed.rows|) then
              (feed.ok ==>
                 c.rows == feed.rows && c.stop != Error && c.log == feed.log && c.src == Source(Exhausted, []))
              && (!feed.ok ==> c.stop == Error)
            else
              && 0 <= Asked(sizes) <= |feed.rows|
              && c.stop != Error && c.rows == feed.rows[..Asked(sizes)]
              && Drain(run, sql, c.src, c.log) == feed.(rows := feed.rows[Asked(sizes)..])
    decreases |sizes|
  {
    var feed := Drain(run, sql, src, log);
    if sizes == [] {
      assert feed.rows[0..] == feed.rows;
    } else {
      var n := sizes[0];
      TakeIsPrefix(run, sql, src, log, n);
      var c := Take(run, sql, src, log, n);
      if c.stop != Error {
        Chunking(run, sql, c.src, c.log, sizes[1..]);
        if 0 <= n <= |feed.rows| {
          assert feed.rows == feed.rows[..n] + feed.rows[n..];
          if !AsksForMore(sizes, |feed.rows|) {
            assert feed.rows[..Asked(sizes)] == feed.rows[..n] + feed.rows[n..][..Asked(sizes[1..])];
            assert feed.rows[n..][Asked(sizes[1..])..] == feed.rows[Asked(sizes)..];
          }
        } else {
          DrainedStaysEmpty(run, sql, c.log, sizes[1..]);
          assert feed.rows + [] == feed.rows;
        }
      }
    }
  }

  lemma {:induction false} DrainedStaysEmpty(run: Run, sql: string, log: Log, sizes: seq<int>)
    ensures var c := Fetches(run, sql, Source(Exhausted, []), log, sizes);
            c.rows == [] && c.stop != Error && c.src == Source(Exhausted, []) && c.log == log
    decreases |sizes|
  {
    if sizes == [] {
    } else {
      DrainedStaysEmpty(run, sql, log, sizes[1..]);
    }
  }

  /** After fetches that have not failed and were not all for zero rows, the result is at
      its end (which is when it is called complete) exactly if some fetch has asked for
      more rows than were left, not as soon as the last row has been delivered. */
  lemma {:induction false} CompleteOnceSeen(run: Run, sql: string, src: Source, log: Log, sizes: seq<int>)
    requires Fetches(run, sql, src, log, sizes).stop != Error
    requires src.cursor.Exhausted? ==> exists i :: 0 <= i < |sizes| && sizes[i] != 0
    ensures Fetches(run, sql, src, log, sizes).src.cursor.Exhausted? <==>
            AsksForMore(sizes, |Drain(run, sql, src, log).rows|)
    decreases |sizes|
  {
    var feed := Drain(run, sql, src, log);
    if sizes == [] {
    } else {
      var n := sizes[0];
      TakeIsPrefix(run, sql, src, log, n);
      var c := Take(run, sql, src, log, n);
      if n != 0 {
        EndIsExhausted(run, sql, src, log, n);
      }
      if c.stop == End {
        DrainedStaysEmpty(run, sql, c.log, sizes[1..]);
      } else {
        if c.src.cursor.Exhausted? {
          assert n == 0;
          var i :| 0 <= i < |sizes| && sizes[i] != 0;
          assert sizes[1..][i - 1] != 0;
        }
        CompleteOnceSeen(run, sql, c.src, c.log, sizes[1..]);
      }
    }
  }

  /** The row counter counts rows that were read, and a failing fetch delivers none: it
      agrees with the rows delivered exactly if no fetch failed after reading some. */
  lemma CounterCountsDelivered(run: Run, sql: string, src: Source, log: Log, n: int)
    ensures var c := Take(run, sql, src, log, n);
            var delivered := if c.stop == Error then [] else c.rows;
            |c.rows| == |delivered| <==> c.stop != Error || Drain(run, sql, src, log).rows == []
  {
    TakeIsPrefix(run, sql, src, log, n);
  }

  /** What a bound query is used for: fetches, and binding another parameter table, which
      starts over with that table wherever the stream was. */
  datatype Use = Rebind(table: seq<seq<Sent>>) | FetchRows(n: int)

  /** The rows delivered, and by how much the row counter has gone up. */
  datatype Totals = Totals(delivered: seq<Row>, counted: nat)

  function TotalsOf(run: Run, sql: string, src: Source, log: Log, uses: seq<Use>): Totals
    decreases |uses|
  {
    if uses == [] then Totals([], 0)
    else
      match uses[0]
      case Rebind(table) => TotalsOf(run, sql, Source(Exhausted, table), log, uses[1..])
      case FetchRows(n) =>
        var c := Take(run, sql, src, log, n);
        var others := TotalsOf(run, sql, c.src, c.log, uses[1..]);
        Totals((if c.stop == Error then [] else c.rows) + others.delivered, |c.rows| + others.counted)
  }

  /** Every fetch that fails meets the error before any row. */
  predicate LosesNothing(run: Run, sql: string, src: Source, log: Log, uses: seq<Use>)
    decreases |uses|
  {
    uses == [] ||
    match uses[0]
    case Rebind(table) => LosesNothing(run, sql, Source(Exhausted, table), log, uses[1..])
    case FetchRows(n) =>
      var c := Take(run, sql, src, log, n);
      && (c.stop == Error ==> Drain(run, sql, src, log).rows == [])
      && LosesNothing(run, sql, c.src, c.log, uses[1..])
  }

  /** Over all uses of a query, re-binding included, the row counter is never below the
      number of rows delivered, and agrees with it exactly if no failing fetch lost rows. */
  lemma {:induction false} CounterOverAllUses(run: Run, sql: string, src: Source, log: Log, uses: seq<Use>)
    ensures var t := TotalsOf(run, sql, src, log, uses);
            |t.delivered| <= t.counted && (t.counted == |t.delivered| <==> LosesNothing(run, sql, src, log, uses))
    decreases |uses|
  {
    if uses == [] {
    } else {
      match uses[0]
      case Rebind(table) => CounterOverAllUses(run, sql, Source(Exhausted, table), log, uses[1..]);
      case FetchRows(n) =>
        var c := Take(run, sql, src, log, n);
        CounterCountsDelivered(run, sql, src, log, n);
        CounterOverAllUses(run, sql, c.src, c.log, uses[1..]);
    }
  }

  // ----- Laziness -----

  /** No parameter row is executed any more once reading the cursor must fail. */
  predicate Stuck(c: Cursor) {
    c.Failed? || (c.Rows? && c.broken)
  }

  lemma {:induction false} StuckExecutesNothing(run: Run, sql: string, src: Source, log: Log, n: int)
    requires Stuck(src.cursor)
    ensures var c := Take(run, sql, src, log, n); c.src.todo == src.todo && c.log == log
    decreases RowsLeft(src.cursor)
  {
    if n != 0 && src.cursor.Rows? && src.cursor.rest != [] {
      var (_, src', _) := Pull(run, sql, src, log);
      StuckExecutesNothing(run, sql, src', log, n - 1);
    }
  }

  /** A pull executes the first k outstanding parameter rows; the stream without the
      k-th of them has no row. */
  lemma {:induction false} PullIsLazy(run: Run, sql: string, src: Source, log: Log, k: nat)
    requires k == |src.todo| - |Pull(run, sql, src, log).1.todo|
    ensures Pull(run, sql, src, log).1.todo == src.todo[k..]
    ensures k > 0 ==> Drain(run, sql, src.(todo := src.todo[..k - 1]), log).rows == []
    decreases |src.todo|
  {
    var todo := src.todo;
    if Advances(src) {
      var reply := run(log, Work(sql, todo[0]));
      if reply.ok {
        var next := Source(Rows(reply.rows, reply.broken), todo[1..]);
        PullShrinks(run, sql, next, log + reply.effect);
        PullIsLazy(run, sql, next, log + reply.effect, k - 1);
        assert todo[1..][k - 1..] == todo[k..];
        if k > 1 {
          assert todo[..k - 1][0] == todo[0] && todo[..k - 1][1..] == todo[1..][..k - 2];
        }
      }
    }
  }

  /** Parameter rows from the m-th on play no part in a pull that executes only k. */
  lemma {:induction false} PullIgnoresRest(run: Run, sql: string, src: Source, log: Log, k: nat, m: nat)
    requires k == |src.todo| - |Pull(run, sql, src, log).1.todo|
    requires k <= m <= |src.todo|
    ensures var (p, src', log') := Pull(run, sql, src, log);
            p.Got? ==> Pull(run, sql, src.(todo := src.todo[..m]), log) == (p, src'.(todo := src.todo[k..m]), log')
    decreases |src.todo|
  {
    var todo := src.todo;
    if !Advances(src) {
      assert k == 0 && todo[k..m] == todo[..m];
    } else {
      var reply := run(log, Work(sql, todo[0]));
      assert m > 0 ==> todo[..m][0] == todo[0] && todo[..m][1..] == todo[1..][..m - 1];
      if reply.ok {
        var next := Source(Rows(reply.rows, reply.broken), todo[1..]);
        PullShrinks(run, sql, next, log + reply.effect);
        PullIgnoresRest(run, sql, next, log + reply.effect, k - 1, m - 1);
        assert todo[1..][k - 1..m - 1] == todo[k..m];
      }
    }
  }

  /** The log of m parameter rows is that of the k executed by a pull, then the others. */
  lemma {:induction false} PullLog(run: Run, sql: string, src: Source, log: Log, k: nat, m: nat)
    requires k == |src.todo| - |Pull(run, sql, src, log).1.todo|
    requires k <= m <= |src.todo|
    requires var (p, src', _) := Pull(run, sql, src, log); m == k || (p.Got? && !Stuck(src'.cursor))
    ensures Concatenated(run, sql, src.todo[..m], log).log ==
            Concatenated(run, sql, src.todo[k..m], Pull(run, sql, src, log).2).log
    decreases |src.todo|
  {
    var todo := src.todo;
    if !Advances(src) {
      assert k == 0 && todo[k..m] == todo[..m];
    } else {
      var reply := run(log, Work(sql, todo[0]));
      assert m > 0 ==> todo[..m][0] == todo[0] && todo[..m][1..] == todo[1..][..m - 1];
      if reply.ok {
        var next := Source(Rows(reply.rows, reply.broken), todo[1..]);
        PullShrinks(run, sql, next, log + reply.effect);
        PullLog(run, sql, next, log + reply.effect, k - 1, m - 1);
        assert todo[1..][k - 1..m - 1] == todo[k..m];
      }
    }
  }

  /** A fetch executes the first k outstanding parameter rows, in order and once each,
      and the k-th of them only because the rows before it were too few. */
  ghost predicate Lazily(run: Run, sql: string, src: Source, log: Log, n: int, k: nat)
    requires k <= |src.todo|
  {
    var c := Take(run, sql, src, log, n);
    && c.src.todo == src.todo[k..]
    && c.log == Concatenated(run, sql, src.todo[..k], log).log
    && (k > 0 ==> n < 0 || |Drain(run, sql, src.(todo := src.todo[..k - 1]), log).rows| < n)
  }

  /** A pull delivers a row and executes the first k1 outstanding parameter rows. */
  ghost predicate PullExecutes(run: Run, sql: string, src: Source, log: Log, k1: nat) {
    var (p, src', _) := Pull(run, sql, src, log);
    p.Got? && k1 == |src.todo| - |src'.todo| && k1 <= |src.todo| && src'.todo == src.todo[k1..]
  }

  lemma LazyLog(run: Run, sql: string, src: Source, log: Log, n: int, k1: nat, k: nat)
    requires n != 0 && PullExecutes(run, sql, src, log, k1) && k1 <= k <= |src.todo|
    requires var (_, src', log') := Pull(run, sql, src, log); Lazily(run, sql, src', log', n - 1, k - k1)
    ensures var c := Take(run, sql, src, log, n);
            c.src.todo == src.todo[k..] && c.log == Concatenated(run, sql, src.todo[..k], log).log
  {
    var todo := src.todo;
    var (p, src', log') := Pull(run, sql, src, log);
    assert todo[k1..][k - k1..] == todo[k..];
    assert todo[k1..][..k - k1] == todo[k1..k];
    if k > k1 && Stuck(src'.cursor) {
      StuckExecutesNothing(run, sql, src', log', n - 1);
    } else {
      PullLog(run, sql, src, log, k1, k);
    }
  }

  lemma LazyRows(run: Run, sql: string, src: Source, log: Log, n: int, k1: nat, k: nat)
    requires n != 0 && PullExecutes(run, sql, src, log, k1) && k1 < k <= |src.todo|
    requires var (_, src', log') := Pull(run, sql, src, log); Lazily(run, sql, src', log', n - 1, k - k1)
    ensures n < 0 || |Drain(run, sql, src.(todo := src.todo[..k - 1]), log).rows| < n
  {
    var todo := src.todo;
    PullIgnoresRest(run, sql, src, log, k1, k - 1);
    assert todo[k1..][..k - k1 - 1] == todo[k1..k - 1];
    PullDrains(run, sql, src.(todo := todo[..k - 1]), log);
  }

  lemma {:induction false} TakeIsLazy(run: Run, sql: string, src: Source, log: Log, n: int, k: nat)
    requires k == |src.todo| - |Take(run, sql, src, log, n).src.todo|
    ensures Lazily(run, sql, src, log, n, k)
    decreases |src.todo|, RowsLeft(src.cursor)
  {
    var todo := src.todo;
    if n == 0 {
    } else {
      var (p, src', log') := Pull(run, sql, src, log);
      PullShrinks(run, sql, src, log);
      var k1 := |todo| - |src'.todo|;
      PullIsLazy(run, sql, src, log, k1);
      if p.Got? {
        TakeShrinks(run, sql, src', log', n - 1);
        TakeIsLazy(run, sql, src', log', n - 1, k - k1);
        LazyLog(run, sql, src, log, n, k1, k);
        if k > k1 {
          LazyRows(run, sql, src, log, n, k1, k);
        }
      } else {
        PullLog(run, sql, src, log, k1, k1);
      }
    }
  }

  lemma {:induction false} TakeShrinks(run: Run, sql: string, src: Source, log: Log, n: int)
    ensures |Take(run, sql, src, log, n).src.todo| <= |src.todo|
    decreases |src.todo|, RowsLeft(src.cursor)
  {
    if n == 0 {
    } else {
      PullShrinks(run, sql, src, log);
      var (p, src', log') := Pull(run, sql, src, log);
      if p.Got? {
        TakeShrinks(run, sql, src', log', n - 1);
      }
    }
  }

  // ----- Statements -----

  /** Executing all parameter rows of a statement, up to the first failure: whether all
      succeeded, the rows they affected, the log, and the result that is open then. */
  datatype Tally = Tally(ok: bool, affected: nat, log: Log, cursor: Cursor)

  function ExecuteAll(run: Run, sql: string, todo: seq<seq<Sent>>, log: Log, cursor: Cursor): Tally {
    if todo == [] then Tally(true, 0, log, cursor)
    else
      var reply := run(log, Work(sql, todo[0]));
      if !reply.ok then Tally(false, 0, log + reply.effect, Failed)
      else
        var others := ExecuteAll(run, sql, todo[1..], log + reply.effect, Rows(reply.rows, reply.broken));
        others.(affected := reply.affected + others.affected)
  }

  /** The rows of all parameter rows but the last. */
  function RowsBeforeLast(run: Run, sql: string, todo: seq<seq<Sent>>, log: Log): seq<Row> {
    if |todo| <= 1 then []
    else
      var reply := run(log, Work(sql, todo[0]));
      reply.rows + RowsBeforeLast(run, sql, todo[1..], log + reply.effect)
  }

  /** The rows that can be read after executing a table as a statement does. */
  function ReadableRows(run: Run, sql: string, todo: seq<seq<Sent>>, log: Log, cursor: Cursor): seq<Row> {
    var tally := ExecuteAll(run, sql, todo, log, cursor);
    Drain(run, sql, Source(tally.cursor, []), tally.log).rows
  }

  lemma Associative(a: seq<Row>, b: seq<Row>, c: seq<Row>)
    ensures a + (b + c) == a + b + c
  {}

  /** Executing a table as a statement does, although the server sends rows, leaves only
      the rows of the last execution to be read. Binding a parameterised query whose
      metadata are known only after execution does that. */
  lemma {:induction false} LateMetadataKeepsLast(
    run: Run, sql: string, todo: seq<seq<Sent>>, log: Log, cursor: Cursor)
    requires todo != [] && Concatenated(run, sql, todo, log).ok
    ensures var tally := ExecuteAll(run, sql, todo, log, cursor);
            var left := Drain(run, sql, Source(tally.cursor, []), tally.log);
            && tally.ok && left.ok && tally.log == Concatenated(run, sql, todo, log).log
            && Concatenated(run, sql, todo, log).rows == RowsBeforeLast(run, sql, todo, log) + left.rows
    decreases |todo|
  {
    var reply := run(log, Work(sql, todo[0]));
    var after := log + reply.effect;
    if |todo| == 1 {
      assert todo[1..] == [];
      assert reply.rows + [] == reply.rows == [] + reply.rows;
    } else {
      var next := Rows(reply.rows, reply.broken);
      LateMetadataKeepsLast(run, sql, todo[1..], after, next);
      Associative(
        reply.rows, RowsBeforeLast(run, sql, todo[1..], after), ReadableRows(run, sql, todo[1..], after, next));
    }
  }

  // ----- Runs in which the row counter is ahead -----

  /** A server that answers everything with this one row. */
  function OneRow(row: Row, broken: bool): Run {
    (_, _) => Reply(true, [], 0, [row], broken)
  }

  /** A result whose transfer breaks off after one row: the row is counted, not delivered. */
  lemma RowLostToFailure(row: Row)
    ensures TotalsOf(OneRow(row, true), "", Source(Exhausted, [[]]), [], [FetchRows(2)]) == Totals([], 1)
  {
    var run, todo: seq<seq<Sent>>, log: Log := OneRow(row, true), [[]], [];
    assert todo[1..] == [] && log + [] == log && [row][1..] == [] && [FetchRows(2)][1..] == [];
    var src := Source(Exhausted, todo);
    var (p, src', log') := Pull(run, "", src, log);
    assert Pull(run, "", src, log) == Pull(run, "", Source(Rows([row], true), []), log);
    assert p == Got(row) && src' == Source(Rows([], true), []) && log' == log;
    assert Take(run, "", src', log, 1) == Chunk([], Error, Source(Failed, []), log);
    assert Take(run, "", src, log, 2).rows == [row];
  }
}
