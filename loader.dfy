/**
 * The batch loop both `load_to_supabase` functions share, and the function
 * as a whole. Per batch: try an insert; only if it raises, print a warning
 * naming the batch and try an upsert of the same records; then print the
 * range written. An upsert that raises has no handler of its own: the
 * exception leaves the loop for the function's outer handler, which prints
 * it, and no later batch is tried.
 */
module Loader {
  import opened Records
  import opened Batching
  import opened Supabase
  import opened Log

  /** How the batch loop ended. */
  datatype Outcome =
    | Completed                          // every batch was written
    | Aborted(batch: nat, cause: string) // the upsert of this batch raised

  datatype Run = Run(events: seq<Event>, outcome: Outcome)

  /**
   * Batch j's insert, the fallback upsert it may need, and its lines. The
   * batch aborts exactly when the insert and then the upsert both raise, and
   * then it is batch j that aborted.
   */
  function WriteBatch(store: Store, history: seq<Call>, table: string, rows: seq<Row>, j: nat): (w: Run)
    requires j < NumBatches(|rows|)
    ensures w.outcome.Aborted? <==>
              store(history, Insert(table, Batch(rows, j))).Raised? &&
              store(history + [Insert(table, Batch(rows, j))], Upsert(table, Batch(rows, j))).Raised?
    ensures w.outcome.Aborted? ==> w.outcome.batch == j
  {
    var records := Batch(rows, j);
    var ins := Insert(table, records);
    var done := Printed(Inserted(Start(j) + 1, End(j, |rows|)));
    match store(history, ins)
    case Done => Run([Called(ins, Done), done], Completed)
    case Raised(e) =>
      var ups := Upsert(table, records);
      var warn := Printed(InsertError(j + 1, e));
      match store(history + [ins], ups)
      case Done => Run([Called(ins, Raised(e)), warn, Called(ups, Done), done], Completed)
      case Raised(e2) => Run([Called(ins, Raised(e)), warn, Called(ups, Raised(e2))], Aborted(j, e2))
  }

  /**
   * The loop from batch j on, once the store has seen `history`. If it
   * aborts, it is at a batch from j on that exists.
   */
  function RunFrom(store: Store, history: seq<Call>, table: string, rows: seq<Row>, j: nat): (r: Run)
    requires j <= NumBatches(|rows|)
    ensures r.outcome.Aborted? ==> j <= r.outcome.batch < NumBatches(|rows|)
    decreases NumBatches(|rows|) - j
  {
    if j == NumBatches(|rows|) then Run([], Completed)
    else
      var w := WriteBatch(store, history, table, rows, j);
      if w.outcome.Aborted? then w
      else
        var rest := RunFrom(store, history + CallsOf(w.events), table, rows, j + 1);
        Run(w.events + rest.events, rest.outcome)
  }

  function Prepend(ev: seq<Event>, r: Run): Run {
    Run(ev + r.events, r.outcome)
  }

  /** The three ways a batch can go, written out. */
  lemma WriteBatchCases(store: Store, history: seq<Call>, table: string, rows: seq<Row>, j: nat)
    requires j < NumBatches(|rows|)
    ensures var w := WriteBatch(store, history, table, rows, j);
            var ins := Insert(table, Batch(rows, j));
            var ups := Upsert(table, Batch(rows, j));
            var done := Printed(Inserted(Start(j) + 1, End(j, |rows|)));
            var r1 := store(history, ins);
            var r2 := store(history + [ins], ups);
            && (r1.Done? ==> w == Run([Called(ins, Done), done], Completed))
            && (r1.Raised? && r2.Done? ==>
                  w == Run([Called(ins, r1), Printed(InsertError(j + 1, r1.cause)), Called(ups, Done), done], Completed))
            && (r1.Raised? && r2.Raised? ==>
                  w == Run([Called(ins, r1), Printed(InsertError(j + 1, r1.cause)), Called(ups, r2)], Aborted(j, r2.cause)))
  {
  }

  /** RunFrom unfolded by one batch. */
  lemma RunFromStep(store: Store, history: seq<Call>, table: string, rows: seq<Row>, j: nat)
    requires j < NumBatches(|rows|)
    ensures var w := WriteBatch(store, history, table, rows, j);
            RunFrom(store, history, table, rows, j) ==
              if w.outcome.Aborted? then w
              else Prepend(w.events, RunFrom(store, history + CallsOf(w.events), table, rows, j + 1))
  {
  }

  /**
   * The loop `for i in range(0, total_rows, batch_size)`: the same run as
   * RunFrom from the first batch. A batch whose upsert raised ends the loop
   * there, as the exception does in the scripts.
   */
  method RunBatches(store: Store, history: seq<Call>, table: string, rows: seq<Row>) returns (r: Run)
    ensures r == RunFrom(store, history, table, rows, 0)
  {
    var total := |rows|;
    var events: seq<Event> := [];
    var calls := history;
    var i := 0;
    ghost var j: nat := 0;
    StartStep(0, total);
    while i < total
      invariant i == Start(j) && j <= NumBatches(total)
      invariant i < total <==> j < NumBatches(total)
      invariant j < NumBatches(total) ==> i == Offsets(total)[j]
      invariant calls == history + CallsOf(events)
      invariant RunFrom(store, history, table, rows, 0) == Prepend(events, RunFrom(store, calls, table, rows, j))
      decreases total - i
    {
      var w := WriteOne(store, calls, table, rows, i, j);
      if w.outcome.Aborted? {
        RunFromStep(store, calls, table, rows, j);
        return Prepend(events, w);
      }
      var sent := CallsOf(w.events);
      LoopStep(store, history, table, rows, events, calls, j, sent);
      events, calls := events + w.events, calls + sent;
      StartStep(j, total);
      StartStep(j + 1, total);
      i, j := i + BatchSize, j + 1;
    }
    r := Run(events, Completed);
  }

  /**
   * The body of the loop for the batch at offset i (batch j): insert; on an
   * exception, warn with the batch number `i // batch_size + 1` and upsert
   * the same records; print the range once one of them returned.
   */
  method WriteOne(store: Store, calls: seq<Call>, table: string, rows: seq<Row>, i: nat, ghost j: nat) returns (w: Run)
    requires i == Start(j) && i < |rows|
    ensures j < NumBatches(|rows|)
    ensures w == WriteBatch(store, calls, table, rows, j)
  {
    assert i / BatchSize == j;
    var total := |rows|;
    var records := rows[i..Min(i + BatchSize, total)];
    var ins := Insert(table, records);
    var reply := store(calls, ins);
    if reply.Done? {
      w := Run([Called(ins, reply), Printed(Inserted(i + 1, Min(i + BatchSize, total)))], Completed);
    } else {
      var warn := Printed(InsertError(i / BatchSize + 1, reply.cause));
      var ups := Upsert(table, records);
      var reply2 := store(calls + [ins], ups);
      if reply2.Raised? {
        w := Run([Called(ins, reply), warn, Called(ups, reply2)], Aborted(i / BatchSize, reply2.cause));
      } else {
        w := Run([Called(ins, reply), warn, Called(ups, reply2), Printed(Inserted(i + 1, Min(i + BatchSize, total)))], Completed);
      }
    }
  }

  /** One turn of the loop that writes its batch keeps the loop's invariant. */
  lemma LoopStep(store: Store, history: seq<Call>, table: string, rows: seq<Row>,
                 events: seq<Event>, calls: seq<Call>, j: nat, sent: seq<Call>)
    requires j < NumBatches(|rows|)
    requires calls == history + CallsOf(events)
    requires WriteBatch(store, calls, table, rows, j).outcome.Completed?
    requires sent == CallsOf(WriteBatch(store, calls, table, rows, j).events)
    ensures var w := WriteBatch(store, calls, table, rows, j);
            && Prepend(events, RunFrom(store, calls, table, rows, j)) ==
                 Prepend(events + w.events, RunFrom(store, calls + sent, table, rows, j + 1))
            && calls + sent == history + CallsOf(events + w.events)
  {
    var w := WriteBatch(store, calls, table, rows, j);
    RunFromStep(store, calls, table, rows, j);
    var rest := RunFrom(store, calls + sent, table, rows, j + 1);
    assert RunFrom(store, calls, table, rows, j) == Prepend(w.events, rest);
    Assoc(events, w.events, rest.events);
    CallsOfAppend(events, w.events);
    Assoc(history, CallsOf(events), sent);
  }

  // ---------------------------------------------------------------------
  // The per-batch protocol, stated on the trace
  // ---------------------------------------------------------------------

  /**
   * What event p of a batch-loop trace must look like. A call goes to the
   * table; a call that returns is followed by the line reporting its range;
   * an insert that raises is followed by the warning; an upsert comes only
   * right after that warning, and an upsert that raises ends the trace. The
   * warning names batch `num` (1-based) and sits between a raised insert of
   * that batch's records and an upsert of the very same records. A range
   * line `first..last` comes right after a call that returned, is the range
   * of a batch, and names exactly the rows that call sent.
   */
  ghost predicate ProtocolAt(table: string, rows: seq<Row>, ev: seq<Event>, p: nat)
    requires p < |ev|
  {
    match ev[p]
    case Called(call, reply) =>
      && (call.Insert? || call.Upsert?)
      && call.table == table
      && (reply.Done? ==> p + 1 < |ev| && ev[p + 1].Printed? && ev[p + 1].line.Inserted?)
      && (call.Insert? && reply.Raised? ==>
            p + 1 < |ev| && ev[p + 1].Printed? && ev[p + 1].line.InsertError? && ev[p + 1].line.cause == reply.cause)
      && (call.Upsert? ==> p >= 1 && ev[p - 1].Printed? && ev[p - 1].line.InsertError?)
      && (call.Upsert? && reply.Raised? ==> p == |ev| - 1)
    case Printed(line) =>
      match line
      case InsertError(num, cause) =>
        && 1 <= num <= NumBatches(|rows|)
        && p >= 1 && p + 1 < |ev|
        && ev[p - 1] == Called(Insert(table, Batch(rows, num - 1)), Raised(cause))
        && ev[p + 1].Called? && ev[p + 1].call == Upsert(table, Batch(rows, num - 1))
      case Inserted(first, last) =>
        && p >= 1 && ev[p - 1].Called? && ev[p - 1].reply.Done?
        && (ev[p - 1].call.Insert? || ev[p - 1].call.Upsert?)
        && 1 <= first <= last <= |rows|
        && (first, last) == Range((first - 1) / BatchSize, |rows|)
        && ev[p - 1].call.records == rows[first - 1..last]
      case _ => false
  }

  ghost predicate Protocol(table: string, rows: seq<Row>, ev: seq<Event>) {
    forall p: nat :: p < |ev| ==> ProtocolAt(table, rows, ev, p)
  }

  /** A trace that keeps the protocol prints no other kind of line. */
  lemma ProtocolLines(table: string, rows: seq<Row>, ev: seq<Event>)
    requires Protocol(table, rows, ev)
    ensures Printed(Finished) !in ev && Printed(Loading(|rows|)) !in ev && Printed(Searching) !in ev
  {
    forall p: nat | p < |ev|
      ensures ev[p] != Printed(Finished) && ev[p] != Printed(Loading(|rows|)) && ev[p] != Printed(Searching)
    {
      assert ProtocolAt(table, rows, ev, p);
    }
  }

  lemma ProtocolAppendLeft(table: string, rows: seq<Row>, a: seq<Event>, b: seq<Event>, p: nat)
    requires p < |a| && ProtocolAt(table, rows, a, p)
    requires a[|a| - 1].Printed?
    ensures ProtocolAt(table, rows, a + b, p)
  {
    assert (a + b)[p] == a[p];
    if p + 1 < |a| { assert (a + b)[p + 1] == a[p + 1]; }
    if p >= 1 { assert (a + b)[p - 1] == a[p - 1]; }
  }

  lemma ProtocolAppendRight(table: string, rows: seq<Row>, a: seq<Event>, b: seq<Event>, q: nat)
    requires q < |b| && ProtocolAt(table, rows, b, q)
    ensures ProtocolAt(table, rows, a + b, |a| + q)
  {
    assert (a + b)[|a| + q] == b[q];
    if q + 1 < |b| { assert (a + b)[|a| + q + 1] == b[q + 1]; }
    if q >= 1 { assert (a + b)[|a| + q - 1] == b[q - 1]; }
  }

  lemma ProtocolAppend(table: string, rows: seq<Row>, a: seq<Event>, b: seq<Event>)
    requires Protocol(table, rows, a) && Protocol(table, rows, b)
    requires a == [] || a[|a| - 1].Printed?
    ensures Protocol(table, rows, a + b)
  {
    if a == [] {
      assert a + b == b;
    } else {
      forall p: nat | p < |a + b|
        ensures ProtocolAt(table, rows, a + b, p)
      {
        if p < |a| {
          ProtocolAppendLeft(table, rows, a, b, p);
        } else {
          ProtocolAppendRight(table, rows, a, b, p - |a|);
        }
      }
    }
  }

  /** The three filters on an event followed by a trace. */
  lemma FiltersCons(e: Event, rest: seq<Event>)
    ensures CallsOf([e] + rest) == CallsOf([e]) + CallsOf(rest)
    ensures InsertedRecords([e] + rest) == InsertedRecords([e]) + InsertedRecords(rest)
    ensures Reported([e] + rest) == Reported([e]) + Reported(rest)
  {
    assert ([e] + rest)[0] == e;
    assert ([e] + rest)[1..] == rest;
    FiltersOfOne(e);
  }

  /** How a batch's trace ends: on a printed line, or on the upsert that raised. */
  lemma WriteBatchEnds(store: Store, history: seq<Call>, table: string, rows: seq<Row>, j: nat)
    requires j < NumBatches(|rows|)
    ensures var w := WriteBatch(store, history, table, rows, j);
            && (w.outcome.Completed? ==> w.events[|w.events| - 1].Printed?)
            && (w.outcome.Aborted? ==>
                  && w.outcome.batch == j
                  && w.events[|w.events| - 1] == Called(Upsert(table, Batch(rows, j)), Raised(w.outcome.cause)))
  {
    WriteBatchCases(store, history, table, rows, j);
  }

  /** A batch keeps the protocol. */
  lemma WriteBatchProtocol(store: Store, history: seq<Call>, table: string, rows: seq<Row>, j: nat)
    requires j < NumBatches(|rows|)
    ensures Protocol(table, rows, WriteBatch(store, history, table, rows, j).events)
  {
    var w := WriteBatch(store, history, table, rows, j);
    BatchBounds(j, |rows|);
    WriteBatchCases(store, history, table, rows, j);
    assert (Start(j) + 1 - 1) / BatchSize == j;
    forall p: nat | p < |w.events|
      ensures ProtocolAt(table, rows, w.events, p)
    {
    }
  }

  /** A batch's calls ended as the store answered them. */
  lemma WriteBatchAnswered(store: Store, history: seq<Call>, table: string, rows: seq<Row>, j: nat)
    requires j < NumBatches(|rows|)
    ensures Answered(store, history, WriteBatch(store, history, table, rows, j).events)
  {
    var ev := WriteBatch(store, history, table, rows, j).events;
    var ins := Insert(table, Batch(rows, j));
    WriteBatchCases(store, history, table, rows, j);
    forall p | 0 <= p < |ev| && ev[p].Called?
      ensures ev[p].reply == store(history + CallsOf(ev[..p]), ev[p].call)
    {
      if p == 0 {
        assert ev[..0] == [];
        assert history + CallsOf([]) == history;
      } else {
        assert p == 2 && ev[p].call == Upsert(table, Batch(rows, j));
        assert ev[..2] == [ev[0]] + [ev[1]];
        FiltersCons(ev[0], [ev[1]]);
        FiltersOfOne(ev[0]);
        FiltersOfOne(ev[1]);
        assert CallsOf(ev[..2]) == [ins];
      }
    }
  }

  /** The three filters on traces of two and three events, event by event. */
  lemma FiltersOfTwo(a: Event, b: Event)
    ensures CallsOf([a, b]) == CallsOf([a]) + CallsOf([b])
    ensures InsertedRecords([a, b]) == InsertedRecords([a]) + InsertedRecords([b])
    ensures Reported([a, b]) == Reported([a]) + Reported([b])
  {
    assert [a, b] == [a] + [b];
    FiltersCons(a, [b]);
  }

  lemma FiltersOfThree(a: Event, b: Event, c: Event)
    ensures InsertedRecords([a, b, c]) == InsertedRecords([a]) + InsertedRecords([b]) + InsertedRecords([c])
    ensures Reported([a, b, c]) == Reported([a]) + Reported([b]) + Reported([c])
  {
    assert [a, b, c] == [a] + [b, c];
    FiltersCons(a, [b, c]);
    FiltersOfTwo(b, c);
  }

  /** A batch inserts its own records once, and reports its range when it was written. */
  lemma WriteBatchFilters(store: Store, history: seq<Call>, table: string, rows: seq<Row>, j: nat)
    requires j < NumBatches(|rows|)
    ensures var w := WriteBatch(store, history, table, rows, j);
            && InsertedRecords(w.events) == [Batch(rows, j)]
            && Reported(w.events) == if w.outcome.Completed? then [Range(j, |rows|)] else []
  {
    var ins := Insert(table, Batch(rows, j));
    var ups := Upsert(table, Batch(rows, j));
    var done := Printed(Inserted(Start(j) + 1, End(j, |rows|)));
    var r1 := store(history, ins);
    var r2 := store(history + [ins], ups);
    WriteBatchCases(store, history, table, rows, j);
    FiltersOfOne(Called(ins, r1));
    FiltersOfOne(done);
    if r1.Done? {
      FiltersOfTwo(Called(ins, r1), done);
    } else {
      var warn := Printed(InsertError(j + 1, r1.cause));
      FiltersOfOne(warn);
      FiltersOfOne(Called(ups, r2));
      if r2.Done? {
        assert [Called(ins, r1), warn, Called(ups, r2), done] == [Called(ins, r1)] + [warn, Called(ups, r2), done];
        FiltersCons(Called(ins, r1), [warn, Called(ups, r2), done]);
        FiltersOfThree(warn, Called(ups, r2), done);
      } else {
        FiltersOfThree(Called(ins, r1), warn, Called(ups, r2));
      }
    }
  }

  /** The batches the loop tried: all of them, or up to the one that aborted. */
  function Attempted(o: Outcome, n: nat): nat {
    match o
    case Completed => n
    case Aborted(b, _) => b + 1
  }

  /** The batches the loop wrote: all of them, or those before the one that aborted. */
  function Written(o: Outcome, n: nat): nat {
    match o
    case Completed => n
    case Aborted(b, _) => b
  }

  /**
   * The loop aborts only on an upsert that raised: then that upsert, of the
   * aborting batch's records, is the last event of the trace; otherwise the
   * trace ends on a printed line.
   */
  lemma {:induction false} RunFromEnds(store: Store, history: seq<Call>, table: string, rows: seq<Row>, j: nat)
    requires j <= NumBatches(|rows|)
    ensures Ends(table, rows, j, RunFrom(store, history, table, rows, j))
    decreases NumBatches(|rows|) - j
  {
    if j == NumBatches(|rows|) {
      assert RunFrom(store, history, table, rows, j).events == [];
    } else {
      var w := WriteBatch(store, history, table, rows, j);
      if w.outcome.Aborted? {
        AbortEnds(store, history, table, rows, j);
      } else {
        RunFromEnds(store, history + CallsOf(w.events), table, rows, j + 1);
        EndsStep(store, history, table, rows, j);
      }
    }
  }

  /**
   * How the loop's trace from batch j ends: on a printed line (or empty) when
   * every batch was written, and on the raised upsert of the aborting batch
   * otherwise.
   */
  ghost predicate Ends(table: string, rows: seq<Row>, j: nat, r: Run) {
    && (r.outcome.Completed? ==> r.events == [] || r.events[|r.events| - 1].Printed?)
    && (r.outcome.Aborted? ==>
          && j <= r.outcome.batch < NumBatches(|rows|)
          && r.events != []
          && r.events[|r.events| - 1] == Called(Upsert(table, Batch(rows, r.outcome.batch)), Raised(r.outcome.cause)))
  }

  lemma AbortEnds(store: Store, history: seq<Call>, table: string, rows: seq<Row>, j: nat)
    requires j < NumBatches(|rows|)
    requires WriteBatch(store, history, table, rows, j).outcome.Aborted?
    ensures Ends(table, rows, j, RunFrom(store, history, table, rows, j))
  {
    WriteBatchEnds(store, history, table, rows, j);
    RunFromStep(store, history, table, rows, j);
  }

  lemma EndsStep(store: Store, history: seq<Call>, table: string, rows: seq<Row>, j: nat)
    requires j < NumBatches(|rows|)
    requires WriteBatch(store, history, table, rows, j).outcome.Completed?
    requires Ends(table, rows, j + 1, RunFrom(store, history + CallsOf(WriteBatch(store, history, table, rows, j).events), table, rows, j + 1))
    ensures Ends(table, rows, j, RunFrom(store, history, table, rows, j))
  {
    var w := WriteBatch(store, history, table, rows, j);
    var rest := RunFrom(store, history + CallsOf(w.events), table, rows, j + 1);
    WriteBatchEnds(store, history, table, rows, j);
    RunFromStep(store, history, table, rows, j);
    var r := RunFrom(store, history, table, rows, j);
    assert r == Run(w.events + rest.events, rest.outcome);
    if rest.events != [] {
      assert r.events[|r.events| - 1] == rest.events[|rest.events| - 1];
    }
  }

  /** The loop's trace keeps the protocol at every step. */
  lemma {:induction false} RunFromProtocol(store: Store, history: seq<Call>, table: string, rows: seq<Row>, j: nat)
    requires j <= NumBatches(|rows|)
    ensures Protocol(table, rows, RunFrom(store, history, table, rows, j).events)
    decreases NumBatches(|rows|) - j
  {
    if j == NumBatches(|rows|) {
      assert RunFrom(store, history, table, rows, j).events == [];
    } else {
      var w := WriteBatch(store, history, table, rows, j);
      if w.outcome.Aborted? {
        WriteBatchProtocol(store, history, table, rows, j);
        RunFromStep(store, history, table, rows, j);
      } else {
        RunFromProtocol(store, history + CallsOf(w.events), table, rows, j + 1);
        ProtocolStep(store, history, table, rows, j);
      }
    }
  }

  /** A batch that was written, followed by a trace that keeps the protocol, keeps it. */
  lemma ProtocolStep(store: Store, history: seq<Call>, table: string, rows: seq<Row>, j: nat)
    requires j < NumBatches(|rows|)
    requires WriteBatch(store, history, table, rows, j).outcome.Completed?
    requires Protocol(table, rows, RunFrom(store, history + CallsOf(WriteBatch(store, history, table, rows, j).events), table, rows, j + 1).events)
    ensures Protocol(table, rows, RunFrom(store, history, table, rows, j).events)
  {
    var w := WriteBatch(store, history, table, rows, j);
    var rest := RunFrom(store, history + CallsOf(w.events), table, rows, j + 1);
    WriteBatchProtocol(store, history, table, rows, j);
    WriteBatchEnds(store, history, table, rows, j);
    RunFromStep(store, history, table, rows, j);
    assert RunFrom(store, history, table, rows, j).events == w.events + rest.events;
    ProtocolAppend(table, rows, w.events, rest.events);
  }

  /** Every call of the loop's trace ended as the store answered it. */
  lemma {:induction false} RunFromAnswered(store: Store, history: seq<Call>, table: string, rows: seq<Row>, j: nat)
    requires j <= NumBatches(|rows|)
    ensures Answered(store, history, RunFrom(store, history, table, rows, j).events)
    decreases NumBatches(|rows|) - j
  {
    if j == NumBatches(|rows|) {
      assert RunFrom(store, history, table, rows, j).events == [];
    } else {
      var w := WriteBatch(store, history, table, rows, j);
      if w.outcome.Aborted? {
        WriteBatchAnswered(store, history, table, rows, j);
        RunFromStep(store, history, table, rows, j);
      } else {
        RunFromAnswered(store, history + CallsOf(w.events), table, rows, j + 1);
        AnsweredStep(store, history, table, rows, j);
      }
    }
  }

  lemma AnsweredStep(store: Store, history: seq<Call>, table: string, rows: seq<Row>, j: nat)
    requires j < NumBatches(|rows|)
    requires WriteBatch(store, history, table, rows, j).outcome.Completed?
    requires var h' := history + CallsOf(WriteBatch(store, history, table, rows, j).events);
             Answered(store, h', RunFrom(store, h', table, rows, j + 1).events)
    ensures Answered(store, history, RunFrom(store, history, table, rows, j).events)
  {
    var w := WriteBatch(store, history, table, rows, j);
    var rest := RunFrom(store, history + CallsOf(w.events), table, rows, j + 1);
    WriteBatchAnswered(store, history, table, rows, j);
    RunFromStep(store, history, table, rows, j);
    assert RunFrom(store, history, table, rows, j).events == w.events + rest.events;
    AnsweredAppend(store, history, w.events, rest.events);
  }

  /** The loop from batch j sends and reports exactly what Covers says. */
  lemma {:induction false} RunFromCoverage(store: Store, history: seq<Call>, table: string, rows: seq<Row>, j: nat)
    requires j <= NumBatches(|rows|)
    ensures Covers(rows, j, RunFrom(store, history, table, rows, j))
    decreases NumBatches(|rows|) - j
  {
    if j == NumBatches(|rows|) {
      assert RunFrom(store, history, table, rows, j).events == [];
      assert InsertedRecords([]) == [] && Reported([]) == [];
    } else {
      var w := WriteBatch(store, history, table, rows, j);
      if w.outcome.Aborted? {
        AbortCoverage(store, history, table, rows, j);
      } else {
        RunFromCoverage(store, history + CallsOf(w.events), table, rows, j + 1);
        CoverageStep(store, history, table, rows, j);
      }
    }
  }

  /**
   * What the loop covers from batch j: the inserts it sends are the batches
   * of the partition, in order, up to the last one it tried, and the ranges
   * it reports are those of the batches it wrote, in order.
   */
  ghost predicate Covers(rows: seq<Row>, j: nat, r: Run)
    requires j <= NumBatches(|rows|)
  {
    && (r.outcome.Aborted? ==> j <= r.outcome.batch < NumBatches(|rows|))
    && InsertedRecords(r.events) == Batches(rows)[j..Attempted(r.outcome, NumBatches(|rows|))]
    && Reported(r.events) == Ranges(|rows|)[j..Written(r.outcome, NumBatches(|rows|))]
  }

  lemma AbortCoverage(store: Store, history: seq<Call>, table: string, rows: seq<Row>, j: nat)
    requires j < NumBatches(|rows|)
    requires WriteBatch(store, history, table, rows, j).outcome.Aborted?
    ensures Covers(rows, j, RunFrom(store, history, table, rows, j))
  {
    WriteBatchFilters(store, history, table, rows, j);
    WriteBatchEnds(store, history, table, rows, j);
    RunFromStep(store, history, table, rows, j);
    SliceCons(Batches(rows), j, j + 1);
  }

  lemma CoverageStep(store: Store, history: seq<Call>, table: string, rows: seq<Row>, j: nat)
    requires j < NumBatches(|rows|)
    requires WriteBatch(store, history, table, rows, j).outcome.Completed?
    requires Covers(rows, j + 1, RunFrom(store, history + CallsOf(WriteBatch(store, history, table, rows, j).events), table, rows, j + 1))
    ensures Covers(rows, j, RunFrom(store, history, table, rows, j))
  {
    var n := NumBatches(|rows|);
    var w := WriteBatch(store, history, table, rows, j);
    var rest := RunFrom(store, history + CallsOf(w.events), table, rows, j + 1);
    WriteBatchFilters(store, history, table, rows, j);
    RunFromStep(store, history, table, rows, j);
    assert RunFrom(store, history, table, rows, j) == Run(w.events + rest.events, rest.outcome);
    InsertedRecordsAppend(w.events, rest.events);
    ReportedAppend(w.events, rest.events);
    SliceCons(Batches(rows), j, Attempted(rest.outcome, n));
    SliceCons(Ranges(|rows|), j, Written(rest.outcome, n));
  }

  lemma SliceCons<T>(s: seq<T>, j: nat, m: nat)
    requires j < m <= |s|
    ensures s[j..m] == [s[j]] + s[j + 1..m]
  {
  }

  // ---------------------------------------------------------------------
  // load_to_supabase as a whole
  // ---------------------------------------------------------------------

  /**
   * The trace of `load_to_supabase` over the prepared rows `records`: when
   * the staged file is missing it stops after saying so; otherwise a failing
   * credential check, or an upsert that raises, ends in the outer handler's
   * error line, and a loop that writes every batch ends in "FINISHED".
   */
  function LoadToTable(store: Store, history: seq<Call>, env: Env, fileExists: bool, table: string, records: seq<Row>): (ev: seq<Event>)
    ensures |ev| >= 2 && ev[0] == Printed(Searching)
    ensures ev[|ev| - 1] == Printed(NotFound) || ev[|ev| - 1] == Printed(Finished) ||
            (ev[|ev| - 1].Printed? && ev[|ev| - 1].line.LoadError?)
    ensures ev[|ev| - 1] == Printed(NotFound) <==> !fileExists
  {
    [Printed(Searching)] +
    if !fileExists then [Printed(NotFound)]
    else match GetSupabaseClient(env)
      case Err(e) => [Printed(LoadError(e))]
      case Ok(_) =>
        var r := RunFrom(store, history, table, records, 0);
        [Printed(Loading(|records|))] + r.events +
        [Printed(if r.outcome.Completed? then Finished else LoadError(Remote(r.outcome.cause)))]
  }

  /** The opening and closing lines of a load that reaches the batch loop. */
  function Opening(records: seq<Row>): seq<Event> {
    [Printed(Searching), Printed(Loading(|records|))]
  }

  function Closing(o: Outcome): seq<Event> {
    [Printed(if o.Completed? then Finished else LoadError(Remote(o.cause)))]
  }

  /**
   * Without the staged file, without credentials, or when the client cannot
   * be built, no remote call is made.
   */
  lemma LoadGuards(store: Store, history: seq<Call>, env: Env, fileExists: bool, table: string, records: seq<Row>)
    ensures !fileExists ==> LoadToTable(store, history, env, fileExists, table, records) == [Printed(Searching), Printed(NotFound)]
    ensures fileExists && (Falsy(env.url) || Falsy(env.key)) ==>
              LoadToTable(store, history, env, fileExists, table, records) == [Printed(Searching), Printed(LoadError(MissingCredentials))]
    ensures fileExists && !Falsy(env.url) && !Falsy(env.key) && env.connect.Raised? ==>
              LoadToTable(store, history, env, fileExists, table, records) == [Printed(Searching), Printed(LoadError(Remote(env.connect.cause)))]
    ensures !fileExists || Falsy(env.url) || Falsy(env.key) || env.connect.Raised? ==>
              CallsOf(LoadToTable(store, history, env, fileExists, table, records)) == [] &&
              InsertedRecords(LoadToTable(store, history, env, fileExists, table, records)) == []
  {
    var ev := LoadToTable(store, history, env, fileExists, table, records);
    if !fileExists || Falsy(env.url) || Falsy(env.key) || env.connect.Raised? {
      assert Quiet(ev);
      QuietFilters(ev);
    }
  }

  /** With the file and the credentials, the trace is the batch loop between its opening and closing lines. */
  lemma LoadShape(store: Store, history: seq<Call>, env: Env, table: string, records: seq<Row>)
    requires GetSupabaseClient(env).Ok?
    ensures var ev := LoadToTable(store, history, env, true, table, records);
            var r := RunFrom(store, history, table, records, 0);
            && ev == Opening(records) + r.events + Closing(r.outcome)
            && CallsOf(ev) == CallsOf(r.events)
            && InsertedRecords(ev) == InsertedRecords(r.events)
            && Reported(ev) == Reported(r.events)
  {
    var ev := LoadToTable(store, history, env, true, table, records);
    var r := RunFrom(store, history, table, records, 0);
    assert ev == Opening(records) + r.events + Closing(r.outcome);
    FramedFilters(Opening(records), r.events, Closing(r.outcome));
  }

  /**
   * Between its opening and closing lines, the trace of a load keeps the
   * per-batch protocol, and every call in it ended as the store answered it.
   */
  lemma LoadWellFormed(store: Store, history: seq<Call>, env: Env, table: string, records: seq<Row>)
    requires GetSupabaseClient(env).Ok?
    ensures var ev := LoadToTable(store, history, env, true, table, records);
            && |ev| >= 3
            && Protocol(table, records, ev[2..|ev| - 1])
            && Answered(store, history, ev[2..|ev| - 1])
  {
    var ev := LoadToTable(store, history, env, true, table, records);
    var r := RunFrom(store, history, table, records, 0);
    LoadShape(store, history, env, table, records);
    assert ev[2..|ev| - 1] == r.events;
    RunFromProtocol(store, history, table, records, 0);
    RunFromAnswered(store, history, table, records, 0);
  }

  /**
   * "FINISHED" is printed exactly when the file and the credentials are there
   * and every batch was written; then every batch was inserted in order,
   * so that the rows sent are all the rows, each once and in order, and
   * every range was reported.
   */
  lemma LoadFinished(store: Store, history: seq<Call>, env: Env, fileExists: bool, table: string, records: seq<Row>)
    ensures var ev := LoadToTable(store, history, env, fileExists, table, records);
            Printed(Finished) in ev <==>
              fileExists && GetSupabaseClient(env).Ok? && RunFrom(store, history, table, records, 0).outcome.Completed?
    ensures var ev := LoadToTable(store, history, env, fileExists, table, records);
            Printed(Finished) in ev ==>
              && InsertedRecords(ev) == Batches(records)
              && Flatten(InsertedRecords(ev)) == records
              && Reported(ev) == Ranges(|records|)
  {
    var ev := LoadToTable(store, history, env, fileExists, table, records);
    if fileExists && GetSupabaseClient(env).Ok? {
      var r := RunFrom(store, history, table, records, 0);
      LoadShape(store, history, env, table, records);
      RunFromCoverage(store, history, table, records, 0);
      RunFromProtocol(store, history, table, records, 0);
      ProtocolLines(table, records, r.events);
      assert Printed(Finished) !in Opening(records);
      if r.outcome.Completed? {
        assert Batches(records)[0..NumBatches(|records|)] == Batches(records);
        assert Ranges(|records|)[0..NumBatches(|records|)] == Ranges(|records|);
        BatchesPartition(records);
      }
    }
  }

  /**
   * When an upsert raises, the load stops at that batch: the inserts sent are
   * the batches up to and including it, the ranges reported those before it,
   * and the trace ends in the outer handler's line with the upsert's error.
   */
  lemma LoadAborted(store: Store, history: seq<Call>, env: Env, table: string, records: seq<Row>)
    requires GetSupabaseClient(env).Ok?
    requires RunFrom(store, history, table, records, 0).outcome.Aborted?
    ensures var ev := LoadToTable(store, history, env, true, table, records);
            var b := RunFrom(store, history, table, records, 0).outcome.batch;
            var e := RunFrom(store, history, table, records, 0).outcome.cause;
            && b < NumBatches(|records|)
            && Printed(Finished) !in ev
            && ev[|ev| - 1] == Printed(LoadError(Remote(e)))
            && ev[|ev| - 2] == Called(Upsert(table, Batch(records, b)), Raised(e))
            && InsertedRecords(ev) == Batches(records)[..b + 1]
            && Reported(ev) == Ranges(|records|)[..b]
  {
    var ev := LoadToTable(store, history, env, true, table, records);
    var r := RunFrom(store, history, table, records, 0);
    LoadFinished(store, history, env, true, table, records);
    LoadShape(store, history, env, table, records);
    RunFromEnds(store, history, table, records, 0);
    RunFromCoverage(store, history, table, records, 0);
    assert ev[|ev| - 2] == r.events[|r.events| - 1];
  }

  /** An empty table: no batch and no write call, straight to "FINISHED". */
  lemma LoadEmpty(store: Store, history: seq<Call>, env: Env, table: string)
    requires GetSupabaseClient(env).Ok?
    ensures LoadToTable(store, history, env, true, table, []) ==
              [Printed(Searching), Printed(Loading(0)), Printed(Finished)]
  {
  }

  /**
   * Record q of the b-th insert is row `50 * b + q` of the rows: nothing is
   * sent out of order, twice under one insert, or that was not among the rows.
   */
  ghost predicate SendsRows(ins: seq<seq<Row>>, records: seq<Row>) {
    forall b, q :: 0 <= b < |ins| && 0 <= q < |ins[b]| ==>
      Start(b) + q < |records| && ins[b][q] == records[Start(b) + q]
  }

  /** Whatever happens, the inserts of a load send the prepared rows by position. */
  lemma LoadSendsRows(store: Store, history: seq<Call>, env: Env, fileExists: bool, table: string, records: seq<Row>)
    ensures SendsRows(InsertedRecords(LoadToTable(store, history, env, fileExists, table, records)), records)
  {
    var ins := InsertedRecords(LoadToTable(store, history, env, fileExists, table, records));
    if fileExists && GetSupabaseClient(env).Ok? {
      var r := RunFrom(store, history, table, records, 0);
      LoadShape(store, history, env, table, records);
      RunFromCoverage(store, history, table, records, 0);
      BatchPrefixRows(records, ins, Attempted(r.outcome, NumBatches(|records|)));
    } else {
      LoadGuards(store, history, env, fileExists, table, records);
      assert ins == [];
    }
  }

  lemma BatchPrefixRows(s: seq<Row>, ins: seq<seq<Row>>, m: nat)
    requires m <= NumBatches(|s|) && ins == Batches(s)[0..m]
    ensures SendsRows(ins, s)
  {
    forall b, q | 0 <= b < |ins| && 0 <= q < |ins[b]|
      ensures Start(b) + q < |s| && ins[b][q] == s[Start(b) + q]
    {
      BatchBounds(b, |s|);
      assert ins[b] == Batch(s, b);
    }
  }
}
