/**
 * The observable behaviour of a run: one sequence of events, each a remote
 * call (with how it ended) or a printed line, in the order they happen.
 * Lines carry the values the scripts interpolate, not their wording.
 */
module Log {
  import opened Records
  import opened Supabase

  datatype Line =
    | TryingRpc                        // "Attempting to create table using RPC..."
    | TableReady                       // "Table 'iris_data' created or already exists."
    | RpcFailed(cause: string)         // "RPC failed: e", the SQL to provision, "Skipping ..."
    | Searching                        // "Searching for CSV file at: ..."
    | NotFound                         // "ERROR: File not found ...", "Run transform ... first."
    | Loading(total: nat)              // "Loading <total> rows into '<table>'..."
    | InsertError(batch: nat, cause: string)  // "Insert error batch <batch>: e", "Attempting UPSERT..."
    | Inserted(first: nat, last: nat)  // "Inserted rows <first> to <last>"
    | Finished                         // "FINISHED loading data into '<table>'."
    | LoadError(error: Error)          // "ERROR loading data: e"

  datatype Event = Called(call: Call, reply: Reply) | Printed(line: Line)

  /** The remote calls of a trace, in order: what the store has seen. */
  function CallsOf(ev: seq<Event>): (cs: seq<Call>)
    ensures |cs| <= |ev|
  {
    if ev == [] then []
    else (if ev[0].Called? then [ev[0].call] else []) + CallsOf(ev[1..])
  }

  lemma {:induction false} CallsOfAppend(a: seq<Event>, b: seq<Event>)
    ensures CallsOf(a + b) == CallsOf(a) + CallsOf(b)
  {
    if a != [] {
      assert (a + b)[1..] == a[1..] + b;
      CallsOfAppend(a[1..], b);
    } else {
      assert a + b == b;
    }
  }

  /** The records of the Insert calls of a trace, in order. */
  function InsertedRecords(ev: seq<Event>): seq<seq<Row>> {
    if ev == [] then []
    else (if ev[0].Called? && ev[0].call.Insert? then [ev[0].call.records] else []) + InsertedRecords(ev[1..])
  }

  lemma {:induction false} InsertedRecordsAppend(a: seq<Event>, b: seq<Event>)
    ensures InsertedRecords(a + b) == InsertedRecords(a) + InsertedRecords(b)
  {
    if a != [] {
      assert (a + b)[1..] == a[1..] + b;
      InsertedRecordsAppend(a[1..], b);
    } else {
      assert a + b == b;
    }
  }

  /** The ranges of the "Inserted rows" lines of a trace, in order. */
  function Reported(ev: seq<Event>): seq<(nat, nat)> {
    if ev == [] then []
    else (if ev[0].Printed? && ev[0].line.Inserted? then [(ev[0].line.first, ev[0].line.last)] else [])
         + Reported(ev[1..])
  }

  lemma {:induction false} ReportedAppend(a: seq<Event>, b: seq<Event>)
    ensures Reported(a + b) == Reported(a) + Reported(b)
  {
    if a != [] {
      assert (a + b)[1..] == a[1..] + b;
      ReportedAppend(a[1..], b);
    } else {
      assert a + b == b;
    }
  }

  /**
   * Every call in the trace ended as the store answers it, given the calls
   * before it (starting from the calls `history` already made).
   */
  ghost predicate Answered(store: Store, history: seq<Call>, ev: seq<Event>) {
    forall p :: 0 <= p < |ev| && ev[p].Called? ==> ev[p].reply == store(history + CallsOf(ev[..p]), ev[p].call)
  }

  lemma AnsweredAppend(store: Store, history: seq<Call>, a: seq<Event>, b: seq<Event>)
    requires Answered(store, history, a)
    requires Answered(store, history + CallsOf(a), b)
    ensures Answered(store, history, a + b)
  {
    forall p | 0 <= p < |a + b| && (a + b)[p].Called?
      ensures (a + b)[p].reply == store(history + CallsOf((a + b)[..p]), (a + b)[p].call)
    {
      if p < |a| {
        assert (a + b)[..p] == a[..p];
      } else {
        HistoryShift(history, a, b, p - |a|);
      }
    }
  }

  lemma HistoryShift(history: seq<Call>, a: seq<Event>, b: seq<Event>, q: nat)
    requires q < |b|
    ensures (a + b)[|a| + q] == b[q]
    ensures history + CallsOf((a + b)[..|a| + q]) == (history + CallsOf(a)) + CallsOf(b[..q])
  {
    assert (a + b)[..|a| + q] == a + b[..q];
    CallsOfAppend(a, b[..q]);
    Assoc(history, CallsOf(a), CallsOf(b[..q]));
  }

  lemma Assoc<T>(a: seq<T>, b: seq<T>, c: seq<T>)
    ensures (a + b) + c == a + (b + c)
  {
  }

  /** The three filters on a single event. */
  lemma FiltersOfOne(e: Event)
    ensures CallsOf([e]) == if e.Called? then [e.call] else []
    ensures InsertedRecords([e]) == if e.Called? && e.call.Insert? then [e.call.records] else []
    ensures Reported([e]) == if e.Printed? && e.line.Inserted? then [(e.line.first, e.line.last)] else []
  {
    assert [e][1..] == [];
  }

  /** Printed lines other than a reported range: invisible to the three filters. */
  predicate Quiet(ev: seq<Event>) {
    forall p :: 0 <= p < |ev| ==> ev[p].Printed? && !ev[p].line.Inserted?
  }

  lemma {:induction false} QuietFilters(ev: seq<Event>)
    requires Quiet(ev)
    ensures CallsOf(ev) == [] && InsertedRecords(ev) == [] && Reported(ev) == []
  {
    if ev != [] {
      assert Quiet(ev[1..]) by {
        forall p | 0 <= p < |ev[1..]| ensures ev[1..][p].Printed? && !ev[1..][p].line.Inserted? {
          assert ev[1..][p] == ev[p + 1];
        }
      }
      QuietFilters(ev[1..]);
    }
  }

  /** A trace framed by quiet lines filters like the trace in between. */
  lemma FramedFilters(a: seq<Event>, m: seq<Event>, c: seq<Event>)
    requires Quiet(a) && Quiet(c)
    ensures CallsOf(a + m + c) == CallsOf(m)
    ensures InsertedRecords(a + m + c) == InsertedRecords(m)
    ensures Reported(a + m + c) == Reported(m)
  {
    QuietFilters(a);
    QuietFilters(c);
    CallsOfAppend(a, m);
    CallsOfAppend(a + m, c);
    InsertedRecordsAppend(a, m);
    InsertedRecordsAppend(a + m, c);
    ReportedAppend(a, m);
    ReportedAppend(a + m, c);
    assert [] + CallsOf(m) + [] == CallsOf(m);
    assert [] + InsertedRecords(m) + [] == InsertedRecords(m);
    assert [] + Reported(m) + [] == Reported(m);
  }
}
