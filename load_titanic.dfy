/**
 * scripts/load_titanic.py: `load_to_supabase` first rewrites the three
 * boolean-like columns that are present to 0/1 by a string test, then cleans
 * the nulls and runs the shared batch loop into `titanic_data`.
 */
module TitanicLoad {
  import opened Records
  import opened Batching
  import opened Supabase
  import opened Log
  import opened Loader

  /** The `bool_cols` list, in its order. */
  const BoolColumns: seq<string> := ["adult_male", "is_child", "alone"]

  // ---------------------------------------------------------------------
  // The per-value test: 1 if str(x).lower() in ["true", "1"] else 0
  // ---------------------------------------------------------------------

  /** The mapped value of one cell: always the integer 0 or 1. */
  function CoerceBool(x: Cell): (y: Cell)
    ensures y == Int(0) || y == Int(1)
  {
    if Lower(Text(x)) in ["true", "1"] then Int(1) else Int(0)
  }

  /** "true" in any mixture of upper and lower case, or exactly "1". */
  predicate SpellsTrue(s: string) {
    || s == "1"
    || (|s| == 4 && s[0] in "tT" && s[1] in "rR" && s[2] in "uU" && s[3] in "eE")
  }

  lemma LowerCharToLetter(ch: char, lo: char)
    requires 'a' <= lo <= 'z'
    ensures LowerChar(ch) == lo <==> ch == lo || ch == (lo as int - 32) as char
  {
  }

  /** The test is a case-insensitive match of "true", or the text "1". */
  lemma CoerceBoolMeaning(x: Cell)
    ensures CoerceBool(x) == Int(1) <==> SpellsTrue(Text(x))
    ensures CoerceBool(x) == Int(0) <==> !SpellsTrue(Text(x))
  {
    var s := Text(x);
    var l := Lower(s);
    assert l == "1" <==> s == "1" by {
      if |s| == 1 {
        assert l == [LowerChar(s[0])];
        assert s == [s[0]];
      }
    }
    assert l == "true" <==> |s| == 4 && s[0] in "tT" && s[1] in "rR" && s[2] in "uU" && s[3] in "eE" by {
      if |s| == 4 {
        LowerCharToLetter(s[0], 't');
        LowerCharToLetter(s[1], 'r');
        LowerCharToLetter(s[2], 'u');
        LowerCharToLetter(s[3], 'e');
        assert l == "true" <==> l[0] == 't' && l[1] == 'r' && l[2] == 'u' && l[3] == 'e';
      }
    }
  }

  /** An integer cell becomes 1 exactly when it is the integer one. */
  lemma CoerceInt(i: int)
    ensures CoerceBool(Int(i)) == Int(1) <==> i == 1
  {
    IntTextIsOne(i);
    LowerIntText(i);
  }

  /**
   * The examples of the test: "TRUE", "True", "1", True and the integer 1
   * become 1; "false", NaN (printed "nan"), None, the float 1.0 (printed
   * "1.0"), "yes", False and the integer 0 become 0.
   */
  lemma CoerceBoolExamples()
    ensures CoerceBool(Str("TRUE")) == Int(1) && CoerceBool(Str("True")) == Int(1)
    ensures CoerceBool(Str("1")) == Int(1) && CoerceBool(Bool(true)) == Int(1) && CoerceBool(Int(1)) == Int(1)
    ensures CoerceBool(Str("false")) == Int(0) && CoerceBool(Missing) == Int(0) && CoerceBool(Null) == Int(0)
    ensures CoerceBool(Float("1.0")) == Int(0) && CoerceBool(Str("yes")) == Int(0)
    ensures CoerceBool(Bool(false)) == Int(0) && CoerceBool(Int(0)) == Int(0)
  {
    CoerceBoolMeaning(Str("TRUE"));
    CoerceBoolMeaning(Str("True"));
    CoerceBoolMeaning(Str("1"));
    CoerceBoolMeaning(Bool(true));
    CoerceBoolMeaning(Str("false"));
    CoerceBoolMeaning(Missing);
    CoerceBoolMeaning(Null);
    CoerceBoolMeaning(Float("1.0"));
    CoerceBoolMeaning(Str("yes"));
    CoerceBoolMeaning(Bool(false));
    CoerceInt(1);
    CoerceInt(0);
  }

  /** Coercing a coerced value changes nothing: 0 and 1 map to themselves. */
  lemma CoerceBoolIdempotent(x: Cell)
    ensures CoerceBool(CoerceBool(x)) == CoerceBool(x)
  {
    CoerceInt(0);
    CoerceInt(1);
  }

  // ---------------------------------------------------------------------
  // for col in bool_cols: if col in df.columns: df[col] = df[col].map(...)
  // ---------------------------------------------------------------------

  function CoerceRow(row: Row, col: string): Row {
    if col in row then row[col := CoerceBool(row[col])] else row
  }

  /** `df[col] = df[col].map(...)`: every row's cell in column `col` mapped. */
  function MapColumn(df: Frame, col: string): Frame {
    Frame(df.columns, seq(|df.rows|, r requires 0 <= r < |df.rows| => CoerceRow(df.rows[r], col)))
  }

  /**
   * The loop over `cols`, in order: a listed column is mapped only when the
   * frame has it. No column is added or dropped, and neither is a row.
   */
  function CoerceColumns(df: Frame, cols: seq<string>): (out: Frame)
    ensures out.columns == df.columns && |out.rows| == |df.rows|
    decreases |cols|
  {
    if cols == [] then df
    else
      var before := CoerceColumns(df, cols[..|cols| - 1]);
      var col := cols[|cols| - 1];
      if col in before.columns then MapColumn(before, col) else before
  }

  /**
   * `out` is `df` with a cell coerced exactly when its column is listed in
   * `cols` and present in the frame: the column set, the row count and each
   * row's keys stay, and every other cell is unchanged.
   */
  ghost predicate CoercedFrom(df: Frame, cols: seq<string>, out: Frame) {
    && out.columns == df.columns
    && |out.rows| == |df.rows|
    && (forall r :: 0 <= r < |df.rows| ==> out.rows[r].Keys == df.rows[r].Keys)
    && (forall r, k :: 0 <= r < |df.rows| && k in df.rows[r] ==>
          out.rows[r][k] == if k in cols && k in df.columns then CoerceBool(df.rows[r][k]) else df.rows[r][k])
  }

  /** What the loop does, cell by cell. */
  lemma {:induction false} CoerceColumnsMeaning(df: Frame, cols: seq<string>)
    ensures var out := CoerceColumns(df, cols);
            && out.columns == df.columns
            && |out.rows| == |df.rows|
            && (forall r :: 0 <= r < |df.rows| ==> out.rows[r].Keys == df.rows[r].Keys)
            && (forall r, k :: 0 <= r < |df.rows| && k in df.rows[r] ==>
                  out.rows[r][k] == if k in cols && k in df.columns then CoerceBool(df.rows[r][k]) else df.rows[r][k])
    decreases |cols|
  {
    if cols != [] {
      var init, col := cols[..|cols| - 1], cols[|cols| - 1];
      CoerceColumnsMeaning(df, init);
      CoerceColumnsStep(df, init, col);
      assert init + [col] == cols;
    }
  }

  /** One more column of the loop: the meaning for `cols` follows from the meaning for all but its last. */
  lemma CoerceColumnsStep(df: Frame, init: seq<string>, col: string)
    requires CoercedFrom(df, init, CoerceColumns(df, init))
    ensures CoercedFrom(df, init + [col], CoerceColumns(df, init + [col]))
  {
    var cols := init + [col];
    var before := CoerceColumns(df, init);
    var out := CoerceColumns(df, cols);
    assert cols[..|cols| - 1] == init && cols[|cols| - 1] == col;
    forall r | 0 <= r < |df.rows|
      ensures out.rows[r].Keys == df.rows[r].Keys
    {
      assert out.rows[r].Keys == before.rows[r].Keys;
    }
    forall r, k | 0 <= r < |df.rows| && k in df.rows[r]
      ensures out.rows[r][k] == if k in cols && k in df.columns then CoerceBool(df.rows[r][k]) else df.rows[r][k]
    {
      var c := df.rows[r][k];
      assert k in before.rows[r];
      assert before.rows[r][k] == if k in init && k in df.columns then CoerceBool(c) else c;
      assert k in cols <==> k in init || k == col;
      if col in before.columns {
        assert out.rows[r] == CoerceRow(before.rows[r], col);
        if k == col {
          CoerceBoolIdempotent(c);
        }
      } else {
        assert out == before;
      }
    }
  }

  /** Running the loop twice is running it once. */
  lemma CoerceColumnsIdempotent(df: Frame, cols: seq<string>)
    ensures CoerceColumns(CoerceColumns(df, cols), cols) == CoerceColumns(df, cols)
  {
    var once := CoerceColumns(df, cols);
    var twice := CoerceColumns(once, cols);
    CoerceColumnsMeaning(df, cols);
    CoerceColumnsMeaning(once, cols);
    forall r | 0 <= r < |once.rows|
      ensures twice.rows[r] == once.rows[r]
    {
      PreparedKeys(df, r);
      PreparedKeys(once, r);
      forall k | k in once.rows[r]
        ensures twice.rows[r][k] == once.rows[r][k]
      {
        if k in cols && k in df.columns {
          CoerceBoolIdempotent(df.rows[r][k]);
        }
      }
    }
    assert twice.rows == once.rows;
  }

  /** The `for col in bool_cols` loop, rewriting `df` column by column. */
  method CoerceBoolColumns(df: Frame) returns (out: Frame)
    ensures out == CoerceColumns(df, BoolColumns)
    ensures out.columns == df.columns && |out.rows| == |df.rows|
    ensures forall r :: 0 <= r < |df.rows| ==> out.rows[r].Keys == df.rows[r].Keys
    ensures forall r, k :: 0 <= r < |df.rows| && k in df.rows[r] ==>
              out.rows[r][k] == if k in BoolColumns && k in df.columns then CoerceBool(df.rows[r][k]) else df.rows[r][k]
  {
    out := df;
    for c := 0 to |BoolColumns|
      invariant out == CoerceColumns(df, BoolColumns[..c])
    {
      var col := BoolColumns[c];
      assert BoolColumns[..c + 1][..c] == BoolColumns[..c];
      if col in out.columns {
        out := MapColumn(out, col);
      }
    }
    assert BoolColumns[..|BoolColumns|] == BoolColumns;
    CoerceColumnsMeaning(df, BoolColumns);
  }

  // ---------------------------------------------------------------------
  // load_to_supabase
  // ---------------------------------------------------------------------

  /**
   * The records the loop batches: coerced first, then null-cleaned. The
   * columns and the number of rows are those of the staged frame.
   */
  function Prepare(df: Frame): (out: Frame)
    ensures out.columns == df.columns && |out.rows| == |df.rows|
    ensures Uniform(df) ==> Uniform(out)
  {
    CoerceColumnsMeaning(df, BoolColumns);
    CleanNulls(CoerceColumns(df, BoolColumns))
  }

  /**
   * Coercion runs before cleaning, so a listed column present in the frame
   * holds only 0 or 1, never None; every other cell is the original cell
   * with NaN and None made None.
   */
  lemma PreparedCells(df: Frame)
    ensures |Prepare(df).rows| == |df.rows|
    ensures forall r :: 0 <= r < |df.rows| ==> Prepare(df).rows[r].Keys == df.rows[r].Keys
    ensures forall r, k :: 0 <= r < |df.rows| && k in df.rows[r] && k in BoolColumns && k in df.columns ==>
              Prepare(df).rows[r][k] == Int(0) || Prepare(df).rows[r][k] == Int(1)
    ensures forall r, k :: 0 <= r < |df.rows| && k in df.rows[r] && !(k in BoolColumns && k in df.columns) ==>
              Prepare(df).rows[r][k] == CleanCell(df.rows[r][k])
  {
    var coerced := CoerceColumns(df, BoolColumns);
    CoerceColumnsMeaning(df, BoolColumns);
    forall r, k | 0 <= r < |df.rows| && k in df.rows[r]
      ensures Prepare(df).rows[r][k] == CleanCell(coerced.rows[r][k])
    {
      assert k in coerced.rows[r];
    }
  }

  /** One cell as preparation leaves it, given whether its column is coerced. */
  function PrepareCell(c: Cell, coerced: bool): Cell {
    CleanCell(if coerced then CoerceBool(c) else c)
  }

  lemma PrepareCellIdempotent(c: Cell, coerced: bool)
    ensures PrepareCell(PrepareCell(c, coerced), coerced) == PrepareCell(c, coerced)
  {
    CoerceBoolIdempotent(c);
  }

  /** Row r of the prepared frame has the keys of row r of the staged one. */
  lemma PreparedKeys(df: Frame, r: nat)
    requires r < |df.rows|
    ensures Prepare(df).rows[r].Keys == df.rows[r].Keys
  {
    CoerceColumnsMeaning(df, BoolColumns);
  }

  /** Cell (r, k) of the prepared frame. */
  lemma PreparedAt(df: Frame, r: nat, k: string)
    requires r < |df.rows| && k in df.rows[r]
    ensures k in Prepare(df).rows[r]
    ensures Prepare(df).rows[r][k] == PrepareCell(df.rows[r][k], k in BoolColumns && k in df.columns)
  {
    var coerced := CoerceColumns(df, BoolColumns);
    CoerceColumnsMeaning(df, BoolColumns);
    assert k in coerced.rows[r];
  }

  /** Preparing prepared records changes nothing: the whole sanitisation is idempotent. */
  lemma PrepareIdempotent(df: Frame)
    ensures Prepare(Prepare(df)) == Prepare(df)
  {
    var once := Prepare(df);
    var twice := Prepare(once);
    forall r | 0 <= r < |once.rows|
      ensures twice.rows[r] == once.rows[r]
    {
      PreparedKeys(df, r);
      PreparedKeys(once, r);
      forall k | k in once.rows[r]
        ensures k in twice.rows[r] && twice.rows[r][k] == once.rows[r][k]
      {
        var listed := k in BoolColumns && k in df.columns;
        PreparedAt(df, r, k);
        PreparedAt(once, r, k);
        PrepareCellIdempotent(df.rows[r][k], listed);
      }
    }
    assert twice.rows == once.rows;
  }

  /**
   * `load_to_supabase(staged_path, table_name)` over the staged frame `df`:
   * as in the iris loader, but the records are coerced before they are
   * cleaned.
   */
  method LoadToSupabase(store: Store, history: seq<Call>, env: Env, fileExists: bool, table: string, df: Frame)
    returns (events: seq<Event>)
    ensures events == LoadToTable(store, history, env, fileExists, table, Prepare(df).rows)
    ensures !fileExists ==> events == [Printed(Searching), Printed(NotFound)]
    ensures !fileExists || Falsy(env.url) || Falsy(env.key) || env.connect.Raised? ==> CallsOf(events) == []
  {
    LoadGuards(store, history, env, fileExists, table, Prepare(df).rows);
    events := [Printed(Searching)];
    if !fileExists {
      events := events + [Printed(NotFound)];
      return;
    }
    var client := GetSupabaseClient(env);
    if client.Err? {
      events := events + [Printed(LoadError(client.error))];
      return;
    }
    var coerced := CoerceBoolColumns(df);
    var cleaned := CleanNulls(coerced);
    var records := cleaned.rows;
    events := events + [Printed(Loading(|records|))];
    var run := RunBatches(store, history, table, records);
    events := events + run.events;
    if run.outcome.Completed? {
      events := events + [Printed(Finished)];
    } else {
      events := events + [Printed(LoadError(Remote(run.outcome.cause)))];
    }
  }

  /**
   * In every record any load sends, each listed column the staged frame had
   * holds 0 or 1, never None.
   */
  lemma SentFlagsAreBits(store: Store, history: seq<Call>, env: Env, fileExists: bool, table: string, df: Frame)
    ensures var ins := InsertedRecords(LoadToTable(store, history, env, fileExists, table, Prepare(df).rows));
            forall b, q, k :: 0 <= b < |ins| && 0 <= q < |ins[b]| && k in ins[b][q] && k in BoolColumns && k in df.columns ==>
              ins[b][q][k] == Int(0) || ins[b][q][k] == Int(1)
  {
    var rows := Prepare(df).rows;
    var ins := InsertedRecords(LoadToTable(store, history, env, fileExists, table, rows));
    LoadSendsRows(store, history, env, fileExists, table, rows);
    PreparedCells(df);
    forall b, q, k | 0 <= b < |ins| && 0 <= q < |ins[b]| && k in ins[b][q] && k in BoolColumns && k in df.columns
      ensures ins[b][q][k] == Int(0) || ins[b][q][k] == Int(1)
    {
      var i := Start(b) + q;
      assert ins[b][q] == rows[i];
      assert k in df.rows[i];
    }
  }
}
