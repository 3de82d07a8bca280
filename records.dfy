/**
 * The staged table as the loaders see it once pandas has read the CSV:
 * cells, rows keyed by column name, a frame with its column set, Python's
 * `str()` and `lower()` on cells, and the null cleaning step
 * `df.where(pd.notnull(df), None)` that both loaders run before batching.
 */
module Records {

  /** One cell of a pandas frame. */
  datatype Cell =
    | Missing              // NaN: a value the CSV left empty
    | Null                 // Python None
    | Bool(b: bool)
    | Int(i: int)
    | Float(repr: string)  // a finite float, carried by its Python repr ("5.1", "1.0")
    | Str(s: string)

  /** A row, as `to_dict("records")` hands it over: column name to cell. */
  type Row = map<string, Cell>

  /** A frame: its column labels and its rows, in order. */
  datatype Frame = Frame(columns: set<string>, rows: seq<Row>)

  /** Every row has exactly the frame's columns (what read_csv produces). */
  predicate Uniform(df: Frame) {
    forall r :: 0 <= r < |df.rows| ==> df.rows[r].Keys == df.columns
  }

  // ---------------------------------------------------------------------
  // str(x) and str.lower()
  // ---------------------------------------------------------------------

  function Digit(d: nat): char
    requires d < 10
  {
    "0123456789"[d]
  }

  /** Decimal digits of a natural number, most significant first. */
  function NatText(n: nat): (s: string)
    ensures |s| >= 1
    ensures n >= 10 ==> |s| >= 2
    ensures forall k :: 0 <= k < |s| ==> '0' <= s[k] <= '9'
  {
    if n < 10 then [Digit(n)] else NatText(n / 10) + [Digit(n % 10)]
  }

  /** `str(i)` for a Python int. */
  function IntText(i: int): string {
    if i < 0 then "-" + NatText(-i) else NatText(i)
  }

  /**
   * `str(x)` for a cell. Lowered, a boolean reads "true" or "false", NaN
   * "nan" and None "none"; an integer's text is its decimal digits.
   */
  function Text(c: Cell): (t: string)
    ensures c.Bool? ==> Lower(t) == if c.b then "true" else "false"
    ensures c.Missing? ==> Lower(t) == "nan"
    ensures c.Null? ==> Lower(t) == "none"
    ensures c.Int? && c.i >= 0 ==> forall k :: 0 <= k < |t| ==> '0' <= t[k] <= '9'
  {
    match c
    case Missing => "nan"
    case Null => "None"
    case Bool(b) => if b then "True" else "False"
    case Int(i) => IntText(i)
    case Float(repr) => repr
    case Str(s) => s
  }

  function LowerChar(ch: char): char {
    if 'A' <= ch <= 'Z' then (ch as int + 32) as char else ch
  }

  /**
   * `s.lower()` on the ASCII letters: the same length, no upper-case letter
   * left, each upper-case letter replaced by its own lower-case letter, and
   * every other character kept.
   */
  function Lower(s: string): (l: string)
    ensures |l| == |s|
    ensures forall k :: 0 <= k < |l| ==> !('A' <= l[k] <= 'Z')
    ensures forall k :: 0 <= k < |s| && !('A' <= s[k] <= 'Z') ==> l[k] == s[k]
    ensures forall k :: 0 <= k < |s| && 'A' <= s[k] <= 'Z' ==> l[k] as int == s[k] as int + 32
  {
    seq(|s|, k requires 0 <= k < |s| => LowerChar(s[k]))
  }

  /** `str(i)` is "1" exactly for the integer one. */
  lemma {:induction false} IntTextIsOne(i: int)
    ensures IntText(i) == "1" <==> i == 1
  {
    if i < 0 {
      assert IntText(i)[0] == '-';
    } else if i >= 10 {
      assert |NatText(i)| >= 2;
    } else {
      assert IntText(i) == [Digit(i)];
      assert "0123456789"[i] == '1' <==> i == 1;
    }
  }

  /** `str(i)` holds only digits and a leading minus sign, which lower() keeps: it is never a word. */
  lemma {:induction false} LowerIntText(i: int)
    ensures Lower(IntText(i)) == IntText(i)
    ensures forall k :: 0 <= k < |IntText(i)| ==> !('a' <= IntText(i)[k] <= 'z')
    ensures IntText(i) != "true"
  {
    var s := IntText(i);
    if i < 0 {
      assert s == "-" + NatText(-i);
      assert forall k :: 1 <= k < |s| ==> s[k] == NatText(-i)[k - 1];
    }
    assert forall k :: 0 <= k < |s| ==> s[k] == '-' || '0' <= s[k] <= '9';
    assert s[0] != "true"[0];
  }

  // ---------------------------------------------------------------------
  // Null cleaning: df.where(pd.notnull(df), None)
  // ---------------------------------------------------------------------

  /** What `pd.notnull` calls null: NaN and None. */
  predicate IsNull(c: Cell) {
    c.Missing? || c.Null?
  }

  /** Keep a cell that is not null, put None in place of one that is. */
  function CleanCell(c: Cell): Cell {
    if IsNull(c) then Null else c
  }

  function CleanRow(row: Row): Row {
    map k | k in row :: CleanCell(row[k])
  }

  /** The frame `df.where(pd.notnull(df), None)`. */
  function CleanNulls(df: Frame): (out: Frame)
    ensures out.columns == df.columns && |out.rows| == |df.rows|
    ensures forall r :: 0 <= r < |df.rows| ==> out.rows[r].Keys == df.rows[r].Keys
    ensures forall r, k :: 0 <= r < |df.rows| && k in df.rows[r] ==>
              (out.rows[r][k] == Null <==> IsNull(df.rows[r][k]))
    ensures forall r, k :: 0 <= r < |df.rows| && k in df.rows[r] && !IsNull(df.rows[r][k]) ==>
              out.rows[r][k] == df.rows[r][k]
    ensures Uniform(df) ==> Uniform(out)
  {
    Frame(df.columns, seq(|df.rows|, r requires 0 <= r < |df.rows| => CleanRow(df.rows[r])))
  }

  /** The cleaned frame holds no NaN at all. */
  lemma NoMissingAfterCleaning(df: Frame)
    ensures forall r, k :: 0 <= r < |CleanNulls(df).rows| && k in CleanNulls(df).rows[r] ==>
              !CleanNulls(df).rows[r][k].Missing?
  {
    var out := CleanNulls(df);
    forall r, k | 0 <= r < |out.rows| && k in out.rows[r]
      ensures !out.rows[r][k].Missing?
    {
      assert k in df.rows[r];
    }
  }

  /** Cleaning a cleaned frame changes nothing. */
  lemma CleanNullsIdempotent(df: Frame)
    ensures CleanNulls(CleanNulls(df)) == CleanNulls(df)
  {
    var once := CleanNulls(df);
    var twice := CleanNulls(once);
    assert |twice.rows| == |once.rows|;
    forall r | 0 <= r < |once.rows|
      ensures twice.rows[r] == once.rows[r]
    {
      assert twice.rows[r] == CleanRow(once.rows[r]);
      assert once.rows[r] == CleanRow(df.rows[r]);
      assert CleanRow(CleanRow(df.rows[r])) == CleanRow(df.rows[r]);
    }
    assert twice.rows == once.rows;
  }
}
