/** The in-memory table the pipeline analyses (a pandas DataFrame), its row
    cap, and the per-column counts the report and the prompts use. */
module Tables {
  import opened Common

  /** One cell: a null (None or NaN), a hashable value kept as its text, or a
      list, dict or array value (as the JSON and Parquet readers can yield),
      kept as its text, which pandas cannot hash. */
  datatype Cell = Missing | Present(value: string) | Unhashable(text: string)

  /** A named column with its dtype name (str(df[col].dtype)) and its cells. */
  datatype Column = Column(name: string, dtype: string, cells: seq<Cell>)

  datatype RawTable = RawTable(columns: seq<Column>, rows: nat)

  /** Every column has one cell per row, and column names are distinct. */
  predicate WellFormed(t: RawTable)
  {
    && (forall i :: 0 <= i < |t.columns| ==> |t.columns[i].cells| == t.rows)
    && (forall i, j :: 0 <= i < j < |t.columns| ==> t.columns[i].name != t.columns[j].name)
  }

  type Table = t: RawTable | WellFormed(t) witness RawTable([], 0)

  /** The column names in table order (df.columns). */
  function Names(t: RawTable): (names: seq<string>)
    ensures |names| == |t.columns|
    ensures forall i :: 0 <= i < |t.columns| ==> names[i] == t.columns[i].name
  {
    seq(|t.columns|, i requires 0 <= i < |t.columns| => t.columns[i].name)
  }

  /** The set of column names. */
  function NameSet(cols: seq<Column>): set<string>
  {
    set i | 0 <= i < |cols| :: cols[i].name
  }

  /** Adding a column adds its name. */
  lemma NameSetSnoc(cols: seq<Column>)
    requires cols != []
    ensures NameSet(cols) == NameSet(cols[..|cols| - 1]) + {cols[|cols| - 1].name}
  {
    var init := cols[..|cols| - 1];
    forall n | n in NameSet(cols) ensures n in NameSet(init) + {cols[|cols| - 1].name} {
      var i :| 0 <= i < |cols| && cols[i].name == n;
      if i < |init| { assert init[i].name == n; }
    }
    forall n | n in NameSet(init) ensures n in NameSet(cols) {
      var i :| 0 <= i < |init| && init[i].name == n;
      assert cols[i].name == n;
    }
  }

  /** The table keeping only the rows at the positions in `pick`, in that order. */
  function SelectRows(t: Table, pick: seq<nat>): (r: Table)
    requires forall k :: 0 <= k < |pick| ==> pick[k] < t.rows
    ensures r.rows == |pick| && Names(r) == Names(t)
    ensures |r.columns| == |t.columns|
    ensures forall i :: 0 <= i < |t.columns| ==> r.columns[i].dtype == t.columns[i].dtype
    ensures forall i, k :: 0 <= i < |t.columns| && 0 <= k < |pick| ==>
              r.columns[i].cells[k] == t.columns[i].cells[pick[k]]
  {
    var cols := seq(|t.columns|, i requires 0 <= i < |t.columns| =>
      Column(t.columns[i].name, t.columns[i].dtype,
             seq(|pick|, k requires 0 <= k < |pick| => t.columns[i].cells[pick[k]])));
    RawTable(cols, |pick|)
  }

  /** The first min(n, rows) rows (df.head(n)). */
  function Head(t: Table, n: nat): (r: Table)
    ensures r.rows == Min(n, t.rows) && Names(r) == Names(t)
    ensures forall i, k :: 0 <= i < |t.columns| && 0 <= k < r.rows ==>
              r.columns[i].cells[k] == t.columns[i].cells[k]
  {
    var m := Min(n, t.rows);
    var cols := seq(|t.columns|, i requires 0 <= i < |t.columns| =>
      Column(t.columns[i].name, t.columns[i].dtype, t.columns[i].cells[..m]));
    RawTable(cols, m)
  }

  const MaxRows: nat := 5000

  /** `pick` is what df.sample(k) chooses from n rows: k distinct row positions. */
  predicate IsSample(pick: seq<nat>, n: nat, k: nat)
  {
    && |pick| == k
    && (forall i :: 0 <= i < |pick| ==> pick[i] < n)
    && (forall i, j :: 0 <= i < j < |pick| ==> pick[i] != pick[j])
  }

  /** The row cap: a table of more than MaxRows rows is replaced by a sample of
      exactly MaxRows of its rows (the positions in `pick`); a smaller one is kept. */
  function CapRows(t: Table, pick: seq<nat>): (r: Table)
    requires t.rows > MaxRows ==> IsSample(pick, t.rows, MaxRows)
    ensures r.rows == Min(t.rows, MaxRows)
    ensures t.rows <= MaxRows ==> r == t
    ensures Names(r) == Names(t)
    ensures forall i :: 0 <= i < |t.columns| ==> r.columns[i].dtype == t.columns[i].dtype
    ensures t.rows > MaxRows ==>
              forall i, k :: 0 <= i < |t.columns| && 0 <= k < r.rows ==>
                r.columns[i].cells[k] == t.columns[i].cells[pick[k]]
  {
    if t.rows > MaxRows then SelectRows(t, pick) else t
  }

  /** Number of null cells (df[col].isnull().sum()). */
  function CountMissing(cells: seq<Cell>): (n: nat)
    ensures n <= |cells|
  {
    if cells == [] then 0
    else CountMissing(cells[..|cells| - 1]) + (if cells[|cells| - 1].Missing? then 1 else 0)
  }

  /** The distinct non-null values (what df[col].nunique() counts). */
  function Distinct(cells: seq<Cell>): set<string>
  {
    if cells == [] then {}
    else Distinct(cells[..|cells| - 1]) + (if cells[|cells| - 1].Present? then {cells[|cells| - 1].value} else {})
  }

  /** A value is counted as distinct iff some cell holds it. */
  lemma {:induction false} DistinctMembers(cells: seq<Cell>, v: string)
    ensures v in Distinct(cells) <==> exists k :: 0 <= k < |cells| && cells[k] == Present(v)
  {
    if cells != [] {
      var init := cells[..|cells| - 1];
      DistinctMembers(init, v);
      if v in Distinct(init) {
        var k :| 0 <= k < |init| && init[k] == Present(v);
        assert cells[k] == Present(v);
      }
      if exists k :: 0 <= k < |cells| && cells[k] == Present(v) {
        var k :| 0 <= k < |cells| && cells[k] == Present(v);
        if k < |init| { assert init[k] == Present(v); }
      }
    }
  }

  /** Nulls and distinct values together never outnumber the rows. */
  lemma {:induction false} DistinctBound(cells: seq<Cell>)
    ensures |Distinct(cells)| + CountMissing(cells) <= |cells|
  {
    if cells != [] {
      var init, last := cells[..|cells| - 1], cells[|cells| - 1];
      DistinctBound(init);
      if last.Present? {
        var d := Distinct(init);
        if last.value in d {
          assert d + {last.value} == d;
        } else {
          assert |d + {last.value}| == |d| + 1;
        }
      }
    }
  }

  /** The null count counts exactly the positions of the null cells. */
  lemma {:induction false} CountMissingIsNullCount(cells: seq<Cell>)
    ensures CountMissing(cells) == |set k | 0 <= k < |cells| && cells[k].Missing?|
  {
    if cells != [] {
      var init, n := cells[..|cells| - 1], |cells| - 1;
      CountMissingIsNullCount(init);
      var before := set k | 0 <= k < |init| && init[k].Missing?;
      var after := set k | 0 <= k < |cells| && cells[k].Missing?;
      assert after == before + (if cells[n].Missing? then {n} else {}) by {
        forall k | k in after ensures k in before + (if cells[n].Missing? then {n} else {}) {
          if k < n { assert init[k] == cells[k]; }
        }
        forall k | k in before ensures k in after {
          assert init[k] == cells[k];
        }
      }
      assert n !in before;
    }
  }

  /** A column has no null count iff none of its cells is null. */
  lemma {:induction false} NoMissingIff(cells: seq<Cell>)
    ensures CountMissing(cells) == 0 <==> forall k :: 0 <= k < |cells| ==> !cells[k].Missing?
  {
    if cells != [] {
      var init := cells[..|cells| - 1];
      NoMissingIff(init);
      assert forall k :: 0 <= k < |init| ==> init[k] == cells[k];
    }
  }

  /** Every cell can be hashed, so `nunique` does not raise on any column. */
  predicate Hashable(t: RawTable)
  {
    forall i, k :: 0 <= i < |t.columns| && 0 <= k < |t.columns[i].cells| ==> !t.columns[i].cells[k].Unhashable?
  }
}
