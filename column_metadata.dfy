/** The column metadata the pipeline hands to the oracle when it asks for
    per-column chart types (the dict comprehension in get_visualization_suggestions). */
module ColumnMetadata {
  import opened Tables

  datatype Kind = Categorical | Numerical

  datatype ColumnMeta = ColumnMeta(kind: Kind, uniqueValues: nat)

  /** A column is categorical exactly when its dtype is "object". */
  function KindOf(dtype: string): Kind
  {
    if dtype == "object" then Categorical else Numerical
  }

  function MetaOf(c: Column): ColumnMeta
  {
    ColumnMeta(KindOf(c.dtype), |Distinct(c.cells)|)
  }

  /** {col: {"dtype": ..., "unique_values": ...} for col in df.columns}: keyed
      by exactly the column names, each entry classifying its own column. */
  function Metadata(t: Table): (m: map<string, ColumnMeta>)
    ensures m.Keys == NameSet(t.columns)
    ensures forall i :: 0 <= i < |t.columns| ==>
              && (m[t.columns[i].name].kind == Categorical <==> t.columns[i].dtype == "object")
              && m[t.columns[i].name].uniqueValues == |Distinct(t.columns[i].cells)|
  {
    MetadataOfColumns(t.columns);
    MetadataOf(t.columns)
  }

  /** The comprehension, one column at a time in table order. */
  function MetadataOf(cols: seq<Column>): map<string, ColumnMeta>
  {
    if cols == [] then map[]
    else MetadataOf(cols[..|cols| - 1])[cols[|cols| - 1].name := MetaOf(cols[|cols| - 1])]
  }

  /** With distinct names, the comprehension has exactly the column names as
      keys, each mapped to its own column's entry. */
  lemma MetadataOfColumns(cols: seq<Column>)
    requires forall i, j :: 0 <= i < j < |cols| ==> cols[i].name != cols[j].name
    ensures MetadataOf(cols).Keys == NameSet(cols)
    ensures forall i :: 0 <= i < |cols| ==> MetadataOf(cols)[cols[i].name] == MetaOf(cols[i])
  {
    MetadataOfKeys(cols);
    MetadataOfEntries(cols);
  }

  lemma {:induction false} MetadataOfKeys(cols: seq<Column>)
    ensures MetadataOf(cols).Keys == NameSet(cols)
  {
    if cols != [] {
      MetadataOfKeys(cols[..|cols| - 1]);
      NameSetSnoc(cols);
    }
  }

  lemma MetadataOfEntries(cols: seq<Column>)
    requires forall i, j :: 0 <= i < j < |cols| ==> cols[i].name != cols[j].name
    ensures forall i :: 0 <= i < |cols| ==>
              cols[i].name in MetadataOf(cols) && MetadataOf(cols)[cols[i].name] == MetaOf(cols[i])
  {
    forall i | 0 <= i < |cols|
      ensures cols[i].name in MetadataOf(cols) && MetadataOf(cols)[cols[i].name] == MetaOf(cols[i])
    {
      MetadataOfAt(cols, i);
    }
  }

  /** Column i's name maps to column i's entry, as no later column shares its name. */
  lemma {:induction false} MetadataOfAt(cols: seq<Column>, i: nat)
    requires i < |cols|
    requires forall a, b :: 0 <= a < b < |cols| ==> cols[a].name != cols[b].name
    ensures cols[i].name in MetadataOf(cols) && MetadataOf(cols)[cols[i].name] == MetaOf(cols[i])
  {
    var init, last := cols[..|cols| - 1], cols[|cols| - 1];
    if i < |init| {
      assert forall a :: 0 <= a < |init| ==> init[a] == cols[a];
      MetadataOfAt(init, i);
      assert cols[i].name != last.name;
    }
  }

  /** The names of distinct columns form a set as large as the column list. */
  lemma {:induction false} NameSetSize(cols: seq<Column>)
    requires forall i, j :: 0 <= i < j < |cols| ==> cols[i].name != cols[j].name
    ensures |NameSet(cols)| == |cols|
  {
    if cols != [] {
      var init := cols[..|cols| - 1];
      var last := cols[|cols| - 1].name;
      NameSetSize(init);
      var initNames := NameSet(init);
      NameSetSnoc(cols);
      assert last !in initNames by {
        forall n | n in initNames ensures n != last {
          var i :| 0 <= i < |init| && init[i].name == n;
          assert cols[i].name == n;
        }
      }
    }
  }

  /** One metadata entry per column. */
  lemma MetadataOnePerColumn(t: Table)
    ensures |Metadata(t)| == |t.columns|
  {
    NameSetSize(t.columns);
    assert |Metadata(t)| == |Metadata(t).Keys|;
  }
}
