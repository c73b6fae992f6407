/** Aggregation of the per-container tables into the project-wide table
    (`acquire_rois`). The walk and the curation of each container happen
    upstream; here the curated results arrive in walk order, `None` standing
    for a container whose curation returned nothing. */
module AcquireRois {
  import opened Base
  import opened JsonValue
  import opened OutputTable

  /** The guard of the fold: a result that exists, is not empty and has a
      non-empty "Group" column. */
  predicate Contributes(d: Option<Table>) {
    d.Some? && d.value != map[] && GroupCol in d.value && d.value[GroupCol] != []
  }

  /** One step of the fold: every column of `d` is appended to the
      accumulator's column of that name, or inserted when new. */
  function Merge(acc: Table, d: Table): (r: Table)
    ensures r.Keys == acc.Keys + d.Keys
    ensures forall k :: k in d && k in acc ==> r[k] == acc[k] + d[k]
    ensures forall k :: k in d && k !in acc ==> r[k] == d[k]
    ensures forall k :: k in acc && k !in d ==> r[k] == acc[k]
  {
    map k | k in acc.Keys + d.Keys :: if k in d then (if k in acc then acc[k] + d[k] else d[k]) else acc[k]
  }

  // ------------------------------------------------------------ reference

  /** Whether some contributing result has column `k`. */
  predicate HasColumn(ds: seq<Option<Table>>, k: Column) {
    exists i :: 0 <= i < |ds| && Contributes(ds[i]) && k in ds[i].value
  }

  /** Column `k` of the contributing results, concatenated in walk order. */
  function ColumnOf(ds: seq<Option<Table>>, k: Column): seq<Json> {
    if ds == [] then []
    else
      var last := ds[|ds| - 1];
      ColumnOf(ds[..|ds| - 1], k) + if Contributes(last) && k in last.value then last.value[k] else []
  }

  // ------------------------------------------------------------ the fold

  /** The accumulator after the first |ds| results. */
  function Folded(ds: seq<Option<Table>>): Table {
    if ds == [] then map[]
    else
      var acc := Folded(ds[..|ds| - 1]);
      var last := ds[|ds| - 1];
      if Contributes(last) then Merge(acc, last.value) else acc
  }

  lemma LemmaHasColumnSnoc(ds: seq<Option<Table>>, d: Option<Table>, k: Column)
    ensures HasColumn(ds + [d], k) <==> HasColumn(ds, k) || (Contributes(d) && k in d.value)
  {
    var ds' := ds + [d];
    assert forall i :: 0 <= i < |ds| ==> ds'[i] == ds[i];
    assert ds'[|ds|] == d;
    if HasColumn(ds', k) {
      var i :| 0 <= i < |ds'| && Contributes(ds'[i]) && k in ds'[i].value;
      if i < |ds| {
        assert Contributes(ds[i]) && k in ds[i].value;
      }
    }
    if HasColumn(ds, k) {
      var i :| 0 <= i < |ds| && Contributes(ds[i]) && k in ds[i].value;
      assert Contributes(ds'[i]) && k in ds'[i].value;
    }
  }

  /** What one more result adds to a column. */
  function Contribution(d: Option<Table>, k: Column): seq<Json> {
    if Contributes(d) && k in d.value then d.value[k] else []
  }

  lemma LemmaColumnOfSnoc(ds: seq<Option<Table>>, d: Option<Table>, k: Column)
    ensures ColumnOf(ds + [d], k) == ColumnOf(ds, k) + Contribution(d, k)
  {
    assert (ds + [d])[..|ds|] == ds;
  }

  lemma LemmaFoldedSnoc(ds: seq<Option<Table>>, d: Option<Table>)
    ensures Folded(ds + [d]) == if Contributes(d) then Merge(Folded(ds), d.value) else Folded(ds)
  {
    assert (ds + [d])[..|ds|] == ds;
  }

  /** The fold's accumulator holds exactly the contributed columns, each the
      concatenation of the contributions in order. */
  lemma {:induction false} LemmaFolded(ds: seq<Option<Table>>, k: Column)
    ensures k in Folded(ds) <==> HasColumn(ds, k)
    ensures k in Folded(ds) ==> Folded(ds)[k] == ColumnOf(ds, k)
    decreases |ds|
  {
    if ds != [] {
      var init, last := ds[..|ds| - 1], ds[|ds| - 1];
      LemmaSnoc(ds);
      LemmaFolded(init, k);
      LemmaHasColumnSnoc(init, last, k);
      LemmaColumnOfSnoc(init, last, k);
      LemmaFoldedSnoc(init, last);
      if !HasColumn(init, k) {
        LemmaNoColumn(init, k);
      }
    }
  }

  /** A column no result contributes is empty. */
  lemma {:induction false} LemmaNoColumn(ds: seq<Option<Table>>, k: Column)
    requires !HasColumn(ds, k)
    ensures ColumnOf(ds, k) == []
    decreases |ds|
  {
    if ds != [] {
      var init, last := ds[..|ds| - 1], ds[|ds| - 1];
      assert ds == init + [last];
      LemmaHasColumnSnoc(init, last, k);
      LemmaNoColumn(init, k);
    }
  }

  /** `acquire_rois`' loop over the curated containers. */
  method Aggregate(ds: seq<Option<Table>>) returns (output: Table)
    ensures forall k :: k in output <==> HasColumn(ds, k)
    ensures forall k :: k in output ==> output[k] == ColumnOf(ds, k)
  {
    output := map[];
    for i := 0 to |ds|
      invariant output == Folded(ds[..i])
    {
      assert ds[..i + 1][..i] == ds[..i];
      if Contributes(ds[i]) {
        output := Merge(output, ds[i].value);
      }
    }
    assert ds[..|ds|] == ds;
    forall k ensures (k in output <==> HasColumn(ds, k)) && (k in output ==> output[k] == ColumnOf(ds, k)) {
      LemmaFolded(ds, k);
    }
  }

  // ------------------------------------------------------------ lemmas

  /** Nothing contributes: the output is the empty dict. */
  lemma LemmaNothingContributes(ds: seq<Option<Table>>, k: Column)
    requires forall i :: 0 <= i < |ds| ==> !Contributes(ds[i])
    ensures !HasColumn(ds, k)
  {
  }

  /** A result that does not contribute leaves every column as it was. */
  lemma LemmaSkipped(ds: seq<Option<Table>>, d: Option<Table>, k: Column)
    requires !Contributes(d)
    ensures ColumnOf(ds + [d], k) == ColumnOf(ds, k)
    ensures HasColumn(ds + [d], k) <==> HasColumn(ds, k)
  {
    assert (ds + [d])[..|ds|] == ds;
    assert forall i :: 0 <= i < |ds| ==> (ds + [d])[i] == ds[i];
  }

  /** The number of rows the tables contribute. */
  function TotalRows(ds: seq<Option<Table>>): nat {
    if ds == [] then 0
    else
      var last := ds[|ds| - 1];
      TotalRows(ds[..|ds| - 1]) + if Contributes(last) then |last.value[GroupCol]| else 0
  }

  /** A table as the curator produces it: every template column present and
      all of the same length. */
  predicate CuratorShaped(d: Option<Table>) {
    d.Some? ==> GroupCol in d.value && Rectangular(d.value, |d.value[GroupCol]|)
  }

  /** When every result has the curator's shape, every column of the output
      holds one cell per contributed row: the columns stay equal in length
      and the row count is the sum of the contributed rows. */
  lemma {:induction false} LemmaColumnsStayAligned(ds: seq<Option<Table>>, k: Column)
    requires forall i :: 0 <= i < |ds| ==> CuratorShaped(ds[i])
    ensures |ColumnOf(ds, k)| == TotalRows(ds)
    decreases |ds|
  {
    if ds != [] {
      var init := ds[..|ds| - 1];
      assert forall i :: 0 <= i < |init| ==> init[i] == ds[i];
      LemmaColumnsStayAligned(init, k);
      var last := ds[|ds| - 1];
      assert CuratorShaped(last);
    }
  }

  /** The concatenation of the row lists, in walk order. */
  function AllRows(rowLists: seq<seq<Row>>): seq<Row> {
    if rowLists == [] then [] else AllRows(rowLists[..|rowLists| - 1]) + rowLists[|rowLists| - 1]
  }

  /** Column `k` of tabulated rows, split after any prefix of the rows. */
  lemma LemmaTabulateAppend(a: seq<Row>, b: seq<Row>, k: Column)
    ensures Tabulate(a + b)[k] == Tabulate(a)[k] + Tabulate(b)[k]
  {
    LemmaTabulateColumn(a + b, k);
    LemmaTabulateColumn(a, k);
    LemmaTabulateColumn(b, k);
    LemmaColumnCellsAppend(a, b, k);
  }

  /** A container contributes exactly when it accepted some rows. */
  lemma LemmaContributesTabulated(d: Option<Table>, rows: seq<Row>, k: Column)
    requires d.None? ==> rows == []
    requires d.Some? ==> d.value == Tabulate(rows)
    ensures Contributes(d) && k in d.value <==> rows != []
  {
    LemmaGroupColumnEmpty(rows);
  }

  /** A container's result, read against the rows it accepted. */
  lemma LemmaContributionTabulated(d: Option<Table>, rows: seq<Row>, k: Column)
    requires d.None? ==> rows == []
    requires d.Some? ==> d.value == Tabulate(rows)
    ensures Contribution(d, k) == Tabulate(rows)[k]
  {
    LemmaTabulateColumn(rows, k);
    LemmaContributesTabulated(d, rows, k);
    if rows == [] {
      assert ColumnCells(rows, k) == [];
    }
  }

  /** One more container in the walk: its rows extend the tabulation. */
  lemma LemmaAggregateSnoc(init: seq<Option<Table>>, last: Option<Table>, prefix: seq<Row>, rows: seq<Row>, k: Column)
    requires ColumnOf(init, k) == Tabulate(prefix)[k]
    requires HasColumn(init, k) <==> prefix != []
    requires last.None? ==> rows == []
    requires last.Some? ==> last.value == Tabulate(rows)
    ensures ColumnOf(init + [last], k) == Tabulate(prefix + rows)[k]
    ensures HasColumn(init + [last], k) <==> prefix + rows != []
  {
    LemmaTabulateAppend(prefix, rows, k);
    LemmaContributionTabulated(last, rows, k);
    LemmaContributesTabulated(last, rows, k);
    LemmaColumnOfSnoc(init, last, k);
    LemmaHasColumnSnoc(init, last, k);
  }

  /** End to end: when each container's result is the tabulation of its
      accepted rows (or `None`), each output column is the column of the
      tabulation of all rows in walk order. */
  lemma {:induction false} LemmaAggregateTabulated(rowLists: seq<seq<Row>>, ds: seq<Option<Table>>, k: Column)
    requires |ds| == |rowLists|
    requires forall i :: 0 <= i < |ds| ==> ds[i].None? ==> rowLists[i] == []
    requires forall i :: 0 <= i < |ds| ==> ds[i].Some? ==> ds[i].value == Tabulate(rowLists[i])
    ensures ColumnOf(ds, k) == Tabulate(AllRows(rowLists))[k]
    ensures HasColumn(ds, k) <==> AllRows(rowLists) != []
    decreases |ds|
  {
    if ds == [] {
      LemmaTabulateColumn([], k);
      assert ColumnCells([], k) == [];
    } else {
      var n := |ds|;
      var init, initRows := ds[..n - 1], rowLists[..n - 1];
      assert forall i :: 0 <= i < n - 1 ==> init[i] == ds[i] && initRows[i] == rowLists[i];
      LemmaAggregateTabulated(initRows, init, k);
      LemmaAggregateSnoc(init, ds[n - 1], AllRows(initRows), rowLists[n - 1], k);
      LemmaSnoc(ds);
    }
  }
}
