/** The report table (`OUTPUT_TEMPLATE`): 22 fixed columns, each a list
    of cells, one cell per accepted ROI in every column. Columns are an
    enumeration; `Header` gives the name the report prints. */
module OutputTable {
  import opened Base
  import opened JsonValue
  import opened RoiRecord
  import opened Hierarchy

  datatype Column =
    | GroupCol | ProjectCol | SubjectCol | SessionCol | AcquisitionCol
    | FileNameCol | FileTypeCol | LabelCol | DescriptionCol
    | XminCol | XmaxCol | YminCol | YmaxCol | UserCol | RoiTypeCol
    | AreaCol | CountCol | MaxCol | MeanCol | MinCol | StdDevCol | VarianceCol
  {
    /** The column's header in the report. */
    function Header(): string {
      match this
      case GroupCol => "Group"
      case ProjectCol => "Project"
      case SubjectCol => "Subject"
      case SessionCol => "Session"
      case AcquisitionCol => "Acquisition"
      case FileNameCol => "File Name"
      case FileTypeCol => "File Type"
      case LabelCol => "Label"
      case DescriptionCol => "Description"
      case XminCol => "Xmin"
      case XmaxCol => "Xmax"
      case YminCol => "Ymin"
      case YmaxCol => "Ymax"
      case UserCol => "User"
      case RoiTypeCol => "ROI type"
      case AreaCol => "area"
      case CountCol => "count"
      case MaxCol => "max"
      case MeanCol => "mean"
      case MinCol => "min"
      case StdDevCol => "stdDev"
      case VarianceCol => "variance"
    }
  }

  /** The template's columns, in report order. */
  const Columns: seq<Column> := [
    GroupCol, ProjectCol, SubjectCol, SessionCol, AcquisitionCol, FileNameCol, FileTypeCol,
    LabelCol, DescriptionCol, XminCol, XmaxCol, YminCol, YmaxCol, UserCol, RoiTypeCol,
    AreaCol, CountCol, MaxCol, MeanCol, MinCol, StdDevCol, VarianceCol]

  /** The cached statistics copied into the report, each defaulting to 0. */
  const StatisticColumns: seq<Column> := [AreaCol, CountCol, MaxCol, MeanCol, MinCol, StdDevCol, VarianceCol]

  /** The template lists every column once, and no two headers coincide. */
  lemma LemmaColumnsComplete()
    ensures |Columns| == 22
    ensures forall c: Column :: c in Columns
    ensures forall i, j :: 0 <= i < j < |Columns| ==> Columns[i].Header() != Columns[j].Header()
  {
    forall c: Column ensures c in Columns {
      match c
      case GroupCol => assert Columns[0] == c;
      case ProjectCol => assert Columns[1] == c;
      case SubjectCol => assert Columns[2] == c;
      case SessionCol => assert Columns[3] == c;
      case AcquisitionCol => assert Columns[4] == c;
      case FileNameCol => assert Columns[5] == c;
      case FileTypeCol => assert Columns[6] == c;
      case LabelCol => assert Columns[7] == c;
      case DescriptionCol => assert Columns[8] == c;
      case XminCol => assert Columns[9] == c;
      case XmaxCol => assert Columns[10] == c;
      case YminCol => assert Columns[11] == c;
      case YmaxCol => assert Columns[12] == c;
      case UserCol => assert Columns[13] == c;
      case RoiTypeCol => assert Columns[14] == c;
      case AreaCol => assert Columns[15] == c;
      case CountCol => assert Columns[16] == c;
      case MaxCol => assert Columns[17] == c;
      case MeanCol => assert Columns[18] == c;
      case MinCol => assert Columns[19] == c;
      case StdDevCol => assert Columns[20] == c;
      case VarianceCol => assert Columns[21] == c;
    }
  }

  /** Columns of cells. */
  type Table = map<Column, seq<Json>>

  /** One accepted ROI: where it was resolved, its normalised record, its
      statistics dict and the ROI type the report shows. */
  datatype Row = Row(place: Located, roi: NormalizedRoi, stats: map<string, Json>, roiType: string)

  /** `cached_stats.get(name, 0)`. */
  function Statistic(stats: map<string, Json>, name: string): (r: Json)
    ensures name in stats ==> r == stats[name]
    ensures name !in stats ==> r == JNum(0.0)
  {
    GetOr(stats, name, JNum(0.0))
  }

  /** The cell a column receives for a row. */
  function CellFor(row: Row, column: Column): Json {
    var l := row.place.labels;
    match column
    case GroupCol => Cell(l.group)
    case ProjectCol => JStr(l.project)
    case SubjectCol => Cell(l.subject)
    case SessionCol => Cell(l.session)
    case AcquisitionCol => Cell(l.acquisition)
    case FileNameCol => JStr(row.place.fileName)
    case FileTypeCol => JStr(row.place.fileType)
    case LabelCol => row.roi.labelValue
    case DescriptionCol => row.roi.description
    case XminCol => JNum(row.roi.xMin)
    case XmaxCol => JNum(row.roi.xMax)
    case YminCol => JNum(row.roi.yMin)
    case YmaxCol => JNum(row.roi.yMax)
    case UserCol => row.roi.user
    case RoiTypeCol => JStr(row.roiType)
    case _ => Statistic(row.stats, column.Header())
  }

  /** Every template column is present. */
  predicate Complete(t: Table) {
    forall c: Column :: c in t
  }

  /** A complete table in which every column holds exactly `n` cells. */
  predicate Rectangular(t: Table, n: nat) {
    Complete(t) && forall c :: c in t ==> |t[c]| == n
  }

  /** `copy.deepcopy(OUTPUT_TEMPLATE)`. */
  function EmptyTable(): (t: Table)
    ensures Rectangular(t, 0)
  {
    LemmaColumnsComplete();
    map c | c in Columns :: []
  }

  /** The 22 `append` calls for one accepted ROI. */
  function AppendRow(t: Table, row: Row): (t': Table)
    ensures t'.Keys == t.Keys
    ensures forall c :: c in t' ==> t'[c] == t[c] + [CellFor(row, c)]
  {
    map c | c in t :: t[c] + [CellFor(row, c)]
  }

  /** The template after appending the rows in order. Every column holds one
      cell per row, and the i-th cell of a column is row i's cell. */
  function Tabulate(rows: seq<Row>): (t: Table)
    ensures Rectangular(t, |rows|)
    ensures forall c, i :: c in t && 0 <= i < |rows| ==> t[c][i] == CellFor(rows[i], c)
  {
    if rows == [] then EmptyTable()
    else
      var init := rows[..|rows| - 1];
      var prev := Tabulate(init);
      var t := AppendRow(prev, rows[|rows| - 1]);
      assert forall c, i :: c in t && 0 <= i < |init| ==> t[c][i] == prev[c][i] && init[i] == rows[i];
      t
  }

  /** The cells one column receives for the rows, in row order. */
  function ColumnCells(rows: seq<Row>, c: Column): (cells: seq<Json>)
    ensures |cells| == |rows|
  {
    if rows == [] then [] else [CellFor(rows[0], c)] + ColumnCells(rows[1..], c)
  }

  /** A column of the tabulation is the column's cells for the rows. */
  lemma LemmaTabulateColumn(rows: seq<Row>, c: Column)
    ensures c in Tabulate(rows) && Tabulate(rows)[c] == ColumnCells(rows, c)
  {
    var t, cells := Tabulate(rows), ColumnCells(rows, c);
    assert c in t;
    forall i | 0 <= i < |rows|
      ensures t[c][i] == cells[i]
    {
      LemmaColumnCellsAt(rows, c, i);
    }
  }

  lemma {:induction false} LemmaColumnCellsAt(rows: seq<Row>, c: Column, i: nat)
    requires i < |rows|
    ensures ColumnCells(rows, c)[i] == CellFor(rows[i], c)
    decreases i
  {
    if i > 0 {
      LemmaColumnCellsAt(rows[1..], c, i - 1);
    }
  }

  /** Tabulating two runs of rows one after the other gives each column the
      first run's cells followed by the second's. */
  lemma {:induction false} LemmaColumnCellsAppend(a: seq<Row>, b: seq<Row>, c: Column)
    ensures ColumnCells(a + b, c) == ColumnCells(a, c) + ColumnCells(b, c)
    decreases |a|
  {
    if a == [] {
      assert a + b == b;
    } else {
      assert (a + b)[0] == a[0];
      assert (a + b)[1..] == a[1..] + b;
      LemmaColumnCellsAppend(a[1..], b, c);
    }
  }

  /** The cells at one position of every column. */
  function ReadRow(t: Table, i: nat): (cells: map<Column, Json>)
    requires forall c :: c in t ==> i < |t[c]|
    ensures cells.Keys == t.Keys
  {
    map c | c in t :: t[c][i]
  }

  /** Reading position i back out of the table gives row i's cells. */
  lemma LemmaReadRowTabulate(rows: seq<Row>, i: nat)
    requires i < |rows|
    ensures forall c: Column :: c in ReadRow(Tabulate(rows), i) && ReadRow(Tabulate(rows), i)[c] == CellFor(rows[i], c)
  {
  }

  /** The "Group" column is empty exactly when no ROI was accepted, which is
      how the aggregation recognises a container that contributed nothing. */
  lemma LemmaGroupColumnEmpty(rows: seq<Row>)
    ensures GroupCol in Tabulate(rows)
    ensures Tabulate(rows)[GroupCol] == [] <==> rows == []
  {
  }

  /** Builds a row; the statistics must be a dict for `.get` to succeed. */
  function BuildRow(place: Located, roi: NormalizedRoi, roiType: string): (r: Result<Row>)
    ensures r.Success? <==> roi.cachedStats.JObj?
    ensures r.Success? ==> r.value == Row(place, roi, roi.cachedStats.fields, roiType)
  {
    var stats :- AsMapping(roi.cachedStats);
    Success(Row(place, roi, stats, roiType))
  }

  /** Each statistics column holds the record's value for that statistic, or
      0 when the record has none (in particular when cachedStats was absent
      and read as an empty dict). */
  lemma LemmaStatisticsDefault(row: Row, c: Column)
    requires c in StatisticColumns
    ensures c.Header() in row.stats ==> CellFor(row, c) == row.stats[c.Header()]
    ensures c.Header() !in row.stats ==> CellFor(row, c) == JNum(0.0)
  {
  }
}
