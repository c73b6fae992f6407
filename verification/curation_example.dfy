/** One session curated end to end: a single viewer rectangle whose series
    UID names the one DICOM file of the session becomes one row of the
    report, with its bounding box and the file's type. */
module CurationExample {
  import opened Base
  import opened JsonValue
  import opened Containers
  import opened FileTypes
  import opened RoiRecord
  import opened Hierarchy
  import opened OutputTable
  import opened Curator

  /** The session's only file: `<stem>.dcm` of series `uid`, in acquisition
      "T1" of project "p1". */
  function Scan(stem: string, uid: string): FileEntry {
    FileEntry(stem + ".dcm", map["SeriesInstanceUID" := JStr(uid)],
              ParentRef(Acquisition, "T1", Parents(Some("grp"), Some("p1"), None, None, None)))
  }

  const Repo: Repository := Repository(map["p1" := "Proj"], map[], map[], map[])

  function Point(x: real, y: real): Json {
    JObj(map["x" := JNum(x), "y" := JNum(y)])
  }

  /** A rectangle drawn from (x1, y1) to (x2, y2) on series `uid`. */
  function Rectangle(uid: string, x1: real, y1: real, x2: real, y2: real): map<string, Json> {
    map["seriesInstanceUid" := JStr(uid),
        "handles" := JObj(map["start" := Point(x1, y1), "end" := Point(x2, y2)])]
  }

  /** The viewer measurements: one record, in the rectangle bucket. */
  function Measurements(record: map<string, Json>): map<string, Json> {
    map["RectangleRoi" := JArr([JObj(record)])]
  }

  /** The session's info holding those measurements. */
  function SessionInfo(record: map<string, Json>): map<string, Json> {
    map["ohifViewer" := JObj(map["measurements" := JObj(Measurements(record))])]
  }

  const ScanLabels: Labels := Labels(Some("grp"), "Proj", None, None, Some("T1"))

  /** The rectangle's normalised record: its box, and no label, user or
      statistics. */
  function RectangleRoi(x1: real, y1: real, x2: real, y2: real): NormalizedRoi {
    NormalizedRoi(JNull, JNull, Min(x1, x2), Max(x1, x2), Min(y1, y2), Max(y1, y2), JNull, EmptyObject)
  }

  /** The row the rectangle is expected to give. */
  function RectangleRow(stem: string, x1: real, y1: real, x2: real, y2: real): Row {
    Row(Located(ScanLabels, stem + ".dcm", "DICOM"), RectangleRoi(x1, y1, x2, y2), map[], "RectangleRoi")
  }

  /** The rectangle resolves to the scan, labelled from the repository. */
  lemma LemmaRectangleLocated(stem: string, uid: string, x1: real, y1: real, x2: real, y2: real)
    requires '.' !in stem && stem != [] && '_' !in uid
    ensures SessionHierarchy([[Scan(stem, uid)]], Rectangle(uid, x1, y1, x2, y2), Repo)
         == Success(Some(Located(ScanLabels, stem + ".dcm", "DICOM")))
  {
    var scan := Scan(stem, uid);
    var normalized := NormalizedSeriesUid(scan);
    assert normalized.Success? && |normalized.value| == |uid|;
    assert normalized.value == uid;
    assert SeriesMatch(scan, JStr(uid));
    LemmaFlattenSingle([scan]);
    var found := FirstSeriesMatch([scan], JStr(uid));
    assert found.Success? && found.value.Some?;
    assert found.value.value == scan;
    assert FileHierarchy(scan, Repo) == Success(ScanLabels);
    LemmaDicomName(stem);
  }

  /** The rectangle's box is read from its handles. */
  lemma LemmaRectangleNormalized(uid: string, x1: real, y1: real, x2: real, y2: real)
    ensures ProcessGenericRoi(Rectangle(uid, x1, y1, x2, y2)) == Success(RectangleRoi(x1, y1, x2, y2))
  {
    var record := Rectangle(uid, x1, y1, x2, y2);
    assert Coord(record, "start", "x") == Some(x1) && Coord(record, "end", "x") == Some(x2);
    assert Coord(record, "start", "y") == Some(y1) && Coord(record, "end", "y") == Some(y2);
    assert ReadCorners(record) == Success(Corners(x1, y1, x2, y2));
    assert UserOrigin(record) == Success(JNull);
  }

  /** The rectangle's record gives the expected row. */
  lemma LemmaRectangleRow(stem: string, uid: string, x1: real, y1: real, x2: real, y2: real)
    requires '.' !in stem && stem != [] && '_' !in uid
    ensures ViewerRoiRow(JObj(Rectangle(uid, x1, y1, x2, y2)), [[Scan(stem, uid)]], Repo, "RectangleRoi")
         == Success(Some(RectangleRow(stem, x1, y1, x2, y2)))
  {
    LemmaRectangleLocated(stem, uid, x1, y1, x2, y2);
    LemmaRectangleNormalized(uid, x1, y1, x2, y2);
  }

  /** The rectangle bucket holds exactly the rectangle's row. */
  lemma LemmaRectangleBucket(stem: string, uid: string, x1: real, y1: real, x2: real, y2: real)
    requires '.' !in stem && stem != [] && '_' !in uid
    ensures BucketRows(Measurements(Rectangle(uid, x1, y1, x2, y2)), "RectangleRoi", [[Scan(stem, uid)]], Repo)
         == Success([RectangleRow(stem, x1, y1, x2, y2)])
  {
    var record, row := Rectangle(uid, x1, y1, x2, y2), RectangleRow(stem, x1, y1, x2, y2);
    LemmaRectangleRow(stem, uid, x1, y1, x2, y2);
    var outcomes := ViewerOutcomes([JObj(record)], [[Scan(stem, uid)]], Repo, "RectangleRoi");
    assert outcomes == [Success(Some(row))];
    LemmaKeptSingle(Success(Some(row)));
    assert IterateRecords(Measurements(record)["RectangleRoi"]) == Success([JObj(record)]);
  }

  /** The viewer rows: the rectangle's, and none from the absent ellipse
      bucket. */
  lemma LemmaViewerRows(stem: string, uid: string, x1: real, y1: real, x2: real, y2: real)
    requires '.' !in stem && stem != [] && '_' !in uid
    ensures ViewerRows(Measurements(Rectangle(uid, x1, y1, x2, y2)), [[Scan(stem, uid)]], Repo)
         == Success([RectangleRow(stem, x1, y1, x2, y2)])
  {
    var measurements := Measurements(Rectangle(uid, x1, y1, x2, y2));
    LemmaRectangleBucket(stem, uid, x1, y1, x2, y2);
    assert "EllipticalRoi" !in measurements;
    LemmaRectanglesOnly(measurements, [[Scan(stem, uid)]], Repo, [RectangleRow(stem, x1, y1, x2, y2)]);
  }

  /** Without an ellipse bucket the viewer rows are the rectangle bucket's. */
  lemma LemmaRectanglesOnly(measurements: map<string, Json>, acquisitionFiles: seq<seq<FileEntry>>, repo: Repository, rows: seq<Row>)
    requires "EllipticalRoi" !in measurements
    requires BucketRows(measurements, "RectangleRoi", acquisitionFiles, repo) == Success(rows)
    ensures ViewerRows(measurements, acquisitionFiles, repo) == Success(rows)
  {
    assert rows + [] == rows;
  }

  /** The session's rows: exactly the rectangle's. */
  lemma LemmaSessionRows(stem: string, uid: string, x1: real, y1: real, x2: real, y2: real)
    requires '.' !in stem && stem != [] && '_' !in uid
    ensures SessionRows(SessionInfo(Rectangle(uid, x1, y1, x2, y2)), [[Scan(stem, uid)]], Repo)
         == Success([RectangleRow(stem, x1, y1, x2, y2)])
  {
    var measurements := Measurements(Rectangle(uid, x1, y1, x2, y2));
    var info := SessionInfo(Rectangle(uid, x1, y1, x2, y2));
    LemmaViewerRows(stem, uid, x1, y1, x2, y2);
    assert GetOr(info["ohifViewer"].fields, "measurements", EmptyObject) == JObj(measurements);
  }

  /** A session whose rows are one row tabulates to that row's cells. */
  lemma LemmaOneRowTable(info: map<string, Json>, acquisitionFiles: seq<seq<FileEntry>>, repo: Repository, row: Row)
    requires SessionRows(info, acquisitionFiles, repo) == Success([row])
    ensures CurateSession(info, acquisitionFiles, repo).Success?
    ensures var t := CurateSession(info, acquisitionFiles, repo).value;
      Rectangular(t, 1) && forall c :: c in t ==> t[c] == [CellFor(row, c)]
  {
    var t := CurateSession(info, acquisitionFiles, repo).value;
    assert forall c :: c in t ==> |t[c]| == 1 && t[c][0] == CellFor(row, c);
  }

  /** The cells of a one-row table, read off the row. */
  lemma LemmaOneRowCells(t: Table, row: Row)
    requires Rectangular(t, 1) && forall c :: c in t ==> t[c] == [CellFor(row, c)]
    ensures t[XminCol] == [JNum(row.roi.xMin)] && t[XmaxCol] == [JNum(row.roi.xMax)]
    ensures t[YminCol] == [JNum(row.roi.yMin)] && t[YmaxCol] == [JNum(row.roi.yMax)]
    ensures t[FileTypeCol] == [JStr(row.place.fileType)] && t[FileNameCol] == [JStr(row.place.fileName)]
    ensures t[ProjectCol] == [JStr(row.place.labels.project)] && t[RoiTypeCol] == [JStr(row.roiType)]
    ensures t[AreaCol] == [Statistic(row.stats, "area")]
  {
    assert XminCol in t && XmaxCol in t && YminCol in t && YmaxCol in t;
    assert FileTypeCol in t && FileNameCol in t && ProjectCol in t && RoiTypeCol in t && AreaCol in t;
  }

  /** A session holding one rectangle whose series UID names its one
      `.dcm` file curates to a one-row report: the box with its corners
      ordered, the file's name and type DICOM, the project's label, the
      bucket as ROI type and the missing statistics as 0. */
  lemma LemmaOneRectangleCurated(stem: string, uid: string, x1: real, y1: real, x2: real, y2: real)
    requires '.' !in stem && stem != [] && '_' !in uid
    ensures CurateSession(SessionInfo(Rectangle(uid, x1, y1, x2, y2)), [[Scan(stem, uid)]], Repo).Success?
    ensures var t := CurateSession(SessionInfo(Rectangle(uid, x1, y1, x2, y2)), [[Scan(stem, uid)]], Repo).value;
      && Rectangular(t, 1)
      && t[XminCol] == [JNum(Min(x1, x2))] && t[XmaxCol] == [JNum(Max(x1, x2))]
      && t[YminCol] == [JNum(Min(y1, y2))] && t[YmaxCol] == [JNum(Max(y1, y2))]
      && t[FileTypeCol] == [JStr("DICOM")] && t[FileNameCol] == [JStr(stem + ".dcm")]
      && t[ProjectCol] == [JStr("Proj")] && t[RoiTypeCol] == [JStr("RectangleRoi")]
      && t[AreaCol] == [JNum(0.0)]
  {
    var row := RectangleRow(stem, x1, y1, x2, y2);
    var info, files := SessionInfo(Rectangle(uid, x1, y1, x2, y2)), [[Scan(stem, uid)]];
    LemmaSessionRows(stem, uid, x1, y1, x2, y2);
    LemmaOneRowTable(info, files, Repo, row);
    LemmaOneRowCells(CurateSession(info, files, Repo).value, row);
  }

  /** The rectangle from (10, 20) to (50, 80) on the series of "scan.dcm":
      Xmin 10, Xmax 50, Ymin 20, Ymax 80, File Type "DICOM". */
  lemma LemmaScanRectangleCurated()
    ensures var t := CurateSession(SessionInfo(Rectangle("1.2.3", 10.0, 20.0, 50.0, 80.0)), [[Scan("scan", "1.2.3")]], Repo);
      && t.Success? && Rectangular(t.value, 1)
      && t.value[XminCol] == [JNum(10.0)] && t.value[XmaxCol] == [JNum(50.0)]
      && t.value[YminCol] == [JNum(20.0)] && t.value[YmaxCol] == [JNum(80.0)]
      && t.value[FileTypeCol] == [JStr("DICOM")]
  {
    assert '.' !in "scan" && '_' !in "1.2.3";
    LemmaOneRectangleCurated("scan", "1.2.3", 10.0, 20.0, 50.0, 80.0);
  }
}
