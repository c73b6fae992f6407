/** The ROI curator (`ROICurator`): finds ROI records in a session's or a
    file's info under the two known keys, resolves and normalises each one,
    and tabulates the accepted ones.

    - "ohifViewer": viewer format, a "measurements" dict of buckets keyed by
      shape name; only the supported shapes are read, and each record is
      resolved to a file of the session by its series UID.
    - "roi": simple format, a list of records attached to the file itself;
      only records whose `toolType` is a supported shape are read. */
module Curator {
  import opened Base
  import opened JsonValue
  import opened Containers
  import opened FileTypes
  import opened RoiRecord
  import opened Hierarchy
  import opened OutputTable

  /** `SUPPORTED_ROIS`: the viewer buckets that are read. */
  const SupportedRois: seq<string> := ["RectangleRoi", "EllipticalRoi"]

  /** The `toolType` values the simple format accepts. */
  const SupportedToolTypes: seq<string> := ["rectangleRoi", "ellipticalRoi"]

  /** The values of the successful, non-empty outcomes, in order: the rows
      a loop over the records keeps when none of them fails. */
  function Kept<T(==,!new)>(outcomes: seq<Result<Option<T>>>): (kept: seq<T>)
    ensures |kept| <= |outcomes|
    ensures forall x :: x in kept <==> exists i :: 0 <= i < |outcomes| && outcomes[i] == Success(Some(x))
  {
    if outcomes == [] then []
    else
      assert forall i :: 0 < i < |outcomes| ==> outcomes[i] == outcomes[1..][i - 1];
      (if outcomes[0].Success? && outcomes[0].value.Some? then [outcomes[0].value.value] else [])
      + Kept(outcomes[1..])
  }

  /** Records processed one after the other contribute their rows one
      after the other. */
  lemma {:induction false} LemmaKeptAppend<T(!new)>(a: seq<Result<Option<T>>>, b: seq<Result<Option<T>>>)
    ensures Kept(a + b) == Kept(a) + Kept(b)
    decreases |a|
  {
    if a == [] {
      assert a + b == b;
    } else {
      assert (a + b)[0] == a[0] && (a + b)[1..] == a[1..] + b;
      LemmaKeptAppend(a[1..], b);
    }
  }

  /** A record the loop body accepts contributes exactly its row. */
  lemma LemmaKeptSingle<T(!new)>(outcome: Result<Option<T>>)
    ensures Kept([outcome]) == if outcome.Success? && outcome.value.Some? then [outcome.value.value] else []
  {
    assert [outcome][1..] == [];
  }

  /** The loop body's outcome for every record, in order. */
  function Outcomes(records: seq<Json>, step: Json -> Result<Option<Row>>): (outcomes: seq<Result<Option<Row>>>)
    ensures |outcomes| == |records|
    ensures forall i :: 0 <= i < |records| ==> outcomes[i] == step(records[i])
  {
    seq(|records|, i requires 0 <= i < |records| => step(records[i]))
  }

  /** Applies `step` to every record in order, stopping at the first
      failure, and keeps the rows of the records that were accepted. */
  function CollectRows(records: seq<Json>, step: Json -> Result<Option<Row>>): (r: Result<seq<Row>>)
    ensures r.Success? <==> forall i :: 0 <= i < |records| ==> step(records[i]).Success?
    ensures r.Success? ==> r.value == Kept(Outcomes(records, step))
  {
    if records == [] then Success([])
    else
      var head :- step(records[0]);
      var rest :- CollectRows(records[1..], step);
      assert forall i :: 0 < i < |records| ==> records[i] == records[1..][i - 1];
      assert Outcomes(records, step)[1..] == Outcomes(records[1..], step);
      match head
      case Some(row) => Success([row] + rest)
      case None => Success(rest)
  }

  // ---------------------------------------------------------------- simple

  /** One record of the simple format (the loop body of
      `process_namespace_roi`): a supported `toolType` gives a row resolved
      to the file carrying the record; anything else gives nothing. */
  function SimpleRoiRow(record: Json, file: FileEntry, repo: Repository): (r: Result<Option<Row>>)
    ensures !record.JObj? ==> r.Failure?
    ensures (&& record.JObj?
             && Get(record.fields, "toolType") != JStr("rectangleRoi")
             && Get(record.fields, "toolType") != JStr("ellipticalRoi")) ==> r == Success(None)
    // a supported record fails exactly when its file's hierarchy, its
    // normalisation or its statistics fail, and otherwise gives its row
    ensures record.JObj? && Get(record.fields, "toolType") in [JStr("rectangleRoi"), JStr("ellipticalRoi")] ==>
      var place := FileHierarchy(file, repo);
      var roi := ProcessGenericRoi(record.fields);
      && (r.Success? <==> place.Success? && roi.Success? && roi.value.cachedStats.JObj?)
      && (r.Success? ==> r == Success(Some(Row(Located(place.value, file.name, FileType(file.name)),
                                               roi.value, roi.value.cachedStats.fields,
                                               Get(record.fields, "toolType").s))))
    ensures r.Success? && r.value.Some? ==>
      var row := r.value.value;
      && record.JObj?
      && row.roiType in SupportedToolTypes
      && Get(record.fields, "toolType") == JStr(row.roiType)
      && FileHierarchy(file, repo).Success?
      && row.place == Located(FileHierarchy(file, repo).value, file.name, FileType(file.name))
      && ProcessGenericRoi(record.fields) == Success(row.roi)
  {
    var roi :- AsMapping(record);
    var toolType := Get(roi, "toolType");
    if toolType == JStr("rectangleRoi") || toolType == JStr("ellipticalRoi") then
      var labels :- FileHierarchy(file, repo);
      var normalized :- ProcessGenericRoi(roi);
      var row :- BuildRow(Located(labels, file.name, FileType(file.name)), normalized, toolType.s);
      Success(Some(row))
    else Success(None)
  }

  /** The outcome of every simple-format record, in order. */
  function SimpleOutcomes(records: seq<Json>, file: FileEntry, repo: Repository): (outcomes: seq<Result<Option<Row>>>)
    ensures |outcomes| == |records|
    ensures forall i :: 0 <= i < |records| ==> outcomes[i] == SimpleRoiRow(records[i], file, repo)
  {
    seq(|records|, i requires 0 <= i < |records| => SimpleRoiRow(records[i], file, repo))
  }

  /** `process_namespace_roi`: the rows of a simple-format "roi" value. */
  function SimpleRows(namespace: Json, file: FileEntry, repo: Repository): (r: Result<seq<Row>>)
    ensures IterateRecords(namespace).Failure? ==> r.Failure?
    ensures IterateRecords(namespace).Success? ==>
      var records := IterateRecords(namespace).value;
      && (r.Success? <==> forall i :: 0 <= i < |records| ==> SimpleRoiRow(records[i], file, repo).Success?)
      && (r.Success? ==> r.value == Kept(SimpleOutcomes(records, file, repo)))
    ensures r.Success? ==> forall row :: row in r.value ==>
      && row.roiType in SupportedToolTypes
      && FileHierarchy(file, repo).Success?
      && row.place == Located(FileHierarchy(file, repo).value, file.name, FileType(file.name))
  {
    var records :- IterateRecords(namespace);
    var step := (record: Json) => SimpleRoiRow(record, file, repo);
    assert Outcomes(records, step) == SimpleOutcomes(records, file, repo);
    CollectRows(records, step)
  }

  // ---------------------------------------------------------------- viewer

  /** One record of a viewer bucket (the loop body of
      `process_namespace_ohifViewer`). The record is resolved to a file and
      normalised BEFORE the unresolved case is skipped, so a malformed record
      fails even when no file matches it. */
  function ViewerRoiRow(record: Json, acquisitionFiles: seq<seq<FileEntry>>, repo: Repository, bucket: string)
    : (r: Result<Option<Row>>)
    ensures !record.JObj? ==> r.Failure?
    // a record fails exactly when its resolution or its normalisation fails,
    // or when it is resolved with a group and its statistics are not a dict
    ensures record.JObj? ==>
      var place := SessionHierarchy(acquisitionFiles, record.fields, repo);
      var roi := ProcessGenericRoi(record.fields);
      r.Success? <==>
        && place.Success? && roi.Success?
        && (place.value.Some? && place.value.value.labels.group.Some? ==> roi.value.cachedStats.JObj?)
    // an unresolved record, or one whose group is None, is skipped
    ensures record.JObj? && r.Success? ==>
      var place := SessionHierarchy(acquisitionFiles, record.fields, repo).value;
      (r.value.None? <==> place.None? || place.value.labels.group.None?)
    // a resolved record gives its row
    ensures r.Success? && r.value.Some? ==>
      var row := r.value.value;
      var roi := ProcessGenericRoi(record.fields).value;
      && record.JObj?
      && SessionHierarchy(acquisitionFiles, record.fields, repo) == Success(Some(row.place))
      && row.place.labels.group.Some?
      && row == Row(row.place, roi, roi.cachedStats.fields, bucket)
  {
    var roi :- AsMapping(record);
    var place :- SessionHierarchy(acquisitionFiles, roi, repo);
    var normalized :- ProcessGenericRoi(roi);
    if place.None? || place.value.labels.group.None? then Success(None)
    else
      var row :- BuildRow(place.value, normalized, bucket);
      Success(Some(row))
  }

  /** The outcome of every record of a viewer bucket, in order. */
  function ViewerOutcomes(records: seq<Json>, acquisitionFiles: seq<seq<FileEntry>>, repo: Repository, bucket: string)
    : (outcomes: seq<Result<Option<Row>>>)
    ensures |outcomes| == |records|
    ensures forall i :: 0 <= i < |records| ==> outcomes[i] == ViewerRoiRow(records[i], acquisitionFiles, repo, bucket)
  {
    seq(|records|, i requires 0 <= i < |records| => ViewerRoiRow(records[i], acquisitionFiles, repo, bucket))
  }

  /** The rows of one supported bucket, or none when the bucket is absent. */
  function BucketRows(measurements: map<string, Json>, bucket: string, acquisitionFiles: seq<seq<FileEntry>>, repo: Repository)
    : (r: Result<seq<Row>>)
    ensures bucket !in measurements ==> r == Success([])
    ensures bucket in measurements && IterateRecords(measurements[bucket]).Failure? ==> r.Failure?
    ensures bucket in measurements && IterateRecords(measurements[bucket]).Success? ==>
      var records := IterateRecords(measurements[bucket]).value;
      && (r.Success? <==> forall i :: 0 <= i < |records| ==> ViewerRoiRow(records[i], acquisitionFiles, repo, bucket).Success?)
      && (r.Success? ==> r.value == Kept(ViewerOutcomes(records, acquisitionFiles, repo, bucket)))
    ensures r.Success? ==> forall row :: row in r.value ==> row.roiType == bucket
  {
    if bucket !in measurements then Success([])
    else
      var records :- IterateRecords(measurements[bucket]);
      var step := (record: Json) => ViewerRoiRow(record, acquisitionFiles, repo, bucket);
      assert Outcomes(records, step) == ViewerOutcomes(records, acquisitionFiles, repo, bucket);
      CollectRows(records, step)
  }

  /** `process_namespace_ohifViewer`: only the supported buckets are read,
      rectangles first. */
  function ViewerRows(measurements: map<string, Json>, acquisitionFiles: seq<seq<FileEntry>>, repo: Repository)
    : (r: Result<seq<Row>>)
    ensures
      var rectangles := BucketRows(measurements, "RectangleRoi", acquisitionFiles, repo);
      var ellipses := BucketRows(measurements, "EllipticalRoi", acquisitionFiles, repo);
      && (r.Success? <==> rectangles.Success? && ellipses.Success?)
      && (r.Success? ==> r.value == rectangles.value + ellipses.value)
    ensures r.Success? ==> forall row :: row in r.value ==> row.roiType in SupportedRois
    ensures (forall b :: b in SupportedRois ==> b !in measurements) ==> r == Success([])
  {
    var rectangles :- BucketRows(measurements, "RectangleRoi", acquisitionFiles, repo);
    var ellipses :- BucketRows(measurements, "EllipticalRoi", acquisitionFiles, repo);
    assert "RectangleRoi" in SupportedRois && "EllipticalRoi" in SupportedRois;
    assert rectangles == [] && ellipses == [] ==> rectangles + ellipses == [];
    Success(rectangles + ellipses)
  }

  /** Buckets of unsupported shapes are ignored: only the supported ones
      affect the outcome. */
  lemma LemmaUnsupportedBucketsIgnored(measurements: map<string, Json>, acquisitionFiles: seq<seq<FileEntry>>, repo: Repository)
    ensures ViewerRows(measurements, acquisitionFiles, repo)
         == ViewerRows(map b | b in measurements && b in SupportedRois :: measurements[b], acquisitionFiles, repo)
  {
    var supported := map b | b in measurements && b in SupportedRois :: measurements[b];
    assert "RectangleRoi" in SupportedRois && "EllipticalRoi" in SupportedRois;
    assert BucketRows(measurements, "RectangleRoi", acquisitionFiles, repo)
        == BucketRows(supported, "RectangleRoi", acquisitionFiles, repo);
    assert BucketRows(measurements, "EllipticalRoi", acquisitionFiles, repo)
        == BucketRows(supported, "EllipticalRoi", acquisitionFiles, repo);
  }

  // ---------------------------------------------------------------- curate

  /** The rows `curate_session` finds: the viewer format only. */
  function SessionRows(info: map<string, Json>, acquisitionFiles: seq<seq<FileEntry>>, repo: Repository)
    : (r: Result<seq<Row>>)
    ensures "ohifViewer" !in info ==> r == Success([])
    ensures "ohifViewer" in info && !info["ohifViewer"].JObj? ==> r.Failure?
    // otherwise the rows are those of the "measurements" dict (default empty)
    ensures "ohifViewer" in info && info["ohifViewer"].JObj? ==>
      var measurements := GetOr(info["ohifViewer"].fields, "measurements", EmptyObject);
      && (!measurements.JObj? ==> r.Failure?)
      && (measurements.JObj? ==> r == ViewerRows(measurements.fields, acquisitionFiles, repo))
    ensures r.Success? ==> forall row :: row in r.value ==> row.roiType in SupportedRois
  {
    if "ohifViewer" !in info then Success([])
    else
      var viewer :- AsMapping(info["ohifViewer"]);
      var measurements :- AsMapping(GetOr(viewer, "measurements", EmptyObject));
      ViewerRows(measurements, acquisitionFiles, repo)
  }

  /** `curate_session`: the session's (refreshed) info and the files of its
      acquisitions in listing order give a table with one entry per accepted
      ROI in every column. */
  function CurateSession(info: map<string, Json>, acquisitionFiles: seq<seq<FileEntry>>, repo: Repository)
    : (r: Result<Table>)
    ensures r.Success? <==> SessionRows(info, acquisitionFiles, repo).Success?
    ensures r.Success? ==>
      var rows := SessionRows(info, acquisitionFiles, repo).value;
      && Rectangular(r.value, |rows|)
      && forall c, i :: c in r.value && 0 <= i < |rows| ==> r.value[c][i] == CellFor(rows[i], c)
  {
    var rows :- SessionRows(info, acquisitionFiles, repo);
    Success(Tabulate(rows))
  }

  /** A session's simple-format "roi" entry is not read. */
  lemma LemmaSessionIgnoresSimpleFormat(info: map<string, Json>, acquisitionFiles: seq<seq<FileEntry>>, repo: Repository)
    ensures CurateSession(info, acquisitionFiles, repo) == CurateSession(info - {"roi"}, acquisitionFiles, repo)
  {
    var info' := info - {"roi"};
    assert "ohifViewer" in info <==> "ohifViewer" in info';
    if "ohifViewer" in info {
      assert info["ohifViewer"] == info'["ohifViewer"];
    }
  }

  /** The rows `curate_file` finds. Viewer-format info on a file whose parent
      has a session reaches the undefined global `fw` and fails; without a
      session it is skipped. The simple format is then read. */
  function FileRows(file: FileEntry, repo: Repository): (r: Result<seq<Row>>)
    ensures "ohifViewer" in file.info && file.info["ohifViewer"].JObj? && file.parent.parents.session.Some?
      ==> r == Failure(UndefinedClient)
    ensures "ohifViewer" !in file.info && "roi" !in file.info ==> r == Success([])
    // a non-dict "ohifViewer" fails; otherwise, without a session, the rows
    // are those of the simple-format "roi" value
    ensures "ohifViewer" in file.info && !file.info["ohifViewer"].JObj? ==> r.Failure?
    ensures ("ohifViewer" !in file.info || (file.info["ohifViewer"].JObj? && file.parent.parents.session.None?)) ==>
      r == if "roi" in file.info then SimpleRows(file.info["roi"], file, repo) else Success([])
    ensures r.Success? ==> forall row :: row in r.value ==>
      && row.roiType in SupportedToolTypes
      && FileHierarchy(file, repo).Success?
      && row.place == Located(FileHierarchy(file, repo).value, file.name, FileType(file.name))
  {
    var _ :-
      if "ohifViewer" in file.info then
        var viewer :- AsMapping(file.info["ohifViewer"]);
        if file.parent.parents.session.Some? then Failure(UndefinedClient) else Success(())
      else Success(());
    if "roi" in file.info then SimpleRows(file.info["roi"], file, repo) else Success([])
  }

  /** `curate_file`. */
  function CurateFile(file: FileEntry, repo: Repository): (r: Result<Table>)
    ensures r.Success? <==> FileRows(file, repo).Success?
    ensures r.Success? ==>
      var rows := FileRows(file, repo).value;
      && Rectangular(r.value, |rows|)
      && forall c, i :: c in r.value && 0 <= i < |rows| ==> r.value[c][i] == CellFor(rows[i], c)
  {
    var rows :- FileRows(file, repo);
    Success(Tabulate(rows))
  }
}
