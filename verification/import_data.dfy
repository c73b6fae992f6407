/** The metadata import (`import_data.py`): reading a dotted metadata path
    off a container, nesting a sheet row under a destination path, and the
    per-row loop that finds the one container a row belongs to and merges
    the row into that container's info.

    The containers arrive as a list (the repository query that produces it
    is not part of this model); each carries the attributes the import reads
    (`label` or `name`) and its info dict. Writing the merged info back to
    the repository is modelled by replacing the container's info in the
    list, which is what the in-place merge does to the object that later
    rows see. */
module ImportData {
  import opened Base
  import opened JsonValue
  import opened Text
  import opened Merge

  // ------------------------------------------------------------ expand_metadata

  /** A dotted path read the plain way: `None` as soon as a step is not a
      dict holding the next key. */
  function PathValue(j: Json, path: seq<string>): (r: Option<Json>)
    decreases |path|
  {
    if path == [] then Some(j)
    else if j.JObj? && path[0] in j.fields then PathValue(j.fields[path[0]], path[1..])
    else None
  }

  /** The loop of `expand_metadata` from the value `first` named: each step
      calls `.get` (which raises on anything but a dict) and gives up with
      `None` at the first missing or falsy value. */
  function ExpandPath(current: Json, path: seq<string>): (r: Result<Json>)
    decreases |path|
    ensures path == [] ==> r == Success(current)
    ensures r.Failure? ==> r.error == NotAMapping
    // past the first segment the result is a truthy value or None
    ensures r.Success? && path != [] ==> r.value == JNull || Truthy(r.value)
    // the first step raises exactly when the starting value is not a dict
    ensures path != [] && !current.JObj? ==> r == Failure(NotAMapping)
    // a missing or falsy value under the first segment gives None
    ensures path != [] && current.JObj? && !Truthy(Get(current.fields, path[0])) ==> r == Success(JNull)
  {
    if path == [] then Success(current)
    else
      var m :- AsMapping(current);
      var v := Get(m, path[0]);
      if Truthy(v) then ExpandPath(v, path[1..]) else Success(JNull)
  }

  /** The value the loop of `expand_metadata` holds after `i` steps, when
      every one of those steps found a dict holding a truthy value. */
  function Reached(current: Json, path: seq<string>, i: nat): Option<Json>
    requires i <= |path|
    decreases i
  {
    if i == 0 then Some(current)
    else if current.JObj? && Truthy(Get(current.fields, path[0])) then
      Reached(Get(current.fields, path[0]), path[1..], i - 1)
    else None
  }

  /** Some step of the loop calls `.get` on a value that is not a dict. */
  predicate HitsNonMapping(current: Json, path: seq<string>) {
    exists i :: 0 <= i < |path| && Reached(current, path, i).Some? && !Reached(current, path, i).value.JObj?
  }

  /** Some step of the loop finds its key missing or its value falsy. */
  predicate StopsEarly(current: Json, path: seq<string>) {
    exists i :: 0 <= i < |path| && Reached(current, path, i).Some? && Reached(current, path, i).value.JObj?
      && !Truthy(Get(Reached(current, path, i).value.fields, path[i]))
  }

  /** The loop raises exactly when it reaches a value that is not a dict,
      and gives None exactly when it meets a missing or falsy value first. */
  lemma {:induction false} LemmaExpandOutcome(current: Json, path: seq<string>)
    ensures ExpandPath(current, path).Failure? <==> HitsNonMapping(current, path)
    ensures ExpandPath(current, path) == Success(JNull) <==> StopsEarly(current, path) || (path == [] && current == JNull)
    decreases |path|
  {
    if path != [] {
      assert Reached(current, path, 0) == Some(current);
      if current.JObj? {
        var v := Get(current.fields, path[0]);
        if Truthy(v) {
          LemmaExpandOutcome(v, path[1..]);
          forall i | 0 < i <= |path|
            ensures Reached(current, path, i) == Reached(v, path[1..], i - 1)
          {
          }
          if HitsNonMapping(v, path[1..]) {
            var j :| 0 <= j < |path| - 1 && Reached(v, path[1..], j).Some? && !Reached(v, path[1..], j).value.JObj?;
            assert Reached(current, path, j + 1) == Reached(v, path[1..], j);
          }
          if HitsNonMapping(current, path) {
            var i :| 0 <= i < |path| && Reached(current, path, i).Some? && !Reached(current, path, i).value.JObj?;
            assert i > 0;
            assert Reached(v, path[1..], i - 1) == Reached(current, path, i);
          }
          if StopsEarly(v, path[1..]) {
            var j :| 0 <= j < |path| - 1 && Reached(v, path[1..], j).Some? && Reached(v, path[1..], j).value.JObj?
              && !Truthy(Get(Reached(v, path[1..], j).value.fields, path[1..][j]));
            assert Reached(current, path, j + 1) == Reached(v, path[1..], j);
            assert path[j + 1] == path[1..][j];
          }
          if StopsEarly(current, path) {
            var i :| 0 <= i < |path| && Reached(current, path, i).Some? && Reached(current, path, i).value.JObj?
              && !Truthy(Get(Reached(current, path, i).value.fields, path[i]));
            assert i > 0;
            assert Reached(v, path[1..], i - 1) == Reached(current, path, i);
            assert path[1..][i - 1] == path[i];
          }
          if path[1..] == [] {
            assert !Truthy(JNull);
          }
        } else {
          assert StopsEarly(current, path);
          forall i | 0 < i < |path| ensures Reached(current, path, i).None? {}
        }
      }
    }
  }

  /** `expand_metadata(meta_string, container)`: the first dotted segment
      names an attribute (`getattr` raises when there is none), the rest are
      looked up inside it. */
  function ExpandMetadata(metaString: string, attributes: map<string, Json>): (r: Result<Json>)
    ensures Split(metaString, '.')[0] !in attributes <==> r == Failure(MissingAttribute)
    ensures r.Failure? ==> r.error in {MissingAttribute, NotAMapping}
    // past the attribute: a raise means a non-dict on the path, None a missing or falsy value
    ensures var metas := Split(metaString, '.');
      metas[0] in attributes ==>
        && (r.Failure? <==> HitsNonMapping(attributes[metas[0]], metas[1..]))
        && (r == Success(JNull) <==>
              StopsEarly(attributes[metas[0]], metas[1..]) || (metas[1..] == [] && attributes[metas[0]] == JNull))
  {
    var metas := Split(metaString, '.');
    if metas[0] !in attributes then Failure(MissingAttribute)
    else
      LemmaExpandOutcome(attributes[metas[0]], metas[1..]);
      ExpandPath(attributes[metas[0]], metas[1..])
  }

  /** A path of one segment reads the attribute itself, whatever its value
      (even a falsy one). */
  lemma LemmaExpandAttributeOnly(name: string, attributes: map<string, Json>)
    requires '.' !in name && name in attributes
    ensures ExpandMetadata(name, attributes) == Success(attributes[name])
  {
    LemmaSplitNoSeparator(name, '.');
  }

  /** Where every value along the path is present, the lookup finds the
      plain reading, provided that reading is truthy. */
  lemma {:induction false} LemmaExpandFinds(j: Json, path: seq<string>, v: Json)
    requires PathValue(j, path) == Some(v)
    requires path != [] ==> Truthy(v)
    ensures ExpandPath(j, path) == Success(v)
    decreases |path|
  {
    if path != [] {
      var next := j.fields[path[0]];
      if path[1..] != [] {
        LemmaPathValueTruthyStep(next, path[1..], v);
      }
      LemmaExpandFinds(next, path[1..], v);
    }
  }

  /** A dict that holds the rest of a non-empty path is itself non-empty. */
  lemma LemmaPathValueTruthyStep(j: Json, path: seq<string>, v: Json)
    requires path != [] && PathValue(j, path) == Some(v)
    ensures Truthy(j)
  {
    assert path[0] in j.fields;
  }

  /** Conversely, a value the lookup returns is the plain reading. */
  lemma {:induction false} LemmaExpandSound(j: Json, path: seq<string>)
    requires ExpandPath(j, path).Success? && ExpandPath(j, path).value != JNull
    ensures PathValue(j, path) == Some(ExpandPath(j, path).value)
    decreases |path|
  {
    if path != [] {
      LemmaExpandSound(j.fields[path[0]], path[1..]);
    }
  }

  // ------------------------------------------------------------ the destination

  /** `metadata_destination.split('.')` with one leading "info" dropped. */
  function Destination(metadataDestination: string): (levels: seq<string>)
    ensures Split(metadataDestination, '.')[0] == "info" ==> [ "info" ] + levels == Split(metadataDestination, '.')
    ensures Split(metadataDestination, '.')[0] != "info" ==> levels == Split(metadataDestination, '.')
  {
    var levels := Split(metadataDestination, '.');
    if levels[0] == "info" then levels[1..] else levels
  }

  /** "info.l1...ln" names the levels l1...ln; "info" alone names none, so
      the row data is merged into the info dict unwrapped. */
  lemma LemmaDestinationLevels(levels: seq<string>)
    requires forall i :: 0 <= i < |levels| ==> '.' !in levels[i]
    ensures Destination(Join(["info"] + levels, '.')) == levels
    ensures levels == [] ==> Join(["info"] + levels, '.') == "info"
  {
    var parts := ["info"] + levels;
    forall i | 0 <= i < |parts|
      ensures '.' !in parts[i]
    {
      if i > 0 {
        assert parts[i] == levels[i - 1];
      }
    }
    LemmaSplitJoin(parts, '.');
    assert parts[1..] == levels;
  }

  /** The data placed under the levels: `result[l1]...[ln] == data`. */
  function Nest(levels: seq<string>, data: map<string, Json>): (r: map<string, Json>)
    ensures levels == [] ==> r == data
    ensures levels != [] ==> r.Keys == {levels[0]}
  {
    if levels == [] then data else map[levels[0] := JObj(Nest(levels[1..], data))]
  }

  /** Nesting one level deeper inside. */
  lemma {:induction false} LemmaNestSnoc(levels: seq<string>, l: string, data: map<string, Json>)
    ensures Nest(levels + [l], data) == Nest(levels, map[l := JObj(data)])
    decreases |levels|
  {
    if levels == [] {
      assert [] + [l] == [l];
    } else {
      assert (levels + [l])[1..] == levels[1..] + [l];
      LemmaNestSnoc(levels[1..], l, data);
    }
  }

  /** The wrapping `while levels:` loop, which pops the innermost level
      first. */
  method NestLoop(levels: seq<string>, rowData: map<string, Json>) returns (data: map<string, Json>)
    ensures PathValue(JObj(data), levels) == Some(JObj(rowData))
    ensures data == Nest(levels, rowData)
  {
    data := rowData;
    var remaining := levels;
    while remaining != []
      invariant Nest(remaining, data) == Nest(levels, rowData)
      decreases |remaining|
    {
      var l := remaining[|remaining| - 1];
      LemmaNestSnoc(remaining[..|remaining| - 1], l, data);
      assert remaining == remaining[..|remaining| - 1] + [l];
      var info := map[l := JObj(data)];
      data := info;
      remaining := remaining[..|remaining| - 1];
    }
    LemmaNestPath(levels, rowData);
  }

  /** Reading the levels back out of the nested data gives the row data. */
  lemma {:induction false} LemmaNestPath(levels: seq<string>, data: map<string, Json>)
    ensures PathValue(JObj(Nest(levels, data)), levels) == Some(JObj(data))
    decreases |levels|
  {
    if levels != [] {
      LemmaNestPath(levels[1..], data);
    }
  }

  /** Round trip: data imported under `info.l1...ln` is what
      `expand_metadata("info.l1...ln", container)` reads back from a
      container whose info is exactly that import. */
  lemma LemmaImportThenExpand(levels: seq<string>, data: map<string, Json>, attributes: map<string, Json>)
    requires data != map[]
    requires forall i :: 0 <= i < |levels| ==> '.' !in levels[i]
    requires "info" in attributes && attributes["info"] == JObj(Nest(levels, data))
    ensures ExpandMetadata(Join(["info"] + levels, '.'), attributes) == Success(JObj(data))
  {
    var parts := ["info"] + levels;
    forall i | 0 <= i < |parts|
      ensures '.' !in parts[i]
    {
      if i > 0 {
        assert parts[i] == levels[i - 1];
      }
    }
    LemmaSplitJoin(parts, '.');
    assert parts[1..] == levels;
    LemmaNestPath(levels, data);
    LemmaExpandFinds(JObj(Nest(levels, data)), levels, JObj(data));
  }

  // ------------------------------------------------------------ one row

  /** The status column of the report: 'Failed', 'Dry-Run Success' or
      'Success'. */
  datatype GearStatus = Failed | DryRunSuccess | Succeeded

  /** A candidate container: the attributes `.get` reads and its info. */
  datatype Target = Target(attributes: map<string, Json>, info: map<string, Json>)

  /** The arguments of `import_data`. */
  datatype ImportOptions = ImportOptions(
    mappingColumn: string,
    getFiles: bool,
    metadataDestination: string,
    overwrite: bool,
    dryRun: bool)

  /** The attribute compared with the mapping value: files by name, other
      containers by label. */
  function NameKey(getFiles: bool): string {
    if getFiles then "name" else "label"
  }

  /** The row as the loop sees it: the two report columns the import adds to
      the sheet are popped first. */
  function UploadObject(row: map<string, Json>): (r: map<string, Json>)
    ensures r.Keys == row.Keys - {"Gear_Status", "Gear_FW_Location"}
    ensures forall k :: k in r ==> r[k] == row[k]
  {
    map k | k in row && k != "Gear_Status" && k != "Gear_FW_Location" :: row[k]
  }

  /** The positions of the candidates whose name or label equals the
      mapping value, in list order. */
  function Matches(targets: seq<Target>, key: string, objectName: Json): (r: seq<nat>)
    ensures forall a :: 0 <= a < |r| ==> r[a] < |targets| && Get(targets[r[a]].attributes, key) == objectName
    ensures forall j :: 0 <= j < |targets| && Get(targets[j].attributes, key) == objectName ==> j in r
    ensures forall a, b :: 0 <= a < b < |r| ==> r[a] < r[b]
  {
    if targets == [] then []
    else
      var init := targets[..|targets| - 1];
      var j := |targets| - 1;
      assert forall i :: 0 <= i < j ==> init[i] == targets[i];
      var front := Matches(init, key, objectName);
      assert forall a :: 0 <= a < |front| ==> front[a] < j;
      front + if Get(targets[j].attributes, key) == objectName then [j] else []
  }

  /** Only the attributes decide the matches. */
  lemma {:induction false} LemmaMatchesByAttributes(a: seq<Target>, b: seq<Target>, key: string, objectName: Json)
    requires |a| == |b|
    requires forall i :: 0 <= i < |a| ==> a[i].attributes == b[i].attributes
    ensures Matches(a, key, objectName) == Matches(b, key, objectName)
    decreases |a|
  {
    if a != [] {
      var n := |a| - 1;
      LemmaMatchesByAttributes(a[..n], b[..n], key, objectName);
    }
  }

  /** `data = upload_obj.to_dict(); data.pop(mapping_column)`. */
  function RowData(upload: map<string, Json>, mappingColumn: string): (r: Result<map<string, Json>>)
    ensures r.Success? <==> mappingColumn in upload
    ensures r.Success? ==> r.value.Keys == upload.Keys - {mappingColumn}
    ensures r.Success? ==> forall k :: k in r.value ==> r.value[k] == upload[k]
    ensures r.Failure? ==> r.error == MissingKey
  {
    if mappingColumn !in upload then Failure(MissingKey)
    else Success(map k | k in upload && k != mappingColumn :: upload[k])
  }

  /** The mapping value of a row (`None` when the sheet has no such column). */
  function ObjectName(row: map<string, Json>, mappingColumn: string): Json {
    Get(UploadObject(row), mappingColumn)
  }

  /** Exactly one container answers to the row's mapping value. */
  predicate SingleMatch(row: map<string, Json>, targets: seq<Target>, opts: ImportOptions) {
    |Matches(targets, NameKey(opts.getFiles), ObjectName(row, opts.mappingColumn))| == 1
  }

  /** The position of the one container that answers to the row. */
  function MatchedIndex(row: map<string, Json>, targets: seq<Target>, opts: ImportOptions): (j: nat)
    requires SingleMatch(row, targets, opts)
    ensures j < |targets| && Get(targets[j].attributes, NameKey(opts.getFiles)) == ObjectName(row, opts.mappingColumn)
  {
    Matches(targets, NameKey(opts.getFiles), ObjectName(row, opts.mappingColumn))[0]
  }

  /** The matched container's info with the row's nested data merged in. */
  function Merged(row: map<string, Json>, targets: seq<Target>, opts: ImportOptions): Result<Json>
    requires SingleMatch(row, targets, opts) && opts.mappingColumn in UploadObject(row)
  {
    var data := RowData(UploadObject(row), opts.mappingColumn).value;
    Update(JObj(targets[MatchedIndex(row, targets, opts)].info), Nest(Destination(opts.metadataDestination), data), opts.overwrite)
  }

  /** Whether the loop body gets through a row without raising. */
  predicate Applies(row: map<string, Json>, targets: seq<Target>, opts: ImportOptions) {
    && SingleMatch(row, targets, opts)
    && opts.mappingColumn in UploadObject(row)
    && (opts.dryRun || Merged(row, targets, opts).Success?)
  }

  /** One pass of the row loop: the row's status and the containers after
      it. Any exception the body raises leaves the row 'Failed'. */
  function ImportRow(row: map<string, Json>, targets: seq<Target>, opts: ImportOptions): (r: (GearStatus, seq<Target>))
    ensures |r.1| == |targets|
    ensures forall j :: 0 <= j < |targets| ==> r.1[j].attributes == targets[j].attributes
    // a row is applied (or dry-run applied) exactly when one container
    // matches, the row has the mapping column, and, outside a dry run, the
    // merge into that container's info succeeds
    ensures r.0 != Failed <==> Applies(row, targets, opts)
    // a row is applied only when exactly one container matches
    ensures r.0 != Failed ==>
      |Matches(targets, NameKey(opts.getFiles), ObjectName(row, opts.mappingColumn))| == 1
    // zero or several matches leave the row Failed
    ensures |Matches(targets, NameKey(opts.getFiles), ObjectName(row, opts.mappingColumn))| != 1 ==> r.0 == Failed
    // a missing mapping column fails the row even when something matched
    ensures opts.mappingColumn !in UploadObject(row) ==> r.0 == Failed
    // a dry run never changes a container, and only a dry run reports 'Dry-Run Success'
    ensures opts.dryRun ==> r.1 == targets && r.0 != Succeeded
    ensures !opts.dryRun ==> r.0 != DryRunSuccess
    // a row that is not applied changes nothing
    ensures r.0 != Succeeded ==> r.1 == targets
    // an applied row merges its nested data into the matched container's info
    ensures r.0 == Succeeded ==>
      && SingleMatch(row, targets, opts) && opts.mappingColumn in UploadObject(row)
      && var j := MatchedIndex(row, targets, opts);
         var merged := Merged(row, targets, opts);
         && merged.Success?
         && r.1 == targets[j := Target(targets[j].attributes, merged.value.fields)]
  {
    var upload := UploadObject(row);
    var matches := Matches(targets, NameKey(opts.getFiles), Get(upload, opts.mappingColumn));
    if |matches| != 1 then (Failed, targets)
    else
      var j := matches[0];
      assert j < |targets|;
      match RowData(upload, opts.mappingColumn)
      case Failure(_) => (Failed, targets)
      case Success(data) =>
        var nested := Nest(Destination(opts.metadataDestination), data);
        if opts.dryRun then (DryRunSuccess, targets)
        else
          match Update(JObj(targets[j].info), nested, opts.overwrite)
          case Failure(_) => (Failed, targets)
          case Success(info) => (Succeeded, targets[j := Target(targets[j].attributes, info.fields)])
  }

  // ------------------------------------------------------------ the row loop

  /** How many rows were applied or dry-run applied. */
  function CountApplied(statuses: seq<GearStatus>): (n: nat)
    ensures n <= |statuses|
  {
    if statuses == [] then 0
    else CountApplied(statuses[..|statuses| - 1]) + if statuses[|statuses| - 1] != Failed then 1 else 0
  }

  /** The final report's percentage as written: `success_counter/nrows*100`,
      which raises on a sheet without rows. */
  function FinalReportAsWritten(successes: nat, nrows: nat): (r: Result<real>)
    ensures r.Failure? <==> nrows == 0
    ensures r.Failure? ==> r.error == ZeroDivision
    ensures r.Success? ==> r.value * (nrows as real) == (successes as real) * 100.0
  {
    if nrows == 0 then Failure(ZeroDivision)
    else Success((successes as real) / (nrows as real) * 100.0)
  }

  /** An empty sheet makes the import raise after its loop, so the status
      report is never returned: with no rows the counter is 0 and the
      division is 0/0. */
  lemma LemmaEmptySheetRaises(statuses: seq<GearStatus>)
    requires statuses == []
    ensures FinalReportAsWritten(CountApplied(statuses), |statuses|) == Failure(ZeroDivision)
  {
  }

  /** The final report's percentage, with no percentage for an empty sheet. */
  function FinalReport(successes: nat, nrows: nat): (r: Option<real>)
    ensures r.None? <==> nrows == 0
    ensures r.Some? ==> r.value * (nrows as real) == (successes as real) * 100.0
    ensures r.Some? && successes <= nrows ==> 0.0 <= r.value <= 100.0
  {
    if nrows == 0 then None
    else
      var p := (successes as real) / (nrows as real) * 100.0;
      assert p * (nrows as real) == (successes as real) * 100.0;
      Some(p)
  }

  /** The corrected report agrees with the one as written wherever that one
      does not raise. */
  lemma LemmaFinalReportAgrees(successes: nat, nrows: nat)
    requires nrows > 0
    ensures FinalReportAsWritten(successes, nrows) == Success(FinalReport(successes, nrows).value)
  {
  }

  /** Only the attributes decide whether a row has a single match. */
  lemma LemmaSingleMatchByAttributes(row: map<string, Json>, a: seq<Target>, b: seq<Target>, opts: ImportOptions)
    requires |a| == |b|
    requires forall i :: 0 <= i < |a| ==> a[i].attributes == b[i].attributes
    ensures SingleMatch(row, a, opts) == SingleMatch(row, b, opts)
  {
    LemmaMatchesByAttributes(a, b, NameKey(opts.getFiles), ObjectName(row, opts.mappingColumn));
  }

  lemma LemmaCountSnoc(statuses: seq<GearStatus>, s: GearStatus)
    ensures CountApplied(statuses + [s]) == CountApplied(statuses) + if s != Failed then 1 else 0
  {
    assert (statuses + [s])[..|statuses|] == statuses;
  }

  /** A loop over rows that threads a state through a step giving each row
      a status: the statuses in row order and the final state. */
  function Fold<R, S>(rows: seq<R>, init: S, step: (R, S) -> (GearStatus, S)): (r: (seq<GearStatus>, S))
    ensures |r.0| == |rows|
  {
    if rows == [] then ([], init)
    else
      var before := Fold(rows[..|rows| - 1], init, step);
      var last := step(rows[|rows| - 1], before.1);
      (before.0 + [last.0], last.1)
  }

  /** Row i's status is what the step gives it on the state the first i
      rows left. */
  lemma {:induction false} LemmaFoldStatus<R, S>(rows: seq<R>, init: S, step: (R, S) -> (GearStatus, S), i: nat)
    requires i < |rows|
    ensures Fold(rows, init, step).0[i] == step(rows[i], Fold(rows[..i], init, step).1).0
    decreases |rows|
  {
    var n := |rows| - 1;
    if i < n {
      LemmaFoldStatus(rows[..n], init, step, i);
      assert rows[..n][..i] == rows[..i];
    } else {
      assert rows[..i] == rows[..n];
    }
  }

  /** The loop body of `import_data` as a step. */
  function RowStep(opts: ImportOptions): (map<string, Json>, seq<Target>) -> (GearStatus, seq<Target>) {
    (row, targets) => ImportRow(row, targets, opts)
  }

  /** The rows applied one after the other: each row's status, and the
      containers as the whole sheet leaves them. */
  function ImportRows(rows: seq<map<string, Json>>, targets: seq<Target>, opts: ImportOptions)
    : (r: (seq<GearStatus>, seq<Target>))
    ensures |r.0| == |rows|
  {
    Fold(rows, targets, RowStep(opts))
  }

  /** Row i is applied exactly when the loop body gets through it on the
      containers as the rows before it left them. */
  lemma LemmaImportRowsStatus(rows: seq<map<string, Json>>, targets: seq<Target>, opts: ImportOptions, i: nat)
    requires i < |rows|
    ensures ImportRows(rows, targets, opts).0[i] != Failed
        <==> Applies(rows[i], ImportRows(rows[..i], targets, opts).1, opts)
  {
    LemmaFoldStatus(rows, targets, RowStep(opts), i);
    var before := ImportRows(rows[..i], targets, opts).1;
    assert ImportRows(rows, targets, opts).0[i] == ImportRow(rows[i], before, opts).0;
  }

  /** The rows never change a container's attributes, and a dry run
      changes no container at all and reports no update success. */
  lemma {:induction false} LemmaImportRowsKeep(rows: seq<map<string, Json>>, targets: seq<Target>, opts: ImportOptions)
    ensures var r := ImportRows(rows, targets, opts);
      && |r.1| == |targets|
      && (forall j :: 0 <= j < |targets| ==> r.1[j].attributes == targets[j].attributes)
      && (opts.dryRun ==> r.1 == targets && forall k :: 0 <= k < |rows| ==> r.0[k] != Succeeded)
    decreases |rows|
  {
    if rows != [] {
      var n := |rows| - 1;
      LemmaImportRowsKeep(rows[..n], targets, opts);
      var before := ImportRows(rows[..n], targets, opts);
      var last := ImportRow(rows[n], before.1, opts);
      assert ImportRows(rows, targets, opts) == (before.0 + [last.0], last.1);
    }
  }

  /** Which rows are applied: those the loop body gets through on the
      containers the earlier rows left, each with exactly one match among
      the original candidates. */
  lemma LemmaImportRowsApplied(rows: seq<map<string, Json>>, targets: seq<Target>, opts: ImportOptions)
    ensures var statuses := ImportRows(rows, targets, opts).0;
      forall i :: 0 <= i < |rows| ==>
        && (statuses[i] != Failed <==> Applies(rows[i], ImportRows(rows[..i], targets, opts).1, opts))
        && (statuses[i] != Failed ==> SingleMatch(rows[i], targets, opts))
  {
    forall i | 0 <= i < |rows|
      ensures var statuses := ImportRows(rows, targets, opts).0;
        && (statuses[i] != Failed <==> Applies(rows[i], ImportRows(rows[..i], targets, opts).1, opts))
        && (statuses[i] != Failed ==> SingleMatch(rows[i], targets, opts))
    {
      LemmaImportRowsStatus(rows, targets, opts, i);
      LemmaImportRowsKeep(rows[..i], targets, opts);
      LemmaSingleMatchByAttributes(rows[i], ImportRows(rows[..i], targets, opts).1, targets, opts);
    }
  }

  /** One pass of the row loop, with only what the loop needs to know. */
  method ApplyRow(row: map<string, Json>, targets: seq<Target>, opts: ImportOptions)
    returns (status: GearStatus, next: seq<Target>)
    ensures (status, next) == ImportRow(row, targets, opts)
    ensures status != Failed <==> Applies(row, targets, opts)
    ensures |next| == |targets|
    ensures forall j :: 0 <= j < |targets| ==> next[j].attributes == targets[j].attributes
    ensures status != Failed ==> SingleMatch(row, targets, opts)
    ensures opts.dryRun ==> next == targets && status != Succeeded
  {
    var r := ImportRow(row, targets, opts);
    status, next := r.0, r.1;
  }

  /** `import_data`: every row in order, each with the containers as the
      rows before it left them. */
  method ImportAll(rows: seq<map<string, Json>>, targets: seq<Target>, opts: ImportOptions)
    returns (statuses: seq<GearStatus>, updated: seq<Target>, successes: nat, report: Option<real>)
    ensures |statuses| == |rows|
    // the statuses and the containers are those of the rows applied in order
    ensures (statuses, updated) == ImportRows(rows, targets, opts)
    ensures forall i :: 0 <= i < |rows| ==>
      (statuses[i] != Failed <==> Applies(rows[i], ImportRows(rows[..i], targets, opts).1, opts))
    // the counter counts the rows applied, so it never exceeds the row count
    ensures successes == CountApplied(statuses) && successes <= |rows|
    ensures report == FinalReport(successes, |rows|)
    ensures report.Some? ==> 0.0 <= report.value <= 100.0
    // every applied row had exactly one match among the containers
    ensures forall i :: 0 <= i < |rows| && statuses[i] != Failed ==> SingleMatch(rows[i], targets, opts)
    // the containers keep their attributes; a dry run changes no info
    ensures |updated| == |targets|
    ensures forall j :: 0 <= j < |targets| ==> updated[j].attributes == targets[j].attributes
    ensures opts.dryRun ==> updated == targets && forall i :: 0 <= i < |rows| ==> statuses[i] != Succeeded
  {
    statuses := [];
    updated := targets;
    successes := 0;
    for i := 0 to |rows|
      invariant (statuses, updated) == ImportRows(rows[..i], targets, opts)
      invariant successes == CountApplied(statuses)
    {
      var status, next := ApplyRow(rows[i], updated, opts);
      LemmaCountSnoc(statuses, status);
      assert rows[..i + 1][..i] == rows[..i];
      statuses := statuses + [status];
      updated := next;
      if status != Failed {
        successes := successes + 1;
      }
    }
    assert rows[..|rows|] == rows;
    LemmaImportRowsKeep(rows, targets, opts);
    LemmaImportRowsApplied(rows, targets, opts);
    report := FinalReport(successes, |rows|);
  }
}
