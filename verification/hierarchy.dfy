/** Resolution of an ROI to its file and to the labels of the file's
    ancestors (`get_file_hierarchy`, `get_session_hierarchy`). */
module Hierarchy {
  import opened Base
  import opened JsonValue
  import opened Text
  import opened Containers
  import opened FileTypes

  /** Group, project, subject, session and acquisition columns of a row. */
  datatype Labels = Labels(
    group: Option<string>,
    project: string,
    subject: Option<string>,
    session: Option<string>,
    acquisition: Option<string>)

  /** A resolved ROI: the hierarchy labels and the file's name and type. */
  datatype Located = Located(labels: Labels, fileName: string, fileType: string)

  /** A subject or session label: looked up when its id is set, else None. */
  function OptionalLabel(labels: map<string, string>, id: Option<string>): (r: Result<Option<string>>)
    ensures !IsSet(id) ==> r == Success(None)
    ensures IsSet(id) && id.value in labels ==> r == Success(Some(labels[id.value]))
    ensures IsSet(id) && id.value !in labels ==> r.Failure?
  {
    if IsSet(id) then
      var l :- FetchLabel(labels, id);
      Success(Some(l))
    else Success(None)
  }

  /** `get_file_hierarchy`. The project is always fetched; subject, session
      and acquisition only when their ids are set. Without an acquisition id
      the parent's own label serves when the parent is an acquisition. */
  function FileHierarchy(file: FileEntry, repo: Repository): (r: Result<Labels>)
    ensures r.Success? <==>
      && file.parent.parents.project.Some? && file.parent.parents.project.value in repo.projects
      && (IsSet(file.parent.parents.subject) ==> file.parent.parents.subject.value in repo.subjects)
      && (IsSet(file.parent.parents.session) ==> file.parent.parents.session.value in repo.sessions)
      && (IsSet(file.parent.parents.acquisition) ==> file.parent.parents.acquisition.value in repo.acquisitions)
    ensures r.Success? ==>
      var p := file.parent.parents;
      && r.value.group == p.group
      && r.value.project == repo.projects[p.project.value]
      && (r.value.subject.Some? <==> IsSet(p.subject))
      && (r.value.subject.Some? ==> r.value.subject.value == repo.subjects[p.subject.value])
      && (r.value.session.Some? <==> IsSet(p.session))
      && (r.value.session.Some? ==> r.value.session.value == repo.sessions[p.session.value])
      && (IsSet(p.acquisition) ==> r.value.acquisition == Some(repo.acquisitions[p.acquisition.value]))
      && (!IsSet(p.acquisition) && file.parent.kind == Acquisition ==> r.value.acquisition == Some(file.parent.title))
      && (!IsSet(p.acquisition) && file.parent.kind != Acquisition ==> r.value.acquisition == None)
  {
    var p := file.parent.parents;
    var project :- FetchLabel(repo.projects, p.project);
    var subject :- OptionalLabel(repo.subjects, p.subject);
    var session :- OptionalLabel(repo.sessions, p.session);
    var acquisition :-
      if IsSet(p.acquisition) then OptionalLabel(repo.acquisitions, p.acquisition)
      else if file.parent.kind == Acquisition then Success(Some(file.parent.title))
      else Success(None);
    Success(Labels(p.group, project, subject, session, acquisition))
  }

  /** The file's series UID with every `_` read as `.`; a missing UID reads
      as "", a present non-string one cannot be `.replace`d. */
  function NormalizedSeriesUid(file: FileEntry): (r: Result<string>)
    ensures r.Success? <==> GetOr(file.info, "SeriesInstanceUID", JStr("")).JStr?
    ensures "SeriesInstanceUID" !in file.info ==> r == Success("")
    ensures r.Success? ==> '_' !in r.value && |r.value| == |GetOr(file.info, "SeriesInstanceUID", JStr("")).s|
    // every `_` becomes `.`, every other character is kept
    ensures r.Success? ==> var s := GetOr(file.info, "SeriesInstanceUID", JStr("")).s;
      forall i :: 0 <= i < |s| ==> r.value[i] == if s[i] == '_' then '.' else s[i]
  {
    match GetOr(file.info, "SeriesInstanceUID", JStr(""))
    case JStr(s) =>
      var t := ReplaceChar(s, '_', '.');
      assert forall i :: 0 <= i < |t| ==> t[i] != '_';
      Success(t)
    case _ => Failure(NotAString)
  }

  /** Whether a file belongs to the series an ROI names. */
  predicate SeriesMatch(file: FileEntry, uid: Json) {
    var s := NormalizedSeriesUid(file);
    s.Success? && JStr(s.value) == uid
  }

  /** The list comprehension of `get_session_hierarchy`: the matching
      files, in listing order. */
  function MatchingFiles(files: seq<FileEntry>, uid: Json): (r: Result<seq<FileEntry>>)
    ensures r.Success? <==> forall i :: 0 <= i < |files| ==> NormalizedSeriesUid(files[i]).Success?
    ensures r.Success? ==> forall f :: f in r.value <==> f in files && SeriesMatch(f, uid)
    ensures r.Success? && r.value != [] ==>
      exists i :: 0 <= i < |files| && files[i] == r.value[0] && SeriesMatch(files[i], uid)
        && forall j :: 0 <= j < i ==> !SeriesMatch(files[j], uid)
  {
    if files == [] then Success([])
    else
      var head :- NormalizedSeriesUid(files[0]);
      var rest :- MatchingFiles(files[1..], uid);
      if JStr(head) == uid then Success([files[0]] + rest)
      else
        assert forall f :: f in rest ==> f in files[1..];
        Success(rest)
  }

  /** The file an ROI's series UID designates among the session's files:
      the first match in listing order, or `None` when nothing matches. */
  function FirstSeriesMatch(files: seq<FileEntry>, uid: Json): (r: Result<Option<FileEntry>>)
    ensures r.Success? <==> forall i :: 0 <= i < |files| ==> NormalizedSeriesUid(files[i]).Success?
    ensures r.Success? && r.value.None? ==> forall f :: f in files ==> !SeriesMatch(f, uid)
    ensures r.Success? && r.value.Some? ==>
      exists i :: 0 <= i < |files| && files[i] == r.value.value && SeriesMatch(files[i], uid)
        && forall j :: 0 <= j < i ==> !SeriesMatch(files[j], uid)
  {
    var matches :- MatchingFiles(files, uid);
    if matches == [] then Success(None) else Success(Some(matches[0]))
  }

  /** `get_session_hierarchy`: find the ROI's file among all files of the
      session's acquisitions by series UID, first match wins; then resolve
      that file's labels and type. `None` stands for the seven `None`s the
      source returns when the ROI names no series or no file matches. */
  function SessionHierarchy(acquisitionFiles: seq<seq<FileEntry>>, roi: map<string, Json>, repo: Repository)
    : (r: Result<Option<Located>>)
    ensures Get(roi, "seriesInstanceUid") == JNull ==> r == Success(None)
    ensures Get(roi, "seriesInstanceUid") != JNull ==>
      var found := FirstSeriesMatch(Flatten(acquisitionFiles), Get(roi, "seriesInstanceUid"));
      && (found.Failure? ==> r.Failure?)
      && (found.Success? && found.value.None? ==> r == Success(None))
      && (found.Success? && found.value.Some? ==>
            var file := found.value.value;
            && (r.Success? <==> FileHierarchy(file, repo).Success?)
            && (r.Success? ==> r.value == Some(Located(FileHierarchy(file, repo).value, file.name, FileType(file.name)))))
  {
    var uid := Get(roi, "seriesInstanceUid");
    if uid == JNull then Success(None)
    else
      var found :- FirstSeriesMatch(Flatten(acquisitionFiles), uid);
      match found
      case None => Success(None)
      case Some(file) =>
        var labels :- FileHierarchy(file, repo);
        Success(Some(Located(labels, file.name, FileType(file.name))))
  }
}
