/** The repository's containers as the curator and the walker read them.
    Every repository call (`get_project`, `reload`, `acquisitions()`, ...)
    is replaced by data handed in: a container's refreshed listings and an
    id-to-label table per container level. */
module Containers {
  import opened Base
  import opened JsonValue

  /** `container_type`. */
  datatype Kind = Project | Subject | Session | Acquisition | File | Analysis | OtherKind

  /** Ids of a container's ancestors (`container.parents`). The group is an
      id that the report prints as it is. */
  datatype Parents = Parents(
    group: Option<string>,
    project: Option<string>,
    subject: Option<string>,
    session: Option<string>,
    acquisition: Option<string>)

  /** The container a file is attached to (`file.parent`); `title` is its label. */
  datatype ParentRef = ParentRef(kind: Kind, title: string, parents: Parents)

  /** A file entry: its name, its free-form info and its parent container. */
  datatype FileEntry = FileEntry(name: string, info: map<string, Json>, parent: ParentRef)

  /** What `fw.get_project(id).label` and its siblings answer. */
  datatype Repository = Repository(
    projects: map<string, string>,
    subjects: map<string, string>,
    sessions: map<string, string>,
    acquisitions: map<string, string>)

  /** Python truthiness of an optional id: neither `None` nor `""`. */
  predicate IsSet(id: Option<string>) {
    id.Some? && id.value != ""
  }

  /** A label fetched by id; an id the repository does not know (including
      `None`) makes the client raise. */
  function FetchLabel(labels: map<string, string>, id: Option<string>): (r: Result<string>)
    ensures r.Success? <==> id.Some? && id.value in labels
    ensures r.Success? ==> r.value == labels[id.value]
  {
    if id.Some? && id.value in labels then Success(labels[id.value]) else Failure(UnknownId)
  }

  /** Concatenation of the per-acquisition file listings, in order. */
  function Flatten(xss: seq<seq<FileEntry>>): (r: seq<FileEntry>)
    ensures forall x :: x in r <==> exists i :: 0 <= i < |xss| && x in xss[i]
  {
    if xss == [] then [] else xss[0] + Flatten(xss[1..])
  }

  /** Flattening keeps the order of the listings: the files of earlier
      acquisitions come first. */
  lemma {:induction false} LemmaFlattenAppend(a: seq<seq<FileEntry>>, b: seq<seq<FileEntry>>)
    ensures Flatten(a + b) == Flatten(a) + Flatten(b)
    decreases |a|
  {
    if a == [] {
      assert a + b == b;
    } else {
      assert (a + b)[0] == a[0] && (a + b)[1..] == a[1..] + b;
      LemmaFlattenAppend(a[1..], b);
    }
  }

  /** One listing flattens to itself, in its own order. */
  lemma LemmaFlattenSingle(xs: seq<FileEntry>)
    ensures Flatten([xs]) == xs
  {
    assert [xs][1..] == [];
  }
}
