/** Normalisation of one ROI metadata record (`process_generic_roi`): the
    bounding box with its corners ordered, the label and user fall-back
    chains, and the raw cached-statistics value. Both metadata formats (the
    simple per-file "roi" list and the viewer "measurements" buckets) use
    this one adapter. */
module RoiRecord {
  import opened Base
  import opened JsonValue

  /** One ROI after normalisation. `labelValue`, `description` and `user` are
      passed through as found (`JNull` when absent); `cachedStats` is the raw
      value whose entries become the seven statistics columns. */
  datatype NormalizedRoi = NormalizedRoi(
    description: Json,
    labelValue: Json,
    xMin: real,
    xMax: real,
    yMin: real,
    yMax: real,
    user: Json,
    cachedStats: Json)

  const EmptyObject: Json := JObj(map[])

  /** The number stored at `handles.<corner>.<axis>` of a record, reading a
      missing `handles` or corner as an empty dict; `None` when some step is
      not a dict or the coordinate is absent or not a number. */
  function Coord(roi: map<string, Json>, corner: string, axis: string): Option<real> {
    var handles := GetOr(roi, "handles", EmptyObject);
    if !handles.JObj? then None
    else
      var point := GetOr(handles.fields, corner, EmptyObject);
      if !point.JObj? then None
      else
        match Get(point.fields, axis)
        case JNum(n) => Some(n)
        case _ => None
  }

  /** `min` of a pair: the first element unless the second is smaller. */
  function Min(a: real, b: real): real {
    if b < a then b else a
  }

  /** `max` of a pair: the first element unless the second is larger. */
  function Max(a: real, b: real): real {
    if b > a then b else a
  }

  function Number(j: Json): (r: Result<real>)
    ensures r.Success? <==> j.JNum?
    ensures r.Success? ==> r.value == j.n
  {
    if j.JNum? then Success(j.n) else Failure(MissingCoordinate)
  }

  /** `roi.get("updatedById")`, falling back to
      `roi.get("flywheelOrigin", {}).get("id")`. */
  function UserOrigin(roi: map<string, Json>): (r: Result<Json>)
    ensures Get(roi, "updatedById") != JNull ==> r == Success(Get(roi, "updatedById"))
    ensures Get(roi, "updatedById") == JNull && "flywheelOrigin" !in roi ==> r == Success(JNull)
    ensures Get(roi, "updatedById") == JNull && "flywheelOrigin" in roi ==>
      if roi["flywheelOrigin"].JObj? then r == Success(Get(roi["flywheelOrigin"].fields, "id"))
      else r.Failure?
  {
    var direct := Get(roi, "updatedById");
    if direct != JNull then Success(direct)
    else
      var origin :- AsMapping(GetOr(roi, "flywheelOrigin", EmptyObject));
      Success(Get(origin, "id"))
  }

  /** The two corners as stored: start (x1, y1) and end (x2, y2). */
  datatype Corners = Corners(x1: real, y1: real, x2: real, y2: real)

  /** Reads the four handle coordinates. Absent `handles`, `start` or `end`
      read as empty dicts; a step that is present but not a dict fails, and
      so does a coordinate that is missing or not a number (Python's `min`
      cannot order `None`). */
  function ReadCorners(roi: map<string, Json>): (r: Result<Corners>)
    ensures r.Success? <==>
      && Coord(roi, "start", "x").Some? && Coord(roi, "end", "x").Some?
      && Coord(roi, "start", "y").Some? && Coord(roi, "end", "y").Some?
    ensures r.Success? ==>
      && r.value.x1 == Coord(roi, "start", "x").value && r.value.x2 == Coord(roi, "end", "x").value
      && r.value.y1 == Coord(roi, "start", "y").value && r.value.y2 == Coord(roi, "end", "y").value
  {
    var handles :- AsMapping(GetOr(roi, "handles", EmptyObject));
    var start :- AsMapping(GetOr(handles, "start", EmptyObject));
    var end :- AsMapping(GetOr(handles, "end", EmptyObject));
    var x1 :- Number(Get(start, "x"));
    var x2 :- Number(Get(end, "x"));
    var y1 :- Number(Get(start, "y"));
    var y2 :- Number(Get(end, "y"));
    Success(Corners(x1, y1, x2, y2))
  }

  /** `process_generic_roi`. */
  function ProcessGenericRoi(roi: map<string, Json>): (r: Result<NormalizedRoi>)
    // it succeeds exactly when the corners can be read and the user resolved
    ensures r.Success? <==> ReadCorners(roi).Success? && UserOrigin(roi).Success?
    // the box is well-formed whichever corner holds the larger coordinate
    ensures r.Success? ==>
      && Coord(roi, "start", "x").Some? && Coord(roi, "end", "x").Some?
      && Coord(roi, "start", "y").Some? && Coord(roi, "end", "y").Some?
      && r.value.xMin <= r.value.xMax && r.value.yMin <= r.value.yMax
      && multiset{r.value.xMin, r.value.xMax}
         == multiset{Coord(roi, "start", "x").value, Coord(roi, "end", "x").value}
      && multiset{r.value.yMin, r.value.yMax}
         == multiset{Coord(roi, "start", "y").value, Coord(roi, "end", "y").value}
    // a missing or non-numeric coordinate is an error, never a default
    ensures (|| Coord(roi, "start", "x").None? || Coord(roi, "end", "x").None?
             || Coord(roi, "start", "y").None? || Coord(roi, "end", "y").None?) ==> r.Failure?
    // label: "location" when set, else "label", else None
    ensures r.Success? && Get(roi, "location") != JNull ==> r.value.labelValue == Get(roi, "location")
    ensures r.Success? && Get(roi, "location") == JNull ==> r.value.labelValue == Get(roi, "label")
    // user: "updatedById" when set, else flywheelOrigin's "id", else None
    ensures r.Success? ==> UserOrigin(roi) == Success(r.value.user)
    ensures UserOrigin(roi).Failure? ==> r.Failure?
    // description and statistics are passed through untouched
    ensures r.Success? ==> r.value.description == Get(roi, "description")
    ensures r.Success? ==> r.value.cachedStats == GetOr(roi, "cachedStats", EmptyObject)
  {
    var c :- ReadCorners(roi);
    var location := Get(roi, "location");
    var user :- UserOrigin(roi);
    Success(NormalizedRoi(
      Get(roi, "description"),
      if location != JNull then location else Get(roi, "label"),
      Min(c.x1, c.x2), Max(c.x1, c.x2), Min(c.y1, c.y2), Max(c.y1, c.y2),
      user,
      GetOr(roi, "cachedStats", EmptyObject)))
  }

  /** Two records whose handles are swapped (one's start is the other's
      end) give the same bounding box. */
  lemma LemmaCornerOrderIrrelevant(a: map<string, Json>, b: map<string, Json>)
    requires Coord(a, "start", "x") == Coord(b, "end", "x") && Coord(a, "end", "x") == Coord(b, "start", "x")
    requires Coord(a, "start", "y") == Coord(b, "end", "y") && Coord(a, "end", "y") == Coord(b, "start", "y")
    requires ProcessGenericRoi(a).Success? && ProcessGenericRoi(b).Success?
    ensures ProcessGenericRoi(a).value.xMin == ProcessGenericRoi(b).value.xMin
    ensures ProcessGenericRoi(a).value.xMax == ProcessGenericRoi(b).value.xMax
    ensures ProcessGenericRoi(a).value.yMin == ProcessGenericRoi(b).value.yMin
    ensures ProcessGenericRoi(a).value.yMax == ProcessGenericRoi(b).value.yMax
  {
    var ra, rb := ProcessGenericRoi(a).value, ProcessGenericRoi(b).value;
    LemmaOrderedPair(ra.xMin, ra.xMax, rb.xMin, rb.xMax);
    LemmaOrderedPair(ra.yMin, ra.yMax, rb.yMin, rb.yMax);
  }

  /** Two ordered pairs holding the same two values are equal. */
  lemma LemmaOrderedPair(lo1: real, hi1: real, lo2: real, hi2: real)
    requires lo1 <= hi1 && lo2 <= hi2
    requires multiset{lo1, hi1} == multiset{lo2, hi2}
    ensures lo1 == lo2 && hi1 == hi2
  {
    assert lo2 in multiset{lo1, hi1} && hi2 in multiset{lo1, hi1};
    assert lo1 in multiset{lo2, hi2} && hi1 in multiset{lo2, hi2};
  }
}
