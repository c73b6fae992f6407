/** The recursive metadata merge `update(d, u, overwrite)` that the import
    applies to a container's info.

    `d` is whatever value the merge reaches: at the top it is the
    container's info dict, further down it is the value `d.get(k, {})`
    returned, which need not be a dict. The merge of a dict is decided key
    by key, each key of `u` independently of the others, so the order in
    which Python visits the keys of `u` does not change the outcome. */
module Merge {
  import opened Base
  import opened JsonValue

  /** `d.get(k, {})`. */
  function Existing(d: map<string, Json>, k: string): Json {
    GetOr(d, k, JObj(map[]))
  }

  /** The loop body of `update` for one key of `u` whose value is `v`,
      given what the dict being merged into holds under that key. */
  function MergeValue(existing: Option<Json>, v: Json, overwrite: bool): (r: Result<Json>)
    decreases v, 2
  {
    if v.JObj? then Update(existing.GetOr(JObj(map[])), v.fields, overwrite)
    else if existing.Some? && !overwrite then Success(existing.value)
    else Success(v)
  }

  /** What a dict holds under `k`, if anything. */
  function Lookup(d: map<string, Json>, k: string): (r: Option<Json>)
    ensures r.Some? <==> k in d
    ensures r.Some? ==> r.value == d[k]
  {
    if k in d then Some(d[k]) else None
  }

  /** `update(d, u, overwrite)`. On a dict, every key of `u` is merged and
      every other key is kept. On a value that is not a dict the loop body
      raises for the first key of `u` whatever its value: a dict value calls
      `d.get`, and a plain value formats `d.keys()` into a debug message
      before anything else. Only an empty `u` returns such a `d`. */
  function Update(d: Json, u: map<string, Json>, overwrite: bool): (r: Result<Json>)
    decreases JObj(u), 1
    // a dict stays a dict and gains exactly the keys of u
    ensures d.JObj? && r.Success? ==> r.value.JObj? && r.value.fields.Keys == d.fields.Keys + u.Keys
    // keys of d that u does not mention keep their values
    ensures d.JObj? && r.Success? ==> forall k :: k in d.fields && k !in u ==> r.value.fields[k] == d.fields[k]
    // an absent key with a plain value is added
    ensures d.JObj? && r.Success? ==> forall k :: k in u && !u[k].JObj? && k !in d.fields ==> r.value.fields[k] == u[k]
    // a present key with a plain value is replaced iff overwrite
    ensures d.JObj? && r.Success? ==> forall k :: k in u && !u[k].JObj? && k in d.fields ==>
      r.value.fields[k] == if overwrite then u[k] else d.fields[k]
    // a dict value is merged into the existing value, or into {} when absent
    ensures d.JObj? && r.Success? ==> forall k :: k in u && u[k].JObj? ==>
      Update(Existing(d.fields, k), u[k].fields, overwrite) == Success(r.value.fields[k])
    // a dict merge fails exactly when a nested merge fails; plain values never do
    ensures d.JObj? ==> (r.Success? <==> forall k :: k in u && u[k].JObj? ==>
      Update(Existing(d.fields, k), u[k].fields, overwrite).Success?)
    ensures d.JObj? && (forall k :: k in u ==> !u[k].JObj?) ==> r.Success?
    // a value that is not a dict survives only an empty u, and unchanged
    ensures !d.JObj? ==> (r.Success? <==> u == map[])
    ensures !d.JObj? && r.Success? ==> r.value == d
  {
    match d
    case JObj(fields) =>
      var results := map k | k in u :: MergeValue(Lookup(fields, k), u[k], overwrite);
      if exists k :: k in results && results[k].Failure? then Failure(MergeIntoNonMapping)
      else
        var merged := map k | k in fields.Keys + u.Keys :: if k in u then results[k].value else fields[k];
        assert forall k :: k in u && u[k].JObj? ==> results[k] == Update(Existing(fields, k), u[k].fields, overwrite);
        Success(JObj(merged))
    case _ =>
      if u == map[] then Success(d) else Failure(MergeIntoNonMapping)
  }

  // ------------------------------------------------------------ properties

  /** Every plain value of `u` is found in `r` at the same place, and every
      dict value of `u` is (recursively) contained in what `r` holds there. */
  predicate Subsumes(r: Json, u: map<string, Json>)
    decreases JObj(u)
  {
    forall k :: k in u ==>
      && r.JObj? && k in r.fields
      && if u[k].JObj? then Subsumes(r.fields[k], u[k].fields) else r.fields[k] == u[k]
  }

  /** Every value of `d` is found in `r` at the same place: dicts may have
      gained keys, nothing else differs. */
  predicate Preserved(d: Json, r: Json)
    decreases d
  {
    if d.JObj? then
      && r.JObj?
      && forall k :: k in d.fields ==> k in r.fields && Preserved(d.fields[k], r.fields[k])
    else r == d
  }

  /** Merging an empty dict changes nothing. */
  lemma LemmaUpdateNothing(d: Json, overwrite: bool)
    ensures Update(d, map[], overwrite) == Success(d)
  {
    if d.JObj? {
      var r := Update(d, map[], overwrite);
      assert r.value.fields == d.fields;
    }
  }

  /** Applying the same `u` twice gives the same result as applying it once. */
  lemma {:induction false} LemmaUpdateIdempotent(d: Json, u: map<string, Json>, overwrite: bool)
    requires Update(d, u, overwrite).Success?
    ensures Update(Update(d, u, overwrite).value, u, overwrite) == Update(d, u, overwrite)
    decreases JObj(u)
  {
    var once := Update(d, u, overwrite).value;
    if d.JObj? {
      var fields := once.fields;
      forall k | k in u
        ensures MergeValue(Lookup(fields, k), u[k], overwrite) == Success(fields[k])
      {
        if u[k].JObj? {
          LemmaUpdateIdempotent(Existing(d.fields, k), u[k].fields, overwrite);
        }
      }
      LemmaAllKeysSettled(once, u, overwrite);
    }
  }

  /** A dict merge in which every key of `u` merges to what the dict already
      holds returns the dict unchanged. */
  lemma LemmaAllKeysSettled(d: Json, u: map<string, Json>, overwrite: bool)
    requires d.JObj? && u.Keys <= d.fields.Keys
    requires forall k :: k in u ==> MergeValue(Lookup(d.fields, k), u[k], overwrite) == Success(d.fields[k])
    ensures Update(d, u, overwrite) == Success(d)
  {
    var r := Update(d, u, overwrite);
    assert r.Success?;
    assert r.value.fields == d.fields;
  }

  /** Merging into an empty dict copies `u`, at every depth. */
  lemma {:induction false} LemmaUpdateIntoEmpty(u: map<string, Json>, overwrite: bool)
    ensures Update(JObj(map[]), u, overwrite) == Success(JObj(u))
    decreases JObj(u)
  {
    var empty: map<string, Json> := map[];
    forall k | k in u
      ensures MergeValue(Lookup(empty, k), u[k], overwrite) == Success(u[k])
    {
      if u[k].JObj? {
        LemmaUpdateIntoEmpty(u[k].fields, overwrite);
      }
    }
    var r := Update(JObj(map[]), u, overwrite);
    assert r.Success?;
    assert r.value.fields == u;
  }

  /** With overwrite, a successful merge leaves every value of `u` in place. */
  lemma {:induction false} LemmaOverwriteSubsumes(d: Json, u: map<string, Json>)
    requires Update(d, u, true).Success?
    ensures Subsumes(Update(d, u, true).value, u)
    decreases JObj(u)
  {
    var r := Update(d, u, true).value;
    if d.JObj? {
      forall k | k in u && u[k].JObj?
        ensures Subsumes(r.fields[k], u[k].fields)
      {
        LemmaOverwriteSubsumes(Existing(d.fields, k), u[k].fields);
      }
    }
  }

  /** Without overwrite, a successful merge loses and changes nothing that
      was already there. */
  lemma {:induction false} LemmaKeepPreserves(d: Json, u: map<string, Json>)
    requires Update(d, u, false).Success?
    ensures Preserved(d, Update(d, u, false).value)
    decreases JObj(u)
  {
    var r := Update(d, u, false).value;
    if d.JObj? {
      forall k | k in d.fields
        ensures Preserved(d.fields[k], r.fields[k])
      {
        if k in u && u[k].JObj? {
          LemmaKeepPreserves(d.fields[k], u[k].fields);
        } else {
          LemmaPreservedRefl(d.fields[k]);
        }
      }
    }
  }

  lemma {:induction false} LemmaPreservedRefl(d: Json)
    ensures Preserved(d, d)
    decreases d
  {
    if d.JObj? {
      forall k | k in d.fields
        ensures Preserved(d.fields[k], d.fields[k])
      {
        LemmaPreservedRefl(d.fields[k]);
      }
    }
  }
}
