/**
 * The record store and the operations of the API on it: read one record,
 * sort all records, create, update and delete. The store is the document
 * of the whole record set, keyed by id; loading it before an operation and
 * saving it after a successful change are left to the caller.
 */
module Api {
  import opened Records
  import opened Updates
  import opened Sorting

  datatype Error =
    | NotFound                         // the id is not a key of the document
    | DuplicateId                      // create with an id that is already a key
    | Invalid(violations: seq<Violation>)  // the validator refused the record or the update
    | InvalidField                     // sort by a key other than height, weight or bmi
    | InvalidOrder                     // sort in a direction other than asc or desc

  datatype Outcome = Done | Failed(error: Error)

  predicate Distinct(ids: seq<string>) {
    forall i, j :: 0 <= i < j < |ids| ==> ids[i] != ids[j]
  }

  /** The keys without `id`, in their order. */
  function Remove(ids: seq<string>, id: string): (r: seq<string>)
    ensures forall k :: k in r <==> k in ids && k != id
    ensures Distinct(ids) ==> Distinct(r)
    ensures id !in ids ==> r == ids
  {
    if ids == [] then []
    else if ids[0] == id then Remove(ids[1..], id)
    else
      assert Distinct(ids) ==> Distinct(ids[1..]) && ids[0] !in ids[1..];
      [ids[0]] + Remove(ids[1..], id)
  }

  /** Removing a key that occurs only at position `n` closes the gap and keeps the rest in order. */
  lemma {:induction false} RemoveOnly(ids: seq<string>, id: string, n: int)
    requires 0 <= n < |ids| && ids[n] == id && id !in ids[..n] && id !in ids[n + 1..]
    ensures Remove(ids, id) == ids[..n] + ids[n + 1..]
  {
    var tail := ids[1..];
    if n == 0 {
      assert tail == ids[n + 1..];
    } else {
      assert ids[0] in ids[..n];
      assert tail[..n - 1] == ids[1..n] && tail[n..] == ids[n + 1..];
      RemoveOnly(tail, id, n - 1);
      assert ids[..n] == [ids[0]] + ids[1..n];
    }
  }

  /** With distinct keys, removing the key at position `n` closes the gap and keeps the rest in order. */
  lemma {:induction false} RemoveAt(ids: seq<string>, id: string, n: int)
    requires Distinct(ids) && 0 <= n < |ids| && ids[n] == id
    ensures Remove(ids, id) == ids[..n] + ids[n + 1..]
  {
    assert id !in ids[..n] && id !in ids[n + 1..] by {
      forall i | 0 <= i < |ids| && i != n ensures ids[i] != id {
        if i < n { assert ids[i] != ids[n]; } else { assert ids[n] != ids[i]; }
      }
    }
    RemoveOnly(ids, id, n);
  }

  /** The document's values in the order of its keys. */
  function Values(ids: seq<string>, data: map<string, Entry>): (vs: seq<Entry>)
    requires forall k :: k in ids ==> k in data
    ensures |vs| == |ids|
    ensures forall i :: 0 <= i < |ids| ==> vs[i] == data[ids[i]]
  {
    if ids == [] then [] else [data[ids[0]]] + Values(ids[1..], data)
  }

  class PatientStore {
    /** The keys of the document in insertion order: the order its values are listed in. */
    var ids: seq<string>
    /** The document: each id mapped to its stored entry. */
    var data: map<string, Entry>

    ghost predicate Valid()
      reads this
    {
      Distinct(ids) && forall k :: k in data <==> k in ids
    }

    /** The document as loaded: any map, with its keys listed once each. */
    constructor Load(keys: seq<string>, doc: map<string, Entry>)
      requires Distinct(keys) && forall k :: k in doc <==> k in keys
      ensures Valid() && ids == keys && data == doc
    {
      ids, data := keys, doc;
    }

    /** Reading one record: the stored entry, or not-found. */
    method Get(id: string) returns (r: Result<Entry, Error>)
      requires Valid()
      ensures id in data ==> r == Ok(data[id])
      ensures id !in data ==> r == Err(NotFound)
    {
      if id in data {
        r := Ok(data[id]);
      } else {
        r := Err(NotFound);
      }
    }

    /**
     * Sorting all records. The key is checked first, then the direction,
     * and only then is the document read; the result is the document's
     * values sorted stably by that key.
     */
    method Sort(sortBy: string, order: string) returns (r: Result<seq<Entry>, Error>)
      requires Valid()
      ensures ParseSortField(sortBy).None? ==> r == Err(InvalidField)
      ensures ParseSortField(sortBy).Some? && ParseDirection(order).None? ==> r == Err(InvalidOrder)
      ensures r.Ok? <==> ParseSortField(sortBy).Some? && ParseDirection(order).Some?
      ensures r.Ok? ==>
        StableSortOf(r.value, Values(ids, data), ParseSortField(sortBy).value, ParseDirection(order).value)
    {
      var f := ParseSortField(sortBy);
      if f.None? {
        return Err(InvalidField);
      }
      var dir := ParseDirection(order);
      if dir.None? {
        return Err(InvalidOrder);
      }
      var vs := Values(ids, data);
      r := Ok(SortBy(vs, f.value, dir.value));
    }

    /**
     * Creating a record. The body is validated first; an id that is
     * already a key is refused; otherwise the record is stored under its id,
     * without the id and with its derived attributes, at the end of the
     * document. Nothing else changes.
     */
    method Create(d: Draft) returns (out: Outcome)
      requires Valid()
      modifies this
      ensures Valid()
      ensures var v := Validate(d);
        && (v.Err? ==> out == Failed(Invalid(v.error)) && ids == old(ids) && data == old(data))
        && (v.Ok? && v.value.id in old(data) ==>
              out == Failed(DuplicateId) && ids == old(ids) && data == old(data))
        && (v.Ok? && v.value.id !in old(data) ==>
              out == Done && data == old(data)[v.value.id := Dump(v.value)] && ids == old(ids) + [v.value.id])
    {
      var v := Validate(d);
      if v.Err? {
        return Failed(Invalid(v.error));
      }
      var p := v.value;
      if p.id in data {
        return Failed(DuplicateId);
      }
      data := data[p.id := Dump(p)];
      ids := ids + [p.id];
      out := Done;
    }

    /**
     * Updating a record. The update body is checked first; then an id that
     * is not a key is refused; then the explicitly set fields are merged
     * onto the stored record under the path's id, the result is
     * revalidated, and only if it passes does it replace the stored entry,
     * its derived attributes recomputed. No other entry changes, and the
     * order of the keys does not change.
     */
    method Update(id: string, u: PatientUpdate) returns (out: Outcome)
      requires Valid()
      modifies this
      ensures Valid() && ids == old(ids)
      ensures UpdateViolations(u) != [] ==> out == Failed(Invalid(UpdateViolations(u))) && data == old(data)
      ensures UpdateViolations(u) == [] && id !in old(data) ==> out == Failed(NotFound) && data == old(data)
      ensures UpdateViolations(u) == [] && id in old(data) ==>
        var r := Revise(id, old(data)[id], u);
        && (r.Err? ==> out == Failed(Invalid(r.error)) && data == old(data))
        && (r.Ok? ==> out == Done && data == old(data)[id := Dump(r.value)])
    {
      var uv := UpdateViolations(u);
      if uv != [] {
        return Failed(Invalid(uv));
      }
      if id !in data {
        return Failed(NotFound);
      }
      // The stored entry, read back under the path's id.
      var draft := FromEntry(id, data[id]);
      draft := MergeInto(draft, u);
      var v := Validate(draft);
      if v.Err? {
        return Failed(Invalid(v.error));
      }
      data := data[id := Dump(v.value)];
      out := Done;
    }

    /** Deleting a record: the key and its entry go, everything else stays. */
    method Delete(id: string) returns (out: Outcome)
      requires Valid()
      modifies this
      ensures Valid()
      ensures id in old(data) ==> out == Done && data == old(data) - {id} && ids == Remove(old(ids), id)
      ensures id !in old(data) ==> out == Failed(NotFound) && data == old(data) && ids == old(ids)
    {
      if id !in data {
        return Failed(NotFound);
      }
      data := data - {id};
      ids := Remove(ids, id);
      out := Done;
    }
  }

  /** Creating a record and reading it back gives the stored attributes as sent. */
  method CreateThenGet(s: PatientStore, d: Draft) returns (created: Outcome, got: Result<Entry, Error>)
    requires s.Valid()
    modifies s
    ensures created == Done ==>
      && Validate(d).Ok?
      && got == Ok(Dump(Validate(d).value))
      && Validate(FromEntry(Validate(d).value.id, got.value)) == Validate(d)
  {
    created := s.Create(d);
    var id := if d.id.Val? then d.id.value else "";
    got := s.Get(id);
    if created == Done {
      DumpRoundTrip(Validate(d).value);
    }
  }

  /** A second create with the same id fails and the first record stays as it was. */
  method CreateTwice(s: PatientStore, d: Draft) returns (first: Outcome, second: Outcome)
    requires s.Valid()
    modifies s
    ensures first == Done ==>
      && Validate(d).Ok? && second == Failed(DuplicateId)
      && Validate(d).value.id in s.data && s.data[Validate(d).value.id] == Dump(Validate(d).value)
  {
    first := s.Create(d);
    second := s.Create(d);
  }

  /** After a delete the id is gone: reading it, or deleting it again, is not-found. */
  method DeleteTwice(s: PatientStore, id: string) returns (first: Outcome, got: Result<Entry, Error>, second: Outcome)
    requires s.Valid()
    modifies s
    ensures first == Done <==> id in old(s.data)
    ensures got == Err(NotFound) && second == Failed(NotFound)
  {
    first := s.Delete(id);
    got := s.Get(id);
    second := s.Delete(id);
  }

  /** A height of 0 in an update is refused and the stored record is unchanged. */
  method UpdateHeightZero(s: PatientStore, id: string) returns (out: Outcome)
    requires s.Valid()
    modifies s
    ensures out == Failed(Invalid([Violation(HeightField, OutOfRange)]))
    ensures s.data == old(s.data)
  {
    var u := NoChange.(height := Some(Some(0.0)));
    assert UpdateViolations(u) == [Violation(HeightField, OutOfRange)];
    out := s.Update(id, u);
  }
}
