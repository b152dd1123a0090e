/**
 * Partial updates: a sparse set of attribute overrides, the loop that
 * copies the explicitly set ones onto a stored record, and the revalidation
 * that follows.
 */
module Updates {
  import opened Records

  /**
   * A partial update. For each stored attribute: None when the caller left
   * it unset, Some(None) when the caller sent an explicit null, and
   * Some(Some(v)) when the caller sent a value. There is no id: the id
   * always comes from the path.
   */
  datatype PatientUpdate = PatientUpdate(
    name: Option<Option<string>>,
    city: Option<Option<string>>,
    age: Option<Option<int>>,
    gender: Option<Option<string>>,
    height: Option<Option<real>>,
    weight: Option<Option<real>>)

  const NoChange: PatientUpdate := PatientUpdate(None, None, None, None, None, None)

  /**
   * The check the update body passes before the handler runs: a value that
   * is set and not null obeys the same bounds as in a record; null is let
   * through.
   */
  function UpdateViolations(u: PatientUpdate): (vs: seq<Violation>)
    ensures vs == [] <==>
      && (forall a :: u.age == Some(Some(a)) ==> a > 0)
      && (forall g :: u.gender == Some(Some(g)) ==> ParseGender(g).Some?)
      && (forall h :: u.height == Some(Some(h)) ==> h > 0.0)
      && (forall w :: u.weight == Some(Some(w)) ==> w > 0.0)
    ensures forall v :: v in vs ==> v.kind in {OutOfRange, InvalidEnum}
    ensures forall i, j :: 0 <= i < j < |vs| ==> vs[i].field != vs[j].field
    ensures forall v :: v in vs <==>
      || (v == Violation(AgeField, OutOfRange) && u.age.Some? && u.age.value.Some? && u.age.value.value <= 0)
      || (v == Violation(GenderField, InvalidEnum) && u.gender.Some? && u.gender.value.Some?
          && ParseGender(u.gender.value.value).None?)
      || (v == Violation(HeightField, OutOfRange) && u.height.Some? && u.height.value.Some?
          && u.height.value.value <= 0.0)
      || (v == Violation(WeightField, OutOfRange) && u.weight.Some? && u.weight.value.Some?
          && u.weight.value.value <= 0.0)
  {
    (if u.age.Some? && u.age.value.Some? && u.age.value.value <= 0
     then [Violation(AgeField, OutOfRange)] else [])
    + (if u.gender.Some? && u.gender.value.Some? && ParseGender(u.gender.value.value).None?
       then [Violation(GenderField, InvalidEnum)] else [])
    + (if u.height.Some? && u.height.value.Some? && u.height.value.value <= 0.0
       then [Violation(HeightField, OutOfRange)] else [])
    + (if u.weight.Some? && u.weight.value.Some? && u.weight.value.value <= 0.0
       then [Violation(WeightField, OutOfRange)] else [])
  }

  /** One item of the dictionary of explicitly set fields; None is an explicit null. */
  datatype Assignment =
    | SetName(Option<string>)
    | SetCity(Option<string>)
    | SetAge(Option<int>)
    | SetGender(Option<string>)
    | SetHeight(Option<real>)
    | SetWeight(Option<real>)

  function Item<T>(o: Option<Option<T>>, make: Option<T> -> Assignment): seq<Assignment> {
    match o
    case Some(v) => [make(v)]
    case None => []
  }

  /** The explicitly set fields of the update, in declaration order. */
  function Items(u: PatientUpdate): seq<Assignment> {
    Item(u.name, v => SetName(v)) + Item(u.city, v => SetCity(v)) + Item(u.age, v => SetAge(v))
    + Item(u.gender, v => SetGender(v)) + Item(u.height, v => SetHeight(v)) + Item(u.weight, v => SetWeight(v))
  }

  function Nullable<T>(o: Option<T>): Slot<T> {
    match o
    case Some(v) => Val(v)
    case None => Null
  }

  /** One step of the merge loop: the item's key of the draft takes the item's value. */
  function Assign(d: Draft, a: Assignment): Draft {
    match a
    case SetName(v) => d.(name := Nullable(v))
    case SetCity(v) => d.(city := Nullable(v))
    case SetAge(v) => d.(age := Nullable(v))
    case SetGender(v) => d.(gender := Nullable(v))
    case SetHeight(v) => d.(height := Nullable(v))
    case SetWeight(v) => d.(weight := Nullable(v))
  }

  function AssignAll(d: Draft, items: seq<Assignment>): Draft {
    if items == [] then d else Assign(AssignAll(d, items[..|items| - 1]), items[|items| - 1])
  }

  function Pick<T>(kept: Slot<T>, o: Option<Option<T>>): Slot<T> {
    match o
    case Some(v) => Nullable(v)
    case None => kept
  }

  /**
   * The merge as the schema states it: a field the caller set takes the
   * caller's value, every other field keeps the draft's, and so does the id.
   */
  function Overlay(d: Draft, u: PatientUpdate): Draft {
    Draft(d.id, Pick(d.name, u.name), Pick(d.city, u.city), Pick(d.age, u.age),
          Pick(d.gender, u.gender), Pick(d.height, u.height), Pick(d.weight, u.weight))
  }

  lemma {:induction false} AssignAllConcat(d: Draft, a: seq<Assignment>, b: seq<Assignment>)
    ensures AssignAll(d, a + b) == AssignAll(AssignAll(d, a), b)
    decreases |b|
  {
    if b == [] {
      assert a + b == a;
    } else {
      assert (a + b)[..|a + b| - 1] == a + b[..|b| - 1];
      AssignAllConcat(d, a, b[..|b| - 1]);
    }
  }

  /** Applying the items one after another gives the field-by-field merge. */
  lemma {:induction false} ItemsOverlay(d: Draft, u: PatientUpdate)
    ensures AssignAll(d, Items(u)) == Overlay(d, u)
  {
    var n := Item(u.name, v => SetName(v));
    var c := Item(u.city, v => SetCity(v));
    var a := Item(u.age, v => SetAge(v));
    var g := Item(u.gender, v => SetGender(v));
    var h := Item(u.height, v => SetHeight(v));
    var w := Item(u.weight, v => SetWeight(v));
    AssignAllConcat(d, n + c + a + g + h, w);
    AssignAllConcat(d, n + c + a + g, h);
    AssignAllConcat(d, n + c + a, g);
    AssignAllConcat(d, n + c, a);
    AssignAllConcat(d, n, c);
    var d1 := AssignAll(d, n);
    var d2 := AssignAll(d1, c);
    var d3 := AssignAll(d2, a);
    var d4 := AssignAll(d3, g);
    var d5 := AssignAll(d4, h);
    var d6 := AssignAll(d5, w);
    assert d1 == d.(name := Pick(d.name, u.name)) by { assert n == [] || n[..0] == []; }
    assert d2 == d1.(city := Pick(d.city, u.city)) by { assert c == [] || c[..0] == []; }
    assert d3 == d2.(age := Pick(d.age, u.age)) by { assert a == [] || a[..0] == []; }
    assert d4 == d3.(gender := Pick(d.gender, u.gender)) by { assert g == [] || g[..0] == []; }
    assert d5 == d4.(height := Pick(d.height, u.height)) by { assert h == [] || h[..0] == []; }
    assert d6 == d5.(weight := Pick(d.weight, u.weight)) by { assert w == [] || w[..0] == []; }
  }

  /**
   * The handler's loop: for each explicitly set key, overwrite that key of
   * the record being revised.
   */
  method MergeInto(d: Draft, u: PatientUpdate) returns (r: Draft)
    ensures r == Overlay(d, u)
  {
    var items := Items(u);
    r := d;
    for i := 0 to |items|
      invariant r == AssignAll(d, items[..i])
    {
      assert items[..i + 1][..i] == items[..i];
      r := Assign(r, items[i]);
    }
    assert items[..|items|] == items;
    ItemsOverlay(d, u);
  }

  /**
   * What the update handler builds from the entry stored under `id`: the
   * entry read back, the set fields overwritten, the whole revalidated. A
   * revised record keeps the path's id, takes exactly the fields the caller
   * set and keeps every other stored attribute.
   */
  function Revise(id: string, e: Entry, u: PatientUpdate): (r: Result<Patient, seq<Violation>>)
    ensures r.Ok? <==> forall f :: Admits(Overlay(FromEntry(id, e), u), f)
    ensures r.Ok? ==>
      && r.value.Valid()
      && r.value.id == id
      && (if u.name.Some? then u.name.value == Some(r.value.name) else e.name == Some(r.value.name))
      && (if u.city.Some? then u.city.value == Some(r.value.city) else e.city == Some(r.value.city))
      && (if u.age.Some? then u.age.value == Some(r.value.age) else e.age == Some(r.value.age))
      && (if u.gender.Some? then u.gender.value == Some(GenderName(r.value.gender))
          else e.gender == Some(GenderName(r.value.gender)))
      && (if u.height.Some? then u.height.value == Some(r.value.height) else e.height == Some(r.value.height))
      && (if u.weight.Some? then u.weight.value == Some(r.value.weight) else e.weight == Some(r.value.weight))
  {
    Validate(Overlay(FromEntry(id, e), u))
  }

  /**
   * An explicit null for any attribute makes the revision fail: no
   * attribute of a record accepts null.
   */
  lemma ReviseRejectsNull(id: string, e: Entry, u: PatientUpdate)
    ensures (u.name == Some(None) || u.city == Some(None) || u.age == Some(None) ||
             u.gender == Some(None) || u.height == Some(None) || u.weight == Some(None))
            ==> Revise(id, e, u).Err?
  {
    var d := Overlay(FromEntry(id, e), u);
    if u.name == Some(None) { assert !Admits(d, NameField); }
    if u.city == Some(None) { assert !Admits(d, CityField); }
    if u.age == Some(None) { assert !Admits(d, AgeField); }
    if u.gender == Some(None) { assert !Admits(d, GenderField); }
    if u.height == Some(None) { assert !Admits(d, HeightField); }
    if u.weight == Some(None) { assert !Admits(d, WeightField); }
  }

  /**
   * The converse: an update that passed its own check and sends no null,
   * applied to a record stored by this system, is accepted, and the revised
   * record takes each set attribute from the update and every other one
   * from the stored record.
   */
  lemma {:induction false} ReviseAccepts(p: Patient, u: PatientUpdate)
    requires p.Valid() && UpdateViolations(u) == []
    requires u.name != Some(None) && u.city != Some(None) && u.age != Some(None)
    requires u.gender != Some(None) && u.height != Some(None) && u.weight != Some(None)
    ensures Revise(p.id, Dump(p), u) == Ok(Patient(
      p.id,
      if u.name.Some? then u.name.value.value else p.name,
      if u.city.Some? then u.city.value.value else p.city,
      if u.age.Some? then u.age.value.value else p.age,
      if u.gender.Some? then ParseGender(u.gender.value.value).value else p.gender,
      if u.height.Some? then u.height.value.value else p.height,
      if u.weight.Some? then u.weight.value.value else p.weight))
  {
    var q := Patient(
      p.id,
      if u.name.Some? then u.name.value.value else p.name,
      if u.city.Some? then u.city.value.value else p.city,
      if u.age.Some? then u.age.value.value else p.age,
      if u.gender.Some? then ParseGender(u.gender.value.value).value else p.gender,
      if u.height.Some? then u.height.value.value else p.height,
      if u.weight.Some? then u.weight.value.value else p.weight);
    assert Overlay(FromEntry(p.id, Dump(p)), u) == FromEntry(q.id, Dump(q));
    DumpRoundTrip(q);
  }

  /** The stored bmi and verdict play no part: they are recomputed, never copied forward. */
  lemma ReviseIgnoresDerived(id: string, e: Entry, u: PatientUpdate, bmi: Option<real>, verdict: Option<string>)
    ensures Revise(id, e, u) == Revise(id, e.(bmi := bmi, verdict := verdict), u)
  {
  }

  /** An empty update of a record stored by this system gives back the same record. */
  lemma {:induction false} ReviseNoChange(p: Patient)
    requires p.Valid()
    ensures Revise(p.id, Dump(p), NoChange) == Ok(p)
  {
    assert Overlay(FromEntry(p.id, Dump(p)), NoChange) == FromEntry(p.id, Dump(p));
    DumpRoundTrip(p);
  }

  /**
   * Changing the height alone keeps every other attribute and recomputes
   * bmi and verdict from the new height and the stored weight.
   */
  lemma {:induction false} ReviseHeight(p: Patient, h: real)
    requires p.Valid() && h > 0.0
    ensures var r := Revise(p.id, Dump(p), NoChange.(height := Some(Some(h))));
      && r == Ok(p.(height := h))
      && Dump(r.value).bmi == Some(BmiOf(h, p.weight))
      && Dump(r.value).verdict == Some(VerdictName(Classify(BmiOf(h, p.weight))))
  {
    var q := p.(height := h);
    assert Overlay(FromEntry(p.id, Dump(p)), NoChange.(height := Some(Some(h)))) == FromEntry(q.id, Dump(q));
    DumpRoundTrip(q);
  }
}
