/**
 * The patient record schema: the attributes a record carries, the rules the
 * validator applies before a record is admitted, the two attributes derived
 * from height and weight, and the form in which a record is stored in the
 * document keyed by id.
 */
module Records {

  datatype Option<+T> = None | Some(value: T) {
    function GetOr(default: T): T {
      match this
      case Some(v) => v
      case None => default
    }
  }

  datatype Result<+T, +E> = Ok(value: T) | Err(error: E)

  /**
   * The state of one key of the JSON object handed to the validator: the key
   * is missing, present with `null`, or present with a value.
   */
  datatype Slot<+T> = Absent | Null | Val(value: T)

  // ---------------------------------------------------------------------
  // Gender: a closed set of three literals
  // ---------------------------------------------------------------------

  datatype Gender = Male | Female | Other

  function GenderName(g: Gender): string {
    match g
    case Male => "male"
    case Female => "female"
    case Other => "other"
  }

  /** Reads one of the three admitted literals; any other string is refused. */
  function ParseGender(s: string): (r: Option<Gender>)
    ensures r.Some? ==> GenderName(r.value) == s
    ensures r.None? ==> forall g: Gender :: GenderName(g) != s
  {
    if s == "male" then Some(Male)
    else if s == "female" then Some(Female)
    else if s == "other" then Some(Other)
    else None
  }

  // ---------------------------------------------------------------------
  // The admitted record and the validator
  // ---------------------------------------------------------------------

  /** A record the validator has admitted. */
  datatype Patient = Patient(
    id: string,
    name: string,
    city: string,
    age: int,
    gender: Gender,
    height: real,  // metres
    weight: real)  // kilograms
  {
    /** The numeric constraints of the schema: all three strictly positive. */
    predicate Valid() {
      age > 0 && height > 0.0 && weight > 0.0
    }
  }

  /** The candidate object the validator receives: the id and the six stored attributes. */
  datatype Draft = Draft(
    id: Slot<string>,
    name: Slot<string>,
    city: Slot<string>,
    age: Slot<int>,
    gender: Slot<string>,
    height: Slot<real>,
    weight: Slot<real>)

  datatype Field = IdField | NameField | CityField | AgeField | GenderField | HeightField | WeightField

  datatype Kind =
    | Missing     // the key is absent
    | NullValue   // the key holds null, which no required attribute accepts
    | OutOfRange  // a number that is not strictly positive
    | InvalidEnum // a gender outside the three literals

  datatype Violation = Violation(field: Field, kind: Kind)

  /** The slot of a field with its value erased: tells absent, null and present apart. */
  function Shape(d: Draft, f: Field): Slot<()> {
    match f
    case IdField => Erase(d.id)
    case NameField => Erase(d.name)
    case CityField => Erase(d.city)
    case AgeField => Erase(d.age)
    case GenderField => Erase(d.gender)
    case HeightField => Erase(d.height)
    case WeightField => Erase(d.weight)
  }

  function Erase<T>(s: Slot<T>): Slot<()> {
    match s
    case Absent => Absent
    case Null => Null
    case Val(_) => Val(())
  }

  /** Whether the schema admits the draft's value for field `f`. */
  predicate Admits(d: Draft, f: Field) {
    match f
    case IdField => d.id.Val?
    case NameField => d.name.Val?
    case CityField => d.city.Val?
    case AgeField => d.age.Val? && d.age.value > 0
    case GenderField => d.gender.Val? && ParseGender(d.gender.value).Some?
    case HeightField => d.height.Val? && d.height.value > 0.0
    case WeightField => d.weight.Val? && d.weight.value > 0.0
  }

  /** The draft a record came from: every field present with the record's value. */
  function ToDraft(p: Patient): Draft {
    Draft(Val(p.id), Val(p.name), Val(p.city), Val(p.age), Val(GenderName(p.gender)), Val(p.height), Val(p.weight))
  }

  /** What is wrong with field `f` of the draft, if anything. */
  function Problem(d: Draft, f: Field): (k: Option<Kind>)
    ensures k.None? <==> Admits(d, f)
    ensures k == Some(Missing) <==> Shape(d, f) == Absent
    ensures k == Some(NullValue) <==> Shape(d, f) == Null
    ensures k == Some(InvalidEnum) <==> f == GenderField && Shape(d, f) == Val(()) && !Admits(d, f)
    ensures k == Some(OutOfRange) <==>
      (f == AgeField || f == HeightField || f == WeightField) && Shape(d, f) == Val(()) && !Admits(d, f)
  {
    match Shape(d, f)
    case Absent => Some(Missing)
    case Null => Some(NullValue)
    case Val(_) =>
      if Admits(d, f) then None
      else if f == GenderField then Some(InvalidEnum)
      else Some(OutOfRange)
  }

  function Report(d: Draft, f: Field): (vs: seq<Violation>)
    ensures |vs| <= 1 && forall v :: v in vs ==> v.field == f
  {
    match Problem(d, f)
    case Some(k) => [Violation(f, k)]
    case None => []
  }

  /** Every violated constraint of the draft, one per offending field, in declaration order. */
  function Violations(d: Draft): seq<Violation> {
    Report(d, IdField) + Report(d, NameField) + Report(d, CityField) + Report(d, AgeField)
    + Report(d, GenderField) + Report(d, HeightField) + Report(d, WeightField)
  }

  /** The report lists a violation exactly when its field has that problem. */
  lemma {:induction false} ViolationsExact(d: Draft)
    ensures forall v :: v in Violations(d) <==> Problem(d, v.field) == Some(v.kind)
  {
    forall v ensures v in Violations(d) <==> Problem(d, v.field) == Some(v.kind) {
      forall f | f != v.field ensures v !in Report(d, f) { }
      assert v in Report(d, v.field) <==> Problem(d, v.field) == Some(v.kind);
    }
  }

  /** The position of a field in the schema's declaration order. */
  function Rank(f: Field): nat {
    match f
    case IdField => 0
    case NameField => 1
    case CityField => 2
    case AgeField => 3
    case GenderField => 4
    case HeightField => 5
    case WeightField => 6
  }

  /** The violations name their fields in strictly increasing declaration order. */
  predicate RanksIncrease(vs: seq<Violation>) {
    forall i, j :: 0 <= i < j < |vs| ==> Rank(vs[i].field) < Rank(vs[j].field)
  }

  /** Appending the report of a later field keeps the ranks increasing. */
  lemma {:induction false} RankedAppend(vs: seq<Violation>, r: seq<Violation>, f: Field)
    requires RanksIncrease(vs) && forall v :: v in vs ==> Rank(v.field) < Rank(f)
    requires |r| <= 1 && forall v :: v in r ==> v.field == f
    ensures RanksIncrease(vs + r)
    ensures forall v :: v in vs + r ==> Rank(v.field) <= Rank(f)
  {
    var t := vs + r;
    forall i, j | 0 <= i < j < |t| ensures Rank(t[i].field) < Rank(t[j].field) {
      if j >= |vs| {
        assert t[j] in r && t[i] == vs[i];
      } else {
        assert t[i] == vs[i] && t[j] == vs[j];
      }
    }
  }

  /** The report lists its fields in declaration order. */
  lemma {:induction false} ViolationsRanked(d: Draft)
    ensures RanksIncrease(Violations(d))
  {
    var r0, r1, r2, r3 := Report(d, IdField), Report(d, NameField), Report(d, CityField), Report(d, AgeField);
    var r4, r5, r6 := Report(d, GenderField), Report(d, HeightField), Report(d, WeightField);
    assert Violations(d) == r0 + r1 + r2 + r3 + r4 + r5 + r6;
    RankedAppend([], r0, IdField);
    assert [] + r0 == r0;
    RankedAppend(r0, r1, NameField);
    RankedAppend(r0 + r1, r2, CityField);
    RankedAppend(r0 + r1 + r2, r3, AgeField);
    RankedAppend(r0 + r1 + r2 + r3, r4, GenderField);
    RankedAppend(r0 + r1 + r2 + r3 + r4, r5, HeightField);
    RankedAppend(r0 + r1 + r2 + r3 + r4 + r5, r6, WeightField);
  }

  /** The report names each field at most once. */
  lemma {:induction false} ViolationsOnePerField(d: Draft)
    ensures forall i, j :: 0 <= i < j < |Violations(d)| ==> Violations(d)[i].field != Violations(d)[j].field
  {
    ViolationsRanked(d);
  }

  /** The report is empty exactly when the schema admits every field. */
  lemma {:induction false} NoViolations(d: Draft)
    ensures Violations(d) == [] <==> forall f :: Admits(d, f)
  {
    if Violations(d) == [] {
      forall f ensures Admits(d, f) {
        assert Report(d, f) == [] by {
          match f
          case IdField =>
          case NameField =>
          case CityField =>
          case AgeField =>
          case GenderField =>
          case HeightField =>
          case WeightField =>
        }
      }
    } else {
      var v := Violations(d)[0];
      ViolationsExact(d);
      assert !Admits(d, v.field);
    }
  }

  /**
   * The validator: admits the draft as a record exactly when every field is
   * admitted, and otherwise reports every offending field and why.
   */
  function Validate(d: Draft): (r: Result<Patient, seq<Violation>>)
    ensures r.Ok? <==> forall f :: Admits(d, f)
    ensures r.Ok? ==> r.value.Valid() && ToDraft(r.value) == d
    ensures r.Err? ==> r.error != []
    ensures r.Err? ==> forall v :: v in r.error <==> Problem(d, v.field) == Some(v.kind)
    ensures r.Err? ==> forall i, j :: 0 <= i < j < |r.error| ==> r.error[i].field != r.error[j].field
  {
    ViolationsExact(d);
    NoViolations(d);
    ViolationsOnePerField(d);
    var vs := Violations(d);
    if vs == [] then
      assert Admits(d, IdField) && Admits(d, NameField) && Admits(d, CityField) && Admits(d, AgeField);
      assert Admits(d, GenderField) && Admits(d, HeightField) && Admits(d, WeightField);
      Ok(Patient(d.id.value, d.name.value, d.city.value, d.age.value,
                 ParseGender(d.gender.value).value, d.height.value, d.weight.value))
    else
      Err(vs)
  }

  // ---------------------------------------------------------------------
  // Derived attributes
  // ---------------------------------------------------------------------

  /**
   * round(x, 2) on the exact value of x: the whole number of hundredths
   * nearest to x, a tie going to the even one.
   */
  function Cents(x: real): (k: int)
    ensures (k as real) - 0.5 <= 100.0 * x <= (k as real) + 0.5
    ensures 100.0 * x == (k as real) - 0.5 || 100.0 * x == (k as real) + 0.5 ==> k % 2 == 0
  {
    var t := 100.0 * x;
    var n := t.Floor;
    var frac := t - n as real;
    if frac < 0.5 then n
    else if frac > 0.5 then n + 1
    else if n % 2 == 0 then n
    else n + 1
  }

  function Round2(x: real): real {
    Cents(x) as real / 100.0
  }

  /** Rounding to hundredths never reverses the order of two numbers. */
  lemma Round2Monotone(x: real, y: real)
    requires x <= y
    ensures Round2(x) <= Round2(y)
  {
    var kx, ky := Cents(x), Cents(y);
    if kx > ky {
      assert 100.0 * y <= 100.0 * x;
      assert kx as real - 0.5 <= 100.0 * x && 100.0 * y <= ky as real + 0.5;
    }
  }

  /** A number that already has at most two decimals is left as it is. */
  lemma {:induction false} Round2Exact(c: int)
    ensures Round2(c as real / 100.0) == c as real / 100.0
  {
    var x := c as real / 100.0;
    assert 100.0 * x == c as real;
  }

  /** Body mass index: weight over height squared, rounded to two decimals. */
  function BmiOf(height: real, weight: real): (r: real)
    requires height > 0.0
    ensures (100.0 * r).Floor as real == 100.0 * r
    ensures 100.0 * r - 0.5 <= 100.0 * (weight / (height * height)) <= 100.0 * r + 0.5
  {
    Round2(weight / (height * height))
  }

  function Bmi(p: Patient): real
    requires p.height > 0.0
  {
    BmiOf(p.height, p.weight)
  }

  datatype Verdict = Underweight | Normal | Obese

  function VerdictName(v: Verdict): string {
    match v
    case Underweight => "underweight"
    case Normal => "normal"
    case Obese => "obese"
  }

  /** The three buckets; 18.5 itself is normal and 30 itself is obese. */
  function Classify(bmi: real): (v: Verdict)
    ensures v == Underweight <==> bmi < 18.5
    ensures v == Normal <==> 18.5 <= bmi < 30.0
    ensures v == Obese <==> 30.0 <= bmi
  {
    if bmi < 18.5 then Underweight
    else if bmi < 30.0 then Normal
    else Obese
  }

  /**
   * The verdict in terms of the unrounded ratio weight / height²: the
   * rounding moves the two boundaries down by half a hundredth, and a ratio
   * exactly half a hundredth below a boundary rounds up to it.
   */
  lemma VerdictOfRatio(x: real)
    ensures Classify(Round2(x)) == Underweight <==> x < 18.495
    ensures Classify(Round2(x)) == Obese <==> x >= 29.995
  {
    var k := Cents(x);
    assert Round2(x) < 18.5 <==> k < 1850;
    assert Round2(x) < 30.0 <==> k < 3000;
    if k == 1849 {
      assert 100.0 * x != 1849.5;
    }
    if k == 2999 {
      assert 100.0 * x != 2999.5;
    }
  }

  // ---------------------------------------------------------------------
  // The stored form of a record
  // ---------------------------------------------------------------------

  /**
   * A record as the document holds it under its id: the six stored
   * attributes and the two derived ones, each key possibly missing.
   */
  datatype Entry = Entry(
    name: Option<string>,
    city: Option<string>,
    age: Option<int>,
    gender: Option<string>,
    height: Option<real>,
    weight: Option<real>,
    bmi: Option<real>,
    verdict: Option<string>)

  /** The derived attributes of the entry agree with its height and weight. */
  predicate Consistent(e: Entry) {
    && e.height.Some? && e.height.value > 0.0 && e.weight.Some?
    && e.bmi == Some(BmiOf(e.height.value, e.weight.value))
    && e.verdict == Some(VerdictName(Classify(e.bmi.value)))
  }

  /** The record serialised without its id, derived attributes computed afresh. */
  function Dump(p: Patient): (e: Entry)
    requires p.Valid()
    ensures Consistent(e)
  {
    var b := Bmi(p);
    Entry(Some(p.name), Some(p.city), Some(p.age), Some(GenderName(p.gender)),
          Some(p.height), Some(p.weight), Some(b), Some(VerdictName(Classify(b))))
  }

  function SlotOf<T>(o: Option<T>): Slot<T> {
    match o
    case Some(v) => Val(v)
    case None => Absent
  }

  /**
   * The object the validator sees when a stored entry is read back under
   * `id`: the derived attributes are not inputs and are dropped.
   */
  function FromEntry(id: string, e: Entry): Draft {
    Draft(Val(id), SlotOf(e.name), SlotOf(e.city), SlotOf(e.age), SlotOf(e.gender),
          SlotOf(e.height), SlotOf(e.weight))
  }

  /** Storing a record and reading it back under its id gives the same record. */
  lemma {:induction false} DumpRoundTrip(p: Patient)
    requires p.Valid()
    ensures Validate(FromEntry(p.id, Dump(p))) == Ok(p)
  {
    var d := FromEntry(p.id, Dump(p));
    assert d == ToDraft(p);
    forall f ensures Admits(d, f) {
      if f == GenderField {
        assert ParseGender(GenderName(p.gender)) == Some(p.gender);
      }
    }
    var r := Validate(d);
    assert r.Ok?;
    assert ToDraft(r.value) == ToDraft(p);
    assert ParseGender(GenderName(r.value.gender)) == Some(r.value.gender);
  }
}
