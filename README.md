# Patient records API — a Dafny model

This project models the core of a small patient-record API. The API keeps
one document that maps each patient id to that patient's stored
attributes: name, city, age, gender, height and weight. It also stores two
derived attributes, `bmi` and `verdict`, which it recomputes on every
write. The API can read one record, sort all records by height, weight or
bmi, create a record, apply a partial update, and delete a record.

The model has four modules:

- `Records` (records.dfy) holds the schema. A `Draft` is the object handed
  to the validator. Each of its fields may be absent, null or a value.
  `Validate` admits the draft as a `Patient`, or reports every offending
  field and the reason. This module also holds the two-decimal rounding,
  `Bmi`, the three-bucket `Classify`, and the stored form `Entry`.
  `Dump` writes a record without its id. `FromEntry` reads an entry back
  under an id.
- `Updates` (updates.dfy) holds partial updates. Each attribute of a
  `PatientUpdate` is in one of three states: unset, explicit null, or a
  value. `MergeInto` is the handler's loop over the explicitly set keys.
  `Revise` is the merge followed by revalidation.
- `Sorting` (sorting.dfy) holds the sort key. An entry that lacks the key
  sorts as 0. `SortBy` is a stable sort in either direction.
- `Api` (api.dfy) holds the class `PatientStore`. Its fields are the
  document (`data`) and the order of its keys (`ids`). Its methods are the
  five handlers: `Get`, `Sort`, `Create`, `Update` and `Delete`. A few
  client methods chain these calls.

Python floats are modelled as `real`. `round(x, 2)` is modelled exactly, as
the whole number of hundredths nearest to `x` with ties going to the even
one. This is what Python's `round` does on the value it is given. In these
places the model follows the code:

- The id is not required to be non-empty. The schema does not check this.
- A `bmi` or `verdict` sent in a request body is ignored, not refused.
- Sorting by `bmi` reads the bmi stored in each entry. It does not
  recompute it from height and weight.
- An update checks its own body first, so an invalid body on an unknown id
  is a validation error, not not-found. Only then does it check the id,
  and then it revalidates the merged record. In the source, a failure of
  that last step is a validation error raised inside the handler. The
  model reports it as `Invalid`, and nothing is stored.

## Model

| member | source | states |
|---|---|---|
| `Records.ParseGender` | main.py:25 | a gender is one of the three literals `male`, `female`, `other`; a parsed gender prints back as the same string, and every other string is refused |
| `Records.Problem` | main.py:20-27 | a field has no problem exactly when the schema admits it; the problem is `Missing` exactly when the key is absent, `NullValue` exactly when it holds null, `InvalidEnum` exactly when a present gender is not a literal, and `OutOfRange` exactly when a present age, height or weight is not admitted |
| `Records.ViolationsExact` | main.py:20-27 | the violation report lists a (field, kind) pair exactly when that field has that problem |
| `Records.NoViolations` | main.py:20-27 | the report is empty exactly when every field is admitted |
| `Records.ViolationsRanked` | main.py:20-27 | the report lists the offending fields in the order the schema declares them |
| `Records.ViolationsOnePerField` | main.py:20-27 | the report names each field at most once |
| `Records.Validate` | main.py:20-27 | a draft is admitted iff every field is admitted: id, name and city present, age > 0, gender one of the literals, height > 0, weight > 0; the admitted record carries exactly the draft's values; a refusal lists every offending field with its kind, each field once |
| `Records.Cents` | main.py:32 | two-decimal rounding: the result is within half a hundredth of the input, and a tie goes to the even neighbour |
| `Records.Round2Monotone` | main.py:32 | rounding to two decimals preserves order |
| `Records.Round2Exact` | main.py:32 | a number with at most two decimals rounds to itself |
| `Records.BmiOf` | main.py:31-33 | the bmi is a whole number of hundredths, within half a hundredth of weight / height² |
| `Records.Classify` | main.py:37-43 | the verdict is underweight iff bmi < 18.5, normal iff 18.5 <= bmi < 30, obese iff bmi >= 30; 18.5 is normal and 30 is obese |
| `Records.VerdictOfRatio` | main.py:31-43 | in terms of the unrounded weight/height², the verdict is underweight iff the ratio < 18.495 and obese iff it is >= 29.995 |
| `Records.Dump` | main.py:98 | the record is dumped without its id, here and at main.py:120; the stored bmi, computed at main.py:31-33, is weight / height² rounded, with height > 0 so the division is defined, and its verdict is the bucket of that bmi |
| `Records.DumpRoundTrip` | main.py:98 | a record stored without its id, then read back under that id, validates to the same record |
| `Updates.UpdateViolations` | main.py:46-52 | an update body is accepted iff every attribute it sets to a non-null value meets the record's bound: age > 0, gender a literal, height > 0, weight > 0; null is let through; the report lists exactly one violation per attribute set to an out-of-bounds value, with kind `InvalidEnum` for gender and `OutOfRange` otherwise, and nothing else |
| `Updates.ItemsOverlay` | main.py:110-113 | assigning the explicitly set items one after another gives the field-by-field merge |
| `Updates.MergeInto` | main.py:110-113 | the loop over the set keys overwrites exactly the fields the caller set and keeps every other field, the id included |
| `Updates.Revise` | main.py:109-120 | the revision succeeds exactly when every field of the merged record is admitted; a successful revision keeps the path's id, takes each set field from the update and every unset field from the stored entry, and yields a valid record |
| `Updates.ReviseAccepts` | main.py:109-120 | an update with no null and no out-of-bounds value, applied to a stored record, succeeds; the revised record takes each set attribute from the update and every other one from the stored record |
| `Updates.ReviseRejectsNull` | main.py:117 | an explicit null for any attribute, which the body check at main.py:47-52 lets through, makes the revalidation fail |
| `Updates.ReviseIgnoresDerived` | main.py:117-120 | the stored bmi and verdict have no influence on the revised record |
| `Updates.ReviseNoChange` | main.py:106-123 | an empty update of a record written by the API gives back the same record |
| `Updates.ReviseHeight` | main.py:110-123 | changing only the height keeps every other attribute, and bmi and verdict are recomputed from the new height and the stored weight |
| `Sorting.ParseSortField` | main.py:79-81 | the sort key is accepted iff it is `height`, `weight` or `bmi`, and each of the three strings selects its own key |
| `Sorting.ParseDirection` | main.py:83-88 | the direction is accepted iff it is `asc` or `desc`, and it is descending iff it is `desc` |
| `Sorting.Key` | main.py:89 | an entry's sort key is its stored height, weight or bmi, or 0 when the entry lacks that key; for an entry written by the API, the bmi key is weight / height² rounded |
| `Sorting.InsertPermutes` | main.py:89 | inserting an entry adds exactly that entry |
| `Sorting.InsertOrdered` | main.py:89 | inserting into an ordered sequence keeps it ordered in the chosen direction |
| `Sorting.InsertStable` | main.py:89 | an inserted entry goes after every entry that shares its key |
| `Sorting.SortBy` | main.py:88-89 | the sort returns a permutation of its input, ordered by key ascending or descending, and entries with equal keys keep their input order |
| `Sorting.SortExample` | main.py:88-89 | bmi values 18.0, 32.1, 24.0 sorted descending come out as 32.1, 24.0, 18.0 |
| `Sorting.MissingKeySortsAsZero` | main.py:89 | an entry without the key sorts as 0: ascending, it comes before an entry with bmi 18.0 |
| `Api.Remove` | main.py:133 | deleting a key keeps every other key, in order, and keeps the keys distinct |
| `Api.RemoveOnly` | main.py:133 | deleting a key that occurs at exactly one position leaves the keys before it and after it, in order, with nothing between them |
| `Api.RemoveAt` | main.py:133 | with distinct keys, deleting the key at a position leaves the keys before it and after it, in order, with nothing between them |
| `Api.Values` | main.py:89 | the document's values are listed in the order of its keys |
| `Api.PatientStore.Load` | main.py:8-11 | the store is the loaded document, with each key listed once |
| `Api.PatientStore.Get` | main.py:68-73 | a present id gives its stored entry; an absent id gives not-found |
| `Api.PatientStore.Sort` | main.py:75-90 | an unknown key fails with invalid-field before the direction is checked; an unknown direction fails with invalid-order; otherwise the result is the document's values, sorted stably by the key in that direction |
| `Api.PatientStore.Create` | main.py:92-101 | an invalid record fails with the validator's report, and a duplicate id fails; in both cases the document is unchanged; otherwise exactly that id is added, mapped to the record without its id and with its derived attributes, and nothing else changes |
| `Api.PatientStore.Update` | main.py:103-126 | an invalid body or an absent id fails and changes nothing; a merged record that fails revalidation changes nothing; otherwise only that id's entry changes, to the revised record with recomputed bmi and verdict; the key order never changes |
| `Api.PatientStore.Delete` | main.py:128-135 | a present id is removed with its entry and all other entries stay; an absent id fails with not-found and changes nothing |
| `Api.CreateThenGet` | main.py:92-98 | after a successful create, reading the id gives the stored entry, which validates back to the record that was sent |
| `Api.CreateTwice` | main.py:95-96 | a second create with the same id fails with duplicate-id and leaves the first record as stored |
| `Api.DeleteTwice` | main.py:131-133 | after a delete, reading the id, or deleting it again, fails with not-found |
| `Api.UpdateHeightZero` | main.py:51 | an update that sets height to 0 fails with an out-of-range error on height, and the document is unchanged |

## Left out

- Loading and saving the document (main.py:8-15) are left out. The store's
  fields stand for the document between a load and the save that follows
  a successful change. File I/O and JSON encoding are not modelled.
- The `/`, `/about` and `/view` routes return constant messages or the whole
  document unchanged, so they are left out.
- The sort route's `order` parameter defaults to `asc` (main.py:77). The
  model takes it as a required string, so an omitted order is the same as
  `Sort(sortBy, "asc")`.
- HTTP routing, status codes and message strings are left out. The outcomes
  are the `Error` datatype instead.
- Floating point is left out. Heights, weights and bmi are `real`, so the
  model does not capture binary representation error, overflow, or a
  height so small that its square underflows to 0.
- Records.Cents rounds the exact quotient weight / height². The source
  rounds the floating-point result of `weight / height**2`. So a quotient
  within float error of a half-hundredth may round the other way in the
  source.
- Pydantic's coercion of input types is left out. This includes a numeric
  string for age, or a float age with no fraction. Each attribute is
  modelled with its declared type.
- A stored entry whose value is null or of the wrong type is left out.
  Such an entry can only come from editing the file by hand, and sorting
  it would raise a type error when comparing. Stored keys may be missing.
  They are modelled with `Option`.
- Pydantic ignores keys the schema does not declare. A stored entry in the
  model holds only the schema's keys and the two derived ones.
- The default of 0 on an update's height and weight (main.py:51-52) is left
  out. An unset field is excluded before the merge, so the default never
  reaches the record. The model marks unset fields explicitly instead.
- Concurrent requests that load and save the same file are left out. One
  can lose another's change.
