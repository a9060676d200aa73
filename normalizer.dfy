/**
  `normalize_data` (ocr_utils.py): turns the loosely labelled mapping that
  the extraction model produced into the fixed-shape prescription record.
  Every slot is `data.get(label, default)`: the value under its label is
  copied unchanged, with no type check, and a missing label gives the slot's
  default.
 */
module Normalizer {
  import opened Outcomes
  import opened Json

  const NA: Value := Str("N/A")

  /** Python's `dict.get(key, default)`. */
  function Get(data: Mapping, key: string, default: Value): Value {
    if key in data then data[key] else default
  }

  /** The record produced by `normalize_data`. */
  function NormalizeData(data: Mapping): (r: Mapping)
    ensures r.Keys == {"Patient", "Doctor", "Date", "Medicines", "Notes", "raw_text"}
    ensures r["Patient"].Obj? && r["Patient"].fields.Keys == {"Name", "Age", "Gender"}
    ensures r["Doctor"].Obj? && r["Doctor"].fields.Keys == {"Name", "RegistrationNumber"}
  {
    var patient := map[
      "Name" := Get(data, "Patient Name", NA),
      "Age" := Get(data, "Patient Age", NA),
      "Gender" := Get(data, "Patient Gender", NA)];
    var doctor := map[
      "Name" := Get(data, "Doctor Name", NA),
      "RegistrationNumber" := Get(data, "Doctor Registration Number", NA)];
    assert patient.Keys == {"Name", "Age", "Gender"};
    assert doctor.Keys == {"Name", "RegistrationNumber"};
    map[
      "Patient" := Obj(patient),
      "Doctor" := Obj(doctor),
      "Date" := Get(data, "Date of prescription", NA),
      "Medicines" := Get(data, "Medications", List([])),
      "Notes" := Get(data, "Instructions or additional notes", NA),
      "raw_text" := Get(data, "raw_text", Str(""))]
  }

  // ---------------------------------------------------------------------
  // The slot table: an independent description of the nine slots, each
  // with its source label, its default and its place in the record.
  // ---------------------------------------------------------------------

  datatype Slot =
    | PatientName | PatientAge | PatientGender
    | DoctorName | DoctorRegistration
    | Date | Medicines | Notes | RawText

  /** The label under which the extraction result carries the slot. */
  function Label(s: Slot): string {
    match s
    case PatientName => "Patient Name"
    case PatientAge => "Patient Age"
    case PatientGender => "Patient Gender"
    case DoctorName => "Doctor Name"
    case DoctorRegistration => "Doctor Registration Number"
    case Date => "Date of prescription"
    case Medicines => "Medications"
    case Notes => "Instructions or additional notes"
    case RawText => "raw_text"
  }

  function Default(s: Slot): Value {
    match s
    case Medicines => List([])
    case RawText => Str("")
    case _ => NA
  }

  const SourceLabels: set<string> := {
    "Patient Name", "Patient Age", "Patient Gender", "Doctor Name",
    "Doctor Registration Number", "Date of prescription", "Medications",
    "Instructions or additional notes", "raw_text"}

  function Field(rec: Mapping, key: string): Option<Value> {
    if key in rec then Some(rec[key]) else None
  }

  function SubField(rec: Mapping, group: string, key: string): Option<Value> {
    if group in rec && rec[group].Obj? && key in rec[group].fields
    then Some(rec[group].fields[key]) else None
  }

  /** Where the slot lives in a canonical record (None if it is absent). */
  function Read(rec: Mapping, s: Slot): Option<Value> {
    match s
    case PatientName => SubField(rec, "Patient", "Name")
    case PatientAge => SubField(rec, "Patient", "Age")
    case PatientGender => SubField(rec, "Patient", "Gender")
    case DoctorName => SubField(rec, "Doctor", "Name")
    case DoctorRegistration => SubField(rec, "Doctor", "RegistrationNumber")
    case Date => Field(rec, "Date")
    case Medicines => Field(rec, "Medicines")
    case Notes => Field(rec, "Notes")
    case RawText => Field(rec, "raw_text")
  }

  /** The shape the UI layer reads: the five exported keys, with Patient and
      Doctor as mappings holding their sub-fields. */
  predicate Canonical(rec: Mapping) {
    && {"Patient", "Doctor", "Date", "Medicines", "Notes"} <= rec.Keys
    && rec["Patient"].Obj? && rec["Patient"].fields.Keys == {"Name", "Age", "Gender"}
    && rec["Doctor"].Obj? && rec["Doctor"].fields.Keys == {"Name", "RegistrationNumber"}
  }

  // ---------------------------------------------------------------------
  // Properties of normalize_data
  // ---------------------------------------------------------------------

  lemma LabelsAreDistinct(s: Slot, t: Slot)
    ensures Label(s) == Label(t) <==> s == t
    ensures Label(s) in SourceLabels
  {
  }

  /** Every slot holds the input's value under its own label when that label
      is present, and the slot's default otherwise. */
  lemma NormalizeSlot(data: Mapping, s: Slot)
    ensures Read(NormalizeData(data), s) ==
      Some(if Label(s) in data then data[Label(s)] else Default(s))
  {
  }

  /** Total defaulting: the empty mapping gives every slot its default. */
  lemma NormalizeEmpty(s: Slot)
    ensures Read(NormalizeData(map[]), s) == Some(Default(s))
  {
    NormalizeSlot(map[], s);
  }

  /** Each slot depends only on its own label. */
  lemma NormalizeSlotIsLocal(d1: Mapping, d2: Mapping, s: Slot)
    requires Label(s) in d1 <==> Label(s) in d2
    requires Label(s) in d1 ==> d1[Label(s)] == d2[Label(s)]
    ensures Read(NormalizeData(d1), s) == Read(NormalizeData(d2), s)
  {
    NormalizeSlot(d1, s);
    NormalizeSlot(d2, s);
  }

  /** Keys outside the nine labels never affect the record. */
  lemma NormalizeIgnoresOtherKeys(data: Mapping, extra: Mapping)
    requires extra.Keys !! SourceLabels
    ensures NormalizeData(data + extra) == NormalizeData(data)
  {
    var d := data + extra;
    assert forall k :: k in SourceLabels ==> Get(d, k, NA) == Get(data, k, NA);
    assert Get(d, "Medications", List([])) == Get(data, "Medications", List([]));
    assert Get(d, "raw_text", Str("")) == Get(data, "raw_text", Str(""));
  }

  /** Inputs that agree slot by slot, once defaults are filled in, give the
      same record. */
  lemma {:induction false} NormalizeAgreeing(d1: Mapping, d2: Mapping)
    requires forall s: Slot :: Get(d1, Label(s), Default(s)) == Get(d2, Label(s), Default(s))
    ensures NormalizeData(d1) == NormalizeData(d2)
  {
    assert Get(d1, Label(PatientName), Default(PatientName)) == Get(d2, Label(PatientName), Default(PatientName));
    assert Get(d1, Label(PatientAge), Default(PatientAge)) == Get(d2, Label(PatientAge), Default(PatientAge));
    assert Get(d1, Label(PatientGender), Default(PatientGender)) == Get(d2, Label(PatientGender), Default(PatientGender));
    assert Get(d1, Label(DoctorName), Default(DoctorName)) == Get(d2, Label(DoctorName), Default(DoctorName));
    assert Get(d1, Label(DoctorRegistration), Default(DoctorRegistration)) == Get(d2, Label(DoctorRegistration), Default(DoctorRegistration));
    assert Get(d1, Label(Date), Default(Date)) == Get(d2, Label(Date), Default(Date));
    assert Get(d1, Label(Medicines), Default(Medicines)) == Get(d2, Label(Medicines), Default(Medicines));
    assert Get(d1, Label(Notes), Default(Notes)) == Get(d2, Label(Notes), Default(Notes));
    assert Get(d1, Label(RawText), Default(RawText)) == Get(d2, Label(RawText), Default(RawText));
  }

  /** Two inputs give the same record exactly when they agree slot by slot
      once defaults are filled in. */
  lemma {:induction false} NormalizeEqualIff(d1: Mapping, d2: Mapping)
    ensures NormalizeData(d1) == NormalizeData(d2) <==>
      forall s: Slot :: Get(d1, Label(s), Default(s)) == Get(d2, Label(s), Default(s))
  {
    if NormalizeData(d1) == NormalizeData(d2) {
      forall s: Slot ensures Get(d1, Label(s), Default(s)) == Get(d2, Label(s), Default(s)) {
        NormalizeSlot(d1, s);
        NormalizeSlot(d2, s);
      }
    }
    if forall s: Slot :: Get(d1, Label(s), Default(s)) == Get(d2, Label(s), Default(s)) {
      NormalizeAgreeing(d1, d2);
    }
  }

  /** The normalised record has the shape the UI reads. */
  lemma NormalizeIsCanonical(data: Mapping)
    ensures Canonical(NormalizeData(data))
  {
  }

  /** Medications are passed through as they are: same items, same order,
      no per-item defaults. */
  lemma NormalizeKeepsMedicines(data: Mapping, meds: seq<Value>)
    requires "Medications" in data && data["Medications"] == List(meds)
    ensures NormalizeData(data)["Medicines"] == List(meds)
  {
  }

  /** A worked example: one patient name and one partially filled medicine. */
  lemma NormalizeExample()
    ensures
      var med := Obj(map["Name" := Str("Ibuprofen"), "Dosage" := Str("200mg")]);
      var r := NormalizeData(map["Patient Name" := Str("Jane Doe"), "Medications" := List([med])]);
      && r["Patient"] == Obj(map["Name" := Str("Jane Doe"), "Age" := NA, "Gender" := NA])
      && r["Medicines"] == List([med])
      && r["Notes"] == NA
      && r["raw_text"] == Str("")
  {
  }
}
