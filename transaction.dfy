/**
 * A medical record (core/transaction.py).  The dataclass does not enforce its
 * type annotations and the network layer fills the fields straight from the
 * request body, so every field holds a JSON value; `JNull` plays Python's
 * `None`.
 */
module Transactions {
  import opened Wrappers
  import opened JsonData

  datatype MedicalTransaction = MedicalTransaction(
    patientId: Json,
    doctorId: Json,
    recordType: Json,
    data: Json,
    timestamp: Json,
    signature: Json)

  /** The dictionary form of a record: what the pool and the blocks hold. */
  type Record = map<string, Json>

  const PatientIdKey := "patient_id"
  const DoctorIdKey := "doctor_id"
  const RecordTypeKey := "record_type"
  const DataKey := "data"
  const TimestampKey := "timestamp"
  const SignatureKey := "signature"

  function RecordKeys(): set<string> {
    {PatientIdKey, DoctorIdKey, RecordTypeKey, DataKey, TimestampKey, SignatureKey}
  }

  /**
   * The dataclass constructor followed by `__post_init__`: the timestamp and
   * the signature default to `None`, and a missing timestamp is replaced by
   * the clock reading `clock`.
   */
  function NewMedicalTransaction(
    patientId: Json, doctorId: Json, recordType: Json, data: Json, clock: int,
    timestamp: Json := JNull, signature: Json := JNull): (t: MedicalTransaction)
    ensures t.timestamp != JNull
    ensures timestamp != JNull ==> t.timestamp == timestamp
    ensures timestamp == JNull ==> t.timestamp == JNum(clock)
    ensures t.patientId == patientId && t.doctorId == doctorId
    ensures t.recordType == recordType && t.data == data && t.signature == signature
  {
    var t0 := MedicalTransaction(patientId, doctorId, recordType, data, timestamp, signature);
    if t0.timestamp == JNull then t0.(timestamp := JNum(clock)) else t0
  }

  /** `to_dict`: exactly the six keys, each mapped to its field. */
  function ToDict(t: MedicalTransaction): (d: Record)
    ensures d.Keys == RecordKeys()
  {
    map[PatientIdKey := t.patientId, DoctorIdKey := t.doctorId,
        RecordTypeKey := t.recordType, DataKey := t.data,
        TimestampKey := t.timestamp, SignatureKey := t.signature]
  }

  /** The inverse of `ToDict`: defined exactly on dictionaries with the six keys. */
  function FromDict(d: Record): (r: Option<MedicalTransaction>)
    ensures r.Some? <==> d.Keys == RecordKeys()
  {
    if d.Keys == RecordKeys() then
      Some(MedicalTransaction(d[PatientIdKey], d[DoctorIdKey], d[RecordTypeKey],
                              d[DataKey], d[TimestampKey], d[SignatureKey]))
    else None
  }

  lemma ToDictFields(t: MedicalTransaction)
    ensures ToDict(t)[PatientIdKey] == t.patientId && ToDict(t)[DoctorIdKey] == t.doctorId
    ensures ToDict(t)[RecordTypeKey] == t.recordType && ToDict(t)[DataKey] == t.data
    ensures ToDict(t)[TimestampKey] == t.timestamp && ToDict(t)[SignatureKey] == t.signature
  {
  }

  /** Reading a record back from its dictionary gives the record. */
  lemma FromToDict(t: MedicalTransaction)
    ensures FromDict(ToDict(t)) == Some(t)
  {
  }

  /** A dictionary with the six keys is the dictionary of the record read from it. */
  lemma ToFromDict(d: Record)
    requires d.Keys == RecordKeys()
    ensures FromDict(d).Some? && ToDict(FromDict(d).value) == d
  {
  }

  /** Distinct records never share a dictionary, so `to_dict` loses nothing. */
  lemma ToDictInjective(t1: MedicalTransaction, t2: MedicalTransaction)
    requires ToDict(t1) == ToDict(t2)
    ensures t1 == t2
  {
  }
}
