/** The persistence layer: three tables (patients, weight logs, meal logs), an
    image bucket and the device id kept in `localStorage`. Every remote request
    may fail; which ones do is an input (`fails`, `Faults`). Ids the datastore
    generates, the clock and the random device id are inputs too. */
module SupabaseService {
  import opened Wrappers
  import opened Strings
  import opened Sorting
  import opened Types
  import opened Browser

  const DeviceIdKey := "dietcare_device_id"
  const AdminPassword := "admin1234"
  const MealImagesBucket := "meal-images"

  newtype byte = x: int | 0 <= x < 256

  /** A row of `patients`; `kakao_id` is a column the `Patient` record does not carry. */
  datatype PatientRow = PatientRow(
    id: string,
    deviceId: Option<string>,
    kakaoId: Option<string>,
    status: PatientStatus,
    name: string,
    phoneNumber: string,
    birthdate: Option<string>,
    joinedAt: string,
    age: int,
    targetWeight: real,
    currentWeight: real,
    startWeight: real)

  datatype WeightRow = WeightRow(id: string, patientId: string, date: string, weight: real)

  datatype MealRow = MealRow(
    id: string,
    patientId: string,
    date: string,
    uploadedAt: Option<string>,
    imageUrl: string,
    foodName: string,
    calories: int,
    analysis: string)

  /** The argument of `createPatient`: a patient without id and logs, plus an optional Kakao id. */
  datatype NewPatient = NewPatient(
    deviceId: Option<string>,
    status: PatientStatus,
    name: string,
    phoneNumber: string,
    birthdate: Option<string>,
    joinedAt: string,
    age: int,
    targetWeight: real,
    currentWeight: real,
    startWeight: real,
    kakaoId: Option<string>)

  /** The argument of `addMealLog`: a meal log without id. */
  datatype NewMeal = NewMeal(
    date: string,
    uploadedAt: Option<string>,
    imageUrl: string,
    foodName: string,
    calories: int,
    analysis: string)

  /** The three columns `updatePatient` sends; `None` is an `undefined` field,
      which the request leaves out. */
  datatype PatientUpdate = PatientUpdate(
    status: Option<PatientStatus>,
    currentWeight: Option<real>,
    targetWeight: Option<real>)

  /** The fields of `updateMealLog`; `None` is a field left `undefined`. */
  datatype MealUpdate = MealUpdate(
    date: Option<string>,
    foodName: Option<string>,
    calories: Option<int>,
    analysis: Option<string>)

  /** The three single-patient lookups. */
  datatype Query =
    | ByKakaoId(kakaoId: string)
    | ByCredentials(phoneNumber: string, name: string, birthdate: string)
    | ByDeviceId(deviceId: string)

  /** Which requests of a patient lookup fail: the patient query, the weight-log
      query, the meal-log query. */
  datatype Faults = Faults(patientQuery: bool, weightQuery: bool, mealQuery: bool)

  const NoFaults := Faults(false, false, false)

  predicate AnyFault(f: Faults) {
    f.patientQuery || f.weightQuery || f.mealQuery
  }

  datatype Blob = Blob(bytes: seq<byte>, contentType: Option<string>)

  /** What `uploadMealImage` is given: a compressed data URL, or the picked file. */
  datatype ImageSource = Encoded(dataUrl: string) | PickedFile(name: string, bytes: seq<byte>)

  // ----- device id -----

  function StoredDeviceId(items: map<string, string>): Option<string> {
    if DeviceIdKey in items then Some(items[DeviceIdKey]) else None
  }

  /** The id `getDeviceId` returns and the storage it leaves, given the id it
      would generate (`crypto.randomUUID()` or the time-based fallback). */
  function DeviceIdResolution(items: map<string, string>, generated: string): (r: (string, map<string, string>))
    ensures Truthy(StoredDeviceId(items)) ==> r == (items[DeviceIdKey], items)
    ensures !Truthy(StoredDeviceId(items)) ==> r == (generated, items[DeviceIdKey := generated])
  {
    if DeviceIdKey in items && items[DeviceIdKey] != "" then (items[DeviceIdKey], items)
    else (generated, items[DeviceIdKey := generated])
  }

  /** A generated id is kept: the next call returns the same id and changes
      nothing, whatever it would have generated. */
  lemma DeviceIdStable(items: map<string, string>, generated1: string, generated2: string)
    requires generated1 != ""
    ensures DeviceIdResolution(items, generated1).0 != ""
    ensures DeviceIdResolution(DeviceIdResolution(items, generated1).1, generated2) == DeviceIdResolution(items, generated1)
  {
  }

  method GetDeviceId(storage: LocalStorage, generated: string) returns (id: string)
    modifies storage
    ensures (id, storage.items) == DeviceIdResolution(old(storage.items), generated)
  {
    var stored := storage.GetItem(DeviceIdKey);
    if stored.Some? && stored.value != "" {
      id := stored.value;
    } else {
      id := generated;
      storage.SetItem(DeviceIdKey, id);
    }
  }

  // ----- rows to records -----

  function ToWeightLog(row: WeightRow): WeightLog {
    WeightLog(row.id, row.date, row.weight)
  }

  function ToMealLog(row: MealRow): MealLog {
    MealLog(row.id, row.date, row.uploadedAt, row.imageUrl, row.foodName, row.calories, row.analysis)
  }

  function ToWeightLogs(rows: seq<WeightRow>): (logs: seq<WeightLog>)
    ensures |logs| == |rows| && forall i :: 0 <= i < |rows| ==> logs[i] == ToWeightLog(rows[i])
  {
    seq(|rows|, i requires 0 <= i < |rows| => ToWeightLog(rows[i]))
  }

  function ToMealLogs(rows: seq<MealRow>): (logs: seq<MealLog>)
    ensures |logs| == |rows| && forall i :: 0 <= i < |rows| ==> logs[i] == ToMealLog(rows[i])
  {
    seq(|rows|, i requires 0 <= i < |rows| => ToMealLog(rows[i]))
  }

  /** The record built from a patient row and its (already selected) log rows. */
  function ToPatient(row: PatientRow, weights: seq<WeightRow>, meals: seq<MealRow>): Patient {
    Patient(row.id, row.deviceId, row.status, row.name, row.phoneNumber, row.birthdate, row.joinedAt,
            row.age, row.targetWeight, row.currentWeight, row.startWeight,
            ToWeightLogs(weights), ToMealLogs(meals))
  }

  /** `p` carries exactly the columns of `row`. */
  predicate Describes(p: Patient, row: PatientRow) {
    p.id == row.id && p.deviceId == row.deviceId && p.status == row.status && p.name == row.name
    && p.phoneNumber == row.phoneNumber && p.birthdate == row.birthdate && p.joinedAt == row.joinedAt
    && p.age == row.age && p.targetWeight == row.targetWeight && p.currentWeight == row.currentWeight
    && p.startWeight == row.startWeight
  }

  function WeightDate(row: WeightRow): string { row.date }
  function MealDate(row: MealRow): string { row.date }
  function JoinedAt(row: PatientRow): string { row.joinedAt }
  function LogDate(log: WeightLog): string { log.date }
  function MealLogDate(log: MealLog): string { log.date }
  function PatientJoinedAt(p: Patient): string { p.joinedAt }
  function PatientKey(row: PatientRow): string { row.id }
  function WeightKey(row: WeightRow): string { row.id }
  function MealKey(row: MealRow): string { row.id }

  function OwnsWeight(id: string): WeightRow -> bool {
    (row: WeightRow) => row.patientId == id
  }

  function OwnsMeal(id: string): MealRow -> bool {
    (row: MealRow) => row.patientId == id
  }

  /** `.eq('patient_id', id).order('date', { ascending: true })` on `weight_logs`. */
  function WeightRowsOf(rows: seq<WeightRow>, id: string): seq<WeightRow> {
    SortBy(Filter(rows, OwnsWeight(id)), WeightDate, true)
  }

  /** `.eq('patient_id', id).order('date', { ascending: false })` on `meal_logs`. */
  function MealRowsOf(rows: seq<MealRow>, id: string): seq<MealRow> {
    SortBy(Filter(rows, OwnsMeal(id)), MealDate, false)
  }

  lemma ToWeightLogsSpec(rows: seq<WeightRow>, asc: bool)
    ensures SortedBy(rows, WeightDate, asc) ==> SortedBy(ToWeightLogs(rows), LogDate, asc)
    ensures forall row :: row in rows ==> ToWeightLog(row) in ToWeightLogs(rows)
    ensures forall log :: log in ToWeightLogs(rows) ==> exists row :: row in rows && log == ToWeightLog(row)
  {
    var logs := ToWeightLogs(rows);
    forall row | row in rows ensures ToWeightLog(row) in logs {
      var i :| 0 <= i < |rows| && rows[i] == row;
      assert logs[i] == ToWeightLog(row);
    }
    forall log | log in logs ensures exists row :: row in rows && log == ToWeightLog(row) {
      var i :| 0 <= i < |logs| && logs[i] == log;
      assert rows[i] in rows;
    }
  }

  lemma ToMealLogsSpec(rows: seq<MealRow>, asc: bool)
    ensures SortedBy(rows, MealDate, asc) ==> SortedBy(ToMealLogs(rows), MealLogDate, asc)
    ensures forall row :: row in rows ==> ToMealLog(row) in ToMealLogs(rows)
    ensures forall log :: log in ToMealLogs(rows) ==> exists row :: row in rows && log == ToMealLog(row)
  {
    var logs := ToMealLogs(rows);
    forall row | row in rows ensures ToMealLog(row) in logs {
      var i :| 0 <= i < |rows| && rows[i] == row;
      assert logs[i] == ToMealLog(row);
    }
    forall log | log in logs ensures exists row :: row in rows && log == ToMealLog(row) {
      var i :| 0 <= i < |logs| && logs[i] == log;
      assert rows[i] in rows;
    }
  }

  /** A patient's weight rows: exactly those with its `patient_id`, by date ascending. */
  lemma WeightRowsOfSpec(rows: seq<WeightRow>, id: string)
    ensures SortedBy(WeightRowsOf(rows, id), WeightDate, true)
    ensures forall row :: row in WeightRowsOf(rows, id) <==> row in rows && row.patientId == id
  {
    var own := Filter(rows, OwnsWeight(id));
    SortBySorted(own, WeightDate, true);
    forall row ensures row in WeightRowsOf(rows, id) <==> row in rows && row.patientId == id {
      FilterMembers(rows, OwnsWeight(id), row);
      assert row in WeightRowsOf(rows, id) <==> row in multiset(WeightRowsOf(rows, id));
      assert row in own <==> row in multiset(own);
    }
  }

  /** A patient's meal rows: exactly those with its `patient_id`, by date descending. */
  lemma MealRowsOfSpec(rows: seq<MealRow>, id: string)
    ensures SortedBy(MealRowsOf(rows, id), MealDate, false)
    ensures forall row :: row in MealRowsOf(rows, id) <==> row in rows && row.patientId == id
  {
    var own := Filter(rows, OwnsMeal(id));
    SortBySorted(own, MealDate, false);
    forall row ensures row in MealRowsOf(rows, id) <==> row in rows && row.patientId == id {
      FilterMembers(rows, OwnsMeal(id), row);
      assert row in MealRowsOf(rows, id) <==> row in multiset(MealRowsOf(rows, id));
      assert row in own <==> row in multiset(own);
    }
  }

  /** The logs attached to a patient record are exactly the log rows that carry
      its id, weights by date ascending and meals by date descending. */
  lemma AttachedLogs(row: PatientRow, weightRows: seq<WeightRow>, mealRows: seq<MealRow>)
    ensures var p := ToPatient(row, WeightRowsOf(weightRows, row.id), MealRowsOf(mealRows, row.id));
      && Describes(p, row)
      && SortedBy(p.weightLogs, LogDate, true)
      && SortedBy(p.mealLogs, MealLogDate, false)
      && (forall w :: w in weightRows && w.patientId == row.id ==> ToWeightLog(w) in p.weightLogs)
      && (forall log :: log in p.weightLogs ==> exists w :: w in weightRows && w.patientId == row.id && log == ToWeightLog(w))
      && (forall m :: m in mealRows && m.patientId == row.id ==> ToMealLog(m) in p.mealLogs)
      && (forall log :: log in p.mealLogs ==> exists m :: m in mealRows && m.patientId == row.id && log == ToMealLog(m))
  {
    WeightRowsOfSpec(weightRows, row.id);
    MealRowsOfSpec(mealRows, row.id);
    ToWeightLogsSpec(WeightRowsOf(weightRows, row.id), true);
    ToMealLogsSpec(MealRowsOf(mealRows, row.id), false);
  }

  /** The rows the cascade delete of patient `id` keeps. */
  function NotWeightOf(id: string): WeightRow -> bool {
    (row: WeightRow) => row.patientId != id
  }

  function NotMealOf(id: string): MealRow -> bool {
    (row: MealRow) => row.patientId != id
  }

  function NotPatient(id: string): PatientRow -> bool {
    (row: PatientRow) => row.id != id
  }

  function OwnsWeightOfAny(ids: set<string>): WeightRow -> bool {
    (row: WeightRow) => row.patientId in ids
  }

  function OwnsMealOfAny(ids: set<string>): MealRow -> bool {
    (row: MealRow) => row.patientId in ids
  }

  /** `.in('patient_id', ids).order('date', { ascending: true })` on `weight_logs`. */
  function WeightRowsOfAll(rows: seq<WeightRow>, ids: set<string>): seq<WeightRow> {
    SortBy(Filter(rows, OwnsWeightOfAny(ids)), WeightDate, true)
  }

  /** `.in('patient_id', ids).order('date', { ascending: false })` on `meal_logs`. */
  function MealRowsOfAll(rows: seq<MealRow>, ids: set<string>): seq<MealRow> {
    SortBy(Filter(rows, OwnsMealOfAny(ids)), MealDate, false)
  }

  /** Each patient row with the log rows of the fetched lists that carry its id. */
  function AttachLogs(rows: seq<PatientRow>, weights: seq<WeightRow>, meals: seq<MealRow>): (r: seq<Patient>)
    ensures |r| == |rows|
    ensures forall i :: 0 <= i < |rows| ==> r[i] == ToPatient(rows[i], Filter(weights, OwnsWeight(rows[i].id)), Filter(meals, OwnsMeal(rows[i].id)))
  {
    seq(|rows|, i requires 0 <= i < |rows| =>
      ToPatient(rows[i], Filter(weights, OwnsWeight(rows[i].id)), Filter(meals, OwnsMeal(rows[i].id))))
  }

  /** Attaching logs keeps the order and the columns of the patient rows. */
  lemma AttachLogsRows(rows: seq<PatientRow>, weights: seq<WeightRow>, meals: seq<MealRow>)
    ensures forall i :: 0 <= i < |rows| ==> Describes(AttachLogs(rows, weights, meals)[i], rows[i])
    ensures SortedBy(rows, JoinedAt, false) ==> SortedBy(AttachLogs(rows, weights, meals), PatientJoinedAt, false)
  {
    var r := AttachLogs(rows, weights, meals);
    assert forall i :: 0 <= i < |rows| ==> PatientJoinedAt(r[i]) == JoinedAt(rows[i]);
  }

  // ----- lookups -----

  predicate Matches(q: Query, row: PatientRow) {
    match q
    case ByKakaoId(k) => row.kakaoId == Some(k)
    case ByCredentials(phone, name, birthdate) =>
      row.phoneNumber == phone && row.name == name && row.birthdate == Some(birthdate)
    case ByDeviceId(d) => row.deviceId == Some(d)
  }

  function Matching(q: Query): PatientRow -> bool {
    (row: PatientRow) => Matches(q, row)
  }

  // ----- updates -----

  function ApplyUpdate(row: PatientRow, u: PatientUpdate): PatientRow {
    row.(status := u.status.GetOr(row.status),
         currentWeight := u.currentWeight.GetOr(row.currentWeight),
         targetWeight := u.targetWeight.GetOr(row.targetWeight))
  }

  /** All columns other than status, current weight and target weight agree. */
  predicate SameExceptUpdatable(a: PatientRow, b: PatientRow) {
    a == b.(status := a.status, currentWeight := a.currentWeight, targetWeight := a.targetWeight)
  }

  /** `.update({ status, current_weight, target_weight }).eq('id', id)`. */
  function UpdatedRows(rows: seq<PatientRow>, id: string, u: PatientUpdate): (r: seq<PatientRow>)
    ensures |r| == |rows|
    ensures forall i :: 0 <= i < |r| ==> SameExceptUpdatable(r[i], rows[i])
    ensures forall i :: 0 <= i < |r| && rows[i].id != id ==> r[i] == rows[i]
    ensures forall i :: 0 <= i < |r| && rows[i].id == id ==>
      r[i].status == u.status.GetOr(rows[i].status)
      && r[i].currentWeight == u.currentWeight.GetOr(rows[i].currentWeight)
      && r[i].targetWeight == u.targetWeight.GetOr(rows[i].targetWeight)
  {
    seq(|rows|, i requires 0 <= i < |rows| => if rows[i].id == id then ApplyUpdate(rows[i], u) else rows[i])
  }

  /** Writing back the values a row already holds changes nothing: with unique
      ids, re-sending a fetched patient's own status and weights is a no-op. */
  lemma UpdateWithOwnValues(rows: seq<PatientRow>, row: PatientRow)
    requires UniqueBy(rows, PatientKey) && row in rows
    ensures UpdatedRows(rows, row.id, PatientUpdate(Some(row.status), Some(row.currentWeight), Some(row.targetWeight))) == rows
  {
    var u := PatientUpdate(Some(row.status), Some(row.currentWeight), Some(row.targetWeight));
    var r := UpdatedRows(rows, row.id, u);
    var k :| 0 <= k < |rows| && rows[k] == row;
    forall i | 0 <= i < |rows| ensures r[i] == rows[i] {
      if rows[i].id == row.id {
        assert PatientKey(rows[i]) == PatientKey(rows[k]);
        assert i == k;
      }
    }
  }

  function ApplyMealUpdate(row: MealRow, u: MealUpdate): MealRow {
    row.(date := u.date.GetOr(row.date),
         foodName := u.foodName.GetOr(row.foodName),
         calories := u.calories.GetOr(row.calories),
         analysis := u.analysis.GetOr(row.analysis))
  }

  /** `.update(updateData).eq('id', mealId)`: only the defined fields among date,
      food name, calories and analysis change, and only in the row with that id. */
  function UpdatedMeals(rows: seq<MealRow>, id: string, u: MealUpdate): (r: seq<MealRow>)
    ensures |r| == |rows|
    ensures forall i :: 0 <= i < |r| && rows[i].id != id ==> r[i] == rows[i]
    ensures forall i :: 0 <= i < |r| ==>
      r[i] == rows[i].(date := r[i].date, foodName := r[i].foodName, calories := r[i].calories, analysis := r[i].analysis)
    ensures forall i :: 0 <= i < |r| && rows[i].id == id ==>
      (u.date.None? ==> r[i].date == rows[i].date)
      && (u.foodName.None? ==> r[i].foodName == rows[i].foodName)
      && (u.calories.None? ==> r[i].calories == rows[i].calories)
      && (u.analysis.None? ==> r[i].analysis == rows[i].analysis)
  {
    seq(|rows|, i requires 0 <= i < |rows| => if rows[i].id == id then ApplyMealUpdate(rows[i], u) else rows[i])
  }

  function MealWithId(id: string): MealRow -> bool {
    (row: MealRow) => row.id == id
  }

  /** With unique ids, `.eq('id', id)` on the meal rows selects a single row
      exactly when some row has that id, and then it is that row. */
  lemma SingleMealWithId(rows: seq<MealRow>, id: string)
    requires UniqueBy(rows, MealKey)
    ensures |Filter(rows, MealWithId(id))| == 1 <==> exists row :: row in rows && row.id == id
    ensures |Filter(rows, MealWithId(id))| == 1 ==>
      Filter(rows, MealWithId(id))[0] in rows && Filter(rows, MealWithId(id))[0].id == id
  {
    var p := MealWithId(id);
    AtMostOne(rows, MealKey, p);
    if exists row :: row in rows && row.id == id {
      var row :| row in rows && row.id == id;
      FilterMembers(rows, p, row);
    }
    if |Filter(rows, p)| == 1 {
      FilterMembers(rows, p, Filter(rows, p)[0]);
    }
  }

  /** An update that leaves ids alone keeps them unique. */
  lemma UpdatedMealsUnique(rows: seq<MealRow>, id: string, u: MealUpdate)
    requires UniqueBy(rows, MealKey)
    ensures UniqueBy(UpdatedMeals(rows, id, u), MealKey)
  {
    var r := UpdatedMeals(rows, id, u);
    assert forall i :: 0 <= i < |r| ==> MealKey(r[i]) == MealKey(rows[i]);
  }

  // ----- inserts -----

  /** The row `createPatient` inserts: `kakao_id` and `birthdate` only when truthy. */
  function InsertedPatient(id: string, data: NewPatient): (row: PatientRow)
    ensures row.kakaoId.Some? <==> Truthy(data.kakaoId)
    ensures row.birthdate.Some? <==> Truthy(data.birthdate)
    ensures row.kakaoId.Some? ==> row.kakaoId == data.kakaoId
    ensures row.birthdate.Some? ==> row.birthdate == data.birthdate
  {
    PatientRow(id, data.deviceId, if Truthy(data.kakaoId) then data.kakaoId else None,
               data.status, data.name, data.phoneNumber,
               if Truthy(data.birthdate) then data.birthdate else None,
               data.joinedAt, data.age, data.targetWeight, data.currentWeight, data.startWeight)
  }

  /** The row `addMealLog` inserts: `uploaded_at` only when truthy. */
  function InsertedMeal(id: string, patientId: string, meal: NewMeal): (row: MealRow)
    ensures row.uploadedAt.Some? <==> Truthy(meal.uploadedAt)
    ensures row.uploadedAt.Some? ==> row.uploadedAt == meal.uploadedAt
  {
    MealRow(id, patientId, meal.date, if Truthy(meal.uploadedAt) then meal.uploadedAt else None,
            meal.imageUrl, meal.foodName, meal.calories, meal.analysis)
  }

  // ----- images -----

  /** The part after `;base64,`; when there is none, `atob` receives `undefined`,
      which it reads as the string "undefined". */
  function DataUrlPayload(s: string): string {
    var parts := Split(s, ";base64,");
    if |parts| >= 2 then parts[1] else "undefined"
  }

  /** `parts[0].split(':')[1]`. */
  function DataUrlContentType(s: string): Option<string> {
    var head := Split(Split(s, ";base64,")[0], ":");
    if |head| >= 2 then Some(head[1]) else None
  }

  /** The split at `;base64,` of a well-formed data URL. */
  lemma DataUrlSplit(mime: string, payload: string)
    requires forall i :: 0 <= i < |mime| ==> mime[i] != ':' && mime[i] != ';'
    requires forall i :: 0 <= i < |payload| ==> payload[i] != ';'
    ensures Split(DataUrl(mime, payload), ";base64,") == ["data:" + mime, payload]
  {
    var head := "data:" + mime;
    assert DataUrl(mime, payload) == head + ";base64," + payload;
    forall i | 0 <= i < |head| ensures head[i] != ';' {
      if i >= 5 { assert head[i] == mime[i - 5]; }
    }
    SplitAround(head, ";base64,", payload);
  }

  /** A well-formed data URL yields its MIME type and its payload. */
  lemma DataUrlParts(mime: string, payload: string)
    requires forall i :: 0 <= i < |mime| ==> mime[i] != ':' && mime[i] != ';'
    requires forall i :: 0 <= i < |payload| ==> payload[i] != ';'
    ensures DataUrlPayload(DataUrl(mime, payload)) == payload
    ensures DataUrlContentType(DataUrl(mime, payload)) == Some(mime)
  {
    DataUrlSplit(mime, payload);
    assert "data:" + mime == "data" + ":" + mime;
    SplitAround("data", ":", mime);
  }

  /** `uInt8Array[i] = raw.charCodeAt(i)`: a `Uint8Array` keeps the low 8 bits. */
  function Latin1Bytes(raw: string): (bytes: seq<byte>)
    ensures |bytes| == |raw|
  {
    seq(|raw|, i requires 0 <= i < |raw| => (raw[i] as int % 256) as byte)
  }

  function Latin1String(bytes: seq<byte>): (s: string)
    ensures |s| == |bytes|
  {
    seq(|bytes|, i requires 0 <= i < |bytes| => bytes[i] as int as char)
  }

  /** `atob` yields a binary string (every code below 256), so no byte is lost. */
  lemma Latin1RoundTrip(raw: string)
    requires forall i :: 0 <= i < |raw| ==> raw[i] as int < 256
    ensures Latin1String(Latin1Bytes(raw)) == raw
  {
  }

  /** `base64ToBlob`; `atob` is an input (`None` when it throws). */
  method Base64ToBlob(base64: string, atob: string -> Option<string>) returns (r: Option<Blob>)
    ensures r.None? <==> atob(DataUrlPayload(base64)).None?
    ensures r.Some? ==> r.value.bytes == Latin1Bytes(atob(DataUrlPayload(base64)).value)
    ensures r.Some? ==> r.value.contentType == DataUrlContentType(base64)
  {
    var decoded := atob(DataUrlPayload(base64));
    if decoded.None? {
      return None;
    }
    var raw := decoded.value;
    var buffer := new byte[|raw|];
    var i := 0;
    while i < |raw|
      invariant 0 <= i <= |raw|
      invariant forall k :: 0 <= k < i ==> buffer[k] == (raw[k] as int % 256) as byte
    {
      buffer[i] := (raw[i] as int % 256) as byte;
      i := i + 1;
    }
    r := Some(Blob(buffer[..], DataUrlContentType(base64)));
  }

  /** The bucket path of an upload: `<patient>/<ms>.jpg` for a data URL,
      `<patient>/<ms>.<last '.'-piece of the file name>` for a file. */
  function ImageFileName(image: ImageSource, patientId: string, now: nat): (r: string)
    ensures patientId + "/" + NatToString(now) + "." <= r
    ensures image.Encoded? ==> r[|patientId + "/" + NatToString(now) + "."|..] == "jpg"
  {
    match image
    case Encoded(_) => patientId + "/" + NatToString(now) + ".jpg"
    case PickedFile(name, _) =>
      var parts := Split(name, ".");
      patientId + "/" + NatToString(now) + "." + parts[|parts| - 1]
  }

  lemma PickedFileExtension(name: string, patientId: string, now: nat, bytes: seq<byte>)
    ensures ImageFileName(PickedFile(name, bytes), patientId, now)[|patientId + "/" + NatToString(now) + "."|..]
      == Split(name, ".")[|Split(name, ".")| - 1]
  {
    var prefix := patientId + "/" + NatToString(now) + ".";
    var last := Split(name, ".")[|Split(name, ".")| - 1];
    assert ImageFileName(PickedFile(name, bytes), patientId, now) == prefix + last;
  }

  /** A file's extension is its name after the last '.', and the whole name
      when it has none. */
  lemma FileExtension(name: string, patientId: string, now: nat, bytes: seq<byte>)
    ensures var ext := ImageFileName(PickedFile(name, bytes), patientId, now)[|patientId + "/" + NatToString(now) + "."|..];
      && IndexOf(ext, ".") == None
      && (IndexOf(name, ".") == None ==> ext == name)
      && (IndexOf(name, ".").Some? ==> EndsWith(name, "." + ext))
  {
    PickedFileExtension(name, patientId, now, bytes);
    LastDotPiece(name);
  }

  /** `name.split('.').pop()`: dot-free, the whole name when it has no dot,
      and otherwise the text after the name's last dot. */
  lemma LastDotPiece(name: string)
    ensures var last := Split(name, ".")[|Split(name, ".")| - 1];
      && IndexOf(last, ".") == None
      && (IndexOf(name, ".") == None ==> last == name)
      && (IndexOf(name, ".").Some? ==> EndsWith(name, "." + last))
  {
    SplitLast(name, ".");
    if IndexOf(name, ".").Some? {
      SplitLastSuffix(name, ".");
    } else {
      SplitHead(name, ".");
    }
  }

  /** Two data-URL uploads of one patient at different times get different
      names, so `upsert: false` never refuses the second. */
  lemma EncodedNamesDistinct(a: string, b: string, patientId: string, now1: nat, now2: nat)
    requires ImageFileName(Encoded(a), patientId, now1) == ImageFileName(Encoded(b), patientId, now2)
    ensures now1 == now2
  {
    var n1, n2 := NatToString(now1), NatToString(now2);
    var s := ImageFileName(Encoded(a), patientId, now1);
    var k := |patientId| + 1;
    assert |n1| == |n2|;
    assert s[k..k + |n1|] == n1;
    assert ImageFileName(Encoded(b), patientId, now2)[k..k + |n2|] == n2;
    NatToStringInjective(now1, now2);
  }

  /** The bytes an upload stores, when the source can be decoded. */
  function ImageBytes(image: ImageSource, atob: string -> Option<string>): Option<seq<byte>> {
    match image
    case Encoded(s) =>
      (match atob(DataUrlPayload(s))
       case None => None
       case Some(raw) => Some(Latin1Bytes(raw)))
    case PickedFile(_, bytes) => Some(bytes)
  }

  /** `adminLogin`. */
  function AdminLogin(password: string): (ok: bool)
    ensures ok <==> password == AdminPassword
  {
    password == AdminPassword
  }

  class Database {
    var patients: seq<PatientRow>
    var weightLogs: seq<WeightRow>
    var mealLogs: seq<MealRow>
    /** The `meal-images` bucket: path to contents. */
    var images: map<string, seq<byte>>
    /** The project URL public file URLs start with. */
    const projectUrl: string

    /** Every table's `id` is a primary key. */
    ghost predicate Valid()
      reads this
    {
      UniqueBy(patients, PatientKey) && UniqueBy(weightLogs, WeightKey) && UniqueBy(mealLogs, MealKey)
    }

    constructor(projectUrl: string)
      ensures Valid()
      ensures patients == [] && weightLogs == [] && mealLogs == [] && images == map[]
      ensures this.projectUrl == projectUrl
    {
      patients, weightLogs, mealLogs, images := [], [], [], map[];
      this.projectUrl := projectUrl;
    }

    function PatientIds(): set<string>
      reads this
    {
      set row | row in patients :: row.id
    }

    function WeightIds(): set<string>
      reads this
    {
      set row | row in weightLogs :: row.id
    }

    function MealIds(): set<string>
      reads this
    {
      set row | row in mealLogs :: row.id
    }

    /** `getPatientByKakaoId`, `getPatientByPhoneAndBirthdate`, `getPatientByDeviceId`:
        `.single()` on the matching patients, then its weight and meal logs; any
        error, including PGRST116 (no row, or more than one), gives `null`. */
    function FindPatient(q: Query, faults: Faults): (r: Option<Patient>)
      reads this
      ensures r.Some? ==> !AnyFault(faults)
      ensures r.Some? ==> exists row :: row in patients && Matches(q, row) && Describes(r.value, row)
                                        && forall other :: other in patients && Matches(q, other) ==> other == row
    {
      if faults.patientQuery then None
      else
        var matches := Filter(patients, Matching(q));
        if |matches| != 1 then None
        else if faults.weightQuery || faults.mealQuery then None
        else
          SingleFilterIsOnly(patients, Matching(q));
          Some(ToPatient(matches[0], WeightRowsOf(weightLogs, matches[0].id), MealRowsOf(mealLogs, matches[0].id)))
    }

    /** `getAllPatients`: patients by `joined_at` descending; all logs of those
        patients fetched at once and handed out by `patient_id`; a failed log
        query counts as no logs, a failed patient query as no patients. */
    function AllPatients(faults: Faults): (r: seq<Patient>)
      reads this
      ensures |r| == if faults.patientQuery then 0 else |patients|
    {
      if faults.patientQuery then []
      else
        var rows := SortBy(patients, JoinedAt, false);
        var weights := if faults.weightQuery then [] else WeightRowsOfAll(weightLogs, PatientIds());
        var meals := if faults.mealQuery then [] else MealRowsOfAll(mealLogs, PatientIds());
        assert |rows| == |multiset(rows)| == |multiset(patients)| == |patients|;
        AttachLogs(rows, weights, meals)
    }

    /** `createPatient`: one insert; the datastore generates the id. */
    method CreatePatient(data: NewPatient, newId: string, fails: bool) returns (r: Option<Patient>)
      requires Valid()
      modifies this
      ensures Valid()
      ensures r.Some? <==> !fails && newId !in old(PatientIds())
      ensures r.Some? ==> patients == old(patients) + [InsertedPatient(newId, data)]
      ensures r.Some? ==> r.value == ToPatient(InsertedPatient(newId, data), [], [])
      ensures r.None? ==> patients == old(patients)
      ensures weightLogs == old(weightLogs) && mealLogs == old(mealLogs) && images == old(images)
    {
      if fails || newId in PatientIds() {
        return None;
      }
      var row := InsertedPatient(newId, data);
      forall i | 0 <= i < |patients| ensures PatientKey(patients[i]) != PatientKey(row) {
        assert patients[i] in patients;
      }
      AppendUnique(patients, row, PatientKey);
      patients := patients + [row];
      r := Some(ToPatient(row, [], []));
    }

    /** `updatePatient`: writes status, current weight and target weight of the
        row with that id, and nothing else; succeeds unless the request fails. */
    method UpdatePatient(patientId: string, updates: PatientUpdate, fails: bool) returns (ok: bool)
      requires Valid()
      modifies this
      ensures Valid()
      ensures ok == !fails
      ensures patients == if fails then old(patients) else UpdatedRows(old(patients), patientId, updates)
      ensures weightLogs == old(weightLogs) && mealLogs == old(mealLogs) && images == old(images)
    {
      if fails {
        return false;
      }
      var updated := UpdatedRows(patients, patientId, updates);
      assert forall i :: 0 <= i < |updated| ==> PatientKey(updated[i]) == PatientKey(patients[i]);
      patients := updated;
      ok := true;
    }

    /** `addWeightLog`: insert the log, then set the patient's current weight;
        the result of the second request is not looked at. */
    method AddWeightLog(patientId: string, date: string, weight: real, newId: string, insertFails: bool, updateFails: bool)
      returns (r: Option<WeightLog>)
      requires Valid()
      modifies this
      ensures Valid()
      ensures r.Some? <==> !insertFails && newId !in old(WeightIds())
      ensures r.Some? ==> r.value == WeightLog(newId, date, weight)
      ensures r.Some? ==> weightLogs == old(weightLogs) + [WeightRow(newId, patientId, date, weight)]
      ensures r.Some? ==> patients == if updateFails then old(patients)
                                      else UpdatedRows(old(patients), patientId, PatientUpdate(None, Some(weight), None))
      ensures r.None? ==> weightLogs == old(weightLogs) && patients == old(patients)
      ensures mealLogs == old(mealLogs) && images == old(images)
    {
      if insertFails || newId in WeightIds() {
        return None;
      }
      var row := WeightRow(newId, patientId, date, weight);
      forall i | 0 <= i < |weightLogs| ensures WeightKey(weightLogs[i]) != WeightKey(row) {
        assert weightLogs[i] in weightLogs;
      }
      AppendUnique(weightLogs, row, WeightKey);
      weightLogs := weightLogs + [row];
      var _ := UpdatePatient(patientId, PatientUpdate(None, Some(weight), None), updateFails);
      r := Some(ToWeightLog(row));
    }

    /** `addMealLog`. */
    method AddMealLog(patientId: string, meal: NewMeal, newId: string, fails: bool) returns (r: Option<MealLog>)
      requires Valid()
      modifies this
      ensures Valid()
      ensures r.Some? <==> !fails && newId !in old(MealIds())
      ensures r.Some? ==> mealLogs == old(mealLogs) + [InsertedMeal(newId, patientId, meal)]
      ensures r.Some? ==> r.value == ToMealLog(InsertedMeal(newId, patientId, meal))
      ensures r.None? ==> mealLogs == old(mealLogs)
      ensures patients == old(patients) && weightLogs == old(weightLogs) && images == old(images)
    {
      if fails || newId in MealIds() {
        return None;
      }
      var row := InsertedMeal(newId, patientId, meal);
      forall i | 0 <= i < |mealLogs| ensures MealKey(mealLogs[i]) != MealKey(row) {
        assert mealLogs[i] in mealLogs;
      }
      AppendUnique(mealLogs, row, MealKey);
      mealLogs := mealLogs + [row];
      r := Some(ToMealLog(row));
    }

    /** `updateMealLog`: the update, then `.single()` on the updated rows. */
    method UpdateMealLog(mealId: string, updates: MealUpdate, fails: bool) returns (r: Option<MealLog>)
      requires Valid()
      modifies this
      ensures Valid()
      ensures mealLogs == if fails then old(mealLogs) else UpdatedMeals(old(mealLogs), mealId, updates)
      ensures r.Some? <==> !fails && mealId in old(MealIds())
      ensures r.Some? ==> exists k :: 0 <= k < |old(mealLogs)| && old(mealLogs)[k].id == mealId
                                     && r.value == ToMealLog(ApplyMealUpdate(old(mealLogs)[k], updates))
      ensures patients == old(patients) && weightLogs == old(weightLogs) && images == old(images)
    {
      if fails {
        return None;
      }
      SingleMealWithId(mealLogs, mealId);
      var matches := Filter(mealLogs, MealWithId(mealId));
      if |matches| == 1 {
        var k :| 0 <= k < |mealLogs| && mealLogs[k] == matches[0];
        r := Some(ToMealLog(ApplyMealUpdate(matches[0], updates)));
      } else {
        r := None;
      }
      UpdatedMealsUnique(mealLogs, mealId, updates);
      mealLogs := UpdatedMeals(mealLogs, mealId, updates);
    }

    /** `deleteMealLog`. */
    method DeleteMealLog(mealId: string, fails: bool) returns (ok: bool)
      requires Valid()
      modifies this
      ensures Valid()
      ensures ok == !fails
      ensures mealLogs == if fails then old(mealLogs) else Filter(old(mealLogs), (row: MealRow) => row.id != mealId)
      ensures patients == old(patients) && weightLogs == old(weightLogs) && images == old(images)
    {
      if fails {
        return false;
      }
      FilterUnique(mealLogs, MealKey, (row: MealRow) => row.id != mealId);
      mealLogs := Filter(mealLogs, (row: MealRow) => row.id != mealId);
      ok := true;
    }

    /** `deletePatient`: three deletes in turn (weight logs, meal logs, the
        patient); only the last one's error is reported. */
    method DeletePatient(patientId: string, weightFails: bool, mealFails: bool, patientFails: bool) returns (ok: bool)
      requires Valid()
      modifies this
      ensures Valid()
      ensures ok == !patientFails
      ensures weightLogs == if weightFails then old(weightLogs) else Filter(old(weightLogs), NotWeightOf(patientId))
      ensures mealLogs == if mealFails then old(mealLogs) else Filter(old(mealLogs), NotMealOf(patientId))
      ensures patients == if patientFails then old(patients) else Filter(old(patients), NotPatient(patientId))
      ensures images == old(images)
    {
      if !weightFails {
        FilterUnique(weightLogs, WeightKey, NotWeightOf(patientId));
        weightLogs := Filter(weightLogs, NotWeightOf(patientId));
      }
      if !mealFails {
        FilterUnique(mealLogs, MealKey, NotMealOf(patientId));
        mealLogs := Filter(mealLogs, NotMealOf(patientId));
      }
      if patientFails {
        return false;
      }
      FilterUnique(patients, PatientKey, NotPatient(patientId));
      patients := Filter(patients, NotPatient(patientId));
      ok := true;
    }

    /** `getPublicUrl` of a path in the `meal-images` bucket. */
    function PublicUrl(fileName: string): string {
      projectUrl + "/storage/v1/object/public/" + MealImagesBucket + "/" + fileName
    }

    /** `uploadMealImage`: decode (for a data URL), upload without overwriting,
        and return the public URL; any failure gives `null`. */
    method UploadMealImage(image: ImageSource, patientId: string, now: nat, atob: string -> Option<string>, fails: bool)
      returns (url: Option<string>)
      modifies this
      ensures url.Some? <==> ImageBytes(image, atob).Some? && !fails && ImageFileName(image, patientId, now) !in old(images)
      ensures url.Some? ==> url.value == PublicUrl(ImageFileName(image, patientId, now))
      ensures url.Some? ==> images == old(images)[ImageFileName(image, patientId, now) := ImageBytes(image, atob).value]
      ensures url.None? ==> images == old(images)
      ensures patients == old(patients) && weightLogs == old(weightLogs) && mealLogs == old(mealLogs)
    {
      var bytes: seq<byte>;
      match image {
        case Encoded(s) =>
          var blob := Base64ToBlob(s, atob);
          if blob.None? {
            return None;
          }
          bytes := blob.value.bytes;
        case PickedFile(_, b) =>
          bytes := b;
      }
      var fileName := ImageFileName(image, patientId, now);
      if fails || fileName in images {
        return None;
      }
      images := images[fileName := bytes];
      url := Some(PublicUrl(fileName));
    }
  }

  /** One patient row satisfies the query, and every row that does is that one. */
  ghost predicate SingleMatch(rows: seq<PatientRow>, q: Query) {
    exists row :: row in rows && Matches(q, row) && forall other :: other in rows && Matches(q, other) ==> other == row
  }

  lemma SingleMatchFilter(rows: seq<PatientRow>, q: Query)
    requires UniqueBy(rows, PatientKey)
    ensures |Filter(rows, Matching(q))| == 1 <==> SingleMatch(rows, q)
  {
    FilterSingle(rows, PatientKey, Matching(q));
  }

  /** A lookup finds a patient exactly when no request fails and one single
      patient row satisfies the query; the record describes that row, so a
      credential lookup has phone, name and birthdate all equal. */
  lemma FindPatientSpec(db: Database, q: Query, faults: Faults)
    requires db.Valid()
    ensures db.FindPatient(q, faults).Some? <==> !AnyFault(faults) && SingleMatch(db.patients, q)
    ensures db.FindPatient(q, faults).Some? ==>
      exists row :: row in db.patients && Matches(q, row) && Describes(db.FindPatient(q, faults).value, row)
  {
    SingleMatchFilter(db.patients, q);
    var matches := Filter(db.patients, Matching(q));
    if db.FindPatient(q, faults).Some? {
      FilterMembers(db.patients, Matching(q), matches[0]);
    }
  }

  /** A found patient carries exactly its own logs, weights by date ascending
      and meals by date descending. */
  lemma FoundPatientLogs(db: Database, q: Query, faults: Faults)
    requires db.FindPatient(q, faults).Some?
    ensures var p := db.FindPatient(q, faults).value;
      && SortedBy(p.weightLogs, LogDate, true)
      && SortedBy(p.mealLogs, MealLogDate, false)
      && (forall w :: w in db.weightLogs && w.patientId == p.id ==> ToWeightLog(w) in p.weightLogs)
      && (forall log :: log in p.weightLogs ==> exists w :: w in db.weightLogs && w.patientId == p.id && log == ToWeightLog(w))
      && (forall m :: m in db.mealLogs && m.patientId == p.id ==> ToMealLog(m) in p.mealLogs)
      && (forall log :: log in p.mealLogs ==> exists m :: m in db.mealLogs && m.patientId == p.id && log == ToMealLog(m))
  {
    var row := Filter(db.patients, Matching(q))[0];
    AttachedLogs(row, db.weightLogs, db.mealLogs);
  }

  /** The patient list has one record per stored patient, newest `joined_at` first. */
  /** Attaching logs to a reordering of `src` lists every row of `src` once
      and nothing else. */
  lemma AttachLogsReordered(src: seq<PatientRow>, rows: seq<PatientRow>, weights: seq<WeightRow>, meals: seq<MealRow>)
    requires multiset(rows) == multiset(src)
    ensures |AttachLogs(rows, weights, meals)| == |src|
    ensures forall row :: row in src ==>
      exists i :: 0 <= i < |AttachLogs(rows, weights, meals)| && Describes(AttachLogs(rows, weights, meals)[i], row)
    ensures forall i :: 0 <= i < |AttachLogs(rows, weights, meals)| ==>
      exists row :: row in src && Describes(AttachLogs(rows, weights, meals)[i], row)
  {
    assert |rows| == |multiset(rows)| == |multiset(src)| == |src|;
    AttachLogsRows(rows, weights, meals);
    forall row | row in src
      ensures exists i :: 0 <= i < |AttachLogs(rows, weights, meals)| && Describes(AttachLogs(rows, weights, meals)[i], row)
    {
      RowListed(src, rows, weights, meals, row);
    }
    forall i | 0 <= i < |AttachLogs(rows, weights, meals)|
      ensures exists row :: row in src && Describes(AttachLogs(rows, weights, meals)[i], row)
    {
      assert rows[i] in multiset(src);
    }
  }

  lemma RowListed(src: seq<PatientRow>, rows: seq<PatientRow>, weights: seq<WeightRow>, meals: seq<MealRow>, row: PatientRow)
    requires multiset(rows) == multiset(src) && row in src
    ensures exists i :: 0 <= i < |AttachLogs(rows, weights, meals)| && Describes(AttachLogs(rows, weights, meals)[i], row)
  {
    assert row in multiset(rows);
    var i :| 0 <= i < |rows| && rows[i] == row;
    AttachLogsRows(rows, weights, meals);
  }

  lemma AllPatientsOrder(db: Database, faults: Faults)
    ensures faults.patientQuery ==> db.AllPatients(faults) == []
    ensures !faults.patientQuery ==> |db.AllPatients(faults)| == |db.patients|
    ensures SortedBy(db.AllPatients(faults), PatientJoinedAt, false)
    ensures forall row :: row in db.patients && !faults.patientQuery ==>
      exists i :: 0 <= i < |db.AllPatients(faults)| && Describes(db.AllPatients(faults)[i], row)
    ensures forall i :: 0 <= i < |db.AllPatients(faults)| ==>
      exists row :: row in db.patients && Describes(db.AllPatients(faults)[i], row)
  {
    if !faults.patientQuery {
      var rows := SortBy(db.patients, JoinedAt, false);
      var weights := if faults.weightQuery then [] else WeightRowsOfAll(db.weightLogs, db.PatientIds());
      var meals := if faults.mealQuery then [] else MealRowsOfAll(db.mealLogs, db.PatientIds());
      assert db.AllPatients(faults) == AttachLogs(rows, weights, meals);
      SortBySorted(db.patients, JoinedAt, false);
      AttachLogsRows(rows, weights, meals);
      AttachLogsReordered(db.patients, rows, weights, meals);
    }
  }

  /** Every record of the list carries the same logs a single lookup of that
      patient attaches, or none when that log query failed. */
  lemma AllPatientsLogs(db: Database, faults: Faults, i: nat)
    requires i < |db.AllPatients(faults)|
    ensures var p := db.AllPatients(faults)[i];
      && p.weightLogs == (if faults.weightQuery then [] else ToWeightLogs(WeightRowsOf(db.weightLogs, p.id)))
      && p.mealLogs == (if faults.mealQuery then [] else ToMealLogs(MealRowsOf(db.mealLogs, p.id)))
  {
    var rows := SortBy(db.patients, JoinedAt, false);
    var row := rows[i];
    var ids := db.PatientIds();
    assert row in multiset(db.patients);
    assert row.id in ids;
    var inIds := OwnsWeightOfAny(ids);
    var mealInIds := OwnsMealOfAny(ids);
    if !faults.weightQuery {
      FilterSortBy(Filter(db.weightLogs, inIds), WeightDate, true, OwnsWeight(row.id));
      FilterRedundant(db.weightLogs, inIds, OwnsWeight(row.id));
    } else {
      assert Filter([], OwnsWeight(row.id)) == [];
    }
    if !faults.mealQuery {
      FilterSortBy(Filter(db.mealLogs, mealInIds), MealDate, false, OwnsMeal(row.id));
      FilterRedundant(db.mealLogs, mealInIds, OwnsMeal(row.id));
    } else {
      assert Filter([], OwnsMeal(row.id)) == [];
    }
  }
}
