/** The top-level component: which screen a patient sees, the start-up
    lookup (Kakao id first, then the device id), signup, the simple login,
    the Kakao login, and the clinic's session. The datastore and the
    browser's storage are objects the handlers update; request failures and
    generated ids are inputs. */
module App {
  import opened Wrappers
  import opened Sorting
  import opened Types
  import opened Browser
  import opened Http
  import opened SupabaseService
  import KakaoService
  import AdminDashboard

  const KakaoIdKey := "dietcare_kakao_id"
  const AdminTokenKey := "dietcare_admin_token"
  const AdminTokenValue := "admin_logged_in"

  /** The patient-side screens. */
  datatype View = Landing | Login | Signup | PendingView | Dashboard

  /** The signup form's fields, all as typed. */
  datatype SignupForm = SignupForm(name: string, phone: string, birthdate: string, age: string, weight: string, target: string)

  datatype LoginForm = LoginForm(name: string, phone: string, birthdate: string)

  const EmptySignupForm := SignupForm("", "", "", "", "", "")
  const EmptyLoginForm := LoginForm("", "", "")

  /** Where a resolved patient is sent: active to the dashboard, pending to
      the waiting screen, rejected back to the landing page. */
  function ViewFor(status: PatientStatus): (v: View)
    ensures v == Dashboard <==> status == Active
    ensures v == PendingView <==> status == Pending
    ensures v == Landing <==> status == Rejected
  {
    match status
    case Active => Dashboard
    case Pending => PendingView
    case Rejected => Landing
  }

  /** `parseFloat(x) || 0`, where `None` stands for `NaN`. */
  function RealOrZero(x: Option<real>): real {
    if x.Some? then x.value else 0.0
  }

  /** The record `handlePatientSignup` sends: pending, starting at the current
      weight, with the birthdate only when one was typed and the Kakao id only
      when one is stored. `parseInt` and `parseFloat` are inputs. */
  function SignupRecord(form: SignupForm, deviceId: string, kakaoId: Option<string>, joinedAt: string,
                        parseInt: string -> Option<int>, parseFloat: string -> Option<real>): (r: NewPatient)
    ensures r.status == Pending && r.deviceId == Some(deviceId) && r.joinedAt == joinedAt
    ensures r.name == form.name && r.phoneNumber == form.phone
    ensures r.startWeight == r.currentWeight
    ensures r.birthdate.Some? <==> form.birthdate != ""
    ensures r.birthdate.Some? ==> r.birthdate.value == form.birthdate
    ensures r.kakaoId.Some? <==> Truthy(kakaoId)
    ensures r.kakaoId.Some? ==> r.kakaoId == kakaoId
    ensures parseInt(form.age).Some? ==> r.age == parseInt(form.age).value
    ensures parseInt(form.age).None? ==> r.age == 0
    ensures r.currentWeight == RealOrZero(parseFloat(form.weight)) && r.targetWeight == RealOrZero(parseFloat(form.target))
    ensures parseFloat(form.weight).None? ==> r.currentWeight == 0.0
  {
    NewPatient(
      Some(deviceId), Pending, form.name, form.phone,
      if form.birthdate != "" then Some(form.birthdate) else None,
      joinedAt, OrZero(parseInt(form.age)),
      RealOrZero(parseFloat(form.target)), RealOrZero(parseFloat(form.weight)), RealOrZero(parseFloat(form.weight)),
      if Truthy(kakaoId) then kakaoId else None)
  }

  /** `prev.map(p => p.id === updated.id ? updated : p)`. */
  function ReplaceById(patients: seq<Patient>, updated: Patient): (r: seq<Patient>)
    ensures |r| == |patients|
    ensures forall i :: 0 <= i < |r| && patients[i].id != updated.id ==> r[i] == patients[i]
    ensures forall i :: 0 <= i < |r| && patients[i].id == updated.id ==> r[i] == updated
  {
    seq(|patients|, i requires 0 <= i < |patients| => if patients[i].id == updated.id then updated else patients[i])
  }

  /** The update `updatePatient` receives for a whole record: its status and
      both weights; the other columns are not sent. */
  function WholeRecordUpdate(p: Patient): PatientUpdate {
    PatientUpdate(Some(p.status), Some(p.currentWeight), Some(p.targetWeight))
  }

  /** The lookup by the saved Kakao id, tried only when a Kakao session is
      stored and the saved id is non-empty. */
  function KakaoLookup(db: Database, items: map<string, string>, faults: Faults): (r: Option<Patient>)
    reads db
    ensures r.Some? ==> KakaoService.IsKakaoLoggedIn(items)
    ensures r.Some? ==> exists row :: row in db.patients && row.kakaoId == Some(items[KakaoService.UserIdKey]) && Describes(r.value, row)
  {
    if KakaoService.IsKakaoLoggedIn(items) && Truthy(KakaoService.GetSavedKakaoUserId(items))
    then db.FindPatient(ByKakaoId(items[KakaoService.UserIdKey]), faults)
    else None
  }

  /** A stored clinic session: the token holds the fixed marker. */
  predicate AdminTokenStored(items: map<string, string>) {
    AdminTokenKey in items && items[AdminTokenKey] == AdminTokenValue
  }

  /** Approving a listed patient moves every entry with its id from the
      pending list to the active list. */
  lemma ApprovalMovesToActive(patients: seq<Patient>, p: Patient)
    requires p in patients
    ensures var after := ReplaceById(patients, AdminDashboard.HandleApprove(p, true).value);
      && p.(status := Active) in AdminDashboard.ActivePatients(after)
      && (forall q :: q in AdminDashboard.PendingPatients(after) ==> q.id != p.id)
      && |after| == |patients|
  {
    var approved := AdminDashboard.HandleApprove(p, true).value;
    var after := ReplaceById(patients, approved);
    var k :| 0 <= k < |patients| && patients[k] == p;
    assert after[k] == approved;
    forall q | q in AdminDashboard.PendingPatients(after) ensures q.id != p.id {
      var j :| 0 <= j < |after| && after[j] == q;
    }
  }

  /** Rejecting a listed patient sends them to neither list. */
  lemma RejectionLeavesBothLists(patients: seq<Patient>, p: Patient)
    requires p in patients
    ensures var after := ReplaceById(patients, AdminDashboard.HandleReject(p, true).value);
      forall q :: q in AdminDashboard.PendingPatients(after) + AdminDashboard.ActivePatients(after) ==> q.id != p.id
  {
    var rejected := AdminDashboard.HandleReject(p, true).value;
    var after := ReplaceById(patients, rejected);
    forall q | q in AdminDashboard.PendingPatients(after) + AdminDashboard.ActivePatients(after) ensures q.id != p.id {
      var j :| 0 <= j < |after| && after[j] == q;
    }
  }

  /** The patient `LoadPatientData` resolves from a given storage: the Kakao
      lookup's, or else the device lookup's. */
  function StartUpLookup(db: Database, items: map<string, string>, generated: string,
                         kakaoFaults: Faults, deviceFaults: Faults): Option<Patient>
    reads db
  {
    var byKakao := KakaoLookup(db, items, kakaoFaults);
    if byKakao.Some? then byKakao
    else db.FindPatient(ByDeviceId(DeviceIdResolution(items, generated).0), deviceFaults)
  }

  /** After a signup on this device, with no Kakao session stored and a device
      id no other patient has, start-up finds the signed-up row (unless one of
      the device lookup's requests fails) and shows the waiting screen. */
  lemma SignupThenPending(db: Database, row: PatientRow, items: map<string, string>, generated: string,
                          kakaoFaults: Faults, deviceFaults: Faults)
    requires db.Valid() && row in db.patients
    requires row.status == Pending && row.deviceId.Some?
    requires forall other :: other in db.patients && other.deviceId == row.deviceId ==> other.id == row.id
    requires DeviceIdKey in items && items[DeviceIdKey] == row.deviceId.value != ""
    requires !KakaoService.IsKakaoLoggedIn(items)
    ensures var found := StartUpLookup(db, items, generated, kakaoFaults, deviceFaults);
      && (found.Some? <==> !AnyFault(deviceFaults))
      && (found.Some? ==> Describes(found.value, row) && ViewFor(found.value.status) == PendingView)
  {
    var q := ByDeviceId(row.deviceId.value);
    assert DeviceIdResolution(items, generated).0 == row.deviceId.value;
    forall other | other in db.patients && Matches(q, other) ensures other == row {
      SameKeySameElement(db.patients, PatientKey, other, row);
    }
    assert Matches(q, row);
    FindPatientSpec(db, q, deviceFaults);
    var found := db.FindPatient(q, deviceFaults);
    if found.Some? {
      var described :| described in db.patients && Matches(q, described) && Describes(found.value, described);
      assert described == row;
    }
  }

  /** A login by phone, name and birthdate names a patient row carrying
      exactly those three values. */
  lemma LoginMatchesCredentials(db: Database, form: LoginForm, faults: Faults)
    requires db.Valid()
    requires db.FindPatient(ByCredentials(form.phone, form.name, form.birthdate), faults).Some?
    ensures var p := db.FindPatient(ByCredentials(form.phone, form.name, form.birthdate), faults).value;
      p.phoneNumber == form.phone && p.name == form.name && p.birthdate == Some(form.birthdate)
  {
    FindPatientSpec(db, ByCredentials(form.phone, form.name, form.birthdate), faults);
  }

  class App {
    const db: Database
    const storage: LocalStorage
    var isLoading: bool
    /** The clinic's patient list. */
    var patients: seq<Patient>
    var patientView: View
    var currentPatient: Option<Patient>
    var signupForm: SignupForm
    var loginForm: LoginForm
    var isAdminLoggedIn: bool

    ghost predicate Valid()
      reads this, db
    {
      db.Valid()
    }

    /** The initial state, before the start-up effects run. */
    constructor(db: Database, storage: LocalStorage)
      requires db.Valid()
      ensures Valid() && this.db == db && this.storage == storage
      ensures isLoading && patients == [] && patientView == Landing && currentPatient == None
      ensures signupForm == EmptySignupForm && loginForm == EmptyLoginForm && !isAdminLoggedIn
    {
      this.db, this.storage := db, storage;
      isLoading, patients, patientView, currentPatient := true, [], Landing, None;
      signupForm, loginForm, isAdminLoggedIn := EmptySignupForm, EmptyLoginForm, false;
    }

    /** Sends a resolved patient to its screen; a rejected patient arriving
        from a stored identity loses the stored device id. */
    method Route(found: Patient, forgetRejected: bool)
      modifies this, storage
      ensures patientView == ViewFor(found.status)
      ensures currentPatient == if found.status == Active then Some(found) else old(currentPatient)
      ensures storage.items == if forgetRejected && found.status == Rejected then old(storage.items) - {DeviceIdKey} else old(storage.items)
      ensures isLoading == old(isLoading) && patients == old(patients) && signupForm == old(signupForm)
      ensures loginForm == old(loginForm) && isAdminLoggedIn == old(isAdminLoggedIn)
    {
      match found.status
      case Active =>
        currentPatient := Some(found);
        patientView := Dashboard;
      case Pending =>
        patientView := PendingView;
      case Rejected =>
        if forgetRejected {
          storage.RemoveItem(DeviceIdKey);
        }
        patientView := Landing;
    }

    /** The device-id lookup, made only when the earlier lookup found nobody. */
    method FallBackToDevice(earlier: Option<Patient>, generated: string, faults: Faults) returns (found: Option<Patient>)
      modifies storage
      ensures var device := DeviceIdResolution(old(storage.items), generated);
        && found == (if earlier.Some? then earlier else db.FindPatient(ByDeviceId(device.0), faults))
        && storage.items == (if earlier.Some? then old(storage.items) else device.1)
    {
      found := earlier;
      if found.None? {
        var deviceId := GetDeviceId(storage, generated);
        found := db.FindPatient(ByDeviceId(deviceId), faults);
      }
    }

    /** `loadPatientData`: the Kakao lookup when a session is stored, and the
        device-id lookup when that finds nobody. */
    method LoadPatientData(generated: string, kakaoFaults: Faults, deviceFaults: Faults) returns (found: Option<Patient>)
      requires Valid()
      modifies this, storage
      ensures Valid() && !isLoading
      ensures var byKakao := KakaoLookup(db, old(storage.items), kakaoFaults);
        var device := DeviceIdResolution(old(storage.items), generated);
        var looked := if byKakao.Some? then old(storage.items) else device.1;
        && found == (if byKakao.Some? then byKakao else db.FindPatient(ByDeviceId(device.0), deviceFaults))
        && storage.items == if found.Some? && found.value.status == Rejected then looked - {DeviceIdKey} else looked
      ensures found == StartUpLookup(db, old(storage.items), generated, kakaoFaults, deviceFaults)
      ensures found.None? ==> patientView == Landing
      ensures found.Some? ==> patientView == ViewFor(found.value.status)
      ensures currentPatient == if found.Some? && found.value.status == Active then found else old(currentPatient)
      ensures patients == old(patients) && signupForm == old(signupForm) && loginForm == old(loginForm)
      ensures isAdminLoggedIn == old(isAdminLoggedIn)
    {
      isLoading := true;
      var byKakao := LookUpKakaoSession(kakaoFaults);
      found := FallBackToDevice(byKakao, generated, deviceFaults);
      RouteOrLanding(found);
      isLoading := false;
    }

    /** The end of `loadPatientData`: the patient's screen, or the landing
        page when nobody was found. */
    method RouteOrLanding(found: Option<Patient>)
      modifies this, storage
      ensures storage.items == if found.Some? && found.value.status == Rejected then old(storage.items) - {DeviceIdKey} else old(storage.items)
      ensures patientView == if found.Some? then ViewFor(found.value.status) else Landing
      ensures currentPatient == if found.Some? && found.value.status == Active then found else old(currentPatient)
      ensures isLoading == old(isLoading) && patients == old(patients) && signupForm == old(signupForm)
      ensures loginForm == old(loginForm) && isAdminLoggedIn == old(isAdminLoggedIn)
    {
      if found.Some? {
        Route(found.value, true);
      } else {
        patientView := Landing;
      }
    }

    /** The first half of `loadPatientData`: the Kakao lookup, made only when
        a Kakao session with a saved id is stored. */
    method LookUpKakaoSession(faults: Faults) returns (byKakao: Option<Patient>)
      ensures byKakao == KakaoLookup(db, storage.items, faults)
      ensures byKakao.Some? ==> KakaoService.IsKakaoLoggedIn(storage.items)
    {
      byKakao := None;
      if KakaoService.IsKakaoLoggedIn(storage.items) {
        var kakaoUserId := storage.GetItem(KakaoService.UserIdKey);
        if Truthy(kakaoUserId) {
          byKakao := db.FindPatient(ByKakaoId(kakaoUserId.value), faults);
        }
      }
    }

    /** `loadAllPatients`. */
    method LoadAllPatients(faults: Faults)
      modifies this
      ensures patients == db.AllPatients(faults)
      ensures isLoading == old(isLoading) && patientView == old(patientView) && currentPatient == old(currentPatient)
      ensures signupForm == old(signupForm) && loginForm == old(loginForm) && isAdminLoggedIn == old(isAdminLoggedIn)
    {
      patients := db.AllPatients(faults);
    }

    /** The start-up check of the clinic's session. */
    method CheckAdminToken(faults: Faults)
      modifies this
      ensures AdminTokenStored(storage.items) ==> isAdminLoggedIn && patients == db.AllPatients(faults)
      ensures !AdminTokenStored(storage.items) ==> isAdminLoggedIn == old(isAdminLoggedIn) && patients == old(patients)
      ensures isLoading == old(isLoading) && patientView == old(patientView) && currentPatient == old(currentPatient)
      ensures signupForm == old(signupForm) && loginForm == old(loginForm)
    {
      var adminToken := storage.GetItem(AdminTokenKey);
      if adminToken == Some(AdminTokenValue) {
        isAdminLoggedIn := true;
        LoadAllPatients(faults);
      }
    }

    /** `handleAdminLogin`: the page has already checked the password, which
        is not looked at again; this stores the session and loads the list. */
    method HandleAdminLogin(password: string, faults: Faults)
      modifies this, storage
      ensures storage.items == old(storage.items)[AdminTokenKey := AdminTokenValue]
      ensures isAdminLoggedIn && patients == db.AllPatients(faults)
      ensures isLoading == old(isLoading) && patientView == old(patientView) && currentPatient == old(currentPatient)
      ensures signupForm == old(signupForm) && loginForm == old(loginForm)
    {
      storage.SetItem(AdminTokenKey, AdminTokenValue);
      isAdminLoggedIn := true;
      LoadAllPatients(faults);
    }

    /** `handleAdminLogout`. */
    method HandleAdminLogout()
      modifies this, storage
      ensures storage.items == old(storage.items) - {AdminTokenKey}
      ensures !isAdminLoggedIn && patients == []
      ensures isLoading == old(isLoading) && patientView == old(patientView) && currentPatient == old(currentPatient)
      ensures signupForm == old(signupForm) && loginForm == old(loginForm)
    {
      storage.RemoveItem(AdminTokenKey);
      isAdminLoggedIn := false;
      patients := [];
    }

    /** `handlePatientSignup`: a pending patient on this device; on success
        the waiting screen and the temporary Kakao id dropped, on failure
        nothing changes but the loading flag. */
    method HandlePatientSignup(generated: string, joinedAt: string, parseInt: string -> Option<int>,
                               parseFloat: string -> Option<real>, newId: string, fails: bool) returns (created: Option<Patient>)
      requires Valid()
      modifies this, storage, db
      ensures Valid() && !isLoading
      ensures var device := DeviceIdResolution(old(storage.items), generated);
        var record := SignupRecord(old(signupForm), device.0, KakaoService.Lookup(device.1, KakaoIdKey), joinedAt, parseInt, parseFloat);
        && (created.Some? <==> !fails && newId !in old(db.PatientIds()))
        && (created.Some? ==> db.patients == old(db.patients) + [InsertedPatient(newId, record)])
        && (created.Some? ==> patientView == PendingView && storage.items == device.1 - {KakaoIdKey})
        && (created.None? ==> db.patients == old(db.patients) && patientView == old(patientView) && storage.items == device.1)
      ensures db.weightLogs == old(db.weightLogs) && db.mealLogs == old(db.mealLogs) && db.images == old(db.images)
      ensures currentPatient == old(currentPatient) && patients == old(patients) && signupForm == old(signupForm)
      ensures loginForm == old(loginForm) && isAdminLoggedIn == old(isAdminLoggedIn)
    {
      isLoading := true;
      var deviceId := GetDeviceId(storage, generated);
      var kakaoId := storage.GetItem(KakaoIdKey);
      var record := SignupRecord(signupForm, deviceId, kakaoId, joinedAt, parseInt, parseFloat);
      created := db.CreatePatient(record, newId, fails);
      if created.Some? {
        patientView := PendingView;
        storage.RemoveItem(KakaoIdKey);
      }
      isLoading := false;
    }

    /** The device rebind after a simple login: the write carries the found
        patient's own status and weights, so no stored row changes. */
    method RebindDevice(p: Patient, q: Query, faults: Faults, generated: string, updateFails: bool)
      requires Valid() && db.FindPatient(q, faults) == Some(p)
      modifies storage, db
      ensures Valid()
      ensures storage.items == DeviceIdResolution(old(storage.items), generated).1
      ensures db.patients == old(db.patients) && db.weightLogs == old(db.weightLogs)
      ensures db.mealLogs == old(db.mealLogs) && db.images == old(db.images)
    {
      FindPatientSpec(db, q, faults);
      var row :| row in db.patients && Matches(q, row) && Describes(p, row);
      UpdateWithOwnValues(db.patients, row);
      var deviceId := GetDeviceId(storage, generated);
      if p.deviceId != Some(deviceId) {
        var _ := db.UpdatePatient(p.id, WholeRecordUpdate(p), updateFails);
      }
    }

    /** `handleSimpleLogin`: the patient with the typed phone, name and
        birthdate. The device rebind writes back the patient's own status and
        weights, so the stored rows stay as they were; a rejected patient
        keeps the device id. Nobody found: the signup form, prefilled. */
    method HandleSimpleLogin(generated: string, faults: Faults, updateFails: bool) returns (found: Option<Patient>)
      requires Valid()
      modifies this, storage, db
      ensures Valid() && !isLoading
      ensures found == old(db.FindPatient(ByCredentials(loginForm.phone, loginForm.name, loginForm.birthdate), faults))
      ensures db.patients == old(db.patients) && db.weightLogs == old(db.weightLogs)
      ensures db.mealLogs == old(db.mealLogs) && db.images == old(db.images)
      ensures found.Some? ==> storage.items == DeviceIdResolution(old(storage.items), generated).1
      ensures found.Some? ==> patientView == ViewFor(found.value.status) && signupForm == old(signupForm)
      ensures currentPatient == if found.Some? && found.value.status == Active then found else old(currentPatient)
      ensures found.None? ==> storage.items == old(storage.items) && patientView == Signup
      ensures found.None? ==> signupForm == SignupForm(old(loginForm).name, old(loginForm).phone, old(loginForm).birthdate, "", "", "")
      ensures patients == old(patients) && loginForm == old(loginForm) && isAdminLoggedIn == old(isAdminLoggedIn)
    {
      isLoading := true;
      found := db.FindPatient(ByCredentials(loginForm.phone, loginForm.name, loginForm.birthdate), faults);
      if found.Some? {
        RebindDevice(found.value, ByCredentials(loginForm.phone, loginForm.name, loginForm.birthdate), faults, generated, updateFails);
        Route(found.value, false);
      } else {
        signupForm := SignupForm(loginForm.name, loginForm.phone, loginForm.birthdate, "", "", "");
        patientView := Signup;
      }
      isLoading := false;
    }

    /** `handlePatientUpdate`: the status and weights are written; on success
        the list entry is replaced and, when it is the signed-in patient, that
        record is reloaded by device id (kept when the reload finds nobody). */
    method HandlePatientUpdate(updated: Patient, updateFails: bool, generated: string, refreshFaults: Faults) returns (ok: bool)
      requires Valid()
      modifies this, storage, db
      ensures Valid()
      ensures ok == !updateFails
      ensures db.patients == if ok then UpdatedRows(old(db.patients), updated.id, WholeRecordUpdate(updated)) else old(db.patients)
      ensures db.weightLogs == old(db.weightLogs) && db.mealLogs == old(db.mealLogs) && db.images == old(db.images)
      ensures patients == if ok then ReplaceById(old(patients), updated) else old(patients)
      ensures var refresh := ok && old(currentPatient).Some? && old(currentPatient).value.id == updated.id;
        var device := DeviceIdResolution(old(storage.items), generated);
        var reloaded := db.FindPatient(ByDeviceId(device.0), refreshFaults);
        && storage.items == (if refresh then device.1 else old(storage.items))
        && currentPatient == (if refresh && reloaded.Some? then reloaded else old(currentPatient))
      ensures isLoading == old(isLoading) && patientView == old(patientView)
      ensures signupForm == old(signupForm) && loginForm == old(loginForm) && isAdminLoggedIn == old(isAdminLoggedIn)
    {
      ok := db.UpdatePatient(updated.id, WholeRecordUpdate(updated), updateFails);
      if ok {
        patients := ReplaceById(patients, updated);
        if currentPatient.Some? && currentPatient.value.id == updated.id {
          var deviceId := GetDeviceId(storage, generated);
          var reloaded := db.FindPatient(ByDeviceId(deviceId), refreshFaults);
          if reloaded.Some? {
            currentPatient := reloaded;
          }
        }
      }
    }

    /** `handleKakaoLogin`: by Kakao id, then by device id; a rejected patient
        loses the stored device id; nobody found: the signup form with the
        Kakao nickname and phone, and the Kakao id kept for the signup. */
    method HandleKakaoLogin(kakaoId: string, nickname: string, phone: Option<string>, generated: string,
                            kakaoFaults: Faults, deviceFaults: Faults) returns (found: Option<Patient>)
      requires Valid()
      modifies this, storage
      ensures Valid() && !isLoading
      ensures var byKakao := db.FindPatient(ByKakaoId(kakaoId), kakaoFaults);
        var device := DeviceIdResolution(old(storage.items), generated);
        && found == (if byKakao.Some? then byKakao else db.FindPatient(ByDeviceId(device.0), deviceFaults))
        && var looked := if byKakao.Some? then old(storage.items) else device.1;
           storage.items == if found.None? then looked[KakaoIdKey := kakaoId]
                            else if found.value.status == Rejected then looked - {DeviceIdKey}
                            else looked
      ensures found.Some? ==> patientView == ViewFor(found.value.status) && signupForm == old(signupForm)
      ensures found.None? ==> patientView == Signup && signupForm == SignupForm(nickname, phone.GetOr(""), "", "", "", "")
      ensures currentPatient == if found.Some? && found.value.status == Active then found else old(currentPatient)
      ensures patients == old(patients) && loginForm == old(loginForm) && isAdminLoggedIn == old(isAdminLoggedIn)
    {
      isLoading := true;
      found := FallBackToDevice(db.FindPatient(ByKakaoId(kakaoId), kakaoFaults), generated, deviceFaults);
      ghost var looked := storage.items;
      if found.Some? {
        Route(found.value, true);
      } else {
        OfferKakaoSignup(kakaoId, nickname, phone);
        assert storage.items == looked[KakaoIdKey := kakaoId];
      }
      isLoading := false;
    }

    /** Nobody found after a Kakao login: the signup form with the Kakao
        nickname and phone, and the Kakao id kept for the signup. */
    method OfferKakaoSignup(kakaoId: string, nickname: string, phone: Option<string>)
      modifies this, storage
      ensures storage.items == old(storage.items)[KakaoIdKey := kakaoId]
      ensures patientView == Signup && signupForm == SignupForm(nickname, phone.GetOr(""), "", "", "", "")
      ensures isLoading == old(isLoading) && patients == old(patients) && currentPatient == old(currentPatient)
      ensures loginForm == old(loginForm) && isAdminLoggedIn == old(isAdminLoggedIn)
    {
      signupForm := SignupForm(nickname, phone.GetOr(""), "", "", "", "");
      storage.SetItem(KakaoIdKey, kakaoId);
      patientView := Signup;
    }

    /** The landing page's signup and login buttons, and the back buttons. */
    method ShowView(v: View)
      requires v == Signup || v == Login || v == Landing
      modifies this
      ensures patientView == v
      ensures isLoading == old(isLoading) && patients == old(patients) && currentPatient == old(currentPatient)
      ensures signupForm == old(signupForm) && loginForm == old(loginForm) && isAdminLoggedIn == old(isAdminLoggedIn)
    {
      patientView := v;
    }

    method SetLoginForm(form: LoginForm)
      modifies this
      ensures loginForm == form
      ensures isLoading == old(isLoading) && patients == old(patients) && currentPatient == old(currentPatient)
      ensures signupForm == old(signupForm) && patientView == old(patientView) && isAdminLoggedIn == old(isAdminLoggedIn)
    {
      loginForm := form;
    }

    method SetSignupForm(form: SignupForm)
      modifies this
      ensures signupForm == form
      ensures isLoading == old(isLoading) && patients == old(patients) && currentPatient == old(currentPatient)
      ensures loginForm == old(loginForm) && patientView == old(patientView) && isAdminLoggedIn == old(isAdminLoggedIn)
    {
      signupForm := form;
    }

    /** The patient dashboard's logout. */
    method PatientLogout()
      modifies this
      ensures currentPatient == None && patientView == Landing
      ensures isLoading == old(isLoading) && patients == old(patients)
      ensures signupForm == old(signupForm) && loginForm == old(loginForm) && isAdminLoggedIn == old(isAdminLoggedIn)
    {
      currentPatient := None;
      patientView := Landing;
    }
  }

  /** The clinic's session survives a reload exactly until logout. */
  lemma AdminSessionRoundTrip(items: map<string, string>)
    ensures AdminTokenStored(items[AdminTokenKey := AdminTokenValue])
    ensures !AdminTokenStored(items - {AdminTokenKey})
  {
  }

  /** A rejected patient's device id is gone, so the next resolution returns
      the newly generated id. */
  lemma RejectedGetsNewDeviceId(items: map<string, string>, generated: string)
    ensures DeviceIdResolution(items - {DeviceIdKey}, generated).0 == generated
  {
  }
}
