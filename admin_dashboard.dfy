/** The clinic's dashboard: the patient lists by status, the search box, the
    month calendar of a patient's meals, and the approve / reject / delete
    actions. `window.confirm` is an input; `onUpdatePatient` is modelled by
    handing the record it would receive back to the caller. */
module AdminDashboard {
  import opened Wrappers
  import opened Strings
  import opened Sorting
  import opened Types
  import opened Calendar
  import SupabaseService

  datatype Tab = ActiveTab | PendingTab

  function HasStatus(s: PatientStatus): Patient -> bool {
    (p: Patient) => p.status == s
  }

  /** The PENDING tab: exactly the pending patients, in list order. */
  function PendingPatients(patients: seq<Patient>): (r: seq<Patient>)
    ensures forall p :: p in r <==> p in patients && p.status == Pending
  {
    FilterMembersAll(patients, HasStatus(Pending));
    Filter(patients, HasStatus(Pending))
  }

  /** The ACTIVE tab: exactly the active patients, in list order. */
  function ActivePatients(patients: seq<Patient>): (r: seq<Patient>)
    ensures forall p :: p in r <==> p in patients && p.status == Active
  {
    FilterMembersAll(patients, HasStatus(Active));
    Filter(patients, HasStatus(Active))
  }

  /** The status a tab lists. */
  function TabStatus(tab: Tab): PatientStatus {
    if tab == ActiveTab then Active else Pending
  }

  /** The list the tab shows; a rejected patient is on neither tab. */
  function Displayed(patients: seq<Patient>, tab: Tab): (r: seq<Patient>)
    ensures forall p :: p in r <==> p in patients && p.status == TabStatus(tab)
    ensures forall p :: p in r ==> p.status != Rejected
  {
    if tab == ActiveTab then ActivePatients(patients) else PendingPatients(patients)
  }

  /** The name contains the term ignoring case, or the phone number contains it as typed. */
  predicate MatchesSearch(term: string, p: Patient) {
    Includes(ToLower(p.name), ToLower(term)) || Includes(p.phoneNumber, term)
  }

  function Searching(term: string): Patient -> bool {
    (p: Patient) => MatchesSearch(term, p)
  }

  /** The search keeps a patient of the tab exactly when it matches. */
  function FilteredPatients(patients: seq<Patient>, tab: Tab, term: string): (r: seq<Patient>)
    ensures forall p :: p in r <==>
      p in patients && p.status == TabStatus(tab)
      && (Includes(ToLower(p.name), ToLower(term)) || Includes(p.phoneNumber, term))
  {
    FilterMembersAll(Displayed(patients, tab), Searching(term));
    Filter(Displayed(patients, tab), Searching(term))
  }

  /** Every patient is counted in exactly one status: the pending and active
      lists together with the rejected patients account for the whole list. */
  lemma {:induction false} StatusCounts(patients: seq<Patient>)
    ensures |PendingPatients(patients)| + |ActivePatients(patients)| + |Filter(patients, HasStatus(Rejected))| == |patients|
  {
    if patients != [] {
      StatusCounts(patients[1..]);
    }
  }

  /** An empty search box hides nobody. */
  lemma EmptySearchKeepsAll(patients: seq<Patient>, tab: Tab)
    ensures FilteredPatients(patients, tab, "") == Displayed(patients, tab)
  {
    var shown := Displayed(patients, tab);
    forall i | 0 <= i < |shown| ensures Searching("")(shown[i]) {
      assert IndexOf(shown[i].phoneNumber, "") == Some(0);
    }
    FilterAll(shown, Searching(""));
  }

  /** Two terms that differ only in letter case select the same patients,
      except through the phone number, which is matched as typed. */
  lemma SearchIgnoresTermCase(patients: seq<Patient>, tab: Tab, t1: string, t2: string)
    requires ToLower(t1) == ToLower(t2)
    ensures forall p: Patient :: p in FilteredPatients(patients, tab, t1) && !Includes(p.phoneNumber, t1) ==>
      p in FilteredPatients(patients, tab, t2)
    ensures forall p: Patient :: !Includes(p.phoneNumber, t1) && !Includes(p.phoneNumber, t2) ==>
      (p in FilteredPatients(patients, tab, t1) <==> p in FilteredPatients(patients, tab, t2))
  {
  }

  /** A patient's calendar: for each day of the month, the meals of that day
      and their calorie total. */
  function DayCells(logs: seq<MealLog>, m: Month): (cells: seq<(string, seq<MealLog>, int)>)
    requires ValidMonth(m)
    ensures |cells| == DaysInMonth(m)
    ensures forall i :: 0 <= i < |cells| ==>
      cells[i].0 == DateKey(m, i + 1) && cells[i].1 == MealsOn(logs, cells[i].0) && cells[i].2 == TotalCalories(cells[i].1)
  {
    seq(DaysInMonth(m), i requires 0 <= i < DaysInMonth(m) =>
      (DateKey(m, i + 1), MealsOn(logs, DateKey(m, i + 1)), DailyTotal(logs, DateKey(m, i + 1))))
  }

  /** `handleApprove`: with confirmation, the same record with status ACTIVE. */
  function HandleApprove(p: Patient, confirmed: bool): (sent: Option<Patient>)
    ensures sent.Some? <==> confirmed
    ensures sent.Some? ==> sent.value.status == Active && sent.value == p.(status := sent.value.status)
  {
    if confirmed then Some(p.(status := Active)) else None
  }

  /** `handleReject`: with confirmation, the same record with status REJECTED. */
  function HandleReject(p: Patient, confirmed: bool): (sent: Option<Patient>)
    ensures sent.Some? <==> confirmed
    ensures sent.Some? ==> sent.value.status == Rejected && sent.value == p.(status := sent.value.status)
  {
    if confirmed then Some(p.(status := Rejected)) else None
  }

  /** The dashboard's own state. */
  class DashboardState {
    var selectedPatientId: Option<string>
    var searchTerm: string
    var tab: Tab
    var currentMonth: Month

    ghost predicate Valid()
      reads this
    {
      ValidMonth(currentMonth)
    }

    constructor(today: Month)
      requires ValidMonth(today)
      ensures Valid()
      ensures selectedPatientId == None && searchTerm == "" && tab == ActiveTab && currentMonth == today
    {
      selectedPatientId, searchTerm, tab, currentMonth := None, "", ActiveTab, today;
    }

    /** The tab buttons: switching tabs drops the selection. */
    method SetTab(t: Tab)
      modifies this
      ensures tab == t && selectedPatientId == None
      ensures searchTerm == old(searchTerm) && currentMonth == old(currentMonth)
    {
      tab := t;
      selectedPatientId := None;
    }

    method SelectPatient(id: string)
      modifies this
      ensures selectedPatientId == Some(id)
      ensures tab == old(tab) && searchTerm == old(searchTerm) && currentMonth == old(currentMonth)
    {
      selectedPatientId := Some(id);
    }

    method SetSearchTerm(term: string)
      modifies this
      ensures searchTerm == term
      ensures tab == old(tab) && selectedPatientId == old(selectedPatientId) && currentMonth == old(currentMonth)
    {
      searchTerm := term;
    }

    /** `changeMonth(delta)`: the first of the month `delta` months away. */
    method ChangeMonth(delta: int)
      requires Valid()
      modifies this
      ensures Valid()
      ensures currentMonth == Calendar.ChangeMonth(old(currentMonth), delta)
      ensures 12 * currentMonth.year + currentMonth.month == 12 * old(currentMonth.year) + old(currentMonth.month) + delta
      ensures tab == old(tab) && selectedPatientId == old(selectedPatientId) && searchTerm == old(searchTerm)
    {
      currentMonth := Calendar.ChangeMonth(currentMonth, delta);
    }

    /** The list on screen. */
    function Visible(patients: seq<Patient>): seq<Patient>
      reads this
    {
      FilteredPatients(patients, tab, searchTerm)
    }
  }

  /** `handleDeletePatient`: with confirmation, the cascade delete; the result
      is whether it was attempted and then whether it succeeded. */
  method HandleDeletePatient(db: SupabaseService.Database, p: Patient, confirmed: bool,
                             weightFails: bool, mealFails: bool, patientFails: bool) returns (outcome: Option<bool>)
    requires db.Valid()
    modifies db
    ensures db.Valid()
    ensures outcome.Some? <==> confirmed
    ensures !confirmed ==> db.patients == old(db.patients) && db.weightLogs == old(db.weightLogs) && db.mealLogs == old(db.mealLogs)
    ensures confirmed ==> outcome == Some(!patientFails)
    ensures confirmed ==> db.weightLogs == if weightFails then old(db.weightLogs) else Filter(old(db.weightLogs), SupabaseService.NotWeightOf(p.id))
    ensures confirmed ==> db.mealLogs == if mealFails then old(db.mealLogs) else Filter(old(db.mealLogs), SupabaseService.NotMealOf(p.id))
    ensures confirmed ==> db.patients == if patientFails then old(db.patients) else Filter(old(db.patients), SupabaseService.NotPatient(p.id))
    ensures db.images == old(db.images)
  {
    if !confirmed {
      return None;
    }
    var ok := db.DeletePatient(p.id, weightFails, mealFails, patientFails);
    outcome := Some(ok);
  }
}
