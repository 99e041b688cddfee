/** The patient's own screen: recording a weight, logging a meal from a photo
    or from a description, and the day view of the meal calendar. The record
    it hands to `onUpdatePatient` is the result of each handler. Clocks,
    `parseFloat`, image compression and EXIF parsing are inputs. */
module PatientDashboard {
  import opened Wrappers
  import opened Strings
  import opened Sorting
  import opened Types
  import opened Calendar
  import opened Browser
  import opened Http
  import SupabaseService
  import ExifService
  import GeminiService

  datatype DashTab = Home | Log

  /** The picture stored with a meal entered as text. */
  const TextMealImage := "https://images.unsplash.com/photo-1498837167922-ddd27525d352?q=80&w=400&auto=format&fit=crop"

  /** `date.split('T')[0]` is the day of a date, as the calendar reads it. */
  lemma DayOfIsSplitHead(date: string)
    ensures DayOf(date) == Split(date, "T")[0]
  {
    SplitHead(date, "T");
  }

  /** `filteredLogs`: the meals of the selected day. */
  function FilteredLogs(p: Patient, selectedDate: string): (r: seq<MealLog>)
    ensures forall meal :: meal in r <==> meal in p.mealLogs && DayOf(meal.date) == selectedDate
  {
    MealsOnAll(p.mealLogs, selectedDate);
    MealsOn(p.mealLogs, selectedDate)
  }

  /** `dailyTotalCalories`: the figure the clinic's calendar shows for that
      day, never negative when no meal is. */
  function DailyTotalCalories(p: Patient, selectedDate: string): (r: int)
    ensures r == DailyTotal(p.mealLogs, selectedDate)
    ensures (forall i :: 0 <= i < |p.mealLogs| ==> p.mealLogs[i].calories >= 0) ==> r >= 0
  {
    var day := FilteredLogs(p, selectedDate);
    assert (forall i :: 0 <= i < |p.mealLogs| ==> p.mealLogs[i].calories >= 0) ==> TotalCalories(day) >= 0 by {
      if forall i :: 0 <= i < |p.mealLogs| ==> p.mealLogs[i].calories >= 0 {
        assert forall i :: 0 <= i < |day| ==> day[i] in p.mealLogs;
        TotalCaloriesNonNegative(day);
      }
    }
    TotalCalories(day)
  }

  /** `mealLogs.slice(0, 3)`: the three newest meals on the home tab. */
  function RecentMeals(p: Patient): (r: seq<MealLog>)
    ensures |r| == if |p.mealLogs| < 3 then |p.mealLogs| else 3
    ensures r <= p.mealLogs
  {
    if |p.mealLogs| < 3 then p.mealLogs else p.mealLogs[..3]
  }

  /** `weightLogs.slice(-7)`: the chart's last seven entries. */
  function ChartLogs(p: Patient): (r: seq<WeightLog>)
    ensures |r| == if |p.weightLogs| < 7 then |p.weightLogs| else 7
    ensures r == p.weightLogs[|p.weightLogs| - |r|..]
  {
    if |p.weightLogs| < 7 then p.weightLogs else p.weightLogs[|p.weightLogs| - 7..]
  }

  /** After a weight is saved the chart ends with it, preceded by the
      previous entries it still has room for. */
  lemma ChartEndsWithNewLog(p: Patient, log: WeightLog)
    ensures var q := p.(weightLogs := p.weightLogs + [log]);
      && ChartLogs(q)[|ChartLogs(q)| - 1] == log
      && ChartLogs(q)[..|ChartLogs(q)| - 1] == ChartLogs(p)[|ChartLogs(p)| - (|ChartLogs(q)| - 1)..]
  {
    var q := p.(weightLogs := p.weightLogs + [log]);
    var n := |ChartLogs(q)|;
    assert ChartLogs(q)[..n - 1] == p.weightLogs[|p.weightLogs| - (n - 1)..];
  }

  /** A prepended meal heads its own day's list and adds its calories to that
      day's total; the other entries of the list keep their order. */
  lemma NewMealShownOnItsDay(p: Patient, meal: MealLog)
    ensures var q := p.(mealLogs := [meal] + p.mealLogs);
      && FilteredLogs(q, DayOf(meal.date)) == [meal] + FilteredLogs(p, DayOf(meal.date))
      && DailyTotalCalories(q, DayOf(meal.date)) == meal.calories + DailyTotalCalories(p, DayOf(meal.date))
      && RecentMeals(q)[0] == meal
  {
    MealsOnPrepend(meal, p.mealLogs, DayOf(meal.date));
  }

  /** The compressed image reaches the bucket: it decodes, the upload does
      not fail and its name is new. */
  predicate Stored(images: map<string, seq<SupabaseService.byte>>, dataUrl: string, patientId: string, now: nat,
                   atob: string -> Option<string>, uploadFails: bool) {
    SupabaseService.ImageBytes(SupabaseService.Encoded(dataUrl), atob).Some? && !uploadFails
    && SupabaseService.ImageFileName(SupabaseService.Encoded(dataUrl), patientId, now) !in images
  }

  class DashboardState {
    var activeTab: DashTab
    var isAnalyzing: bool
    var newWeight: string
    var textInput: string
    var currentMonth: Month
    var selectedDate: string

    ghost predicate Valid()
      reads this
    {
      ValidMonth(currentMonth)
    }

    /** Mounting: the home tab, today's month and today's day selected. */
    constructor(today: Month, nowIso: string)
      requires ValidMonth(today)
      ensures Valid()
      ensures activeTab == Home && !isAnalyzing && newWeight == "" && textInput == ""
      ensures currentMonth == today && selectedDate == Split(nowIso, "T")[0]
    {
      activeTab, isAnalyzing, newWeight, textInput := Home, false, "", "";
      currentMonth, selectedDate := today, Split(nowIso, "T")[0];
    }

    /** `changeMonth(delta)`. */
    method ChangeMonth(delta: int)
      requires Valid()
      modifies this
      ensures Valid()
      ensures currentMonth == Calendar.ChangeMonth(old(currentMonth), delta)
      ensures selectedDate == old(selectedDate) && activeTab == old(activeTab)
    {
      currentMonth := Calendar.ChangeMonth(currentMonth, delta);
    }

    /** A click on a calendar day selects its key. */
    method SelectDay(day: nat)
      requires Valid() && 1 <= day <= DaysInMonth(currentMonth)
      modifies this
      ensures Valid()
      ensures selectedDate == DateKey(currentMonth, day)
      ensures currentMonth == old(currentMonth) && activeTab == old(activeTab)
    {
      selectedDate := DateKey(currentMonth, day);
    }

    /** `handleWeightSubmit`: `parseFloat` reads the number field, `nowIso` is
        the current time; the saved log is appended and the weight replaced. */
    method HandleWeightSubmit(db: SupabaseService.Database, patient: Patient, parseFloat: string -> real, nowIso: string,
                              newId: string, insertFails: bool, updateFails: bool)
      returns (update: Option<Patient>)
      requires db.Valid()
      modifies this, db
      ensures db.Valid()
      ensures old(newWeight) == "" ==> update.None? && newWeight == old(newWeight)
                                       && db.weightLogs == old(db.weightLogs) && db.patients == old(db.patients)
      ensures update.Some? <==> old(newWeight) != "" && !insertFails && newId !in old(db.WeightIds())
      ensures update.Some? ==> update.value == patient.(currentWeight := parseFloat(old(newWeight)),
                                                        weightLogs := patient.weightLogs + [WeightLog(newId, DayOf(nowIso), parseFloat(old(newWeight)))])
      ensures update.Some? ==> newWeight == ""
      ensures update.Some? ==> db.weightLogs == old(db.weightLogs) + [SupabaseService.WeightRow(newId, patient.id, DayOf(nowIso), parseFloat(old(newWeight)))]
      ensures update.Some? ==>
        db.patients == if updateFails then old(db.patients)
                       else SupabaseService.UpdatedRows(old(db.patients), patient.id, SupabaseService.PatientUpdate(None, Some(parseFloat(old(newWeight))), None))
      ensures update.Some? && !updateFails ==>
        forall i :: 0 <= i < |db.patients| && db.patients[i].id == patient.id ==> db.patients[i].currentWeight == update.value.currentWeight
      ensures update.None? ==> db.weightLogs == old(db.weightLogs) && db.patients == old(db.patients)
      ensures update.None? && old(newWeight) != "" ==> newWeight == old(newWeight)
      ensures db.mealLogs == old(db.mealLogs) && db.images == old(db.images)
      ensures activeTab == old(activeTab) && selectedDate == old(selectedDate) && currentMonth == old(currentMonth)
    {
      if newWeight == "" {
        return None;
      }
      var weight := parseFloat(newWeight);
      DayOfIsSplitHead(nowIso);
      var date := Split(nowIso, "T")[0];
      var saved := db.AddWeightLog(patient.id, date, weight, newId, insertFails, updateFails);
      if saved.Some? {
        update := Some(patient.(currentWeight := weight, weightLogs := patient.weightLogs + [saved.value]));
        newWeight := "";
      } else {
        update := None;
      }
    }

    /** `handleImageUpload`: `hasFile` whether a file was picked, `exif` and
        `toIso` what the EXIF step sees, `compressed` the compressed data URL
        (`None` when compression throws), `now` the upload's millisecond
        clock, `fetch` the analysis request. A failed upload stops before the
        analysis and before any insert. */
    method HandleImageUpload(db: SupabaseService.Database, patient: Patient, hasFile: bool,
                             exif: ExifService.ExifParse, toIso: string -> Option<string>, nowIso: string,
                             compressed: Option<string>, now: nat, atob: string -> Option<string>, uploadFails: bool,
                             fetch: string -> FetchOutcome<FoodAnalysis>, newId: string, insertFails: bool)
      returns (update: Option<Patient>)
      requires db.Valid()
      modifies this, db
      ensures db.Valid()
      ensures hasFile ==> !isAnalyzing
      ensures !hasFile ==> update.None? && isAnalyzing == old(isAnalyzing) && db.images == old(db.images)
      ensures update.None? ==> db.mealLogs == old(db.mealLogs)
      ensures update.None? ==> activeTab == old(activeTab) && selectedDate == old(selectedDate)
      ensures db.images ==
        if hasFile && compressed.Some? && Stored(old(db.images), compressed.value, patient.id, now, atob, uploadFails)
        then old(db.images)[SupabaseService.ImageFileName(SupabaseService.Encoded(compressed.value), patient.id, now) :=
                            SupabaseService.ImageBytes(SupabaseService.Encoded(compressed.value), atob).value]
        else old(db.images)
      ensures update.Some? <==> hasFile && compressed.Some? && Stored(old(db.images), compressed.value, patient.id, now, atob, uploadFails)
                                && !insertFails && newId !in old(db.MealIds())
      ensures update.Some? ==> |update.value.mealLogs| == |patient.mealLogs| + 1
      ensures update.Some? ==>
        var photoDate := ExifService.ExtractPhotoTimestamp(exif, toIso, nowIso);
        var result := GeminiService.AnalyzeFoodImage(compressed.value, fetch);
        var meal := update.value.mealLogs[0];
        && update.value == patient.(mealLogs := [meal] + patient.mealLogs)
        && meal.id == newId && meal.date == photoDate && meal.uploadedAt == (if nowIso != "" then Some(nowIso) else None)
        && meal.imageUrl == db.PublicUrl(SupabaseService.ImageFileName(SupabaseService.Encoded(compressed.value), patient.id, now))
        && meal.foodName == result.foodName && meal.calories == result.calories && meal.analysis == result.analysis
        && activeTab == Log && selectedDate == DayOf(photoDate)
        && db.mealLogs == old(db.mealLogs) + [SupabaseService.MealRow(newId, patient.id, meal.date, meal.uploadedAt, meal.imageUrl,
                                                                     meal.foodName, meal.calories, meal.analysis)]
      ensures db.patients == old(db.patients) && db.weightLogs == old(db.weightLogs)
      ensures currentMonth == old(currentMonth) && newWeight == old(newWeight) && textInput == old(textInput)
    {
      if !hasFile {
        return None;
      }
      isAnalyzing := true;
      var photoDate := ExifService.ExtractPhotoTimestamp(exif, toIso, nowIso);
      var uploadedAt := nowIso;
      if compressed.None? {
        isAnalyzing := false;
        return None;
      }
      var imageUrl := db.UploadMealImage(SupabaseService.Encoded(compressed.value), patient.id, now, atob, uploadFails);
      if imageUrl.None? {
        isAnalyzing := false;
        return None;
      }
      var result := GeminiService.AnalyzeFoodImage(compressed.value, fetch);
      var meal := SupabaseService.NewMeal(photoDate, Some(uploadedAt), imageUrl.value, result.foodName, result.calories, result.analysis);
      var saved := db.AddMealLog(patient.id, meal, newId, insertFails);
      if saved.None? {
        isAnalyzing := false;
        return None;
      }
      update := Some(patient.(mealLogs := [saved.value] + patient.mealLogs));
      ShowMealDay(photoDate);
      isAnalyzing := false;
    }

    /** After a meal is saved: the log tab, with the meal's day selected
        (`date.split('T')[0]`). */
    method ShowMealDay(date: string)
      modifies this
      ensures activeTab == Log && selectedDate == DayOf(date)
      ensures isAnalyzing == old(isAnalyzing) && newWeight == old(newWeight) && textInput == old(textInput)
      ensures currentMonth == old(currentMonth)
    {
      activeTab := Log;
      DayOfIsSplitHead(date);
      selectedDate := Split(date, "T")[0];
    }

    /** `handleTextSubmit`: a blank description does nothing; otherwise the
        description is analysed and stored with the fixed picture, dated now. */
    method HandleTextSubmit(db: SupabaseService.Database, patient: Patient, nowIso: string,
                            fetch: string -> FetchOutcome<FoodAnalysis>, newId: string, insertFails: bool)
      returns (update: Option<Patient>)
      requires db.Valid()
      modifies this, db
      ensures db.Valid()
      ensures IsBlank(old(textInput)) ==> update.None? && db.mealLogs == old(db.mealLogs)
                                          && isAnalyzing == old(isAnalyzing) && textInput == old(textInput)
      ensures !IsBlank(old(textInput)) ==> !isAnalyzing
      ensures update.Some? <==> !IsBlank(old(textInput)) && !insertFails && newId !in old(db.MealIds())
      ensures update.Some? ==>
        var result := GeminiService.AnalyzeFoodText(old(textInput), fetch);
        && update.value == patient.(mealLogs := [MealLog(newId, nowIso, None, TextMealImage, result.foodName, result.calories, result.analysis)] + patient.mealLogs)
        && textInput == "" && activeTab == Log && selectedDate == DayOf(nowIso)
        && db.mealLogs == old(db.mealLogs) + [SupabaseService.MealRow(newId, patient.id, nowIso, None, TextMealImage,
                                                                     result.foodName, result.calories, result.analysis)]
      ensures update.None? ==> db.mealLogs == old(db.mealLogs) && activeTab == old(activeTab) && selectedDate == old(selectedDate)
      ensures db.patients == old(db.patients) && db.weightLogs == old(db.weightLogs) && db.images == old(db.images)
      ensures currentMonth == old(currentMonth) && newWeight == old(newWeight)
    {
      if IsBlank(textInput) {
        return None;
      }
      isAnalyzing := true;
      var result := GeminiService.AnalyzeFoodText(textInput, fetch);
      var meal := SupabaseService.NewMeal(nowIso, None, TextMealImage, result.foodName, result.calories, result.analysis);
      var saved := db.AddMealLog(patient.id, meal, newId, insertFails);
      if saved.None? {
        isAnalyzing := false;
        return None;
      }
      update := Some(patient.(mealLogs := [saved.value] + patient.mealLogs));
      textInput := "";
      ShowMealDay(nowIso);
      isAnalyzing := false;
    }
  }
}
