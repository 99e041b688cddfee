/** The application's records: a patient with its weight and meal logs.
    Weights are kept as reals; calories as integers. */
module Types {
  import opened Wrappers

  /** Exactly three enrolment states. */
  datatype PatientStatus = Pending | Active | Rejected

  datatype WeightLog = WeightLog(id: string, date: string, weight: real)

  /** `date` is the capture time (ISO string or `YYYY-MM-DD`); `uploadedAt`
      the time of upload, when it was recorded. */
  datatype MealLog = MealLog(
    id: string,
    date: string,
    uploadedAt: Option<string>,
    imageUrl: string,
    foodName: string,
    calories: int,
    analysis: string)

  datatype Patient = Patient(
    id: string,
    deviceId: Option<string>,
    status: PatientStatus,
    name: string,
    phoneNumber: string,
    birthdate: Option<string>,
    joinedAt: string,
    age: int,
    targetWeight: real,
    currentWeight: real,
    startWeight: real,
    weightLogs: seq<WeightLog>,
    mealLogs: seq<MealLog>)
}
