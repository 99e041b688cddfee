# diet-care in Dafny

diet-care is a clinic's diet-tracking web app. A patient signs up and waits
for the clinic to approve them. Once approved, the patient records weights
and meals; a meal is a photo or a description, analysed by a language model.
The clinic's dashboard lists, searches, approves, rejects and deletes
patients, and shows each patient's meals on a month calendar.

This project models the logic between the screens and the managed services,
and proves what that logic promises:

- `supabase_service.dfy`: the datastore.
  - Three tables (patients, weight logs, meal logs) and an image bucket, held by the class `Database`.
  - The device id kept in the browser's storage.
  - The three single-patient lookups, and the full patient list with its logs.
  - The column-restricted updates, the inserts and the cascade delete.
  - Data-URL decoding and image file naming.
- `app.dfy`: the top-level component, the class `App`.
  - Start-up resolution: the Kakao id first, then the device id.
  - Signup, the credential login and the Kakao login.
  - The patient update, and the clinic's session.
- `admin_dashboard.dfy`: the clinic's dashboard.
  - The pending/active lists and the search.
  - The month calendar.
  - Approve, reject and delete.
- `patient_dashboard.dfy`: the patient's dashboard.
  - The weight, photo and text handlers.
  - The day filter, the recent meals and the chart slice.
- `calendar.dfy`: the calendar logic both dashboards share.
  - `YYYY-MM-DD` day keys, and the day a meal belongs to.
  - Per-day calorie totals, and month navigation.
- `kakao_service.dfy`: the Kakao session kept in storage, and the SDK's guards.
- `gemini_service.dfy`: the analysis client.
  - It strips the data-URL header and falls back to fixed answers.
  - It is proved end to end against the three request handlers.
- The request handlers, each dispatching on status code:
  - `analyze_image_api.dfy`;
  - `analyze_text_api.dfy`;
  - `estimate_calories_api.dfy`.
- `exif_service.dfy`: which EXIF date field is used.
- `router.dfy`: mapping between routes and paths, the `pushState` history, and `popstate`.
- `admin_login_page.dfy`: the password form.
- Shared support:
  - `types.dfy`: the records;
  - `wrappers.dfy`: `Option` and `Result`;
  - `strings.dfy`: JavaScript's `split`, `includes`, `toLowerCase`, `padStart` and number-to-text;
  - `sorting.dfy`: `filter`, and the datastore's stable `order by`;
  - `browser.dfy`: `localStorage`;
  - `http.dfy`: requests and responses.

### How the outside world is modelled

- A remote call that can fail is a `bool` parameter saying whether it fails.
- Generated ids, clocks and the model's answers are parameters.
- `parseInt`, `parseFloat`, `atob` and the date conversion are function parameters.
- `window.confirm` is a `bool`.
- The browser's storage is a `LocalStorage` object, which the handlers update in place.
- A table's `id` is its primary key: `Database.Valid` says the ids are unique.
- Inserting a row whose id already exists counts as an insert error.
- `.single()` gives a row only when exactly one row matches. No row, or several rows, is the PGRST116 error, and the lookup returns nothing.
- Date strings are ordered lexicographically, and equal dates keep their stored order.

### Where the model follows the code

`handleSimpleLogin` "rebinds" a patient to the current device by calling
`updatePatient` with a record that carries the new `deviceId`. But
`updatePatient` writes only `status`, `current_weight` and `target_weight`,
so the rebind writes back the patient's own values. The model follows the
code: `App.App.HandleSimpleLogin` guarantees that the patients table is left
exactly as it was. `SupabaseService.UpdateWithOwnValues` is the lemma behind
that guarantee.

## Model

| member | source | states |
|---|---|---|
| SupabaseService.DeviceIdResolution | services/supabaseService.ts:13-20 | A stored non-empty device id is returned and storage is untouched; otherwise the newly generated id is returned and stored under `dietcare_device_id` |
| SupabaseService.DeviceIdStable | services/supabaseService.ts:13-20 | Two consecutive calls return the same, non-empty id, and the second leaves storage as the first did |
| SupabaseService.GetDeviceId | services/supabaseService.ts:13-20 | The returned id and the new storage are exactly the resolution of the old storage |
| SupabaseService.InsertedPatient | services/supabaseService.ts:27-45 | The inserted row has `kakao_id` and `birthdate` exactly when the given values are truthy, and then carries them |
| SupabaseService.Database.CreatePatient | services/supabaseService.ts:23-83 | Succeeds iff the insert does not fail and the new id is unused; on success exactly the inserted row is appended and returned as a patient with empty weight and meal logs; on failure no table changes |
| SupabaseService.SingleMatchFilter | services/supabaseService.ts:89-93 | With unique ids, `.single()` finds a row iff exactly one patient row satisfies the query |
| SupabaseService.FindPatientSpec | services/supabaseService.ts:85-160 | A lookup returns a patient iff none of its three requests fails and exactly one row matches; the patient describes a matching row (for credentials: phone, name and birthdate all equal) |
| SupabaseService.Database.FindPatient | services/supabaseService.ts:85-160 | A found patient means no request failed, and it describes the one stored row that matches the query |
| SupabaseService.ToWeightLogs | services/supabaseService.ts:141-145 | One weight log per row, in row order |
| SupabaseService.ToMealLogs | services/supabaseService.ts:146-154 | One meal log per row, in row order |
| SupabaseService.ToWeightLogsSpec | services/supabaseService.ts:141-145 | Mapping rows to logs keeps the date order, and every log comes from a row and vice versa |
| SupabaseService.ToMealLogsSpec | services/supabaseService.ts:146-154 | Mapping meal rows to logs keeps the date order, and every log comes from a row and vice versa |
| SupabaseService.WeightRowsOfSpec | services/supabaseService.ts:112-116 | The weight query yields exactly the patient's rows, by date ascending |
| SupabaseService.MealRowsOfSpec | services/supabaseService.ts:121-125 | The meal query yields exactly the patient's rows, by date descending |
| SupabaseService.AttachedLogs | services/supabaseService.ts:111-154 | A patient built from its row and its queried logs has ascending weights and descending meals, and exactly its own logs |
| SupabaseService.FoundPatientLogs | services/supabaseService.ts:111-154 | A found patient carries exactly the logs whose `patient_id` is its id, weights ascending and meals descending by date |
| SupabaseService.AttachLogs | services/supabaseService.ts:346-376 | Each listed record is built from its row and from just the fetched logs whose `patient_id` equals its id |
| SupabaseService.AttachLogsRows | services/supabaseService.ts:346-357 | Each listed record describes its row, and a `joined_at`-descending row order carries over to the records |
| SupabaseService.AttachLogsReordered | services/supabaseService.ts:346-357 | Building records from a reordering of the stored rows lists every stored row once and nothing else |
| SupabaseService.AllPatientsOrder | services/supabaseService.ts:322-381 | A failed patient query gives []; otherwise one record per stored patient, newest `joined_at` first |
| SupabaseService.Database.AllPatients | services/supabaseService.ts:322-381 | No records when the patient query fails, otherwise one per stored patient |
| SupabaseService.AllPatientsLogs | services/supabaseService.ts:334-376 | Each listed patient's logs are its own rows (weights ascending, meals descending), or none when that log query failed |
| SupabaseService.UpdatedRows | services/supabaseService.ts:383-392 | Only rows with the given id change, and in them only status, current weight and target weight, each only when given |
| SupabaseService.UpdateWithOwnValues | services/supabaseService.ts:387-391 | Writing a stored patient's own status and weights back leaves the table exactly as it was |
| SupabaseService.Database.UpdatePatient | services/supabaseService.ts:383-400 | Returns whether the update succeeded; on success the table is the restricted update of the old one, on failure unchanged; the log tables never change |
| SupabaseService.Database.AddWeightLog | services/supabaseService.ts:403-432 | A successful insert appends one row and then sets that patient's current weight (unless that second write fails); a failed insert changes nothing and returns nothing |
| SupabaseService.InsertedMeal | services/supabaseService.ts:437-449 | The inserted meal row has `uploaded_at` exactly when a truthy one is given |
| SupabaseService.Database.AddMealLog | services/supabaseService.ts:435-472 | Succeeds iff the insert succeeds with an unused id; on success exactly the inserted row is appended and returned; other tables are unchanged |
| SupabaseService.UpdatedMeals | services/supabaseService.ts:475-489 | Only the meal with the given id changes, and in it only the defined fields among date, food name, calories and analysis |
| SupabaseService.SingleMealWithId | services/supabaseService.ts:485-489 | With unique ids, `.eq('id', mealId).single()` returns a row exactly when some meal has that id, and it is that meal |
| SupabaseService.Database.UpdateMealLog | services/supabaseService.ts:475-506 | The table becomes the restricted update; the updated meal is returned iff the write succeeded and the id exists |
| SupabaseService.Database.DeleteMealLog | services/supabaseService.ts:509-522 | On success exactly the rows with that id are removed; returns false only on failure |
| SupabaseService.Database.DeletePatient | services/supabaseService.ts:578-604 | Removes the patient's weight logs, meal logs and row, each unless that delete fails; returns false only when the patient-row delete fails |
| SupabaseService.DataUrlParts | services/supabaseService.ts:525-528 | For a data URL `data:<mime>;base64,<payload>` the payload and the content type are recovered exactly |
| SupabaseService.DataUrlSplit | services/supabaseService.ts:526 | Splitting a well-formed data URL at `;base64,` gives the header and the payload |
| SupabaseService.Latin1Bytes | services/supabaseService.ts:529-534 | One byte per character |
| SupabaseService.Latin1RoundTrip | services/supabaseService.ts:532-534 | For characters below 256, `charCodeAt` into a byte array loses nothing |
| SupabaseService.Base64ToBlob | services/supabaseService.ts:525-537 | The loop fills the buffer with the decoded payload's character codes; the blob's type is the data URL's content type; no blob when decoding fails |
| SupabaseService.FileExtension | services/supabaseService.ts:552-553 | The extension has no dot; a name with a dot ends with `.` followed by the extension, and a name without one is its own extension |
| SupabaseService.ImageFileName | services/supabaseService.ts:546-553 | The path is in the patient's folder and named by the upload time; a compressed image gets `.jpg` |
| SupabaseService.EncodedNamesDistinct | services/supabaseService.ts:548 | Two uploads of compressed images for one patient get the same name only at the same millisecond |
| SupabaseService.Database.UploadMealImage | services/supabaseService.ts:540-575 | Stores the bytes under `<patient>/<now>.<ext>` and returns its public URL iff decoding works, the upload succeeds and the name is new; otherwise nothing is stored |
| SupabaseService.AdminLogin | services/supabaseService.ts:607-611 | True iff the password is `admin1234` |
| KakaoService.GetSavedKakaoUserId | services/kakaoService.ts:122-124 | The stored `kakao_user_id`, or nothing |
| KakaoService.IsKakaoLoggedIn | services/kakaoService.ts:115-119 | Logged in iff both the saved id and the token are stored and non-empty |
| KakaoService.LoginThenLoggedIn | services/kakaoService.ts:84-85 | After a login stores the id and a non-empty token, the session is logged in and the saved id is the user's id in decimal; other keys are kept |
| KakaoService.LogoutThenLoggedOut | services/kakaoService.ts:104-119 | After logout's removals the session is logged out and no id is saved; other keys are kept |
| KakaoService.LoggedInHasUserId | services/kakaoService.ts:115-124 | A logged-in session always has a non-empty saved id |
| KakaoService.KakaoSdk.InitKakao | services/kakaoService.ts:21-52 | No SDK, already initialised, or a missing or placeholder key: nothing is initialised; otherwise initialised unless `init` throws |
| KakaoService.KakaoSdk.LoginWithKakao | services/kakaoService.ts:55-101 | Rejects when the SDK is missing or not initialised, or either request fails, leaving storage alone; on success stores both keys and resolves with the user |
| KakaoService.KakaoSdk.LogoutKakao | services/kakaoService.ts:104-112 | Both keys are removed when the SDK's logout callback runs; otherwise storage is unchanged |
| KakaoService.KakaoSdk.GetKakaoUserInfo | services/kakaoService.ts:127-146 | Rejects without a request when not logged in; a failed request clears both keys; a successful one changes nothing |
| AnalyzeImageApi.Handler | api/analyze-image.ts:6-61 | 405 iff the method is not POST; 400 iff a POST body lacks truthy image data; 200 with the parsed answer iff generation yields text that parses; 500 with the fixed failure body iff the body is missing, generation yields no text or the text does not parse |
| AnalyzeImageApi.ValidatedBeforeGeneration | api/analyze-image.ts:7-16 | A rejected method or a missing field gives the same response whatever the model would answer |
| AnalyzeTextApi.Handler | api/analyze-text.ts:6-57 | 405 iff the method is not POST; 400 iff a POST body lacks truthy text; 200 with the parsed answer iff generation yields text that parses; 500 with the text failure body iff the body is missing, generation yields no text or the text does not parse |
| AnalyzeTextApi.ValidatedBeforeGeneration | api/analyze-text.ts:7-16 | A rejected method or a missing field gives the same response whatever the model would answer |
| EstimateCaloriesApi.Handler | api/estimate-calories.ts:6-52 | 405 iff the method is not POST; 400 iff a POST body lacks a truthy food name; 200 with the parsed calories or 0 iff generation yields text that parses; 500 with calories 0 iff the body is missing, generation yields no text or the text does not parse |
| EstimateCaloriesApi.AlwaysANumber | api/estimate-calories.ts:46-51 | Every 200 and 500 response carries a number of calories |
| EstimateCaloriesApi.ValidatedBeforeGeneration | api/estimate-calories.ts:7-16 | A rejected method or a missing field gives the same response whatever the model would answer |
| GeminiService.StripHeaderSpec | services/geminiService.ts:59 | A data URL is sent without its header when it has a payload; a bare payload is sent as it is |
| GeminiService.StripHeader | services/geminiService.ts:59 | A payload without a comma is sent unchanged, and the result is empty only when the input is |
| GeminiService.AnalyzeFoodImage | services/geminiService.ts:56-82 | When the request arrives with an OK status and a readable body, the answer is that body; in every other case (network error, non-OK status, unreadable body) the image failure answer |
| GeminiService.AnalyzeFoodText | services/geminiService.ts:84-107 | When the request arrives with an OK status and a readable body, the answer is that body; in every other case (network error, non-OK status, unreadable body) the text failure answer |
| GeminiService.EstimateCalories | services/geminiService.ts:110-130 | `calories` or 0 from an OK response with a readable body; 0 on a network error, a non-OK status or an unreadable body |
| GeminiService.ImageAnalysisEndToEnd | services/geminiService.ts:56-82 | Client and image handler together yield the model's parsed answer about the stripped payload, and the failure answer in every other case |
| GeminiService.TextAnalysisEndToEnd | services/geminiService.ts:84-107 | Client and text handler together yield the model's parsed answer, and the failure answer otherwise |
| GeminiService.EstimateEndToEnd | services/geminiService.ts:110-130 | Client and calorie handler together yield the model's number or 0 |
| ExifService.PhotoDate | services/exifService.ts:20-22 | No date exactly when no field is present and non-empty |
| ExifService.FieldPrecedence | services/exifService.ts:20-28 | `DateTimeOriginal` wins over `DateTime`, which wins over `CreateDate` |
| ExifService.ExtractPhotoTimestamp | services/exifService.ts:8-38 | An unreadable file or one without a usable date gets the current time; the result is always the current time or the conversion of the EXIF date that was found |
| Router.PathToRoute | Router.tsx:10-11 | `/` is the patient route; any other path is its text after the first character |
| Router.RouteToPath | Router.tsx:16 | The patient route is `/`; any other route r is `/r` |
| Router.RouteRoundTrip | Router.tsx:11-16 | Every non-empty route survives the trip to a path and back |
| Router.PathRoundTrip | Router.tsx:11-16 | A path survives the trip to a route and back iff it is not `/patient`; `/` and `/patient` both name the patient route |
| Router.RouteState.constructor | Router.tsx:8-18 | The initial route comes from the address bar, and its path is pushed once |
| Router.RouteState.SetRoute | Router.tsx:14-18 | A new route pushes its path and the address bar names it; setting the same route pushes nothing |
| Router.RouteState.PopState | Router.tsx:20-29 | Back or forward sets the route through the same path mapping as start-up |
| AdminLoginPage.LoginForm.SetPassword | pages/AdminLoginPage.tsx:57 | The field holds what was typed; the error is kept |
| AdminLoginPage.LoginForm.HandleSubmit | pages/AdminLoginPage.tsx:14-25 | `onLogin` receives the password iff the service's check accepts it, with the error cleared; otherwise the error message is set and the field cleared |
| AdminDashboard.StatusCounts | components/AdminDashboard.tsx:23-24 | The pending, active and rejected counts add up to the number of patients |
| AdminDashboard.PendingPatients | components/AdminDashboard.tsx:23 | A patient is on the pending list iff it is in the list with status PENDING |
| AdminDashboard.ActivePatients | components/AdminDashboard.tsx:24 | A patient is on the active list iff it is in the list with status ACTIVE |
| AdminDashboard.Displayed | components/AdminDashboard.tsx:26 | The tab shows exactly the patients with its status; a REJECTED patient is on neither tab |
| AdminDashboard.FilteredPatients | components/AdminDashboard.tsx:28-31 | A patient is shown iff they have the tab's status and their lower-cased name contains the lower-cased term or their phone contains the term as typed |
| AdminDashboard.EmptySearchKeepsAll | components/AdminDashboard.tsx:28-31 | An empty search shows the whole tab |
| AdminDashboard.SearchIgnoresTermCase | components/AdminDashboard.tsx:28-31 | Two terms equal after lower-casing show the same patients, except where the phone number (matched as typed) contains one of them |
| AdminDashboard.DayCells | components/AdminDashboard.tsx:406-413 | One cell per day of the month, each with its day key, that day's meals and their calorie sum |
| Calendar.MealOnOneKey | components/AdminDashboard.tsx:409-412 | A meal is listed under one day key at most |
| Calendar.MealOnOneDay | components/AdminDashboard.tsx:406-413 | A meal is listed under at most one day of a month, so no meal appears in two day cells |
| AdminDashboard.HandleApprove | components/AdminDashboard.tsx:48-54 | With confirmation, the same record with only the status set to ACTIVE; without it, nothing |
| AdminDashboard.HandleReject | components/AdminDashboard.tsx:56-62 | With confirmation, the same record with only the status set to REJECTED; without it, nothing |
| AdminDashboard.DashboardState.constructor | components/AdminDashboard.tsx:15-19 | No selection, empty search, the active tab, the given month |
| AdminDashboard.DashboardState.SetTab | components/AdminDashboard.tsx:91-97 | Switching tabs sets the tab and drops the selection |
| AdminDashboard.DashboardState.SelectPatient | components/AdminDashboard.tsx:127 | Selects the patient; nothing else changes |
| AdminDashboard.DashboardState.SetSearchTerm | components/AdminDashboard.tsx:112 | Sets the term; nothing else changes |
| AdminDashboard.DashboardState.ChangeMonth | components/AdminDashboard.tsx:42-44 | Moves to the month `delta` months away, carrying across years |
| AdminDashboard.HandleDeletePatient | components/AdminDashboard.tsx:64-74 | Without confirmation nothing changes; with it the patient's weight logs, meal logs and row are removed, each unless that delete fails, and success is reported iff the row delete succeeds; images are kept |
| Calendar.ChangeMonth | components/AdminDashboard.tsx:42-44 | The result is a valid month exactly `delta` months from the given one |
| Calendar.ChangeMonthCompose | components/PatientDashboard.tsx:168-170 | Two moves compose into one, and a move by 0 stays put |
| Calendar.DaysInMonth | components/AdminDashboard.tsx:34-40 | 29 exactly in a leap-year February, 28 in other Februaries, 30 exactly in April, June, September and November, 31 in the other seven months |
| Calendar.DaySuffixParts | components/AdminDashboard.tsx:408 | The key ends in `-MM-DD`, whose parts read back as the 1-based month and the day |
| Calendar.DateKeyInjective | components/AdminDashboard.tsx:408 | Different days have different keys |
| Calendar.DayOfIsPrefixBeforeT | components/AdminDashboard.tsx:410 | A meal's day is the date's prefix up to its first `T`, or the whole date when it has no `T` |
| Calendar.DayOfKey | components/AdminDashboard.tsx:408-411 | A day key is its own day |
| Calendar.TotalCaloriesAppend | components/AdminDashboard.tsx:413 | The calorie sum of two lists is the sum of their sums |
| Calendar.TotalCaloriesNonNegative | components/AdminDashboard.tsx:413 | The calorie sum of meals with no negative count is not negative |
| Calendar.MealsOnMembers | components/AdminDashboard.tsx:409-412 | A meal is in a day's list iff it is a stored meal whose day is that key |
| Calendar.MealsOnPrepend | components/PatientDashboard.tsx:415-419 | A meal added in front heads its own day's list and adds its calories to that day only |
| Calendar.MonthKeysDistinct | components/AdminDashboard.tsx:406-408 | The days of a month have pairwise different keys |
| Calendar.SumOfDailyTotals | components/AdminDashboard.tsx:406-413 | The day totals over distinct keys add up to the calories of the meals on those days |
| Calendar.MonthTotal | components/AdminDashboard.tsx:406-413 | The day totals of a month add up to the calories of that month's meals |
| PatientDashboard.DayOfIsSplitHead | components/PatientDashboard.tsx:174 | The calendar's day of a date is `date.split('T')[0]` |
| PatientDashboard.FilteredLogs | components/PatientDashboard.tsx:172-177 | A meal is listed iff it is one of the patient's meals and its day is the selected date |
| PatientDashboard.DailyTotalCalories | components/PatientDashboard.tsx:179 | The same figure the clinic's calendar shows for that day; not negative when no meal is |
| PatientDashboard.RecentMeals | components/PatientDashboard.tsx:361 | The first three meals, or all when there are fewer |
| PatientDashboard.ChartLogs | components/PatientDashboard.tsx:215 | The last seven weight logs, or all when there are fewer |
| PatientDashboard.ChartEndsWithNewLog | components/PatientDashboard.tsx:44-49 | After a weight is appended the chart ends with it, preceded by the latest earlier entries |
| PatientDashboard.NewMealShownOnItsDay | components/PatientDashboard.tsx:93-101 | A prepended meal heads its day's list, adds its calories to that day's total, and leads the recent meals |
| PatientDashboard.DashboardState.constructor | components/PatientDashboard.tsx:17-27 | The home tab, nothing typed, today's month and today's day |
| PatientDashboard.DashboardState.ChangeMonth | components/PatientDashboard.tsx:168-170 | The month `delta` months away; the selected day is kept |
| PatientDashboard.DashboardState.SelectDay | components/PatientDashboard.tsx:427 | A day cell selects its key |
| PatientDashboard.DashboardState.HandleWeightSubmit | components/PatientDashboard.tsx:32-57 | An empty field does nothing; a saved weight is appended to the logs and becomes the current weight in the handed-back record; the datastore gains exactly that weight row and the patient's current weight (other rows and columns kept, and nothing when that write fails); a failed insert leaves both tables and the field unchanged |
| PatientDashboard.DashboardState.HandleImageUpload | components/PatientDashboard.tsx:59-112 | No file: nothing; the compressed image is stored under its file name iff it decodes, the upload succeeds and the name is new, and stays stored when a later step fails; a meal is saved iff that upload and the insert succeed; the saved row (EXIF date, upload time, URL, analysis) is appended to the table, prepended to the record, and its day selected on the log tab |
| PatientDashboard.DashboardState.HandleTextSubmit | components/PatientDashboard.tsx:114-153 | Blank text does nothing; a saved meal with the analysis and the fixed picture is appended to the table and prepended to the record, the field cleared and today selected on the log tab; a failed insert changes no table |
| PatientDashboard.DashboardState.ShowMealDay | components/PatientDashboard.tsx:100-101 | After a saved meal: the log tab with the meal's day selected |
| App.ViewFor | App.tsx:56-65 | ACTIVE goes to the dashboard, PENDING to the waiting screen, REJECTED to the landing page |
| App.SignupRecord | App.tsx:104-123 | The signup record is PENDING, on this device, has the birthdate only when typed and the Kakao id only when stored, the parsed age or 0, and the parsed current and target weights or 0, starting at the current weight |
| App.ReplaceById | App.tsx:185 | Exactly the entries with the updated id are replaced; the others are unchanged |
| App.ApprovalMovesToActive | components/AdminDashboard.tsx:48-54 | After approval reaches the list, the approved record is active and no pending entry has that id |
| App.RejectionLeavesBothLists | components/AdminDashboard.tsx:56-62 | After rejection reaches the list, that id is in neither the pending nor the active list |
| App.SignupThenPending | App.tsx:36-74 | With no Kakao session stored and the signup's unshared device id in storage, the patient start-up resolves is the signed-up row (exactly when the device lookup's requests succeed), sent to the waiting screen |
| App.LoginMatchesCredentials | services/supabaseService.ts:170-176 | A patient found by credentials has exactly the typed phone, name and birthdate |
| App.App.constructor | App.tsx:23-33 | Loading, no patients, the landing view, no current patient, empty forms, not logged in as the clinic |
| App.App.Route | App.tsx:56-65 | The view for the status; an active patient becomes current; a rejected one drops the device id when asked to |
| App.App.FallBackToDevice | App.tsx:50-54 | The device lookup (and device-id creation) happens only when the earlier lookup found nobody |
| App.App.LoadPatientData | App.tsx:36-74 | Kakao id first when a session is stored, then device id (the patient is `StartUpLookup` of the old storage); routing by status; REJECTED removes the stored device id; nobody found shows the landing page |
| App.App.LookUpKakaoSession | App.tsx:43-48 | The Kakao lookup is made only when a Kakao session with a non-empty saved id is stored, and changes nothing |
| App.KakaoLookup | App.tsx:43-48 | A patient is found only with a stored Kakao session, and it describes a stored row carrying the saved Kakao id |
| App.App.RouteOrLanding | App.tsx:56-68 | A found patient is routed by status, with REJECTED dropping the device id; nobody found shows the landing page |
| App.App.LoadAllPatients | App.tsx:95-98 | The list becomes the datastore's full list |
| App.App.CheckAdminToken | App.tsx:77-83 | The flag is set and the list loaded only when the stored token is `admin_logged_in` |
| App.App.HandleAdminLogin | App.tsx:196-200 | Stores the token, sets the flag, loads the list |
| App.App.HandleAdminLogout | App.tsx:202-206 | Removes the token, clears the flag, empties the list |
| App.App.HandlePatientSignup | App.tsx:100-136 | Creates the signup record; success shows the waiting screen and drops the temporary Kakao id; failure leaves view and tables unchanged |
| App.App.RebindDevice | App.tsx:149-155 | The rebind stores the device id if needed and leaves every table unchanged |
| App.App.HandleSimpleLogin | App.tsx:138-180 | A found patient is routed by status without dropping the device id, and no row changes; nobody found opens signup with name, phone and birthdate copied and the rest empty |
| App.App.HandlePatientUpdate | App.tsx:182-194 | Writes status and weights; on success replaces the list entry and reloads the current patient when it is the same one; on failure nothing changes |
| App.App.HandleKakaoLogin | App.tsx:208-247 | Kakao id first, then device id; routing by status with REJECTED dropping the device id; nobody found opens signup with the nickname and phone (or empty) and stores the Kakao id |
| App.App.OfferKakaoSignup | App.tsx:231-243 | The signup form gets the nickname and the phone (or empty), the Kakao id is stored, and the signup view is shown |
| App.App.ShowView | App.tsx:279-280 | The landing page's and back buttons' view changes |
| App.App.SetLoginForm | App.tsx:306-327 | The login form holds what was typed |
| App.App.SetSignupForm | App.tsx:364-392 | The signup form holds what was typed |
| App.App.PatientLogout | App.tsx:432-435 | No current patient, the landing page |
| App.AdminSessionRoundTrip | App.tsx:77-83 | After login the start-up check restores the session; after logout it does not |
| App.RejectedGetsNewDeviceId | App.tsx:62-64 | Once a rejected patient's device id is removed, the next device lookup uses a new id |
| Strings.ToLower | components/AdminDashboard.tsx:29 | Same length, no upper-case letter left, each upper-case ASCII letter moved to its lower-case form |
| Strings.IncludesIff | components/AdminDashboard.tsx:29-30 | `includes` holds iff the term occurs at some position |
| Strings.SplitLastSuffix | services/supabaseService.ts:552 | When the text has a separator, it ends with that separator followed by the last piece of the split |
| Strings.SplitHead | components/PatientDashboard.tsx:174 | The first part of a split is the text before the first separator, or the whole text without one |
| Strings.PadStart | components/AdminDashboard.tsx:408 | The text is right-aligned in the width with the fill character in front |
| Strings.ParsePad2 | components/AdminDashboard.tsx:408 | A number below 100, padded to two digits, reads back as itself |
| Strings.NatToString | services/kakaoService.ts:84 | Decimal digits without a leading zero |
| Strings.ParseNatToString | services/kakaoService.ts:84 | The decimal text of an id reads back as that id |
| Browser.LocalStorage.constructor | services/supabaseService.ts:14 | Storage starts with the given items |
| Browser.LocalStorage.GetItem | services/supabaseService.ts:14 | The stored value iff the key is present, otherwise nothing |
| Browser.LocalStorage.SetItem | services/supabaseService.ts:17 | The key maps to the value; every other key is kept |
| Browser.LocalStorage.RemoveItem | App.tsx:63 | The key is gone; every other key is kept |

## Left out

- `compressImage`: canvas drawing, `FileReader` and floating-point rescaling. The compressed data URL is an input of the photo handler, and `None` stands for compression throwing.
- The realtime subscription (`subscribeToPatientUpdates` and the effect that reloads the list on every event): a managed pub/sub channel. `App.App.LoadAllPatients` is what each event would run.
- JSX rendering is not modelled. That covers `components/Button.tsx`, `pages/PatientLandingPage.tsx`, the loading screen, the weight-trend badge and the `toFixed` summaries (float formatting), and the month label.
- `getDaysInMonth`'s `firstDay` (the weekday of the first): it only places empty cells.
- `lib/supabase.ts`, `constants.ts` and `App.old.tsx`: client construction, mock fixtures, and a superseded version of App.tsx. They are not part of this model.
- Network, the Kakao SDK, `fetch`, Gemini `generateContent`, `exifr`, `atob`, `crypto.randomUUID`, and the current time from `Date`: these are parameters or `bool` outcomes. The month arithmetic of `new Date(y, m, d)` is computed by the model, with the limits in the next four lines.
- Calendar.ChangeMonth: the `Date` constructor reads a year from 0 to 99 as 1900 plus that year, and it has a range of about ±275,760 years. Neither is modelled. The model counts months on an unbounded proleptic Gregorian line, so it differs from the source from December of year 99 backwards (`new Date(99, 10, 1)` is November 1999, the model gives year 99).
- Calendar.ChangeMonthCompose: composition holds of the model's month line. In the source it fails across the year-99 boundary, because of the two-digit-year rule named under Calendar.ChangeMonth.
- Calendar.DaysInMonth: counts days for the year as given. For years 0 to 99 the source counts the days of 1900 plus that year, so February of year 0 has 28 days in the source and 29 in the model.
- AdminDashboard.DashboardState.ChangeMonth: inherits the two-digit-year and range gap of Calendar.ChangeMonth.
- PatientDashboard.DashboardState.ChangeMonth: inherits the two-digit-year and range gap of Calendar.ChangeMonth.
- `window.confirm` is a `bool`. `alert` and `location.reload` are not modelled.
- Time zones: ISO strings are compared as text, as the code does.
- `Strings.ToLower`: lower-cases ASCII letters only, because Unicode case mapping is not modelled. Korean names have no case.
- Weights are `real` and calories `int`. In `App.SignupRecord`, `NaN` from `parseFloat` or `parseInt` is `None`, read as 0 as `|| 0` does. A fractional calorie count from the model is not modelled.
- PatientDashboard.DashboardState.HandleWeightSubmit: `parseFloat` is a total function to `real`, so a non-numeric field is not modelled; the source would store `NaN`.
- Foreign keys and column defaults of the datastore (for example a default `uploaded_at`) are not modelled. An omitted optional column is stored as absent.
- SupabaseService.Database.UpdateMealLog: an update with no defined field is modelled like any other. The datastore's behaviour on an empty update is not modelled.
- KakaoService.KakaoSdk.LogoutKakao: whether the SDK runs its logout callback is a `bool`.
- Kakao user ids are natural numbers written in decimal, as the SDK returns them.
- Response bodies of another shape than the expected one count as a failed parse.
- PatientDashboard.DashboardState.HandleImageUpload: the source reads the clock for the EXIF fallback and again for `uploadedAt`; the model uses one reading, `nowIso`, for both.
- PatientDashboard.DashboardState.HandleTextSubmit reads the clock twice in the source (the meal date and the selected day). The model reads it once.
- Request bodies hold string fields only.

## Proof notes

- Lookups are specified with `Sorting.Filter` and `Sorting.SortBy`.
- Their lemmas carry the proof: uniqueness of ids turns "one filtered row" into "one matching row".
- The insertion sort behind `order by` is proved sorted and a permutation.
- The calendar's per-day totals are proved to add up to the month's total.
