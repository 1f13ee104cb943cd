# Recomp Tracker: a Dafny model of its data and credential layer

Recomp Tracker is a single-file Streamlit application (`app.py`). Users
register and log in. They then log workouts, meals, body measurements and
progress photos into a SQLite file, `workouts.db`, and view them on a
dashboard. This project models the part of that script that has logic of its own:

- **the state**: the five tables (`users`, `workouts`, `nutrition`,
  `body_measurements`, `progress_photos`) and the session
  (`st.session_state.user`, `st.session_state.username`). These are the
  fields of the class `Tracker.Tracker`. Each table is a `seq` of row
  datatypes (`Records`), and each row keeps its `INTEGER PRIMARY KEY` id.
- **registration, login and logout** (`Tracker.Tracker.Register`, `Login`,
  `Logout`), with the username lookup and the hash comparison as pure
  functions (`Credentials`). `hash_password` is the class's constant `hash`,
  which is supplied when the object is created.
- **the four log writers** (`LogWorkout`, `LogMeal`, `LogMeasurement`,
  `LogPhoto`). Each one appends one row tagged with the session's user and
  with "today", which is a parameter. Each method's `modifies` clause names
  only its own table, so every other table and the session provably stay
  unchanged. The class invariant `Valid()` states:
  - row ids run 1, 2, 3, … in every table;
  - user names are unique;
  - every row belongs to an existing user;
  - every workout obeys the plan's day type;
  - stored values respect the forms' lower bounds;
  - a logged-in session names an existing user.
- **the reads**: the per-user selections, the exercise list (`unique()`),
  the exercise filter, the photo listing `ORDER BY date DESC` with its image
  lookup (`Gallery`), and the daily macro totals (`groupby('date').sum()`,
  `Nutrition`). These are pure functions over the tables. Their properties
  are lemmas, each checked against an independent definition:
  - the daily totals against `MacrosOn` and `SumMacros`;
  - the sort against a multiset of its input;
  - the login check against `CredentialsMatch`.

Dates are the `"%Y-%m-%d"` text the script stores. They are ordered as
SQLite's BINARY collation orders text (`Dates.Before`). For this format
that order is also chronological, so it is the order pandas gives the
groups after `pd.to_datetime`. Workout weights and body measurements are
`real` (exact). The macro inputs are integer widgets, so macros are `int`.
Every widget guarantee is a `requires` of the writer that receives the
value. The guarantees are:

- `min_value` on the number inputs;
- select boxes that offer only the plan's day types and the exercises of
  the chosen day;
- the writers run only when someone is logged in (`st.stop()` otherwise).

The code builds a workout row by branching on the day type, so a row can
never carry both field groups. For that reason there is no "invalid entry"
error path, and the model has none either. The queries without `ORDER BY`
(workouts, meals, measurements, and the image lookup) return rows in table
(rowid) order in the model. An ascending date order is sometimes described
for the measurements listing, but the code does not ask for one.

## Model

| member | source | states |
|---|---|---|
| `Tracker.Tracker.constructor` | app.py:77-81 | A fresh store has five empty tables and a logged-out session, and it satisfies the invariant |
| `Tracker.Tracker.Register` | app.py:93-100 | Fails with "Username already exists!" exactly when the name is taken, and then the users table is unchanged. Otherwise the users table becomes `Registered(old users, name, hash(password))`: one row is appended with the next id, the name and the hash, never the password itself. The session is untouched |
| `Tracker.AuthOutcome.Notice` | app.py:98-109 | Every outcome of the login page shows a message ("Account created! Please login.", "Username already exists!", "Invalid credentials!"), except a successful login, which shows none |
| `Tracker.Tracker.Login` | app.py:102-109 | Succeeds exactly when some row has the name and the stored hash equals `hash(password)`. The session then holds that row's id and the supplied name. An unknown name and a wrong password give the same `InvalidCredentials` and leave the session unchanged. No table changes |
| `Tracker.Tracker.Logout` | app.py:123-126 | Clears the session's user and name and keeps the invariant |
| `Tracker.Tracker.LogWorkout` | app.py:159-166 | Appends exactly one workout row, built by `NewWorkout` from the form and tagged with the session user and today. Every user's history stays the same, except that the session user's gains that row at the end. No other table or the session changes |
| `Tracker.Tracker.LogMeal` | app.py:179-186 | Appends exactly one nutrition row with the form's values (macros ≥ 0, a listed meal type), tagged with the session user and today. Only the session user's meals gain it, and nothing else changes |
| `Tracker.Tracker.LogMeasurement` | app.py:197-204 | Appends exactly one measurement row (all values ≥ 0.0), tagged with the session user and today. Only that user's measurements gain it, and nothing else changes |
| `Tracker.Tracker.LogPhoto` | app.py:224-231 | Appends exactly one photo row holding the uploaded bytes unchanged, tagged with the session user and today. Only that user's photos gain it, and nothing else changes |
| `Records.NewWorkout` | app.py:134-164 | The row is well formed: its exercise belongs to its day type. The strength columns are set exactly on non-cardio days and the cardio columns exactly on the two cardio days, the other group being NULL. Reading the form values back (`EffortOf`) gives what was submitted |
| `Credentials.FindUser` | app.py:102-103 | Finds a row exactly when the name is registered. It returns the first row with that name |
| `Credentials.FindUserUnique` | app.py:18 | Under the UNIQUE constraint the lookup returns the one row that has the name |
| `Credentials.Authenticate` | app.py:102-109 | Any id it returns belongs to a row with that name and that hash. An unregistered name always fails |
| `Credentials.AuthenticateIff` | app.py:104-106 | With unique names, authentication succeeds if and only if a row has both the name and the hash, and it yields that row's id |
| `Credentials.RegisterThenAuthenticate` | app.py:93-106 | After registering a new name, logging in with the same password yields the new row's id, and any password with a different hash is refused. Names stay unique |
| `Credentials.RegisterKeepsOtherLogins` | app.py:94-96 | Registering a name does not change the outcome of logging in under any other name |
| `Seqs.Select` | app.py:247 | A `WHERE` filter or boolean mask keeps exactly the rows that pass, each as many times as it occurs, and never more rows than the input |
| `Seqs.SelectAppend` | app.py:252 | Filtering keeps relative order: it distributes over concatenation |
| `Seqs.Distinct` | app.py:250 | `unique()` returns no value twice, and exactly the values of its input |
| `Seqs.DistinctFirstOccurrenceOrder` | app.py:250 | `unique()` lists values in the order of their first occurrence |
| `Queries.UserWorkouts` | app.py:247 | Returns exactly the workouts whose `user_id` is the session user |
| `Queries.UserMeals` | app.py:265 | Returns exactly the meals whose `user_id` is the session user |
| `Queries.UserMeasurements` | app.py:207-210 | Returns exactly the measurements whose `user_id` is the session user, in table order |
| `Queries.UserPhotos` | app.py:234 | Returns exactly the photos whose `user_id` is the session user |
| `Queries.UserWorkoutsAfterSave` | app.py:161-164 | A saved workout is added at the end of its owner's history, and every other user's history is unchanged |
| `Queries.UserMealsAfterSave` | app.py:181-184 | The same for a saved meal |
| `Queries.UserMeasurementsAfterSave` | app.py:199-202 | The same for saved measurements |
| `Queries.UserPhotosAfterSave` | app.py:227-229 | The same for a saved photo |
| `Queries.SavedWorkoutsReadBack` | app.py:247 | After a run of saves by one user, that user's history is the earlier history followed by exactly the saved rows, with their fields intact |
| `Queries.ExerciseList` | app.py:250 | The exercise picker lists each exercise of the user's workouts exactly once, and nothing else |
| `Queries.ExerciseFilter` | app.py:252 | Keeps exactly the workouts whose exercise equals the selected name, with their multiplicities |
| `Queries.ExerciseFilterAppend` | app.py:252 | The exercise filter preserves the frame's order |
| `Queries.PickedExerciseChart` | app.py:250-254 | For an exercise picked from the user's list, the chart's rows are non-empty and are all that user's rows of that exercise |
| `Dates.BeforeIsLexicographic` | app.py:234 | The date order `Before` (SQLite's BINARY collation on the date text) holds exactly when the two texts first differ at a position where the first one ends or has the smaller character |
| `Dates.BeforeTotal` | app.py:234 | Any two dates are equal or ordered one way or the other |
| `Dates.BeforeTransitive` | app.py:234 | The date order is transitive |
| `Dates.BeforeAsymmetric` | app.py:234 | The date order is asymmetric |
| `Gallery.InsertByDate` | app.py:234 | Inserting a photo into a newest-first list keeps it newest-first and adds exactly that photo |
| `Gallery.SortByDateDesc` | app.py:234 | `ORDER BY date DESC` returns a permutation of its input in which no photo precedes one with a later date |
| `Gallery.ImageOnDate` | app.py:237 | The lookup by `(date, user_id)` finds an image exactly when the user has a photo on that date, and it returns the image of the first such row |
| `Gallery.Listing` | app.py:234-238 | The page shows one line per photo of the user. Line `k` carries the date and notes of the `k`-th row of the user's photos in `ORDER BY date DESC` order |
| `Gallery.ListingWellDefined` | app.py:234-237 | The lines are newest first, and every image lookup finds a row, so `fetchone()[0]` never fails |
| `Gallery.ListingShowsOnlyTheUsersPhotos` | app.py:234-236 | Every line shows the date and notes of a photo of the session user, never another user's |
| `Gallery.ListingShowsAllTheUsersPhotos` | app.py:234-236 | Every photo of the session user has a line with its date and notes |
| `Gallery.ListingShowsOneImagePerDate` | app.py:237 | As written, any two lines with the same date show the same image |
| `Gallery.SecondPhotoOfADayIsHidden` | app.py:237 | Two photos of one user on one date: both are listed, but both lines show the first photo's image `[1]`, so the second image is never displayed |
| `Gallery.ImageById` | app.py:237 | A lookup by primary key returns only the image of the row with that id and owner |
| `Gallery.ImageByIdFindsPhoto` | app.py:237 | With numbered rows, looking up a photo's id returns that photo's own image |
| `Gallery.ListingById` | app.py:234-238 | The corrected page shows one line per photo of the user |
| `Gallery.ListingByIdShowsEveryPhoto` | app.py:234-238 | Corrected listing: newest first, and every photo of the user appears with its own date, notes and image |
| `Nutrition.AddToDayDays` | app.py:269 | Adding a meal adds its date to the set of dates that have rows, and no other date |
| `Nutrition.AddToDayAscending` | app.py:269 | Adding a meal keeps the rows in strictly ascending date order |
| `Nutrition.AddToDayTotalOn` | app.py:269 | Adding a meal adds its macros to its own date's totals and to no other date |
| `Nutrition.AddToDayTotal` | app.py:269 | Adding a meal increases the sum over all rows by exactly that meal's macros |
| `Nutrition.DailyTotalsStep` | app.py:269 | Folding one more meal into the totals of the earlier meals yields the totals of all meals: still ascending, with the meals' dates, per-date sums and grand total |
| `Nutrition.DailyTotals` | app.py:269 | The rows are strictly ascending by date. The dates are exactly those of the meals. The totals on every date equal the reference sum `MacrosOn` over that date's meals. All rows together sum to the macros of all meals |
| `Nutrition.RowHoldsTotalOn` | app.py:269 | Each row holds the totals of its own date |
| `Nutrition.UserDailyTotals` | app.py:265-269 | For one user: dates strictly ascending, one row per date on which that user logged a meal and none for other dates. Each row sums exactly that user's meals of its date, and the rows add up to all of the user's meals |
| `Nutrition.DailyTotalsExample` | app.py:269 | Meals (30,40,15) and (10,5,5) on 2024-01-01 and (20,20,20) on 2024-01-02 give `[(2024-01-01, 40,45,20), (2024-01-02, 20,20,20)]` |

## Left out

- Schema creation (`init_db`, app.py:11-71, and its copy in database.py) is not modelled: the model starts from empty tables. It says nothing about reopening an existing file, about the idempotence of `CREATE TABLE IF NOT EXISTS`, or about SQLite errors (an unavailable or failed write).
- SHA-256 (`hashlib`) is not modelled: `hash` is an arbitrary function supplied to the constructor. No property depends on what it computes, and none needs it to be injective.
- `datetime.now()` and `st.time_input` are parameters: `today` is a date string and `mealTime` an arbitrary string.
- Every Streamlit widget, message display, chart, `st.dataframe`, `st.rerun`/`st.stop` call and page selection is left out. Form values are method parameters whose widget constraints are preconditions. `AuthOutcome.Notice` gives the texts of the login page's messages.
- pandas `to_datetime`, plotly and PIL are left out. The model keeps grouping by date text, which on `"%Y-%m-%d"` text matches grouping by the parsed date.
- Floating point: REAL columns are exact `real`, so rounding in stored weights is not modelled. Macro sums are exact integers.
- The upload boundary's file-type check (JPEG/PNG) is not modelled: `LogPhoto` stores any bytes.
- Only one session is modelled. Several browser sessions sharing `workouts.db`, and the file's locking, are out of scope.
- SQLite does not enforce the declared foreign keys by default. The model instead keeps "every row's owner exists" as a class invariant, which holds because rows are only ever tagged with a logged-in user.
- Every `SELECT` without `ORDER BY` (app.py:208, 237, 247, 265) is modelled in rowid order, the order of SQLite's full table scan. SQLite does not promise that order. Lemmas that put a new row last in its owner's listing, and `ImageOnDate`'s "first such row", rely on it.
- Gallery.SortByDateDesc: photos of the same date keep their table order, and SQLite promises no order among them. The stated properties of the listing do not depend on the tie order. Only the helper `SameDayPairSorted`, inside the proof of `SecondPhotoOfADayIsHidden`, computes it.

## Findings

| source | as written | input that shows it | evidently intended | confidence | as-written member | corrected member |
|---|---|---|---|---|---|---|
| app.py:237 | Each listed photo's image is fetched with `WHERE date = ? AND user_id = ?` and `fetchone()`, so every photo of one date shows the image of the first row of that date | User 1 uploads `[1]` ("front") and then `[2]` ("side") on 2024-01-01: both lines show image `[1]`, and `[2]` is never displayed | Each line shows its own photo: select `id` in the listing and fetch the image by id | high (not executed) | `Gallery.SecondPhotoOfADayIsHidden` | `Gallery.ListingByIdShowsEveryPhoto` |
