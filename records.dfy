/** The rows of the five tables of workouts.db, the option lists the forms
    offer, and the rule that decides which fields a workout row fills. */
module Records {
  import opened Dates

  datatype Option<+T> = None | Some(value: T)

  /** Row identifiers: SQLite's INTEGER PRIMARY KEY, counting from 1. */
  type RowId = nat
  type UserId = nat
  type Bytes = seq<bv8>

  datatype User = User(id: RowId, username: string, passwordHash: string)

  /** The form values of a workout: the strength widgets or the cardio widgets,
      whichever the chosen day type shows. */
  datatype Effort =
    | Strength(sets: int, reps: int, weight: real)
    | Cardio(duration: int, intensity: string)

  /** A row of the `workouts` table; `None` is SQL NULL. */
  datatype Workout = Workout(
    id: RowId, userId: UserId, date: Date, dayName: string, exercise: string,
    sets: Option<int>, reps: Option<int>, weight: Option<real>,
    duration: Option<int>, intensity: Option<string>)

  /** A row of the `nutrition` table. The macro widgets are integer inputs. */
  datatype Meal = Meal(
    id: RowId, userId: UserId, date: Date, mealType: string, mealTime: string,
    protein: int, carbs: int, fat: int, notes: string)

  /** A row of the `body_measurements` table. */
  datatype Measurement = Measurement(
    id: RowId, userId: UserId, date: Date, weight: real, chest: real, waist: real, hips: real)

  /** A row of the `progress_photos` table; the image is the uploaded file's bytes. */
  datatype Photo = Photo(id: RowId, userId: UserId, date: Date, image: Bytes, notes: string)

  /** The workout plan: each day type and the exercises the form offers for it. */
  const WORKOUT_PLAN: map<string, seq<string>> := map[
    "Full-Body Strength" := ["Barbell Back Squats", "Bench Press", "Bent-Over Barbell Rows", "Overhead Press", "Plank"],
    "HIIT Cardio" := ["Sprint Intervals", "Incline Treadmill Sprints", "Bike Sprints"],
    "Upper Body Hypertrophy" := ["Incline Dumbbell Press", "Pull-Ups/Lat Pulldowns", "Dumbbell Flyes", "Single-Arm Dumbbell Rows", "Lateral Raises"],
    "Lower Body Power" := ["Deadlifts", "Walking Lunges", "Leg Press", "Farmers Carry", "Hanging Leg Raises"],
    "Metabolic Circuit" := ["Kettlebell Swings", "Push-Ups", "Dumbbell Step-Ups", "TRX Rows", "Mountain Climbers"],
    "Steady-State Cardio" := ["Incline Treadmill Walk", "Cycling", "Rowing"]
  ]

  const CARDIO_DAYS: seq<string> := ["HIIT Cardio", "Steady-State Cardio"]
  const INTENSITY_LEVELS: seq<string> := ["Low", "Moderate", "High"]
  const MEAL_TYPES: seq<string> := ["Breakfast", "Lunch", "Dinner", "Snack"]

  /** What the workout form can submit: a day type of the plan, one of its
      exercises, the widget group the day type shows, and the widgets' lower bounds. */
  predicate WorkoutFormOk(day: string, exercise: string, effort: Effort)
  {
    && day in WORKOUT_PLAN
    && exercise in WORKOUT_PLAN[day]
    && (day in CARDIO_DAYS <==> effort.Cardio?)
    && match effort
       case Strength(sets, reps, weight) => sets >= 1 && reps >= 1 && weight >= 0.0
       case Cardio(duration, intensity) => duration >= 1 && intensity in INTENSITY_LEVELS
  }

  /** A stored workout obeys the plan: its exercise belongs to its day type, a
      cardio day fills exactly the cardio columns and any other day exactly the
      strength columns, and the filled values respect the form's bounds. */
  predicate WellFormedWorkout(w: Workout)
  {
    && w.dayName in WORKOUT_PLAN
    && w.exercise in WORKOUT_PLAN[w.dayName]
    && if w.dayName in CARDIO_DAYS then
         && w.sets.None? && w.reps.None? && w.weight.None?
         && w.duration.Some? && w.duration.value >= 1
         && w.intensity.Some? && w.intensity.value in INTENSITY_LEVELS
       else
         && w.sets.Some? && w.sets.value >= 1
         && w.reps.Some? && w.reps.value >= 1
         && w.weight.Some? && w.weight.value >= 0.0
         && w.duration.None? && w.intensity.None?
  }

  /** The form values a well-formed row holds. */
  function EffortOf(w: Workout): Effort
    requires WellFormedWorkout(w)
  {
    if w.dayName in CARDIO_DAYS then Cardio(w.duration.value, w.intensity.value)
    else Strength(w.sets.value, w.reps.value, w.weight.value)
  }

  /** The row the "Save Workout" button inserts: the day type decides which
      column group holds the form values and which is NULL. */
  function NewWorkout(id: RowId, userId: UserId, today: Date, day: string, exercise: string, effort: Effort): (w: Workout)
    requires WorkoutFormOk(day, exercise, effort)
    ensures WellFormedWorkout(w)
    ensures w.id == id && w.userId == userId && w.date == today
    ensures w.dayName == day && w.exercise == exercise
    ensures (w.sets.Some? && w.reps.Some? && w.weight.Some?) <==> day !in CARDIO_DAYS
    ensures (w.duration.Some? && w.intensity.Some?) <==> day in CARDIO_DAYS
    ensures EffortOf(w) == effort
  {
    if day in CARDIO_DAYS then
      Workout(id, userId, today, day, exercise, None, None, None, Some(effort.duration), Some(effort.intensity))
    else
      Workout(id, userId, today, day, exercise, Some(effort.sets), Some(effort.reps), Some(effort.weight), None, None)
  }

  /** What the meal form can submit: a listed meal type and macros of at least 0 g. */
  predicate MealOk(m: Meal)
  {
    m.mealType in MEAL_TYPES && m.protein >= 0 && m.carbs >= 0 && m.fat >= 0
  }

  /** What the measurement form can submit: every value at least 0.0. */
  predicate MeasurementOk(m: Measurement)
  {
    m.weight >= 0.0 && m.chest >= 0.0 && m.waist >= 0.0 && m.hips >= 0.0
  }
}
