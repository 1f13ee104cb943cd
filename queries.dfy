/** The per-user reads of the dashboard and log pages, and the exercise
    picker of the workout history. */
module Queries {
  import opened Records
  import opened Seqs

  /** `SELECT * FROM workouts WHERE user_id = ?` */
  function UserWorkouts(workouts: seq<Workout>, userId: UserId): (r: seq<Workout>)
    ensures forall w :: w in r <==> w in workouts && w.userId == userId
  {
    Select(workouts, (w: Workout) => w.userId == userId)
  }

  /** `SELECT * FROM nutrition WHERE user_id = ?` */
  function UserMeals(meals: seq<Meal>, userId: UserId): (r: seq<Meal>)
    ensures forall m :: m in r <==> m in meals && m.userId == userId
  {
    Select(meals, (m: Meal) => m.userId == userId)
  }

  /** `SELECT date, weight, chest, waist, hips FROM body_measurements WHERE user_id = ?`.
      The query has no ORDER BY; like the other such queries it is modelled in
      rowid order, the order of SQLite's full table scan. */
  function UserMeasurements(measurements: seq<Measurement>, userId: UserId): (r: seq<Measurement>)
    ensures forall m :: m in r <==> m in measurements && m.userId == userId
  {
    Select(measurements, (m: Measurement) => m.userId == userId)
  }

  /** The rows of `progress_photos` with this `user_id`, before ordering. */
  function UserPhotos(photos: seq<Photo>, userId: UserId): (r: seq<Photo>)
    ensures forall p :: p in r <==> p in photos && p.userId == userId
  {
    Select(photos, (p: Photo) => p.userId == userId)
  }

  /** A row saved by a user shows up at the end of that user's rows, after
      everything the user saved before, and no other user's rows change. */
  lemma UserWorkoutsAfterSave(workouts: seq<Workout>, w: Workout)
    ensures forall u :: UserWorkouts(workouts + [w], u) == UserWorkouts(workouts, u) + if u == w.userId then [w] else []
  {
    forall u ensures UserWorkouts(workouts + [w], u) == UserWorkouts(workouts, u) + if u == w.userId then [w] else [] {
      SelectSnoc(workouts, w, (w: Workout) => w.userId == u);
    }
  }

  lemma UserMealsAfterSave(meals: seq<Meal>, m: Meal)
    ensures forall u :: UserMeals(meals + [m], u) == UserMeals(meals, u) + if u == m.userId then [m] else []
  {
    forall u ensures UserMeals(meals + [m], u) == UserMeals(meals, u) + if u == m.userId then [m] else [] {
      SelectSnoc(meals, m, (m: Meal) => m.userId == u);
    }
  }

  lemma UserMeasurementsAfterSave(measurements: seq<Measurement>, m: Measurement)
    ensures forall u :: UserMeasurements(measurements + [m], u) == UserMeasurements(measurements, u) + if u == m.userId then [m] else []
  {
    forall u ensures UserMeasurements(measurements + [m], u) == UserMeasurements(measurements, u) + if u == m.userId then [m] else [] {
      SelectSnoc(measurements, m, (m: Measurement) => m.userId == u);
    }
  }

  lemma UserPhotosAfterSave(photos: seq<Photo>, p: Photo)
    ensures forall u :: UserPhotos(photos + [p], u) == UserPhotos(photos, u) + if u == p.userId then [p] else []
  {
    forall u ensures UserPhotos(photos + [p], u) == UserPhotos(photos, u) + if u == p.userId then [p] else [] {
      SelectSnoc(photos, p, (p: Photo) => p.userId == u);
    }
  }

  /** Round trip of a run of saves by one user: the user's history afterwards is
      the history before followed by exactly the saved rows, fields intact. */
  lemma SavedWorkoutsReadBack(before: seq<Workout>, saved: seq<Workout>, userId: UserId)
    requires forall w :: w in saved ==> w.userId == userId
    ensures UserWorkouts(before + saved, userId) == UserWorkouts(before, userId) + saved
  {
    var mine := (w: Workout) => w.userId == userId;
    SelectAppend(before, saved, mine);
    SelectAll(saved, mine);
  }

  /** The `exercise` column of a frame. */
  function Exercises(workouts: seq<Workout>): seq<string>
  {
    seq(|workouts|, i requires 0 <= i < |workouts| => workouts[i].exercise)
  }

  /** `workout_df['exercise'].unique()`: each exercise of the frame once, in
      the order in which it first appears. */
  function ExerciseList(workouts: seq<Workout>): (r: seq<string>)
    ensures NoDuplicates(r)
    ensures forall e :: e in r <==> exists w :: w in workouts && w.exercise == e
  {
    var names := Exercises(workouts);
    assert forall w :: w in workouts ==> w.exercise in names by {
      forall w | w in workouts ensures w.exercise in names {
        var i :| 0 <= i < |workouts| && workouts[i] == w;
        assert names[i] == w.exercise;
      }
    }
    Distinct(names)
  }

  /** `workout_df[workout_df['exercise'] == selected_exercise]` */
  function ExerciseFilter(workouts: seq<Workout>, exercise: string): (r: seq<Workout>)
    ensures forall w :: w in r <==> w in workouts && w.exercise == exercise
    ensures forall w :: multiset(r)[w] == if w.exercise == exercise then multiset(workouts)[w] else 0
  {
    Select(workouts, (w: Workout) => w.exercise == exercise)
  }

  /** The filter keeps the frame's order: it distributes over concatenation. */
  lemma ExerciseFilterAppend(a: seq<Workout>, b: seq<Workout>, exercise: string)
    ensures ExerciseFilter(a + b, exercise) == ExerciseFilter(a, exercise) + ExerciseFilter(b, exercise)
  {
    SelectAppend(a, b, (w: Workout) => w.exercise == exercise);
  }

  /** The progression chart of an exercise picked from the user's list is drawn
      from that user's rows only, and from at least one of them. */
  lemma PickedExerciseChart(workouts: seq<Workout>, userId: UserId, exercise: string)
    requires exercise in ExerciseList(UserWorkouts(workouts, userId))
    ensures ExerciseFilter(UserWorkouts(workouts, userId), exercise) != []
    ensures forall w :: w in ExerciseFilter(UserWorkouts(workouts, userId), exercise)
                        ==> w in workouts && w.userId == userId && w.exercise == exercise
  {
    var mine := UserWorkouts(workouts, userId);
    var w :| w in mine && w.exercise == exercise;
    assert w in ExerciseFilter(mine, exercise);
  }
}
