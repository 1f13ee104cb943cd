/** The application's state: the five tables of workouts.db and the session
    of the browser tab, with the actions of the login page and of the log pages. */
module Tracker {
  import opened Dates
  import opened Records
  import opened Credentials
  import opened Queries

  /** `st.session_state.user` and `st.session_state.username`. */
  datatype Session = Session(user: Option<UserId>, username: Option<string>)

  /** The outcome of the login page's Submit button. */
  datatype AuthOutcome = AccountCreated | UsernameExists | LoggedIn | InvalidCredentials
  {
    /** The message the page shows for it; a login that succeeds shows none
        and reruns the script into the main app, every other outcome shows one. */
    function Notice(): (r: string)
      ensures r == "" <==> this == LoggedIn
    {
      match this
      case AccountCreated => "Account created! Please login."
      case UsernameExists => "Username already exists!"
      case LoggedIn => ""
      case InvalidCredentials => "Invalid credentials!"
    }
  }

  /** Ids count 1, 2, 3, ... and no name is stored twice. */
  ghost predicate UsersOk(users: seq<User>)
  {
    (forall i :: 0 <= i < |users| ==> users[i].id == i + 1) && UniqueNames(users)
  }

  /** Ids count 1, 2, 3, ...; each row belongs to one of the `userCount` users and obeys the plan. */
  ghost predicate WorkoutsOk(workouts: seq<Workout>, userCount: nat)
  {
    forall i :: 0 <= i < |workouts| ==>
      workouts[i].id == i + 1 && 1 <= workouts[i].userId <= userCount && WellFormedWorkout(workouts[i])
  }

  ghost predicate MealsOk(meals: seq<Meal>, userCount: nat)
  {
    forall i :: 0 <= i < |meals| ==>
      meals[i].id == i + 1 && 1 <= meals[i].userId <= userCount && MealOk(meals[i])
  }

  ghost predicate MeasurementsOk(measurements: seq<Measurement>, userCount: nat)
  {
    forall i :: 0 <= i < |measurements| ==>
      measurements[i].id == i + 1 && 1 <= measurements[i].userId <= userCount && MeasurementOk(measurements[i])
  }

  ghost predicate PhotosOk(photos: seq<Photo>, userCount: nat)
  {
    forall i :: 0 <= i < |photos| ==> photos[i].id == i + 1 && 1 <= photos[i].userId <= userCount
  }

  /** Logged out, or logged in as an existing user under that user's name. */
  ghost predicate SessionOk(session: Session, users: seq<User>)
  {
    && (session.user.None? ==> session.username.None?)
    && (session.user.Some? ==>
          1 <= session.user.value <= |users| && session.username == Some(users[session.user.value - 1].username))
  }

  class Tracker {
    /** `hash_password`: SHA-256 of the UTF-8 text, as hex; not modelled, only named. */
    const hash: string -> string

    var users: seq<User>
    var workouts: seq<Workout>
    var meals: seq<Meal>
    var measurements: seq<Measurement>
    var photos: seq<Photo>
    var session: Session

    /** Row ids count 1, 2, 3, ... in every table; user names are unique; every
        log row belongs to an existing user and holds what its form allows; a
        logged-in session names an existing user under that user's name. */
    ghost predicate Valid()
      reads this
    {
      && UsersOk(users)
      && WorkoutsOk(workouts, |users|)
      && MealsOk(meals, |users|)
      && MeasurementsOk(measurements, |users|)
      && PhotosOk(photos, |users|)
      && SessionOk(session, users)
    }

    /** A fresh database file and a fresh session. */
    constructor (hash: string -> string)
      ensures Valid() && this.hash == hash
      ensures users == [] && workouts == [] && meals == [] && measurements == [] && photos == []
      ensures session == Session(None, None)
    {
      this.hash := hash;
      users, workouts, meals, measurements, photos := [], [], [], [], [];
      session := Session(None, None);
    }

    /** Register: insert the name and the password's hash; the UNIQUE
        constraint on `username` rejects a name already taken. */
    method Register(name: string, password: string) returns (r: AuthOutcome)
      requires Valid()
      modifies this`users
      ensures Valid()
      ensures r == (if NameTaken(old(users), name) then UsernameExists else AccountCreated)
      ensures r == UsernameExists ==> users == old(users)
      ensures r == AccountCreated ==> users == Registered(old(users), name, hash(password))
    {
      var hashed := hash(password);
      if NameTaken(users, name) {
        r := UsernameExists;
      } else {
        users := Registered(users, name, hashed);
        r := AccountCreated;
      }
    }

    /** Login: look the name up and compare the stored hash with the hash of the
        supplied password. An unknown name and a wrong password fail alike and
        leave the session as it was. */
    method Login(name: string, password: string) returns (r: AuthOutcome)
      requires Valid()
      modifies this`session
      ensures Valid()
      ensures r == LoggedIn || r == InvalidCredentials
      ensures r == LoggedIn <==> CredentialsMatch(users, name, hash(password))
      ensures r == LoggedIn ==> session == Session(Authenticate(users, name, hash(password)), Some(name))
      ensures r == LoggedIn ==> exists i :: 0 <= i < |users| && users[i].username == name && session.user == Some(users[i].id)
      ensures r == InvalidCredentials ==> session == old(session)
    {
      AuthenticateIff(users, name, hash(password));
      var row := FindUser(users, name);
      if row.Some? && row.value.passwordHash == hash(password) {
        session := Session(Some(row.value.id), Some(name));
        r := LoggedIn;
      } else {
        r := InvalidCredentials;
      }
    }

    /** Logout: forget the session's user. */
    method Logout()
      requires Valid()
      modifies this`session
      ensures Valid()
      ensures session == Session(None, None)
    {
      session := Session(None, None);
    }

    /** Save Workout: append one row, owned by the session's user and dated today. */
    method LogWorkout(today: Date, day: string, exercise: string, effort: Effort)
      requires Valid() && session.user.Some?
      requires WorkoutFormOk(day, exercise, effort)
      modifies this`workouts
      ensures Valid()
      ensures workouts == old(workouts) + [NewWorkout(|old(workouts)| + 1, session.user.value, today, day, exercise, effort)]
      ensures forall u :: UserWorkouts(workouts, u)
                == UserWorkouts(old(workouts), u) + if u == session.user.value then [workouts[|workouts| - 1]] else []
    {
      var w := NewWorkout(|workouts| + 1, session.user.value, today, day, exercise, effort);
      workouts := workouts + [w];
      UserWorkoutsAfterSave(old(workouts), workouts[|workouts| - 1]);
    }

    /** Save Meal: append one row, owned by the session's user and dated today. */
    method LogMeal(today: Date, mealType: string, mealTime: string, protein: int, carbs: int, fat: int, notes: string)
      requires Valid() && session.user.Some?
      requires mealType in MEAL_TYPES && protein >= 0 && carbs >= 0 && fat >= 0
      modifies this`meals
      ensures Valid()
      ensures meals == old(meals) + [Meal(|old(meals)| + 1, session.user.value, today, mealType, mealTime, protein, carbs, fat, notes)]
      ensures forall u :: UserMeals(meals, u)
                == UserMeals(old(meals), u) + if u == session.user.value then [meals[|meals| - 1]] else []
    {
      var m := Meal(|meals| + 1, session.user.value, today, mealType, mealTime, protein, carbs, fat, notes);
      meals := meals + [m];
      UserMealsAfterSave(old(meals), meals[|meals| - 1]);
    }

    /** Save Measurements: append one row, owned by the session's user and dated today. */
    method LogMeasurement(today: Date, weight: real, chest: real, waist: real, hips: real)
      requires Valid() && session.user.Some?
      requires weight >= 0.0 && chest >= 0.0 && waist >= 0.0 && hips >= 0.0
      modifies this`measurements
      ensures Valid()
      ensures measurements == old(measurements) + [Measurement(|old(measurements)| + 1, session.user.value, today, weight, chest, waist, hips)]
      ensures forall u :: UserMeasurements(measurements, u)
                == UserMeasurements(old(measurements), u) + if u == session.user.value then [measurements[|measurements| - 1]] else []
    {
      var m := Measurement(|measurements| + 1, session.user.value, today, weight, chest, waist, hips);
      measurements := measurements + [m];
      UserMeasurementsAfterSave(old(measurements), measurements[|measurements| - 1]);
    }

    /** Save Photo: append one row holding the uploaded bytes unchanged, owned
        by the session's user and dated today. */
    method LogPhoto(today: Date, image: Bytes, notes: string)
      requires Valid() && session.user.Some?
      modifies this`photos
      ensures Valid()
      ensures photos == old(photos) + [Photo(|old(photos)| + 1, session.user.value, today, image, notes)]
      ensures forall u :: UserPhotos(photos, u)
                == UserPhotos(old(photos), u) + if u == session.user.value then [photos[|photos| - 1]] else []
    {
      var p := Photo(|photos| + 1, session.user.value, today, image, notes);
      photos := photos + [p];
      UserPhotosAfterSave(old(photos), photos[|photos| - 1]);
    }
  }
}
