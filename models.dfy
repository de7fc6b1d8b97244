/** The four tables of the workout tracker (User, Exercise, Workout and
    WorkoutExercise), the store that holds them, the queries and inserts the
    command handlers issue, and the one-time exercise catalog seeding. */
module Models {
  import opened Wrappers

  /** A registered user; password holds the hash, never the plaintext. */
  datatype User = User(id: nat, username: string, password: string)

  datatype Exercise = Exercise(id: nat, name: string, description: string, category: string)

  /** A workout session; userId stays unset on the bot path, date is the Unix
      time of creation. */
  datatype Workout = Workout(id: nat, userId: Option<nat>, title: string, date: Option<int>, comment: string)

  /** One logged block of an exercise inside a workout. The weight is kept as
      the text the user sent. */
  datatype WorkoutExercise = WorkoutExercise(
    id: nat, workoutId: nat, exerciseId: nat, sets: int, reps: int, weight: string)

  /** The four tables, each in insertion order, and the next value of each
      table's auto-increment id. */
  datatype Db = Db(
    users: seq<User>,
    exercises: seq<Exercise>,
    workouts: seq<Workout>,
    items: seq<WorkoutExercise>,
    nextUserId: nat,
    nextExerciseId: nat,
    nextWorkoutId: nat,
    nextItemId: nat)

  /** A freshly migrated database: no rows, every sequence starting at 1. */
  const EmptyDb: Db := Db([], [], [], [], 1, 1, 1, 1)

  /** The column sizes declared on the models: Username size:100, Title size:150. */
  const MaxUsernameLength: nat := 100
  const MaxTitleLength: nat := 150

  /** Ids are positive, below the table's next id and increasing in table order. */
  predicate IdsIncreasing<T>(rows: seq<T>, id: T -> nat, next: nat) {
    && 0 < next
    && (forall i :: 0 <= i < |rows| ==> 0 < id(rows[i]) < next)
    && (forall i, j :: 0 <= i < j < |rows| ==> id(rows[i]) < id(rows[j]))
  }

  /** The uniqueIndex on User.Username. */
  predicate UniqueUsernames(users: seq<User>) {
    forall i, j :: 0 <= i < j < |users| ==> users[i].username != users[j].username
  }

  /** What the schema guarantees of every database state. */
  predicate Valid(db: Db) {
    && IdsIncreasing(db.users, (u: User) => u.id, db.nextUserId)
    && IdsIncreasing(db.exercises, (e: Exercise) => e.id, db.nextExerciseId)
    && IdsIncreasing(db.workouts, (w: Workout) => w.id, db.nextWorkoutId)
    && IdsIncreasing(db.items, (it: WorkoutExercise) => it.id, db.nextItemId)
    && UniqueUsernames(db.users)
    && (forall i :: 0 <= i < |db.users| ==> |db.users[i].username| <= MaxUsernameLength)
    && (forall i :: 0 <= i < |db.workouts| ==> |db.workouts[i].title| <= MaxTitleLength)
  }

  lemma EmptyDbValid()
    ensures Valid(EmptyDb)
  {
  }

  // ---------- queries ----------

  /** db.Where("username = ?", name).First(&user): the user with that name, if any. */
  function FindUser(users: seq<User>, name: string): (r: Option<User>)
    ensures r.Some? ==> r.value in users && r.value.username == name
    ensures r.None? ==> forall i :: 0 <= i < |users| ==> users[i].username != name
    decreases |users|
  {
    if users == [] then None
    else if users[0].username == name then Some(users[0])
    else FindUser(users[1..], name)
  }

  /** db.First(&ex, id): the exercise with that id, if any. */
  function FindExercise(exercises: seq<Exercise>, id: nat): (r: Option<Exercise>)
    ensures r.Some? ==> r.value in exercises && r.value.id == id
    ensures r.None? ==> forall i :: 0 <= i < |exercises| ==> exercises[i].id != id
    decreases |exercises|
  {
    if exercises == [] then None
    else if exercises[0].id == id then Some(exercises[0])
    else FindExercise(exercises[1..], id)
  }

  /** db.Where("workout_id = ?", workoutId).Find(&items): the entries of one
      workout, in table order. */
  function ItemsOf(items: seq<WorkoutExercise>, workoutId: nat): (r: seq<WorkoutExercise>)
    ensures |r| <= |items|
    ensures forall i :: 0 <= i < |r| ==> r[i] in items && r[i].workoutId == workoutId
    ensures forall i :: 0 <= i < |items| && items[i].workoutId == workoutId ==> items[i] in r
    decreases |items|
  {
    if items == [] then []
    else
      var rest := ItemsOf(items[1..], workoutId);
      if items[0].workoutId == workoutId then [items[0]] + rest else rest
  }

  // ---------- inserts (db.Create) ----------

  /** db.Create(&user): one row appended under the next id; the rows already
      there and every other table stay as they were. */
  function InsertUser(db: Db, username: string, passwordHash: string): (r: Db)
    ensures |r.users| == |db.users| + 1 && r.users[..|db.users|] == db.users
    ensures r.users[|db.users|] == User(db.nextUserId, username, passwordHash)
    ensures r.nextUserId > db.nextUserId
    ensures r.exercises == db.exercises && r.workouts == db.workouts && r.items == db.items
    ensures r.nextExerciseId == db.nextExerciseId && r.nextWorkoutId == db.nextWorkoutId
    ensures r.nextItemId == db.nextItemId
  {
    db.(users := db.users + [User(db.nextUserId, username, passwordHash)],
        nextUserId := db.nextUserId + 1)
  }

  /** db.Create(&e) for an exercise. */
  function InsertExercise(db: Db, e: Exercise): (r: Db)
    ensures |r.exercises| == |db.exercises| + 1 && r.exercises[..|db.exercises|] == db.exercises
    ensures r.exercises[|db.exercises|] == e.(id := db.nextExerciseId)
    ensures r.nextExerciseId > db.nextExerciseId
    ensures r.users == db.users && r.workouts == db.workouts && r.items == db.items
    ensures r.nextUserId == db.nextUserId && r.nextWorkoutId == db.nextWorkoutId
    ensures r.nextItemId == db.nextItemId
  {
    db.(exercises := db.exercises + [e.(id := db.nextExerciseId)],
        nextExerciseId := db.nextExerciseId + 1)
  }

  /** db.Create(&w) for a workout without owner, dated now. */
  function InsertWorkout(db: Db, title: string, now: int): (r: Db)
    ensures |r.workouts| == |db.workouts| + 1 && r.workouts[..|db.workouts|] == db.workouts
    ensures r.workouts[|db.workouts|] == Workout(db.nextWorkoutId, None, title, Some(now), "")
    ensures r.nextWorkoutId > db.nextWorkoutId
    ensures r.users == db.users && r.exercises == db.exercises && r.items == db.items
    ensures r.nextUserId == db.nextUserId && r.nextExerciseId == db.nextExerciseId
    ensures r.nextItemId == db.nextItemId
  {
    db.(workouts := db.workouts + [Workout(db.nextWorkoutId, None, title, Some(now), "")],
        nextWorkoutId := db.nextWorkoutId + 1)
  }

  /** db.Create(&item) for a workout entry. */
  function InsertItem(db: Db, item: WorkoutExercise): (r: Db)
    ensures |r.items| == |db.items| + 1 && r.items[..|db.items|] == db.items
    ensures r.items[|db.items|] == item.(id := db.nextItemId)
    ensures r.nextItemId > db.nextItemId
    ensures r.users == db.users && r.exercises == db.exercises && r.workouts == db.workouts
    ensures r.nextUserId == db.nextUserId && r.nextExerciseId == db.nextExerciseId
    ensures r.nextWorkoutId == db.nextWorkoutId
  {
    db.(items := db.items + [item.(id := db.nextItemId)],
        nextItemId := db.nextItemId + 1)
  }

  /** The unique index and the column size decide whether a user row is accepted. */
  predicate UserInsertAllowed(db: Db, username: string) {
    FindUser(db.users, username).None? && |username| <= MaxUsernameLength
  }

  lemma InsertUserValid(db: Db, username: string, passwordHash: string)
    requires Valid(db) && UserInsertAllowed(db, username)
    ensures Valid(InsertUser(db, username, passwordHash))
  {
    var r := InsertUser(db, username, passwordHash);
    assert forall i :: 0 <= i < |db.users| ==> r.users[i] == db.users[i];
  }

  lemma InsertExerciseValid(db: Db, e: Exercise)
    requires Valid(db)
    ensures Valid(InsertExercise(db, e))
  {
    var r := InsertExercise(db, e);
    assert forall i :: 0 <= i < |db.exercises| ==> r.exercises[i] == db.exercises[i];
  }

  lemma InsertWorkoutValid(db: Db, title: string, now: int)
    requires Valid(db) && |title| <= MaxTitleLength
    ensures Valid(InsertWorkout(db, title, now))
  {
    var r := InsertWorkout(db, title, now);
    assert forall i :: 0 <= i < |db.workouts| ==> r.workouts[i] == db.workouts[i];
  }

  lemma InsertItemValid(db: Db, item: WorkoutExercise)
    requires Valid(db)
    ensures Valid(InsertItem(db, item))
  {
    var r := InsertItem(db, item);
    assert forall i :: 0 <= i < |db.items| ==> r.items[i] == db.items[i];
  }

  // ---------- seedExercises ----------

  /** The five catalog rows, in insertion order (ids are assigned on insert). */
  const Catalog: seq<Exercise> := [
    Exercise(0, "Push-ups", "Bodyweight chest exercise", "strength"),
    Exercise(0, "Squats", "Compound leg exercise", "strength"),
    Exercise(0, "Plank", "Core stability", "flexibility"),
    Exercise(0, "Running - 5km", "Cardio 5 kilometers run", "cardio"),
    Exercise(0, "Burpees", "Full body high-intensity", "cardio")
  ]

  /** Inserting rows one after the other: the table grows by exactly those rows,
      with consecutive fresh ids, and nothing else changes. */
  function InsertAll(db: Db, es: seq<Exercise>): (r: Db)
    ensures r.users == db.users && r.workouts == db.workouts && r.items == db.items
    ensures r.nextUserId == db.nextUserId && r.nextWorkoutId == db.nextWorkoutId
    ensures r.nextItemId == db.nextItemId
    ensures r.nextExerciseId == db.nextExerciseId + |es|
    ensures |r.exercises| == |db.exercises| + |es|
    ensures r.exercises[..|db.exercises|] == db.exercises
    ensures forall i :: 0 <= i < |es| ==>
              r.exercises[|db.exercises| + i] == es[i].(id := db.nextExerciseId + i)
    decreases |es|
  {
    if es == [] then db
    else InsertExercise(InsertAll(db, es[..|es| - 1]), es[|es| - 1])
  }

  lemma {:induction false} InsertAllValid(db: Db, es: seq<Exercise>)
    requires Valid(db)
    ensures Valid(InsertAll(db, es))
    decreases |es|
  {
    if es != [] {
      InsertAllValid(db, es[..|es| - 1]);
      InsertExerciseValid(InsertAll(db, es[..|es| - 1]), es[|es| - 1]);
    }
  }

  /** seedExercises: insert the catalog only when the exercise table is empty. */
  function Seed(db: Db): (r: Db)
    ensures r.exercises != []
    ensures |db.exercises| != 0 ==> r == db
    ensures r.users == db.users && r.workouts == db.workouts && r.items == db.items
    ensures r.nextUserId == db.nextUserId && r.nextWorkoutId == db.nextWorkoutId
    ensures r.nextItemId == db.nextItemId
  {
    if |db.exercises| == 0 then InsertAll(db, Catalog) else db
  }

  /** Seeding an empty catalog yields exactly the five catalog rows, in order,
      with fresh ids; seeding a non-empty one changes nothing. Other tables are
      never touched. */
  lemma SeedContents(db: Db)
    ensures |db.exercises| == 0 ==>
              && |Seed(db).exercises| == |Catalog|
              && Seed(db).nextExerciseId == db.nextExerciseId + |Catalog|
              && forall i :: 0 <= i < |Catalog| ==>
                   Seed(db).exercises[i] == Catalog[i].(id := db.nextExerciseId + i)
    ensures |db.exercises| != 0 ==> Seed(db) == db
    ensures Seed(db).users == db.users && Seed(db).workouts == db.workouts
    ensures Seed(db).items == db.items
    ensures Seed(db).nextUserId == db.nextUserId && Seed(db).nextWorkoutId == db.nextWorkoutId
    ensures Seed(db).nextItemId == db.nextItemId
  {
    if |db.exercises| == 0 {
      var r := InsertAll(db, Catalog);
      forall i | 0 <= i < |Catalog|
        ensures r.exercises[i] == Catalog[i].(id := db.nextExerciseId + i)
      {
        assert r.exercises[|db.exercises| + i] == Catalog[i].(id := db.nextExerciseId + i);
      }
    }
  }

  /** Running the seeding twice is the same as running it once. */
  lemma SeedIdempotent(db: Db)
    ensures Seed(Seed(db)) == Seed(db)
  {
    SeedContents(db);
  }

  lemma SeedValid(db: Db)
    requires Valid(db)
    ensures Valid(Seed(db))
  {
    InsertAllValid(db, Catalog);
  }
}
