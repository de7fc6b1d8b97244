/** The command engine of the Telegram update loop, taken out of the
    transport: one text line and the current tables give the new tables and
    the reply the bot sends (none for a blank line). Clock readings and the
    outcomes the program cannot see in advance (a bcrypt failure, the
    database refusing an insert) arrive in an Env. */
module Commands {
  import opened Wrappers
  import opened Text
  import opened Auth
  import opened Models

  /** What the outside world contributes to one message: the Unix time of
      handling, whether hashing succeeds, and whether the database accepts an
      insert that breaks none of the schema's own constraints. */
  datatype Env = Env(now: int, hashOk: bool, storeOk: bool)

  /** The cases of the dispatch switch; Unknown is its default branch. */
  datatype Command =
    | Start | Signup | Login | ListExercises | CreateWorkout | AddExercise
    | MyWorkouts | Stats | Logout | Unknown

  /** The commands whose handler may insert a row. */
  predicate IsUpdate(c: Command) {
    c.Signup? || c.CreateWorkout? || c.AddExercise?
  }

  /** The case label of each branch of the switch (the default has none). */
  function Keyword(c: Command): string {
    match c
    case Start => "/start"
    case Signup => "/signup"
    case Login => "/login"
    case ListExercises => "/exercises"
    case CreateWorkout => "/createworkout"
    case AddExercise => "/addexercise"
    case MyWorkouts => "/myworkouts"
    case Stats => "/stats"
    case Logout => "/logout"
    case Unknown => ""
  }

  /** The switch on the first field: exact, case-sensitive matches; a word
      that is no case label falls to the default branch. */
  function CommandOf(word: string): (c: Command)
    ensures !c.Unknown? ==> Keyword(c) == word
  {
    if word == "/start" then Start
    else if word == "/signup" then Signup
    else if word == "/login" then Login
    else if word == "/exercises" then ListExercises
    else if word == "/createworkout" then CreateWorkout
    else if word == "/addexercise" then AddExercise
    else if word == "/myworkouts" then MyWorkouts
    else if word == "/stats" then Stats
    else if word == "/logout" then Logout
    else Unknown
  }

  /** Every case label selects its own branch, so the default branch is taken
      exactly for words that are no case label. */
  lemma CommandOfKeyword(c: Command)
    ensures !c.Unknown? ==> CommandOf(Keyword(c)) == c
  {
  }

  // ---------- reply texts ----------

  const HelpText: string :=
    "\U{1F3CB}\U{FE0F} Workout Tracker Bot\n\nКоманди:\n/signup username password\n/login username password\n"
    + "/exercises\n/createworkout title\n/addexercise workout_id exercise_id sets reps weight\n"
    + "/myworkouts\n/stats\n/logout"

  /** The usage reply of each command that checks its argument count. */
  function UsageOf(c: Command): string {
    match c
    case Signup => "Usage: /signup username password"
    case Login => "Usage: /login username password"
    case CreateWorkout => "Usage: /createworkout title"
    case AddExercise => "Usage: /addexercise workout_id exercise_id sets reps weight"
    case _ => ""
  }

  /** The least number of fields (command included) each command needs. */
  function MinFields(c: Command): nat {
    match c
    case Signup => 3
    case Login => 3
    case CreateWorkout => 2
    case AddExercise => 6
    case _ => 1
  }

  const HashFailed: string := "Error hashing password"
  const SignupFailed: string := "Error creating user (maybe exists)"
  const UserNotFound: string := "User not found"
  const WrongPassword: string := "Wrong password"
  const NoExercises: string := "No exercises found"
  const AddFailed: string := "Error adding exercise to workout"
  const Added: string := "Exercise added \U{2705}"
  const NoWorkouts: string := "No workouts yet"
  const LogoutText: string := "\U{1F6D1} Logout: simply discard your token client-side. (Bot does not store sessions)"
  const UnknownText: string := "Unknown command. Send /start to see commands."

  function Registered(token: string): string {
    "\U{2705} Registered. Token: " + token + "\n(You can store token client-side if needed)"
  }

  function LoggedIn(token: string): string {
    "\U{2705} Logged in. Token:\n" + token + "\n(Keep it private)"
  }

  function Created(title: string, id: nat): string {
    "Workout '" + title + "' created (id=" + Itoa(id) + ")"
  }

  // ---------- parsing ----------

  /** TrimSpace, ignore an empty result, otherwise split into fields: nothing
      comes out exactly for a blank line, and the fields are those of the line. */
  function Parse(line: string): (args: Option<seq<string>>)
    ensures args.None? <==> Blank(line)
    ensures args.Some? ==> args.value == Fields(line) && |args.value| >= 1
  {
    var txt := TrimSpace(line);
    if txt == "" then None
    else
      FieldsTrim(line);
      Some(Fields(txt))
  }

  // ---------- /signup ----------

  /** /signup username password: only the user table can change, and only by
      the one row holding the new name and the hash of the password, which
      happens exactly when there are enough arguments, hashing works and the
      store accepts the row (free name within the column size). */
  function SignupStep(db: Db, args: seq<string>, env: Env): (r: (Db, string))
    requires |args| >= 1
    ensures r.0.exercises == db.exercises && r.0.workouts == db.workouts && r.0.items == db.items
    ensures r.0 != db <==> |args| >= 3 && env.hashOk && env.storeOk && UserInsertAllowed(db, args[1])
    ensures r.0 != db ==> r.0 == InsertUser(db, args[1], Hash(args[2]))
    ensures r.0 != db ==> r.1 == Registered(CreateToken(db.nextUserId, env.now))
    ensures |args| >= 3 && !env.hashOk ==> r == (db, HashFailed)
    ensures |args| >= 3 && env.hashOk && !(env.storeOk && UserInsertAllowed(db, args[1]))
            ==> r == (db, SignupFailed)
  {
    if |args| < 3 then (db, UsageOf(Signup))
    else if !env.hashOk then (db, HashFailed)
    else
      var username, hash := args[1], Hash(args[2]);
      if env.storeOk && UserInsertAllowed(db, username) then
        assert |InsertUser(db, username, hash).users| > |db.users|;
        (InsertUser(db, username, hash), Registered(CreateToken(db.nextUserId, env.now)))
      else (db, SignupFailed)
  }

  // ---------- /login ----------

  /** /login username password: "User not found" exactly when no user has the
      name, "Wrong password" exactly when one has it but the hash rejects the
      password. */
  function LoginReply(db: Db, args: seq<string>, now: int): (r: string)
    requires |args| >= 1
    ensures r == UserNotFound <==> |args| >= 3 && FindUser(db.users, args[1]).None?
    ensures r == WrongPassword <==>
              |args| >= 3 && FindUser(db.users, args[1]).Some?
              && !Check(FindUser(db.users, args[1]).value.password, args[2])
    ensures |args| >= 3 && FindUser(db.users, args[1]).Some?
            && Check(FindUser(db.users, args[1]).value.password, args[2])
            ==> r == LoggedIn(CreateToken(FindUser(db.users, args[1]).value.id, now))
  {
    if |args| < 3 then UsageOf(Login)
    else
      match FindUser(db.users, args[1])
      case None => UserNotFound
      case Some(user) =>
        if !Check(user.password, args[2]) then WrongPassword
        else
          var r := LoggedIn(CreateToken(user.id, now));
          assert r[0] != UserNotFound[0] && r[0] != WrongPassword[0];
          r
  }

  // ---------- /exercises ----------

  /** One listing line: the id, the name, the description and the category. */
  function ExerciseLine(e: Exercise): (r: string)
    ensures |Itoa(e.id)| + 2 <= |r| && r[..|Itoa(e.id)| + 2] == Itoa(e.id) + ") "
    ensures r[|r| - 1] == '\n'
  {
    Itoa(e.id) + ") " + e.name + " \U{2014} " + e.description + " (" + e.category + ")\n"
  }

  /** The listing lines of the exercises, in table order. */
  function ExerciseLines(exs: seq<Exercise>): string
    decreases |exs|
  {
    if exs == [] then "" else ExerciseLines(exs[..|exs| - 1]) + ExerciseLine(exs[|exs| - 1])
  }

  const ExercisesHeader: string := "\U{1F4AA} Exercises:\n"

  /** The /exercises reply: "No exercises found" exactly for an empty catalog. */
  function ExercisesReply(exs: seq<Exercise>): (r: string)
    ensures r == NoExercises <==> exs == []
    ensures exs != [] ==> |ExercisesHeader| <= |r| && r[..|ExercisesHeader|] == ExercisesHeader
  {
    if exs == [] then NoExercises
    else
      var r := ExercisesHeader + ExerciseLines(exs);
      assert r[0] != NoExercises[0];
      r
  }

  // ---------- /createworkout ----------

  /** The title: every field after the command, joined by single spaces. */
  function TitleOf(args: seq<string>): string
    requires |args| >= 1
  {
    Join(args[1..], " ")
  }

  /** /createworkout title: only the workout table can change, by the one row
      with that title and the current time as date, exactly when a title is
      given and the store accepts the row. The insert error is not checked, so
      a refused row is still reported as created, with id 0. */
  function CreateWorkoutStep(db: Db, args: seq<string>, env: Env): (r: (Db, string))
    requires |args| >= 1
    ensures r.0.users == db.users && r.0.exercises == db.exercises && r.0.items == db.items
    ensures r.0 != db <==> |args| >= 2 && env.storeOk && |TitleOf(args)| <= MaxTitleLength
    ensures r.0 != db ==> r.0 == InsertWorkout(db, TitleOf(args), env.now)
  {
    if |args| < 2 then (db, UsageOf(CreateWorkout))
    else
      var title := TitleOf(args);
      if env.storeOk && |title| <= MaxTitleLength then
        assert |InsertWorkout(db, title, env.now).workouts| > |db.workouts|;
        (InsertWorkout(db, title, env.now), Created(title, db.nextWorkoutId))
      else (db, Created(title, 0))
  }

  // ---------- /addexercise ----------

  /** The row /addexercise asks for: ids through Atoi and uint(...), sets and
      reps through Atoi (text that is not a number gives 0), the weight as sent. */
  function ItemOf(args: seq<string>): (item: WorkoutExercise)
    requires |args| >= 6
    ensures ParseInt(args[3]).None? ==> item.sets == 0
    ensures ParseInt(args[4]).None? ==> item.reps == 0
    ensures ParseInt(args[1]).None? ==> item.workoutId == 0
    ensures ParseInt(args[2]).None? ==> item.exerciseId == 0
    ensures ParseInt(args[3]).Some? && MinInt64 <= ParseInt(args[3]).value <= MaxInt64
            ==> item.sets == ParseInt(args[3]).value
    ensures ParseInt(args[4]).Some? && MinInt64 <= ParseInt(args[4]).value <= MaxInt64
            ==> item.reps == ParseInt(args[4]).value
    ensures ParseInt(args[1]).Some? && MinInt64 <= ParseInt(args[1]).value <= MaxInt64
            ==> item.workoutId == ToUint(ParseInt(args[1]).value)
    ensures ParseInt(args[2]).Some? && MinInt64 <= ParseInt(args[2]).value <= MaxInt64
            ==> item.exerciseId == ToUint(ParseInt(args[2]).value)
    ensures item.weight == args[5]
  {
    WorkoutExercise(0, ToUint(Atoi(args[1])), ToUint(Atoi(args[2])), Atoi(args[3]), Atoi(args[4]), args[5])
  }

  /** /addexercise workout_id exercise_id sets reps weight: only the entry table
      can change, by the one parsed row, exactly when all five arguments are
      there and the store accepts the row. */
  function AddExerciseStep(db: Db, args: seq<string>, env: Env): (r: (Db, string))
    requires |args| >= 1
    ensures r.0.users == db.users && r.0.exercises == db.exercises && r.0.workouts == db.workouts
    ensures r.0 != db <==> |args| >= 6 && env.storeOk
    ensures r.0 != db ==> r.0 == InsertItem(db, ItemOf(args))
    ensures |args| >= 6 ==> r.1 == (if env.storeOk then Added else AddFailed)
  {
    if |args| < 6 then (db, UsageOf(AddExercise))
    else if env.storeOk then
      assert |InsertItem(db, ItemOf(args)).items| > |db.items|;
      (InsertItem(db, ItemOf(args)), Added)
    else (db, AddFailed)
  }

  // ---------- /myworkouts ----------

  /** The name printed for an entry: a missing exercise leaves the zero-valued
      Exercise in place, whose name is empty. */
  function ExerciseName(exs: seq<Exercise>, id: nat): (r: string)
    ensures (exists e :: e in exs && e.id == id) ==> exists e :: e in exs && e.id == id && e.name == r
    ensures (forall e :: e in exs ==> e.id != id) ==> r == []
  {
    match FindExercise(exs, id)
    case Some(e) => e.name
    case None => ""
  }

  /** The label line of a workout: the tag, the id, then the title. */
  function WorkoutHeader(w: Workout): (r: string)
    ensures |r| == |Itoa(w.id)| + |w.title| + 5
    ensures r[..2] == "\U{1F3F7} " && r[2..2 + |Itoa(w.id)|] == Itoa(w.id)
    ensures r[|r| - 1 - |w.title|..|r| - 1] == w.title && r[|r| - 1] == '\n'
  {
    "\U{1F3F7} " + Itoa(w.id) + ": " + w.title + "\n"
  }

  /** One entry line: the exercise name, the sets, the reps and the weight. */
  function ItemLine(it: WorkoutExercise, exs: seq<Exercise>): (r: string)
    ensures |r| >= 5 + |ExerciseName(exs, it.exerciseId)| && r[..5] == "   - "
    ensures r[5..5 + |ExerciseName(exs, it.exerciseId)|] == ExerciseName(exs, it.exerciseId)
    ensures r[|r| - 1] == '\n'
  {
    var name := ExerciseName(exs, it.exerciseId);
    var rest := ": " + Itoa(it.sets) + " sets x " + Itoa(it.reps) + " reps, weight " + it.weight + "\n";
    assert ("   - " + name + rest)[5..5 + |name|] == name;
    "   - " + name + rest
  }

  function ItemLines(its: seq<WorkoutExercise>, exs: seq<Exercise>): string
    decreases |its|
  {
    if its == [] then "" else ItemLines(its[..|its| - 1], exs) + ItemLine(its[|its| - 1], exs)
  }

  /** One workout's part of the listing: its header, the lines of its entries
      in table order, and an empty line. */
  function WorkoutBlock(w: Workout, items: seq<WorkoutExercise>, exs: seq<Exercise>): string {
    WorkoutHeader(w) + ItemLines(ItemsOf(items, w.id), exs) + "\n"
  }

  /** The listing of the workouts: their blocks, in table order. */
  function WorkoutBlocks(ws: seq<Workout>, items: seq<WorkoutExercise>, exs: seq<Exercise>): string
    decreases |ws|
  {
    if ws == [] then "" else WorkoutBlocks(ws[..|ws| - 1], items, exs) + WorkoutBlock(ws[|ws| - 1], items, exs)
  }

  /** A listing of at least one workout starts with the first workout's label. */
  lemma {:induction false} WorkoutBlocksStart(ws: seq<Workout>, items: seq<WorkoutExercise>, exs: seq<Exercise>)
    requires ws != []
    ensures var r, h := WorkoutBlocks(ws, items, exs), WorkoutHeader(ws[0]);
      |h| <= |r| && r[..|h|] == h
    decreases |ws|
  {
    var init, last := WorkoutBlocks(ws[..|ws| - 1], items, exs), WorkoutBlock(ws[|ws| - 1], items, exs);
    var h := WorkoutHeader(ws[0]);
    assert WorkoutBlocks(ws, items, exs) == init + last;
    if |ws| == 1 {
      assert init == "";
      var body := ItemLines(ItemsOf(items, ws[0].id), exs) + "\n";
      assert last == h + body;
      PrefixOfAppend(h, body, |h|);
      assert init + last == h + body;
    } else {
      WorkoutBlocksStart(ws[..|ws| - 1], items, exs);
      assert ws[..|ws| - 1][0] == ws[0];
      PrefixOfAppend(init, last, |h|);
    }
  }

  /** The /myworkouts reply: "No workouts yet" exactly when there are none. */
  function MyWorkoutsReply(db: Db): (r: string)
    ensures r == NoWorkouts <==> db.workouts == []
  {
    if db.workouts == [] then NoWorkouts
    else
      var r := WorkoutBlocks(db.workouts, db.items, db.exercises);
      WorkoutBlocksStart(db.workouts, db.items, db.exercises);
      var h := WorkoutHeader(db.workouts[0]);
      assert r[0] == r[..|h|][0] == h[..2][0] == '\U{1F3F7}';
      r
  }

  // ---------- /stats ----------

  const StatsHead: string := "\U{1F4CA} Stats:\nTotal workouts: "
  const StatsMiddle: string := "\nTotal workout-exercises: "

  function StatsReply(workoutCount: nat, itemCount: nat): (r: string)
    ensures |StatsHead| <= |r| && r[..|StatsHead|] == StatsHead && r[|r| - 1] == '\n'
  {
    StatsHead + Itoa(workoutCount) + StatsMiddle + Itoa(itemCount) + "\n"
  }

  // ---------- dispatch ----------

  /** One parsed command against the tables. No command touches the exercise
      catalog, and only /signup, /createworkout and /addexercise can change
      anything; a command with too few fields answers with its usage text and
      changes nothing. */
  function Dispatch(db: Db, args: seq<string>, env: Env): (r: (Db, string))
    requires |args| >= 1
    ensures r.0.exercises == db.exercises
    ensures !IsUpdate(CommandOf(args[0])) ==> r.0 == db
    ensures |args| < MinFields(CommandOf(args[0])) ==> r == (db, UsageOf(CommandOf(args[0])))
    ensures CommandOf(args[0]).Start? ==> r == (db, HelpText)
    ensures CommandOf(args[0]).Logout? ==> r == (db, LogoutText)
    ensures CommandOf(args[0]).Unknown? ==> r == (db, UnknownText)
  {
    match CommandOf(args[0])
    case Start => (db, HelpText)
    case Signup => SignupStep(db, args, env)
    case Login => (db, LoginReply(db, args, env.now))
    case ListExercises => (db, ExercisesReply(db.exercises))
    case CreateWorkout => CreateWorkoutStep(db, args, env)
    case AddExercise => AddExerciseStep(db, args, env)
    case MyWorkouts => (db, MyWorkoutsReply(db))
    case Stats => (db, StatsReply(|db.workouts|, |db.items|))
    case Logout => (db, LogoutText)
    case Unknown => (db, UnknownText)
  }

  /** Each case label selects its own branch of the switch. */
  lemma DispatchSignup(db: Db, args: seq<string>, env: Env)
    requires |args| >= 1 && args[0] == "/signup"
    ensures Dispatch(db, args, env) == SignupStep(db, args, env)
  {
    CommandOfKeyword(Signup);
  }

  lemma DispatchLogin(db: Db, args: seq<string>, env: Env)
    requires |args| >= 1 && args[0] == "/login"
    ensures Dispatch(db, args, env) == (db, LoginReply(db, args, env.now))
  {
    CommandOfKeyword(Login);
  }

  lemma DispatchCreateWorkout(db: Db, args: seq<string>, env: Env)
    requires |args| >= 1 && args[0] == "/createworkout"
    ensures Dispatch(db, args, env) == CreateWorkoutStep(db, args, env)
  {
    CommandOfKeyword(CreateWorkout);
  }

  lemma DispatchAddExercise(db: Db, args: seq<string>, env: Env)
    requires |args| >= 1 && args[0] == "/addexercise"
    ensures Dispatch(db, args, env) == AddExerciseStep(db, args, env)
  {
    CommandOfKeyword(AddExercise);
  }

  lemma DispatchStats(db: Db, args: seq<string>, env: Env)
    requires |args| >= 1 && args[0] == "/stats"
    ensures Dispatch(db, args, env) == (db, StatsReply(|db.workouts|, |db.items|))
  {
    CommandOfKeyword(Stats);
  }

  /** One pass of the update loop: a blank line is ignored (no reply, no
      change); every other line gets exactly one reply. */
  function Step(db: Db, line: string, env: Env): (r: (Db, Option<string>))
    ensures r.1.None? <==> Blank(line)
    ensures r.0.exercises == db.exercises
    ensures r.1.None? ==> r.0 == db
  {
    match Parse(line)
    case None => (db, None)
    case Some(args) =>
      var out := Dispatch(db, args, env);
      (out.0, Some(out.1))
  }

  /** One Telegram update that carries a message. */
  datatype Update = Update(text: string, env: Env)

  /** The update loop over a sequence of messages: the final tables and the
      replies sent, in order. */
  function Replay(db: Db, updates: seq<Update>): (r: (Db, seq<string>))
    ensures r.0.exercises == db.exercises && |r.1| <= |updates|
    decreases |updates|
  {
    if updates == [] then (db, [])
    else
      var before := Replay(db, updates[..|updates| - 1]);
      var u := updates[|updates| - 1];
      var after := Step(before.0, u.text, u.env);
      (after.0, before.1 + Sent(after.1))
  }

  /** What the loop sends for one update: the reply, if there is one. */
  function Sent(reply: Option<string>): seq<string> {
    if reply.Some? then [reply.value] else []
  }

  /** Replaying one more update is one more step after the replay so far. */
  lemma ReplayOneMore(db: Db, updates: seq<Update>, i: nat, before: (Db, seq<string>))
    requires i < |updates| && before == Replay(db, updates[..i])
    ensures var after := Step(before.0, updates[i].text, updates[i].env);
            Replay(db, updates[..i + 1]) == (after.0, before.1 + Sent(after.1))
  {
    assert updates[..i + 1][..i] == updates[..i];
  }
}
