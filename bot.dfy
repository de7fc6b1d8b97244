/** The running bot: the database connection as a store object whose tables
    the handlers append to, the handlers that build replies in loops, and the
    update loop of main. Every method is proved against the functions of
    Commands and Models. */
module Bot {
  import opened Wrappers
  import opened Text
  import opened Auth
  import opened Models
  import opened Commands

  // Each listing is a left fold; these unfold one more element so that the
  // loops below never have to look inside a line.

  lemma AppendAssoc(a: string, b: string, c: string)
    ensures (a + b) + c == a + (b + c)
  {
  }

  lemma ExerciseLinesOneMore(exs: seq<Exercise>, i: nat)
    requires i < |exs|
    ensures ExerciseLines(exs[..i + 1]) == ExerciseLines(exs[..i]) + ExerciseLine(exs[i])
  {
    assert exs[..i + 1][..i] == exs[..i];
  }

  lemma ItemLinesOneMore(its: seq<WorkoutExercise>, j: nat, exs: seq<Exercise>)
    requires j < |its|
    ensures ItemLines(its[..j + 1], exs) == ItemLines(its[..j], exs) + ItemLine(its[j], exs)
  {
    assert its[..j + 1][..j] == its[..j];
  }

  lemma WorkoutBlocksOneMore(ws: seq<Workout>, i: nat, items: seq<WorkoutExercise>, exs: seq<Exercise>)
    requires i < |ws|
    ensures WorkoutBlocks(ws[..i + 1], items, exs) == WorkoutBlocks(ws[..i], items, exs) + WorkoutBlock(ws[i], items, exs)
  {
    assert ws[..i + 1][..i] == ws[..i];
  }

  lemma InsertAllOneMore(db: Db, es: seq<Exercise>, i: nat)
    requires i < |es|
    ensures InsertAll(db, es[..i + 1]) == InsertExercise(InsertAll(db, es[..i]), es[i])
  {
    assert es[..i + 1][..i] == es[..i];
  }

  /** The four tables behind the gorm handle, in insertion order, with the
      next value of each auto-increment id. */
  class Store {
    var users: seq<User>
    var exercises: seq<Exercise>
    var workouts: seq<Workout>
    var items: seq<WorkoutExercise>
    var nextUserId: nat
    var nextExerciseId: nat
    var nextWorkoutId: nat
    var nextItemId: nat

    /** The tables as a value. */
    function State(): Db
      reads this
    {
      Db(users, exercises, workouts, items, nextUserId, nextExerciseId, nextWorkoutId, nextItemId)
    }

    ghost predicate Valid()
      reads this
    {
      Models.Valid(State())
    }

    /** gorm.Open and AutoMigrate on a database that already holds db. */
    constructor Open(db: Db)
      requires Models.Valid(db)
      ensures Valid() && State() == db
    {
      users, exercises, workouts, items := db.users, db.exercises, db.workouts, db.items;
      nextUserId, nextExerciseId := db.nextUserId, db.nextExerciseId;
      nextWorkoutId, nextItemId := db.nextWorkoutId, db.nextItemId;
    }

    // ---------- db.Create ----------

    /** db.Create(&user): the store itself enforces the unique index and the
        column size; on failure the row's ID stays 0. */
    method CreateUser(username: string, passwordHash: string, storeOk: bool) returns (ok: bool, id: nat)
      requires Valid()
      modifies this
      ensures Valid()
      ensures ok <==> storeOk && UserInsertAllowed(old(State()), username)
      ensures ok ==> id == old(nextUserId) && State() == InsertUser(old(State()), username, passwordHash)
      ensures !ok ==> id == 0 && State() == old(State())
    {
      ok := storeOk && FindUser(users, username).None? && |username| <= MaxUsernameLength;
      id := 0;
      if ok {
        InsertUserValid(State(), username, passwordHash);
        id := nextUserId;
        users := users + [User(id, username, passwordHash)];
        nextUserId := nextUserId + 1;
      }
    }

    /** db.Create(&e) for a catalog row. */
    method CreateExercise(e: Exercise)
      requires Valid()
      modifies this
      ensures Valid() && State() == InsertExercise(old(State()), e)
    {
      InsertExerciseValid(State(), e);
      exercises := exercises + [e.(id := nextExerciseId)];
      nextExerciseId := nextExerciseId + 1;
    }

    /** db.Create(&w): a title longer than its column is refused, and the ID of
        a refused row stays 0. */
    method CreateWorkout(title: string, now: int, storeOk: bool) returns (id: nat)
      requires Valid()
      modifies this
      ensures Valid()
      ensures if storeOk && |title| <= MaxTitleLength
              then id == old(nextWorkoutId) && State() == InsertWorkout(old(State()), title, now)
              else id == 0 && State() == old(State())
    {
      id := 0;
      if storeOk && |title| <= MaxTitleLength {
        InsertWorkoutValid(State(), title, now);
        id := nextWorkoutId;
        workouts := workouts + [Workout(id, None, title, Some(now), "")];
        nextWorkoutId := nextWorkoutId + 1;
      }
    }

    /** db.Create(&item). */
    method CreateItem(item: WorkoutExercise, storeOk: bool) returns (ok: bool)
      requires Valid()
      modifies this
      ensures Valid() && ok == storeOk
      ensures State() == if ok then InsertItem(old(State()), item) else old(State())
    {
      ok := storeOk;
      if ok {
        InsertItemValid(State(), item);
        items := items + [item.(id := nextItemId)];
        nextItemId := nextItemId + 1;
      }
    }

    // ---------- seedExercises ----------

    /** Count the exercises and, when there are none, insert the catalog rows
        one by one. */
    method SeedExercises()
      requires Valid()
      modifies this
      ensures Valid() && State() == Seed(old(State()))
    {
      if |exercises| == 0 {
        var i := 0;
        while i < |Catalog|
          invariant 0 <= i <= |Catalog|
          invariant Valid()
          invariant State() == InsertAll(old(State()), Catalog[..i])
        {
          InsertAllOneMore(old(State()), Catalog, i);
          CreateExercise(Catalog[i]);
          i := i + 1;
        }
        assert Catalog[..|Catalog|] == Catalog;
      }
    }

    // ---------- handlers that change the store ----------

    method HandleSignup(args: seq<string>, env: Env) returns (reply: string)
      requires Valid() && |args| >= 1
      modifies this
      ensures Valid()
      ensures (State(), reply) == SignupStep(old(State()), args, env)
    {
      if |args| < 3 {
        return UsageOf(Command.Signup);
      }
      var username, password := args[1], args[2];
      if !env.hashOk {
        return HashFailed;
      }
      var passHash := Hash(password);
      var ok, id := CreateUser(username, passHash, env.storeOk);
      if !ok {
        return SignupFailed;
      }
      reply := Registered(CreateToken(id, env.now));
    }

    method HandleCreateWorkout(args: seq<string>, env: Env) returns (reply: string)
      requires Valid() && |args| >= 1
      modifies this
      ensures Valid()
      ensures (State(), reply) == CreateWorkoutStep(old(State()), args, env)
    {
      if |args| < 2 {
        return UsageOf(Command.CreateWorkout);
      }
      var title := Join(args[1..], " ");
      var id := CreateWorkout(title, env.now, env.storeOk);
      reply := Created(title, id);
    }

    method HandleAddExercise(args: seq<string>, env: Env) returns (reply: string)
      requires Valid() && |args| >= 1
      modifies this
      ensures Valid()
      ensures (State(), reply) == AddExerciseStep(old(State()), args, env)
    {
      if |args| < 6 {
        return UsageOf(Command.AddExercise);
      }
      var wid, eid := Atoi(args[1]), Atoi(args[2]);
      var sets, reps := Atoi(args[3]), Atoi(args[4]);
      var item := WorkoutExercise(0, ToUint(wid), ToUint(eid), sets, reps, args[5]);
      var ok := CreateItem(item, env.storeOk);
      reply := if ok then Added else AddFailed;
    }

    // ---------- handlers that build a listing ----------

    /** /exercises: one line per exercise, appended in table order. */
    method ListExercises() returns (reply: string)
      ensures reply == ExercisesReply(exercises)
    {
      var exs := exercises;
      if |exs| == 0 {
        return NoExercises;
      }
      var sb := ExercisesHeader;
      var i := 0;
      assert exs[..0] == [];
      assert sb == ExercisesHeader + ExerciseLines(exs[..0]);
      while i < |exs|
        invariant 0 <= i <= |exs|
        invariant sb == ExercisesHeader + ExerciseLines(exs[..i])
      {
        ExerciseLinesOneMore(exs, i);
        var line := ExerciseLine(exs[i]);
        AppendAssoc(ExercisesHeader, ExerciseLines(exs[..i]), line);
        sb := sb + line;
        i := i + 1;
      }
      assert exs[..|exs|] == exs;
      reply := sb;
    }

    /** The entry lines of one workout, appended to sb: each entry of the
        workout in table order, its exercise looked up by id. */
    method WriteEntries(sb: string, w: Workout) returns (out: string)
      ensures out == sb + ItemLines(ItemsOf(items, w.id), exercises)
    {
      var its := ItemsOf(items, w.id);
      out := sb;
      var j := 0;
      assert its[..0] == [];
      while j < |its|
        invariant 0 <= j <= |its|
        invariant out == sb + ItemLines(its[..j], exercises)
      {
        ItemLinesOneMore(its, j, exercises);
        var line := ItemLine(its[j], exercises);
        AppendAssoc(sb, ItemLines(its[..j], exercises), line);
        out := out + line;
        j := j + 1;
      }
      assert its[..|its|] == its;
    }

    /** /myworkouts: for each workout its header, its entry lines, then an
        empty line. */
    method ListWorkouts() returns (reply: string)
      ensures reply == MyWorkoutsReply(State())
    {
      var ws := workouts;
      if |ws| == 0 {
        return NoWorkouts;
      }
      var sb := "";
      var i := 0;
      assert ws[..0] == [];
      while i < |ws|
        invariant 0 <= i <= |ws|
        invariant sb == WorkoutBlocks(ws[..i], items, exercises)
      {
        var w := ws[i];
        ghost var done := sb;
        var header := WorkoutHeader(w);
        sb := sb + header;
        sb := WriteEntries(sb, w);
        sb := sb + "\n";
        ghost var lines := ItemLines(ItemsOf(items, w.id), exercises);
        assert sb == done + (header + lines + "\n") by {
          AppendAssoc(done, header, lines);
          AppendAssoc(done, header + lines, "\n");
        }
        WorkoutBlocksOneMore(ws, i, items, exercises);
        i := i + 1;
      }
      assert ws[..|ws|] == ws;
      reply := sb;
    }

    // ---------- the dispatch switch ----------

    /** One message: trim, ignore if empty, split, and run the matching case. */
    method Handle(line: string, env: Env) returns (reply: Option<string>)
      requires Valid()
      modifies this
      ensures Valid()
      ensures (State(), reply) == Step(old(State()), line, env)
    {
      var txt := TrimSpace(line);
      if txt == "" {
        return None;
      }
      var args := Fields(txt);
      var text: string;
      match CommandOf(args[0]) {
        case Start => text := HelpText;
        case Signup => text := HandleSignup(args, env);
        case Login => text := LoginReply(State(), args, env.now);
        case ListExercises => text := ListExercises();
        case CreateWorkout => text := HandleCreateWorkout(args, env);
        case AddExercise => text := HandleAddExercise(args, env);
        case MyWorkouts => text := ListWorkouts();
        case Stats => text := StatsReply(|workouts|, |items|);
        case Logout => text := LogoutText;
        case Unknown => text := UnknownText;
      }
      reply := Some(text);
    }

    /** The body of the update loop: handle one message and send its
        reply, if any. */
    method Receive(u: Update) returns (out: seq<string>)
      requires Valid()
      modifies this
      ensures Valid()
      ensures (State(), out) == (Step(old(State()), u.text, u.env).0, Sent(Step(old(State()), u.text, u.env).1))
    {
      var reply := Handle(u.text, u.env);
      out := [];
      if reply.Some? {
        out := [reply.value];
      }
    }

    /** The update loop over the updates that carry a message. */
    method Serve(updates: seq<Update>) returns (sent: seq<string>)
      requires Valid()
      modifies this
      ensures Valid()
      ensures (State(), sent) == Replay(old(State()), updates)
    {
      ghost var start := State();
      sent := [];
      var i := 0;
      assert updates[..0] == [];
      while i < |updates|
        invariant 0 <= i <= |updates|
        invariant Valid()
        invariant (State(), sent) == Replay(start, updates[..i])
      {
        ghost var before := (State(), sent);
        var out := Receive(updates[i]);
        ReplayOneMore(start, updates, i, before);
        sent := sent + out;
        i := i + 1;
      }
      assert updates[..|updates|] == updates;
    }
  }

  /** main: open the database, seed the catalog, then serve the updates. */
  method RunBot(db: Db, updates: seq<Update>) returns (store: Store, sent: seq<string>)
    requires Models.Valid(db)
    ensures fresh(store) && store.Valid()
    ensures (store.State(), sent) == Replay(Seed(db), updates)
  {
    store := new Store.Open(db);
    store.SeedExercises();
    sent := store.Serve(updates);
  }
}
