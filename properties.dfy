/** What the command engine promises, stated over whole input lines. */
module Properties {
  import opened Wrappers
  import opened Text
  import opened Auth
  import opened Models
  import opened Commands

  /** A line that splits into args is dispatched with exactly those args. */
  lemma StepDispatches(db: Db, line: string, env: Env, args: seq<string>)
    requires Parse(line) == Some(args)
    ensures |args| >= 1
    ensures Step(db, line, env) == (Dispatch(db, args, env).0, Some(Dispatch(db, args, env).1))
  {
  }

  /** A command with too few arguments answers with its usage text and leaves
      every table as it was. */
  lemma UsageErrorsChangeNothing(db: Db, line: string, env: Env, args: seq<string>)
    requires Parse(line) == Some(args) && |args| < MinFields(CommandOf(args[0]))
    ensures Step(db, line, env) == (db, Some(UsageOf(CommandOf(args[0]))))
  {
    StepDispatches(db, line, env, args);
  }

  /** /start, /login, /exercises, /myworkouts, /stats, /logout and unknown
      commands never change the store, and no command changes the catalog. */
  lemma QueriesAreReadOnly(db: Db, line: string, env: Env)
    ensures Step(db, line, env).0.exercises == db.exercises
    ensures Parse(line).Some? && !IsUpdate(CommandOf(Parse(line).value[0])) ==> Step(db, line, env).0 == db
  {
    if Parse(line).Some? {
      StepDispatches(db, line, env, Parse(line).value);
    }
  }

  // ---------- /signup ----------

  /** Signing up under a name that is already taken fails with the "maybe
      exists" reply and changes nothing. */
  lemma SignupTakenName(db: Db, line: string, env: Env, args: seq<string>)
    requires Parse(line) == Some(args) && args[0] == "/signup" && |args| >= 3
    requires FindUser(db.users, args[1]).Some? && env.hashOk
    ensures Step(db, line, env) == (db, Some(SignupFailed))
  {
    StepDispatches(db, line, env, args);
    DispatchSignup(db, args, env);
  }

  /** A successful signup appends exactly one user: the next id, the name, and
      a hash that is not the password but accepts it; the reply carries a token
      naming the new id and expiring seven days later; the schema still holds. */
  lemma SignupNewUser(db: Db, line: string, env: Env, args: seq<string>)
    requires Valid(db)
    requires Parse(line) == Some(args) && args[0] == "/signup" && |args| >= 3
    requires UserInsertAllowed(db, args[1]) && env.hashOk && env.storeOk
    ensures
      var next := Step(db, line, env);
      && next.0 == db.(users := db.users + [User(db.nextUserId, args[1], Hash(args[2]))],
                      nextUserId := db.nextUserId + 1)
      && next.0.users[|db.users|].password != args[2]
      && Check(next.0.users[|db.users|].password, args[2])
      && next.1 == Some(Registered(CreateToken(db.nextUserId, env.now)))
      && DecodeToken(CreateToken(db.nextUserId, env.now)) == Some(Claims(db.nextUserId, env.now + TokenLifetime))
      && Valid(next.0)
  {
    StepDispatches(db, line, env, args);
    DispatchSignup(db, args, env);
    var db1 := InsertUser(db, args[1], Hash(args[2]));
    assert Step(db, line, env) == (db1, Some(Registered(CreateToken(db.nextUserId, env.now))));
    assert db1.users[|db.users|].password == Hash(args[2]);
    InsertUserValid(db, args[1], Hash(args[2]));
  }

  /** Once a name is registered, every later signup under it fails, whatever
      the password. */
  lemma SignupTwice(db: Db, line1: string, env1: Env, args1: seq<string>, line2: string, env2: Env, args2: seq<string>)
    requires Parse(line1) == Some(args1) && args1[0] == "/signup" && |args1| >= 3
    requires Parse(line2) == Some(args2) && args2[0] == "/signup" && |args2| >= 3
    requires args2[1] == args1[1]
    requires Step(db, line1, env1).0 != db && env2.hashOk
    ensures Step(Step(db, line1, env1).0, line2, env2) == (Step(db, line1, env1).0, Some(SignupFailed))
  {
    var db1 := Step(db, line1, env1).0;
    StepDispatches(db, line1, env1, args1);
    DispatchSignup(db, args1, env1);
    assert db1.users[|db.users|].username == args1[1];
    SignupTakenName(db1, line2, env2, args2);
  }

  // ---------- /login ----------

  lemma {:induction false} FindUserAppend(users: seq<User>, u: User)
    requires forall i :: 0 <= i < |users| ==> users[i].username != u.username
    ensures FindUser(users + [u], u.username) == Some(u)
    decreases |users|
  {
    if users != [] {
      assert (users + [u])[1..] == users[1..] + [u];
      FindUserAppend(users[1..], u);
    }
  }

  /** After a successful /signup u p, /login u q logs in with a token for the
      new user exactly when q is p, and answers "Wrong password" otherwise;
      logging in changes nothing. */
  lemma LoginAfterSignup(db: Db, line1: string, env1: Env, args1: seq<string>, line2: string, env2: Env, args2: seq<string>)
    requires Parse(line1) == Some(args1) && args1[0] == "/signup" && |args1| >= 3
    requires Step(db, line1, env1).0 != db
    requires Parse(line2) == Some(args2) && args2[0] == "/login" && |args2| >= 3 && args2[1] == args1[1]
    ensures
      var db1 := Step(db, line1, env1).0;
      Step(db1, line2, env2) ==
        (db1, Some(if args2[2] == args1[2] then LoggedIn(CreateToken(db.nextUserId, env2.now)) else WrongPassword))
  {
    var db1 := Step(db, line1, env1).0;
    StepDispatches(db, line1, env1, args1);
    DispatchSignup(db, args1, env1);
    StepDispatches(db1, line2, env2, args2);
    DispatchLogin(db1, args2, env2);
    var u := User(db.nextUserId, args1[1], Hash(args1[2]));
    assert db1.users == db.users + [u];
    FindUserAppend(db.users, u);
    CheckHash(args1[2], args2[2]);
  }

  // ---------- /createworkout ----------

  /** /createworkout joins the fields after the command with single spaces,
      so splitting the stored title gives back exactly the words typed. */
  lemma CreateWorkoutTitle(line: string, args: seq<string>)
    requires Parse(line) == Some(args) && |args| >= 2
    ensures Fields(TitleOf(args)) == args[1..]
  {
    var words := args[1..];
    assert forall i :: 0 <= i < |words| ==> words[i] == args[i + 1];
    FieldsOfJoin(words);
  }

  /** /createworkout with a title appends exactly one workout with that title,
      the next id and the current time as its date, when the store accepts it;
      a refused insert goes unnoticed: nothing is stored and the reply names
      id 0. */
  lemma CreateWorkoutRow(db: Db, line: string, env: Env, args: seq<string>)
    requires Parse(line) == Some(args) && args[0] == "/createworkout" && |args| >= 2
    ensures
      var title, next := TitleOf(args), Step(db, line, env);
      if env.storeOk && |title| <= MaxTitleLength then
        && next.0 == db.(workouts := db.workouts + [Workout(db.nextWorkoutId, None, title, Some(env.now), "")],
                         nextWorkoutId := db.nextWorkoutId + 1)
        && next.1 == Some(Created(title, db.nextWorkoutId))
      else next == (db, Some(Created(title, 0)))
  {
    StepDispatches(db, line, env, args);
    DispatchCreateWorkout(db, args, env);
    var title := TitleOf(args);
    if env.storeOk && |title| <= MaxTitleLength {
      var w := Workout(db.nextWorkoutId, None, title, Some(env.now), "");
      assert CreateWorkoutStep(db, args, env) == (InsertWorkout(db, title, env.now), Created(title, db.nextWorkoutId));
      assert InsertWorkout(db, title, env.now) == db.(workouts := db.workouts + [w], nextWorkoutId := db.nextWorkoutId + 1);
    } else {
      assert CreateWorkoutStep(db, args, env) == (db, Created(title, 0));
    }
  }

  // ---------- /addexercise ----------

  /** With five arguments, /addexercise appends exactly one entry holding the
      parsed values under the next id, where an argument that is not an
      integer is stored as 0 and an integer is stored as itself. */
  lemma AddExerciseRow(db: Db, line: string, env: Env, args: seq<string>)
    requires Parse(line) == Some(args) && args[0] == "/addexercise" && |args| >= 6 && env.storeOk
    ensures
      var next := Step(db, line, env);
      && |next.0.items| == |db.items| + 1
      && var item := next.0.items[|db.items|];
      && next == (db.(items := db.items + [item], nextItemId := db.nextItemId + 1), Some(Added))
      && item.id == db.nextItemId && item.weight == args[5]
      && item.workoutId == ToUint(Atoi(args[1])) && item.exerciseId == ToUint(Atoi(args[2]))
      && (ParseInt(args[3]).None? ==> item.sets == 0)
      && (ParseInt(args[4]).None? ==> item.reps == 0)
      && (forall n :: MinInt64 <= n <= MaxInt64 && args[3] == Itoa(n) ==> item.sets == n)
      && (forall n :: MinInt64 <= n <= MaxInt64 && args[4] == Itoa(n) ==> item.reps == n)
      && (ParseInt(args[3]).Some? && MinInt64 <= ParseInt(args[3]).value <= MaxInt64
          ==> item.sets == ParseInt(args[3]).value)
      && (ParseInt(args[4]).Some? && MinInt64 <= ParseInt(args[4]).value <= MaxInt64
          ==> item.reps == ParseInt(args[4]).value)
      && (ParseInt(args[1]).Some? && MinInt64 <= ParseInt(args[1]).value <= MaxInt64
          ==> item.workoutId == ToUint(ParseInt(args[1]).value))
      && (ParseInt(args[2]).Some? && MinInt64 <= ParseInt(args[2]).value <= MaxInt64
          ==> item.exerciseId == ToUint(ParseInt(args[2]).value))
  {
    StepDispatches(db, line, env, args);
    DispatchAddExercise(db, args, env);
    var item := ItemOf(args);
    var stored := item.(id := db.nextItemId);
    assert AddExerciseStep(db, args, env) == (InsertItem(db, item), Added);
    assert InsertItem(db, item) == db.(items := db.items + [stored], nextItemId := db.nextItemId + 1);
    forall n | MinInt64 <= n <= MaxInt64 && args[3] == Itoa(n) ensures Atoi(args[3]) == n {
      AtoiItoa(n);
    }
    forall n | MinInt64 <= n <= MaxInt64 && args[4] == Itoa(n) ensures Atoi(args[4]) == n {
      AtoiItoa(n);
    }
  }

  // ---------- /stats ----------

  /** Digits followed by a newline cannot be confused with other digits
      followed by a newline. */
  lemma DigitsBeforeNewline(x: string, t1: string, y: string, t2: string)
    requires IsDigits(x) && IsDigits(y) && t1 != [] && t2 != [] && t1[0] == '\n' && t2[0] == '\n'
    requires x + t1 == y + t2
    ensures x == y && t1 == t2
  {
    assert x == (x + t1)[..|x|] && y == (y + t2)[..|y|];
    assert t1 == (x + t1)[|x|..] && t2 == (y + t2)[|y|..];
  }

  lemma NatToStringInjective(a: nat, b: nat)
    requires NatToString(a) == NatToString(b)
    ensures a == b
  {
    NatToStringValue(a);
    NatToStringValue(b);
  }

  lemma CancelPrefix(p: string, a: string, b: string)
    requires p + a == p + b
    ensures a == b
  {
    assert a == (p + a)[|p|..];
    assert b == (p + b)[|p|..];
  }

  lemma StatsReplyParts(w: nat, i: nat)
    ensures StatsReply(w, i) == StatsHead + (NatToString(w) + (StatsMiddle + (NatToString(i) + "\n")))
  {
    var a, b := NatToString(w), NatToString(i);
    assert Itoa(w) == a && Itoa(i) == b;
    assert StatsReply(w, i) == (((StatsHead + a) + StatsMiddle) + b) + "\n";
  }

  /** The two numbers in a /stats reply determine the counts it was made from. */
  lemma StatsReplyInjective(w1: nat, i1: nat, w2: nat, i2: nat)
    requires StatsReply(w1, i1) == StatsReply(w2, i2)
    ensures w1 == w2 && i1 == i2
  {
    var x1, y1, x2, y2 := NatToString(w1), NatToString(i1), NatToString(w2), NatToString(i2);
    var tail1, tail2 := y1 + "\n", y2 + "\n";
    var rest1, rest2 := StatsMiddle + tail1, StatsMiddle + tail2;
    assert x1 + rest1 == x2 + rest2 by {
      StatsReplyParts(w1, i1);
      StatsReplyParts(w2, i2);
      CancelPrefix(StatsHead, x1 + rest1, x2 + rest2);
    }
    assert rest1 == rest2 && w1 == w2 by {
      assert rest1[0] == '\n' && rest2[0] == '\n';
      DigitsBeforeNewline(x1, rest1, x2, rest2);
      NatToStringInjective(w1, w2);
    }
    assert i1 == i2 by {
      CancelPrefix(StatsMiddle, tail1, tail2);
      DigitsBeforeNewline(y1, "\n", y2, "\n");
      NatToStringInjective(i1, i2);
    }
  }

  /** /stats answers with the current number of workouts and of entries, and
      changes nothing. */
  lemma StatsCounts(db: Db, line: string, env: Env, args: seq<string>)
    requires Parse(line) == Some(args) && args[0] == "/stats"
    ensures Step(db, line, env) == (db, Some(StatsReply(|db.workouts|, |db.items|)))
  {
    StepDispatches(db, line, env, args);
    DispatchStats(db, args, env);
  }

  // ---------- /exercises and /myworkouts ----------

  /** The lines of a prefix of the table are a prefix of the lines of the table. */
  lemma {:induction false} ExerciseLinesPrefix(exs: seq<Exercise>, j: nat)
    requires j <= |exs|
    ensures |ExerciseLines(exs[..j])| <= |ExerciseLines(exs)|
    ensures ExerciseLines(exs)[..|ExerciseLines(exs[..j])|] == ExerciseLines(exs[..j])
    decreases |exs|
  {
    if j < |exs| {
      var init := exs[..|exs| - 1];
      assert init[..j] == exs[..j];
      ExerciseLinesPrefix(init, j);
    } else {
      assert exs[..j] == exs;
    }
  }

  /** t occurs in s starting at position k. */
  predicate OccursAt(s: string, t: string, k: int) {
    0 <= k <= |s| - |t| && s[k..k + |t|] == t
  }

  /** Exercise k's line sits right after the lines of exercises 0..k-1: one
      line per exercise, in table order. */
  lemma ExerciseLineAt(exs: seq<Exercise>, k: nat)
    requires k < |exs|
    ensures OccursAt(ExerciseLines(exs), ExerciseLine(exs[k]), |ExerciseLines(exs[..k])|)
  {
    var upto := exs[..k + 1];
    var before, line := ExerciseLines(exs[..k]), ExerciseLine(exs[k]);
    assert ExerciseLines(upto) == before + line by {
      assert upto[..k] == exs[..k] && upto[k] == exs[k];
    }
    ExerciseLinesPrefix(exs, k + 1);
    SliceAfterPrefix(ExerciseLines(exs), before, line);
  }

  /** A string that starts with before + t holds t right after before. */
  lemma SliceAfterPrefix(s: string, before: string, t: string)
    requires |before| + |t| <= |s| && s[..|before| + |t|] == before + t
    ensures s[|before|..|before| + |t|] == t
  {
    assert s[|before|..|before| + |t|] == (before + t)[|before|..];
  }

  /** Text at offset k of s sits at offset |h| + k of h + s. */
  lemma OccursBehind(h: string, s: string, t: string, k: int)
    requires OccursAt(s, t, k)
    ensures OccursAt(h + s, t, |h| + k)
  {
    forall i | 0 <= i < |t|
      ensures (h + s)[|h| + k..|h| + k + |t|][i] == t[i]
    {
      assert t[i] == s[k..k + |t|][i];
    }
  }

  /** t occurs somewhere in s. */
  ghost predicate Contains(s: string, t: string) {
    exists k :: OccursAt(s, t, k)
  }

  lemma ContainsInLeft(a: string, b: string, t: string)
    requires Contains(a, t)
    ensures Contains(a + b, t)
  {
    var k :| OccursAt(a, t, k);
    assert (a + b)[k..k + |t|] == t;
    assert OccursAt(a + b, t, k);
  }

  lemma ContainsInRight(a: string, b: string, t: string)
    requires Contains(b, t)
    ensures Contains(a + b, t)
  {
    var k :| OccursAt(b, t, k);
    OccursBehind(a, b, t, k);
  }

  lemma ContainsItself(s: string)
    ensures Contains(s, s)
  {
    assert s[0..|s|] == s;
    assert OccursAt(s, s, 0);
  }

  lemma ContainsTransitive(s: string, t: string, u: string)
    requires Contains(s, t) && Contains(t, u)
    ensures Contains(s, u)
  {
    var k :| OccursAt(s, t, k);
    var m :| OccursAt(t, u, m);
    forall i | 0 <= i < |u|
      ensures s[k + m..k + m + |u|][i] == u[i]
    {
      assert u[i] == t[m + i] == s[k..k + |t|][m + i];
    }
    assert OccursAt(s, u, k + m);
  }

  /** The /exercises reply lists exercise k's line right after the header and
      the lines of exercises 0..k-1, so every exercise appears, in table order. */
  lemma ExercisesReplyLists(exs: seq<Exercise>, k: nat)
    requires k < |exs|
    ensures OccursAt(ExercisesReply(exs), ExerciseLine(exs[k]), |ExercisesHeader| + |ExerciseLines(exs[..k])|)
    ensures Contains(ExercisesReply(exs), ExerciseLine(exs[k]))
  {
    ExerciseLineAt(exs, k);
    assert ExercisesReply(exs) == ExercisesHeader + ExerciseLines(exs);
    OccursBehind(ExercisesHeader, ExerciseLines(exs), ExerciseLine(exs[k]), |ExerciseLines(exs[..k])|);
  }


  lemma {:induction false} ItemLinesContain(its: seq<WorkoutExercise>, exs: seq<Exercise>, k: nat)
    requires k < |its|
    ensures Contains(ItemLines(its, exs), ItemLine(its[k], exs))
    decreases |its|
  {
    var init, last := its[..|its| - 1], its[|its| - 1];
    if k == |its| - 1 {
      ContainsItself(ItemLine(last, exs));
      ContainsInRight(ItemLines(init, exs), ItemLine(last, exs), ItemLine(last, exs));
    } else {
      ItemLinesContain(init, exs, k);
      ContainsInLeft(ItemLines(init, exs), ItemLine(last, exs), ItemLine(its[k], exs));
    }
  }

  lemma {:induction false} WorkoutBlocksContain(ws: seq<Workout>, items: seq<WorkoutExercise>, exs: seq<Exercise>, k: nat)
    requires k < |ws|
    ensures Contains(WorkoutBlocks(ws, items, exs), WorkoutBlock(ws[k], items, exs))
    decreases |ws|
  {
    var init, last := ws[..|ws| - 1], ws[|ws| - 1];
    var block := WorkoutBlock(last, items, exs);
    if k == |ws| - 1 {
      ContainsItself(block);
      ContainsInRight(WorkoutBlocks(init, items, exs), block, block);
    } else {
      WorkoutBlocksContain(init, items, exs, k);
      ContainsInLeft(WorkoutBlocks(init, items, exs), block, WorkoutBlock(ws[k], items, exs));
    }
  }

  /** The /myworkouts reply shows every workout's header and, for every entry
      of that workout, the entry's line with the exercise name, sets, reps and
      weight. */
  lemma MyWorkoutsShowsEntries(db: Db, k: nat, it: WorkoutExercise)
    requires k < |db.workouts|
    requires it in db.items && it.workoutId == db.workouts[k].id
    ensures Contains(MyWorkoutsReply(db), WorkoutHeader(db.workouts[k]))
    ensures Contains(MyWorkoutsReply(db), ItemLine(it, db.exercises))
  {
    var w := db.workouts[k];
    var reply := MyWorkoutsReply(db);
    var its := ItemsOf(db.items, w.id);
    var block := WorkoutBlock(w, db.items, db.exercises);
    WorkoutBlocksContain(db.workouts, db.items, db.exercises, k);
    var lines := ItemLines(its, db.exercises);
    assert block == WorkoutHeader(w) + (lines + "\n");
    ContainsItself(WorkoutHeader(w));
    ContainsInLeft(WorkoutHeader(w), lines + "\n", WorkoutHeader(w));
    ContainsTransitive(reply, block, WorkoutHeader(w));
    var j :| 0 <= j < |db.items| && db.items[j] == it;
    var m :| 0 <= m < |its| && its[m] == it;
    ItemLinesContain(its, db.exercises, m);
    ContainsInLeft(lines, "\n", ItemLine(it, db.exercises));
    ContainsInRight(WorkoutHeader(w), lines + "\n", ItemLine(it, db.exercises));
    ContainsTransitive(reply, block, ItemLine(it, db.exercises));
  }

  // ---------- the whole loop ----------

  lemma DispatchPreservesValid(db: Db, args: seq<string>, env: Env)
    requires Valid(db) && |args| >= 1
    ensures Valid(Dispatch(db, args, env).0)
  {
    var c := CommandOf(args[0]);
    if c == Signup {
      DispatchSignup(db, args, env);
      if |args| >= 3 && UserInsertAllowed(db, args[1]) {
        InsertUserValid(db, args[1], Hash(args[2]));
      }
    } else if c == CreateWorkout {
      DispatchCreateWorkout(db, args, env);
      if |args| >= 2 && |TitleOf(args)| <= MaxTitleLength {
        InsertWorkoutValid(db, TitleOf(args), env.now);
      }
    } else if c == AddExercise {
      DispatchAddExercise(db, args, env);
      if |args| >= 6 {
        InsertItemValid(db, ItemOf(args));
      }
    }
  }

  /** Every handled line keeps the schema's guarantees. */
  lemma StepPreservesValid(db: Db, line: string, env: Env)
    requires Valid(db)
    ensures Valid(Step(db, line, env).0)
  {
    if Parse(line).Some? {
      var args := Parse(line).value;
      StepDispatches(db, line, env, args);
      DispatchPreservesValid(db, args, env);
    }
  }

  /** The number of messages that are not blank. */
  function NonBlankCount(updates: seq<Update>): nat
    decreases |updates|
  {
    if updates == [] then 0
    else NonBlankCount(updates[..|updates| - 1]) + (if Blank(updates[|updates| - 1].text) then 0 else 1)
  }

  /** The loop sends exactly one reply per non-blank message and keeps the
      schema's guarantees throughout. */
  lemma {:induction false} ReplayReplies(db: Db, updates: seq<Update>)
    requires Valid(db)
    ensures |Replay(db, updates).1| == NonBlankCount(updates)
    ensures Valid(Replay(db, updates).0)
    decreases |updates|
  {
    if updates != [] {
      var init := updates[..|updates| - 1];
      ReplayReplies(db, init);
      var u := updates[|updates| - 1];
      StepPreservesValid(Replay(db, init).0, u.text, u.env);
    }
  }
}
