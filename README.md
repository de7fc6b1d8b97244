# Workout tracker bot: command engine

This project models the command engine of a Telegram workout-tracking bot
(`main.go`) and proves properties of it. The bot reads one chat message at a
time. It trims the message and splits it into whitespace-separated fields.
The first field picks a command: `/start`, `/signup`, `/login`, `/exercises`,
`/createworkout`, `/addexercise`, `/myworkouts`, `/stats` or `/logout`;
anything else gets the "unknown command" reply. The data lives in four tables
(users, exercises, workouts, workout entries): `/signup`, `/createworkout` and
`/addexercise` append rows, `/login`, `/exercises`, `/myworkouts` and `/stats`
read them, and `/start`, `/logout` and unknown commands touch no table. Every
command sends back exactly one text reply. A blank message gets no reply.

The project is built in layers:

- `wrappers.dfy` (`Wrappers`): the `Option` type.
- `text.dfy` (`Text`): the Go library behaviour the handlers rely on:
  - `strings.TrimSpace`, `strings.Fields` and `strings.Join`, with Go's Unicode white-space set;
  - `strconv.Atoi` with its error thrown away: non-numeric text gives 0, and an out-of-range value is clamped to 64 bits;
  - the `uint(...)` conversion, which wraps modulo 2^64;
  - `%d` formatting.
- `auth.dfy` (`Auth`): `hashPassword`, `checkPassword` and `createToken`. These are concrete stand-ins (see Left out) that keep the properties the bot relies on: the hash differs from the password and checks only against it, and the token carries the user id and an expiry 7 days after the current time.
- `models.dfy` (`Models`):
  - the four row types and the database as a value (`Db`): the tables in insertion order plus the next auto-increment id of each;
  - the schema constraints: unique username of at most 100 characters, and workout title of at most 150 characters;
  - the invariant `Valid`, the inserts, and catalog seeding.
- `commands.dfy` (`Commands`): every handler as a function from the database, the fields and an environment to the new database and the reply. `Dispatch` is the command switch and `Step` handles one message. `Replay` is the update loop over a sequence of messages.
- `properties.dfy` (`Properties`): lemmas about whole messages and message sequences.
- `bot.dfy` (`Bot`): the running program. The class `Store` holds the tables as fields that its `Create*` methods append to. The handlers build their replies in loops, as main.go does. `Handle`, `Serve` and `RunBot` are the message switch, the update loop and `main`. Every method is proved against the functions of `Commands` and `Models`.

The current time, a failing password hash, and the store's refusal of a row
for a reason the model does not track (see the `storeOk` line under Left out)
are not computed by the model. They arrive with each message as
the `Env` parameter (`now`, `hashOk`, `storeOk`).

Three behaviours of `main.go` that the model keeps:

- When an entry's exercise does not exist, `/myworkouts` prints that entry with an empty exercise name. main.go ignores the lookup error and formats a zero-valued exercise. The listing is neither skipped nor aborted.
- When the store refuses a new workout (for example a title longer than 150 characters), `/createworkout` still replies "created", with `id=0`. main.go ignores the insert error.
- `/addexercise` needs six fields: the command plus five arguments.

## Model

| member | source | states |
|---|---|---|
| Text.TrimSpace | main.go:148-151 | the trimmed text is empty exactly when the message is blank; otherwise it starts and ends with a non-space character; and it is the message itself at some offset, with only white space before and after it |
| Text.Fields | main.go:153 | every field is non-empty and contains no white space |
| Text.FieldsEmptyIffBlank | main.go:148-154 | splitting gives no fields exactly when the text is blank, so `args[0]` exists for every message that is handled |
| Text.FieldsOfWord | main.go:153 | a non-empty run without white space is exactly one field |
| Text.FieldsBlankPrefix | main.go:153 | leading white space contributes no field |
| Text.FieldsSplit | main.go:153 | a run of white space between two texts splits them: the fields of the whole are the fields of the left part followed by those of the right part |
| Text.Join | main.go:221 | joining no words gives the empty text; otherwise the result starts with the first word |
| Text.JoinEndsWithLast | main.go:221 | the joined text ends with the last word |
| Text.FieldsTrim | main.go:148-153 | splitting the trimmed text gives the same fields as splitting the raw message |
| Text.FieldsOfJoin | main.go:221 | joining non-empty, space-free fields with one space and splitting the result again gives back the same fields |
| Text.Atoi | main.go:233-236 | the result is a 64-bit integer; text that is not an optionally signed decimal gives 0; a decimal in the 64-bit range gives its value; a decimal below or above the range gives the smallest or the largest 64-bit integer |
| Text.Itoa | main.go:225 | the `%d` text of a number has no white space; it is all digits for a non-negative number, and a minus sign followed by digits for a negative one |
| Text.ToUint | main.go:239-240 | the conversion to an unsigned id is the value modulo 2^64, and non-negative values are unchanged |
| Text.ParseIntItoa | main.go:233-236 | parsing the decimal text of any integer gives back that integer |
| Text.AtoiItoa | main.go:233-236 | Atoi reads back the decimal text of every 64-bit integer |
| Text.NatToStringValue | main.go:225 | the decimal text of an id consists of digits whose value is the id |
| Auth.Hash | main.go:71-74 | the stored hash is never the plaintext password |
| Auth.Check | main.go:76-78 | a password never checks against a stored hash equal to the password itself |
| Auth.CheckHash | main.go:76-78 | a password checks against the hash of a password exactly when the two are equal |
| Auth.CreateToken | main.go:80-86 | the token decodes to the user id as subject and to an expiry 7 days (604800 s) after the current time |
| Models.EmptyDbValid | main.go:100 | freshly migrated empty tables satisfy the schema invariant |
| Models.FindUser | main.go:190 | the lookup by username finds a user with that name that is in the table, and finds nothing exactly when no user has that name |
| Models.FindExercise | main.go:265 | the lookup by id finds a stored exercise with that id, and finds nothing exactly when no exercise has that id |
| Models.ItemsOf | main.go:262 | the entries listed for a workout are entries of the table with that workout id, and every such entry is listed |
| Models.InsertUser | main.go:173-174 | an accepted user is appended after the existing rows, under the next id, with the name and hash given; the next id grows; the other tables and their next ids do not change |
| Models.InsertExercise | main.go:117-118 | an exercise is appended after the existing rows under the next id; the next id grows; the other tables and their next ids do not change |
| Models.InsertWorkout | main.go:223-224 | a workout is appended after the existing rows, under the next id, with the title and date given, no owner and an empty comment; the next id grows; the other tables and their next ids do not change |
| Models.InsertItem | main.go:245 | an entry is appended after the existing rows under the next id; the next id grows; the other tables and their next ids do not change |
| Models.InsertUserValid | main.go:32-38 | inserting a user whose name is free and at most 100 characters long keeps ids increasing and usernames unique |
| Models.InsertExerciseValid | main.go:40-47 | inserting an exercise keeps the invariant |
| Models.InsertWorkoutValid | main.go:49-58 | inserting a workout whose title has at most 150 characters keeps the invariant |
| Models.InsertItemValid | main.go:60-67 | inserting a workout entry keeps the invariant |
| Models.InsertAll | main.go:117-119 | inserting rows one by one appends them in order, with consecutive ids from the next id, and leaves the other tables unchanged |
| Models.InsertAllValid | main.go:117-119 | inserting catalog rows one by one keeps the invariant |
| Models.Seed | main.go:106-122 | after seeding, the exercise table is not empty; a non-empty table is left as it was; users, workouts and entries and their next ids never change |
| Models.SeedContents | main.go:106-122 | seeding an empty exercise table fills it with the five catalog exercises, with ids counting from the next id, and the next exercise id moves past them; a non-empty table is left alone; the other tables and their next ids never change |
| Models.SeedIdempotent | main.go:107-109 | seeding twice is the same as seeding once |
| Models.SeedValid | main.go:106-122 | seeding keeps the invariant |
| Commands.CommandOf | main.go:156-286 | a word selects a command only when it is that command's case label, spelled exactly |
| Commands.CommandOfKeyword | main.go:156-286 | every case label selects its own command, so the default branch is taken exactly for words that are no case label |
| Commands.Parse | main.go:148-154 | a message is ignored exactly when it is blank; otherwise its fields are those of the whole message, and there is at least one |
| Commands.SignupStep | main.go:161-180 | a signup changes the database exactly when there are enough fields, the hash succeeds, and the name is free and short enough (and the store accepts); the change is one new user holding the hash, and nothing else changes; a hashing failure answers "Error hashing password", a refused insert "Error creating user (maybe exists)", and a new user the token for its id |
| Commands.LoginReply | main.go:182-200 | the reply is "user not found" exactly when no user has the name, and "wrong password" exactly when the user exists but the password does not check; when the password checks, the reply is "logged in" with a token for that user's id |
| Commands.ExerciseLine | main.go:212 | an exercise's line starts with its id and ") ", and ends with a newline |
| Commands.ExercisesReply | main.go:202-214 | the reply is "No exercises found" exactly when the catalog is empty; otherwise it starts with the "Exercises:" header |
| Commands.CreateWorkoutStep | main.go:216-225 | a workout is added exactly when a title is given and the store accepts it (title at most 150 characters); the row holds the joined title and the current time, and nothing else changes |
| Commands.ItemOf | main.go:233-244 | a numeric argument that is not an optionally signed decimal is stored as 0; sets and reps in the 64-bit range are stored as their value; workout and exercise ids in that range are stored as their value modulo 2^64; the weight is the fifth argument |
| Commands.AddExerciseStep | main.go:227-249 | an entry is added exactly when there are five arguments and the store accepts it, and the other tables do not change; with five arguments the reply is "Added" when the store accepts and "Error adding exercise to workout" when it refuses |
| Commands.ExerciseName | main.go:264-266 | the name printed for an entry is the name of a stored exercise with the entry's exercise id when there is one, and empty when there is none |
| Commands.WorkoutHeader | main.go:260 | a workout's label line starts with the tag and the id's digits, ends with the title and a newline, and is exactly five characters longer than the id's digits and the title together |
| Commands.ItemLine | main.go:266 | an entry's line starts with "   - " followed by the exercise name, and ends with a newline |
| Commands.WorkoutBlocksStart | main.go:259-269 | a listing of at least one workout starts with the label of its first workout |
| Commands.MyWorkoutsReply | main.go:251-270 | the reply is "No workouts yet" exactly when there are no workouts |
| Commands.Dispatch | main.go:156-287 | no command changes the exercise catalog; read-only commands change nothing; a command with too few fields replies with its usage text and changes nothing; `/start` answers the help text, `/logout` the logout text and any other word the unknown-command text |
| Commands.StatsReply | main.go:278 | the stats reply starts with the "Stats:" header and ends with a newline |
| Commands.Step | main.go:145-287 | a message gets no reply exactly when it is blank, and a blank message changes nothing |
| Commands.Replay | main.go:144-288 | the update loop never changes the exercise catalog and sends at most one reply per message |
| Properties.UsageErrorsChangeNothing | main.go:162-165 | a command with too few fields leaves the database unchanged and replies with that command's usage text |
| Properties.QueriesAreReadOnly | main.go:156-287 | no message changes the exercise catalog, and every command other than signup, createworkout and addexercise leaves the whole database unchanged |
| Properties.SignupTakenName | main.go:34 | once hashing succeeds, signing up under a name that is already registered fails with the "maybe exists" reply and changes nothing |
| Properties.SignupNewUser | main.go:166-179 | a successful signup appends exactly one user with the next id and the hash of the password (never the password itself), replies with a token for that id, and keeps the invariant |
| Properties.SignupTwice | main.go:34 | after a successful signup, any later signup with the same name fails and changes nothing |
| Properties.LoginAfterSignup | main.go:187-200 | right after a successful signup, logging in with the same name succeeds with a token for the new id exactly when the password matches, and otherwise replies "wrong password" |
| Properties.CreateWorkoutTitle | main.go:221 | splitting the stored title gives back exactly the words typed after the command |
| Properties.CreateWorkoutRow | main.go:221-225 | the new workout row holds the next id, the joined title, the current time and no owner; a refused insert changes nothing and the reply still says id=0 |
| Properties.AddExerciseRow | main.go:233-248 | an accepted entry is the one new row: it has the next id, the wrapped workout and exercise ids, the value of any optionally signed decimal in the 64-bit range as sets and reps (0 for other text), and that value modulo 2^64 as workout and exercise ids; the reply is "Exercise added" |
| Properties.NatToStringInjective | main.go:278 | different counts print differently |
| Properties.StatsReplyInjective | main.go:278 | the stats reply determines both counts it was built from |
| Properties.StatsCounts | main.go:272-279 | /stats changes nothing and reports the number of workouts and of entries in the tables |
| Properties.ExerciseLineAt | main.go:211-213 | the line of the k-th exercise appears in the listing at the position where the lines of the previous exercises end |
| Properties.ExercisesReplyLists | main.go:202-214 | the /exercises reply shows the line of every exercise, right after the header and the lines of the exercises before it |
| Properties.ItemLinesContain | main.go:263-267 | the line of every entry of a workout appears in that workout's entry lines |
| Properties.WorkoutBlocksContain | main.go:259-269 | the block of every workout appears in the listing |
| Properties.MyWorkoutsShowsEntries | main.go:251-270 | /myworkouts shows the label of every workout and the line of every entry of that workout |
| Properties.DispatchPreservesValid | main.go:156-287 | every command keeps the schema invariant (increasing ids, unique usernames, column sizes) |
| Properties.StepPreservesValid | main.go:145-287 | every message keeps the schema invariant |
| Properties.ReplayReplies | main.go:144-288 | after a sequence of messages, one reply has been sent per non-blank message and the invariant holds |
| Bot.Store.Open | main.go:90-102 | the store opened on an existing database holds exactly that database |
| Bot.Store.CreateUser | main.go:173-174 | the store accepts a user exactly when the name is free and at most 100 characters long (and storage accepts); it appends the user under the next id; on refusal the id stays 0 and nothing changes |
| Bot.Store.CreateExercise | main.go:117-119 | appends the exercise under the next id |
| Bot.Store.CreateWorkout | main.go:223-224 | appends the workout under the next id when its title has at most 150 characters (and storage accepts); otherwise the id is 0 and nothing changes |
| Bot.Store.CreateItem | main.go:245 | appends the entry under the next id when storage accepts it, and otherwise changes nothing |
| Bot.Store.SeedExercises | main.go:106-122 | the loop leaves the tables equal to the seeding specification and keeps the invariant |
| Bot.Store.HandleSignup | main.go:161-180 | the signup handler's new tables and reply are those of the signup step |
| Bot.Store.HandleCreateWorkout | main.go:216-225 | the createworkout handler's new tables and reply are those of the createworkout step |
| Bot.Store.HandleAddExercise | main.go:227-249 | the addexercise handler's new tables and reply are those of the addexercise step |
| Bot.Store.ListExercises | main.go:202-214 | the listing built line by line is the exercises reply |
| Bot.Store.WriteEntries | main.go:261-267 | the inner loop appends the entry lines of one workout |
| Bot.Store.ListWorkouts | main.go:251-270 | the listing built by the nested loops is the myworkouts reply |
| Bot.Store.Handle | main.go:148-287 | handling a message gives the tables and reply of one step, and keeps the invariant |
| Bot.Store.Receive | main.go:145-287 | one iteration of the loop: the new tables are those of one step, and the reply is sent exactly when there is one |
| Bot.Store.Serve | main.go:144-288 | the loop leaves the tables and the sent replies equal to the replay of the messages, and keeps the invariant |
| Bot.RunBot | main.go:126-144 | opening, seeding and serving leaves the tables and replies equal to the replay over the seeded database |

## Left out

- The Telegram transport is not modelled. This covers the bot token, `NewBotAPI`, update polling, chat ids and `bot.Send`. Each message is a `Commands.Update`, and the replies are the sent sequence.
- Updates without a message (`update.Message == nil`) are not modelled. Only updates that carry text are in the input sequence.
- The bootstrap is not modelled: environment variables, `getEnv`, the `DATABASE_URL` and `TELEGRAM_BOT_TOKEN` checks and their fatal exits. `Bot.Store.Open` stands for a successful `gorm.Open` plus `AutoMigrate`.
- `database/database.go` is not part of this model.
- Auth.Hash: bcrypt is not modelled. The stand-in is deterministic and reversible. It keeps only "the hash is not the password" and "a password checks only against its own hash". Salting, the cost factor and bcrypt's 72-byte limit are left out, and a hashing failure is the `hashOk` parameter.
- Auth.CreateToken: JWT encoding, HS256 signing and the `JWT_SECRET` secret (default "supersecret") are left out. The token is the subject and the expiry joined by a dot. A signing error is discarded by main.go, and the model does not have one.
- Time is not modelled as a value: `time.Now()` is the `now` parameter in Unix seconds. Created/updated timestamps are not modelled.
- The weight of an entry is stored as the text typed. `strconv.ParseFloat` and the `%.2f` formatting of `/myworkouts` are left out, because the model has no floating point.
- Inserts refused for a reason the model does not track are the `storeOk` parameter. The unique username index, the 100-character username column and the 150-character title column are modelled; two refusals are not:
  - Commands.AddExerciseStep: the `foreignKey:WorkoutID` tag at main.go:57 becomes, through `AutoMigrate` at main.go:100, a foreign key from `workout_exercises.workout_id` to `workouts.id`. The store therefore always refuses an `/addexercise` whose workout id names no workout, including the 0 that a non-numeric argument gives. The model does not track this foreign key and leaves that refusal to `storeOk`, so with `storeOk` it stores such an entry.
  - Commands.ItemOf: a negative id wraps under `uint(...)` to a value of at least 2^63, which the `bigint` columns `workout_id` and `exercise_id` cannot hold, so the store refuses the row. The model keeps the wrapped value and leaves that refusal to `storeOk` as well.
- Failing reads are not modelled: every query answers from the tables. main.go ignores the errors of `Find` at main.go:204, main.go:253 and main.go:262, where a failing read looks like an empty table ("No exercises found", "No workouts yet", a workout without entry lines). It also ignores the errors of `Count` at main.go:275 and main.go:277, where a failing count reports 0. It treats every error of `First` at main.go:190 as "User not found". It ignores the error of `First` at main.go:265, and the model keeps only the missing-row case (an empty name).
- Models.Seed: main.go ignores the error of `Count` at main.go:108, so a failing count reads as 0 and re-seeds a non-empty table. It also ignores the seeding inserts' errors at main.go:118. The model seeds exactly when the table is empty, and every seeding insert (Bot.Store.CreateExercise) succeeds.
- Models.InsertUserValid: when an insert fails, PostgreSQL still uses up a sequence value. The model does not advance the next id on a failed insert, so the ids here are consecutive, whereas the real ones may have gaps.
- The row order that `db.Find` returns is not guaranteed without ORDER BY. The model assumes insertion order.
- Bot.Store.ListWorkouts: the `Preload("Exercises")` query is left out. Its result is never used; the entries are queried again per workout.
