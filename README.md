# Habit tracker core, modelled in Dafny

This project models the three pieces of the habit-tracking app whose behaviour can be stated as contracts:

- **The local habit store** (`lib/db.ts`). One SQLite table, `habits`, keyed by an AUTOINCREMENT `id`. It has one exported function per operation: create the table, insert, list newest first, top-N by streak, sparse update, delete one, delete many. The engine is replaced by its effect on an abstract table, the class `HabitStore.HabitTable`. The class holds the rows in rowid order, the AUTOINCREMENT counter, whether the table exists, and a ghost log of the statements handed to the engine. Each statement also receives an `Engine` value: the engine either completes it or throws. A throw leaves the table unchanged and is returned to the caller as the rethrown error; it is never swallowed. A statement on a table that `initDB` has not created fails with `NoSuchTable`. The SQL text built in TypeScript is modelled as text: the `field = ?` SET clause, the `?, ?, ?` placeholder list and the INSERT column list. `sql_text.dfy` holds the generic `join(", ")`, a matching `Split`, and a `?` counter.
- **The auth screen** (`app/auth.tsx`). `handleAuth` runs a validation ladder: empty fields, then the unanchored email test `/\S+@\S+\.\S+/`, then the password length. It then calls the auth service with `error` cleared and `loading` on. It sets `error` from the reply or the exception, ends with `loading` off, and navigates to `/` only after a successful sign-in. `toggleMode` switches the mode and resets the form. The regex is stated as an existential over the positions of `@` and `.`. It is implemented by two scanning functions, and their contracts prove them equal to that statement. The auth service is an input, `Reply`: a resolved value (null, a message, or a falsy empty string) or a throw. The pure function `Submit` specifies one run. The class `AuthForm` updates the component's state fields one setter at a time. Its ghost log `calls` records the screen at the instant of each service call, and `routes` records each `router.replace`.
- **The route guard** (`app/_layout.tsx`). It maps `(loading, isLogged, segments)` to no redirect, `/auth` or `/`, and renders a spinner while loading.

The model follows `lib/db.ts` as written. Updating a missing id is a silent no-op with no not-found error, and `getHabitsLocal` lists every row with no per-user filter. The order among rows with equal sort keys is left to the engine: the sort contracts state only "a permutation, in order", and the model's own choice (stable) is not promised. The app stamps `created_at` with `toISOString()`, and the module `Timestamps` proves that the engine's text order on such stamps is chronological order, so "newest first" means what it says.

## Model

| member | source | states |
|---|---|---|
| `HabitStore.Stored` | lib/db.ts:53-66 | The inserted row keeps every given field. `best_streak` and `total_count` become 0 when undefined. `appwrite_id` becomes null when undefined or empty. |
| `HabitStore.StoredMatchesParams` | lib/db.ts:54-66 | Column by column, the stored row holds the ten parameters the INSERT binds, in the INSERT's column order. |
| `HabitStore.InsertBindsEveryParam` | lib/db.ts:53-66 | The INSERT text has exactly as many `?` as bound parameters. |
| `HabitStore.TextLeTotal` | lib/db.ts:36 | The TEXT ordering used for `created_at` is total. |
| `HabitStore.TextLeTransitive` | lib/db.ts:36 | The TEXT ordering used for `created_at` is transitive. |
| `HabitStore.SortBy` | lib/db.ts:80 | The result is a permutation of the rows, ordered newest `created_at` first (or by non-increasing `streak_count`). |
| `HabitStore.TopStreaks` | lib/db.ts:91-93 | Returns `min(limit, rowCount)` rows drawn from the table without repetition, with no id repeated. They are in non-increasing `streak_count`, and every row left out has a streak no larger than any row returned. |
| `HabitStore.SortedPrefixIsTop` | lib/db.ts:93 | A LIMIT prefix of rows sorted by streak leaves out only rows whose streak is no larger than any row kept. |
| `Timestamps.FixedLe` | lib/db.ts:36 | Two numbers zero-padded to the same width, each followed by any text, compare as text exactly as the numbers compare, with the following text breaking a tie. |
| `Timestamps.RenderLe` | lib/db.ts:36 | Field lists written at fixed widths with the same separators compare as text exactly in the lexicographic order of the fields. |
| `Timestamps.IsoTextOrderIsChronological` | lib/db.ts:80 | For every two instants with years 0 to 9999, the text order of their `YYYY-MM-DDTHH:mm:ss.sssZ` stamps holds exactly when the first is no later than the second. |
| `Timestamps.NewestFirstIsLatestFirst` | lib/db.ts:80 | Under `ORDER BY created_at DESC`, a row stamped by `toISOString` may precede another exactly when it is no earlier. |
| `Scenarios.SortedPair` | lib/db.ts:80 | Once the rows are sorted, two distinct rows stored out of order come back in swapped order. |
| `HabitStore.SubMultisetIdsDistinct` | lib/db.ts:28 | Rows drawn without repetition from a table with a primary key have distinct ids. |
| `HabitStore.Apply` | lib/db.ts:108-114 | One `field = ?` assignment changes that column only and keeps the id. |
| `HabitStore.ApplyAllReads` | lib/db.ts:108-114 | After a patch, each column holds the value of the rightmost assignment to it, or its old value when the patch does not name it. The id never changes. |
| `HabitStore.UpdateRows` | lib/db.ts:112-114 | Only the row with the given id changes, and only in its named columns. Every other row is unchanged, and a missing id changes nothing. |
| `HabitStore.SetClauseEntries` | lib/db.ts:105-108 | The SET clause, split at ", ", gives one `field = ?` entry per patch key, in key order. |
| `HabitStore.UpdateBindsEveryParam` | lib/db.ts:108-114 | The UPDATE text has one `?` per parameter, and there are `|fields| + 1` parameters (the values, then the id). |
| `HabitStore.WithoutId` | lib/db.ts:127 | Removes exactly the rows with the given id and keeps the others, still in ascending id order. A missing id changes nothing. |
| `HabitStore.WithoutIds` | lib/db.ts:141 | Removes exactly the rows whose id is in the list and keeps the others, still in ascending id order. An empty list changes nothing. |
| `HabitStore.WithoutIdIsWithoutIds` | lib/db.ts:125-141 | Deleting one id is the same as bulk-deleting the one-element list. |
| `HabitStore.WithoutIdIdempotent` | lib/db.ts:125-127 | Deleting the same id twice leaves the table as deleting it once. |
| `HabitStore.WithoutIdsIdempotent` | lib/db.ts:137-141 | Bulk-deleting the same ids twice leaves the table as doing it once. |
| `HabitStore.PlaceholdersMarks` | lib/db.ts:139 | A placeholder list for n ids holds exactly n `?`. |
| `HabitStore.PlaceholdersSplit` | lib/db.ts:139 | A placeholder list for n > 0 ids, split at ", ", is exactly n separate `?`. |
| `HabitStore.DeleteManyBindsEveryId` | lib/db.ts:139-141 | The bulk DELETE text has one `?` per id bound. |
| `HabitStore.HabitTable.constructor` | lib/db.ts:4 | Opening the database gives no table, no rows and an AUTOINCREMENT counter at 1. |
| `HabitStore.HabitTable.InitDB` | lib/db.ts:23-46 | CREATE TABLE IF NOT EXISTS: on success the table exists and keeps any rows it had. On failure the engine's error is returned and nothing changes. |
| `HabitStore.HabitTable.AddHabitLocal` | lib/db.ts:51-73 | On success it returns a fresh id that differs from every existing id. The table grows by exactly the stored row, and existing rows are unchanged. On failure the error is rethrown and the table is unchanged. |
| `HabitStore.HabitTable.GetHabitsLocal` | lib/db.ts:78-86 | Hands the engine `SELECT * FROM habits ORDER BY created_at DESC` and leaves the table unchanged. Returns every row exactly once, newest `created_at` first (TEXT order), or rethrows the engine's error. |
| `HabitStore.HabitTable.GetTopStreaksLocal` | lib/db.ts:91-99 | `limit` defaults to 3. Hands the engine the SELECT with `LIMIT` followed by the decimal digits of `limit`, and leaves the table unchanged. Returns `min(limit, rowCount)` distinct rows with the largest streaks, largest first, or rethrows the engine's error. |
| `HabitStore.HabitTable.UpdateHabitLocal` | lib/db.ts:104-120 | An empty patch returns with no statement issued and no change. Otherwise it issues the UPDATE with `[...values, id]` and applies the patch to the row with that id only, or rethrows. |
| `HabitStore.HabitTable.DeleteHabitLocal` | lib/db.ts:125-132 | Removes the row with that id and no other. A missing id is a no-op. Failure is rethrown and changes nothing. |
| `HabitStore.HabitTable.DeleteHabitsLocal` | lib/db.ts:137-146 | An empty list returns with no statement issued. Otherwise it removes exactly the rows whose id is listed, or rethrows. |
| `AuthScreen.DomainFrom` | app/auth.tsx:44 | The scan finds a dot exactly when `\S+\.\S+` can match from the given start. |
| `AuthScreen.MatchFrom` | app/auth.tsx:44 | The scan succeeds exactly when the pattern matches with its `@` at or after the given position. |
| `AuthScreen.IsValidEmail` | app/auth.tsx:44 | The email test holds exactly when `\S+@\S+\.\S+` matches somewhere in the email. |
| `AuthScreen.Validate` | app/auth.tsx:38-52 | The first failing check alone decides the message: empty fields, then the email pattern, then a password shorter than 6. A 6-character password passes. None means every check passes. |
| `AuthScreen.NoDotIsInvalid` | app/auth.tsx:44 | Every email that contains no `.` fails the email test. |
| `AuthScreen.SpaceBeforeAtIsInvalid` | app/auth.tsx:44 | Every email in which each `@` opens the text or follows a whitespace character fails the email test. |
| `AuthScreen.PatternIsUnanchored` | app/auth.tsx:44 | The email test is unanchored: if an email passes, the same email with any text before and after it passes too. |
| `AuthScreen.PasswordLengthBoundary` | app/auth.tsx:49-52 | For every non-empty email that passes the email test, every 5-character password gets the short-password message and every 6-character password passes. |
| `AuthScreen.Submit` | app/auth.tsx:38-80 | The service is called exactly when validation passes, with `error` cleared and `loading` on, and `loading` ends off. A truthy reply becomes `error` and a throw sets the fixed failure message. Only a successful sign-in navigates, to `/`. The form fields are untouched. |
| `AuthScreen.Toggled` | app/auth.tsx:30-36 | toggleMode flips the mode and empties email and password. It clears the error, hides the password and leaves `loading` alone. |
| `AuthScreen.ToggleTwice` | app/auth.tsx:30-36 | Toggling twice returns to the first mode with the form still cleared. |
| `AuthScreen.SubmitAfterToggle` | app/auth.tsx:30-42 | Submitting right after a toggle stops at the empty-fields check, without a call. |
| `AuthScreen.AuthForm.constructor` | app/auth.tsx:19-25 | The screen starts in sign-in mode with an empty form, no error and not loading. |
| `AuthScreen.AuthForm.ToggleMode` | app/auth.tsx:30-36 | The screen state becomes `Toggled` of the old state. There is no call and no navigation. |
| `AuthScreen.AuthForm.HandleAuth` | app/auth.tsx:38-80 | The setters leave the state that `Submit` gives. A call is logged with the state at call time, and `router.replace` is logged exactly when `Submit` navigates. |
| `RouteGuard.Redirect` | app/_layout.tsx:13-25 | While loading there is no redirect. Logged out outside the auth group goes to `/auth`. Logged in inside it goes to `/`. The other two combinations stay. |
| `RouteGuard.OnlyFirstSegmentMatters` | app/_layout.tsx:16 | The decision depends on the segments only through whether the first one is "auth". |
| `RouteGuard.RedirectSettles` | app/_layout.tsx:16-24 | Once the redirect target is shown, the guard asks for nothing more, so there is no redirect loop. |
| `RouteGuard.Render` | app/_layout.tsx:27-35 | A spinner is shown exactly while loading; afterwards the children are rendered unchanged. |

## Left out

- The SQLite engine: opening the connection, the WAL pragma, storage I/O and query planning. They are reduced to the `Engine` outcome of each statement and to the effect of each statement on the abstract table. A statement is treated as atomic, so a throw changes nothing.
- The database file across app launches: the constructor opens a file without the table. A file that already has the table is covered by `InitDB` running on a table that exists.
- `console` logging and the async/Promise scheduling of every function; each operation is one synchronous step.
- Assigning `id` through `updateHabitLocal`: `Partial<Habit>` admits it, but the model's patch covers the declared columns other than the key.
- Column names outside `Habit` in a patch, and SQL injected through the interpolated `limit`: `limit` is a `nat`, and a patch names declared columns only.
- `HabitStore.Stored`: numeric falsiness is taken as "undefined"; NaN and -0 reaching `|| 0` are not modelled.
- NOT NULL violations at insert (a runtime `undefined` title, say) and AUTOINCREMENT exhaustion at 2^63-1: the typed callers never supply them.
- `Timestamps.IsoTextOrderIsChronological`: covers years 0 to 9999 only. `toISOString` writes other years in the signed six-digit form, and the lemma says nothing about those. It also assumes the fields fit their digit widths, not that they form a valid calendar date.
- `AuthScreen.Validate`: `password.length` counts UTF-16 code units in JavaScript, and the model counts characters. The two differ only for characters outside the Basic Multilingual Plane.
- lib/auth-context.tsx is not part of this model (a wrapper over the remote account client). Its signUp/signIn outcome is the `Reply` input, and `isLogged`/`loading` are inputs of `RouteGuard.Redirect`.
- The remote mirror (the Appwrite document writes and deletes in the tab screens) and the streak counting: no code in the modelled files changes `streak_count`, `best_streak` or `total_count` after insert.
- Rendering, styles, icons, keyboard and focus state, the password-visibility toggle button, the `Stack` screen configuration, and the re-run timing of React effects. For navigation, the model keeps only which route is requested.
