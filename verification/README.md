# Momentum habit tracker — a Dafny model of its core

Momentum is a React Native habit tracker. A user signs up, creates habits, and
marks each one done once per day. The app shows the current streak of every
habit, the number of habits done today and the weakest current streak. A
premium screen adds total completions, the average completion rate, the best
streak and a seven-day histogram. Without premium, a user may hold at most
three habits.

This project models the parts of the app that decide those numbers and states:

- `habit_service.dfy` (module `HabitService`) is the habit engine:
  - creating a habit;
  - toggling today's completion;
  - the streak summary: the current streak with its grace for a day not yet
    done, the longest streak and the last completed day;
  - the completion rate.
- `home_screen.dfy` (module `Home`) is the home screen:
  - a class whose `habits` and `storage` fields the handlers update;
  - the add handler, capped for the free tier;
  - the toggle-by-id and delete-by-id handlers;
  - the "completed today" count and the overall streak.
- `analytics_screen.dfy` (module `Analytics`) is the premium analytics screen:
  - its gate;
  - its statistics;
  - the seven-day loop.
- `legacy_app.dfy` (module `Legacy`) is the older single-file app. It has
  habits without an owner, an anonymous device id, a name check done with
  `trim`, and a streak with no grace.
- `session.dfy` (module `Session`) is the session of the entry point:
  sign-up, sign-in, sign-out and subscribe, over the `user` state and the
  stored user.
- `types.dfy` (module `Types`) holds the records and the local key/value
  store.
- `text.dfy` (module `Text`) holds ECMAScript `String.prototype.trim`.

How the model represents the app:

- **Days.** A calendar day is an integer, counting days since 1970-01-01 in
  UTC. The app keys days by `YYYY-MM-DD` text. With four-digit years, that
  text sorts as these numbers do, and "the day before" is `d - 1`.
- **The clock.** Every reading of the clock becomes a parameter:
  - `today`;
  - `nowMs`, the epoch milliseconds that `getCompletionRate` reads;
  - the ids built from `Date.now()`.
- **Storage.** The store is a map from keys to parsed values.
- **Rounding.** `Math.round(p / q)` for `p >= 0` and `q > 0` is written
  exactly as `(2p + q) / (2q)`.

The completion rate follows the code as written. `totalDays` is
`ceil((now - createdAt) / day) + 1`, and `createdAt` parses to UTC midnight of
the creation day. So at any instant after midnight, `totalDays` is the number
of days from creation through today plus one. A habit created and completed
on the same day therefore reports 50%, not 100%. Only exactly at midnight does
it report 100%. Rates are not capped, so three completions on the creation day
report 150%. The lemmas `TotalDaysByDay` and `RateOnCreationDay` state this
behaviour, and the averages in `Analytics` use it unchanged.

## Model

| member | source | states |
|---|---|---|
| Types.StoredUser | src/services/storage.ts:8-16 | a user is read exactly when the user key holds a user record, and the user read is that record's user |
| Types.StoredHabits | src/services/storage.ts:35-43 | when the habits key holds a list, that list is what is read; otherwise the empty list is read |
| Types.WithHabits | src/services/storage.ts:45-51 | after storing, the list reads back as stored, the stored user is unchanged and no other key appears or disappears |
| Types.WithUser | src/services/storage.ts:18-24 | the user reads back as stored and the stored habits are unchanged |
| Types.WithoutUser | src/services/storage.ts:26-32 | no user reads back and the stored habits are unchanged |
| Text.TrimStart | src/services/habit.ts:10 | the result is a suffix, the dropped prefix is all white space, and the result does not start with white space |
| Text.TrimEnd | src/services/habit.ts:10 | the result is a prefix, the dropped suffix is all white space, and the result does not end with white space |
| Text.Trim | src/services/habit.ts:10 | the result is the slice of the input between its leading and its trailing white space, and it neither starts nor ends with white space |
| Text.TrimEmptyIffBlank | App.tsx:52-55 | a name trims to empty exactly when it is all white space |
| Text.TrimIdempotent | src/services/habit.ts:10 | trimming a trimmed name changes nothing |
| HabitService.DayOf | src/services/habit.ts:7 | the day of an instant is the UTC day that contains it: its midnight is at or before the instant and the next midnight after it |
| HabitService.CreateHabit | src/services/habit.ts:6-16 | the new habit has the given id, color, owner and creation day, the trimmed name, and no completed dates (so no duplicates) |
| HabitService.CreatedHabitIsFresh | src/services/habit.ts:6-35 | a new habit has streak summary (0, 0, none), and toggling it on its creation day yields exactly that day |
| HabitService.RemoveDay | src/services/habit.ts:26 | the filter never grows the list and leaves a list without the day unchanged |
| HabitService.RemoveDayRemovesExactly | src/services/habit.ts:26 | the filter drops every occurrence of the day and keeps every other date as often as it occurs |
| HabitService.RemoveDayAppend | src/services/habit.ts:26 | the filter acts piece by piece on a concatenation, so it keeps the order of the rest |
| HabitService.ToggleDates | src/services/habit.ts:21-27 | today's membership flips, every other date keeps its count, and duplicate-free dates stay duplicate-free |
| HabitService.ToggleHabit | src/services/habit.ts:19-29 | the dates become ToggleDates of the old dates and every other field is unchanged |
| HabitService.ToggleTwice | src/services/habit.ts:19-29 | a second toggle restores the dates: the same list if today was absent, otherwise the list without today followed by today, and the same set of dates in both cases |
| HabitService.Run | src/services/habit.ts:55-63 | the `n` days ending at `d` are all completed and the day before them is not |
| HabitService.CurrentStreak | src/services/habit.ts:46-63 | the streak is 0 exactly when neither today nor yesterday is done; it is the run ending today when today is done, otherwise the run ending yesterday |
| HabitService.CountCurrentStreak | src/services/habit.ts:42-63 | the start-from-today-or-yesterday step and the `while (true)` loop compute CurrentStreak |
| HabitService.Insert | src/services/habit.ts:66 | insertion adds one element |
| HabitService.InsertAddsOne | src/services/habit.ts:66 | insertion adds exactly one occurrence of the element |
| HabitService.InsertSorted | src/services/habit.ts:66 | insertion into an ascending list keeps it ascending |
| HabitService.SortAsc | src/services/habit.ts:66 | the sort keeps the length |
| HabitService.SortAscIsSortedPermutation | src/services/habit.ts:66 | the sort returns an ascending permutation of the dates |
| HabitService.Reverse | src/services/habit.ts:38 | `reverse` puts element `i` at position `n - 1 - i` |
| HabitService.MaxDay | src/services/habit.ts:87 | the latest day is a completed day and no completed day is later |
| HabitService.LastOfSortedIsMax | src/services/habit.ts:87 | the first element of the descending sort, which is the last of the ascending one, is the latest completed day |
| HabitService.LastIsGreatest | src/services/habit.ts:87 | in any ascending arrangement of a list, the last element is the list's greatest element |
| HabitService.RunEndingAt | src/services/habit.ts:70-81 | the running streak at index `i` is between 1 and `i + 1` |
| HabitService.RunEndingAtIsMaximalBlock | src/services/habit.ts:70-81 | the running streak measures a block of consecutive days that cannot be extended to the left |
| HabitService.BestRun | src/services/habit.ts:66-82 | the best running streak over a prefix is at least every running streak in it and equals one of them |
| HabitService.LongestStreak | src/services/habit.ts:66-82 | the longest streak is 0 for no dates and otherwise between 1 and the number of dates |
| HabitService.BlockWithinRun | src/services/habit.ts:70-81 | a block of consecutive days is no longer than the running streak at its end |
| HabitService.LongestStreakIsLongestBlock | src/services/habit.ts:66-82 | the longest streak is the length of a longest block of consecutive days in the sorted dates: one block has it, none is longer |
| HabitService.SortedDistinctIsStrict | src/services/habit.ts:66-82 | sorted dates without duplicates are strictly increasing |
| HabitService.FilledBlock | src/services/habit.ts:66-82 | strictly increasing dates that hold every day of a range form a block there |
| HabitService.LongestAtLeastCurrent | src/services/habit.ts:43-82 | with duplicate-free dates, the longest streak is at least the current streak |
| HabitService.RunWithinSorted | src/services/habit.ts:43-82 | a run of `n` completed days gives a block of length at least `n` in the sorted dates |
| HabitService.RunIsBlock | src/services/habit.ts:66-82 | strictly increasing dates that hold every day of a run have a best block at least as long as the run |
| HabitService.StreakOf | src/services/habit.ts:32-89 | the summary for no dates is (0, 0, none); otherwise the last date is the latest completed day, the longest streak is between 1 and the number of dates, the current streak is 0 exactly when neither today nor yesterday is done, and it never exceeds the longest when dates are duplicate-free |
| HabitService.CountLongestStreak | src/services/habit.ts:66-82 | the `for` loop over the ascending dates computes the best block length |
| HabitService.GetStreak | src/services/habit.ts:32-89 | `getStreak` returns StreakOf of the habit's dates |
| HabitService.CeilDays | src/services/habit.ts:95 | `Math.ceil(ms / day)` is the `q` with `(q - 1) * day < ms <= q * day` |
| HabitService.RoundDiv | src/services/habit.ts:96 | rounding a non-negative quotient gives a non-negative result |
| HabitService.RoundDivIsNearest | src/services/habit.ts:96 | the rounded quotient `r` satisfies `q(2r - 1) <= 2p < q(2r + 1)`, i.e. it is the nearest integer with halves rounded up |
| HabitService.TotalDays | src/services/habit.ts:95 | `totalDays` is at least 1 |
| HabitService.TotalDaysByDay | src/services/habit.ts:95 | off midnight, totalDays is the number of days from creation through today plus one; exactly at midnight it is that number |
| HabitService.CompletionRate | src/services/habit.ts:92-97 | a habit with no completions has rate 0 |
| HabitService.CompletionRateIsRoundedPercentage | src/services/habit.ts:92-97 | the rate is 100 × completions / totalDays rounded to the nearest integer, with no cap at 100 |
| HabitService.RateOnCreationDay | src/services/habit.ts:92-97 | on its creation day a habit scores 50 per completion after midnight and 100 per completion at midnight |
| Home.ToggleById | src/screens/HomeScreen.tsx:61-66 | the length is kept, habits with another id are unchanged, and habits with the id are toggled |
| Home.DeleteById | src/screens/HomeScreen.tsx:81 | exactly the habits whose id differs remain, and the list never grows |
| Home.DeleteByIdKeepsOrder | src/screens/HomeScreen.tsx:81 | the filter acts piece by piece on a concatenation, keeping order, and leaves a list without the id unchanged |
| Home.AppendWellFormed | src/screens/HomeScreen.tsx:55 | appending a habit with duplicate-free dates keeps every habit's dates duplicate-free |
| Home.ToggleByIdPreserves | src/screens/HomeScreen.tsx:60-69 | toggling by id changes only completed dates and keeps every habit's dates duplicate-free |
| Home.CompletedOn | src/screens/HomeScreen.tsx:90 | the count of habits done on a day is at most the number of habits |
| Home.CompletedOnExtremes | src/screens/HomeScreen.tsx:90 | the count is 0 exactly when no habit was done that day, and all habits exactly when every habit was |
| Home.MinCurrentStreak | src/screens/HomeScreen.tsx:92-94 | the minimum is at most every habit's current streak and equals one of them |
| Home.OverallStreak | src/screens/HomeScreen.tsx:92-94 | the overall streak is 0 without habits, otherwise the smallest current streak |
| Home.OverallStreakPositive | src/screens/HomeScreen.tsx:92-94 | the overall streak is positive exactly when every habit was done today or yesterday |
| Home.HomeScreen.constructor | src/screens/HomeScreen.tsx:23-24 | the screen starts with no habits, for the given user and store |
| Home.HomeScreen.LoadHabits | src/screens/HomeScreen.tsx:34-37 | the state takes the stored list and the store is unchanged |
| Home.HomeScreen.HandleAddHabit | src/screens/HomeScreen.tsx:39-58 | the add is refused exactly when a user without premium already has 3 or more habits, and then nothing changes; otherwise the created habit is appended and the list stored; a free user at or under the cap stays at or under it, and duplicate-free dates stay duplicate-free |
| Home.HomeScreen.HandleToggleHabit | src/screens/HomeScreen.tsx:60-69 | state and store become the toggled list, and duplicate-free dates stay duplicate-free |
| Home.HomeScreen.HandleDeleteHabit | src/screens/HomeScreen.tsx:71-88 | without confirmation nothing changes; with it, state and store become the filtered list |
| Home.HomeScreen.CompletedToday | src/screens/HomeScreen.tsx:90 | "completed today" is at most the number of habits |
| Analytics.TotalCompletions | src/screens/AnalyticsScreen.tsx:28 | the total is 0 exactly when no habit has a completion |
| Analytics.TotalCompletionsAppend | src/screens/AnalyticsScreen.tsx:28 | the total adds up over a split of the habits |
| Analytics.CompletedOnAtMostTotal | src/screens/AnalyticsScreen.tsx:28-43 | no day of the histogram exceeds the total completions |
| Analytics.AverageCompletionRate | src/screens/AnalyticsScreen.tsx:29-31 | the average is 0 without habits |
| Analytics.AverageIsRoundedMean | src/screens/AnalyticsScreen.tsx:29-31 | with habits, the average is the mean of the rates rounded to the nearest integer |
| Analytics.SumRates | src/screens/AnalyticsScreen.tsx:30 | the `reduce` sum of the rates is 0 without habits and at least the rate of every habit |
| Analytics.SumRatesAppend | src/screens/AnalyticsScreen.tsx:30 | the sum of the rates adds up over a split of the habits |
| Analytics.SumRatesBounds | src/screens/AnalyticsScreen.tsx:30 | a sum of rates lies between n × lowest and n × highest bound |
| Analytics.AverageWithinBounds | src/screens/AnalyticsScreen.tsx:29-31 | the average lies between any lower and upper bound of the individual rates |
| Analytics.MaxLongestStreak | src/screens/AnalyticsScreen.tsx:32-34 | the maximum is at least every habit's longest streak and equals one of them |
| Analytics.BestStreak | src/screens/AnalyticsScreen.tsx:32-34 | the best streak is 0 without habits, otherwise the greatest longest streak |
| Analytics.BestStreakBoundsCurrent | src/screens/AnalyticsScreen.tsx:32-34 | with duplicate-free dates, the best streak is at least every habit's current streak |
| Analytics.WeekCounts | src/screens/AnalyticsScreen.tsx:36-44 | seven entries; entry k counts the habits done `6 - k` days before today and is at most the number of habits |
| Analytics.WeekProgress | src/screens/AnalyticsScreen.tsx:36-44 | the loop from `i = 6` down to 0 builds exactly WeekCounts |
| Analytics.MaxWeekProgress | src/screens/AnalyticsScreen.tsx:46 | the bar scale is at least 1 and at least every entry, and it is 1 or an entry |
| Analytics.AnalyticsScreen | src/screens/AnalyticsScreen.tsx:14-46 | the screen is locked exactly without premium; otherwise it shows the total, the average, the best streak, the seven-day histogram at the UTC day of `nowMs`, and its scale |
| Legacy.StoredUserId | App.tsx:31-32 | a device id is read exactly when a non-empty id is stored under `userId`, and it is that id |
| Legacy.ToggleToday | App.tsx:70-77 | the dates become ToggleDates of the old dates, the same date logic as `toggleHabit` in the habit service, and every other field is unchanged |
| Legacy.ToggleById | App.tsx:68-80 | the length is kept, and only habits with the id are toggled |
| Legacy.DeleteById | App.tsx:91 | exactly the habits whose id differs remain |
| Legacy.DeleteByIdKeepsOrder | App.tsx:91 | the filter acts piece by piece on a concatenation, keeping order, and leaves a list without the id unchanged |
| Legacy.NoGraceStreak | App.tsx:97-113 | the streak is 0 exactly when today is not done; otherwise it counts the completed days ending today, and the day before them is not done |
| Legacy.NoGraceVersusGrace | App.tsx:97-113 | this streak equals the current streak of the habit engine when today is done, is 0 otherwise, never exceeds it, and is strictly smaller when only yesterday is done |
| Legacy.GetStreak | App.tsx:97-113 | the `while (true)` loop computes NoGraceStreak; its second branch is unreachable |
| Legacy.CompletedOn | App.tsx:115 | "completed today" is at most the number of habits |
| Legacy.OverallStreak | App.tsx:117 | 0 without habits, otherwise the smallest streak |
| Legacy.OverallStreakPositive | App.tsx:115-117 | the overall streak is positive exactly when every habit is done today, i.e. when completedToday equals the number of habits |
| Legacy.App.constructor | App.tsx:17-21 | the app starts with no habits, an empty name field, the dialog closed, the first color selected and no device id |
| Legacy.App.LoadUser | App.tsx:29-44 | the stored device id is used, or the fresh one is used and stored; the stored habit list, when present, replaces the state |
| Legacy.App.SaveHabits | App.tsx:46-49 | state and store both become the new list, and nothing else changes |
| Legacy.App.AddHabit | App.tsx:51-66 | a name blank after trimming is rejected and nothing changes; otherwise a habit with the trimmed name, the selected color, no dates and today's date is appended and stored, the field is cleared and the dialog closed; there is no count limit |
| Legacy.App.ToggleHabit | App.tsx:68-82 | state and store become the toggled list |
| Legacy.App.DeleteHabit | App.tsx:84-95 | without confirmation nothing changes; with it, state and store become the filtered list |
| Legacy.App.CompletedToday | App.tsx:115 | "completed today" is at most the number of habits |
| Legacy.App.CurrentOverallStreak | App.tsx:115-117 | 0 without habits; otherwise the smallest no-grace streak of the habits, positive exactly when every habit is done today |
| Session.NewUser | src/App.tsx:36-41 | the new user has the given id, email and creation day, and is not premium |
| Session.Subscribed | src/App.tsx:75 | the user becomes premium and keeps id, email and creation day; an already premium user is unchanged |
| Session.SubscribeIdempotent | src/App.tsx:73-79 | subscribing twice is subscribing once, and subscribing changes a new user |
| Session.App.constructor | src/App.tsx:11-14 | the session starts signed out, with empty fields and not loading |
| Session.App.CheckUser | src/App.tsx:23-28 | a stored user becomes the session user; without one nothing changes |
| Session.App.HandleSignUp | src/App.tsx:30-46 | with an empty email or password nothing changes; otherwise a new non-premium user with that email is signed in and stored, and loading ends; stored and session user stay in step |
| Session.App.HandleSignIn | src/App.tsx:48-64 | the same effect as sign-up: no credential is checked |
| Session.App.HandleSignOut | src/App.tsx:66-71 | the stored user is removed, the session ends and both fields are cleared; the stored habits stay |
| Session.App.HandleSubscribe | src/App.tsx:73-79 | without a user nothing changes; otherwise the session user becomes premium and is stored |

## Left out

- Rendering, styles, navigation tabs, modals and alerts are left out. Only the choice an alert offers is kept, as a parameter: `confirmed` for delete, and the returned flag for the free-tier limit.
- Local storage is modelled as a map of parsed values. JSON encoding and decoding are library behaviour and are not modelled, and neither are the swallowed storage errors.
- The handlers are modelled as if each ran to completion at once. The source does not await the store writes, and that ordering is not modelled.
- The real clock, time zones and daylight saving time are left out. Days are UTC day numbers. The source steps its streak cursor with local-time `setDate` but reads the day in UTC, and that mismatch is not modelled.
- Dates are compared and sorted as numbers. JavaScript sorts them as `YYYY-MM-DD` strings, which gives the same order for four-digit years.
- HabitService.CompletionRate: the source computes `Math.round((n / totalDays) * 100)` in floating point, and the model rounds the exact quotient. The two can differ: with 29 completions and `totalDays` 200, `0.145 * 100` is `14.499999999999998` in floating point, so the source reports 14 where the model reports 15.
- Floating point is left out. `Math.round` of a non-negative quotient is modelled with exact integers. The histogram bar heights are not modelled.
- Home.HomeScreen.HandleAddHabit: the source's `if (!user) return` guard is not modelled, because the screen's user is never null in the model's types. The add dialog, which refuses blank names before calling this handler, is not part of this model.
- `isAtLimit` in src/components/AddHabitModal.tsx is not modelled. The modal computes it and never uses it, and the modal is not part of this model.
- Cloud sync, the hosted database client, in-app purchases and notifications are not part of this model. Subscribing is modelled only as the local state change.
- The sign-up/sign-in toggle of the auth screen (`isSignUp`) is left out. Both handlers have the same effect, so the toggle only changes labels.
- Session.App.HandleSignUp and Session.App.HandleSignIn: the intermediate `isLoading = true` is not observable once the handler completes, so only the final `false` is stated.
