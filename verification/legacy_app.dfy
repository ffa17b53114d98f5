/** The older single-screen app: habits without an owner, an anonymous device
    user id, the add/toggle/delete handlers and a current streak that has no
    grace for a day not yet completed. */
module Legacy {
  import opened Types
  import opened Text
  import opened HabitService

  datatype LegacyHabit = LegacyHabit(
    id: string,
    name: string,
    color: string,
    completedDates: seq<Day>,
    createdAt: Day)

  /** The palette of the add dialog; the first entry is preselected. */
  const Colors: seq<string> :=
    ["#EF4444", "#F97316", "#EAB308", "#22C55E", "#06B6D4", "#3B82F6", "#8B5CF6", "#EC4899"]

  /** The key of the anonymous device id; the habit list lives under `HabitsKey`. */
  const UserIdKey: string := "userId"

  /** What the device store holds under a key, once parsed. */
  datatype LegacyStored = UserIdEntry(userId: string) | HabitsEntry(habits: seq<LegacyHabit>)

  type LegacyStore = map<string, LegacyStored>

  /** The stored device id, when there is a non-empty one. */
  function StoredUserId(store: LegacyStore): (r: Option<string>)
    ensures r.Some? ==> r.value != [] && UserIdKey in store && store[UserIdKey] == UserIdEntry(r.value)
    ensures UserIdKey in store && store[UserIdKey].UserIdEntry? && store[UserIdKey].userId != [] ==> r.Some?
  {
    if UserIdKey in store && store[UserIdKey].UserIdEntry? && store[UserIdKey].userId != []
    then Some(store[UserIdKey].userId) else None
  }

  // ---------------------------------------------------------------------------
  // The arrays the handlers build

  /** The inline toggle of `toggleHabit`: today is removed if present, appended otherwise. */
  function ToggleToday(h: LegacyHabit, today: Day): (r: LegacyHabit)
    ensures r.completedDates == ToggleDates(h.completedDates, today)
    ensures r == h.(completedDates := r.completedDates)
  {
    h.(completedDates := ToggleDates(h.completedDates, today))
  }

  /** `habits.map(...)` of `toggleHabit`. */
  function ToggleById(habits: seq<LegacyHabit>, habitId: string, today: Day): (r: seq<LegacyHabit>)
    ensures |r| == |habits|
    ensures forall i :: 0 <= i < |habits| && habits[i].id != habitId ==> r[i] == habits[i]
    ensures forall i :: 0 <= i < |habits| && habits[i].id == habitId ==> r[i] == ToggleToday(habits[i], today)
  {
    if habits == [] then []
    else
      var h := habits[0];
      [if h.id == habitId then ToggleToday(h, today) else h] + ToggleById(habits[1..], habitId, today)
  }

  /** `habits.filter(h => h.id !== habitId)`. */
  function DeleteById(habits: seq<LegacyHabit>, habitId: string): (r: seq<LegacyHabit>)
    ensures forall h :: h in r <==> h in habits && h.id != habitId
    ensures |r| <= |habits|
  {
    if habits == [] then []
    else
      assert habits == [habits[0]] + habits[1..];
      var rest := DeleteById(habits[1..], habitId);
      if habits[0].id == habitId then rest else [habits[0]] + rest
  }

  /** Deleting keeps the remaining habits in their original order. */
  lemma {:induction false} DeleteByIdKeepsOrder(a: seq<LegacyHabit>, b: seq<LegacyHabit>, habitId: string)
    ensures DeleteById(a + b, habitId) == DeleteById(a, habitId) + DeleteById(b, habitId)
    ensures (forall h :: h in a ==> h.id != habitId) ==> DeleteById(a, habitId) == a
  {
    if a != [] {
      assert (a + b)[1..] == a[1..] + b;
      assert a == [a[0]] + a[1..];
      DeleteByIdKeepsOrder(a[1..], b, habitId);
    } else {
      assert a + b == b;
    }
  }

  // ---------------------------------------------------------------------------
  // Streak without grace

  /** The streak of this app: the run of completed days ending today. */
  function NoGraceStreak(dates: seq<Day>, today: Day): (n: nat)
    ensures n == 0 <==> today !in dates
    ensures forall x :: today - n < x <= today ==> x in dates
    ensures today - n !in dates
  {
    Run(dates, today)
  }

  /** Compared with the streak of `HabitService`, the two agree when today is
      completed; otherwise this one is 0 while the other may still count the
      run ending yesterday. */
  lemma NoGraceVersusGrace(dates: seq<Day>, today: Day)
    ensures today in dates ==> NoGraceStreak(dates, today) == CurrentStreak(dates, today)
    ensures today !in dates ==> NoGraceStreak(dates, today) == 0
    ensures NoGraceStreak(dates, today) <= CurrentStreak(dates, today)
    ensures today !in dates && today - 1 in dates ==> NoGraceStreak(dates, today) < CurrentStreak(dates, today)
  {
  }

  /** `getStreak(habit)` on day `today`: the cursor starts at today and moves
      back while the day under it is completed. */
  method GetStreak(h: LegacyHabit, today: Day) returns (streak: nat)
    ensures streak == NoGraceStreak(h.completedDates, today)
  {
    var dates := h.completedDates;
    streak := 0;
    var checkDate := today;
    while true
      invariant checkDate == today - streak
      invariant streak + Run(dates, checkDate) == Run(dates, today)
      decreases DaysUpTo(dates, checkDate)
    {
      if checkDate in dates {
        assert checkDate in DaysUpTo(dates, checkDate) - DaysUpTo(dates, checkDate - 1);
        streak := streak + 1;
        checkDate := checkDate - 1;
      } else if checkDate == today && today in dates {
        // the first test already accepts every completed day, today included
        assert false;
      } else {
        break;
      }
    }
  }

  // ---------------------------------------------------------------------------
  // Aggregates

  /** `completedToday`. */
  function CompletedOn(habits: seq<LegacyHabit>, today: Day): (n: nat)
    ensures n <= |habits|
  {
    if habits == [] then 0
    else (if today in habits[0].completedDates then 1 else 0) + CompletedOn(habits[1..], today)
  }

  /** `overallStreak`: 0 without habits, otherwise the smallest streak. */
  function OverallStreak(habits: seq<LegacyHabit>, today: Day): (m: nat)
    ensures habits == [] ==> m == 0
    ensures forall h :: h in habits ==> m <= NoGraceStreak(h.completedDates, today)
    ensures habits != [] ==> exists h :: h in habits && m == NoGraceStreak(h.completedDates, today)
  {
    if habits == [] then 0
    else if |habits| == 1 then NoGraceStreak(habits[0].completedDates, today)
    else
      assert habits == [habits[0]] + habits[1..];
      var rest := OverallStreak(habits[1..], today);
      var first := NoGraceStreak(habits[0].completedDates, today);
      if first < rest then first else rest
  }

  /** The overall streak is positive exactly when every habit is completed
      today, that is when completedToday equals the number of habits. */
  lemma {:induction false} OverallStreakPositive(habits: seq<LegacyHabit>, today: Day)
    requires habits != []
    ensures OverallStreak(habits, today) > 0 <==> CompletedOn(habits, today) == |habits|
  {
    if |habits| > 1 {
      OverallStreakPositive(habits[1..], today);
    }
  }

  // ---------------------------------------------------------------------------
  // The app state

  class App {
    var habits: seq<LegacyHabit>
    /** The text field of the add dialog. */
    var newHabitName: string
    var showAddModal: bool
    var selectedColor: string
    /** The anonymous device id, once loaded. */
    var userId: Option<string>
    /** The device key/value store. */
    var storage: LegacyStore

    constructor (storage: LegacyStore)
      ensures habits == [] && newHabitName == "" && !showAddModal && selectedColor == Colors[0]
      ensures userId == None && this.storage == storage
    {
      habits := [];
      newHabitName := "";
      showAddModal := false;
      selectedColor := Colors[0];
      userId := None;
      this.storage := storage;
    }

    /** `loadUser`: the stored device id, or `freshId` (standing for
        `user_${Date.now()}`) which is then stored; the stored habit list
        replaces the state when there is one. */
    method LoadUser(freshId: string)
      requires freshId != []
      modifies this
      ensures old(StoredUserId(storage)).Some? ==>
        userId == old(StoredUserId(storage)) && storage == old(storage)
      ensures old(StoredUserId(storage)).None? ==>
        userId == Some(freshId) && storage == old(storage)[UserIdKey := UserIdEntry(freshId)]
      ensures StoredUserId(storage) == userId
      ensures HabitsKey in old(storage) && old(storage)[HabitsKey].HabitsEntry? ==>
        habits == old(storage)[HabitsKey].habits
      ensures !(HabitsKey in old(storage) && old(storage)[HabitsKey].HabitsEntry?) ==> habits == old(habits)
      ensures newHabitName == old(newHabitName) && showAddModal == old(showAddModal)
      ensures selectedColor == old(selectedColor)
    {
      var id := StoredUserId(storage);
      if id.None? {
        id := Some(freshId);
        storage := storage[UserIdKey := UserIdEntry(freshId)];
      }
      userId := id;
      if HabitsKey in storage && storage[HabitsKey].HabitsEntry? {
        habits := storage[HabitsKey].habits;
      }
    }

    /** `saveHabits(newHabits)`: the state and the stored list both become `newHabits`. */
    method SaveHabits(newHabits: seq<LegacyHabit>)
      modifies this
      ensures habits == newHabits && storage == old(storage)[HabitsKey := HabitsEntry(newHabits)]
      ensures StoredUserId(storage) == StoredUserId(old(storage))
      ensures newHabitName == old(newHabitName) && showAddModal == old(showAddModal)
      ensures selectedColor == old(selectedColor) && userId == old(userId)
    {
      habits := newHabits;
      storage := storage[HabitsKey := HabitsEntry(newHabits)];
    }

    /** `addHabit`: a name that is blank after trimming is rejected and nothing
        changes; otherwise a habit with the trimmed name and the selected color
        is appended (there is no count limit), the field is cleared and the
        dialog closed. `id` and `today` stand for the clock readings. */
    method AddHabit(id: string, today: Day) returns (rejected: bool)
      modifies this
      ensures rejected <==> Trim(old(newHabitName)) == []
      ensures rejected ==>
        && habits == old(habits) && storage == old(storage)
        && newHabitName == old(newHabitName) && showAddModal == old(showAddModal)
      ensures !rejected ==>
        && habits == old(habits) + [LegacyHabit(id, Trim(old(newHabitName)), old(selectedColor), [], today)]
        && storage == old(storage)[HabitsKey := HabitsEntry(habits)]
        && newHabitName == "" && !showAddModal
      ensures selectedColor == old(selectedColor) && userId == old(userId)
    {
      var name := Trim(newHabitName);
      if name == [] {
        return true;
      }
      var newHabit := LegacyHabit(id, name, selectedColor, [], today);
      var updated := habits + [newHabit];
      habits := updated;
      storage := storage[HabitsKey := HabitsEntry(updated)];
      newHabitName := "";
      showAddModal := false;
      rejected := false;
    }

    /** `toggleHabit(habitId)` on day `today`. */
    method ToggleHabit(habitId: string, today: Day)
      modifies this
      ensures habits == ToggleById(old(habits), habitId, today)
      ensures storage == old(storage)[HabitsKey := HabitsEntry(habits)]
      ensures newHabitName == old(newHabitName) && showAddModal == old(showAddModal)
      ensures selectedColor == old(selectedColor) && userId == old(userId)
    {
      SaveHabits(ToggleById(habits, habitId, today));
    }

    /** `deleteHabit(habitId)`: nothing happens unless the confirmation dialog
        is answered with Delete (`confirmed`). */
    method DeleteHabit(habitId: string, confirmed: bool)
      modifies this
      ensures !confirmed ==> habits == old(habits) && storage == old(storage)
      ensures confirmed ==> habits == DeleteById(old(habits), habitId)
      ensures confirmed ==> storage == old(storage)[HabitsKey := HabitsEntry(habits)]
      ensures newHabitName == old(newHabitName) && showAddModal == old(showAddModal)
      ensures selectedColor == old(selectedColor) && userId == old(userId)
    {
      if confirmed {
        SaveHabits(DeleteById(habits, habitId));
      }
    }

    /** `completedToday` over the current state. */
    function CompletedToday(today: Day): (n: nat)
      reads this
      ensures n <= |habits|
    {
      CompletedOn(habits, today)
    }

    /** `overallStreak` over the current state. */
    function CurrentOverallStreak(today: Day): (m: nat)
      reads this
      ensures habits == [] ==> m == 0
      ensures forall h :: h in habits ==> m <= NoGraceStreak(h.completedDates, today)
      ensures habits != [] ==> exists h :: h in habits && m == NoGraceStreak(h.completedDates, today)
      ensures habits != [] ==> (m > 0 <==> CompletedToday(today) == |habits|)
    {
      if habits == [] then 0
      else
        OverallStreakPositive(habits, today);
        OverallStreak(habits, today)
    }
  }
}
