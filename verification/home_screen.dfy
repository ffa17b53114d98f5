/** The home screen: the habit collection held in screen state, its three
    handlers (add with the free-tier cap, toggle by id, delete by id) and the
    "completed today" and "weakest link" aggregates. */
module Home {
  import opened Types
  import opened Text
  import opened HabitService

  // ---------------------------------------------------------------------------
  // The arrays the handlers build

  /** `habits.map(h => h.id === habitId ? toggleHabit(h) : h)`. */
  function ToggleById(habits: seq<Habit>, habitId: string, today: Day): (r: seq<Habit>)
    ensures |r| == |habits|
    ensures forall i :: 0 <= i < |habits| && habits[i].id != habitId ==> r[i] == habits[i]
    ensures forall i :: 0 <= i < |habits| && habits[i].id == habitId ==> r[i] == ToggleHabit(habits[i], today)
  {
    if habits == [] then []
    else
      var h := habits[0];
      [if h.id == habitId then ToggleHabit(h, today) else h] + ToggleById(habits[1..], habitId, today)
  }

  /** `habits.filter(h => h.id !== habitId)`. */
  function DeleteById(habits: seq<Habit>, habitId: string): (r: seq<Habit>)
    ensures forall h :: h in r <==> h in habits && h.id != habitId
    ensures |r| <= |habits|
  {
    if habits == [] then []
    else
      assert habits == [habits[0]] + habits[1..];
      var rest := DeleteById(habits[1..], habitId);
      if habits[0].id == habitId then rest else [habits[0]] + rest
  }

  /** Deleting keeps the remaining habits in their original order: it acts on
      a concatenation piece by piece, and leaves a list without the id as it is. */
  lemma {:induction false} DeleteByIdKeepsOrder(a: seq<Habit>, b: seq<Habit>, habitId: string)
    ensures DeleteById(a + b, habitId) == DeleteById(a, habitId) + DeleteById(b, habitId)
    ensures (forall h :: h in a ==> h.id != habitId) ==> DeleteById(a, habitId) == a
  {
    if a != [] {
      assert (a + b)[1..] == a[1..] + b;
      assert a == [a[0]] + a[1..];
      DeleteByIdKeepsOrder(a[1..], b, habitId);
    } else {
      assert a + b == b;
    }
  }

  /** Every habit keeps duplicate-free dates. */
  predicate AllWellFormed(habits: seq<Habit>) {
    forall h :: h in habits ==> NoDuplicates(h.completedDates)
  }

  /** Appending a habit with duplicate-free dates keeps the collection well formed. */
  lemma AppendWellFormed(habits: seq<Habit>, h: Habit)
    requires NoDuplicates(h.completedDates)
    ensures AllWellFormed(habits) ==> AllWellFormed(habits + [h])
  {
    forall g | g in habits + [h] ensures g in habits || g == h {
      var i :| 0 <= i < |habits + [h]| && (habits + [h])[i] == g;
      if i < |habits| {
        assert habits[i] == g;
      }
    }
  }

  /** Toggling keeps ids, names and every other field, and keeps dates duplicate-free. */
  lemma ToggleByIdPreserves(habits: seq<Habit>, habitId: string, today: Day)
    ensures var r := ToggleById(habits, habitId, today);
      && (forall i :: 0 <= i < |habits| ==> r[i] == habits[i].(completedDates := r[i].completedDates))
      && (AllWellFormed(habits) ==> AllWellFormed(r))
  {
    var r := ToggleById(habits, habitId, today);
    if AllWellFormed(habits) {
      forall h | h in r ensures NoDuplicates(h.completedDates) {
        var i :| 0 <= i < |r| && r[i] == h;
        assert habits[i] in habits;
      }
    }
  }

  // ---------------------------------------------------------------------------
  // Aggregates

  /** `habits.filter(h => h.completedDates.includes(day)).length`. */
  function CompletedOn(habits: seq<Habit>, day: Day): (n: nat)
    ensures n <= |habits|
  {
    if habits == [] then 0
    else (if day in habits[0].completedDates then 1 else 0) + CompletedOn(habits[1..], day)
  }

  /** The count is 0 exactly when no habit was done on `day`, and the whole
      collection exactly when every habit was. */
  lemma {:induction false} CompletedOnExtremes(habits: seq<Habit>, day: Day)
    ensures CompletedOn(habits, day) == 0 <==> forall h :: h in habits ==> day !in h.completedDates
    ensures CompletedOn(habits, day) == |habits| <==> forall h :: h in habits ==> day in h.completedDates
  {
    if habits != [] {
      assert habits == [habits[0]] + habits[1..];
      CompletedOnExtremes(habits[1..], day);
    }
  }

  /** The smallest current streak of a non-empty collection. */
  function MinCurrentStreak(habits: seq<Habit>, today: Day): (m: nat)
    requires habits != []
    ensures forall h :: h in habits ==> m <= CurrentStreak(h.completedDates, today)
    ensures exists h :: h in habits && m == CurrentStreak(h.completedDates, today)
  {
    if |habits| == 1 then CurrentStreak(habits[0].completedDates, today)
    else
      assert habits == [habits[0]] + habits[1..];
      var rest := MinCurrentStreak(habits[1..], today);
      var first := CurrentStreak(habits[0].completedDates, today);
      if first < rest then first else rest
  }

  /** `overallStreak`: 0 without habits, otherwise the weakest current streak. */
  function OverallStreak(habits: seq<Habit>, today: Day): (m: nat)
    ensures habits == [] ==> m == 0
    ensures forall h :: h in habits ==> m <= CurrentStreak(h.completedDates, today)
    ensures habits != [] ==> exists h :: h in habits && m == CurrentStreak(h.completedDates, today)
  {
    if |habits| > 0 then MinCurrentStreak(habits, today) else 0
  }

  /** The weakest link is positive exactly when every habit was done today or yesterday. */
  lemma OverallStreakPositive(habits: seq<Habit>, today: Day)
    requires habits != []
    ensures OverallStreak(habits, today) > 0 <==>
      forall h :: h in habits ==> today in h.completedDates || today - 1 in h.completedDates
  {
    var m := OverallStreak(habits, today);
    if m == 0 {
      var h :| h in habits && m == CurrentStreak(h.completedDates, today);
      assert today !in h.completedDates && today - 1 !in h.completedDates;
    }
  }

  // ---------------------------------------------------------------------------
  // The screen state

  class HomeScreen {
    /** The signed-in user the screen was opened for. */
    const user: User
    /** The `habits` state cell. */
    var habits: seq<Habit>
    /** The local key/value store. */
    var storage: Store

    constructor (user: User, storage: Store)
      ensures this.user == user && habits == [] && this.storage == storage
    {
      this.user := user;
      this.habits := [];
      this.storage := storage;
    }

    /** `loadHabits`: the state takes the stored list (empty when nothing is stored). */
    method LoadHabits()
      modifies this
      ensures habits == StoredHabits(storage)
      ensures storage == old(storage)
    {
      habits := StoredHabits(storage);
    }

    /** `handleAddHabit(name, color)`: refused when the free tier is full,
        otherwise the created habit is appended and the list stored. `id` and
        `today` stand for the clock readings. */
    method HandleAddHabit(name: string, color: string, id: string, today: Day) returns (limitReached: bool)
      modifies this
      ensures limitReached <==> !user.isPremium && |old(habits)| >= FreeMaxHabits
      ensures limitReached ==> habits == old(habits) && storage == old(storage)
      ensures !limitReached ==> habits == old(habits) + [CreateHabit(name, color, user.id, id, today)]
      ensures !limitReached ==> storage == WithHabits(old(storage), habits)
      ensures !user.isPremium && |old(habits)| <= FreeMaxHabits ==> |habits| <= FreeMaxHabits
      ensures AllWellFormed(old(habits)) ==> AllWellFormed(habits)
    {
      if !user.isPremium && |habits| >= FreeMaxHabits {
        return true;
      }
      var newHabit := CreateHabit(name, color, user.id, id, today);
      var updatedHabits := habits + [newHabit];
      AppendWellFormed(habits, newHabit);
      habits := updatedHabits;
      storage := WithHabits(storage, updatedHabits);
      limitReached := false;
    }

    /** `handleToggleHabit(habitId)`. */
    method HandleToggleHabit(habitId: string, today: Day)
      modifies this
      ensures habits == ToggleById(old(habits), habitId, today)
      ensures storage == WithHabits(old(storage), habits)
      ensures AllWellFormed(old(habits)) ==> AllWellFormed(habits)
    {
      ToggleByIdPreserves(habits, habitId, today);
      var updatedHabits := ToggleById(habits, habitId, today);
      habits := updatedHabits;
      storage := WithHabits(storage, updatedHabits);
    }

    /** `handleDeleteHabit(habitId)`: nothing happens unless the confirmation
        dialog is answered with Delete (`confirmed`). */
    method HandleDeleteHabit(habitId: string, confirmed: bool)
      modifies this
      ensures !confirmed ==> habits == old(habits) && storage == old(storage)
      ensures confirmed ==> habits == DeleteById(old(habits), habitId)
      ensures confirmed ==> storage == WithHabits(old(storage), habits)
      ensures AllWellFormed(old(habits)) ==> AllWellFormed(habits)
    {
      if confirmed {
        var updatedHabits := DeleteById(habits, habitId);
        habits := updatedHabits;
        storage := WithHabits(storage, updatedHabits);
      }
    }

    /** `completedToday` over the current state. */
    function CompletedToday(today: Day): (n: nat)
      reads this
      ensures n <= |habits|
    {
      CompletedOn(habits, today)
    }
  }
}
