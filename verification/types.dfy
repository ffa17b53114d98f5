/** Entities of the habit tracker: the user record, the habit record, the
    derived streak summary, the free-tier limit and the values the local
    key/value store holds. */
module Types {

  datatype Option<T> = None | Some(value: T)

  /** A calendar day: the number of days since 1970-01-01 (UTC). The app
      keys days by their ISO 8601 text `YYYY-MM-DD`; with four-digit years
      that text sorts exactly as these numbers do, and "the day before"
      is `d - 1`. */
  type Day = int

  datatype User = User(id: string, email: string, isPremium: bool, createdAt: Day)

  datatype Habit = Habit(
    id: string,
    name: string,
    color: string,
    completedDates: seq<Day>,
    createdAt: Day,
    userId: string)

  datatype StreakInfo = StreakInfo(
    currentStreak: nat,
    longestStreak: nat,
    lastCompletedDate: Option<Day>)

  /** LIMITS.freeMaxHabits: how many habits a user without premium may hold. */
  const FreeMaxHabits: nat := 3

  /** Keys of the local store (STORAGE_KEYS). */
  const UserKey: string := "user"
  const HabitsKey: string := "habits"

  /** What the local store holds under a key, once parsed. */
  datatype Stored = UserRecord(user: User) | HabitList(habits: seq<Habit>)

  type Store = map<string, Stored>

  /** StorageService.getUser: the stored user, or none. */
  function StoredUser(store: Store): (r: Option<User>)
    ensures r.Some? <==> UserKey in store && store[UserKey].UserRecord?
    ensures r.Some? ==> store[UserKey] == UserRecord(r.value)
  {
    if UserKey in store && store[UserKey].UserRecord? then Some(store[UserKey].user) else None
  }

  /** StorageService.getHabits: the stored habit list, or the empty list. */
  function StoredHabits(store: Store): (r: seq<Habit>)
    ensures r != [] ==> HabitsKey in store && store[HabitsKey] == HabitList(r)
    ensures HabitsKey in store && store[HabitsKey].HabitList? ==> store[HabitsKey] == HabitList(r)
    ensures !(HabitsKey in store && store[HabitsKey].HabitList?) ==> r == []
  {
    if HabitsKey in store && store[HabitsKey].HabitList? then store[HabitsKey].habits else []
  }

  /** StorageService.setHabits: the stored list is replaced; the stored user is kept. */
  function WithHabits(store: Store, habits: seq<Habit>): (r: Store)
    ensures StoredHabits(r) == habits
    ensures StoredUser(r) == StoredUser(store)
    ensures forall k :: k != HabitsKey ==> (k in r <==> k in store)
  {
    store[HabitsKey := HabitList(habits)]
  }

  /** StorageService.setUser: the stored user is replaced; the stored habits are kept. */
  function WithUser(store: Store, user: User): (r: Store)
    ensures StoredUser(r) == Some(user)
    ensures StoredHabits(r) == StoredHabits(store)
  {
    store[UserKey := UserRecord(user)]
  }

  /** StorageService.removeUser: no user is stored any more; the stored habits are kept. */
  function WithoutUser(store: Store): (r: Store)
    ensures StoredUser(r) == None
    ensures StoredHabits(r) == StoredHabits(store)
  {
    store - {UserKey}
  }
}
