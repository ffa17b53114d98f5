/** The session of the app entry point: signed out or signed in as a user,
    with sign-up, sign-in, sign-out and the premium subscription, each
    mirrored into the local store. */
module Session {
  import opened Types

  /** The user a sign-up or sign-in creates: `id` stands for `user_${Date.now()}`
      and `today` for the current UTC day. */
  function NewUser(id: string, email: string, today: Day): (u: User)
    ensures u.id == id && u.email == email && u.createdAt == today
    ensures !u.isPremium
  {
    User(id, email, false, today)
  }

  /** `{ ...user, isPremium: true }`. */
  function Subscribed(u: User): (r: User)
    ensures r.isPremium
    ensures r.id == u.id && r.email == u.email && r.createdAt == u.createdAt
    ensures u.isPremium ==> r == u
  {
    u.(isPremium := true)
  }

  /** Subscribing twice is subscribing once, and a freshly created user is
      never premium until it subscribes. */
  lemma SubscribeIdempotent(u: User, id: string, email: string, today: Day)
    ensures Subscribed(Subscribed(u)) == Subscribed(u)
    ensures Subscribed(NewUser(id, email, today)) != NewUser(id, email, today)
  {
    assert Subscribed(NewUser(id, email, today)).isPremium;
  }

  class App {
    /** The signed-in user, or none on the sign-in screen. */
    var user: Option<User>
    /** The text fields of the sign-in screen. */
    var email: string
    var password: string
    var isLoading: bool
    /** The local key/value store. */
    var storage: Store

    /** The stored user is the user of the session. */
    predicate Synced()
      reads this
    {
      StoredUser(storage) == user
    }

    constructor (storage: Store)
      ensures user == None && email == "" && password == "" && !isLoading
      ensures this.storage == storage
    {
      user := None;
      email := "";
      password := "";
      isLoading := false;
      this.storage := storage;
    }

    /** `checkUser`: a stored user, when there is one, becomes the session user. */
    method CheckUser()
      modifies this
      ensures StoredUser(old(storage)).Some? ==> user == StoredUser(old(storage)) && Synced()
      ensures StoredUser(old(storage)).None? ==> user == old(user)
      ensures storage == old(storage) && email == old(email) && password == old(password)
      ensures isLoading == old(isLoading)
    {
      var savedUser := StoredUser(storage);
      if savedUser.Some? {
        user := savedUser;
      }
    }

    /** `handleSignUp`: nothing happens while the email or the password field
        is empty; otherwise a new user, not premium, is stored and signed in. */
    method HandleSignUp(id: string, today: Day)
      modifies this
      ensures old(email) == [] || old(password) == [] ==>
        user == old(user) && storage == old(storage) && isLoading == old(isLoading)
      ensures old(email) != [] && old(password) != [] ==>
        && user == Some(NewUser(id, old(email), today))
        && storage == WithUser(old(storage), user.value)
        && !isLoading
      ensures old(Synced()) ==> Synced()
      ensures email == old(email) && password == old(password)
    {
      if email == [] || password == [] {
        return;
      }
      isLoading := true;
      var newUser := NewUser(id, email, today);
      storage := WithUser(storage, newUser);
      user := Some(newUser);
      isLoading := false;
    }

    /** `handleSignIn`: the same steps as `handleSignUp`; no credentials are checked. */
    method HandleSignIn(id: string, today: Day)
      modifies this
      ensures old(email) == [] || old(password) == [] ==>
        user == old(user) && storage == old(storage) && isLoading == old(isLoading)
      ensures old(email) != [] && old(password) != [] ==>
        && user == Some(NewUser(id, old(email), today))
        && storage == WithUser(old(storage), user.value)
        && !isLoading
      ensures old(Synced()) ==> Synced()
      ensures email == old(email) && password == old(password)
    {
      if email == [] || password == [] {
        return;
      }
      isLoading := true;
      var newUser := NewUser(id, email, today);
      storage := WithUser(storage, newUser);
      user := Some(newUser);
      isLoading := false;
    }

    /** `handleSignOut`: the stored user is removed, the session ends and the
        fields are cleared; the stored habits stay. */
    method HandleSignOut()
      modifies this
      ensures storage == WithoutUser(old(storage))
      ensures user == None && email == "" && password == ""
      ensures Synced() && StoredHabits(storage) == StoredHabits(old(storage))
      ensures isLoading == old(isLoading)
    {
      storage := WithoutUser(storage);
      user := None;
      email := "";
      password := "";
    }

    /** `handleSubscribe`: without a user nothing happens; otherwise the user
        becomes premium, keeping id, email and creation day, and is stored. */
    method HandleSubscribe()
      modifies this
      ensures old(user).None? ==> user == None && storage == old(storage)
      ensures old(user).Some? ==>
        && user == Some(Subscribed(old(user).value))
        && storage == WithUser(old(storage), user.value)
      ensures old(Synced()) ==> Synced()
      ensures email == old(email) && password == old(password) && isLoading == old(isLoading)
    {
      if user.Some? {
        var premiumUser := Subscribed(user.value);
        storage := WithUser(storage, premiumUser);
        user := Some(premiumUser);
      }
    }
  }
}
