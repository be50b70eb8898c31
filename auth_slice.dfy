/** The client's authentication state and the reducers that change it:
    explicit login and logout, and the three outcomes of restoring a
    session after a page reload. */
module AuthSlice {
  import opened Values

  /** The roles the client knows. */
  datatype Role = Admin | Teacher | Student

  /** The user the client keeps once signed in. */
  datatype ClientUser = ClientUser(id: string, email: string, role: Role)

  class AuthState {
    var user: Option<ClientUser>
    var isAuthenticated: bool
    var isLoading: bool

    /** The client counts as signed in exactly when it holds a user. */
    ghost predicate Consistent()
      reads this
    {
      isAuthenticated <==> user.Some?
    }

    /** The initial state: nobody signed in, and loading until the session
        restore settles. */
    constructor ()
      ensures user.None? && !isAuthenticated && isLoading
      ensures Consistent()
    {
      user := None;
      isAuthenticated := false;
      isLoading := true;
    }

    /** `setUser`, after a login: signed in as `payload`, done loading. */
    method SetUser(payload: ClientUser)
      modifies this
      ensures user == Some(payload) && isAuthenticated && !isLoading
      ensures Consistent()
    {
      user := Some(payload);
      isAuthenticated := true;
      isLoading := false;
    }

    /** `logout`: nobody signed in, done loading. */
    method Logout()
      modifies this
      ensures user.None? && !isAuthenticated && !isLoading
      ensures Consistent()
    {
      user := None;
      isAuthenticated := false;
      isLoading := false;
    }

    /** A session restore has started: loading, and nothing else changes. */
    method RestorePending()
      modifies this
      ensures user == old(user) && isAuthenticated == old(isAuthenticated) && isLoading
      ensures old(Consistent()) ==> Consistent()
    {
      isLoading := true;
    }

    /** A session restore found the user: the same state `setUser` leaves. */
    method RestoreFulfilled(payload: ClientUser)
      modifies this
      ensures user == Some(payload) && isAuthenticated && !isLoading
      ensures Consistent()
    {
      user := Some(payload);
      isAuthenticated := true;
      isLoading := false;
    }

    /** A session restore failed: the same state `logout` leaves. */
    method RestoreRejected()
      modifies this
      ensures user.None? && !isAuthenticated && !isLoading
      ensures Consistent()
    {
      user := None;
      isAuthenticated := false;
      isLoading := false;
    }
  }
}
