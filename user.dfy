/**
 * The account entity: identity, email, optional display name, role, status and the
 * two timestamps the persistence hooks maintain.
 */
module Users {
  import opened Wrappers
  import opened Lang

  datatype UserRole = USER | ADMIN

  datatype UserStatus = PENDING | ACTIVE | DISABLED

  /** A snapshot of every field of a User. */
  datatype UserState = UserState(
    id: Uuid,
    email: string,
    displayName: Option<string>,
    role: UserRole,
    status: UserStatus,
    createdAt: Option<Instant>,
    updatedAt: Option<Instant>)

  class User {
    var id: Uuid
    var email: string
    var displayName: Option<string>
    var role: UserRole
    var status: UserStatus
    var createdAt: Option<Instant>
    var updatedAt: Option<Instant>

    function State(): UserState
      reads this
    {
      UserState(id, email, displayName, role, status, createdAt, updatedAt)
    }

    /** Sets the four given fields; display name and both timestamps stay null. */
    constructor (id: Uuid, email: string, role: UserRole, status: UserStatus)
      ensures State() == UserState(id, email, None, role, status, None, None)
    {
      this.id := id;
      this.email := email;
      this.displayName := None;
      this.role := role;
      this.status := status;
      this.createdAt := None;
      this.updatedAt := None;
    }

    /** The persist hook: both timestamps take the same instant. */
    method OnCreate(now: Instant)
      modifies this`createdAt, this`updatedAt
      ensures State() == old(State()).(createdAt := Some(now), updatedAt := Some(now))
      ensures createdAt == updatedAt
    {
      createdAt := Some(now);
      updatedAt := Some(now);
    }

    /** The update hook: refreshes updatedAt only. */
    method OnUpdate(now: Instant)
      modifies this`updatedAt
      ensures State() == old(State()).(updatedAt := Some(now))
      ensures createdAt == old(createdAt)
    {
      updatedAt := Some(now);
    }

    method SetId(id: Uuid)
      modifies this`id
      ensures State() == old(State()).(id := id)
    {
      this.id := id;
    }

    method SetEmail(email: string)
      modifies this`email
      ensures State() == old(State()).(email := email)
    {
      this.email := email;
    }

    method SetDisplayName(displayName: Option<string>)
      modifies this`displayName
      ensures State() == old(State()).(displayName := displayName)
    {
      this.displayName := displayName;
    }

    /** Any role may follow any other. */
    method SetRole(role: UserRole)
      modifies this`role
      ensures State() == old(State()).(role := role)
    {
      this.role := role;
    }

    /** Any status may follow any other: there is no transition guard. */
    method SetStatus(status: UserStatus)
      modifies this`status
      ensures State() == old(State()).(status := status)
    {
      this.status := status;
    }
  }

  /** Persisting then updating a user: createdAt keeps the persist instant,
      updatedAt the latest, and the setters in between leave both alone. */
  method PersistThenUpdate(id: Uuid, email: string, from: UserStatus, to: UserStatus, t1: Instant, t2: Instant)
    returns (created: Option<Instant>, updated: Option<Instant>, status: UserStatus)
    ensures created == Some(t1) && updated == Some(t2) && status == to
  {
    var u := new User(id, email, USER, from);
    u.OnCreate(t1);
    u.SetStatus(to);
    u.SetDisplayName(Some(email));
    assert u.createdAt == Some(t1) && u.updatedAt == Some(t1);
    u.OnUpdate(t2);
    created, updated, status := u.createdAt, u.updatedAt, u.status;
  }
}
