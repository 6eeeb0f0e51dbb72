/**
 * The invitation entity: who is invited, with which role, by whom, the hash of the
 * token handed out, and the expiry, use and revocation instants that decide whether
 * the invitation can still be redeemed.
 */
module Invites {
  import opened Wrappers
  import opened Lang
  import opened Users

  /** A snapshot of every field of an Invite. */
  datatype InviteState = InviteState(
    id: Uuid,
    email: string,
    tokenHash: string,
    invitedRole: UserRole,
    inviter: User,
    expiresAt: Instant,
    usedAt: Option<Instant>,
    revokedAt: Option<Instant>,
    createdAt: Option<Instant>)

  /** Seven days, in nanoseconds. */
  const Week: int := 7 * 24 * 60 * 60 * 1_000_000_000

  class Invite {
    var id: Uuid
    var email: string
    var tokenHash: string
    var invitedRole: UserRole
    var inviter: User
    var expiresAt: Instant
    var usedAt: Option<Instant>
    var revokedAt: Option<Instant>
    var createdAt: Option<Instant>

    function State(): InviteState
      reads this
    {
      InviteState(id, email, tokenHash, invitedRole, inviter, expiresAt, usedAt, revokedAt, createdAt)
    }

    /** Sets the six given fields; usedAt, revokedAt and createdAt stay null. */
    constructor (id: Uuid, email: string, tokenHash: string, invitedRole: UserRole, inviter: User, expiresAt: Instant)
      ensures State() == InviteState(id, email, tokenHash, invitedRole, inviter, expiresAt, None, None, None)
    {
      this.id := id;
      this.email := email;
      this.tokenHash := tokenHash;
      this.invitedRole := invitedRole;
      this.inviter := inviter;
      this.expiresAt := expiresAt;
      this.usedAt := None;
      this.revokedAt := None;
      this.createdAt := None;
    }

    /** The persist hook: stamps createdAt and nothing else. */
    method OnCreate(now: Instant)
      modifies this`createdAt
      ensures State() == old(State()).(createdAt := Some(now))
    {
      createdAt := Some(now);
    }

    /** isValid, with the clock reading passed in: unused, unrevoked and expiring
        strictly after `now`. */
    function IsValid(now: Instant): (r: bool)
      reads this
      ensures r ==> usedAt.None? && revokedAt.None?
      ensures r ==> now < expiresAt
    {
      usedAt.None? && revokedAt.None? && expiresAt > now
    }

    method SetId(id: Uuid)
      modifies this`id
      ensures State() == old(State()).(id := id)
    {
      this.id := id;
    }

    method SetEmail(email: string)
      modifies this`email
      ensures State() == old(State()).(email := email)
    {
      this.email := email;
    }

    method SetTokenHash(tokenHash: string)
      modifies this`tokenHash
      ensures State() == old(State()).(tokenHash := tokenHash)
    {
      this.tokenHash := tokenHash;
    }

    method SetInvitedRole(invitedRole: UserRole)
      modifies this`invitedRole
      ensures State() == old(State()).(invitedRole := invitedRole)
    {
      this.invitedRole := invitedRole;
    }

    method SetInviter(inviter: User)
      modifies this`inviter
      ensures State() == old(State()).(inviter := inviter)
    {
      this.inviter := inviter;
    }

    method SetExpiresAt(expiresAt: Instant)
      modifies this`expiresAt
      ensures State() == old(State()).(expiresAt := expiresAt)
    {
      this.expiresAt := expiresAt;
    }

    /** Marks the invitation used; null clears the mark again. */
    method SetUsedAt(usedAt: Option<Instant>)
      modifies this`usedAt
      ensures State() == old(State()).(usedAt := usedAt)
      ensures usedAt.Some? ==> forall now :: !IsValid(now)
    {
      this.usedAt := usedAt;
    }

    /** Marks the invitation revoked; null clears the mark again. */
    method SetRevokedAt(revokedAt: Option<Instant>)
      modifies this`revokedAt
      ensures State() == old(State()).(revokedAt := revokedAt)
      ensures revokedAt.Some? ==> forall now :: !IsValid(now)
    {
      this.revokedAt := revokedAt;
    }
  }

  /** An unused, unrevoked invitation is valid exactly before its expiry. */
  lemma PendingValidUntilExpiry(inv: Invite, now: Instant)
    requires inv.usedAt.None? && inv.revokedAt.None?
    ensures inv.IsValid(now) <==> now < inv.expiresAt
  {
  }

  /** Expiry is strict: at the expiry instant itself the invitation is no longer valid. */
  lemma ExpiryIsStrict(inv: Invite)
    ensures !inv.IsValid(inv.expiresAt)
  {
  }

  /** With the fields held fixed, once invalid an invitation stays invalid as time advances. */
  lemma InvalidStaysInvalid(inv: Invite, t: Instant, later: Instant)
    requires !inv.IsValid(t) && t <= later
    ensures !inv.IsValid(later)
  {
  }

  /** Issue an invitation a week ahead of `now`, redeem it, and look at it before and after. */
  method RedeemScenario(inviter: User, id: Uuid, email: string, tokenHash: string, now: Instant)
    returns (validBefore: bool, validAfter: bool, usedAt: Option<Instant>)
    ensures validBefore && !validAfter && usedAt == Some(now)
  {
    var invite := new Invite(id, email, tokenHash, USER, inviter, now + Week);
    validBefore := invite.IsValid(now);
    invite.SetUsedAt(Some(now));
    validAfter := invite.IsValid(now);
    usedAt := invite.usedAt;
  }

  /** Issue an invitation and revoke it, or issue one that expired a day ago. */
  method RevokeOrExpireScenario(inviter: User, id: Uuid, tokenHash: string, now: Instant)
    returns (validRevoked: bool, validExpired: bool)
    ensures !validRevoked && !validExpired
  {
    var revoked := new Invite(id, "revoked@example.com", tokenHash, USER, inviter, now + Week);
    revoked.SetRevokedAt(Some(now));
    validRevoked := revoked.IsValid(now);
    var expired := new Invite(id, "expired@example.com", tokenHash, USER, inviter, now - Week / 7);
    validExpired := expired.IsValid(now);
  }
}
