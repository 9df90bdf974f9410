/**
 * The password-reset service of examples/python/security-example.py:
 * requesting a reset (rate limited, never revealing whether the email is
 * registered) and submitting a token with a new password (checked for
 * existence, reuse and expiry, in that order, then invalidated).
 *
 * The user table is a map from user id to row. The clock is the parameter
 * `now` (integer seconds). SHA-256 of a token and bcrypt of a password are
 * kept symbolic: each is a constructor applied to its input, so that distinct
 * inputs give distinct digests. The freshly generated random token is a
 * parameter of the request.
 */
module PasswordReset {
  import opened Wrappers
  import RateLimiting

  /** A reset token stays valid for 15 minutes, in seconds. */
  const TOKEN_LIFETIME_SECONDS: int := 15 * 60

  const GENERIC_REQUEST_MESSAGE := "If that email exists, we've sent reset instructions."
  const INVALID_TOKEN_MESSAGE := "Invalid or expired reset token."
  const RESET_DONE_MESSAGE := "Password reset successful."

  datatype ResetError = InvalidToken | ExpiredToken | UsedToken | RateLimited

  /** The service's answer: whether it succeeded, why not, and the text shown to the user. */
  datatype ResetResult = ResetResult(success: bool, error: Option<ResetError>, message: string)

  const GENERIC_REQUEST_RESULT := ResetResult(true, None, GENERIC_REQUEST_MESSAGE)
  const INVALID_TOKEN_RESULT := ResetResult(false, Some(InvalidToken), INVALID_TOKEN_MESSAGE)

  /** The hex SHA-256 digest of a reset token, kept symbolic. */
  datatype TokenDigest = Sha256Hex(token: string)

  /** A bcrypt hash of a password, kept symbolic (the random salt is not modelled). */
  datatype PasswordHash = Bcrypt(password: string)

  /** The digest of an outstanding reset token and the time after which it is refused. */
  datatype ResetToken = ResetToken(digest: TokenDigest, expiry: int)

  /**
   * A row of the user table. The token-hash and token-expiry columns are
   * always written together, so they are one optional pair here.
   */
  datatype User = User(
    email: string,
    passwordHash: PasswordHash,
    resetToken: Option<ResetToken>,
    resetTokenUsed: bool,
    passwordChangedAt: Option<int>)

  type UserId = nat

  /** hash_token: the digest under which a token is stored. */
  function HashToken(token: string): (d: TokenDigest)
    ensures d.token == token
  {
    Sha256Hex(token)
  }

  /** Distinct tokens are stored under distinct digests. */
  lemma HashTokenInjective(a: string, b: string)
    ensures HashToken(a) == HashToken(b) ==> a == b
  {
  }

  /**
   * The checks submit_password_reset makes on the row that holds the token's
   * digest, in the order it makes them: reuse first, then expiry.
   */
  function Verdict(used: bool, expiry: int, now: int): (r: ResetResult)
    ensures r.success <==> !used && now <= expiry
    ensures r.success ==> r.error == None && r.message == RESET_DONE_MESSAGE
    ensures !r.success ==> r.message == INVALID_TOKEN_MESSAGE
    ensures r.error == Some(UsedToken) <==> used
    ensures r.error == Some(ExpiredToken) <==> !used && now > expiry
  {
    if used then ResetResult(false, Some(UsedToken), INVALID_TOKEN_MESSAGE)
    else if now > expiry then ResetResult(false, Some(ExpiredToken), INVALID_TOKEN_MESSAGE)
    else ResetResult(true, None, RESET_DONE_MESSAGE)
  }

  // ---------------------------------------------------------------------------
  // The user table
  // ---------------------------------------------------------------------------

  ghost predicate HoldsDigest(users: map<UserId, User>, id: UserId, d: TokenDigest)
  {
    id in users && users[id].resetToken.Some? && users[id].resetToken.value.digest == d
  }

  /** No two rows hold the same token digest, so a lookup by digest finds at most one row. */
  ghost predicate DigestsUnique(users: map<UserId, User>)
  {
    forall a, b, d :: HoldsDigest(users, a, d) && HoldsDigest(users, b, d) ==> a == b
  }

  /** No two rows share an email, so a lookup by email finds at most one row. */
  ghost predicate EmailsUnique(users: map<UserId, User>)
  {
    forall a, b :: a in users && b in users && users[a].email == users[b].email ==> a == b
  }

  /** No row holds digest `d`. */
  ghost predicate DigestFree(users: map<UserId, User>, d: TokenDigest)
  {
    forall id :: !HoldsDigest(users, id, d)
  }

  /** Every outstanding token is marked unused. */
  ghost predicate NoUsedOutstanding(users: map<UserId, User>)
  {
    forall id :: id in users && users[id].resetToken.Some? ==> !users[id].resetTokenUsed
  }

  /** A service result paired with the user table it leaves. */
  datatype Outcome = Outcome(result: ResetResult, users: map<UserId, User>)

  /** The row after a successful reset: new password, token cleared and marked used. */
  function Redeemed(user: User, newPassword: string, now: int): (u: User)
    ensures u.email == user.email && u.resetToken == None && u.resetTokenUsed
    ensures u.passwordHash == Bcrypt(newPassword) && u.passwordChangedAt == Some(now)
  {
    user.(passwordHash := Bcrypt(newPassword), resetToken := None,
          resetTokenUsed := true, passwordChangedAt := Some(now))
  }

  /** The row after a reset request: the new token's digest and expiry, marked unused. */
  function Issued(user: User, token: string, now: int): (u: User)
    ensures u.email == user.email && u.passwordHash == user.passwordHash
    ensures u.passwordChangedAt == user.passwordChangedAt
    ensures u.resetToken == Some(ResetToken(HashToken(token), now + TOKEN_LIFETIME_SECONDS))
    ensures !u.resetTokenUsed
  {
    user.(resetToken := Some(ResetToken(HashToken(token), now + TOKEN_LIFETIME_SECONDS)),
          resetTokenUsed := false)
  }

  /** Clearing one row's token keeps the digests unique. */
  lemma ClearingKeepsDigestsUnique(users: map<UserId, User>, id: UserId, u: User)
    requires DigestsUnique(users) && u.resetToken == None
    ensures DigestsUnique(users[id := u])
  {
    var users' := users[id := u];
    forall a, b, d | HoldsDigest(users', a, d) && HoldsDigest(users', b, d) ensures a == b {
      assert HoldsDigest(users, a, d) && HoldsDigest(users, b, d);
    }
  }

  /** submit_password_reset on the table `users`. */
  ghost function SubmitOutcome(users: map<UserId, User>, token: string, newPassword: string, now: int): (o: Outcome)
    requires DigestsUnique(users)
    ensures o.users.Keys == users.Keys
    ensures DigestFree(users, HashToken(token)) ==> o == Outcome(INVALID_TOKEN_RESULT, users)
    ensures !o.result.success ==> o.users == users && o.result.message == INVALID_TOKEN_MESSAGE
    ensures forall id :: id in users && !HoldsDigest(users, id, HashToken(token)) ==> o.users[id] == users[id]
    ensures DigestsUnique(o.users)
    ensures EmailsUnique(users) ==> EmailsUnique(o.users)
    ensures NoUsedOutstanding(users) ==> NoUsedOutstanding(o.users)
  {
    var d := HashToken(token);
    if forall id :: !HoldsDigest(users, id, d) then
      Outcome(INVALID_TOKEN_RESULT, users)
    else
      var id :| HoldsDigest(users, id, d);
      var r := Verdict(users[id].resetTokenUsed, users[id].resetToken.value.expiry, now);
      ClearingKeepsDigestsUnique(users, id, Redeemed(users[id], newPassword, now));
      Outcome(r, if r.success then users[id := Redeemed(users[id], newPassword, now)] else users)
  }

  /** request_password_reset on the table `users`, `allowed` being the rate limiter's answer. */
  ghost function RequestOutcome(users: map<UserId, User>, allowed: bool, email: string, token: string, now: int): (o: Outcome)
    requires EmailsUnique(users)
    ensures o.result == GENERIC_REQUEST_RESULT
    ensures o.users.Keys == users.Keys
    ensures !allowed ==> o.users == users
    ensures forall id :: id in users && users[id].email != email ==> o.users[id] == users[id]
    ensures EmailsUnique(o.users)
    ensures NoUsedOutstanding(users) ==> NoUsedOutstanding(o.users)
  {
    if allowed && exists id :: id in users && users[id].email == email then
      var id :| id in users && users[id].email == email;
      Outcome(GENERIC_REQUEST_RESULT, users[id := Issued(users[id], token, now)])
    else
      Outcome(GENERIC_REQUEST_RESULT, users)
  }

  /** Submitting the token held by row `id` applies the checks to that row, and changes only that row. */
  lemma SubmitByHolder(users: map<UserId, User>, id: UserId, token: string, newPassword: string, now: int)
    requires DigestsUnique(users) && HoldsDigest(users, id, HashToken(token))
    ensures var o := SubmitOutcome(users, token, newPassword, now);
      && o.result == Verdict(users[id].resetTokenUsed, users[id].resetToken.value.expiry, now)
      && o.users == if o.result.success then users[id := Redeemed(users[id], newPassword, now)] else users
  {
    var d := HashToken(token);
    assert !DigestFree(users, d);
    var holder :| HoldsDigest(users, holder, d);
    assert holder == id;
  }

  /** A token that reset a password is refused as unknown when submitted again. */
  lemma ResubmitIsInvalid(users: map<UserId, User>, token: string, newPassword: string, now: int,
                          againPassword: string, later: int)
    requires DigestsUnique(users)
    requires SubmitOutcome(users, token, newPassword, now).result.success
    ensures SubmitOutcome(SubmitOutcome(users, token, newPassword, now).users, token, againPassword, later).result
            == INVALID_TOKEN_RESULT
  {
    var d := HashToken(token);
    var id :| HoldsDigest(users, id, d);
    SubmitByHolder(users, id, token, newPassword, now);
    var after := SubmitOutcome(users, token, newPassword, now).users;
    forall other ensures !HoldsDigest(after, other, d) {
      if other != id && other in users {
        assert after[other] == users[other];
        assert !HoldsDigest(users, other, d);
      }
    }
  }

  /** While every outstanding token is unused, a submission is never refused as reused. */
  lemma UsedTokenNeverReported(users: map<UserId, User>, token: string, newPassword: string, now: int)
    requires DigestsUnique(users) && NoUsedOutstanding(users)
    ensures SubmitOutcome(users, token, newPassword, now).result.error != Some(UsedToken)
  {
    var d := HashToken(token);
    if !DigestFree(users, d) {
      var id :| HoldsDigest(users, id, d);
      SubmitByHolder(users, id, token, newPassword, now);
    }
  }

  /** An admitted request for a registered email issues the token to that email's row and no other. */
  lemma RequestByHolder(users: map<UserId, User>, id: UserId, email: string, token: string, now: int)
    requires EmailsUnique(users) && id in users && users[id].email == email
    ensures RequestOutcome(users, true, email, token, now).users == users[id := Issued(users[id], token, now)]
  {
    var holder :| holder in users && users[holder].email == email;
    assert holder == id;
  }

  /** Issuing a token whose digest no row holds keeps the digests unique. */
  lemma RequestKeepsDigestsUnique(users: map<UserId, User>, allowed: bool, email: string, token: string, now: int)
    requires EmailsUnique(users) && DigestsUnique(users) && DigestFree(users, HashToken(token))
    ensures DigestsUnique(RequestOutcome(users, allowed, email, token, now).users)
  {
    var o := RequestOutcome(users, allowed, email, token, now);
    if o.users != users {
      var id :| id in users && users[id].email == email;
      RequestByHolder(users, id, email, token, now);
      forall a, b, d | HoldsDigest(o.users, a, d) && HoldsDigest(o.users, b, d) ensures a == b {
        if a != id && b != id {
          assert HoldsDigest(users, a, d) && HoldsDigest(users, b, d);
        } else if a == id && b != id {
          assert HoldsDigest(users, b, HashToken(token));
        } else if a != id && b == id {
          assert HoldsDigest(users, a, HashToken(token));
        }
      }
    }
  }

  /**
   * The round trip: after an admitted request for a registered email, the
   * token it issued resets that user's password exactly until its expiry,
   * 15 minutes later, and is refused as expired afterwards.
   */
  lemma RequestThenSubmit(users: map<UserId, User>, id: UserId, email: string, token: string, now: int,
                          newPassword: string, later: int)
    requires EmailsUnique(users) && DigestsUnique(users) && DigestFree(users, HashToken(token))
    requires id in users && users[id].email == email
    ensures DigestsUnique(RequestOutcome(users, true, email, token, now).users)
    ensures var issued := RequestOutcome(users, true, email, token, now).users;
      var o := SubmitOutcome(issued, token, newPassword, later);
      && (o.result.success <==> later <= now + TOKEN_LIFETIME_SECONDS)
      && (o.result.success ==> o.users == issued[id := Redeemed(issued[id], newPassword, later)])
      && (!o.result.success ==> o.result.error == Some(ExpiredToken))
  {
    RequestByHolder(users, id, email, token, now);
    RequestKeepsDigestsUnique(users, true, email, token, now);
    var issued := RequestOutcome(users, true, email, token, now).users;
    SubmitByHolder(issued, id, token, newPassword, later);
  }

  // ---------------------------------------------------------------------------
  // The service: the user table it updates and the process-wide rate limiter
  // ---------------------------------------------------------------------------

  /** The rate-limit key of a reset request for `email`. */
  function RateLimitKey(email: string): (key: string)
    ensures |key| == 6 + |email| && key[..6] == "reset:" && key[6..] == email
  {
    "reset:" + email
  }

  class PasswordResetService {
    var users: map<UserId, User>
    const limiter: RateLimiting.RateLimiter

    /** The limiter keeps its bound, and lookups by email and by token digest find at most one row. */
    ghost predicate Valid()
      reads this, limiter
    {
      limiter.Valid() && EmailsUnique(users) && DigestsUnique(users)
    }

    constructor (table: map<UserId, User>)
      requires EmailsUnique(table) && DigestsUnique(table)
      ensures Valid() && users == table && fresh(limiter) && limiter.attempts == map[]
    {
      users := table;
      limiter := new RateLimiting.RateLimiter();
    }

    /**
     * request_password_reset. `token` is the freshly generated random token;
     * its 256 bits of entropy are modelled by requiring that no row already
     * holds its digest. The answer is the same generic success whether the
     * request was rate limited, the email is registered or not.
     */
    method RequestPasswordReset(email: string, token: string, now: int) returns (r: ResetResult)
      requires Valid() && DigestFree(users, HashToken(token))
      modifies this, limiter
      ensures Valid()
      ensures var d := RateLimiting.Admit(old(limiter.History(RateLimitKey(email))), now);
        && limiter.attempts == old(limiter.attempts)[RateLimitKey(email) := d.kept]
        && Outcome(r, users) == RequestOutcome(old(users), d.allowed, email, token, now)
    {
      var allowed := limiter.CheckRateLimit(RateLimitKey(email), now);
      RequestKeepsDigestsUnique(users, allowed, email, token, now);
      if !allowed {
        return GENERIC_REQUEST_RESULT;
      }
      if exists id :: id in users && users[id].email == email {
        var id :| id in users && users[id].email == email;
        RequestByHolder(users, id, email, token, now);
        users := users[id := Issued(users[id], token, now)];
      }
      return GENERIC_REQUEST_RESULT;
    }

    /** submit_password_reset: look the token's digest up, check reuse and expiry, then redeem. */
    method SubmitPasswordReset(token: string, newPassword: string, now: int) returns (r: ResetResult)
      requires Valid()
      modifies this
      ensures Valid()
      ensures Outcome(r, users) == SubmitOutcome(old(users), token, newPassword, now)
    {
      var digest := HashToken(token);
      if !exists id :: id in users && users[id].resetToken.Some? && users[id].resetToken.value.digest == digest {
        return INVALID_TOKEN_RESULT;
      }
      var id :| id in users && users[id].resetToken.Some? && users[id].resetToken.value.digest == digest;
      SubmitByHolder(users, id, token, newPassword, now);
      var user := users[id];
      if user.resetTokenUsed {
        return ResetResult(false, Some(UsedToken), INVALID_TOKEN_MESSAGE);
      }
      if now > user.resetToken.value.expiry {
        return ResetResult(false, Some(ExpiredToken), INVALID_TOKEN_MESSAGE);
      }
      users := users[id := Redeemed(user, newPassword, now)];
      return ResetResult(true, None, RESET_DONE_MESSAGE);
    }
  }

  /** A request, then the same token submitted twice: the first succeeds, the second is refused. */
  method ResetScenario(id: UserId, user: User, token: string)
    requires user.resetToken == None
  {
    var table := map[id := user];
    var service := new PasswordResetService(table);
    var answer := service.RequestPasswordReset(user.email, token, 1000);
    assert answer == GENERIC_REQUEST_RESULT;
    assert RateLimiting.Prune([], 1000 - RateLimiting.WINDOW_SECONDS) == [];
    RequestThenSubmit(table, id, user.email, token, 1000, "correct horse battery", 1000 + TOKEN_LIFETIME_SECONDS);
    var issued := service.users;
    var first := service.SubmitPasswordReset(token, "correct horse battery", 1000 + TOKEN_LIFETIME_SECONDS);
    assert first.success;
    ResubmitIsInvalid(issued, token, "correct horse battery", 1000 + TOKEN_LIFETIME_SECONDS, "another password", 2000);
    var second := service.SubmitPasswordReset(token, "another password", 2000);
    assert second == INVALID_TOKEN_RESULT;
  }
}
