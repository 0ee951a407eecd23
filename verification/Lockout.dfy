/** Failed logins and the lock they put on an account. */
module Lockout {

  const MAX_FAILED_ATTEMPTS := 5
  const LOCKOUT_SECONDS := 900

  /** The columns failed_attempts and locked_until. */
  datatype Account = Account(failed: nat, lockedUntil: int)

  type Users = map<string, Account>

  /** A call: when the lock is looked up, when a failure is written, and whether the password matches. */
  datatype Attempt = Attempt(nick: string, checkedAt: int, writtenAt: int, matches: bool)

  datatype Outcome = Locked | Failed | Succeeded

  predicate IsLocked(users: Users, nick: string, now: int) {
    nick in users && users[nick].failed >= MAX_FAILED_ATTEMPTS && now < users[nick].lockedUntil
  }

  /** An UPDATE of a nickname without a row changes nothing. */
  function Increment(users: Users, nick: string, now: int): Users {
    if nick !in users then users
    else
      var failed := users[nick].failed + 1;
      users[nick := Account(failed, if failed >= MAX_FAILED_ATTEMPTS then now + LOCKOUT_SECONDS
                                    else users[nick].lockedUntil)]
  }

  function Reset(users: Users, nick: string): Users {
    if nick in users then users[nick := Account(0, 0)] else users
  }

  function OutcomeOf(users: Users, a: Attempt): Outcome {
    if IsLocked(users, a.nick, a.checkedAt) then Locked
    else if a.nick in users && a.matches then Succeeded
    else Failed
  }

  function Authenticated(users: Users, a: Attempt): Users {
    match OutcomeOf(users, a)
    case Locked => users
    case Failed => Increment(users, a.nick, a.writtenAt)
    case Succeeded => Reset(users, a.nick)
  }

  class AuthManager {
    var users: Users

    method IsAccountLocked(nick: string, now: int) returns (locked: bool)
      ensures locked <==> IsLocked(users, nick, now)
    {
      locked := false;
      if nick in users {
        if users[nick].failed >= MAX_FAILED_ATTEMPTS && now < users[nick].lockedUntil {
          locked := true;
        }
      }
    }

    method IncrementFailedAttempts(nick: string, now: int)
      modifies this
      ensures users == Increment(old(users), nick, now)
    {
      if nick in users {
        var lockTime := now + LOCKOUT_SECONDS;
        if users[nick].failed + 1 >= MAX_FAILED_ATTEMPTS {
          users := users[nick := users[nick].(lockedUntil := lockTime)];
        }
        users := users[nick := users[nick].(failed := users[nick].failed + 1)];
      }
    }

    method ResetFailedAttempts(nick: string)
      modifies this
      ensures users == Reset(old(users), nick)
    {
      if nick in users {
        users := users[nick := Account(0, 0)];
      }
    }

    method Authenticate(a: Attempt) returns (outcome: Outcome)
      modifies this
      ensures users == Authenticated(old(users), a) && outcome == OutcomeOf(old(users), a)
    {
      var locked := IsAccountLocked(a.nick, a.checkedAt);
      if locked {
        return Locked;
      }
      if a.nick !in users {
        IncrementFailedAttempts(a.nick, a.writtenAt);
        return Failed;
      }
      if !a.matches {
        IncrementFailedAttempts(a.nick, a.writtenAt);
        return Failed;
      }
      ResetFailedAttempts(a.nick);
      return Succeeded;
    }
  }

  // ----- Runs -----

  function After(users: Users, attempts: seq<Attempt>): Users {
    if attempts == [] then users
    else Authenticated(After(users, attempts[..|attempts| - 1]), attempts[|attempts| - 1])
  }

  /** When the passwords checked for a nickname since its last success failed. */
  function Failures(users: Users, attempts: seq<Attempt>, nick: string): seq<int> {
    if attempts == [] then []
    else
      var before, a := attempts[..|attempts| - 1], attempts[|attempts| - 1];
      var fails := Failures(users, before, nick);
      if a.nick != nick then fails
      else
        match OutcomeOf(After(users, before), a)
        case Locked => fails
        case Failed => fails + [a.writtenAt]
        case Succeeded => []
  }

  /** The clock does not go back. */
  ghost predicate InOrder(attempts: seq<Attempt>) {
    && (forall a | a in attempts :: a.checkedAt <= a.writtenAt)
    && (forall i, j | 0 <= i < j < |attempts| :: attempts[i].writtenAt <= attempts[j].checkedAt)
  }

  /** The account's row says how many failures there were, and from the fifth on when the last one was. */
  lemma {:induction false} RowCounts(users: Users, attempts: seq<Attempt>, nick: string)
    requires nick in users && users[nick] == Account(0, 0)
    ensures nick in After(users, attempts)
    ensures var fails, account := Failures(users, attempts, nick), After(users, attempts)[nick];
      && account.failed == |fails|
      && account.lockedUntil == if |fails| >= MAX_FAILED_ATTEMPTS then fails[|fails| - 1] + LOCKOUT_SECONDS else 0
    decreases |attempts|
  {
    if attempts != [] {
      RowCounts(users, attempts[..|attempts| - 1], nick);
    }
  }

  /** The account is locked exactly if there were five failures since the last success, the last of them
      less than 900 seconds ago. */
  lemma LockedExactly(users: Users, attempts: seq<Attempt>, nick: string, now: int)
    requires nick in users && users[nick] == Account(0, 0)
    ensures var fails := Failures(users, attempts, nick);
      IsLocked(After(users, attempts), nick, now)
      <==> |fails| >= MAX_FAILED_ATTEMPTS && now < fails[|fails| - 1] + LOCKOUT_SECONDS
  {
    RowCounts(users, attempts, nick);
  }

  lemma {:induction false} FailuresInPast(users: Users, attempts: seq<Attempt>, nick: string, now: int)
    requires forall a | a in attempts :: a.writtenAt <= now
    ensures forall i | 0 <= i < |Failures(users, attempts, nick)| :: Failures(users, attempts, nick)[i] <= now
    decreases |attempts|
  {
    if attempts != [] {
      assert attempts[|attempts| - 1] in attempts;
      FailuresInPast(users, attempts[..|attempts| - 1], nick, now);
    }
  }

  /** Failures come in order, and from the fifth on at least 900 seconds apart. */
  ghost predicate Spaced(fails: seq<int>) {
    && (forall i, j | 0 <= i < j < |fails| :: fails[i] <= fails[j])
    && (forall k | MAX_FAILED_ATTEMPTS <= k < |fails| :: fails[k] >= fails[k - 1] + LOCKOUT_SECONDS)
  }

  lemma OneMoreSpaced(fails: seq<int>, checkedAt: int, writtenAt: int)
    requires Spaced(fails) && checkedAt <= writtenAt
    requires forall i | 0 <= i < |fails| :: fails[i] <= checkedAt
    requires |fails| >= MAX_FAILED_ATTEMPTS ==> checkedAt >= fails[|fails| - 1] + LOCKOUT_SECONDS
    ensures Spaced(fails + [writtenAt])
  {
  }

  lemma OneMoreInOrder(before: seq<Attempt>, a: Attempt)
    requires InOrder(before + [a])
    ensures InOrder(before) && a.checkedAt <= a.writtenAt && forall b | b in before :: b.writtenAt <= a.checkedAt
  {
    var all := before + [a];
    assert all[|before|] == a && a in all;
    forall b | b in before
      ensures b.checkedAt <= b.writtenAt && b.writtenAt <= a.checkedAt
    {
      var i :| 0 <= i < |before| && before[i] == b;
      assert all[i] == b && b in all;
    }
    forall i, j | 0 <= i < j < |before|
      ensures before[i].writtenAt <= before[j].checkedAt
    {
      assert all[i].writtenAt <= all[j].checkedAt;
    }
  }

  /** One more attempt changes the failures in one of three ways. */
  lemma FailuresStep(users: Users, before: seq<Attempt>, a: Attempt, nick: string)
    requires nick in users && users[nick] == Account(0, 0)
    ensures var fails, next := Failures(users, before, nick), Failures(users, before + [a], nick);
      || next == fails
      || next == []
      || (&& next == fails + [a.writtenAt]
          && (|fails| >= MAX_FAILED_ATTEMPTS ==> a.checkedAt >= fails[|fails| - 1] + LOCKOUT_SECONDS))
  {
    assert (before + [a])[..|before|] == before;
    LockedExactly(users, before, nick, a.checkedAt);
  }

  lemma {:induction false} FailuresSpaced(users: Users, attempts: seq<Attempt>, nick: string)
    requires nick in users && users[nick] == Account(0, 0) && InOrder(attempts)
    ensures Spaced(Failures(users, attempts, nick))
    decreases |attempts|
  {
    if attempts != [] {
      var before, a := attempts[..|attempts| - 1], attempts[|attempts| - 1];
      assert attempts == before + [a];
      OneMoreInOrder(before, a);
      FailuresSpaced(users, before, nick);
      FailuresInPast(users, before, nick, a.checkedAt);
      FailuresStep(users, before, a, nick);
      var fails := Failures(users, before, nick);
      if Failures(users, attempts, nick) != fails && Failures(users, attempts, nick) != [] {
        OneMoreSpaced(fails, a.checkedAt, a.writtenAt);
      }
    }
  }

  lemma {:induction false} SpacedSpan(fails: seq<int>, i: nat, j: nat)
    requires Spaced(fails) && MAX_FAILED_ATTEMPTS - 1 <= i <= j < |fails|
    ensures fails[j] - fails[i] >= LOCKOUT_SECONDS * (j - i)
    decreases j
  {
    if i < j {
      SpacedSpan(fails, i, j - 1);
    }
  }

  /** Without a success in between, any stretch of T seconds sees at most 5 + T / 900 failed passwords. */
  lemma FailuresBounded(users: Users, attempts: seq<Attempt>, nick: string, i: nat, j: nat)
    requires nick in users && users[nick] == Account(0, 0) && InOrder(attempts)
    requires i <= j < |Failures(users, attempts, nick)|
    ensures var fails := Failures(users, attempts, nick);
      fails[i] <= fails[j] && j - i + 1 <= MAX_FAILED_ATTEMPTS + (fails[j] - fails[i]) / LOCKOUT_SECONDS
  {
    var fails := Failures(users, attempts, nick);
    FailuresSpaced(users, attempts, nick);
    if j >= MAX_FAILED_ATTEMPTS {
      var k := if i < MAX_FAILED_ATTEMPTS - 1 then MAX_FAILED_ATTEMPTS - 1 else i;
      SpacedSpan(fails, k, j);
      assert fails[j] - fails[i] >= LOCKOUT_SECONDS * (j - k);
    }
  }

  // ----- Accounts do not affect each other -----

  function Own(attempts: seq<Attempt>, nick: string): seq<Attempt> {
    if attempts == [] then []
    else
      var rest := Own(attempts[..|attempts| - 1], nick);
      if attempts[|attempts| - 1].nick == nick then rest + [attempts[|attempts| - 1]] else rest
  }

  /** What happens to an account depends on the attempts on it alone. */
  lemma {:induction false} AccountsIsolated(users: Users, attempts: seq<Attempt>, nick: string)
    ensures nick in users <==> nick in After(users, attempts)
    ensures nick in users <==> nick in After(users, Own(attempts, nick))
    ensures nick in users ==> After(users, attempts)[nick] == After(users, Own(attempts, nick))[nick]
    decreases |attempts|
  {
    if attempts != [] {
      var before, a := attempts[..|attempts| - 1], attempts[|attempts| - 1];
      AccountsIsolated(users, before, nick);
      var own := Own(before, nick);
      if a.nick == nick {
        assert (own + [a])[..|own|] == own;
      }
    }
  }
}
