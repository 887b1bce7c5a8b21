/**
 The fixed-window limiter of the authentication service, on the counter rows that it upserts,
 resets and deletes in place.
 */
module RateLimiter {
  const WINDOW := 60_000  // one minute in milliseconds

  datatype Action = Login | PasswordReset

  datatype Subject = Ip | Identity

  datatype Key = Key(action: Action, subject: Subject, value: string)

  function ActionText(action: Action): string {
    if action.Login? then "login:" else "password-reset:"
  }

  function SubjectText(subject: Subject): string {
    if subject.Ip? then "ip:" else "identity:"
  }

  /** The text whose SHA-256 hash is the stored key. */
  function KeyText(key: Key): string {
    ActionText(key.action) + (SubjectText(key.subject) + key.value)
  }

  /** Different counters hash different texts, so that a row can be named by its `Key`. */
  lemma KeyTextInjective(a: Key, b: Key)
    requires KeyText(a) == KeyText(b)
    ensures a == b
  {
    assert KeyText(a)[0] == ActionText(a.action)[0] && KeyText(b)[0] == ActionText(b.action)[0];
    assert a.action == b.action;
    var n := |ActionText(a.action)|;
    assert KeyText(a)[n..] == SubjectText(a.subject) + a.value;
    assert KeyText(b)[n..] == SubjectText(b.subject) + b.value;
    assert KeyText(a)[n..][1] == SubjectText(a.subject)[1] && KeyText(b)[n..][1] == SubjectText(b.subject)[1];
    assert a.subject == b.subject;
    var m := |SubjectText(a.subject)|;
    assert KeyText(a)[n..][m..] == a.value && KeyText(b)[n..][m..] == b.value;
  }

  datatype Counter = Counter(attempts: nat, windowEndsAt: int)

  type Counters = map<Key, Counter>

  function IpLimit(action: Action): nat {
    if action.Login? then 30 else 20
  }

  function IdentityLimit(action: Action): nat {
    if action.Login? then 8 else 5
  }

  /******* Statements *******/

  /** One insert-or-update of a counter: a window that has ended starts again, a running one counts on. */
  function Bump(rows: Counters, key: Key, now: int): Counters {
    if key in rows && rows[key].windowEndsAt > now then rows[key := Counter(rows[key].attempts + 1, rows[key].windowEndsAt)]
    else rows[key := Counter(1, now + WINDOW)]
  }

  /** The deletion of every counter whose window has ended. */
  function Purge(rows: Counters, now: int): Counters {
    map key | key in rows && rows[key].windowEndsAt > now :: rows[key]
  }

  /** One request: its verdict and the counters it leaves. */
  function Throttle(rows: Counters, action: Action, ip: string, identity: string, now: int): (bool, Counters) {
    var ipKey, identityKey := Key(action, Ip, ip), Key(action, Identity, identity);
    var afterIp := Bump(rows, ipKey, now);
    if afterIp[ipKey].attempts > IpLimit(action) then (true, Purge(afterIp, now))
    else
      var afterIdentity := Bump(afterIp, identityKey, now);
      (afterIdentity[identityKey].attempts > IdentityLimit(action), Purge(afterIdentity, now))
  }

  class AuthLimiter {
    var rows: Counters

    constructor ()
      ensures rows == map[]
    {
      rows := map[];
    }

    method IncrementCounter(key: Key, now: int) returns (attempts: nat)
      modifies this
      ensures rows == Bump(old(rows), key, now)
      ensures attempts == rows[key].attempts
    {
      if key !in rows {
        rows := rows[key := Counter(1, now + WINDOW)];
      } else {
        var row := rows[key];
        rows := rows[key := Counter(if row.windowEndsAt <= now then 1 else row.attempts + 1,
                                    if row.windowEndsAt <= now then now + WINDOW else row.windowEndsAt)];
      }
      return rows[key].attempts;
    }

    method DeleteEnded(now: int)
      modifies this
      ensures rows == Purge(old(rows), now)
    {
      rows := map key | key in rows && !(rows[key].windowEndsAt <= now) :: rows[key];
    }

    /** `identity` is the trimmed, lower-cased identity, or "missing" when that is empty. */
    method IsAuthRequestThrottled(action: Action, ip: string, identity: string, now: int) returns (throttled: bool)
      modifies this
      ensures (throttled, rows) == Throttle(old(rows), action, ip, identity, now)
    {
      var ipAttempts := IncrementCounter(Key(action, Ip, ip), now);
      if ipAttempts > IpLimit(action) {
        DeleteEnded(now);
        return true;
      }
      var identityAttempts := IncrementCounter(Key(action, Identity, identity), now);
      DeleteEnded(now);
      return identityAttempts > IdentityLimit(action);
    }

    method ClearLoginAttempts(ip: string, identity: string)
      modifies this
      ensures rows == old(rows) - {Key(Login, Ip, ip), Key(Login, Identity, identity)}
    {
      rows := rows - {Key(Login, Ip, ip), Key(Login, Identity, identity)};
    }
  }
}
