/**
 * The session kept by `AuthProvider` (src/hooks/use-auth.tsx): the bearer token, the decoded
 * claims, the `loading` flag, the browser's `localStorage` (keys "token" and "exp") and the one
 * expiry timer held in `timeoutRef`.
 *
 * The JWT decoder is a partial function given from outside (`None` is `jwtDecode` throwing),
 * the clock is the `now` parameter (milliseconds, `Date.now()`), and the expiry claim `exp` is
 * in seconds, the NumericDate of section 4.1.4 of RFC 7519.
 */
module Auth {
  import opened Wrappers
  import Text

  /** The decoded token payload; `exp` is `None` when the token carries no expiry claim. */
  datatype Claims = Claims(userId: string, userName: string, email: string, role: string, exp: Option<int>)

  /** `String(decoded.exp)`: a missing claim is written as "undefined". */
  function ExpText(exp: Option<int>): string
  {
    if exp.Some? then Text.IntToString(exp.value) else "undefined"
  }

  /** The expiry has already passed: `exp` is present and `exp * 1000 - now` is not positive. */
  predicate Expired(exp: Option<int>, now: int)
  {
    exp.Some? && exp.value * 1000 - now <= 0
  }

  /** The delay the expiry timer is armed with: a missing `exp` reads back as `NaN`, which `setTimeout` takes as 0. */
  function ArmedDelay(exp: Option<int>, now: int): int
  {
    if exp.Some? then exp.value * 1000 - now else 0
  }

  /** The one pending `setTimeout`: when it was armed and after how many milliseconds it fires. */
  datatype Timer = Timer(armedAt: int, delay: int)

  /** What the login request produced: a non-2xx status, a 2xx JSON body (with its `token`, if any), or a thrown error. */
  datatype LoginResponse = NotOk | Ok(token: Option<string>) | Thrown

  const TokenKey: string := "token"
  const ExpKey: string := "exp"

  /** The provider's whole state as a value. */
  datatype Session = Session(
    token: Option<string>,
    user: Option<Claims>,
    loading: bool,
    storage: map<string, string>,
    timer: Option<Timer>)

  /** `localStorage.getItem(key)` read as JavaScript truthiness: a missing key and "" both read as absent. */
  function Stored(storage: map<string, string>, key: string): Option<string>
  {
    if key in storage && storage[key] != "" then Some(storage[key]) else None
  }

  /**
   * The session invariant: whenever a user is signed in, the token it was decoded from is the
   * token held in state and in storage, and the stored expiry is that user's `exp` as text.
   */
  ghost predicate Valid(s: Session, decode: string -> Option<Claims>)
  {
    s.user.Some? ==>
      && s.token.Some?
      && decode(s.token.value) == s.user
      && TokenKey in s.storage && s.storage[TokenKey] == s.token.value
      && ExpKey in s.storage && s.storage[ExpKey] == ExpText(s.user.value.exp)
  }

  /** `logout`: token and user cleared, both storage keys removed; nothing else changes. */
  function LogoutSpec(s: Session): (r: Session)
    ensures r.token == None && r.user == None
    ensures TokenKey !in r.storage && ExpKey !in r.storage
    ensures forall k :: k != TokenKey && k != ExpKey ==> (k in r.storage <==> k in s.storage)
    ensures forall k :: k in r.storage ==> r.storage[k] == s.storage[k]
    ensures r.loading == s.loading && r.timer == s.timer
  {
    s.(token := None, user := None, storage := s.storage - {TokenKey} - {ExpKey})
  }

  /** Milliseconds left before expiry, `parseInt(exp) * 1000 - now`; `None` is `NaN`. */
  function TimeLeft(exp: string, now: int): Option<int>
  {
    match Text.ParseInt(exp)
    case Some(seconds) => Some(seconds * 1000 - now)
    case None => None
  }

  /**
   * `scheduleAutoLogout`: the pending timer is cancelled first; with no stored expiry nothing
   * else happens; an expiry already reached logs out at once; otherwise one timer is armed for
   * the time left. A `NaN` time left is not `<= 0`, and `setTimeout` reads a `NaN` delay as 0.
   */
  function ScheduleSpec(s: Session, now: int): (r: Session)
    ensures r.loading == s.loading
    ensures r.storage == s.storage || r.storage == s.storage - {TokenKey} - {ExpKey}
    ensures (r.user == s.user && r.token == s.token && r.storage == s.storage) || r == LogoutSpec(s.(timer := None))
    ensures Stored(s.storage, ExpKey).None? ==> r.timer.None? && r.storage == s.storage && r.user == s.user
    ensures Stored(s.storage, ExpKey).Some? && r.timer.None? ==> r.user.None? && r.token.None? && ExpKey !in r.storage
    ensures r.timer.Some? ==> ExpKey in s.storage && r.timer.value.armedAt == now && r.user == s.user && r.storage == s.storage
    ensures r.timer.Some? && TimeLeft(s.storage[ExpKey], now).Some? ==> r.timer.value.delay > 0
    ensures r.timer.Some? && TimeLeft(s.storage[ExpKey], now).None? ==> r.timer.value.delay == 0
  {
    var cleared := s.(timer := None);
    match Stored(s.storage, ExpKey)
    case None => cleared
    case Some(exp) =>
      var left := TimeLeft(exp, now);
      if left.Some? && left.value <= 0 then LogoutSpec(cleared)
      else cleared.(timer := Some(Timer(now, if left.Some? then left.value else 0)))
  }

  /** The decoded user signs in: its `exp` is stored with `String(...)` and expiry is scheduled. */
  function SignInSpec(s: Session, claims: Claims, now: int): Session
  {
    ScheduleSpec(s.(user := Some(claims), storage := s.storage[ExpKey := ExpText(claims.exp)]), now)
  }

  /** The mount effect of `AuthProvider`: restore a stored token, then end `loading`. */
  function RestoreSpec(s: Session, now: int, decode: string -> Option<Claims>): Session
  {
    var restored :=
      match Stored(s.storage, TokenKey)
      case None => s
      case Some(saved) =>
        var withToken := s.(token := Some(saved));
        match decode(saved)
        case None => withToken.(storage := withToken.storage - {TokenKey})
        case Some(claims) => SignInSpec(withToken, claims, now);
    restored.(loading := false)
  }

  /** `login`: the new session and the boolean the promise resolves to. */
  function LoginSpec(s: Session, response: LoginResponse, now: int, decode: string -> Option<Claims>): (Session, bool)
  {
    match response
    case NotOk => (s, false)
    case Thrown => (s, false)
    case Ok(token) =>
      if token.None? || token.value == "" then (s, false)
      else
        // the token is put in state and in storage before it is decoded
        var stored := s.(token := Some(token.value), storage := s.storage[TokenKey := token.value]);
        match decode(token.value)
        case None => (stored, false)
        case Some(claims) => (SignInSpec(stored, claims, now), true)
  }

  /** The pending timer fires and calls `logout`. */
  function FireSpec(s: Session): Session
  {
    if s.timer.Some? then LogoutSpec(s.(timer := None)) else s
  }

  // ------------------------------------------------------------------ properties

  /** Logging out twice is logging out once. */
  lemma LogoutIdempotent(s: Session)
    ensures LogoutSpec(LogoutSpec(s)) == LogoutSpec(s)
  {
    assert LogoutSpec(LogoutSpec(s)).storage == LogoutSpec(s).storage;
  }

  /**
   * `logout` leaves a pending timer armed (it does not call `clearTimeout`); when that timer
   * later fires, its `logout` changes nothing but emptying the timer slot.
   */
  lemma TimerAfterLogoutIsHarmless(s: Session)
    ensures LogoutSpec(s).timer == s.timer
    ensures FireSpec(LogoutSpec(s)) == LogoutSpec(s).(timer := None)
  {
    assert LogoutSpec(LogoutSpec(s).(timer := None)).storage == LogoutSpec(s).storage;
  }

  /** Every operation but `login` keeps the session invariant. */
  lemma {:induction false} OperationsPreserveValid(s: Session, now: int, decode: string -> Option<Claims>)
    requires Valid(s, decode)
    ensures Valid(LogoutSpec(s), decode)
    ensures Valid(ScheduleSpec(s, now), decode)
    ensures Valid(RestoreSpec(s, now, decode), decode)
    ensures Valid(FireSpec(s), decode)
  {
    if Stored(s.storage, TokenKey).Some? {
      var saved := s.storage[TokenKey];
      var withToken := s.(token := Some(saved));
      if decode(saved).Some? {
        SignInValid(withToken, decode(saved).value, now, decode);
      }
    }
  }

  /**
   * `login` keeps the invariant except in one case: a user is already signed in and the new
   * token does not decode. The new token is then in state and storage beside the old user.
   */
  lemma {:induction false} LoginPreservesValid(s: Session, response: LoginResponse, now: int, decode: string -> Option<Claims>)
    requires Valid(s, decode)
    ensures Valid(LoginSpec(s, response, now, decode).0, decode) <==>
      !(response.Ok? && response.token.Some? && response.token.value != ""
        && decode(response.token.value).None? && s.user.Some?)
  {
    if response.Ok? && response.token.Some? && response.token.value != "" {
      var t := response.token.value;
      var stored := s.(token := Some(t), storage := s.storage[TokenKey := t]);
      if decode(t).Some? {
        SignInValid(stored, decode(t).value, now, decode);
      }
    }
  }

  lemma SignInValid(s: Session, claims: Claims, now: int, decode: string -> Option<Claims>)
    requires s.token.Some? && decode(s.token.value) == Some(claims)
    requires TokenKey in s.storage && s.storage[TokenKey] == s.token.value
    ensures Valid(SignInSpec(s, claims, now), decode)
  {
  }

  /**
   * Restore, case by case, from a fresh provider (no token, no user, no timer, loading):
   * with no stored token no one is signed in; with an undecodable token the stored token is
   * removed; with a decodable token the user is signed in, "exp" holds `String(exp)` and one
   * timer is armed for `exp * 1000 - now` (for no delay when the token has no `exp`), unless
   * that is not positive, in which case the session is logged out on the spot. `loading` ends
   * false on every path.
   */
  lemma {:induction false} RestoreOutcomes(storage: map<string, string>, now: int, decode: string -> Option<Claims>)
    ensures var r := RestoreSpec(Session(None, None, true, storage, None), now, decode);
      && !r.loading
      && (Stored(storage, TokenKey).None? ==> r.user.None? && r.token.None? && r.storage == storage && r.timer.None?)
      && (Stored(storage, TokenKey).Some? && decode(storage[TokenKey]).None? ==>
            r.user.None? && r.token == Some(storage[TokenKey]) && r.storage == storage - {TokenKey} && r.timer.None?)
      && (Stored(storage, TokenKey).Some? && decode(storage[TokenKey]).Some? ==>
            var claims := decode(storage[TokenKey]).value;
            if !Expired(claims.exp, now) then
              && r.user == Some(claims)
              && r.token == Some(storage[TokenKey])
              && r.storage == storage[ExpKey := ExpText(claims.exp)]
              && r.timer == Some(Timer(now, ArmedDelay(claims.exp, now)))
            else
              r.user.None? && r.token.None? && TokenKey !in r.storage && ExpKey !in r.storage && r.timer.None?)
  {
    var s := Session(None, None, true, storage, None);
    if Stored(storage, TokenKey).Some? && decode(storage[TokenKey]).Some? {
      var claims := decode(storage[TokenKey]).value;
      ExpiryReadBack(s.(token := Some(storage[TokenKey])), claims, now);
    }
  }

  /** Signing in schedules expiry from the `exp` it has just stored, read back unchanged. */
  lemma ExpiryReadBack(s: Session, claims: Claims, now: int)
    ensures var r := SignInSpec(s, claims, now);
      if !Expired(claims.exp, now) then
        r.user == Some(claims) && r.token == s.token && r.timer == Some(Timer(now, ArmedDelay(claims.exp, now)))
        && r.storage == s.storage[ExpKey := ExpText(claims.exp)]
      else
        r == LogoutSpec(s.(timer := None, user := Some(claims), storage := s.storage[ExpKey := ExpText(claims.exp)]))
  {
    if claims.exp.Some? {
      var exp := claims.exp.value;
      Text.ParseIntOfIntToString(exp);
      assert Text.IntToString(exp) != "" by {
        Text.NatToStringDigits(if exp < 0 then -exp else exp);
      }
    } else {
      UndefinedDoesNotParse();
    }
  }

  /** `parseInt("undefined")` is `NaN`. */
  lemma {:induction false} UndefinedDoesNotParse()
    ensures Text.ParseInt("undefined") == None
  {
    assert Text.TrimStart("undefined") == "undefined";
    assert Text.DigitRun("undefined") == 0;
  }

  /**
   * A token without `exp` signs the user in, but "undefined" is stored as the expiry, the time
   * left reads as `NaN`, and the timer is armed with no delay: when it fires, the user is out.
   */
  lemma {:induction false} MissingExpLogsOutAtOnce(s: Session, claims: Claims, now: int)
    requires claims.exp.None?
    ensures SignInSpec(s, claims, now).user == Some(claims)
    ensures SignInSpec(s, claims, now).storage[ExpKey] == "undefined"
    ensures SignInSpec(s, claims, now).timer == Some(Timer(now, 0))
    ensures var r := FireSpec(SignInSpec(s, claims, now)); r.user.None? && r.token.None? && r.timer.None?
  {
    ExpiryReadBack(s, claims, now);
  }

  /**
   * `login` resolves to true exactly when the response is 2xx with a non-empty token that
   * decodes; then the token is in state and the user is signed in with one timer armed, or,
   * when the token has already expired, the session is logged out. On every `false` path the
   * session is untouched, except that a token that fails to decode has already been stored.
   */
  lemma {:induction false} LoginOutcomes(s: Session, response: LoginResponse, now: int, decode: string -> Option<Claims>)
    ensures var (r, ok) := LoginSpec(s, response, now, decode);
      && (ok <==> response.Ok? && response.token.Some? && response.token.value != "" && decode(response.token.value).Some?)
      && (ok ==>
            var claims := decode(response.token.value).value;
            if !Expired(claims.exp, now) then
              r.token == response.token && r.user == Some(claims)
              && r.storage[TokenKey] == response.token.value
              && r.timer == Some(Timer(now, ArmedDelay(claims.exp, now)))
            else
              r.token.None? && r.user.None? && TokenKey !in r.storage && ExpKey !in r.storage && r.timer.None?)
      && (!ok && response.Ok? && response.token.Some? && response.token.value != "" ==>
            r == s.(token := response.token, storage := s.storage[TokenKey := response.token.value]))
      && (!ok && !(response.Ok? && response.token.Some? && response.token.value != "") ==> r == s)
  {
    if response.Ok? && response.token.Some? && response.token.value != "" {
      var t := response.token.value;
      if decode(t).Some? {
        ExpiryReadBack(s.(token := Some(t), storage := s.storage[TokenKey := t]), decode(t).value, now);
      }
    }
  }

  /**
   * At most one expiry timer is ever pending: scheduling cancels the previous timer before it
   * does anything else, so what it arms never depends on what was armed before.
   */
  lemma ScheduleCancelsPrevious(s: Session, previous: Option<Timer>, now: int)
    ensures ScheduleSpec(s.(timer := previous), now) == ScheduleSpec(s, now)
  {
  }

  // ------------------------------------------------------------------ the provider

  class AuthProvider {
    const decode: string -> Option<Claims>
    var token: Option<string>
    var user: Option<Claims>
    var loading: bool
    var storage: map<string, string>
    var timer: Option<Timer>

    function Snapshot(): Session
      reads this
    {
      Session(token, user, loading, storage, timer)
    }

    /** A freshly mounted provider: nothing decoded yet, `loading` true, storage as the browser has it. */
    constructor (decode: string -> Option<Claims>, storage: map<string, string>)
      ensures this.decode == decode
      ensures Snapshot() == Session(None, None, true, storage, None)
    {
      this.decode := decode;
      token := None;
      user := None;
      loading := true;
      this.storage := storage;
      timer := None;
    }

    method Logout()
      modifies this
      ensures Snapshot() == LogoutSpec(old(Snapshot()))
    {
      token := None;
      user := None;
      storage := storage - {TokenKey};
      storage := storage - {ExpKey};
    }

    method ScheduleAutoLogout(now: int)
      modifies this
      ensures Snapshot() == ScheduleSpec(old(Snapshot()), now)
    {
      timer := None;
      var exp := Stored(storage, ExpKey);
      if exp.None? {
        return;
      }
      var left := TimeLeft(exp.value, now);
      if left.Some? && left.value <= 0 {
        Logout();
      } else {
        timer := Some(Timer(now, if left.Some? then left.value else 0));
      }
    }

    /** The mount effect. */
    method Restore(now: int)
      modifies this
      ensures Snapshot() == RestoreSpec(old(Snapshot()), now, decode)
    {
      var saved := Stored(storage, TokenKey);
      if saved.Some? {
        token := saved;
        var decoded := decode(saved.value);
        if decoded.Some? {
          user := decoded;
          storage := storage[ExpKey := ExpText(decoded.value.exp)];
          ScheduleAutoLogout(now);
        } else {
          storage := storage - {TokenKey};
        }
      }
      loading := false;
    }

    /** `login`, from the point where the request has settled with `response`. */
    method Login(response: LoginResponse, now: int) returns (ok: bool)
      modifies this
      ensures (Snapshot(), ok) == LoginSpec(old(Snapshot()), response, now, decode)
    {
      if response.NotOk? || response.Thrown? {
        return false;
      }
      if response.token.None? || response.token.value == "" {
        return false;
      }
      var t := response.token.value;
      token := Some(t);
      storage := storage[TokenKey := t];
      var decoded := decode(t);
      if decoded.None? {
        return false;
      }
      user := decoded;
      storage := storage[ExpKey := ExpText(decoded.value.exp)];
      ScheduleAutoLogout(now);
      return true;
    }

    /** The armed timer fires. */
    method FireTimer()
      modifies this
      ensures Snapshot() == FireSpec(old(Snapshot()))
    {
      if timer.Some? {
        timer := None;
        Logout();
      }
    }

    /** The cleanup of the teardown effect: the pending timer is cleared. */
    method Teardown()
      modifies this
      ensures Snapshot() == old(Snapshot()).(timer := None)
    {
      timer := None;
    }
  }
}
