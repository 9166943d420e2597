/** The service of servtoolki.py as an object holding the two stores, whose
    request handlers update them in place. Each handler is proved to do what
    the matching function of Lifecycle describes. */
module Server {
  import opened KeyFormat
  import opened Lifecycle
  import LifecycleProps

  class Service {
    /** keys.json: activation key -> {"duration", "used"} */
    var keys: map<string, KeyRec>
    /** users.json: username -> {"password", "expiry_date"} */
    var users: map<string, UserRec>
    /** hash_password: the SHA-256 hex digest, left uninterpreted. */
    const hash: string -> string

    /** init_files: both stores start empty. */
    constructor (hash: string -> string)
      ensures keys == map[] && users == map[] && this.hash == hash
    {
      keys := map[];
      users := map[];
      this.hash := hash;
    }

    /** clean_expired_accounts: walks the accounts and deletes each one that
        is no longer valid at clock reading `now`. */
    method CleanExpiredAccounts(now: int)
      modifies this`users
      ensures users == Sweep(old(users), now)
      ensures forall u :: u in users ==> IsAccountValid(users[u].expiry, now)
      ensures forall u :: u in old(users) && IsAccountValid(old(users)[u].expiry, now) ==>
                u in users && users[u] == old(users)[u]
      ensures users.Keys <= old(users).Keys
    {
      var pending := users.Keys;
      while pending != {}
        invariant pending <= users.Keys <= old(users).Keys
        invariant forall u :: u in old(users) && u !in pending ==>
                    (u in users <==> IsAccountValid(old(users)[u].expiry, now))
        invariant forall u :: u in users ==> users[u] == old(users)[u]
        decreases pending
      {
        var u :| u in pending;
        if !IsAccountValid(users[u].expiry, now) {
          users := users - {u};
        }
        pending := pending - {u};
      }
    }

    /** generate_key_route: validates the duration, draws candidates until
        one is not a key yet, and stores it unused. */
    method GenerateKeyRoute(duration: DurationField, draws: seq<seq<nat>>) returns (out: Outcome)
      requires RandomStream(keys, draws)
      modifies this`keys
      ensures (keys, out) == IssueKey(old(keys), duration, draws)
      ensures out.KeyIssued? ==> out.key !in old(keys) && WellFormedKey(out.key)
                                 && keys == old(keys)[out.key := KeyRec(out.duration, false)]
      ensures !out.KeyIssued? ==> out == InvalidDuration && keys == old(keys)
    {
      var d := ParseDuration(duration);
      if d.None? {
        return InvalidDuration;
      }
      var i := 0;
      var key := GenerateKey(draws[0]);
      while key in keys
        invariant 0 <= i < |draws|
        invariant RandomStream(keys, draws[i..])
        invariant FirstFresh(keys, draws[i..]) == FirstFresh(keys, draws)
        invariant ValidDraw(draws[i]) && key == GenerateKey(draws[i])
        decreases |draws| - i
      {
        assert draws[i..][1..] == draws[i + 1..];
        i := i + 1;
        key := GenerateKey(draws[i]);
      }
      keys := keys[key := KeyRec(d.value, false)];
      out := KeyIssued(key, d.value);
    }

    /** login: presence check, sweep, lookup with digest comparison, then the
        validity check that deletes an account found expired. Login and
        Register repeat, statement by statement on the fields, what LoginStep
        and RegisterStep compute on values; their ensures prove the two agree. */
    method Login(username: Field, password: Field, tSweep: int, tCheck: int) returns (out: Outcome)
      modifies this`users
      ensures (users, out) == LoginStep(old(users), username, password, tSweep, tCheck, hash)
      ensures out == LoggedIn ==> username.text in users && users[username.text].password == hash(password.text)
    {
      if Blank(username) || Blank(password) {
        return MissingFields;
      }
      CleanExpiredAccounts(tSweep);
      var u := username.text;
      if u in users && users[u].password == hash(password.text) {
        if IsAccountValid(users[u].expiry, tCheck) {
          return LoggedIn;
        } else {
          users := users - {u};
          return AccountExpired;
        }
      }
      return BadCredentials;
    }

    /** register: presence check, sweep, the three refusals in order, then the
        new account and the spent key. */
    method Register(key: Field, username: Field, password: Field, tSweep: int, tIssue: int)
      returns (out: Outcome)
      modifies this
      ensures (Store(keys, users), out) ==
              RegisterStep(Store(old(keys), old(users)), key, username, password, tSweep, tIssue, hash)
      ensures out == Registered ==> keys[key.text].used && users[username.text].password == hash(password.text)
      ensures out != Registered ==> keys == old(keys)
    {
      if Blank(key) || Blank(username) || Blank(password) {
        return MissingFields;
      }
      CleanExpiredAccounts(tSweep);
      var k, u := key.text, username.text;
      if k !in keys {
        return UnknownKey;
      }
      if keys[k].used {
        return KeyAlreadyUsed;
      }
      if u in users {
        return UsernameTaken;
      }
      var expiry := ExpiryFor(keys[k].duration, tIssue);
      users := users[u := UserRec(hash(password.text), expiry)];
      keys := keys[k := keys[k].(used := true)];
      out := Registered;
    }
  }

  /** The two registrations of Scenario: "bob" redeems the only key, a
      13-day one, at clock reading t, and "carol" then tries the same key. */
  method RegisterAttempts(s: Service, k: string, t: int) returns (r1: Outcome, r2: Outcome)
    requires WellFormedKey(k) && s.keys == map[k := KeyRec(Days13, false)] && s.users == map[]
    modifies s
    ensures r1 == Registered && r2 == KeyAlreadyUsed
    ensures s.users == map["bob" := UserRec(s.hash("secret"), At(t + 13 * DaySeconds))]
  {
    var st0 := Store(s.keys, s.users);
    LifecycleProps.RegisterSucceedsIff(st0, Given(k), Given("bob"), Given("secret"), t, t, s.hash);
    LifecycleProps.RegisterSuccessEffects(st0, Given(k), Given("bob"), Given("secret"), t, t, s.hash);
    LifecycleProps.RegisteredKeyIsSpent(st0, Given(k), Given("bob"), Given("secret"), t, t, s.hash,
                                        Given("carol"), Given("other"), t, t);
    r1 := s.Register(Given(k), Given("bob"), Given("secret"), t, t);
    r2 := s.Register(Given(k), Given("carol"), Given("other"), t, t);
  }

  /** The three logins of Scenario, one second after "bob" registered at
      clock reading t - 1 with a 13-day key and password "secret". */
  method LoginAttempts(s: Service, t: int) returns (r3: Outcome, r4: Outcome, r5: Outcome)
    requires s.users == map["bob" := UserRec(s.hash("secret"), At(t - 1 + 13 * DaySeconds))]
    requires s.hash("wrong") != s.hash("secret")
    modifies s`users
    ensures r3 == LoggedIn && r4 == BadCredentials && r5 == MissingFields
  {
    assert Sweep(s.users, t) == s.users;
    r3 := s.Login(Given("bob"), Given("secret"), t, t);
    r4 := s.Login(Given("bob"), Given("wrong"), t, t);
    r5 := s.Login(Given("bob"), Given(""), t, t);
  }

  /** A 13-day key is issued into an empty service and registers "bob" with
      password "secret"; registering "carol" with the same key is refused;
      "bob" then logs in with "secret" and is refused with "wrong" or with an
      empty password. */
  method Scenario(hash: string -> string, draws: seq<seq<nat>>, t: int)
    returns (issued: Outcome, r1: Outcome, r2: Outcome, r3: Outcome, r4: Outcome, r5: Outcome)
    requires RandomStream(map[], draws)
    requires hash("wrong") != hash("secret")
    ensures issued.KeyIssued? && issued.duration == Days13 && WellFormedKey(issued.key)
    ensures r1 == Registered && r2 == KeyAlreadyUsed
    ensures r3 == LoggedIn && r4 == BadCredentials && r5 == MissingFields
  {
    var s := new Service(hash);
    issued := s.GenerateKeyRoute(Number(13.0), draws);
    assert s.keys == map[issued.key := KeyRec(Days13, false)] && s.users == map[];
    r1, r2 := RegisterAttempts(s, issued.key, t);
    r3, r4, r5 := LoginAttempts(s, t + 1);
  }
}
