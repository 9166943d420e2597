/** Properties of one request at a time: account expiry, the sweep, key
    issuance, registration and login. */
module LifecycleProps {
  import opened KeyFormat
  import opened Lifecycle

  // ---------------------------------------------------------------- expiry

  /** "permanent" never lapses; a dated account is valid up to, and not
      including, its deadline, and once lapsed stays lapsed. */
  lemma ExpiryIsAThreshold(e: Expiry, t1: int, t2: int)
    requires t1 <= t2
    ensures e.Never? ==> IsAccountValid(e, t1) && IsAccountValid(e, t2)
    ensures IsAccountValid(e, t2) ==> IsAccountValid(e, t1)
    ensures e.At? ==> IsAccountValid(e, e.deadline - 1) && !IsAccountValid(e, e.deadline)
  {
  }

  /** A new account lives exactly its key's number of days, or forever. */
  lemma NewAccountLifetime(d: Duration, tIssue: int, t: int)
    ensures IsAccountValid(ExpiryFor(d, tIssue), t) <==>
              (d == Permanent || t < tIssue + DaysOf(d) * DaySeconds)
    ensures d != Permanent ==> IsAccountValid(ExpiryFor(d, tIssue), tIssue + 13 * DaySeconds - 1)
  {
  }

  // ---------------------------------------------------------------- sweep

  lemma SubsetCardinality<T>(a: set<T>, b: set<T>)
    requires a <= b
    ensures |a| <= |b|
  {
    assert b == a + (b - a);
  }

  /** clean_expired_accounts keeps exactly the valid accounts, untouched, and
      removes the rest. */
  lemma SweepKeepsExactlyTheValid(users: map<string, UserRec>, now: int)
    ensures forall u :: u in Sweep(users, now) <==> u in users && IsAccountValid(users[u].expiry, now)
    ensures forall u :: u in Sweep(users, now) ==> Sweep(users, now)[u] == users[u]
    ensures Sweep(users, now).Keys <= users.Keys && |Sweep(users, now)| <= |users|
  {
    SubsetCardinality(Sweep(users, now).Keys, users.Keys);
  }

  /** With the clock unchanged a second sweep removes nothing. */
  lemma SweepIdempotent(users: map<string, UserRec>, now: int)
    ensures Sweep(Sweep(users, now), now) == Sweep(users, now)
  {
  }

  /** A sweep at an earlier reading is subsumed by a sweep at a later one. */
  lemma SweepLaterSubsumesEarlier(users: map<string, UserRec>, t1: int, t2: int)
    requires t1 <= t2
    ensures Sweep(Sweep(users, t1), t2) == Sweep(users, t2)
  {
  }

  /** A permanent account survives every sweep. */
  lemma SweepKeepsPermanent(users: map<string, UserRec>, now: int, u: string)
    requires u in users && users[u].expiry == Never
    ensures u in Sweep(users, now) && Sweep(users, now)[u] == users[u]
  {
  }

  // ---------------------------------------------------------------- key issuance

  /** The three accepted spellings are accepted, as what they spell; with the
      ensures of ParseDuration, nothing else is accepted. */
  lemma ParseDurationAcceptsExactly(d: Duration, v: DurationField)
    ensures ParseDuration(Spelling(d)) == Some(d)
    ensures ParseDuration(v) == Some(d) <==> v == Spelling(d)
  {
  }

  /** The key the regeneration loop settles on is the first drawn candidate
      that is not already a key; every earlier candidate collided. */
  lemma {:induction false} FirstFreshIsFirstUnused(keys: map<string, KeyRec>, draws: seq<seq<nat>>)
    returns (j: nat)
    requires RandomStream(keys, draws)
    ensures j < |draws| && ValidDraw(draws[j]) && FirstFresh(keys, draws) == GenerateKey(draws[j])
    ensures forall i :: 0 <= i < j ==> ValidDraw(draws[i]) && GenerateKey(draws[i]) in keys
    decreases |draws|
  {
    if GenerateKey(draws[0]) !in keys {
      j := 0;
    } else {
      var j' := FirstFreshIsFirstUnused(keys, draws[1..]);
      j := j' + 1;
      forall i | 0 <= i < j
        ensures ValidDraw(draws[i]) && GenerateKey(draws[i]) in keys
      {
        if i > 0 {
          assert draws[i] == draws[1..][i - 1];
        }
      }
    }
  }

  /** An invalid duration is refused with 400 and the key map is untouched. */
  lemma IssueKeyRejectsInvalidDuration(keys: map<string, KeyRec>, v: DurationField, draws: seq<seq<nat>>)
    requires RandomStream(keys, draws)
    requires v != Spelling(Days13) && v != Spelling(Days30) && v != Spelling(Permanent)
    ensures IssueKey(keys, v, draws).0 == keys
    ensures IssueKey(keys, v, draws).1 == InvalidDuration && Status(IssueKey(keys, v, draws).1) == 400
  {
  }

  /** A valid duration yields a well-formed key that was not a key before,
      stored unused with that duration; no other key changes. */
  lemma IssueKeyAddsFreshUnusedKey(keys: map<string, KeyRec>, d: Duration, draws: seq<seq<nat>>)
    requires RandomStream(keys, draws)
    ensures var (keys', out) := IssueKey(keys, Spelling(d), draws);
      && out.KeyIssued? && out.duration == d && Status(out) == 200
      && out.key !in keys && WellFormedKey(out.key)
      && keys'.Keys == keys.Keys + {out.key} && |keys'| == |keys| + 1
      && keys'[out.key] == KeyRec(d, false)
      && forall k :: k in keys ==> keys'[k] == keys[k]
  {
  }

  // ---------------------------------------------------------------- registration

  /** A request missing the key, the username or the password gets 400 and
      changes nothing, not even the sweep. */
  lemma RegisterMissingFields(st: Store, key: Field, username: Field, password: Field,
                              tSweep: int, tIssue: int, hash: string -> string)
    requires Blank(key) || Blank(username) || Blank(password)
    ensures RegisterStep(st, key, username, password, tSweep, tIssue, hash) == (st, MissingFields)
  {
  }

  /** The error checks after the sweep, in their order: unknown key (401),
      used key (401), username taken (400). None touches the key map; the
      account map only loses what the sweep removes. */
  lemma RegisterErrorPriority(st: Store, key: Field, username: Field, password: Field,
                              tSweep: int, tIssue: int, hash: string -> string)
    requires !Blank(key) && !Blank(username) && !Blank(password)
    ensures var (st', out) := RegisterStep(st, key, username, password, tSweep, tIssue, hash);
      var live := Sweep(st.users, tSweep);
      && (key.text !in st.keys ==> out == UnknownKey)
      && (key.text in st.keys && st.keys[key.text].used ==> out == KeyAlreadyUsed)
      && (key.text in st.keys && !st.keys[key.text].used && username.text in live ==> out == UsernameTaken)
      && (out != Registered ==> st' == Store(st.keys, live))
  {
  }

  /** Registration succeeds exactly when the fields are present, the key
      exists and is unused, and the username is free after the sweep. */
  lemma RegisterSucceedsIff(st: Store, key: Field, username: Field, password: Field,
                            tSweep: int, tIssue: int, hash: string -> string)
    ensures RegisterStep(st, key, username, password, tSweep, tIssue, hash).1 == Registered <==>
      && !Blank(key) && !Blank(username) && !Blank(password)
      && key.text in st.keys && !st.keys[key.text].used
      && username.text !in Sweep(st.users, tSweep)
  {
  }

  /** A successful registration adds the account with the hashed password and
      the key's expiry, marks the key used, and changes nothing else beyond
      the sweep. */
  lemma RegisterSuccessEffects(st: Store, key: Field, username: Field, password: Field,
                               tSweep: int, tIssue: int, hash: string -> string)
    requires RegisterStep(st, key, username, password, tSweep, tIssue, hash).1 == Registered
    ensures var st' := RegisterStep(st, key, username, password, tSweep, tIssue, hash).0;
      var k, u := key.text, username.text;
      && st'.users.Keys == Sweep(st.users, tSweep).Keys + {u}
      && u !in Sweep(st.users, tSweep)
      && st'.users[u] == UserRec(hash(password.text), ExpiryFor(st.keys[k].duration, tIssue))
      && (forall v :: v in Sweep(st.users, tSweep) ==> st'.users[v] == st.users[v])
      && st'.keys.Keys == st.keys.Keys
      && k in st.keys && !st.keys[k].used
      && st'.keys[k] == KeyRec(st.keys[k].duration, true)
      && (forall k' :: k' in st.keys && k' != k ==> st'.keys[k'] == st.keys[k'])
  {
  }

  /** A key that has registered once is refused every later time. */
  lemma RegisteredKeyIsSpent(st: Store, key: Field, username: Field, password: Field,
                             tSweep: int, tIssue: int, hash: string -> string,
                             username2: Field, password2: Field, tSweep2: int, tIssue2: int)
    requires RegisterStep(st, key, username, password, tSweep, tIssue, hash).1 == Registered
    requires !Blank(username2) && !Blank(password2)
    ensures var st' := RegisterStep(st, key, username, password, tSweep, tIssue, hash).0;
      RegisterStep(st', key, username2, password2, tSweep2, tIssue2, hash).1 == KeyAlreadyUsed
  {
  }

  /** Registration never replaces an existing live account. */
  lemma RegisterNeverOverwrites(st: Store, key: Field, username: Field, password: Field,
                                tSweep: int, tIssue: int, hash: string -> string, v: string)
    requires v in Sweep(st.users, tSweep)
    ensures var st' := RegisterStep(st, key, username, password, tSweep, tIssue, hash).0;
      v in st'.users && st'.users[v] == st.users[v]
  {
  }

  // ---------------------------------------------------------------- login

  /** A login without username or password gets 400 and changes nothing. */
  lemma LoginMissingFields(users: map<string, UserRec>, username: Field, password: Field,
                           tSweep: int, tCheck: int, hash: string -> string)
    requires Blank(username) || Blank(password)
    ensures LoginStep(users, username, password, tSweep, tCheck, hash) == (users, MissingFields)
  {
  }

  /** Login succeeds exactly when, after the sweep, the account exists, the
      password hashes to the stored digest and the account is still valid. */
  lemma LoginSucceedsIff(users: map<string, UserRec>, username: Field, password: Field,
                         tSweep: int, tCheck: int, hash: string -> string)
    ensures LoginStep(users, username, password, tSweep, tCheck, hash).1 == LoggedIn <==>
      && !Blank(username) && !Blank(password)
      && username.text in Sweep(users, tSweep)
      && Sweep(users, tSweep)[username.text].password == hash(password.text)
      && IsAccountValid(Sweep(users, tSweep)[username.text].expiry, tCheck)
  {
  }

  /** An unknown username and a wrong password give the same 401 answer, and
      the account map is then exactly the swept one. */
  lemma LoginSameErrorForUnknownAndWrong(users: map<string, UserRec>, username: Field, password: Field,
                                         tSweep: int, tCheck: int, hash: string -> string)
    requires !Blank(username) && !Blank(password)
    requires username.text !in Sweep(users, tSweep) ||
             Sweep(users, tSweep)[username.text].password != hash(password.text)
    ensures LoginStep(users, username, password, tSweep, tCheck, hash) == (Sweep(users, tSweep), BadCredentials)
  {
  }

  /** Login removes only what the sweep removes, plus the account it found
      expired; it never adds or alters an account. */
  lemma LoginOnlyRemoves(users: map<string, UserRec>, username: Field, password: Field,
                         tSweep: int, tCheck: int, hash: string -> string)
    ensures var (users', out) := LoginStep(users, username, password, tSweep, tCheck, hash);
      && users'.Keys <= users.Keys
      && (forall v :: v in users' ==> users'[v] == users[v])
      && (out == AccountExpired ==> users' == Sweep(users, tSweep) - {username.text})
      && (out != AccountExpired && out != MissingFields ==> users' == Sweep(users, tSweep))
  {
  }

  /** With the clock held still during the request (or set back), the
      "account expired" branch cannot be reached: the sweep already removed
      every account that the later check would find lapsed. */
  lemma NoExpiredBranchWithFixedClock(users: map<string, UserRec>, username: Field, password: Field,
                                      tSweep: int, tCheck: int, hash: string -> string)
    requires tCheck <= tSweep
    ensures LoginStep(users, username, password, tSweep, tCheck, hash).1 != AccountExpired
  {
  }

  /** Exactly when login answers "account expired": the account exists, the
      password matches, it was valid at the sweep's reading and has lapsed
      by the check's; that account is then deleted. */
  lemma LoginExpiredIff(users: map<string, UserRec>, username: Field, password: Field,
                        tSweep: int, tCheck: int, hash: string -> string)
    requires !Blank(username) && !Blank(password)
    ensures var (users', out) := LoginStep(users, username, password, tSweep, tCheck, hash);
      var u := username.text;
      && (out == AccountExpired <==>
            && u in users && users[u].password == hash(password.text)
            && IsAccountValid(users[u].expiry, tSweep) && !IsAccountValid(users[u].expiry, tCheck))
      && (out == AccountExpired ==> u !in users' && u in users)
  {
  }

  /** An instance of that branch: "bob" lapses at 100, the sweep reads 99
      and the check reads 100. */
  lemma ExpiredBranchNeedsClockToMove(hash: string -> string)
    ensures var users := map["bob" := UserRec(hash("pw"), At(100))];
      LoginStep(users, Given("bob"), Given("pw"), 99, 100, hash) == (map[], AccountExpired)
  {
    var users := map["bob" := UserRec(hash("pw"), At(100))];
    assert Sweep(users, 99) == users;
    assert users - {"bob"} == map[];
  }

  // ---------------------------------------------------------------- round trip

  /** Registering and then logging in with the same password, within 13 days,
      succeeds. */
  lemma RegisterThenLogin(st: Store, key: Field, username: Field, password: Field,
                          tSweep: int, tIssue: int, hash: string -> string, tSweep2: int, tCheck2: int)
    requires RegisterStep(st, key, username, password, tSweep, tIssue, hash).1 == Registered
    requires tSweep2 < tIssue + 13 * DaySeconds && tCheck2 < tIssue + 13 * DaySeconds
    ensures var st' := RegisterStep(st, key, username, password, tSweep, tIssue, hash).0;
      LoginStep(st'.users, username, password, tSweep2, tCheck2, hash).1 == LoggedIn
  {
    var st' := RegisterStep(st, key, username, password, tSweep, tIssue, hash).0;
    var e := ExpiryFor(st.keys[key.text].duration, tIssue);
    assert st'.users[username.text].expiry == e;
    assert IsAccountValid(e, tSweep2) && IsAccountValid(e, tCheck2);
    assert username.text in Sweep(st'.users, tSweep2);
  }

  /** With a "permanent" key, logging in with the same password succeeds at
      any later clock readings. */
  lemma RegisterPermanentThenLogin(st: Store, key: Field, username: Field, password: Field,
                                   tSweep: int, tIssue: int, hash: string -> string,
                                   tSweep2: int, tCheck2: int)
    requires RegisterStep(st, key, username, password, tSweep, tIssue, hash).1 == Registered
    requires st.keys[key.text].duration == Permanent
    ensures var st' := RegisterStep(st, key, username, password, tSweep, tIssue, hash).0;
      LoginStep(st'.users, username, password, tSweep2, tCheck2, hash).1 == LoggedIn
  {
    var st' := RegisterStep(st, key, username, password, tSweep, tIssue, hash).0;
    assert st'.users[username.text] == UserRec(hash(password.text), Never);
    assert username.text in Sweep(st'.users, tSweep2);
  }

  ghost predicate Injective(hash: string -> string) {
    forall a, b :: hash(a) == hash(b) ==> a == b
  }

  /** With an injective digest, a different password never logs into the
      account just registered. */
  lemma RegisterThenWrongPassword(st: Store, key: Field, username: Field, password: Field,
                                  tSweep: int, tIssue: int, hash: string -> string,
                                  other: Field, tSweep2: int, tCheck2: int)
    requires Injective(hash)
    requires RegisterStep(st, key, username, password, tSweep, tIssue, hash).1 == Registered
    requires !Blank(other) && other != password
    ensures var st' := RegisterStep(st, key, username, password, tSweep, tIssue, hash).0;
      LoginStep(st'.users, username, other, tSweep2, tCheck2, hash).1 == BadCredentials
  {
    var st' := RegisterStep(st, key, username, password, tSweep, tIssue, hash).0;
    assert st'.users[username.text].password == hash(password.text);
    assert hash(other.text) != hash(password.text);
  }
}
