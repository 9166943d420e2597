/** The activation-key and account lifecycle of servtoolki.py as functions
    over the two stores: the key map (keys.json) and the account map
    (users.json). Clock readings, the password hash and the random draws
    are parameters. */
module Lifecycle {
  import opened KeyFormat

  /** timedelta(days=1), with the clock counted in seconds. */
  const DaySeconds: int := 86400

  datatype Option<T> = None | Some(value: T)

  /** The durations a key may carry: 13 or 30 days, or "permanent". */
  datatype Duration = Days13 | Days30 | Permanent

  /** An account's "expiry_date": the sentinel "permanent" or a point in time. */
  datatype Expiry = Never | At(deadline: int)

  /** A record of keys.json: {"duration": ..., "used": ...}. */
  datatype KeyRec = KeyRec(duration: Duration, used: bool)

  /** A record of users.json: {"password": <hex digest>, "expiry_date": ...}. */
  datatype UserRec = UserRec(password: string, expiry: Expiry)

  /** Both persisted collections. */
  datatype Store = Store(keys: map<string, KeyRec>, users: map<string, UserRec>)

  /** A string field of a request body as data.get returns it: absent (or JSON null) or a string. */
  datatype Field = Absent | Given(text: string)

  /** Python's `not field` for such a value: None or the empty string. */
  predicate Blank(f: Field)
    ensures !Blank(f) ==> f.Given? && |f.text| > 0
  {
    f.Absent? || f.text == ""
  }

  /** A username as the JSON decoder may hand it over: a string, an integer
      or a boolean. The request handlers of this model take strings; the
      other two matter only for what users.json stores. */
  datatype Name = Str(s: string) | Int(i: int) | Boolean(b: bool)

  /** The decimal digits of n, as json.dump writes an integer. */
  function Digits(n: nat): (s: string)
    ensures |s| > 0
    ensures forall i :: 0 <= i < |s| ==> '0' <= s[i] <= '9'
    ensures s[0] == '0' ==> n == 0
  {
    if n < 10 then [('0' as int + n) as char] else Digits(n / 10) + [('0' as int + n % 10) as char]
  }

  /** The number a string of decimal digits denotes, read left to right. */
  function ValueOf(s: string): int {
    if s == [] then 0 else ValueOf(s[..|s| - 1]) * 10 + (s[|s| - 1] as int - '0' as int)
  }

  /** Digits spells n: reading the digits back gives n. */
  lemma {:induction false} DigitsRoundTrip(n: nat)
    ensures ValueOf(Digits(n)) == n
  {
    if n >= 10 {
      DigitsRoundTrip(n / 10);
      assert Digits(n)[..|Digits(n)| - 1] == Digits(n / 10);
    }
  }

  /** str(i): how json.dump spells an integer dict key. */
  function Decimal(i: int): (k: string)
    ensures i >= 0 ==> ValueOf(k) == i && |k| > 0 && forall j :: 0 <= j < |k| ==> '0' <= k[j] <= '9'
    ensures i >= 0 ==> (k[0] == '0' ==> i == 0)
    ensures i < 0 ==> |k| > 1 && k[0] == '-' && ValueOf(k[1..]) == -i
    ensures i < 0 ==> k[1] != '0' && forall j :: 1 <= j < |k| ==> '0' <= k[j] <= '9'
  {
    if i < 0 then
      DigitsRoundTrip(-i);
      var d := Digits(-i);
      assert ("-" + d)[1..] == d;
      "-" + d
    else
      DigitsRoundTrip(i);
      Digits(i)
  }

  /** The member name under which json.dump stores a dict key. */
  function JsonKey(n: Name): (k: string)
    ensures n.Str? ==> k == n.s
    ensures n.Int? ==> k == Decimal(n.i)
    ensures n.Boolean? ==> k == (if n.b then "true" else "false")
  {
    match n
    case Str(s) => s
    case Int(i) => Decimal(i)
    case Boolean(b) => if b then "true" else "false"
  }

  /** Adds an account unless its name is taken, judging "taken" by the name
      as users.json will store it. None is the "username taken" answer. */
  function AddAccount(live: map<string, UserRec>, name: Name, rec: UserRec)
    : (r: Option<map<string, UserRec>>)
    ensures r.None? <==> JsonKey(name) in live
    ensures r.Some? ==> r.value.Keys == live.Keys + {JsonKey(name)} && r.value[JsonKey(name)] == rec
    ensures r.Some? ==> forall v :: v in live ==> r.value[v] == live[v]
  {
    if JsonKey(name) in live then None else Some(live[JsonKey(name) := rec])
  }

  /** The "duration" field of an issuance request, as the JSON decoder hands it over.
      JSON integers and floats are both numbers: Python compares 13 == 13.0. */
  datatype DurationField = Missing | Flag(b: bool) | Number(n: real) | Text(s: string) | Compound

  /** The response of an operation; Status gives its HTTP code. */
  datatype Outcome =
    | KeyIssued(key: string, duration: Duration)
    | LoggedIn
    | Registered
    | InvalidDuration
    | MissingFields
    | UsernameTaken
    | UnknownKey
    | KeyAlreadyUsed
    | BadCredentials
    | AccountExpired

  function Status(o: Outcome): (code: int)
    ensures code == 200 <==> (o.KeyIssued? || o.LoggedIn? || o.Registered?)
    ensures code == 400 <==> (o.InvalidDuration? || o.MissingFields? || o.UsernameTaken?)
    ensures code == 401 <==> (o.UnknownKey? || o.KeyAlreadyUsed? || o.BadCredentials? || o.AccountExpired?)
  {
    match o
    case KeyIssued(_, _) => 200
    case LoggedIn => 200
    case Registered => 200
    case InvalidDuration => 400
    case MissingFields => 400
    case UsernameTaken => 400
    case _ => 401
  }

  /** The JSON value by which a client asks for a duration. */
  function Spelling(d: Duration): DurationField {
    match d
    case Days13 => Number(13.0)
    case Days30 => Number(30.0)
    case Permanent => Text("permanent")
  }

  /** `duration in [13, 30, "permanent"]`, and which of the three it is. */
  function ParseDuration(v: DurationField): (r: Option<Duration>)
    ensures r.Some? ==> Spelling(r.value) == v
  {
    match v
    case Number(n) =>
      if n == 13.0 then Some(Days13) else if n == 30.0 then Some(Days30) else None
    case Text(s) => if s == "permanent" then Some(Permanent) else None
    case _ => None
  }

  /** timedelta(days=duration): the number of days is the requested number itself. */
  function DaysOf(d: Duration): (n: nat)
    requires d != Permanent
    ensures Spelling(d) == Number(n as real)
  {
    if d == Days13 then 13 else 30
  }

  /** is_account_valid at clock reading `now`. */
  predicate IsAccountValid(e: Expiry, now: int)
    ensures e.Never? ==> IsAccountValid(e, now)
    ensures e.At? ==> (IsAccountValid(e, now) <==> now < e.deadline)
  {
    match e
    case Never => true
    case At(deadline) => now < deadline
  }

  /** The accounts clean_expired_accounts keeps. */
  function Sweep(users: map<string, UserRec>, now: int): (r: map<string, UserRec>)
    ensures r.Keys <= users.Keys
    ensures forall u :: u in r ==> IsAccountValid(r[u].expiry, now)
  {
    map u | u in users && IsAccountValid(users[u].expiry, now) :: users[u]
  }

  /** The expiry a new account gets from its key's duration (register, lines 131-135). */
  function ExpiryFor(d: Duration, now: int): (e: Expiry)
    ensures e.Never? <==> d == Permanent
    ensures e.At? ==> e.deadline == now + DaysOf(d) * DaySeconds
  {
    if d == Permanent then Never else At(now + DaysOf(d) * DaySeconds)
  }

  /** The random draws the regeneration loop consumes: valid draws up to and
      including the first candidate that is not yet a key. */
  predicate RandomStream(keys: map<string, KeyRec>, draws: seq<seq<nat>>)
    decreases |draws|
  {
    && |draws| > 0
    && ValidDraw(draws[0])
    && (GenerateKey(draws[0]) in keys ==> RandomStream(keys, draws[1..]))
  }

  /** The key the `while key in keys` loop settles on. */
  function FirstFresh(keys: map<string, KeyRec>, draws: seq<seq<nat>>): (k: string)
    requires RandomStream(keys, draws)
    ensures k !in keys && WellFormedKey(k)
    decreases |draws|
  {
    if GenerateKey(draws[0]) !in keys then GenerateKey(draws[0]) else FirstFresh(keys, draws[1..])
  }

  /** generate_key_route: the new key map and the response. */
  function IssueKey(keys: map<string, KeyRec>, duration: DurationField, draws: seq<seq<nat>>)
    : (r: (map<string, KeyRec>, Outcome))
    requires RandomStream(keys, draws)
    ensures r.1.KeyIssued? <==> ParseDuration(duration).Some?
    ensures r.1.KeyIssued? ==> r.1.key !in keys && r.0.Keys == keys.Keys + {r.1.key}
    ensures !r.1.KeyIssued? ==> r.1 == InvalidDuration && r.0 == keys
  {
    match ParseDuration(duration)
    case None => (keys, InvalidDuration)
    case Some(d) =>
      var k := FirstFresh(keys, draws);
      (keys[k := KeyRec(d, false)], KeyIssued(k, d))
  }

  /** login: the account map after the request and the response. `tSweep` is
      the clock as clean_expired_accounts reads it, `tCheck` as line 99 reads it. */
  function LoginStep(users: map<string, UserRec>, username: Field, password: Field,
                     tSweep: int, tCheck: int, hash: string -> string)
    : (r: (map<string, UserRec>, Outcome))
    ensures r.0.Keys <= users.Keys
    ensures r.1 in {MissingFields, LoggedIn, AccountExpired, BadCredentials}
  {
    if Blank(username) || Blank(password) then (users, MissingFields)
    else
      var live := Sweep(users, tSweep);
      var u := username.text;
      if u in live && live[u].password == hash(password.text) then
        if IsAccountValid(live[u].expiry, tCheck) then (live, LoggedIn)
        else (live - {u}, AccountExpired)
      else (live, BadCredentials)
  }

  /** register: both stores after the request and the response. `tSweep` is
      the clock as clean_expired_accounts reads it, `tIssue` as line 135 reads it. */
  function RegisterStep(st: Store, key: Field, username: Field, password: Field,
                        tSweep: int, tIssue: int, hash: string -> string)
    : (r: (Store, Outcome))
    ensures r.0.keys.Keys == st.keys.Keys
    ensures r.1 in {MissingFields, UnknownKey, KeyAlreadyUsed, UsernameTaken, Registered}
    ensures r.1 != Registered ==> r.0.keys == st.keys && r.0.users.Keys <= st.users.Keys
  {
    if Blank(key) || Blank(username) || Blank(password) then (st, MissingFields)
    else
      var live := Sweep(st.users, tSweep);
      var k, u := key.text, username.text;
      if k !in st.keys then (Store(st.keys, live), UnknownKey)
      else if st.keys[k].used then (Store(st.keys, live), KeyAlreadyUsed)
      else
        var rec := UserRec(hash(password.text), ExpiryFor(st.keys[k].duration, tIssue));
        match AddAccount(live, Str(u), rec)
        case None => (Store(st.keys, live), UsernameTaken)
        case Some(users') => (Store(st.keys[k := st.keys[k].(used := true)], users'), Registered)
  }
}
