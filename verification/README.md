# ServerBiniToolki activation keys and accounts, modelled in Dafny

`servtoolki.py` is a small Flask service. It has three request handlers
around two JSON stores:

- `generate_key_route` issues single-use activation keys. It checks the
  requested duration (13 days, 30 days or `"permanent"`), asks
  `generate_key` for candidates until one is not yet a key, and stores that
  key unused with its duration. A key is `"SKY-"` followed by 24 random
  upper-case letters or digits.
- `register` redeems an unused key to create an account. The account has a
  SHA-256 password digest and an expiry date.
- `login` checks a username and a password.

Before every login and every registration that passes the field check,
`clean_expired_accounts` deletes each account whose expiry date has passed.

The model has six modules:

- `KeyFormat` (`key_format.dfy`): the key format and `generate_key`. The
  24 `random.choice` calls become a *draw*, the sequence of alphabet
  indices that were picked. `DrawOf` reads the draw back out of a key. Both
  round trips are proved, so every well-formed key can be generated and
  different draws give different keys.
- `Lifecycle` (`lifecycle.dfy`): the entities as datatypes and each
  handler as a function from the stores to the new stores and the response.
  These functions are `IssueKey`, `LoginStep` and `RegisterStep`. The sweep
  is `Sweep`, and the responses are the `Outcome` datatype with their HTTP
  codes given by `Status`.
- `LifecycleProps` (`lifecycle_props.dfy`): properties of single requests.
  These cover the sweep, error priority, what success changes and what it
  leaves alone, the login "if and only if", when the "account
  expired" branch is taken (only if the clock moves forward between the
  sweep and the check), and the register-then-login round trip.
- `Traces` (`traces.dfy`): any sequence of requests. It proves that a key
  registers at most one account, that keys are never lost or un-used, and
  that a permanent account survives every request. It also proves an
  invariant of every reachable store: all keys are well formed, and there
  are never more accounts than redeemed keys.
- `Server` (`server.dfy`): the class `Service`. Its fields `keys` and
  `users` are updated in place by `CleanExpiredAccounts` (a loop over the
  accounts), `GenerateKeyRoute` (the `while key in keys` regeneration
  loop), `Login` and `Register`. Each method is proved to produce exactly
  the stores and the response that its `Lifecycle` function describes.
- `JsonNames` (`json_names.dfy`): registration with an integer or boolean
  username, as the code is written. It sits beside the string-only handlers of the
  model (see "Findings").

The parts the code does not control are parameters:

- **The clock.** Every `datetime.now()` reading is an integer number of
  seconds. Login takes two readings: one for the sweep and one for the
  check at line 99. Registration also takes two: one for the sweep and one
  for the expiry at line 135.
- **The password hash.** `hash_password` is an arbitrary function
  `string -> string`, kept in the service's `hash` field. Only the
  wrong-password lemma assumes it is injective.
- **Randomness.** The random choices are the sequence of draws that the
  regeneration loop consumes.

`servtoolki.py` has no session tokens: login and registration return only
a message (lines 100 and 146).

Usernames reach the handlers as JSON values. The handlers of the model take
strings. A separate module, `JsonNames` (`json_names.dfy`), looks at an
integer or boolean username. `users.json` stores such a name under its
spelling: decimal digits, or `true`/`false` (see "Findings").

## Model

| member | source | states |
|---|---|---|
| KeyFormat.Pick | servtoolki.py:61 | each draw index below 36 selects a character of ascii_uppercase + digits |
| KeyFormat.Rank | servtoolki.py:61 | every key character has an alphabet index, and picking that index gives the character back |
| KeyFormat.Suffix | servtoolki.py:61 | the joined random choices have one character per draw, each an upper-case letter or digit |
| KeyFormat.GenerateKey | servtoolki.py:60-61 | a generated key is well formed: "SKY-", length 28, the last 24 characters from A-Z0-9 |
| KeyFormat.RanksOfSuffix | servtoolki.py:61 | reading back the picked characters recovers the draw (induction) |
| KeyFormat.SuffixOfRanks | servtoolki.py:61 | picking the read-back indices rebuilds the characters (induction) |
| KeyFormat.DrawOfGenerateKey | servtoolki.py:60-61 | a key determines the random choices that produced it |
| KeyFormat.GenerateKeyOfDrawOf | servtoolki.py:60-61 | every well-formed key is a possible output of generate_key |
| KeyFormat.GenerateKeyInjective | servtoolki.py:60-61 | different random choices give different keys |
| Lifecycle.Status | servtoolki.py:70-146 | 200 exactly for the three successes; 400 for bad duration, missing fields, taken username; 401 for unknown key, used key, bad credentials, expired account |
| Lifecycle.ParseDuration | servtoolki.py:69-70 | a duration is accepted only as 13, 30 or "permanent", and as the one it spells |
| Lifecycle.Blank | servtoolki.py:92-93 | a field that is not blank is a non-empty string (Python's `not field` is false) |
| Lifecycle.DaysOf | servtoolki.py:131-135 | a dated key lasts the number of days the client asked for: 13 for 13, 30 for 30 |
| Lifecycle.IsAccountValid | servtoolki.py:42-46 | "permanent" is valid at every clock reading; a dated account is valid iff the clock is strictly before its expiry |
| Lifecycle.Digits | servtoolki.py:35 | json.dump spells an integer with one or more decimal digits, with no leading zero except for 0 itself |
| Lifecycle.DigitsRoundTrip | servtoolki.py:35 | those digits spell the integer: read back left to right they give n (induction) |
| Lifecycle.Decimal | servtoolki.py:35 | str(i): the digits of the integer read back to its value, digits only and no leading zero, with a leading "-" when negative |
| Lifecycle.JsonKey | servtoolki.py:35 | a string username is stored under itself, an integer under its decimal spelling, a boolean as "true" or "false" |
| Lifecycle.AddAccount | servtoolki.py:128-140 | a name is refused iff its stored spelling is already an account; otherwise exactly that one account is added, and every existing account keeps its record |
| Lifecycle.ExpiryFor | servtoolki.py:131-135 | a permanent key gives the "permanent" sentinel; otherwise the expiry is the clock plus the key's days |
| Lifecycle.Sweep | servtoolki.py:49-57 | the sweep only removes accounts, and all that remain are valid |
| Lifecycle.FirstFresh | servtoolki.py:72-75 | the regeneration loop ends on a well-formed key that is not in the key map |
| Lifecycle.IssueKey | servtoolki.py:66-83 | a key is issued iff the duration is valid; the issued key is new and is the only key added; otherwise 400 with the map unchanged |
| Lifecycle.LoginStep | servtoolki.py:87-105 | login never adds accounts and answers only missing fields, success, expired, or bad credentials |
| Lifecycle.RegisterStep | servtoolki.py:109-146 | registration never adds or removes keys; every failure leaves the key map unchanged and only removes accounts (the account is added by AddAccount) |
| LifecycleProps.ExpiryIsAThreshold | servtoolki.py:42-46 | "permanent" is always valid; a dated account is valid strictly before its deadline and never again after it lapses |
| LifecycleProps.NewAccountLifetime | servtoolki.py:131-135 | a new account is valid exactly until its key's number of days has passed, or forever |
| LifecycleProps.SweepKeepsExactlyTheValid | servtoolki.py:49-57 | the sweep keeps exactly the valid accounts with unchanged records, and never grows the map |
| LifecycleProps.SweepIdempotent | servtoolki.py:49-57 | with the clock unchanged a second sweep removes nothing |
| LifecycleProps.SweepLaterSubsumesEarlier | servtoolki.py:49-57 | sweeping at an earlier then a later reading equals sweeping at the later one |
| LifecycleProps.SweepKeepsPermanent | servtoolki.py:43-44 | a permanent account survives every sweep unchanged |
| LifecycleProps.ParseDurationAcceptsExactly | servtoolki.py:69-70 | each of the three spellings is accepted as itself, and a value is accepted as a duration iff it is that duration's spelling |
| LifecycleProps.FirstFreshIsFirstUnused | servtoolki.py:72-75 | the stored key is the first drawn candidate not already a key, and every earlier candidate collided |
| LifecycleProps.IssueKeyRejectsInvalidDuration | servtoolki.py:69-70 | any other duration gets 400 and leaves the key map unchanged |
| LifecycleProps.IssueKeyAddsFreshUnusedKey | servtoolki.py:72-83 | a valid duration gets 200, and the key is well formed and new; it is stored with that duration and used = false; no other key changes |
| LifecycleProps.RegisterMissingFields | servtoolki.py:115-116 | a missing or empty key, username or password gets 400 and changes nothing |
| LifecycleProps.RegisterErrorPriority | servtoolki.py:118-129 | after the sweep: unknown key, then used key, then taken username; each failure leaves keys unchanged and users equal to the swept map |
| LifecycleProps.RegisterSucceedsIff | servtoolki.py:115-146 | registration succeeds iff all fields are present, the key exists unused, and the username is free after the sweep |
| LifecycleProps.RegisterSuccessEffects | servtoolki.py:131-144 | success adds the account with hash(password) and the key's expiry and marks the key used; every other key and surviving account is untouched |
| LifecycleProps.RegisteredKeyIsSpent | servtoolki.py:125-126 | a key that registered once gets "key already used" on any later registration |
| LifecycleProps.RegisterNeverOverwrites | servtoolki.py:128-129 | an account that survives the sweep keeps its record through registration |
| LifecycleProps.LoginMissingFields | servtoolki.py:92-93 | a missing or empty username or password gets 400 and changes nothing |
| LifecycleProps.LoginSucceedsIff | servtoolki.py:95-100 | login succeeds iff, after the sweep, the user exists, hash(password) matches and the account is valid |
| LifecycleProps.LoginSameErrorForUnknownAndWrong | servtoolki.py:98-105 | unknown user and wrong password give the same 401, and the store is just the swept one |
| LifecycleProps.LoginOnlyRemoves | servtoolki.py:95-104 | login removes only swept accounts and, on the expired branch, the account found expired |
| LifecycleProps.NoExpiredBranchWithFixedClock | servtoolki.py:95-104 | with the clock held (or set back) between sweep and check, "account expired" is never answered |
| LifecycleProps.LoginExpiredIff | servtoolki.py:95-104 | with both fields given, "account expired" is answered iff the user exists with that digest, is valid at the sweep's reading and not at the check's; the account is then deleted |
| LifecycleProps.ExpiredBranchNeedsClockToMove | servtoolki.py:99-104 | one instance of that branch: an account lapsing between sweep and check is deleted and answered "account expired" |
| LifecycleProps.RegisterThenLogin | servtoolki.py:98-100 | within 13 days of registering, logging in with the same password succeeds |
| LifecycleProps.RegisterPermanentThenLogin | servtoolki.py:132-133 | with a "permanent" key, logging in with the same password succeeds at every later clock reading |
| LifecycleProps.RegisterThenWrongPassword | servtoolki.py:98-105 | with an injective digest, any other password fails with bad credentials |
| Traces.EmptyStoreInv | servtoolki.py:16-22 | the empty stores satisfy the service invariant |
| Traces.StepKeepsKeys | servtoolki.py:77-80 | no request deletes a key, changes its duration, or resets used to false |
| Traces.IssuePreservesInv | servtoolki.py:72-80 | issuing a key keeps the invariant and leaves the set of used keys as it was |
| Traces.LoginPreservesInv | servtoolki.py:95-104 | login keeps the invariant, because it only removes accounts |
| Traces.RegisterPreservesInv | servtoolki.py:118-144 | registration keeps the invariant: it adds an account only while spending an unused key |
| Traces.StepPreservesInv | servtoolki.py:72-144 | every request keeps keys well formed and accounts at most the number of used keys |
| Traces.RunPreservesInv | servtoolki.py:72-144 | every reachable store satisfies the invariant |
| Traces.UsedKeyNeverRegisters | servtoolki.py:125-126 | a used key is refused by every later registration in any run |
| Traces.KeyRegistersAtMostOnce | servtoolki.py:125-141 | in any run, two registrations with the same key do not both succeed |
| Traces.PermanentAccountPersists | servtoolki.py:132-133 | a permanent account survives every later request, however far the clock moves |
| Server.Service.constructor | servtoolki.py:16-22 | the service starts with both stores empty |
| Server.Service.CleanExpiredAccounts | servtoolki.py:49-57 | the loop leaves exactly the swept map: only valid accounts remain, every valid one unchanged |
| Server.Service.GenerateKeyRoute | servtoolki.py:65-83 | the regeneration loop stores a fresh well-formed key unused; an invalid duration changes nothing; equals IssueKey |
| Server.Service.Login | servtoolki.py:87-105 | the handler's new account map and response equal LoginStep |
| Server.Service.Register | servtoolki.py:109-146 | the handler's new stores and response equal RegisterStep; a failure leaves keys unchanged |
| Server.Scenario | servtoolki.py:65-146 | with its helpers RegisterAttempts and LoginAttempts, on an empty service: a 13-day key is issued well formed; it registers "bob" and is then refused as used; "bob" logs in with the same password and gets 401 with another one and 400 with an empty one |
| JsonNames.AddAccountAsWritten | servtoolki.py:128-137 | as written: only a string username can be "taken", and the account is stored under the name's spelling |
| JsonNames.NonStringNameNeverTaken | servtoolki.py:128-137 | an integer or boolean username always passes the `username in users` test at line 128, and its record replaces any account stored under its spelling, which AddAccount refuses |
| JsonNames.BooleanNameOverwrites | servtoolki.py:128-137 | registering `true` replaces the record of the existing account "true", where AddAccount refuses it |
| JsonNames.NumericNameOverwrites | servtoolki.py:128-137 | registering the integer 5 replaces the record of the existing account "5", where AddAccount refuses it |
| JsonNames.StringNamesAgree | servtoolki.py:128-129 | for string usernames the code as written and AddAccount agree |

## Left out

- The Flask layer is not modelled: routing, `request.get_json`, `jsonify`
  and the message texts. Responses are the `Outcome` datatype with their
  HTTP status.
- A request body that is not a JSON object is not modelled.
- Fields that are JSON values other than a string or null are not modelled
  by the handlers. The source handles them as follows:
  - `0`, `false`, `[]` and `{}` count as missing and get 400 (lines 92-93,
    115-116).
  - A number or `true` as the key gets 401 "invalid key" (lines 122-123).
    As the login username it gets 401 "bad credentials" (line 105).
  - A non-empty list or object as key or username raises `TypeError` at line
    98, 122 or 128, because it cannot be a dict key.
  - A password that is not a string raises `AttributeError` in
    `hash_password` (line 39) once it is reached.
  - An integer or boolean username in registration is the finding below.
    `JsonNames` models only that part, not the handler around it.
  - A float username in registration takes the same path: `5.0` replaces
    the account `"5.0"`. The model has no floats as names, because Python's
    spelling of a float is not modelled.
- A password holding a lone surrogate (`"\ud800"`, which JSON allows) is
  not modelled, because a Dafny string cannot hold one. `password.encode()`
  at line 39 raises on it and the request fails with 500. In login that
  happens once line 98 finds the user; in registration at line 138, after
  the sweep is saved and before the key is spent.
- File I/O is not modelled: `init_files`, `load_json` and `save_json`.
  Neither is the behaviour of turning an unreadable file into an empty
  map. The two stores are in-memory maps. `load_json` after a save is
  taken to return what was saved.
- Server.Service.CleanExpiredAccounts: the `updated` flag is left out,
  because it only decides whether the file is rewritten.
- SHA-256 is not modelled. The digest is an arbitrary function, and it is
  assumed injective only in `RegisterThenWrongPassword`.
- `datetime`, `timedelta` and ISO-8601 text are not modelled. Times are
  integer seconds, and a day is 86400 of them. Sub-second precision is
  lost.
- Lifecycle.Sweep: the source reads the clock once per account during the
  sweep. The model uses one reading for the whole sweep.
- Server.Service.GenerateKeyRoute: requires that the random draws reach a
  candidate that is not yet a key (`RandomStream`). The source loops until
  one appears, which ends with probability 1 but is not guaranteed.
- Lifecycle.ParseDuration: `13.0` is accepted like `13`, because Python
  compares them as equal. The source then stores and echoes the float
  spelling, which the model does not distinguish.
- Key records with a duration other than the three values can only come
  from hand-edited files, so they are not modelled.
- Concurrent requests are not modelled. Each request runs to completion
  before the next, so the double redemption that unsynchronised
  registrations allow is out of scope.
- Process start-up (`app.run`) is not modelled.

## Findings

| source | as written | input that shows it | evidently intended | confidence | as-written member | corrected member |
|---|---|---|---|---|---|---|
| servtoolki.py:128-137 | `username in users` compares an integer, boolean or float username with string names, so it is never taken; `users[5]` is added beside `"5"`, `json.dump` (line 35) writes both as `"5"`, and `json.load` (line 28) keeps the last, the new record. The key is spent too. | `{"key": <unused key>, "username": 5, "password": "pw"}` while the account `"5"` exists | refuse with "username taken" (400), as for the string `"5"` | not executed | JsonNames.AddAccountAsWritten, JsonNames.NonStringNameNeverTaken, JsonNames.NumericNameOverwrites | Lifecycle.AddAccount |
