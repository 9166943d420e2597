/** Sequences of requests against the two stores: what holds across any
    interleaving of key issuance, registration and login. */
module Traces {
  import opened KeyFormat
  import opened Lifecycle
  import LifecycleProps

  /** One request, with the clock readings and random draws it consumes. */
  datatype Request =
    | IssueKeyRequest(duration: DurationField, draws: seq<seq<nat>>)
    | LoginRequest(username: Field, password: Field, tSweep: int, tCheck: int)
    | RegisterRequest(key: Field, username: Field, password: Field, tSweep: int, tIssue: int)

  /** The random draws of an issuance reach a fresh key. */
  predicate CanStep(st: Store, req: Request) {
    req.IssueKeyRequest? ==> RandomStream(st.keys, req.draws)
  }

  function Step(st: Store, req: Request, hash: string -> string): (r: (Store, Outcome))
    requires CanStep(st, req)
  {
    match req
    case IssueKeyRequest(d, draws) =>
      var (keys', out) := IssueKey(st.keys, d, draws);
      (Store(keys', st.users), out)
    case LoginRequest(u, p, t1, t2) =>
      var (users', out) := LoginStep(st.users, u, p, t1, t2, hash);
      (Store(st.keys, users'), out)
    case RegisterRequest(k, u, p, t1, t2) =>
      RegisterStep(st, k, u, p, t1, t2, hash)
  }

  predicate Feasible(st: Store, reqs: seq<Request>, hash: string -> string)
    decreases |reqs|
  {
    reqs != [] ==> CanStep(st, reqs[0]) && Feasible(Step(st, reqs[0], hash).0, reqs[1..], hash)
  }

  /** The final store and the response to each request, in order. */
  function Run(st: Store, reqs: seq<Request>, hash: string -> string): (r: (Store, seq<Outcome>))
    requires Feasible(st, reqs, hash)
    ensures |r.1| == |reqs|
    decreases |reqs|
  {
    if reqs == [] then (st, [])
    else
      var (st1, out) := Step(st, reqs[0], hash);
      var (st', outs) := Run(st1, reqs[1..], hash);
      (st', [out] + outs)
  }

  function UsedKeys(keys: map<string, KeyRec>): set<string> {
    set k | k in keys && keys[k].used
  }

  /** What the service keeps true of its stores: every key has the issued
      shape, and there are never more accounts than redeemed keys. */
  predicate Inv(st: Store) {
    && (forall k :: k in st.keys ==> WellFormedKey(k))
    && |st.users| <= |UsedKeys(st.keys)|
  }

  /** The stores as init_files creates them. */
  lemma EmptyStoreInv()
    ensures Inv(Store(map[], map[]))
  {
  }

  /** Keys are never deleted, never change duration, and once used stay used. */
  lemma StepKeepsKeys(st: Store, req: Request, hash: string -> string, k: string)
    requires CanStep(st, req) && k in st.keys
    ensures var st' := Step(st, req, hash).0;
      k in st'.keys && st'.keys[k].duration == st.keys[k].duration
      && (st.keys[k].used ==> st'.keys[k].used)
  {
  }

  /** Issuing a key adds a well-formed unused key and leaves the accounts alone. */
  lemma IssuePreservesInv(st: Store, d: DurationField, draws: seq<seq<nat>>)
    requires RandomStream(st.keys, draws) && Inv(st)
    ensures Inv(Store(IssueKey(st.keys, d, draws).0, st.users))
    ensures UsedKeys(IssueKey(st.keys, d, draws).0) == UsedKeys(st.keys)
  {
    var keys' := IssueKey(st.keys, d, draws).0;
    assert UsedKeys(keys') == UsedKeys(st.keys);
  }

  /** Login only removes accounts. */
  lemma LoginPreservesInv(st: Store, u: Field, p: Field, t1: int, t2: int, hash: string -> string)
    requires Inv(st)
    ensures Inv(Store(st.keys, LoginStep(st.users, u, p, t1, t2, hash).0))
  {
    LifecycleProps.LoginOnlyRemoves(st.users, u, p, t1, t2, hash);
    LifecycleProps.SubsetCardinality(LoginStep(st.users, u, p, t1, t2, hash).0.Keys, st.users.Keys);
  }

  /** A registration adds one account exactly when it spends one key. */
  lemma RegisterPreservesInv(st: Store, k: Field, u: Field, p: Field, t1: int, t2: int,
                             hash: string -> string)
    requires Inv(st)
    ensures Inv(RegisterStep(st, k, u, p, t1, t2, hash).0)
  {
    var (st', out) := RegisterStep(st, k, u, p, t1, t2, hash);
    var live := Sweep(st.users, t1);
    LifecycleProps.SweepKeepsExactlyTheValid(st.users, t1);
    if out == Registered {
      LifecycleProps.RegisterSuccessEffects(st, k, u, p, t1, t2, hash);
      assert UsedKeys(st'.keys) == UsedKeys(st.keys) + {k.text};
      assert k.text !in UsedKeys(st.keys);
      assert st'.users.Keys == live.Keys + {u.text};
      assert u.text !in live.Keys;
    } else if !(Blank(k) || Blank(u) || Blank(p)) {
      LifecycleProps.RegisterErrorPriority(st, k, u, p, t1, t2, hash);
    }
  }

  lemma StepPreservesInv(st: Store, req: Request, hash: string -> string)
    requires CanStep(st, req) && Inv(st)
    ensures Inv(Step(st, req, hash).0)
  {
    match req
    case IssueKeyRequest(d, draws) => IssuePreservesInv(st, d, draws);
    case LoginRequest(u, p, t1, t2) => LoginPreservesInv(st, u, p, t1, t2, hash);
    case RegisterRequest(k, u, p, t1, t2) => RegisterPreservesInv(st, k, u, p, t1, t2, hash);
  }

  /** Every reachable store satisfies Inv. */
  lemma {:induction false} RunPreservesInv(st: Store, reqs: seq<Request>, hash: string -> string)
    requires Feasible(st, reqs, hash) && Inv(st)
    ensures Inv(Run(st, reqs, hash).0)
    decreases |reqs|
  {
    if reqs != [] {
      StepPreservesInv(st, reqs[0], hash);
      RunPreservesInv(Step(st, reqs[0], hash).0, reqs[1..], hash);
    }
  }

  /** A used key is refused by every registration in any later run. */
  lemma {:induction false} UsedKeyNeverRegisters(st: Store, reqs: seq<Request>, hash: string -> string,
                                                 k: string, j: nat)
    requires Feasible(st, reqs, hash)
    requires k in st.keys && st.keys[k].used
    requires j < |reqs| && reqs[j].RegisterRequest? && reqs[j].key == Given(k)
    ensures Run(st, reqs, hash).1[j] != Registered
    decreases |reqs|
  {
    var st1 := Step(st, reqs[0], hash).0;
    StepKeepsKeys(st, reqs[0], hash, k);
    if j > 0 {
      UsedKeyNeverRegisters(st1, reqs[1..], hash, k, j - 1);
    }
  }

  /** Single use: within any run, a key registers at most one account. */
  lemma {:induction false} KeyRegistersAtMostOnce(st: Store, reqs: seq<Request>, hash: string -> string,
                                                  k: string, i: nat, j: nat)
    requires Feasible(st, reqs, hash)
    requires i < j < |reqs|
    requires reqs[i].RegisterRequest? && reqs[i].key == Given(k)
    requires reqs[j].RegisterRequest? && reqs[j].key == Given(k)
    ensures Run(st, reqs, hash).1[i] != Registered || Run(st, reqs, hash).1[j] != Registered
    decreases |reqs|
  {
    var st1 := Step(st, reqs[0], hash).0;
    if i == 0 {
      if Step(st, reqs[0], hash).1 == Registered {
        var r := reqs[0];
        LifecycleProps.RegisterSuccessEffects(st, r.key, r.username, r.password, r.tSweep, r.tIssue, hash);
        UsedKeyNeverRegisters(st1, reqs[1..], hash, k, j - 1);
      }
    } else {
      KeyRegistersAtMostOnce(st1, reqs[1..], hash, k, i - 1, j - 1);
    }
  }

  /** An account created from a "permanent" key is never removed or altered,
      whatever requests follow and however far the clock moves. */
  lemma {:induction false} PermanentAccountPersists(st: Store, reqs: seq<Request>, hash: string -> string,
                                                    u: string)
    requires Feasible(st, reqs, hash)
    requires u in st.users && st.users[u].expiry == Never
    ensures u in Run(st, reqs, hash).0.users && Run(st, reqs, hash).0.users[u] == st.users[u]
    decreases |reqs|
  {
    if reqs != [] {
      var st1 := Step(st, reqs[0], hash).0;
      match reqs[0] {
        case IssueKeyRequest(_, _) =>
        case LoginRequest(un, p, t1, t2) =>
          LifecycleProps.SweepKeepsPermanent(st.users, t1, u);
        case RegisterRequest(k, un, p, t1, t2) =>
          LifecycleProps.SweepKeepsPermanent(st.users, t1, u);
          LifecycleProps.RegisterNeverOverwrites(st, k, un, p, t1, t2, hash, u);
      }
      PermanentAccountPersists(st1, reqs[1..], hash, u);
    }
  }
}
