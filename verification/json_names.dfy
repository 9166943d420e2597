/** What servtoolki.py does when registration receives a username that is a
    JSON integer or boolean (lines 128, 137, 35 and 28). */
module JsonNames {
  import opened Lifecycle

  /** Lines 128-143 followed by save_json and the next load_json. The check
      `username in users` compares the name with the stored string keys, so
      an integer or a boolean is never "taken". The new key is then written
      after the existing members, and json.load keeps the last of two equal
      member names. None is the "username taken" answer. */
  function AddAccountAsWritten(live: map<string, UserRec>, name: Name, rec: UserRec)
    : (r: Option<map<string, UserRec>>)
    ensures r.None? <==> name.Str? && name.s in live
    ensures r.Some? ==> r.value.Keys == live.Keys + {JsonKey(name)} && r.value[JsonKey(name)] == rec
  {
    if name.Str? && name.s in live then None else Some(live[JsonKey(name) := rec])
  }

  /** Any integer or boolean username passes the `username in users` test,
      and its record replaces the one stored under its spelling whenever
      AddAccount would refuse it as taken. (0 and false are stopped earlier,
      by the field check.) */
  lemma NonStringNameNeverTaken(live: map<string, UserRec>, name: Name, rec: UserRec)
    requires !name.Str?
    ensures AddAccountAsWritten(live, name, rec).Some?
    ensures AddAccountAsWritten(live, name, rec).value[JsonKey(name)] == rec
    ensures JsonKey(name) in live <==> AddAccount(live, name, rec).None?
  {
  }

  /** {"username": true} registers over the stored account "true". */
  lemma BooleanNameOverwrites(prior: UserRec, rec: UserRec)
    requires prior != rec
    ensures var live := map["true" := prior];
      && AddAccountAsWritten(live, Boolean(true), rec) == Some(map["true" := rec])
      && AddAccount(live, Boolean(true), rec).None?
  {
    var live := map["true" := prior];
    assert live["true" := rec] == map["true" := rec];
  }

  /** {"username": 5} registers over the stored account "5", which AddAccount
      refuses as taken. */
  lemma NumericNameOverwrites(prior: UserRec, rec: UserRec)
    requires prior != rec
    ensures var live := map["5" := prior];
      && AddAccountAsWritten(live, Int(5), rec) == Some(map["5" := rec])
      && AddAccountAsWritten(live, Int(5), rec).value["5"] != live["5"]
      && AddAccount(live, Int(5), rec).None?
  {
    var live := map["5" := prior];
    assert JsonKey(Int(5)) == "5";
    assert live["5" := rec] == map["5" := rec];
  }

  /** For string usernames, the only kind the request handlers here take,
      the code as written and AddAccount agree. */
  lemma StringNamesAgree(live: map<string, UserRec>, s: string, rec: UserRec)
    ensures AddAccountAsWritten(live, Str(s), rec) == AddAccount(live, Str(s), rec)
  {
  }
}
