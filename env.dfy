/** Validation of the build-time environment that configures the backend
    client: four keys must be present and non-empty. */
module Env {
  import opened Wrappers
  import opened Seqs

  /** The environment record; a key that is absent reads as `undefined`. */
  type EnvMap = map<string, string>

  /** The configuration handed to the backend client. */
  datatype FirebaseEnv = FirebaseEnv(apiKey: string, authDomain: string, projectId: string, appId: string)

  const API_KEY: string := "VITE_FIREBASE_API_KEY"
  const AUTH_DOMAIN: string := "VITE_FIREBASE_AUTH_DOMAIN"
  const PROJECT_ID: string := "VITE_FIREBASE_PROJECT_ID"
  const APP_ID: string := "VITE_FIREBASE_APP_ID"

  /** The required keys, in the order they are reported. */
  const REQUIRED: seq<string> := [API_KEY, AUTH_DOMAIN, PROJECT_ID, APP_ID]

  const MISSING_PREFIX: string := "Missing env: "

  /** `env[key]` is truthy: present and not "". */
  predicate IsSet(env: EnvMap, key: string) {
    key in env && env[key] != ""
  }

  /** The keys of `keys` that are not set in `env`, in their order there. */
  function MissingKeys(env: EnvMap, keys: seq<string>): (r: seq<string>)
    ensures forall k :: k in r <==> k in keys && !IsSet(env, k)
    ensures |r| <= |keys|
  {
    if keys == [] then []
    else if IsSet(env, keys[0]) then MissingKeys(env, keys[1..])
    else [keys[0]] + MissingKeys(env, keys[1..])
  }

  /** `parts.join(sep)`: begins with the first part and ends with the last. */
  function Join(parts: seq<string>, sep: string): (r: string)
    ensures parts != [] ==> |parts[0]| <= |r| && r[..|parts[0]|] == parts[0]
    ensures parts != [] ==> var last := parts[|parts| - 1];
      |last| <= |r| && r[|r| - |last|..] == last
  {
    if parts == [] then ""
    else if |parts| == 1 then parts[0]
    else parts[0] + sep + Join(parts[1..], sep)
  }

  /** `readFirebaseEnv`: the configuration, or the "Missing env: ..." error
      it throws. */
  function ReadFirebaseEnv(env: EnvMap): (r: Result<FirebaseEnv, string>)
    ensures r.Ok? <==> forall k :: k in REQUIRED ==> IsSet(env, k)
    ensures r.Ok? ==> IsSet(env, API_KEY) && IsSet(env, AUTH_DOMAIN) && IsSet(env, PROJECT_ID) && IsSet(env, APP_ID)
    ensures r.Ok? ==> r.value == FirebaseEnv(env[API_KEY], env[AUTH_DOMAIN], env[PROJECT_ID], env[APP_ID])
    ensures r.Err? ==> |r.error| >= |MISSING_PREFIX| && r.error[..|MISSING_PREFIX|] == MISSING_PREFIX
  {
    var missing := MissingKeys(env, REQUIRED);
    if |missing| > 0 then
      assert missing[0] in missing;
      Err(MISSING_PREFIX + Join(missing, ", "))
    else
      assert API_KEY in REQUIRED && AUTH_DOMAIN in REQUIRED;
      assert PROJECT_ID in REQUIRED && APP_ID in REQUIRED;
      Ok(FirebaseEnv(env[API_KEY], env[AUTH_DOMAIN], env[PROJECT_ID], env[APP_ID]))
  }

  /** The reported keys appear in the order of the list they come from. */
  lemma {:induction false} MissingKeysInOrder(env: EnvMap, keys: seq<string>)
    ensures IsSubsequence(MissingKeys(env, keys), keys)
    decreases |keys|
  {
    if keys != [] {
      MissingKeysInOrder(env, keys[1..]);
      var rest := MissingKeys(env, keys[1..]);
      if !IsSet(env, keys[0]) {
        assert ([keys[0]] + rest)[1..] == rest;
      }
    }
  }

  /** The error message lists exactly the missing keys, in REQUIRED order. */
  lemma ErrorListsMissingKeys(env: EnvMap)
    requires ReadFirebaseEnv(env).Err?
    ensures ReadFirebaseEnv(env).error == MISSING_PREFIX + Join(MissingKeys(env, REQUIRED), ", ")
    ensures IsSubsequence(MissingKeys(env, REQUIRED), REQUIRED)
  {
    MissingKeysInOrder(env, REQUIRED);
  }

  /** Only the required keys are read: environments that agree on them give
      the same outcome, whatever else they hold. */
  lemma {:induction false} OnlyRequiredKeysMatter(e1: EnvMap, e2: EnvMap)
    requires forall k :: k in REQUIRED ==> (k in e1 <==> k in e2) && (k in e1 ==> e1[k] == e2[k])
    ensures ReadFirebaseEnv(e1) == ReadFirebaseEnv(e2)
  {
    MissingKeysAgree(e1, e2, REQUIRED);
    assert API_KEY in REQUIRED && AUTH_DOMAIN in REQUIRED;
    assert PROJECT_ID in REQUIRED && APP_ID in REQUIRED;
  }

  lemma {:induction false} MissingKeysAgree(e1: EnvMap, e2: EnvMap, keys: seq<string>)
    requires forall k :: k in keys ==> (k in e1 <==> k in e2) && (k in e1 ==> e1[k] == e2[k])
    ensures MissingKeys(e1, keys) == MissingKeys(e2, keys)
    decreases |keys|
  {
    if keys != [] {
      MissingKeysAgree(e1, e2, keys[1..]);
    }
  }

  /** When none of `keys` is set, every one of them is reported, in order. */
  lemma {:induction false} UnsetKeysAllMissing(env: EnvMap, keys: seq<string>)
    requires forall k :: k in keys ==> !IsSet(env, k)
    ensures MissingKeys(env, keys) == keys
    decreases |keys|
  {
    if keys != [] {
      UnsetKeysAllMissing(env, keys[1..]);
    }
  }

  /** An empty environment misses all four keys. */
  lemma EmptyEnvMissesAll()
    ensures MissingKeys(map[], REQUIRED) == REQUIRED
  {
    UnsetKeysAllMissing(map[], REQUIRED);
  }

  /** For an empty environment the message names the API key first. */
  lemma EmptyEnvMessage()
    ensures var msg := ReadFirebaseEnv(map[]).error;
      |msg| >= |MISSING_PREFIX + API_KEY| && msg[..|MISSING_PREFIX + API_KEY|] == MISSING_PREFIX + API_KEY
  {
    EmptyEnvMissesAll();
    var joined := Join(REQUIRED, ", ");
    assert joined[..|API_KEY|] == API_KEY;
    var msg := ReadFirebaseEnv(map[]).error;
    assert msg == MISSING_PREFIX + joined;
    assert msg[..|MISSING_PREFIX + API_KEY|] == MISSING_PREFIX + joined[..|API_KEY|];
  }
}
