/** Application settings (server/config.py): the hardcoded match rules and
    the values derived from the process environment, which is passed in as a
    map from variable name to value. */
module Config {
  import opened Wrappers

  // Match rules
  /** First team to reach this score wins the match. */
  const WinScore: int := 100
  /** Seconds between a win and the automatic reset. */
  const CountdownSeconds: int := 8

  // Environment variable names and their defaults
  const CorsVar: string := "CORS_ORIGINS"
  const RegionVar: string := "AWS_REGION"
  const TableVar: string := "DYNAMODB_TABLE_NAME"
  const KeyVar: string := "AWS_ACCESS_KEY_ID"
  const SecretVar: string := "AWS_SECRET_ACCESS_KEY"
  const LocalOrigin1: string := "http://localhost:5173"
  const LocalOrigin2: string := "http://localhost:5174"
  /** The default of CORS_ORIGINS: the two local development servers. */
  const DefaultCorsOrigins: string := LocalOrigin1 + "," + LocalOrigin2
  const DefaultRegion: string := "ap-southeast-1"
  const DefaultTable: string := "voting-war-scores"

  type Env = map<string, string>

  /** `os.getenv(name)`. */
  function GetEnv(env: Env, name: string): Option<string> {
    if name in env then Some(env[name]) else None
  }

  /** `os.getenv(name, default)`. */
  function GetEnvOr(env: Env, name: string, default: string): string {
    if name in env then env[name] else default
  }

  /** `os.getenv(name) or None`: an empty value reads as unset. */
  function Credential(env: Env, name: string): (r: Option<string>)
    ensures r.None? <==> name !in env || env[name] == ""
    ensures r.Some? ==> r.value == env[name] && r.value != ""
  {
    var raw := GetEnv(env, name);
    if raw.Some? && raw.value != "" then raw else None
  }

  /** Python truthiness of an optional string. */
  predicate Truthy(v: Option<string>) {
    v.Some? && v.value != ""
  }

  datatype DbMode = Local | DynamoDb {
    /** The value of `DB_MODE`. */
    function Name(): string {
      match this
      case Local => "local"
      case DynamoDb => "dynamodb"
    }
  }

  datatype Settings = Settings(
    corsOrigins: seq<string>,
    awsRegion: string,
    tableName: string,
    awsKey: Option<string>,
    awsSecret: Option<string>)
  {
    /** DB_MODE: DynamoDB exactly when both credentials are present. */
    function Mode(): DbMode {
      if Truthy(awsKey) && Truthy(awsSecret) then DynamoDb else Local
    }
  }

  /** True when the variable is set to a non-empty value. */
  predicate NonEmptyVar(env: Env, name: string) {
    name in env && env[name] != ""
  }

  /** The settings object built once at import time from the environment. */
  function LoadSettings(env: Env): (r: Settings)
    ensures r.Mode() == DynamoDb <==> NonEmptyVar(env, KeyVar) && NonEmptyVar(env, SecretVar)
    ensures r.corsOrigins == CorsOrigins(GetEnvOr(env, CorsVar, DefaultCorsOrigins))
    ensures CorsVar !in env ==> r.corsOrigins == [LocalOrigin1, LocalOrigin2]
  {
    var cors := CorsOrigins(GetEnvOr(env, CorsVar, DefaultCorsOrigins));
    assert CorsVar !in env ==> cors == [LocalOrigin1, LocalOrigin2] by {
      DefaultCorsOriginsValue();
    }
    Settings(
      cors,
      GetEnvOr(env, RegionVar, DefaultRegion),
      GetEnvOr(env, TableVar, DefaultTable),
      Credential(env, KeyVar),
      Credential(env, SecretVar))
  }

  // ── CORS_ORIGINS: comma split, then whitespace strip ─────────────────────

  /** Number of occurrences of `c` in `s`. */
  function Count(s: string, c: char): nat {
    if s == [] then 0 else (if s[0] == c then 1 else 0) + Count(s[1..], c)
  }

  /** Inverse of Split: the parts glued back together with `sep`. */
  function Join(parts: seq<string>, sep: char): string
    requires |parts| >= 1
  {
    if |parts| == 1 then parts[0] else parts[0] + [sep] + Join(parts[1..], sep)
  }

  /** `s.split(sep)` for a one-character separator: the maximal runs of
      non-separator characters between separators, empty runs included. */
  function Split(s: string, sep: char): (r: seq<string>)
    ensures |r| == Count(s, sep) + 1
    ensures forall i :: 0 <= i < |r| ==> sep !in r[i]
    ensures Join(r, sep) == s
  {
    if s == [] then [[]]
    else
      var rest := Split(s[1..], sep);
      if s[0] == sep then
        assert ([[]] + rest)[1..] == rest;
        [[]] + rest
      else
        var r := [[s[0]] + rest[0]] + rest[1..];
        assert r[1..] == rest[1..];
        assert s == [s[0]] + s[1..];
        r
  }

  /** Whitespace as `str.strip()` with no argument understands it. */
  predicate IsSpace(c: char) {
    c == ' ' || c == '\t' || c == '\n' || c == '\r' || c == '\U{b}' || c == '\U{c}'
    || ('\U{1c}' <= c <= '\U{1f}') || c == '\U{85}' || c == '\U{a0}' || c == '\U{1680}'
    || ('\U{2000}' <= c <= '\U{200a}') || c == '\U{2028}' || c == '\U{2029}'
    || c == '\U{202f}' || c == '\U{205f}' || c == '\U{3000}'
  }

  /** Every character of `s` from index `lo` up to `hi` is whitespace. */
  predicate SpaceBetween(s: string, lo: int, hi: int)
    requires 0 <= lo <= hi <= |s|
  {
    forall i :: lo <= i < hi ==> IsSpace(s[i])
  }

  /** Neither the first nor the last character is whitespace. */
  predicate NoEdgeSpace(s: string) {
    s == [] || (!IsSpace(s[0]) && !IsSpace(s[|s| - 1]))
  }

  /** Index of the first non-whitespace character of `s` at or after `i`,
      or `|s|` when there is none. */
  function SkipSpace(s: string, i: nat): (j: nat)
    requires i <= |s|
    ensures i <= j <= |s| && SpaceBetween(s, i, j)
    ensures j < |s| ==> !IsSpace(s[j])
    decreases |s| - i
  {
    if i < |s| && IsSpace(s[i]) then SkipSpace(s, i + 1) else i
  }

  /** Where `s[lo..hi]` ends once its trailing whitespace is dropped. */
  function SkipSpaceBack(s: string, lo: nat, hi: nat): (j: nat)
    requires lo <= hi <= |s|
    ensures lo <= j <= hi && SpaceBetween(s, j, hi)
    ensures j > lo ==> !IsSpace(s[j - 1])
    decreases hi
  {
    if hi > lo && IsSpace(s[hi - 1]) then SkipSpaceBack(s, lo, hi - 1) else hi
  }

  /** `s.strip()`: the part of `s` between its leading and its trailing
      whitespace; everything cut away is whitespace and the result has none
      at either end. */
  function Strip(s: string): (r: string)
    ensures NoEdgeSpace(r)
    ensures var lo := SkipSpace(s, 0);
            var hi := SkipSpaceBack(s, lo, |s|);
            r == s[lo..hi] && SpaceBetween(s, 0, lo) && SpaceBetween(s, hi, |s|)
  {
    var lo := SkipSpace(s, 0);
    s[lo..SkipSpaceBack(s, lo, |s|)]
  }

  /** CORS_ORIGINS: the setting split at commas, each entry stripped of
      surrounding whitespace. */
  function CorsOrigins(setting: string): (r: seq<string>)
    ensures |r| == |Split(setting, ',')| == Count(setting, ',') + 1
    ensures forall i :: 0 <= i < |r| ==> r[i] == Strip(Split(setting, ',')[i])
    ensures forall i :: 0 <= i < |r| ==> NoEdgeSpace(r[i])
  {
    var parts := Split(setting, ',');
    seq(|parts|, i requires 0 <= i < |parts| => Strip(parts[i]))
  }

  // ── Lemmas ───────────────────────────────────────────────────────────────

  /** Splitting a string with no separator yields that string alone. */
  lemma SplitNoSep(s: string, sep: char)
    requires sep !in s
    ensures Split(s, sep) == [s]
  {
  }

  /** A separator-free first segment is split off whole. */
  lemma {:induction false} SplitFirst(a: string, sep: char, b: string)
    requires sep !in a
    ensures Split(a + [sep] + b, sep) == [a] + Split(b, sep)
  {
    var s := a + [sep] + b;
    if a == [] {
      assert s == [sep] + b && s[1..] == b;
    } else {
      assert a[1..] + [sep] + b == s[1..];
      assert sep !in a[1..] by {
        forall k | 0 <= k < |a| - 1 ensures a[1..][k] != sep {
          assert a[1..][k] == a[k + 1];
        }
      }
      SplitFirst(a[1..], sep, b);
      var rest := Split(s[1..], sep);
      assert rest == [a[1..]] + Split(b, sep);
      assert s[0] == a[0] && s[0] != sep;
      assert Split(s, sep) == [[s[0]] + rest[0]] + rest[1..];
      assert [a[0]] + a[1..] == a;
      assert rest[1..] == Split(b, sep);
    }
  }

  /** Split undoes Join when no part holds the separator. */
  lemma {:induction false} SplitJoin(parts: seq<string>, sep: char)
    requires |parts| >= 1
    requires forall i :: 0 <= i < |parts| ==> sep !in parts[i]
    ensures Split(Join(parts, sep), sep) == parts
  {
    if |parts| == 1 {
      SplitNoSep(parts[0], sep);
    } else {
      SplitJoin(parts[1..], sep);
      SplitFirst(parts[0], sep, Join(parts[1..], sep));
      assert parts == [parts[0]] + parts[1..];
    }
  }

  /** Stripping leaves a string without edge whitespace unchanged. */
  lemma StripIdentity(s: string)
    requires NoEdgeSpace(s)
    ensures Strip(s) == s
  {
  }

  /** Two origins without commas or edge whitespace, joined by a comma,
      come back out as exactly those two origins. */
  lemma CorsOriginsOfPair(a: string, b: string)
    requires ',' !in a && ',' !in b && NoEdgeSpace(a) && NoEdgeSpace(b)
    ensures CorsOrigins(a + [','] + b) == [a, b]
  {
    assert a + [','] + b == Join([a, b], ',');
    SplitJoin([a, b], ',');
    StripIdentity(a);
    StripIdentity(b);
    var parts := Split(a + [','] + b, ',');
    assert parts == [a, b];
    var r := CorsOrigins(a + [','] + b);
    assert |r| == 2;
    assert r[0] == Strip(parts[0]) == a;
    assert r[1] == Strip(parts[1]) == b;
  }

  /** The two default origins hold no comma and no edge whitespace. */
  lemma LocalOriginsPlain()
    ensures ',' !in LocalOrigin1 && ',' !in LocalOrigin2
    ensures NoEdgeSpace(LocalOrigin1) && NoEdgeSpace(LocalOrigin2)
  {
  }

  /** With CORS_ORIGINS unset, the allowed origins are the two local
      development servers. */
  lemma DefaultCorsOriginsValue()
    ensures CorsOrigins(DefaultCorsOrigins) == [LocalOrigin1, LocalOrigin2]
  {
    LocalOriginsPlain();
    CorsOriginsOfPair(LocalOrigin1, LocalOrigin2);
  }

  /** An empty credential counts as unset, so it selects the local store. */
  lemma EmptyCredentialIsLocal(env: Env)
    requires (KeyVar in env && env[KeyVar] == "") || (SecretVar in env && env[SecretVar] == "")
    ensures LoadSettings(env).Mode() == Local
  {
  }
}
