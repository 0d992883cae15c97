/** The start-up check of src/lib/env.ts: `parseBool`, the schema's issues, the list of
    missing variables and the error thrown when it is not empty. URL validity is an oracle. */
module Env {
  import opened Wrappers
  import opened Text

  /** The six variables the loader reads (`None`: unset). */
  datatype EnvVars = EnvVars(
    databaseUrl: Option<string>, nextAuthSecret: Option<string>, nextAuthUrl: Option<string>,
    enableGmailConnect: Option<string>, googleClientId: Option<string>, googleClientSecret: Option<string>)

  /** The exported `env`. */
  datatype Config = Config(
    databaseUrl: string, nextAuthSecret: string, nextAuthUrl: string,
    enableGmailConnect: bool, googleClientId: Option<string>, googleClientSecret: Option<string>)

  const DatabaseUrl := "DATABASE_URL"
  const NextAuthSecret := "NEXTAUTH_SECRET"
  const NextAuthUrl := "NEXTAUTH_URL"
  const GoogleClientId := "GOOGLE_CLIENT_ID"
  const GoogleClientSecret := "GOOGLE_CLIENT_SECRET"

  /** The spellings `parseBool` accepts as true. */
  predicate TrueWord(v: string) {
    v == "1" || v == "true" || v == "yes" || v == "on"
  }

  /** `parseBool`: the default when unset, else whether the trimmed, lower-cased text is a
      true word. */
  function ParseBool(input: Option<string>, default: bool): bool {
    if input.None? then default else TrueWord(Lower(Trim(input.value)))
  }

  /** Example: spacing and case do not matter. */
  lemma ParseBoolPadded()
    ensures ParseBool(Some(" TRUE "), false)
  {
    assert TrimStart(" TRUE ") == "TRUE ";
    assert TrimEnd("TRUE ") == "TRUE";
    assert Lower("TRUE") == "true";
  }

  /** Example: a mixed-case true word. */
  lemma ParseBoolMixedCase()
    ensures ParseBool(Some("On"), false)
  {
    TrimUnchanged("On");
    assert Lower("On") == "on";
  }

  /** Examples: `false` and the empty text are false whatever the default; unset gives the
      default. */
  lemma ParseBoolFalse()
    ensures !ParseBool(Some("false"), true)
    ensures !ParseBool(Some(""), true)
    ensures ParseBool(None, true) && !ParseBool(None, false)
  {
    TrimUnchanged("false");
    assert Lower("false") == "false";
  }

  /** Padding does not matter: a set value reads as its trimmed text. */
  lemma ParseBoolIgnoresPadding(s: string, default: bool)
    ensures ParseBool(Some(s), default) == ParseBool(Some(Trim(s)), default)
  {
    TrimIdempotent(s);
  }

  /** ASCII case does not matter: a set value reads as its lower-cased text. */
  lemma ParseBoolIgnoresCase(s: string, default: bool)
    ensures ParseBool(Some(s), default) == ParseBool(Some(Lower(s)), default)
  {
    TrimLowerCommute(s);
    LowerIdempotent(Trim(s));
  }

  /** The default only answers for an unset value. */
  lemma ParseBoolDefaultWhenUnset(s: string, d1: bool, d2: bool)
    ensures ParseBool(Some(s), d1) == ParseBool(Some(s), d2)
    ensures ParseBool(None, d1) == d1
  {
  }

  /** A required string: present and at least one character long. */
  predicate Filled(v: Option<string>) {
    v.Some? && |v.value| >= 1
  }

  /** The keys of the issues `baseSchema.safeParse` reports, in the schema's key order: one
      per required variable that is unset, empty or (for the URL) not a valid URL. The
      optional keys never fail, since the environment holds only strings. */
  function SchemaIssues(e: EnvVars, validUrl: string -> bool): (keys: seq<string>)
    ensures |keys| <= 3
  {
    (if Filled(e.databaseUrl) then [] else [DatabaseUrl])
    + (if Filled(e.nextAuthSecret) then [] else [NextAuthSecret])
    + (if e.nextAuthUrl.Some? && validUrl(e.nextAuthUrl.value) then [] else [NextAuthUrl])
  }

  predicate RequiredKey(key: string) {
    key == DatabaseUrl || key == NextAuthSecret || key == NextAuthUrl
  }

  /** The issue keys that are required variables, in issue order. */
  function RequiredOf(keys: seq<string>): (r: seq<string>)
    ensures |r| <= |keys|
    ensures forall k :: 0 <= k < |r| ==> RequiredKey(r[k])
  {
    if keys == [] then []
    else if RequiredKey(keys[0]) then [keys[0]] + RequiredOf(keys[1..])
    else RequiredOf(keys[1..])
  }

  lemma {:induction false} RequiredOfAppend(a: seq<string>, b: seq<string>)
    ensures RequiredOf(a + b) == RequiredOf(a) + RequiredOf(b)
    decreases |a|
  {
    if a == [] {
      assert a + b == b;
    } else {
      assert (a + b)[1..] == a[1..] + b;
      RequiredOfAppend(a[1..], b);
    }
  }

  /** A key survives the filter exactly when it is an issue key and a required one. */
  lemma {:induction false} RequiredOfMembers(keys: seq<string>, key: string)
    ensures key in RequiredOf(keys) <==> key in keys && RequiredKey(key)
    decreases |keys|
  {
    if keys != [] {
      RequiredOfMembers(keys[1..], key);
      assert key in keys <==> key == keys[0] || key in keys[1..];
    }
  }

  /** The Google client credentials that are missing, in the order they are checked. */
  function GmailMissing(e: EnvVars): seq<string> {
    (if Truthy(e.googleClientId) then [] else [GoogleClientId])
    + (if Truthy(e.googleClientSecret) then [] else [GoogleClientSecret])
  }

  /** Builds `missing`: the required keys among the schema's issues, then the absent Google
      credentials when Gmail connect is enabled (it is by default). */
  method CollectMissing(e: EnvVars, issues: seq<string>) returns (missing: seq<string>)
    ensures missing == RequiredOf(issues) + (if ParseBool(e.enableGmailConnect, true) then GmailMissing(e) else [])
  {
    missing := [];
    var i := 0;
    while i < |issues|
      invariant 0 <= i <= |issues|
      invariant missing == RequiredOf(issues[..i])
    {
      var key := issues[i];
      if key == DatabaseUrl || key == NextAuthSecret || key == NextAuthUrl {
        missing := missing + [key];
      }
      RequiredOfAppend(issues[..i], [key]);
      assert issues[..i + 1] == issues[..i] + [key];
      i := i + 1;
    }
    assert issues[..i] == issues;
    var gmailEnabled := ParseBool(e.enableGmailConnect, true);
    if gmailEnabled {
      if !Truthy(e.googleClientId) {
        missing := missing + [GoogleClientId];
      }
      if !Truthy(e.googleClientSecret) {
        missing := missing + [GoogleClientSecret];
      }
    }
  }

  /** The variables the loader reports as missing. */
  function Missing(e: EnvVars, validUrl: string -> bool): seq<string> {
    RequiredOf(SchemaIssues(e, validUrl))
    + (if ParseBool(e.enableGmailConnect, true) then GmailMissing(e) else [])
  }

  /** Every schema issue is about a required variable, so the filter keeps them all. */
  lemma SchemaIssuesRequired(e: EnvVars, validUrl: string -> bool)
    ensures RequiredOf(SchemaIssues(e, validUrl)) == SchemaIssues(e, validUrl)
  {
    var a := if Filled(e.databaseUrl) then [] else [DatabaseUrl];
    var b := if Filled(e.nextAuthSecret) then [] else [NextAuthSecret];
    var c := if e.nextAuthUrl.Some? && validUrl(e.nextAuthUrl.value) then [] else [NextAuthUrl];
    RequiredOfAppend(a + b, c);
    RequiredOfAppend(a, b);
  }

  /** The five variable names differ from one another. */
  lemma NamesDistinct()
    ensures DatabaseUrl != NextAuthSecret && DatabaseUrl != NextAuthUrl && NextAuthSecret != NextAuthUrl
    ensures forall k :: k in [DatabaseUrl, NextAuthSecret, NextAuthUrl] ==>
              k != GoogleClientId && k != GoogleClientSecret
  {
    assert DatabaseUrl[0] != NextAuthSecret[0] && DatabaseUrl[0] != NextAuthUrl[0];
    assert |NextAuthSecret| != |NextAuthUrl|;
    assert DatabaseUrl[0] != GoogleClientId[0] && DatabaseUrl[0] != GoogleClientSecret[0];
    assert NextAuthSecret[0] != GoogleClientId[0] && NextAuthSecret[0] != GoogleClientSecret[0];
    assert NextAuthUrl[0] != GoogleClientId[0] && NextAuthUrl[0] != GoogleClientSecret[0];
  }

  /** The required variables in `missing`, name by name. */
  lemma MissingRequired(e: EnvVars, validUrl: string -> bool)
    ensures DatabaseUrl in Missing(e, validUrl) <==> !Filled(e.databaseUrl)
    ensures NextAuthSecret in Missing(e, validUrl) <==> !Filled(e.nextAuthSecret)
    ensures NextAuthUrl in Missing(e, validUrl) <==> !(e.nextAuthUrl.Some? && validUrl(e.nextAuthUrl.value))
  {
    NamesDistinct();
    SchemaIssuesRequired(e, validUrl);
    var a := if Filled(e.databaseUrl) then [] else [DatabaseUrl];
    var b := if Filled(e.nextAuthSecret) then [] else [NextAuthSecret];
    var c := if e.nextAuthUrl.Some? && validUrl(e.nextAuthUrl.value) then [] else [NextAuthUrl];
    var g := if ParseBool(e.enableGmailConnect, true) then GmailMissing(e) else [];
    assert Missing(e, validUrl) == a + b + c + g;
    assert forall k :: k in g ==> k == GoogleClientId || k == GoogleClientSecret;
  }

  /** The Google credentials in `missing`: only when Gmail connect is on, and it is on when
      the flag is unset. */
  lemma MissingGmail(e: EnvVars, validUrl: string -> bool)
    ensures GoogleClientId in Missing(e, validUrl) <==>
              ParseBool(e.enableGmailConnect, true) && !Truthy(e.googleClientId)
    ensures GoogleClientSecret in Missing(e, validUrl) <==>
              ParseBool(e.enableGmailConnect, true) && !Truthy(e.googleClientSecret)
    ensures e.enableGmailConnect.None? ==>
              Missing(e, validUrl) == SchemaIssues(e, validUrl) + GmailMissing(e)
  {
    SchemaIssuesRequired(e, validUrl);
  }

  /** Loading: throws exactly when something is missing, with the names joined by ", ". */
  function Load(e: EnvVars, validUrl: string -> bool): (r: Result<Config, string>)
    ensures r.Err? <==> Missing(e, validUrl) != []
    ensures r.Err? ==> r.error == "Missing required environment variables: " + Join(Missing(e, validUrl), ", ")
    ensures r.Ok? ==> r.value.enableGmailConnect == ParseBool(e.enableGmailConnect, true)
  {
    var missing := Missing(e, validUrl);
    if missing != [] then Err("Missing required environment variables: " + Join(missing, ", "))
    else
      SchemaIssuesRequired(e, validUrl);
      Ok(Config(e.databaseUrl.value, e.nextAuthSecret.value, e.nextAuthUrl.value,
                ParseBool(e.enableGmailConnect, true), e.googleClientId, e.googleClientSecret))
  }

  /** A successful load hands out every required variable as given, and the Google
      credentials are there whenever Gmail connect is on. */
  lemma LoadOk(e: EnvVars, validUrl: string -> bool)
    requires Load(e, validUrl).Ok?
    ensures var c := Load(e, validUrl).value;
            && Filled(e.databaseUrl) && c.databaseUrl == e.databaseUrl.value
            && Filled(e.nextAuthSecret) && c.nextAuthSecret == e.nextAuthSecret.value
            && e.nextAuthUrl.Some? && validUrl(c.nextAuthUrl) && c.nextAuthUrl == e.nextAuthUrl.value
            && (c.enableGmailConnect ==> Truthy(c.googleClientId) && Truthy(c.googleClientSecret))
  {
    MissingRequired(e, validUrl);
    MissingGmail(e, validUrl);
  }
}
