/**
 * The credential-selection rule of `load_artifactory_creds` in
 * demos/pxs/utils.py. The environment, the existence of the uv credentials
 * file and the parsed contents of that file are inputs: the function only
 * decides which of them supplies the `(user, token)` pair.
 */
module ArtifactoryCreds {
  import opened Py

  /** The host name a uv credential's `service` must contain to be used. */
  const Marker: string := "physicsx.jfrog.io"

  /** One `[[credential]]` table of the uv credentials file; each key may be absent. */
  datatype Credential = Credential(service: Option<string>, username: Option<string>, password: Option<string>)

  /** The exceptions the function raises. */
  datatype CredsError =
    | FileNotFound          // the credentials file does not exist
    | NoMatch               // ValueError: no credential's service names the PhysicsX host
    | KeyError(key: string) // the matching credential lacks "username" or "password"

  /** What `load_artifactory_creds` returns or raises. */
  datatype Creds = Ok(user: string, token: string) | Err(error: CredsError)

  /** `cred.get("service", "")`: a credential without a service has the empty service. */
  function ServiceOf(c: Credential): string {
    c.service.GetOr("")
  }

  /** The test of the scan: the marker host occurs in the credential's service. */
  predicate Matches(c: Credential)
    // only a credential that has a service, at least as long as the host name, can match
    ensures Matches(c) ==> c.service.Some? && |Marker| <= |c.service.value|
  {
    Contains(ServiceOf(c), Marker)
  }

  /** `data.get("credential", [])`: a missing credential list is an empty one. */
  function Records(credential: Option<seq<Credential>>): seq<Credential> {
    credential.GetOr([])
  }

  /**
   * The `for cred in ...` loop with its early return: the index of the first
   * matching credential, or None when none matches.
   */
  function FirstMatch(cs: seq<Credential>): (r: Option<nat>)
    ensures r.Some? ==> r.value < |cs| && Matches(cs[r.value])
    ensures r.Some? ==> forall j :: 0 <= j < r.value ==> !Matches(cs[j])
    ensures r.None? <==> forall j :: 0 <= j < |cs| ==> !Matches(cs[j])
  {
    if cs == [] then None
    else if Matches(cs[0]) then Some(0)
    else match FirstMatch(cs[1..])
      case None => None
      case Some(i) => Some(i + 1)
  }

  /** `return cred["username"], cred["password"]`: the left key is looked up first. */
  function Extract(c: Credential): (r: Creds)
    ensures r.Ok? <==> c.username.Some? && c.password.Some?
    ensures r.Ok? ==> r.user == c.username.value && r.token == c.password.value
    ensures c.username.None? ==> r == Err(KeyError("username"))
    ensures c.username.Some? && c.password.None? ==> r == Err(KeyError("password"))
  {
    match (c.username, c.password)
    case (None, _) => Err(KeyError("username"))
    case (Some(_), None) => Err(KeyError("password"))
    case (Some(u), Some(p)) => Ok(u, p)
  }

  /** Both environment variables are set and non-empty. */
  predicate EnvComplete(envUser: Option<string>, envToken: Option<string>) {
    Truthy(envUser) && Truthy(envToken)
  }

  /**
   * `load_artifactory_creds()`. `envUser` and `envToken` are the values of
   * ARTIFACTORY_USER and ARTIFACTORY_TOKEN after `.env.secrets` has been
   * loaded, `fileExists` says whether the uv credentials file exists, and
   * `credential` is the file's "credential" array (None when the key is absent).
   */
  function LoadArtifactoryCreds(envUser: Option<string>, envToken: Option<string>,
                                fileExists: bool, credential: Option<seq<Credential>>): (r: Creds)
    // the environment wins whenever both values are non-empty
    ensures EnvComplete(envUser, envToken) ==> r == Ok(envUser.value, envToken.value)
    // otherwise a missing file is an error
    ensures !EnvComplete(envUser, envToken) && !fileExists ==> r == Err(FileNotFound)
    // no matching record (an empty or missing list included) is the ValueError
    ensures r == Err(NoMatch) <==>
      !EnvComplete(envUser, envToken) && fileExists &&
      forall j :: 0 <= j < |Records(credential)| ==> !Matches(Records(credential)[j])
    // a pair not from the environment comes from the first matching record
    ensures r.Ok? && !EnvComplete(envUser, envToken) ==>
      exists i :: 0 <= i < |Records(credential)| && FirstMatch(Records(credential)) == Some(i) &&
        Matches(Records(credential)[i]) &&
        Records(credential)[i].username == Some(r.user) && Records(credential)[i].password == Some(r.token)
  {
    if EnvComplete(envUser, envToken) then
      Ok(envUser.value, envToken.value)
    else if !fileExists then
      Err(FileNotFound)
    else
      match FirstMatch(Records(credential))
      case None => Err(NoMatch)
      case Some(i) => Extract(Records(credential)[i])
  }

  /** With both environment values set, the credentials file is never consulted. */
  lemma EnvIgnoresFile(envUser: Option<string>, envToken: Option<string>,
                       exists1: bool, credential1: Option<seq<Credential>>,
                       exists2: bool, credential2: Option<seq<Credential>>)
    requires EnvComplete(envUser, envToken)
    ensures LoadArtifactoryCreds(envUser, envToken, exists1, credential1)
         == LoadArtifactoryCreds(envUser, envToken, exists2, credential2)
  {
  }

  /**
   * The scan skips every non-matching record before the first match and
   * ignores everything after it, whatever those later records hold.
   */
  lemma {:induction false} FirstMatchAfterPrefix(skipped: seq<Credential>, c: Credential, rest: seq<Credential>)
    requires forall j :: 0 <= j < |skipped| ==> !Matches(skipped[j])
    requires Matches(c)
    ensures FirstMatch(skipped + [c] + rest) == Some(|skipped|)
    decreases |skipped|
  {
    var cs := skipped + [c] + rest;
    if skipped == [] {
      assert cs[0] == c;
    } else {
      assert cs[0] == skipped[0];
      assert cs[1..] == skipped[1..] + [c] + rest;
      FirstMatchAfterPrefix(skipped[1..], c, rest);
    }
  }

  /** The file path returns exactly what the first matching record holds. */
  lemma FirstMatchDecides(envUser: Option<string>, envToken: Option<string>,
                          skipped: seq<Credential>, c: Credential, rest: seq<Credential>)
    requires !EnvComplete(envUser, envToken)
    requires forall j :: 0 <= j < |skipped| ==> !Matches(skipped[j])
    requires Matches(c)
    ensures LoadArtifactoryCreds(envUser, envToken, true, Some(skipped + [c] + rest)) == Extract(c)
  {
    FirstMatchAfterPrefix(skipped, c, rest);
    assert (skipped + [c] + rest)[|skipped|] == c;
  }

  /** A record without a service never matches: "" does not contain the host. */
  lemma NoServiceNeverMatches(username: Option<string>, password: Option<string>)
    ensures !Matches(Credential(None, username, password))
  {
  }

  /** Any service URL that names the host matches, wherever the host appears. */
  lemma HostInServiceMatches(before: string, after: string, username: Option<string>, password: Option<string>)
    ensures Matches(Credential(Some(before + Marker + after), username, password))
  {
    ContainsInfix(before, Marker, after);
  }

  /** A file without a "credential" array (or with an empty one) yields the ValueError. */
  lemma MissingListIsNoMatch(envUser: Option<string>, envToken: Option<string>)
    requires !EnvComplete(envUser, envToken)
    ensures LoadArtifactoryCreds(envUser, envToken, true, None) == Err(NoMatch)
    ensures LoadArtifactoryCreds(envUser, envToken, true, Some([])) == Err(NoMatch)
  {
  }
}
