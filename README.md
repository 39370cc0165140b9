# kubetorch-coreweave demos: the local logic, in Dafny

The repository is a set of demonstration scripts for a remote-compute SDK.
Almost everything they do is configure and call that SDK. Two pieces of
logic are the scripts' own, and this project models them and proves what
they promise:

- **The pod-side cache** of `demos/warmstart/state_persistence.py`. The
  module-level dictionary `CACHE` and the counter `CALL_COUNT` live on the
  pod and survive between remote calls. `cache_operation(action, key, value)`
  counts every call. Then it stores a pair (`set`), reads one back (`get`,
  answering `NOT FOUND` for an absent key), shows the cache (`list`) or
  empties it (`clear`). Anything else gets an "Unknown action" reply. That
  includes a `set` whose key or value is `None` or empty, and a `get` whose
  key is `None` or empty. A `get` ignores its value argument. Module
  `StatePersistence` has the class `PodCache`, whose fields are the two
  module globals and whose method `CacheOperation` is one call. Beside it
  are the pure specification `Step` (one call on a `PodState`) and `Run`
  (a series of calls against the same pod). The lemmas relate several calls:
  set-then-get, clear-then-get, and what a key holds after any series.
- **The credential-selection rule** of `load_artifactory_creds` in
  `demos/pxs/utils.py`. If `ARTIFACTORY_USER` and `ARTIFACTORY_TOKEN` are
  both non-empty, they win. Otherwise the uv credentials file must exist,
  and the first `[[credential]]` whose `service` contains
  `physicsx.jfrog.io` supplies `(username, password)`. With no such record
  the function raises a ValueError. Module `ArtifactoryCreds` models this
  with pure functions. The environment values, the file's existence and its
  parsed `credential` array are parameters.

Module `Py` holds the Python semantics both scripts rely on: `None` as an
`Option`, the truthiness of an optional `str`, and the `in` test on strings.
`Py.Contains` is that test as a left-to-right scan, and `Py.ContainsIff`
proves it equal to "the needle occurs at some position".

The replies of `cache_operation` are text that embeds the dictionary's
repr. The model gives them as the datatype `Reply`. Each constructor
carries the call number and, where the text shows the cache, a snapshot of
it.

In `load_artifactory_creds`, the matching record is read with
`cred["username"], cred["password"]`. A record that matches but lacks one
of those keys raises a KeyError, username first. The model returns
`Err(KeyError("username"))` or `Err(KeyError("password"))` for those, next
to `FileNotFound` and `NoMatch`.

## Model

| member | source | states |
|---|---|---|
| `StatePersistence.PodCache.constructor` | demos/warmstart/state_persistence.py:7-8 | a fresh module has an empty cache and a call count of zero |
| `StatePersistence.PodCache.CacheOperation` | demos/warmstart/state_persistence.py:11-31 | the count goes up by one on every call and the reply carries the new count; a successful set stores the value under the key; clear empties the cache; every other call leaves the cache as it was; a get replies with the stored value or NOT FOUND; the new state and the reply are those of `Step` |
| `StatePersistence.Step` | demos/warmstart/state_persistence.py:13-31 | one call counts once, whatever the action, and the reply reports the new count; a set with a non-empty key and value binds that key and changes no other key; clear leaves the cache empty; get, list, unknown actions and a set with a missing or empty key or value leave the cache unchanged; get reports the stored value or NOT FOUND; the reply's kind is exactly the branch the guards select; a set reply echoes the key, the value and the updated cache, get and list replies show the cache as it stands, and Unknown echoes the action |
| `StatePersistence.Run` | demos/warmstart/state_persistence.py:7-14 | across a series of calls on one pod the count grows by the number of calls, and the i-th reply reports call number count + i + 1 |
| `StatePersistence.RunValue` | demos/warmstart/state_persistence.py:16-28 | after any series of calls a key holds the value of its last successful set, unless a clear came later, and otherwise what it held before |
| `StatePersistence.GetAfterRun` | demos/warmstart/state_persistence.py:20-22 | a get after any series of calls reports that value, or NOT FOUND when the key is absent |
| `StatePersistence.SetThenGet` | demos/warmstart/state_persistence.py:16-22 | a get right after a successful set of the same key returns the value just stored |
| `StatePersistence.ClearThenGet` | demos/warmstart/state_persistence.py:20-29 | a get right after a clear reports NOT FOUND for every key |
| `StatePersistence.ClearForgets` | demos/warmstart/state_persistence.py:16-28 | after a clear, a key stays absent through any later calls until a successful set of that key |
| `StatePersistence.ReadOnlyRunKeepsCache` | demos/warmstart/state_persistence.py:20-31 | a series of calls with no successful set and no clear leaves the cache unchanged |
| `Py.Contains` | demos/pxs/utils.py:42 | Python's `in` on two strings: the empty string is in every string, and a string never holds a longer one |
| `ArtifactoryCreds.Matches` | demos/pxs/utils.py:42 | the test `"physicsx.jfrog.io" in cred.get("service", "")`: a credential can match only if it has a service at least as long as the host name |
| `Py.ContainsIff` | demos/pxs/utils.py:42 | the substring scan holds exactly when the needle occurs at some position of the string |
| `Py.ContainsInfix` | demos/pxs/utils.py:42 | a string is found in any string built around it |
| `ArtifactoryCreds.FirstMatch` | demos/pxs/utils.py:41-43 | the scan returns the index of a matching record with no match before it, and returns None exactly when no record matches |
| `ArtifactoryCreds.Extract` | demos/pxs/utils.py:43 | a matching record gives its username and password; without a username it raises KeyError on "username", and with a username but no password KeyError on "password" |
| `ArtifactoryCreds.LoadArtifactoryCreds` | demos/pxs/utils.py:24-45 | two non-empty environment values are returned as they are; otherwise a missing file is FileNotFound; the ValueError is raised exactly when the file exists and no record (none, if the list is missing) matches; any other pair comes from the first matching record |
| `ArtifactoryCreds.EnvIgnoresFile` | demos/pxs/utils.py:24-29 | with both environment values set, the file's existence and contents do not affect the result |
| `ArtifactoryCreds.FirstMatchAfterPrefix` | demos/pxs/utils.py:41-43 | non-matching records before a match are skipped and records after it are ignored |
| `ArtifactoryCreds.FirstMatchDecides` | demos/pxs/utils.py:35-43 | on the file path, the result is what the first matching record yields, whatever follows it |
| `ArtifactoryCreds.NoServiceNeverMatches` | demos/pxs/utils.py:42 | a record without a service counts as service "" and never matches |
| `ArtifactoryCreds.HostInServiceMatches` | demos/pxs/utils.py:42 | a service naming the host anywhere in it matches |
| `ArtifactoryCreds.MissingListIsNoMatch` | demos/pxs/utils.py:41-45 | a file with no credential array, or an empty one, gives the ValueError |

## Left out

- The SDK calls that deploy `cache_operation` and the credentials onto a pod (`kt.Compute`, `kt.fn(...).to(...)`). They belong to an external library whose source is not part of this model.
- The command-line handling of `state_persistence.py` (lines 34-60): the usage text, `sys.exit` and turning argv into `action`, `key` and `value`.
- The exact text of the replies: the model gives the branch, the call number, the key, the value and a snapshot of the cache. The insertion order that Python's dict repr shows is not modelled, because a Dafny `map` is unordered.
- Concurrent calls to one pod. The model treats calls as one after another. It does not say what happens when two threads update `CALL_COUNT` at once.
- `load_dotenv(".env.secrets")`, the environment reads and the file read in `utils.py`. These are I/O: the model takes the environment values after loading, whether the file exists, and the parsed `credential` array as parameters. The home-directory path of the file is not modelled.
- The prints of `load_artifactory_creds` and the message texts of its exceptions. The model keeps the kind of each error.
- Malformed credential files: a TOML parse error, a `credential` value that is not an array, a `service` that is not a string (a TypeError, or a membership test when it is an array or table), and username or password values that are not strings. The model takes records whose three keys are each either absent or a string.
- The inline copies of the credential scan in `pxs_editable_rsync.py` and `pxs_editable_install.py`. They repeat the `utils.py` rule without its error fallback.
