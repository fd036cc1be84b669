# ghloc-extension content script, modelled in Dafny

The ghloc browser extension adds a "Show LOC" button to GitHub repository
pages. When the button is clicked, the content script does four things:

1. It reads the page's `location.pathname` with one regular expression. The
   result is a locator: the repository `owner/name`, an optional view
   (`tree` or `blob`) with its branch, and an optional path split on `/`.
2. It turns the locator into a storage key: `owner/name`, or
   `owner/name/branch` when there is a branch.
3. It looks that key up in `chrome.storage.local`. A stored entry no more
   than thirty minutes old is served. Otherwise it fetches
   `http://ghloc.bytes.pw/<key>`, stores the answer stamped with the
   current time, and returns it.
4. It walks from the repository's root counts down the path pieces,
   through `children[part]`, to the directory or file the page shows.

The project models these four steps:

- `strings.dfy` (module `Strings`) holds the run of characters that avoid a
  given one, which is how `[^/]+` and `[^\$]+` match. It also holds
  `Split`/`Join`, JavaScript's `split("/")` and `join("/")`.
- `github_url.dfy` (module `GithubUrls`) holds the matcher and the parse.
  - `IsMatch` is an independent specification of the regular expression:
    any way it can match a substring.
  - `Outranks` is the order in which a backtracking engine tries those
    matches.
  - `Exec` is proved to return the leftmost match, and among matches at that
    start the highest-ranked one.
  - `ParseGithubUrl` is proved to yield well-formed locators. Their rendering
    is the matched text. Parsing the rendering of a well-formed locator gives
    the locator back, unless it has no view and its path starts with `tree`
    or `blob` followed by a non-empty piece. `RepoId` is the storage key.
- `loc_tree.dfy` (module `LocTree`) holds the counts tree and its walk.
  - `Walk` is the specification of the descent.
  - `Descend` is the loop of `attachDropdown`, proved to compute `Walk`.
- `loc_cache.dfy` (module `LocCache`) holds the cache and the fetch.
  - The storage is a class with a `map` field. The counting service is a
    class whose answers are fixed by a function and which logs each
    requested address.
  - `GetLocsForRepo` and `LocateLocs` are the methods. Each is proved to
    equal a pure function (`LocsForRepo`, `Locate`) of the old storage, the
    service's answers and the clock readings.
  - The lemmas about those functions state the cache's promises.
- `wrappers.dfy` holds `Option` and `Result`.

The clock is passed in. `getLocsForRepo` reads `Date.now()` for the freshness
test and `setCachedLocs` reads it again when storing, so the model takes two
readings: `now` and `writeTime`. The storage is modelled as a map whose
values are structured entries; the JSON text that holds them is not
modelled. Errors thrown by the source become `Err` values: `UrlNotParsed`
for "Failed to parse url", `RemoteError(statusText)` for a failed request,
and `PathNotFound` for "Failed to locate LOCs for path".

Some facts about the code that readers may not expect, all followed by the
model:

- A trailing slash leaves an empty last path piece (`ParseTrailingSlashExample`).
  Descent then fails on it unless the directory reached has an entry named
  `""` (`LocTree.TrailingSlashFails`).
- `tree` or `blob` with no branch after it is read as the path
  (`ParseBareTreeExample`).
- The branch comes only from the address. Nothing is read from the page.
- A stored entry is never treated as missing because it cannot be read:
  `JSON.parse` errors are not caught.
- The window is inclusive: an entry exactly 1800000 ms old is still served.
  An entry dated in the future is served too.
- A click whose path is missing from the counts fails after the counts were
  fetched and stored, so the entry stays.

## Model

| member | source | states |
|---|---|---|
| `Strings.RunWithout` | src/content-script.ts:24 | the longest, possibly empty, run of characters other than c from a position (a negated class `[^c]+` matches when it is non-empty): every character in it differs from c, and it stops at the end of the text or at a c |
| `Strings.Split` | src/content-script.ts:32 | `split("/")` gives at least one piece, no piece holds '/', and joining the pieces with '/' gives the text back |
| `Strings.SplitJoin` | src/content-script.ts:32 | splitting the join of '/'-free pieces gives those pieces back (the other half of the split/join round trip) |
| `GithubUrls.KeywordAtIff` | src/content-script.ts:24 | the `tree`/`blob` alternative matches at i exactly when the four characters there spell that keyword |
| `GithubUrls.FindRepo` | src/content-script.ts:23-24 | the search for a start goes left to right: the position found is the first from i where `\/[^/]+\/[^/]+` can begin, and None means no position can |
| `GithubUrls.ViewAt` | src/content-script.ts:24 | what is taken for the optional `/type/branch` group at b really matches that group there |
| `GithubUrls.PathAt` | src/content-script.ts:24 | what is taken for `(\/[^\$]+)` at c really matches that group there |
| `GithubUrls.SpanAt` | src/content-script.ts:23-24 | the match assembled at a start is a match of the whole expression at that start |
| `GithubUrls.Exec` | src/content-script.ts:23-25 | what `pathname.match` returns, when anything, is a match of the expression |
| `GithubUrls.Capture` | src/content-script.ts:30-35 | the named groups of a match, with the path group's text after its '/' split on '/'; no postcondition of its own: `CaptureRepo`, `CapturePath`, `CaptureWellFormed` and `CaptureRenders` state its properties |
| `GithubUrls.MatchStartsRepo` | src/content-script.ts:24 | every match of the expression begins at a position FindRepo accepts |
| `GithubUrls.ExecLeftmost` | src/content-script.ts:23-25 | if the expression matches anywhere, `match` returns a match, and no match starts further left |
| `GithubUrls.ExecNoneIff` | src/content-script.ts:23-28 | `match` returns null exactly when the expression matches no substring |
| `GithubUrls.ViewAtGreedy` | src/content-script.ts:24 | wherever the optional `/type/branch` group can match, it is taken, with the same type and a branch at least as long |
| `GithubUrls.PathAtGreedy` | src/content-script.ts:24 | wherever the optional path group can match, it is taken, reaching at least as far |
| `GithubUrls.SpanAtPriority` | src/content-script.ts:24 | among all matches at the same start, the chosen one equals or outranks every other in backtracking order: longer name, group present, longer branch, path present, longer path |
| `GithubUrls.ExecPriority` | src/content-script.ts:23-25 | the match returned is the top-ranked one at the leftmost start, so it is the one a backtracking engine reports |
| `GithubUrls.CaptureRepo` | src/content-script.ts:24 | the repo group of any match is two non-empty '/'-free segments joined by one '/' |
| `GithubUrls.CapturePath` | src/content-script.ts:31-33 | the split path group has at least one piece, the pieces join back to the group's text after its '/', and no piece holds '/' or '$' |
| `GithubUrls.CaptureWellFormed` | src/content-script.ts:24-35 | the groups of any match form a well-formed locator: `owner/name` repo, a branch exactly when there is a type, a non-empty '/'-free branch, and '/'-free and '$'-free path pieces |
| `GithubUrls.ParseGithubUrl` | src/content-script.ts:22-36 | `parseCurrentGituhbUrl` with the pathname as argument; no postcondition of its own: `ParseWellFormed`, `ParseNoneIff`, `ParseReassembles` and `ParseRender` state its properties, and the `Parse…Example` lemmas its value on concrete addresses |
| `GithubUrls.ParseWellFormed` | src/content-script.ts:22-36 | every locator `parseCurrentGituhbUrl` returns is well-formed |
| `GithubUrls.CaptureRenders` | src/content-script.ts:24-33 | the text any match covers is `/` + repo + `/type/branch` + `/` + the path pieces joined by '/', so the pieces reconstruct the rest of the text, with an empty last piece after a trailing slash |
| `GithubUrls.ParseReassembles` | src/content-script.ts:22-36 | the matched part of the pathname is exactly the rendering of the parsed locator |
| `GithubUrls.ParseNoneIff` | src/content-script.ts:22-28 | the parser returns null exactly when the pathname holds no `/seg/seg` with two non-empty segments |
| `GithubUrls.ParseRender` | src/content-script.ts:22-36 | parsing the rendering of a well-formed locator gives the locator back, unless it has no view and its path begins with `tree` or `blob` and a non-empty piece, which reads as a view |
| `GithubUrls.ParseTreeExample` | src/content-script.ts:22-36 | `/octocat/Hello-World/tree/main/lib` parses to repo `octocat/Hello-World`, type tree, branch `main`, path `["lib"]` |
| `GithubUrls.ParseBlobExample` | src/content-script.ts:22-36 | `/o/r/blob/m/a/b` parses to type blob, branch `m`, path `["a", "b"]` |
| `GithubUrls.ParseRepoExample` | src/content-script.ts:22-36 | `/o/r` parses to repo `o/r` with no type, branch or path |
| `GithubUrls.ParseTrailingSlashExample` | src/content-script.ts:31-33 | `/o/r/tree/m/a/` has path `["a", ""]` |
| `GithubUrls.ParseBareTreeExample` | src/content-script.ts:24-33 | `/o/r/tree/` has no type or branch, and path `["tree", ""]` |
| `GithubUrls.ParseOwnerOnlyExample` | src/content-script.ts:24-28 | `/octocat` does not parse |
| `GithubUrls.RepoId` | src/content-script.ts:56-62 | `githubUrlToRepoId`; no postcondition of its own: `RepoIdSplit`, `RepoIdInjective`, `RepoIdIgnoresView` and `RepoIdExample` state its properties |
| `GithubUrls.RepoIdSplit` | src/content-script.ts:56-62 | the key splits on '/' into owner, name and, when there is a branch, the branch |
| `GithubUrls.RepoIdInjective` | src/content-script.ts:56-62 | well-formed locators with the same key have the same repo and the same branch |
| `GithubUrls.RepoIdIgnoresView` | src/content-script.ts:56-62 | the key depends only on the repo and the branch: changing the view or the path leaves it unchanged |
| `GithubUrls.RepoIdExample` | src/content-script.ts:56-62 | the key is `octocat/Hello-World/main` with branch `main`, and `octocat/Hello-World` without a branch |
| `LocTree.Walk` | src/content-script.ts:104-110 | following `children[part]` for each part, None at the first missing entry; no postcondition of its own: `WalkAppend`, `WalkSucceedsIff`, `WalkFailsAt` and `TrailingSlashFails` state its properties |
| `LocTree.Resolve` | src/content-script.ts:103-111 | the root when there is no path, otherwise `Walk` along it; no postcondition of its own: `Descend` is proved equal to it, and `DescendExample` gives its value on a concrete tree |
| `LocTree.Descend` | src/content-script.ts:103-111 | the loop that follows `children[part]` for each part ends on `Walk` of the path, and on the root when there is no path |
| `LocTree.WalkAppend` | src/content-script.ts:104-110 | walking `p + q` is walking p and then q from where p ends, failing if p fails |
| `LocTree.WalkSucceedsIff` | src/content-script.ts:104-110 | descent succeeds exactly when every prefix of the path reaches a node that has the next part as an entry |
| `LocTree.WalkFailsAt` | src/content-script.ts:105-107 | a step whose part is not an entry of the node reached so far makes the whole descent fail |
| `LocTree.TrailingSlashFails` | src/content-script.ts:104-107 | a path ending in an empty piece fails unless the directory it reaches has an entry named "" |
| `LocTree.DescendExample` | src/content-script.ts:103-111 | no path and the empty path give the root, `src/index.ts` reaches the file with 40 lines, and `docs` and `src/` fail |
| `LocCache.LocService.Fetch` | src/content-script.ts:73 | the answer is the service's answer for the address, and the address is appended to the request log |
| `LocCache.LocStorage.GetCachedLocs` | src/content-script.ts:38-45 | an entry is returned exactly when the key is stored, and it is the stored entry |
| `LocCache.LocStorage.SetCachedLocs` | src/content-script.ts:47-54 | the key now holds the counts stamped with the given time, and every other key is unchanged |
| `LocCache.Fresh` | src/content-script.ts:69 | the freshness test `now - _date <= CACHE_EXPIRATION_MS`; no postcondition of its own: `FreshBoundary` states its window |
| `LocCache.ServiceUrl` | src/content-script.ts:73 | the address `http://ghloc.bytes.pw/<key>`; no postcondition of its own: `ServiceUrlInjective` and `BranchKeysApart` state its properties |
| `LocCache.LocsForRepo` | src/content-script.ts:64-84 | `getLocsForRepo` as a function of the storage, the service's answers and the two clock readings; no postcondition of its own: `GetLocsForRepo` is proved equal to it, and `FetchIff`, `HitServesStored`, `MissStores`, `FailureKeepsStorage`, `OtherKeysUnchanged`, `KeysGrow`, `StoreThenServe` and `ExpiredRefetches` state its properties |
| `LocCache.Locate` | src/content-script.ts:97-111 | `attachDropdown` up to the counts it displays, with its three error paths; no postcondition of its own: `LocateLocs` is proved equal to it, and `UnparsedTouchesNothing`, `LocateFindsNode`, `PathMissStillStores` and `PagesShareEntry` state its properties |
| `LocCache.GetLocsForRepo` | src/content-script.ts:64-84 | the result, the new storage and the requests made are those `LocsForRepo` gives for the old storage |
| `LocCache.LocateLocs` | src/content-script.ts:97-111 | parse, fetch-or-serve and descent together give `Locate` of the old storage: result, new storage and requests made |
| `LocCache.FreshBoundary` | src/content-script.ts:69 | an entry is served exactly while `now <= date + 1800000`: at `date + 1800000` it is served, at `date + 1800001` it is not |
| `LocCache.ServiceUrlInjective` | src/content-script.ts:73 | distinct keys are fetched from distinct addresses |
| `LocCache.FetchIff` | src/content-script.ts:67-73 | the service is asked exactly when the key holds no fresh entry, and then for `http://ghloc.bytes.pw/` + key |
| `LocCache.HitServesStored` | src/content-script.ts:67-71 | on a hit the stored counts are returned, nothing is fetched, and storage is unchanged |
| `LocCache.MissStores` | src/content-script.ts:73-83 | on a miss answered with counts, those counts are returned and stored under the key, stamped with the write time |
| `LocCache.FailureKeepsStorage` | src/content-script.ts:75-77 | on a miss answered with an error, the call fails with the status text and storage is unchanged |
| `LocCache.OtherKeysUnchanged` | src/content-script.ts:47-54 | no call adds, removes or changes any key other than its own |
| `LocCache.KeysGrow` | src/content-script.ts:64-84 | storage keeps every key it had and gains at most the call's own key |
| `LocCache.StoreThenServe` | src/content-script.ts:64-84 | after counts are fetched and stored, any call on the same key within thirty minutes of the write serves them without a request and without changing storage |
| `LocCache.ExpiredRefetches` | src/content-script.ts:69-81 | an entry older than the window is fetched again, and a successful answer replaces it with the write time as its date |
| `LocCache.BranchKeysApart` | src/content-script.ts:56-62 | a branch's counts and the repository's unqualified counts are stored under different keys and fetched from different addresses |
| `LocCache.UnparsedTouchesNothing` | src/content-script.ts:97-100 | an address that does not parse fails with `UrlNotParsed`, with no fetch and no change to storage |
| `LocCache.LocateFindsNode` | src/content-script.ts:97-111 | the counts a click displays are the node the page's path leads to in the repository's counts |
| `LocCache.PathMissStillStores` | src/content-script.ts:102-107 | the click fails with `PathNotFound` exactly when the counts arrived but the path is missing from them. The fetch and store happen either way |
| `LocCache.PagesShareEntry` | src/content-script.ts:56-102 | two pages of the same repository and branch share one entry. After one page fetched the counts, another page within the window fetches nothing |

## Left out

- The dropdown's construction and attachment (lines 113-157) are left out. So are `attachButton` (lines 160-191), the `MutationObserver` (lines 193-198) and its unused `previousUrl`. All of these are DOM side effects.
- The early returns of `attachDropdown` (lines 87-95) are left out. They depend only on whether DOM elements exist.
- `chrome.storage.local` and the Promises around it are replaced by sequential methods on a class with a map field. Interleaving of two clicks in flight is not modelled.
- `JSON.stringify`/`JSON.parse` (lines 42 and 50) are left out. The storage holds structured entries, so their round trip is taken as exact.
- LocCache.LocStorage.GetCachedLocs: an entry that fails to parse throws in the source. The model has no unparsable entries, so it does not capture that. A stored `_date` field in the fetched counts would be overwritten by the spread at line 50; that is not modelled either.
- The counting service (`LocCache.LocService`) answers through a fixed function of the address, so it answers the same way every time it is asked. A service that fails once and succeeds later, or whose counts change after a push, is not modelled.
- `fetch` and `response.json()` (lines 73-79) are replaced by the `respond` function of `LocService`. A body that fails to decode, and network errors other than a non-ok status, are not modelled.
- `Date.now()` is replaced by the parameters `now` (line 68) and `writeTime` (line 50).
- Numbers are unbounded: counts are `nat` and times `int`. JavaScript doubles are exact below 2^53, which covers both.
- LocTree.Walk: `children[part]` in the source is a property lookup on a plain object. So a name inherited from `Object.prototype` (such as `constructor`) would be found there even though the counts do not list it. The model's `children` is a map and finds only listed entries.
- The pathname is a sequence of characters. The source's regular expression runs over UTF-16 code units, which is the same for the characters involved (`/`, `$`, the keywords).
- `webpack.config.js` is build configuration, not behaviour. It is not part of this model.
