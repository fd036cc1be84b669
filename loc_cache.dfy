// The per-repository cache of line counts, kept in the browser's local
// storage for thirty minutes, the fetch from the counting service that
// fills it, and the lookup the dropdown performs on a click.

module LocCache {
  import opened Wrappers
  import opened GithubUrls
  import opened LocTree

  /** How long a stored count is served, in milliseconds: thirty minutes. */
  const CACHE_EXPIRATION_MS: int := 30 * 60 * 1000

  /** Counts are fetched from this address followed by the storage key. */
  const SERVICE_ROOT: string := "http://ghloc.bytes.pw/"

  /** A stored count and the time, in milliseconds, at which it was stored. */
  datatype CachedLocs = CachedLocs(locs: Locs, date: int)

  /** A stored count is served while at most thirty minutes old; an entry dated in the future is fresh too. */
  predicate Fresh(c: CachedLocs, now: int)
  {
    now - c.date <= CACHE_EXPIRATION_MS
  }

  /** The address the counts of a repository, or of one of its branches, are fetched from. */
  function ServiceUrl(repoId: string): (url: string)
  {
    SERVICE_ROOT + repoId
  }

  /** What the service answers: the counts, or the status text of a failed request. */
  datatype Response = Success(body: Locs) | Failure(statusText: string)

  /**
   * The counting service. What it answers for each address is fixed by
   * `respond`; `requested` records the addresses asked for, in order.
   */
  class LocService {
    const respond: string -> Response
    var requested: seq<string>

    constructor(respond: string -> Response)
      ensures this.respond == respond && requested == []
    {
      this.respond := respond;
      requested := [];
    }

    /** `fetch(url)`, with the body already decoded when the request succeeds. */
    method Fetch(url: string) returns (r: Response)
      modifies this
      ensures r == respond(url)
      ensures requested == old(requested) + [url]
    {
      r := respond(url);
      requested := requested + [url];
    }
  }

  function Lookup(entries: map<string, CachedLocs>, key: string): Option<CachedLocs>
  {
    if key in entries then Some(entries[key]) else None
  }

  /** The effect of one call: its result, the storage afterwards and the address fetched, if any. */
  datatype Outcome<+T> = Outcome(result: T, entries: map<string, CachedLocs>, fetched: Option<string>)

  function Requests<T>(o: Outcome<T>): seq<string>
  {
    match o.fetched
    case Some(url) => [url]
    case None => []
  }

  /** A fresh entry is stored under the key. */
  predicate IsHit(entries: map<string, CachedLocs>, key: string, now: int)
  {
    key in entries && Fresh(entries[key], now)
  }

  /**
   * `getLocsForRepo`: serve a fresh stored count, or fetch, store the
   * fetched count stamped with `writeTime` and return it. `now` is the clock
   * read for the freshness test and `writeTime` the one read when storing.
   */
  function LocsForRepo(entries: map<string, CachedLocs>, respond: string -> Response, url: GithubUrl, now: int, writeTime: int)
    : Outcome<Result<Locs, string>>
  {
    var key := RepoId(url);
    var cached := Lookup(entries, key);
    if cached.Some? && Fresh(cached.value, now) then
      Outcome(Ok(cached.value.locs), entries, None)
    else
      match respond(ServiceUrl(key))
      case Failure(statusText) => Outcome(Err(statusText), entries, Some(ServiceUrl(key)))
      case Success(body) => Outcome(Ok(body), entries[key := CachedLocs(body, writeTime)], Some(ServiceUrl(key)))
  }

  /** The extension's slice of `chrome.storage.local`: one entry per storage key. */
  class LocStorage {
    var entries: map<string, CachedLocs>

    constructor()
      ensures entries == map[]
    {
      entries := map[];
    }

    /** `getCachedLocs`: the entry stored under the key, if any. */
    method GetCachedLocs(repoId: string) returns (r: Option<CachedLocs>)
      ensures r.Some? <==> repoId in entries
      ensures r.Some? ==> r.value == entries[repoId]
    {
      if repoId in entries {
        r := Some(entries[repoId]);
      } else {
        r := None;
      }
    }

    /** `setCachedLocs`: store the count under the key, stamped with the current time. */
    method SetCachedLocs(repoId: string, locs: Locs, now: int)
      modifies this
      ensures entries == old(entries)[repoId := CachedLocs(locs, now)]
    {
      entries := entries[repoId := CachedLocs(locs, now)];
    }
  }

  /** `getLocsForRepo`, run against the storage and the service. */
  method GetLocsForRepo(storage: LocStorage, service: LocService, url: GithubUrl, now: int, writeTime: int)
    returns (r: Result<Locs, string>)
    modifies storage, service
    ensures var o := LocsForRepo(old(storage.entries), service.respond, url, now, writeTime);
      && r == o.result
      && storage.entries == o.entries
      && service.requested == old(service.requested) + Requests(o)
  {
    var repoId := RepoId(url);
    var cached := storage.GetCachedLocs(repoId);
    if cached.Some? && Fresh(cached.value, now) {
      return Ok(cached.value.locs);
    }
    var response := service.Fetch(ServiceUrl(repoId));
    if response.Failure? {
      return Err(response.statusText);
    }
    storage.SetCachedLocs(repoId, response.body, writeTime);
    return Ok(response.body);
  }

  // ---------------------------------------------------------------------
  // What a click on the dropdown button computes.
  // ---------------------------------------------------------------------

  /** Why the dropdown could not be filled. */
  datatype LocateError = UrlNotParsed | RemoteError(statusText: string) | PathNotFound

  /**
   * Parse the page address, get the repository's counts, and walk down to
   * the directory or file the page shows.
   */
  function Locate(entries: map<string, CachedLocs>, respond: string -> Response, pathname: string, now: int, writeTime: int)
    : Outcome<Result<Locs, LocateError>>
  {
    match ParseGithubUrl(pathname)
    case None => Outcome(Err(UrlNotParsed), entries, None)
    case Some(url) =>
      var o := LocsForRepo(entries, respond, url, now, writeTime);
      match o.result
      case Err(statusText) => Outcome(Err(RemoteError(statusText)), o.entries, o.fetched)
      case Ok(root) =>
        match Resolve(root, url.path)
        case None => Outcome(Err(PathNotFound), o.entries, o.fetched)
        case Some(node) => Outcome(Ok(node), o.entries, o.fetched)
  }

  /** `attachDropdown` up to the counts it displays. */
  method LocateLocs(storage: LocStorage, service: LocService, pathname: string, now: int, writeTime: int)
    returns (r: Result<Locs, LocateError>)
    modifies storage, service
    ensures var o := Locate(old(storage.entries), service.respond, pathname, now, writeTime);
      && r == o.result
      && storage.entries == o.entries
      && service.requested == old(service.requested) + Requests(o)
  {
    var githubUrl := ParseGithubUrl(pathname);
    if githubUrl.None? {
      return Err(UrlNotParsed);
    }
    var url := githubUrl.value;
    var locs := GetLocsForRepo(storage, service, url, now, writeTime);
    if locs.Err? {
      return Err(RemoteError(locs.error));
    }
    var node := Descend(locs.value, url.path);
    if node.None? {
      return Err(PathNotFound);
    }
    return Ok(node.value);
  }

  // ---------------------------------------------------------------------
  // Properties of the cache.
  // ---------------------------------------------------------------------

  /** The thirty-minute window is inclusive. */
  lemma FreshBoundary(c: CachedLocs)
    ensures Fresh(c, c.date + 1800000)
    ensures !Fresh(c, c.date + 1800001)
    ensures forall now :: Fresh(c, now) <==> now <= c.date + 1800000
  {
  }

  /** Distinct keys are fetched from distinct addresses. */
  lemma ServiceUrlInjective(a: string, b: string)
    requires ServiceUrl(a) == ServiceUrl(b)
    ensures a == b
  {
    assert a == ServiceUrl(a)[|SERVICE_ROOT|..];
    assert b == ServiceUrl(b)[|SERVICE_ROOT|..];
  }

  /** The service is asked exactly when the key holds no fresh entry, and then for that key's address. */
  lemma FetchIff(entries: map<string, CachedLocs>, respond: string -> Response, url: GithubUrl, now: int, writeTime: int)
    ensures var o := LocsForRepo(entries, respond, url, now, writeTime);
      && (o.fetched.None? <==> IsHit(entries, RepoId(url), now))
      && (o.fetched.Some? ==> o.fetched.value == ServiceUrl(RepoId(url)))
  {
  }

  /** On a hit the stored count is returned and storage is left as it was. */
  lemma HitServesStored(entries: map<string, CachedLocs>, respond: string -> Response, url: GithubUrl, now: int, writeTime: int)
    requires IsHit(entries, RepoId(url), now)
    ensures LocsForRepo(entries, respond, url, now, writeTime)
         == Outcome(Ok(entries[RepoId(url)].locs), entries, None)
  {
  }

  /** On a miss answered with counts, those counts are returned and stored under the key, stamped with the write time. */
  lemma MissStores(entries: map<string, CachedLocs>, respond: string -> Response, url: GithubUrl, now: int, writeTime: int)
    requires !IsHit(entries, RepoId(url), now)
    requires respond(ServiceUrl(RepoId(url))).Success?
    ensures var o := LocsForRepo(entries, respond, url, now, writeTime);
      var body := respond(ServiceUrl(RepoId(url))).body;
      && o.result == Ok(body)
      && RepoId(url) in o.entries && o.entries[RepoId(url)] == CachedLocs(body, writeTime)
  {
  }

  /** A failed request is reported with its status text and stores nothing. */
  lemma FailureKeepsStorage(entries: map<string, CachedLocs>, respond: string -> Response, url: GithubUrl, now: int, writeTime: int)
    requires !IsHit(entries, RepoId(url), now)
    requires respond(ServiceUrl(RepoId(url))).Failure?
    ensures var o := LocsForRepo(entries, respond, url, now, writeTime);
      && o.result == Err(respond(ServiceUrl(RepoId(url))).statusText)
      && o.entries == entries
  {
  }

  /** No call touches any key but its own. */
  lemma OtherKeysUnchanged(entries: map<string, CachedLocs>, respond: string -> Response, url: GithubUrl, now: int, writeTime: int, key: string)
    requires key != RepoId(url)
    ensures var o := LocsForRepo(entries, respond, url, now, writeTime);
      && (key in o.entries <==> key in entries)
      && (key in entries ==> o.entries[key] == entries[key])
  {
  }

  /** Storage only ever gains keys. */
  lemma KeysGrow(entries: map<string, CachedLocs>, respond: string -> Response, url: GithubUrl, now: int, writeTime: int)
    ensures var o := LocsForRepo(entries, respond, url, now, writeTime);
      && entries.Keys <= o.entries.Keys
      && o.entries.Keys <= entries.Keys + {RepoId(url)}
  {
  }

  /**
   * Store, then look up: a count fetched and stored at `writeTime` is served
   * without a second request by any call on the same key within the window.
   */
  lemma StoreThenServe(entries: map<string, CachedLocs>, respond: string -> Response, u: GithubUrl, v: GithubUrl,
                       now: int, writeTime: int, later: int, laterWrite: int)
    requires RepoId(u) == RepoId(v)
    requires LocsForRepo(entries, respond, u, now, writeTime).fetched.Some?
    requires LocsForRepo(entries, respond, u, now, writeTime).result.Ok?
    requires later - writeTime <= CACHE_EXPIRATION_MS
    ensures var first := LocsForRepo(entries, respond, u, now, writeTime);
      var second := LocsForRepo(first.entries, respond, v, later, laterWrite);
      && second.fetched.None?
      && second.result == first.result
      && second.entries == first.entries
  {
    var first := LocsForRepo(entries, respond, u, now, writeTime);
    assert first.entries == entries[RepoId(u) := CachedLocs(first.result.value, writeTime)];
  }

  /** Once the window has passed the entry is fetched again, and a successful answer replaces it. */
  lemma ExpiredRefetches(entries: map<string, CachedLocs>, respond: string -> Response, url: GithubUrl, now: int, writeTime: int)
    requires RepoId(url) in entries && now > entries[RepoId(url)].date + CACHE_EXPIRATION_MS
    ensures var o := LocsForRepo(entries, respond, url, now, writeTime);
      && o.fetched == Some(ServiceUrl(RepoId(url)))
      && (respond(ServiceUrl(RepoId(url))).Success? ==>
            o.entries[RepoId(url)] == CachedLocs(respond(ServiceUrl(RepoId(url))).body, writeTime))
  {
  }

  /** The counts of a branch and of the default branch are cached apart. */
  lemma BranchKeysApart(u: GithubUrl, v: GithubUrl)
    requires WellFormed(u) && WellFormed(v)
    requires u.repo == v.repo && u.branch.Some? && v.branch.None?
    ensures RepoId(u) != RepoId(v)
    ensures ServiceUrl(RepoId(u)) != ServiceUrl(RepoId(v))
  {
    if RepoId(u) == RepoId(v) {
      RepoIdInjective(u, v);
    }
  }

  // ---------------------------------------------------------------------
  // Properties of the click.
  // ---------------------------------------------------------------------

  /** An address that does not parse fails before anything is fetched or stored. */
  lemma UnparsedTouchesNothing(entries: map<string, CachedLocs>, respond: string -> Response, pathname: string, now: int, writeTime: int)
    requires ParseGithubUrl(pathname).None?
    ensures Locate(entries, respond, pathname, now, writeTime) == Outcome(Err(UrlNotParsed), entries, None)
  {
  }

  /** A displayed count is the node the page's path leads to in the repository's counts. */
  lemma LocateFindsNode(entries: map<string, CachedLocs>, respond: string -> Response, pathname: string, now: int, writeTime: int, node: Locs)
    requires Locate(entries, respond, pathname, now, writeTime).result == Ok(node)
    ensures ParseGithubUrl(pathname).Some?
    ensures var url := ParseGithubUrl(pathname).value;
      var o := LocsForRepo(entries, respond, url, now, writeTime);
      o.result.Ok? && Resolve(o.result.value, url.path) == Some(node)
  {
  }

  /** A path missing from the counts fails the click, but the fetched counts stay stored. */
  lemma PathMissStillStores(entries: map<string, CachedLocs>, respond: string -> Response, pathname: string, now: int, writeTime: int)
    requires ParseGithubUrl(pathname).Some?
    ensures var url := ParseGithubUrl(pathname).value;
      var o := LocsForRepo(entries, respond, url, now, writeTime);
      var l := Locate(entries, respond, pathname, now, writeTime);
      && l.entries == o.entries && l.fetched == o.fetched
      && (l.result == Err(PathNotFound) <==> (o.result.Ok? && Resolve(o.result.value, url.path).None?))
  {
  }

  /**
   * Pages of the same repository and branch share one entry: after one page
   * fetched the counts, another page within the window fetches nothing.
   */
  lemma PagesShareEntry(entries: map<string, CachedLocs>, respond: string -> Response, p1: string, p2: string,
                        now: int, writeTime: int, later: int, laterWrite: int)
    requires ParseGithubUrl(p1).Some? && ParseGithubUrl(p2).Some?
    requires ParseGithubUrl(p1).value.repo == ParseGithubUrl(p2).value.repo
    requires ParseGithubUrl(p1).value.branch == ParseGithubUrl(p2).value.branch
    requires Locate(entries, respond, p1, now, writeTime).fetched.Some?
    requires !Locate(entries, respond, p1, now, writeTime).result.Err?
          || Locate(entries, respond, p1, now, writeTime).result.error.PathNotFound?
    requires later - writeTime <= CACHE_EXPIRATION_MS
    ensures Locate(Locate(entries, respond, p1, now, writeTime).entries, respond, p2, later, laterWrite).fetched.None?
  {
    var u, v := ParseGithubUrl(p1).value, ParseGithubUrl(p2).value;
    PathMissStillStores(entries, respond, p1, now, writeTime);
    var first := LocsForRepo(entries, respond, u, now, writeTime);
    assert first.result.Ok? && first.fetched.Some?;
    assert RepoId(u) == RepoId(v);
    StoreThenServe(entries, respond, u, v, now, writeTime, later, laterWrite);
    PathMissStillStores(first.entries, respond, p2, later, laterWrite);
  }
}
