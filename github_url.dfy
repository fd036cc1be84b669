/**
 * The repository locator of content-script.ts: the regular expression
 *   \/(?<repo>[^/]+\/[^/]+)(\/(?<type>tree|blob)\/(?<branch>[^/]+))?(?<path>\/[^\$]+)?
 * run by `location.pathname.match(...)`, the split of the path group, and the
 * storage key `githubUrlToRepoId`.
 */
module GithubUrls {
  import opened Wrappers
  import opened Strings

  datatype ViewType = Tree | Blob

  function Keyword(t: ViewType): (w: string)
    ensures |w| == 4
  {
    match t
    case Tree => "tree"
    case Blob => "blob"
  }

  /** The view keyword spelled at s[i..i + 4], compared character by character. */
  function KeywordAt(s: string, i: nat): (t: Option<ViewType>)
    requires i + 4 <= |s|
  {
    if s[i] == 't' && s[i + 1] == 'r' && s[i + 2] == 'e' && s[i + 3] == 'e' then Some(Tree)
    else if s[i] == 'b' && s[i + 1] == 'l' && s[i + 2] == 'o' && s[i + 3] == 'b' then Some(Blob)
    else None
  }

  /** KeywordAt reads exactly the keywords. */
  lemma KeywordAtIff(s: string, i: nat, t: ViewType)
    requires i + 4 <= |s|
    ensures KeywordAt(s, i) == Some(t) <==> s[i..i + 4] == Keyword(t)
  {
    if s[i..i + 4] == Keyword(t) {
      assert s[i] == s[i..i + 4][0] && s[i + 1] == s[i..i + 4][1];
      assert s[i + 2] == s[i..i + 4][2] && s[i + 3] == s[i..i + 4][3];
    }
  }

  /** What `parseCurrentGituhbUrl` returns: missing groups are `None`. */
  datatype GithubUrl = GithubUrl(
    repo: string,
    viewType: Option<ViewType>,
    branch: Option<string>,
    path: Option<seq<string>>)

  // ---------------------------------------------------------------------
  // A match of the regular expression, as positions in the pathname.
  // ---------------------------------------------------------------------

  /** The `/type/branch` group: the branch ends (exclusively) at branchEnd. */
  datatype ViewSpan = ViewSpan(viewType: ViewType, branchEnd: nat)

  /**
   * A match starting at the '/' at `start`: the owner is
   * s[start + 1..ownerEnd], the name s[ownerEnd + 1..nameEnd]; the path group,
   * when present, runs from the end of the repo or branch to pathEnd.
   */
  datatype UrlSpan = UrlSpan(
    start: nat,
    ownerEnd: nat,
    nameEnd: nat,
    view: Option<ViewSpan>,
    pathEnd: Option<nat>)

  /** Where the optional `/type/branch` group ends. */
  function GroupEnd(m: UrlSpan): nat
  {
    match m.view
    case Some(v) => v.branchEnd
    case None => m.nameEnd
  }

  /** Where the whole match ends. */
  function MatchEnd(m: UrlSpan): nat
  {
    match m.pathEnd
    case Some(d) => d
    case None => GroupEnd(m)
  }

  /** `\/(tree|blob)\/[^/]+` matches s[b..v.branchEnd]. */
  predicate ViewMatches(s: string, b: nat, v: ViewSpan)
  {
    && b + 6 < v.branchEnd <= |s|
    && s[b] == '/'
    && KeywordAt(s, b + 1) == Some(v.viewType)
    && s[b + 5] == '/'
    && Avoids(s, b + 6, v.branchEnd, '/')
  }

  /** `\/[^\$]+` matches s[c..d]. */
  predicate PathMatches(s: string, c: nat, d: nat)
  {
    && c + 1 < d <= |s|
    && s[c] == '/'
    && Avoids(s, c + 1, d, '$')
  }

  /** m is one of the ways the regular expression can match a substring of s. */
  predicate IsMatch(s: string, m: UrlSpan)
  {
    && m.start + 1 < m.ownerEnd
    && m.ownerEnd + 1 < m.nameEnd <= |s|
    && s[m.start] == '/'
    && Avoids(s, m.start + 1, m.ownerEnd, '/')
    && s[m.ownerEnd] == '/'
    && Avoids(s, m.ownerEnd + 1, m.nameEnd, '/')
    && (m.view.Some? ==> ViewMatches(s, m.nameEnd, m.view.value))
    && (m.pathEnd.Some? ==> PathMatches(s, GroupEnd(m), m.pathEnd.value))
  }

  /**
   * Of two matches at the same start, m is tried before n by a backtracking
   * engine: the greedy `[^/]+` of the name prefers longer, the optional group
   * prefers present, the greedy branch prefers longer, the optional path
   * prefers present and then longer.
   */
  predicate Outranks(m: UrlSpan, n: UrlSpan)
  {
    if m.nameEnd != n.nameEnd then m.nameEnd > n.nameEnd
    else if m.view.Some? != n.view.Some? then m.view.Some?
    else if m.view.Some? && m.view.value.branchEnd != n.view.value.branchEnd then
      m.view.value.branchEnd > n.view.value.branchEnd
    else if m.pathEnd.Some? != n.pathEnd.Some? then m.pathEnd.Some?
    else m.pathEnd.Some? && m.pathEnd.value > n.pathEnd.value
  }

  // ---------------------------------------------------------------------
  // The matcher.
  // ---------------------------------------------------------------------

  /** The match can start at position i: a '/', a non-empty owner, a '/', a non-empty name. */
  predicate RepoAt(s: string, i: nat)
  {
    && i < |s|
    && s[i] == '/'
    && var a := i + 1 + RunWithout(s, i + 1, '/');
       a > i + 1 && a + 1 < |s| && s[a + 1] != '/'
  }

  /** The leftmost position from i on where the match can start. */
  function FindRepo(s: string, i: nat): (r: Option<nat>)
    requires i <= |s|
    ensures r.Some? ==> i <= r.value && RepoAt(s, r.value)
    ensures r.Some? ==> forall j :: i <= j < r.value ==> !RepoAt(s, j)
    ensures r.None? ==> forall j :: i <= j < |s| ==> !RepoAt(s, j)
    decreases |s| - i
  {
    if i == |s| then None
    else if RepoAt(s, i) then Some(i)
    else FindRepo(s, i + 1)
  }

  /** The `/type/branch` group at b, if it can match there (the branch taken greedily). */
  function ViewAt(s: string, b: nat): (v: Option<ViewSpan>)
    requires b <= |s|
    ensures v.Some? ==> ViewMatches(s, b, v.value)
  {
    if b + 6 < |s| && s[b] == '/' && s[b + 5] == '/' && s[b + 6] != '/' && KeywordAt(s, b + 1).Some? then
      Some(ViewSpan(KeywordAt(s, b + 1).value, b + 6 + RunWithout(s, b + 6, '/')))
    else
      None
  }

  /** The end of the path group at c, if it can match there (taken greedily). */
  function PathAt(s: string, c: nat): (d: Option<nat>)
    requires c <= |s|
    ensures d.Some? ==> PathMatches(s, c, d.value)
  {
    if c + 1 < |s| && s[c] == '/' && s[c + 1] != '$' then
      Some(c + 1 + RunWithout(s, c + 1, '$'))
    else
      None
  }

  /** The match the engine settles on when it starts at i. */
  function SpanAt(s: string, i: nat): (m: UrlSpan)
    requires RepoAt(s, i)
    ensures IsMatch(s, m) && m.start == i
  {
    var a := i + 1 + RunWithout(s, i + 1, '/');
    var b := a + 1 + RunWithout(s, a + 1, '/');
    var view := ViewAt(s, b);
    var c := match view case Some(v) => v.branchEnd case None => b;
    UrlSpan(i, a, b, view, PathAt(s, c))
  }

  /** `s.match(regex)` without the `g` flag: the first match, or null. */
  function Exec(s: string): (r: Option<UrlSpan>)
    ensures r.Some? ==> IsMatch(s, r.value)
  {
    match FindRepo(s, 0)
    case None => None
    case Some(i) => Some(SpanAt(s, i))
  }

  /** The named groups of a match, with the path group split as line 32 does. */
  function Capture(s: string, m: UrlSpan): GithubUrl
    requires IsMatch(s, m)
  {
    GithubUrl(
      s[m.start + 1..m.nameEnd],
      match m.view case Some(v) => Some(v.viewType) case None => None,
      match m.view case Some(v) => Some(s[m.nameEnd + 6..v.branchEnd]) case None => None,
      match m.pathEnd case Some(d) => Some(Split(s[GroupEnd(m) + 1..d])) case None => None)
  }

  /** `parseCurrentGituhbUrl`, with `location.pathname` as its argument. */
  function ParseGithubUrl(pathname: string): Option<GithubUrl>
  {
    match Exec(pathname)
    case None => None
    case Some(m) => Some(Capture(pathname, m))
  }

  // ---------------------------------------------------------------------
  // What the matcher promises.
  // ---------------------------------------------------------------------

  /** Every match starts where RepoAt holds. */
  lemma MatchStartsRepo(s: string, n: UrlSpan)
    requires IsMatch(s, n)
    ensures RepoAt(s, n.start)
  {
    RunEndsAt(s, n.start + 1, n.ownerEnd, '/');
  }

  /** The chosen match is the leftmost one. */
  lemma ExecLeftmost(s: string, n: UrlSpan)
    requires IsMatch(s, n)
    ensures Exec(s).Some? && Exec(s).value.start <= n.start
  {
    MatchStartsRepo(s, n);
  }

  /** The pathname is rejected exactly when the expression matches nowhere in it. */
  lemma ExecNoneIff(s: string)
    ensures Exec(s).None? <==> forall n :: !IsMatch(s, n)
  {
    if Exec(s).None? {
      forall n | IsMatch(s, n) ensures false {
        ExecLeftmost(s, n);
      }
    }
  }

  /** Where the `/type/branch` group can match, the engine takes it, with the longest branch. */
  lemma ViewAtGreedy(s: string, b: nat, v: ViewSpan)
    requires b <= |s| && ViewMatches(s, b, v)
    ensures ViewAt(s, b).Some?
    ensures ViewAt(s, b).value.viewType == v.viewType
    ensures v.branchEnd <= ViewAt(s, b).value.branchEnd
  {
    assert s[b + 6] != '/';
    RunCovers(s, b + 6, v.branchEnd, '/');
  }

  /** Where the path group can match, the engine takes it, as long as it goes. */
  lemma PathAtGreedy(s: string, c: nat, d: nat)
    requires c <= |s| && PathMatches(s, c, d)
    ensures PathAt(s, c).Some? && d <= PathAt(s, c).value
  {
    assert s[c + 1] != '$';
    RunCovers(s, c + 1, d, '$');
  }

  /** Among the matches starting at i, SpanAt is the one a backtracking engine tries first. */
  lemma SpanAtPriority(s: string, i: nat, n: UrlSpan)
    requires RepoAt(s, i) && IsMatch(s, n) && n.start == i
    ensures SpanAt(s, i) == n || Outranks(SpanAt(s, i), n)
  {
    var m := SpanAt(s, i);
    SpanAtParts(s, i);
    RunEndsAt(s, i + 1, n.ownerEnd, '/');
    RunCovers(s, m.ownerEnd + 1, n.nameEnd, '/');
    GreedyRank(s, m, n);
  }

  /** How SpanAt chooses each end. */
  lemma SpanAtParts(s: string, i: nat)
    requires RepoAt(s, i)
    ensures var m := SpanAt(s, i);
      && m.start == i
      && m.ownerEnd == i + 1 + RunWithout(s, i + 1, '/')
      && m.nameEnd == m.ownerEnd + 1 + RunWithout(s, m.ownerEnd + 1, '/') <= |s|
      && m.view == ViewAt(s, m.nameEnd)
      && GroupEnd(m) <= |s| && m.pathEnd == PathAt(s, GroupEnd(m))
  {
  }


  /**
   * A candidate m that has n's owner, a name at least as long as n's, and
   * the greedy choices of the two optional groups after it, ranks at or above n.
   */
  lemma GreedyRank(s: string, m: UrlSpan, n: UrlSpan)
    requires IsMatch(s, n)
    requires m.start == n.start && m.ownerEnd == n.ownerEnd && n.nameEnd <= m.nameEnd <= |s|
    requires m.view == ViewAt(s, m.nameEnd)
    requires GroupEnd(m) <= |s| && m.pathEnd == PathAt(s, GroupEnd(m))
    ensures m == n || Outranks(m, n)
  {
    if n.nameEnd == m.nameEnd {
      if n.view.Some? {
        ViewAtGreedy(s, m.nameEnd, n.view.value);
      }
      if m.view == n.view {
        PathRank(s, m, n);
      }
    }
  }

  /** Two matches that agree up to the path group are ranked by the path group. */
  lemma PathRank(s: string, m: UrlSpan, n: UrlSpan)
    requires IsMatch(s, n)
    requires m.start == n.start && m.ownerEnd == n.ownerEnd && m.nameEnd == n.nameEnd && m.view == n.view
    requires GroupEnd(m) <= |s| && m.pathEnd == PathAt(s, GroupEnd(m))
    ensures m == n || Outranks(m, n)
  {
    if n.pathEnd.Some? {
      PathAtGreedy(s, GroupEnd(m), n.pathEnd.value);
    }
  }

  /** Among the matches at the leftmost start, the engine settles on the one it tries first. */
  lemma ExecPriority(s: string, n: UrlSpan)
    requires Exec(s).Some? && IsMatch(s, n) && n.start == Exec(s).value.start
    ensures Exec(s).value == n || Outranks(Exec(s).value, n)
  {
    SpanAtPriority(s, n.start, n);
  }

  // ---------------------------------------------------------------------
  // What a parsed locator looks like.
  // ---------------------------------------------------------------------

  /** A non-empty piece without a '/'. */
  predicate IsSegment(t: string)
  {
    t != "" && '/' !in t
  }

  /** `owner/name`: two segments joined by one '/'. */
  predicate IsRepoName(repo: string)
  {
    exists k :: 0 <= k < |repo| && repo[k] == '/' && IsSegment(repo[..k]) && IsSegment(repo[k + 1..])
  }

  /** Path pieces that render as a path group: not all empty, free of '/' and '$'. */
  predicate IsPath(p: seq<string>)
  {
    && |p| >= 1 && Join(p) != ""
    && forall k :: 0 <= k < |p| ==> '/' !in p[k] && '$' !in p[k]
  }

  /** What every successful parse satisfies. */
  predicate WellFormed(u: GithubUrl)
  {
    && IsRepoName(u.repo)
    && (u.viewType.Some? <==> u.branch.Some?)
    && (u.branch.Some? ==> IsSegment(u.branch.value))
    && (u.path.Some? ==> IsPath(u.path.value))
  }

  /** The text a locator stands for: `/owner/name[/type/branch][/path...]`. */
  function Render(u: GithubUrl): string
  {
    "/" + u.repo + ViewText(u) + PathText(u)
  }

  /** `/type/branch`, or nothing. */
  function ViewText(u: GithubUrl): string
  {
    match (u.viewType, u.branch)
    case (Some(t), Some(b)) => "/" + Keyword(t) + "/" + b
    case _ => ""
  }

  /** `/` and the path pieces joined by `/`, or nothing. */
  function PathText(u: GithubUrl): string
  {
    match u.path
    case Some(p) => "/" + Join(p)
    case None => ""
  }

  /** The groups of any match form a well-formed locator. */
  lemma CaptureWellFormed(s: string, m: UrlSpan)
    requires IsMatch(s, m)
    ensures WellFormed(Capture(s, m))
  {
    CaptureRepoField(s, m);
    CaptureBranchField(s, m);
    CapturePathField(s, m);
    WellFormedIntro(Capture(s, m));
  }

  lemma CaptureRepoField(s: string, m: UrlSpan)
    requires IsMatch(s, m)
    ensures IsRepoName(Capture(s, m).repo)
  {
    CaptureRepo(s, m);
  }

  lemma CaptureBranchField(s: string, m: UrlSpan)
    requires IsMatch(s, m)
    ensures Capture(s, m).viewType.Some? <==> Capture(s, m).branch.Some?
    ensures Capture(s, m).branch.Some? ==> IsSegment(Capture(s, m).branch.value)
  {
    if m.view.Some? {
      AvoidsNotIn(s, m.nameEnd + 6, m.view.value.branchEnd, '/');
    }
  }

  lemma CapturePathField(s: string, m: UrlSpan)
    requires IsMatch(s, m)
    ensures Capture(s, m).path.Some? ==> IsPath(Capture(s, m).path.value)
  {
    if m.pathEnd.Some? {
      CapturePath(s, GroupEnd(m), m.pathEnd.value);
    }
  }

  /** The conditions of WellFormed, one by one. */
  lemma WellFormedIntro(u: GithubUrl)
    requires IsRepoName(u.repo)
    requires u.viewType.Some? <==> u.branch.Some?
    requires u.branch.Some? ==> IsSegment(u.branch.value)
    requires u.path.Some? ==> IsPath(u.path.value)
    ensures WellFormed(u)
  {
  }

  /** The repo group is owner '/' name. */
  lemma CaptureRepo(s: string, m: UrlSpan)
    requires IsMatch(s, m)
    ensures IsRepoName(s[m.start + 1..m.nameEnd])
  {
    var repo := s[m.start + 1..m.nameEnd];
    var k := m.ownerEnd - m.start - 1;
    assert repo[k] == '/';
    assert repo[..k] == s[m.start + 1..m.ownerEnd];
    assert repo[k + 1..] == s[m.ownerEnd + 1..m.nameEnd];
    AvoidsNotIn(s, m.start + 1, m.ownerEnd, '/');
    AvoidsNotIn(s, m.ownerEnd + 1, m.nameEnd, '/');
  }

  /** The split path group: at least one piece, none with '/' or '$', joining back to the group. */
  lemma CapturePath(s: string, c: nat, d: nat)
    requires PathMatches(s, c, d)
    ensures var parts := Split(s[c + 1..d]);
      IsPath(parts) && Join(parts) == s[c + 1..d]
  {
    AvoidsNotIn(s, c + 1, d, '$');
    NotInJoin(Split(s[c + 1..d]), '$');
  }

  /** A successful parse yields a well-formed locator. */
  lemma ParseWellFormed(s: string)
    requires ParseGithubUrl(s).Some?
    ensures WellFormed(ParseGithubUrl(s).value)
  {
    CaptureWellFormed(s, Exec(s).value);
  }

  /** The text of any match is the rendering of its groups. */
  lemma CaptureRenders(s: string, m: UrlSpan)
    requires IsMatch(s, m)
    ensures s[m.start..MatchEnd(m)] == Render(Capture(s, m))
  {
    var u := Capture(s, m);
    var a, b, c, e := m.start, m.nameEnd, GroupEnd(m), MatchEnd(m);
    SlashPiece(s, a, b);
    if m.view.Some? {
      ViewPiece(s, b, c, m.view.value.viewType);
    }
    if m.pathEnd.Some? {
      SlashPiece(s, c, e);
      assert Join(u.path.value) == s[c + 1..e];
    }
    assert s[b..c] == ViewText(u);
    assert s[c..e] == PathText(u);
    Pieces(s, a, b, c, e);
  }

  /** A stretch that starts with '/' is "/" and the rest. */
  lemma SlashPiece(s: string, a: nat, b: nat)
    requires a < b <= |s| && s[a] == '/'
    ensures s[a..b] == "/" + s[a + 1..b]
  {
  }

  /** The text of a `/type/branch` group. */
  lemma ViewPiece(s: string, b: nat, c: nat, t: ViewType)
    requires b + 6 < c <= |s| && s[b] == '/' && KeywordAt(s, b + 1) == Some(t) && s[b + 5] == '/'
    ensures s[b..c] == "/" + Keyword(t) + "/" + s[b + 6..c]
  {
    KeywordAtIff(s, b + 1, t);
    SlashPiece(s, b, c);
    SlashPiece(s, b + 5, c);
    assert s[b + 1..c] == s[b + 1..b + 5] + s[b + 5..c];
  }

  /** Adjacent stretches concatenate. */
  lemma Pieces(s: string, a: nat, b: nat, c: nat, e: nat)
    requires a <= b <= c <= e <= |s|
    ensures s[a..e] == s[a..b] + s[b..c] + s[c..e]
  {
  }

  /** The matched text is exactly the rendered locator: joining the path with '/' gives the rest back. */
  lemma ParseReassembles(s: string)
    requires ParseGithubUrl(s).Some?
    ensures Exec(s).Some?
    ensures var m := Exec(s).value;
      s[m.start..MatchEnd(m)] == Render(ParseGithubUrl(s).value)
  {
    CaptureRenders(s, Exec(s).value);
  }

  /** No locator is found exactly when no `/seg/seg` with two non-empty segments occurs. */
  lemma ParseNoneIff(s: string)
    ensures ParseGithubUrl(s).None? <==> forall n :: !IsMatch(s, n)
  {
    ExecNoneIff(s);
  }

  /**
   * Without a `/type/branch` part, a path whose first piece is `tree` or
   * `blob` and whose second is non-empty renders like one.
   */
  predicate ReadsAsView(u: GithubUrl)
  {
    && u.viewType.None?
    && u.path.Some? && |u.path.value| >= 2
    && (u.path.value[0] == "tree" || u.path.value[0] == "blob")
    && u.path.value[1] != ""
  }

  /** Parsing the rendering of a well-formed locator gives the locator back. */
  lemma ParseRender(u: GithubUrl)
    requires WellFormed(u) && !ReadsAsView(u)
    ensures ParseGithubUrl(Render(u)) == Some(u)
  {
    RenderParts(u);
    ParseParts(Render(u), u);
  }

  /** Parsing a text laid out as `/repo`, then the view text, then the path text. */
  lemma ParseParts(s: string, u: GithubUrl)
    requires WellFormed(u) && !ReadsAsView(u)
    requires var b := 1 + |u.repo|;
      && |s| == b + |ViewText(u)| + |PathText(u)|
      && s[0] == '/' && s[1..b] == u.repo
      && s[b..b + |ViewText(u)|] == ViewText(u)
      && s[b + |ViewText(u)|..] == PathText(u)
    ensures ParseGithubUrl(s) == Some(u)
  {
    var b := 1 + |u.repo|;
    var c := b + |ViewText(u)|;
    var k :| 0 <= k < |u.repo| && u.repo[k] == '/' && IsSegment(u.repo[..k]) && IsSegment(u.repo[k + 1..]);
    var view := ViewOfParts(s, b, c, u);
    RepoPrefix(s, b, k);
    var pathEnd := PathOfParts(s, c, u);
    ExecAtStart(s, k, b, view, pathEnd);
    CaptureIs(s, k, b, c, view, pathEnd, u);
  }

  /** The optional group read at the end of the repository part. */
  lemma ViewOfParts(s: string, b: nat, c: nat, u: GithubUrl) returns (view: Option<ViewSpan>)
    requires WellFormed(u) && !ReadsAsView(u)
    requires b <= c <= |s| && c == b + |ViewText(u)|
    requires s[b..c] == ViewText(u) && s[c..] == PathText(u)
    ensures ViewAt(s, b) == view
    ensures b == |s| || s[b] == '/'
    ensures match view
      case Some(v) => v.branchEnd == c && u.viewType == Some(v.viewType) && u.branch == Some(s[b + 6..c])
      case None => c == b && u.viewType.None? && u.branch.None?
  {
    if u.viewType.Some? {
      assert c == |s| || s[c] == '/';
      ViewPrefix(s, b, c, u.viewType.value, u.branch.value);
      view := Some(ViewSpan(u.viewType.value, c));
    } else {
      if u.path.Some? {
        NoView(s, b, u.path.value);
      }
      view := None;
    }
  }

  /** The path group read after the optional group. */
  lemma PathOfParts(s: string, c: nat, u: GithubUrl) returns (pathEnd: Option<nat>)
    requires WellFormed(u) && c <= |s| && s[c..] == PathText(u)
    ensures PathAt(s, c) == pathEnd
    ensures match pathEnd
      case Some(d) => c < d <= |s| && u.path.Some? && Split(s[c + 1..d]) == u.path.value
      case None => u.path.None?
  {
    if u.path.Some? {
      PathSuffix(s, c, u.path.value);
      pathEnd := Some(|s|);
    } else {
      pathEnd := None;
    }
  }

  /** The matcher's choices at position 0, assembled. */
  lemma ExecAtStart(s: string, k: nat, b: nat, view: Option<ViewSpan>, pathEnd: Option<nat>)
    requires RepoAt(s, 0) && k + 2 <= b <= |s|
    requires RunWithout(s, 1, '/') == k && RunWithout(s, k + 2, '/') == b - k - 2
    requires ViewAt(s, b) == view
    requires PathAt(s, match view case Some(v) => v.branchEnd case None => b) == pathEnd
    ensures Exec(s) == Some(UrlSpan(0, k + 1, b, view, pathEnd))
  {
    ExecFromStart(s);
    SpanAtParts(s, 0);
    var m := SpanAt(s, 0);
    assert m.ownerEnd == k + 1 && m.nameEnd == b;
    assert m.view == view;
    assert m.pathEnd == pathEnd;
    assert m == UrlSpan(0, k + 1, b, view, pathEnd);
  }

  /** A repository group at position 0 is the leftmost one. */
  lemma ExecFromStart(s: string)
    requires RepoAt(s, 0)
    ensures Exec(s) == Some(SpanAt(s, 0))
  {
    assert FindRepo(s, 0) == Some(0);
  }

  /** A match whose groups hold the locator's parts captures the locator. */
  lemma CaptureIs(s: string, k: nat, b: nat, c: nat, view: Option<ViewSpan>, pathEnd: Option<nat>, u: GithubUrl)
    requires Exec(s) == Some(UrlSpan(0, k + 1, b, view, pathEnd))
    requires b <= |s| && s[1..b] == u.repo
    requires match view
      case Some(v) => v.branchEnd == c && u.viewType == Some(v.viewType) && u.branch == Some(s[b + 6..c])
      case None => c == b && u.viewType.None? && u.branch.None?
    requires match pathEnd
      case Some(d) => c < d <= |s| && u.path.Some? && Split(s[c + 1..d]) == u.path.value
      case None => u.path.None?
    ensures ParseGithubUrl(s) == Some(u)
  {
    var m := UrlSpan(0, k + 1, b, view, pathEnd);
    ExecCaptures(s, m);
    CaptureFields(s, k, b, c, view, pathEnd, u);
  }

  lemma ExecCaptures(s: string, m: UrlSpan)
    requires Exec(s) == Some(m)
    ensures IsMatch(s, m) && ParseGithubUrl(s) == Some(Capture(s, m))
  {
  }

  lemma CaptureFields(s: string, k: nat, b: nat, c: nat, view: Option<ViewSpan>, pathEnd: Option<nat>, u: GithubUrl)
    requires IsMatch(s, UrlSpan(0, k + 1, b, view, pathEnd))
    requires b <= |s| && s[1..b] == u.repo
    requires match view
      case Some(v) => v.branchEnd == c && u.viewType == Some(v.viewType) && u.branch == Some(s[b + 6..c])
      case None => c == b && u.viewType.None? && u.branch.None?
    requires match pathEnd
      case Some(d) => c < d <= |s| && u.path.Some? && Split(s[c + 1..d]) == u.path.value
      case None => u.path.None?
    ensures Capture(s, UrlSpan(0, k + 1, b, view, pathEnd)) == u
  {
    var m := UrlSpan(0, k + 1, b, view, pathEnd);
    var w := Capture(s, m);
    assert GroupEnd(m) == c;
    assert w.repo == u.repo && w.viewType == u.viewType;
    assert w.branch == u.branch;
    if pathEnd.Some? {
      var text := s[c + 1..pathEnd.value];
      assert w.path == Some(Split(text));
      assert u.path == Some(Split(text));
    }
    assert w.path == u.path;
    assert w == u;
  }

  /** Where the pieces of a rendering sit. */
  lemma RenderParts(u: GithubUrl)
    ensures var s, b := Render(u), 1 + |u.repo|;
      && |s| == b + |ViewText(u)| + |PathText(u)|
      && s[0] == '/' && s[1..b] == u.repo
      && s[b..b + |ViewText(u)|] == ViewText(u)
      && s[b + |ViewText(u)|..] == PathText(u)
  {
  }

  /** The owner and name of `/owner/name...` are the greedy runs, so the match starts at 0. */
  lemma RepoPrefix(s: string, b: nat, k: nat)
    requires 0 < b <= |s| && s[0] == '/' && (b == |s| || s[b] == '/')
    requires k < b - 1 && s[1..b][k] == '/' && IsSegment(s[1..b][..k]) && IsSegment(s[1..b][k + 1..])
    ensures RepoAt(s, 0)
    ensures RunWithout(s, 1, '/') == k
    ensures RunWithout(s, k + 2, '/') == b - k - 2
  {
    var repo := s[1..b];
    assert forall i :: 1 <= i < k + 1 ==> s[i] == repo[..k][i - 1];
    assert forall i :: k + 2 <= i < b ==> s[i] == repo[k + 1..][i - (k + 2)];
    RunEndsAt(s, 1, k + 1, '/');
    RunEndsAt(s, k + 2, b, '/');
  }

  /** A `/type/branch` part is read as one, with the whole branch. */
  lemma ViewPrefix(s: string, b: nat, c: nat, t: ViewType, br: string)
    requires b <= c <= |s| && s[b..c] == "/" + Keyword(t) + "/" + br
    requires IsSegment(br) && (c == |s| || s[c] == '/')
    ensures ViewAt(s, b) == Some(ViewSpan(t, c))
    ensures s[b + 6..c] == br
  {
    SliceConcat(s, b, c, "/" + Keyword(t) + "/", br);
    SliceConcat(s, b, b + 6, "/" + Keyword(t), "/");
    SliceConcat(s, b, b + 5, "/", Keyword(t));
    assert s[b] == s[b..b + 1][0] && s[b + 5] == s[b + 5..b + 6][0];
    KeywordAtIff(s, b + 1, t);
    assert s[b + 6] == br[0];
    NotInAvoids(s, b + 6, c, '/');
    RunEndsAt(s, b + 6, c, '/');
  }

  /** A path that does not read as a view leaves the optional group unmatched. */
  lemma NoView(s: string, b: nat, p: seq<string>)
    requires b <= |s| && s[b..] == "/" + Join(p)
    requires |p| >= 1 && forall k :: 0 <= k < |p| ==> '/' !in p[k]
    requires !(|p| >= 2 && (p[0] == "tree" || p[0] == "blob") && p[1] != "")
    ensures ViewAt(s, b) == None
  {
    if ViewAt(s, b).Some? {
      ViewShape(s, b, Join(p));
      LeadingPieces(p, 4);
    }
  }

  /** What a matched `/type/branch` group says about the text after `b`. */
  lemma ViewShape(s: string, b: nat, j: string)
    requires b <= |s| && s[b..] == "/" + j && ViewAt(s, b).Some?
    ensures |j| > 5 && j[4] == '/' && j[5] != '/'
    ensures j[..4] == "tree" || j[..4] == "blob"
    ensures '/' !in j[..4]
  {
    var t := KeywordAt(s, b + 1).value;
    KeywordAtIff(s, b + 1, t);
    assert j == s[b + 1..];
    assert j[..4] == s[b + 1..b + 5];
  }

  /**
   * When the join has a first separator at n followed by a non-separator,
   * the pieces are at least two, the first is the text before n, and the
   * second is not empty.
   */
  lemma LeadingPieces(p: seq<string>, n: nat)
    requires |p| >= 1 && forall k :: 0 <= k < |p| ==> '/' !in p[k]
    requires n + 1 < |Join(p)| && Join(p)[n] == '/' && Join(p)[n + 1] != '/'
    requires '/' !in Join(p)[..n]
    ensures |p| >= 2 && p[0] == Join(p)[..n] && p[1] != ""
  {
    var j := Join(p);
    JoinHead(p);
    RunEndsAt(j, 0, n, '/');
    JoinHead(p[1..]);
  }

  /** A trailing `/path...` is the whole path group, and splitting it gives the pieces. */
  lemma PathSuffix(s: string, c: nat, p: seq<string>)
    requires c <= |s| && s[c..] == "/" + Join(p)
    requires IsPath(p)
    ensures PathAt(s, c) == Some(|s|)
    ensures Split(s[c + 1..|s|]) == p
  {
    JoinAvoids(p, '$');
    PathGroupText(s, c, Join(p));
    SplitJoin(p);
  }

  /** A trailing `/text` without '$' is the whole path group. */
  lemma PathGroupText(s: string, c: nat, text: string)
    requires c <= |s| && s[c..] == "/" + text
    requires text != "" && '$' !in text
    ensures PathAt(s, c) == Some(|s|)
    ensures s[c + 1..|s|] == text
  {
    assert forall k :: c + 1 <= k < |s| ==> s[k] == text[k - c - 1];
    assert s[c + 1] == text[0];
    RunEndsAt(s, c + 1, |s|, '$');
  }

  // ---------------------------------------------------------------------
  // Examples.
  // ---------------------------------------------------------------------

  /** A directory page on a branch. */
  lemma ParseTreeExample()
    ensures ParseGithubUrl("/octocat/Hello-World/tree/main/lib")
         == Some(GithubUrl("octocat/Hello-World", Some(Tree), Some("main"), Some(["lib"])))
  {
    var u := GithubUrl("octocat/Hello-World", Some(Tree), Some("main"), Some(["lib"]));
    OctocatWellFormed(u);
    OctocatRender(u);
    ParseRender(u);
  }

  lemma OctocatWellFormed(u: GithubUrl)
    requires u == GithubUrl("octocat/Hello-World", Some(Tree), Some("main"), Some(["lib"]))
    ensures WellFormed(u) && !ReadsAsView(u)
  {
    var r := u.repo;
    assert r[7] == '/' && r[..7] == "octocat" && r[8..] == "Hello-World";
  }

  lemma OctocatRender(u: GithubUrl)
    requires u == GithubUrl("octocat/Hello-World", Some(Tree), Some("main"), Some(["lib"]))
    ensures Render(u) == "/octocat/Hello-World/tree/main/lib"
  {
    assert "/" + u.repo == "/octocat/Hello-World";
    assert ViewText(u) == "/tree/main";
    assert PathText(u) == "/lib";
    Concat3("/" + u.repo, ViewText(u), PathText(u));
  }

  lemma Concat3(a: string, b: string, c: string)
    requires a == "/octocat/Hello-World" && b == "/tree/main" && c == "/lib"
    ensures a + b + c == "/octocat/Hello-World/tree/main/lib"
  {
  }

  /** A file page: every path piece is kept, in order. */
  lemma ParseBlobExample()
    ensures ParseGithubUrl("/o/r/blob/m/a/b") == Some(GithubUrl("o/r", Some(Blob), Some("m"), Some(["a", "b"])))
  {
    var u := GithubUrl("o/r", Some(Blob), Some("m"), Some(["a", "b"]));
    assert u.repo[1] == '/' && u.repo[..1] == "o" && u.repo[2..] == "r";
    assert Join(["a", "b"]) == "a/b";
    assert Render(u) == "/o/r/blob/m/a/b";
    ParseRender(u);
  }

  /** The repository's front page has neither view nor path. */
  lemma ParseRepoExample()
    ensures ParseGithubUrl("/o/r") == Some(GithubUrl("o/r", None, None, None))
  {
    var u := GithubUrl("o/r", None, None, None);
    assert u.repo[1] == '/' && u.repo[..1] == "o" && u.repo[2..] == "r";
    assert Render(u) == "/o/r";
    ParseRender(u);
  }

  /** A trailing slash leaves an empty last path piece. */
  lemma ParseTrailingSlashExample()
    ensures ParseGithubUrl("/o/r/tree/m/a/") == Some(GithubUrl("o/r", Some(Tree), Some("m"), Some(["a", ""])))
  {
    var u := GithubUrl("o/r", Some(Tree), Some("m"), Some(["a", ""]));
    assert u.repo[1] == '/' && u.repo[..1] == "o" && u.repo[2..] == "r";
    assert Join(["a", ""]) == "a/";
    assert Render(u) == "/o/r/tree/m/a/";
    ParseRender(u);
  }

  /** `tree` with nothing after it is not a view: it is read as the path. */
  lemma ParseBareTreeExample()
    ensures ParseGithubUrl("/o/r/tree/") == Some(GithubUrl("o/r", None, None, Some(["tree", ""])))
  {
    var u := GithubUrl("o/r", None, None, Some(["tree", ""]));
    assert u.repo[1] == '/' && u.repo[..1] == "o" && u.repo[2..] == "r";
    assert Join(["tree", ""]) == "tree/";
    assert Render(u) == "/o/r/tree/";
    ParseRender(u);
  }

  /** With no name after the owner there is no repository to match. */
  lemma ParseOwnerOnlyExample()
    ensures ParseGithubUrl("/octocat") == None
  {
    var s := "/octocat";
    RunEndsAt(s, 1, 8, '/');
    assert forall j :: 0 <= j < |s| ==> !RepoAt(s, j);
  }

  // ---------------------------------------------------------------------
  // The storage key.
  // ---------------------------------------------------------------------

  /** `githubUrlToRepoId`: the repo, qualified by the branch when there is a (non-empty) one. */
  function RepoId(url: GithubUrl): string
  {
    match url.branch
    case Some(b) => if b != "" then url.repo + "/" + b else url.repo
    case None => url.repo
  }

  /** The key of a well-formed locator splits into owner, name and, if present, branch. */
  lemma RepoIdSplit(u: GithubUrl)
    requires IsRepoName(u.repo) && (u.branch.Some? ==> IsSegment(u.branch.value))
    ensures |Split(u.repo)| == 2 && Join(Split(u.repo)) == u.repo
    ensures Split(RepoId(u)) == Split(u.repo) + (if u.branch.Some? then [u.branch.value] else [])
  {
    var k :| 0 <= k < |u.repo| && u.repo[k] == '/' && IsSegment(u.repo[..k]) && IsSegment(u.repo[k + 1..]);
    if u.branch.Some? {
      assert RepoId(u) == u.repo + "/" + u.branch.value;
      KeyPieces(u.repo, k, u.branch.value);
    } else {
      assert RepoId(u) == u.repo;
      KeyPieces(u.repo, k, "");
    }
  }

  /** `owner/name` splits in two, and appending `/branch` appends the branch. */
  lemma KeyPieces(repo: string, k: nat, branch: string)
    requires k < |repo| && repo[k] == '/' && '/' !in repo[..k] && '/' !in repo[k + 1..]
    requires '/' !in branch
    ensures |Split(repo)| == 2
    ensures Split(repo + "/" + branch) == Split(repo) + [branch]
  {
    var owner, name := repo[..k], repo[k + 1..];
    CutAt(repo, k);
    SplitPair(owner, name);
    SplitTriple(owner, name, branch);
    assert [owner, name] + [branch] == [owner, name, branch];
  }

  /** The key depends only on the repository and the branch: the view and the path never enter it. */
  lemma RepoIdIgnoresView(u: GithubUrl, t: Option<ViewType>, p: Option<seq<string>>)
    ensures RepoId(u.(viewType := t, path := p)) == RepoId(u)
  {
  }

  /** Distinct repository/branch pairs get distinct keys. */
  lemma RepoIdInjective(u: GithubUrl, v: GithubUrl)
    requires WellFormed(u) && WellFormed(v)
    requires RepoId(u) == RepoId(v)
    ensures u.repo == v.repo && u.branch == v.branch
  {
    RepoIdSplit(u);
    RepoIdSplit(v);
    var parts := Split(RepoId(u));
    assert Split(u.repo) == parts[..2] == Split(v.repo);
    if u.branch.Some? {
      assert u.branch.value == parts[2];
    }
    if v.branch.Some? {
      assert v.branch.value == parts[2];
    }
  }

  lemma RepoIdExample()
    ensures RepoId(GithubUrl("octocat/Hello-World", Some(Tree), Some("main"), Some(["lib"])))
         == "octocat/Hello-World/main"
    ensures RepoId(GithubUrl("octocat/Hello-World", None, None, None)) == "octocat/Hello-World"
  {
  }
}
