/**
 * Reading an owner and a repository name out of a GitHub URL, and the
 * error policy of the two GitHub lookups built on it. The GitHub API itself
 * is an oracle: a function from the repository to its data, or `None` when
 * the request fails.
 */
module GitHub {
  import opened Wrappers
  import opened Text

  const GITHUB_PREFIX: string := "https://github.com/"
  const GIT_SUFFIX: string := ".git"
  const INVALID_REPOSITORY_URL: string := "Invalid repository URL"

  datatype RepoRef = RepoRef(owner: string, repo: string)

  predicate EndsWith(s: string, p: string) {
    |p| <= |s| && s[|s| - |p|..] == p
  }

  /** The path after the first "https://github.com/". */
  function RepoPath(repoUrl: string): string {
    ReplaceFirst(repoUrl, GITHUB_PREFIX, "")
  }

  /** The owner and repository are the first two segments, both non-empty; later segments are ignored. */
  function RefOf(parts: seq<string>): (r: Option<RepoRef>)
    ensures r.Some? <==> |parts| >= 2 && parts[0] != "" && parts[1] != ""
    ensures r.Some? ==> r.value == RepoRef(parts[0], parts[1])
  {
    if |parts| >= 2 && parts[0] != "" && parts[1] != "" then Some(RepoRef(parts[0], parts[1])) else None
  }

  /** The path segments as the code computes them: the first ".git" anywhere in the path is removed. */
  function SegmentsAsWritten(repoUrl: string): seq<string> {
    Split(ReplaceFirst(RepoPath(repoUrl), GIT_SUFFIX, ""), "/")
  }

  function ParseRepoAsWritten(repoUrl: string): (r: Option<RepoRef>)
    ensures r.Some? ==> r.value.owner != "" && r.value.repo != ""
    ensures r.Some? ==> !Contains(r.value.owner, "/") && !Contains(r.value.repo, "/")
  {
    SplitPiecesFree(ReplaceFirst(RepoPath(repoUrl), GIT_SUFFIX, ""), "/");
    RefOf(SegmentsAsWritten(repoUrl))
  }

  /** The path without a trailing ".git". */
  function StripGitSuffix(s: string): (r: string)
    ensures EndsWith(s, GIT_SUFFIX) ==> s == r + GIT_SUFFIX
    ensures !EndsWith(s, GIT_SUFFIX) ==> r == s
  {
    if EndsWith(s, GIT_SUFFIX) then s[..|s| - |GIT_SUFFIX|] else s
  }

  /** The path segments with only a trailing ".git" removed. */
  function Segments(repoUrl: string): seq<string> {
    Split(StripGitSuffix(RepoPath(repoUrl)), "/")
  }

  /** Owner and repository of a URL, or `None` when either is missing or empty. */
  function ParseRepo(repoUrl: string): (r: Option<RepoRef>)
    ensures r.Some? ==> r.value.owner != "" && r.value.repo != ""
    ensures r.Some? ==> !Contains(r.value.owner, "/") && !Contains(r.value.repo, "/")
  {
    SplitPiecesFree(StripGitSuffix(RepoPath(repoUrl)), "/");
    RefOf(Segments(repoUrl))
  }

  /** The canonical URL of a repository. */
  function RepoUrl(r: RepoRef): string {
    GITHUB_PREFIX + r.owner + "/" + r.repo
  }

  lemma RepoPathOfPrefixed(x: string)
    ensures RepoPath(GITHUB_PREFIX + x) == x
  {
    var s := GITHUB_PREFIX + x;
    assert OccursAt(s, GITHUB_PREFIX, 0);
    ContainsAt(s, GITHUB_PREFIX, 0);
  }

  predicate NoSlash(s: string) {
    forall i :: 0 <= i < |s| ==> s[i] != '/'
  }

  lemma NoSlashOf(s: string)
    requires !Contains(s, "/")
    ensures NoSlash(s)
  {
    forall i | 0 <= i < |s|
      ensures s[i] != '/'
    {
      if s[i] == '/' {
        assert OccursAt(s, "/", i);
        ContainsAt(s, "/", i);
      }
    }
  }

  /** Splitting at a first piece that holds no separator. */
  lemma SplitAfterFirst(a: string, rest: string)
    requires NoSlash(a)
    ensures Split(a + "/" + rest, "/") == [a] + Split(rest, "/")
  {
    var s := a + "/" + rest;
    FirstOccurrenceAfter(a, "/", rest);
    assert s[..|a|] == a && s[|a| + 1..] == rest;
  }

  lemma SplitNoSeparator(a: string)
    requires NoSlash(a)
    ensures Split(a, "/") == [a]
  {
    CharAbsent(a, '/');
    assert IndexOf(a, "/").None?;
  }

  /** What the suffix removal leaves of an owner, a repository and a tail. */
  lemma StrippedShape(owner: string, repo: string, tail: string) returns (rest: string)
    requires (tail == "" && !EndsWith(repo, GIT_SUFFIX)) || tail == GIT_SUFFIX || (tail != "" && tail[0] == '/')
    ensures StripGitSuffix(owner + "/" + repo + tail) == owner + "/" + (repo + rest)
    ensures rest == "" || rest[0] == '/'
  {
    var path := owner + "/" + repo + tail;
    if tail == "" {
      rest := "";
      if |repo| >= 4 {
        assert path[|path| - 4..] == repo[|repo| - 4..];
      } else if |path| >= 4 {
        var k := |path| - |repo| - 1;
        assert path[k] == '/';
        assert path[|path| - 4..][k - (|path| - 4)] == '/';
      }
      assert path == owner + "/" + (repo + rest);
    } else if tail == GIT_SUFFIX {
      rest := "";
    } else if |tail| < 4 {
      rest := tail;
      var k := |path| - |tail|;
      assert path[k] == tail[0] == '/';
      if |path| >= 4 {
        assert path[|path| - 4..][k - (|path| - 4)] == '/';
      }
    } else if EndsWith(path, GIT_SUFFIX) {
      rest := tail[..|tail| - |GIT_SUFFIX|];
      assert path[..|path| - 4] == owner + "/" + repo + rest;
    } else {
      rest := tail;
    }
  }

  /** The first two segments of `owner/repo` followed by nothing or by more path. */
  lemma OwnerRepoSegments(owner: string, repo: string, rest: string)
    requires owner != "" && repo != ""
    requires NoSlash(owner) && NoSlash(repo)
    requires rest == "" || rest[0] == '/'
    ensures RefOf(Split(owner + "/" + (repo + rest), "/")) == Some(RepoRef(owner, repo))
  {
    SplitAfterFirst(owner, repo + rest);
    var tailParts := Split(repo + rest, "/");
    if rest == "" {
      assert repo + rest == repo;
      SplitNoSeparator(repo);
      assert tailParts == [repo];
    } else {
      assert repo + rest == repo + "/" + rest[1..];
      SplitAfterFirst(repo, rest[1..]);
      assert tailParts[0] == repo;
    }
    var parts := [owner] + tailParts;
    assert parts[0] == owner && parts[1] == repo;
  }

  /**
   * A repository URL, with ".git" after it or with more path after it, gives
   * back its owner and repository.
   */
  lemma ParseRepoRoundTrip(r: RepoRef, tail: string)
    requires r.owner != "" && r.repo != ""
    requires NoSlash(r.owner) && NoSlash(r.repo)
    requires (tail == "" && !EndsWith(r.repo, GIT_SUFFIX)) || tail == GIT_SUFFIX || (tail != "" && tail[0] == '/')
    ensures ParseRepo(RepoUrl(r) + tail) == Some(r)
  {
    var path := r.owner + "/" + r.repo + tail;
    assert RepoUrl(r) + tail == GITHUB_PREFIX + path;
    RepoPathOfPrefixed(path);
    var rest := StrippedShape(r.owner, r.repo, tail);
    OwnerRepoSegments(r.owner, r.repo, rest);
  }

  /** Parsing the canonical URL of a parsed repository gives it back. */
  lemma ParseRepoCanonical(repoUrl: string)
    requires ParseRepo(repoUrl).Some? && !EndsWith(ParseRepo(repoUrl).value.repo, GIT_SUFFIX)
    ensures ParseRepo(RepoUrl(ParseRepo(repoUrl).value)) == ParseRepo(repoUrl)
  {
    var r := ParseRepo(repoUrl).value;
    NoSlashOf(r.owner);
    NoSlashOf(r.repo);
    ParseRepoRoundTrip(r, "");
    assert RepoUrl(r) + "" == RepoUrl(r);
  }

  /**
   * The code's parse agrees with the intended one whenever the path's first
   * ".git" is its ending or there is none.
   */
  lemma AsWrittenAgrees(repoUrl: string)
    requires var p := RepoPath(repoUrl);
      IndexOf(p, GIT_SUFFIX).None? || IndexOf(p, GIT_SUFFIX) == Some(|p| - |GIT_SUFFIX|)
    ensures ParseRepoAsWritten(repoUrl) == ParseRepo(repoUrl)
  {
    var p := RepoPath(repoUrl);
    if IndexOf(p, GIT_SUFFIX).None? {
      assert !OccursAt(p, GIT_SUFFIX, |p| - |GIT_SUFFIX|);
      assert ReplaceFirst(p, GIT_SUFFIX, "") == p == StripGitSuffix(p);
    } else {
      var i := |p| - |GIT_SUFFIX|;
      assert OccursAt(p, GIT_SUFFIX, i);
      assert p[i + |GIT_SUFFIX|..] == "";
      assert ReplaceFirst(p, GIT_SUFFIX, "") == p[..i] == StripGitSuffix(p);
    }
  }

  /** The code drops a ".git" from inside a repository name. */
  lemma AsWrittenDropsInnerGit(owner: string, a: string, b: string)
    requires owner != "" && a + b != "" && NoSlash(owner) && NoSlash(a + b)
    requires forall i :: 0 <= i < |owner + "/" + a| ==> (owner + "/" + a)[i] != '.'
    ensures ParseRepoAsWritten(GITHUB_PREFIX + owner + "/" + a + GIT_SUFFIX + b) == Some(RepoRef(owner, a + b))
  {
    var url := GITHUB_PREFIX + owner + "/" + a + GIT_SUFFIX + b;
    AsWrittenRemovesInnerGit(owner, a, b);
    assert Split(owner + "/" + (a + b), "/") == [owner, a + b] by {
      SplitAfterFirst(owner, a + b);
      SplitNoSeparator(a + b);
    }
    assert SegmentsAsWritten(url) == [owner, a + b];
  }

  /** The first ".git" of the path is the one inside the repository name. */
  lemma AsWrittenRemovesInnerGit(owner: string, a: string, b: string)
    requires forall i :: 0 <= i < |owner + "/" + a| ==> (owner + "/" + a)[i] != '.'
    ensures ReplaceFirst(RepoPath(GITHUB_PREFIX + owner + "/" + a + GIT_SUFFIX + b), GIT_SUFFIX, "")
            == owner + "/" + (a + b)
  {
    var url := GITHUB_PREFIX + owner + "/" + a + GIT_SUFFIX + b;
    var p := owner + "/" + a + GIT_SUFFIX + b;
    assert url == GITHUB_PREFIX + p;
    RepoPathOfPrefixed(p);
    assert p == (owner + "/" + a) + GIT_SUFFIX + b;
    FirstOccurrenceAfter(owner + "/" + a, GIT_SUFFIX, b);
    assert (owner + "/" + a) + b == owner + "/" + (a + b);
  }

  /**
   * A repository whose name holds ".git" is misread by the code:
   * https://github.com/octo/octo.github.io is read as repository "octohub.io".
   */
  lemma AsWrittenMisreadsDottedName()
    ensures ParseRepoAsWritten(GITHUB_PREFIX + "octo" + "/" + "octo" + GIT_SUFFIX + "hub.io")
      == Some(RepoRef("octo", "octo" + "hub.io"))
  {
    AsWrittenDropsInnerGit("octo", "octo", "hub.io");
  }

  /** The intended parse reads the same URL as repository "octo.github.io". */
  lemma ParseRepoReadsDottedName()
    ensures ParseRepo(GITHUB_PREFIX + "octo" + "/" + "octo" + GIT_SUFFIX + "hub.io")
      == Some(RepoRef("octo", "octo" + GIT_SUFFIX + "hub.io"))
  {
    var r := RepoRef("octo", "octo" + GIT_SUFFIX + "hub.io");
    assert RepoUrl(r) + "" == GITHUB_PREFIX + "octo" + "/" + "octo" + GIT_SUFFIX + "hub.io";
    assert r.repo[|r.repo| - 4] == "hub.io"[2] == 'b';
    assert r.repo[|r.repo| - 4..][0] != GIT_SUFFIX[0];
    ParseRepoRoundTrip(r, "");
  }

  datatype License = License(name: string, key: string)

  /** The fields of the GitHub repository record that are read. */
  datatype RepoData = RepoData(forksCount: int, stargazersCount: int, pushedAt: string, createdAt: string, license: Option<License>)

  datatype RepoStats = RepoStats(forks: int, stars: int, lastCommit: string, createdAt: string,
                                 licenseName: Option<string>, licenseKey: Option<string>)

  /** Why `getGitHubStats` throws. */
  datatype GitHubError = InvalidRepositoryUrl | RequestFailed

  /**
   * `getGitHubStats`: an unparsable URL throws "Invalid repository URL"
   * before any request; a failing request throws; otherwise the record's
   * counts, dates and license (each license field absent when the
   * repository has no license).
   */
  function GetGitHubStats(repoUrl: string, fetch: RepoRef -> Option<RepoData>): (r: Result<RepoStats, GitHubError>)
    ensures ParseRepo(repoUrl).None? <==> r == Err(InvalidRepositoryUrl)
    ensures ParseRepo(repoUrl).Some? && fetch(ParseRepo(repoUrl).value).None? <==> r == Err(RequestFailed)
    ensures r.Ok? ==>
      var d := fetch(ParseRepo(repoUrl).value).value;
      && r.value.forks == d.forksCount && r.value.stars == d.stargazersCount
      && r.value.lastCommit == d.pushedAt && r.value.createdAt == d.createdAt
      && (d.license.None? ==> r.value.licenseName.None? && r.value.licenseKey.None?)
      && (d.license.Some? ==> r.value.licenseName == Some(d.license.value.name) && r.value.licenseKey == Some(d.license.value.key))
  {
    match ParseRepo(repoUrl)
    case None => Err(InvalidRepositoryUrl)
    case Some(ref) =>
      match fetch(ref)
      case None => Err(RequestFailed)
      case Some(d) =>
        var name := if d.license.Some? then Some(d.license.value.name) else None;
        var key := if d.license.Some? then Some(d.license.value.key) else None;
        Ok(RepoStats(d.forksCount, d.stargazersCount, d.pushedAt, d.createdAt, name, key))
  }

  /**
   * `getRepoReadme`: `None` (null) for an unparsable URL or a failed request
   * or decoding, the decoded text otherwise; it never throws.
   * `fetchReadme` is the request together with the base64 decoding.
   */
  function GetRepoReadme(repoUrl: string, fetchReadme: RepoRef -> Option<string>): (r: Option<string>)
    ensures ParseRepo(repoUrl).None? ==> r.None?
    ensures ParseRepo(repoUrl).Some? ==> r == fetchReadme(ParseRepo(repoUrl).value)
  {
    match ParseRepo(repoUrl)
    case None => None
    case Some(ref) => fetchReadme(ref)
  }

  /** The two lookups reject exactly the same URLs. */
  lemma SameUrlPolicy(repoUrl: string, fetch: RepoRef -> Option<RepoData>, fetchReadme: RepoRef -> Option<string>)
    requires GetGitHubStats(repoUrl, fetch) == Err(InvalidRepositoryUrl)
    ensures GetRepoReadme(repoUrl, fetchReadme) == None
    ensures forall f: RepoRef -> Option<RepoData> :: GetGitHubStats(repoUrl, f) == Err(InvalidRepositoryUrl)
  {
  }
}
