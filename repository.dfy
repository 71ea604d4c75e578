/** `GitHubRepository`: a value naming one repository on GitHub by owner and
    name, the URLs it derives for the web, API and raw-content origins, and
    the requests it sends to list a tree and to fetch one file. */
module Repository {
  import opened Errors
  import opened Urls

  const ORIGIN: string := "https://github.com"
  const API_ORIGIN: string := "https://api.github.com"
  const RAW_ORIGIN: string := "https://raw.githubusercontent.com"

  /** Equality is field-wise, as the derived `PartialEq` of the struct. */
  datatype GitHubRepository = GitHubRepository(owner: string, repo: string)

  /** An HTTP GET request: the URL and the query pairs added to it. */
  datatype Request = Request(url: Url, query: seq<(string, string)>)

  /** The fetch of one URL's body as text; any failure is an `Err`. */
  type Transport = Url -> Result<string>

  function New(owner: string, repo: string): (r: GitHubRepository)
    ensures r.owner == owner && r.repo == repo
  {
    GitHubRepository(owner, repo)
  }

  /** The host name, the same for every repository and the one the web
      origin is built on. */
  function Host(g: GitHubRepository): (h: string)
    ensures ORIGIN == "https://" + h + ".com"
  {
    "github"
  }

  /** Parses a web URL: the origin must be the web origin, and the first two
      path segments are owner and repository; later segments are ignored. */
  function FromUrl(url: Url): (r: Result<GitHubRepository>)
    ensures r == Err(InvalidHost) <==> url.origin != ORIGIN
    ensures r == Err(Unspecified) <==> url.origin == ORIGIN && url.PathSegments().None?
    ensures r != Err(UnspecifiedOwner)
    ensures r.Ok? <==> url.origin == ORIGIN && url.PathSegments().Some? && |url.PathSegments().value| >= 2
  {
    if url.origin != ORIGIN then Err(InvalidHost)
    else match url.PathSegments()
      case None => Err(Unspecified)
      case Some(segments) =>
        if |segments| < 1 then Err(UnspecifiedOwner)
        else if |segments| < 2 then Err(UnspecifiedRepository)
        else Ok(New(segments[0], segments[1]))
  }

  /** The web URL: owner and repository joined by `/` as the path of the
      web origin. */
  function ToUrl(g: GitHubRepository): (u: Url)
    ensures u.origin == ORIGIN
    ensures |g.owner| > 0 && g.owner[0] != '/' ==> u.path == "/" + g.owner + "/" + g.repo
    ensures g.owner == "" ==> u.path == "/" + g.repo
    ensures |g.owner| > 0 && g.owner[0] == '/' ==> u.path == g.owner + "/" + g.repo
  {
    var joined := Join([g.owner, g.repo]);
    JoinCons(g.owner, [g.repo]);
    assert [g.owner] + [g.repo] == [g.owner, g.repo];
    assert |g.owner| > 0 ==> joined[0] == g.owner[0];
    SetPath(Url(ORIGIN, "/"), joined)
  }

  /** `path` on the API origin. */
  function ApiEndpoint(path: string): (u: Url)
    ensures u.origin == API_ORIGIN
    ensures u.PathSegments() == Some(Split(DropLeadingSlash(path)))
  {
    SetPathSegments(Url(API_ORIGIN, "/"), path);
    SetPath(Url(API_ORIGIN, "/"), path)
  }

  /** `path` on the raw-content origin. */
  function RawEndpoint(path: string): (u: Url)
    ensures u.origin == RAW_ORIGIN
    ensures u.PathSegments() == Some(Split(DropLeadingSlash(path)))
  {
    SetPathSegments(Url(RAW_ORIGIN, "/"), path);
    SetPath(Url(RAW_ORIGIN, "/"), path)
  }

  /** The request for the tree listing of revision `sha`. */
  function TreeRequest(g: GitHubRepository, sha: string, recursive: bool): (req: Request)
    ensures req.url == Url(API_ORIGIN, "/" + ("repos" + "/" + (g.owner + "/" + (g.repo + "/" + ("git" + "/" + ("trees" + "/" + sha))))))
    ensures req.query == [("recursive", if recursive then "true" else "false")]
  {
    var path := "/" + ("repos" + "/" + (g.owner + "/" + (g.repo + "/" + ("git" + "/" + ("trees" + "/" + sha)))));
    Request(ApiEndpoint(path), [("recursive", if recursive then "true" else "false")])
  }

  /** The URL of file `path` at revision `sha` on the raw-content origin. */
  function RawRequest(g: GitHubRepository, sha: string, path: string): (u: Url)
    ensures u == Url(RAW_ORIGIN, "/" + (g.owner + "/" + (g.repo + "/" + (sha + "/" + path))))
  {
    RawEndpoint("/" + (g.owner + "/" + (g.repo + "/" + (sha + "/" + path))))
  }

  /** Fetches the text of file `path` at revision `sha`: the transport's
      answer for the raw request. */
  function Raw(g: GitHubRepository, sha: string, path: string, transport: Transport): (r: Result<string>)
    ensures r == transport(Url(RAW_ORIGIN, "/" + (g.owner + "/" + (g.repo + "/" + (sha + "/" + path)))))
  {
    transport(RawRequest(g, sha, path))
  }

  // Parsing

  /** Owner and repository are the first two segments, whatever follows. */
  lemma FromUrlFirstTwoSegments(url: Url)
    requires url.origin == ORIGIN
    requires url.PathSegments().Some? && |url.PathSegments().value| >= 2
    ensures FromUrl(url) == Ok(New(url.PathSegments().value[0], url.PathSegments().value[1]))
  {
  }

  /** Anything appended after the repository segment, a lone trailing
      slash included, leaves the parse unchanged. */
  lemma ExtraSegmentsIgnored(url: Url, rest: string)
    requires url.PathSegments().Some? && |url.PathSegments().value| >= 2
    ensures FromUrl(Url(url.origin, url.path + "/" + rest)) == FromUrl(url)
  {
    var longer := Url(url.origin, url.path + "/" + rest);
    assert longer.path[1..] == url.path[1..] + "/" + rest;
    SplitAtSlash(url.path[1..], rest);
  }

  /** A trailing slash after the repository segment does not matter. */
  lemma TrailingSlashIgnored(owner: string, repo: string)
    requires NoSlash(owner) && NoSlash(repo)
    ensures FromUrl(Url(ORIGIN, "/" + owner + "/" + repo + "/")) == Ok(New(owner, repo))
    ensures FromUrl(Url(ORIGIN, "/" + owner + "/" + repo)) == Ok(New(owner, repo))
  {
    var url := Url(ORIGIN, "/" + owner + "/" + repo);
    assert url.path[1..] == owner + "/" + repo;
    SplitAtSlash(owner, repo);
    SplitNoSlash(owner);
    SplitNoSlash(repo);
    ExtraSegmentsIgnored(url, "");
    assert url.path + "/" + "" == "/" + owner + "/" + repo + "/";
  }

  /** Only the repository segment may be empty: `https://github.com/o/`
      parses to owner `o` and an empty repository. */
  lemma EmptyRepositoryAccepted(owner: string)
    requires NoSlash(owner)
    ensures FromUrl(Url(ORIGIN, "/" + owner + "/")) == Ok(New(owner, ""))
  {
    var url := Url(ORIGIN, "/" + owner + "/");
    assert url.path[1..] == owner + "/" + "";
    SplitAtSlash(owner, "");
    SplitNoSlash(owner);
  }

  /** A path of fewer than two segments names no repository. */
  lemma OneSegmentUnspecifiedRepository(owner: string)
    requires NoSlash(owner)
    ensures FromUrl(Url(ORIGIN, "/" + owner)) == Err(UnspecifiedRepository)
  {
    assert ("/" + owner)[1..] == owner;
    SplitNoSlash(owner);
  }

  // Round trips

  /** Parsing the web URL of a repository gives the repository back. */
  lemma RoundTrip(owner: string, repo: string)
    requires owner != "" && NoSlash(owner) && NoSlash(repo)
    ensures FromUrl(ToUrl(New(owner, repo))) == Ok(New(owner, repo))
  {
    TrailingSlashIgnored(owner, repo);
  }

  /** A URL of exactly two segments, the first non-empty, is the web URL
      of what it parses to. */
  lemma ToUrlOfParsed(url: Url)
    requires url.origin == ORIGIN
    requires url.PathSegments().Some? && |url.PathSegments().value| == 2
    requires url.PathSegments().value[0] != ""
    ensures FromUrl(url).Ok? && ToUrl(FromUrl(url).value) == url
  {
    var segments := url.PathSegments().value;
    JoinSplit(url.path[1..]);
    assert segments[1..] == [segments[1]];
    assert url.path[1..] == segments[0] + "/" + segments[1];
    assert url.path == "/" + url.path[1..];
  }

  /** Without an owner the web URL has one segment and does not parse back. */
  lemma EmptyOwnerNoRoundTrip(repo: string)
    requires NoSlash(repo)
    ensures FromUrl(ToUrl(New("", repo))) == Err(UnspecifiedRepository)
  {
    var u := ToUrl(New("", repo));
    assert Join(["", repo]) == "/" + repo;
    assert u.path == "/" + repo;
    OneSegmentUnspecifiedRepository(repo);
  }

  /** A slash inside the owner shifts the segments: the parse is the first
      two pieces of the owner. */
  lemma SlashInOwnerNoRoundTrip(a: string, b: string, repo: string)
    requires a != "" && NoSlash(a) && NoSlash(b)
    ensures FromUrl(ToUrl(New(a + "/" + b, repo))) == Ok(New(a, b))
  {
    var owner := a + "/" + b;
    var u := ToUrl(New(owner, repo));
    assert owner[0] == a[0];
    assert u.path == "/" + owner + "/" + repo;
    assert u.path[1..] == a + "/" + (b + "/" + repo);
    SplitAtSlash(a, b + "/" + repo);
    SplitAtSlash(b, repo);
    SplitNoSlash(a);
    SplitNoSlash(b);
  }

  // Endpoints

  /** The tree request's path is the template with the values substituted,
      one segment each. */
  lemma TreeRequestSegments(g: GitHubRepository, sha: string, recursive: bool)
    requires NoSlash(g.owner) && NoSlash(g.repo) && NoSlash(sha)
    ensures TreeRequest(g, sha, recursive).url.PathSegments()
         == Some(["repos", g.owner, g.repo, "git", "trees", sha])
  {
    var trees := "trees" + "/" + sha;
    var rest := g.owner + "/" + (g.repo + "/" + ("git" + "/" + trees));
    assert Split(trees) == ["trees", sha] by {
      SplitNoSlash(sha);
      SplitLeadingSegment("trees", sha);
    }
    assert Split(rest) == [g.owner, g.repo, "git"] + ["trees", sha] by {
      SplitLeadingSegments(g.owner, g.repo, "git", trees);
    }
    assert Split("repos" + "/" + rest) == ["repos"] + Split(rest) by {
      SplitLeadingSegment("repos", rest);
    }
    var u := TreeRequest(g, sha, recursive).url;
    assert u.path[1..] == "repos" + "/" + rest;
    assert ["repos"] + ([g.owner, g.repo, "git"] + ["trees", sha]) == ["repos", g.owner, g.repo, "git", "trees", sha];
  }

  /** The raw request's path is owner, repository and revision, then the
      file's own segments. */
  lemma RawRequestSegments(g: GitHubRepository, sha: string, path: string)
    requires NoSlash(g.owner) && NoSlash(g.repo) && NoSlash(sha)
    ensures RawRequest(g, sha, path).PathSegments() == Some([g.owner, g.repo, sha] + Split(path))
  {
    var rest := g.owner + "/" + (g.repo + "/" + (sha + "/" + path));
    assert Split(rest) == [g.owner, g.repo, sha] + Split(path) by {
      SplitLeadingSegments(g.owner, g.repo, sha, path);
    }
    var u := RawRequest(g, sha, path);
    assert u.path[1..] == rest;
  }

  /** Distinct files of one revision are fetched from distinct URLs, with
      `set_path` taken as the identity on the path; the url crate's
      percent-encoding can map two paths (`a b`, `a%20b`) to one URL. */
  lemma RawRequestInjective(g: GitHubRepository, sha: string, p: string, q: string)
    ensures RawRequest(g, sha, p) == RawRequest(g, sha, q) <==> p == q
  {
    var fromOwnerP := g.owner + "/" + (g.repo + "/" + (sha + "/" + p));
    var fromOwnerQ := g.owner + "/" + (g.repo + "/" + (sha + "/" + q));
    if RawRequest(g, sha, p) == RawRequest(g, sha, q) {
      assert "/" + fromOwnerP == "/" + fromOwnerQ;
      PrefixCancel("/", fromOwnerP, fromOwnerQ);
      PrefixCancel(g.owner + "/", g.repo + "/" + (sha + "/" + p), g.repo + "/" + (sha + "/" + q));
      PrefixCancel(g.repo + "/", sha + "/" + p, sha + "/" + q);
      PrefixCancel(sha + "/", p, q);
    }
  }

  // The unit test's examples

  lemma ParseRepoUrlExamples()
    ensures FromUrl(Url(ORIGIN, "/" + "hayas1" + "/" + "tokei-toukei")) == Ok(New("hayas1", "tokei-toukei"))
    ensures FromUrl(Url(ORIGIN, "/" + "hayas1" + "/" + "tokei-toukei" + "/")) == Ok(New("hayas1", "tokei-toukei"))
  {
    assert NoSlash("hayas1") && NoSlash("tokei-toukei");
    TrailingSlashIgnored("hayas1", "tokei-toukei");
  }

  lemma ToUrlExample()
    ensures ToUrl(New("hayas1", "tokei-toukei")).AsStr() == "https://github.com" + "/" + "hayas1" + "/" + "tokei-toukei"
  {
    var g := New("hayas1", "tokei-toukei");
    assert g.owner[0] == 'h';
  }
}
