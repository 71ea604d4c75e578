/** `GitHubRepository::walk` wired to the repository: the listing answers
    the recursive tree request of a revision, and every blob path is fetched
    from its raw-content URL. */
module RepositoryWalk {
  import opened Errors
  import opened Urls
  import opened Repository
  import opened TreeWalk

  /** The tree listing the API answers to a tree request. */
  type Lister = Request -> seq<SubtreeModel>

  /** The raw-content URL of each path of revision `sha`. */
  function RawRequester(g: GitHubRepository, sha: string): (request: string -> Url)
    ensures forall p :: request(p) == RawRequest(g, sha, p)
  {
    (p: string) => RawRequest(g, sha, p)
  }

  /** The URLs `walk` fetches, one per blob path, in submission order. */
  function Requests(g: GitHubRepository, sha: string, paths: seq<string>): (urls: seq<Url>)
    ensures |urls| == |paths|
    ensures forall i :: 0 <= i < |paths| ==> urls[i] == RawRequest(g, sha, paths[i])
  {
    MapSeq(RawRequester(g, sha), paths)
  }

  /** Every path is fetched exactly as often as it occurs among the blob
      paths, and no other URL is fetched, for paths that `set_path` leaves
      unchanged (see `RawRequestInjective`). */
  lemma RequestsOncePerPath(g: GitHubRepository, sha: string, paths: seq<string>, p: string)
    ensures multiset(Requests(g, sha, paths))[RawRequest(g, sha, p)] == multiset(paths)[p]
  {
    var request := RawRequester(g, sha);
    forall a: string | request(a) == request(p) ensures a == p {
      RawRequestInjective(g, sha, a, p);
    }
    MapMultiplicity(request, paths, p);
  }

  /** The text of each path of revision `sha`, as the transport answers the
      path's raw-content URL. */
  function RawFetcher(g: GitHubRepository, sha: string, transport: Transport): (fetch: string -> Result<string>)
    ensures forall p :: fetch(p) == transport(RawRequest(g, sha, p))
  {
    (p: string) => Raw(g, sha, p, transport)
  }

  /** `walk`: the listing is the answer to the recursive tree request for
      `sha`, and element `i` of the stream pairs blob path `i` with the
      transport's answer for that path's raw-content URL. */
  function Walk(g: GitHubRepository, sha: string, lister: Lister, transport: Transport): (stream: seq<Result<GitHubBlob>>)
    ensures var paths := BlobPaths(lister(TreeRequest(g, sha, true)));
      && |stream| == |paths|
      && forall i :: 0 <= i < |stream| ==>
           stream[i] == ToBlob(transport(RawRequest(g, sha, paths[i])), paths[i])
  {
    WalkListing(lister(TreeRequest(g, sha, true)), RawFetcher(g, sha, transport))
  }

  /** The stream depends on the transport only through its answers for
      the requested URLs: two transports that agree there give the same
      stream. */
  lemma WalkReadsOnlyRequests(g: GitHubRepository, sha: string, lister: Lister, t1: Transport, t2: Transport)
    requires var paths := BlobPaths(lister(TreeRequest(g, sha, true)));
      forall u :: u in Requests(g, sha, paths) ==> t1(u) == t2(u)
    ensures Walk(g, sha, lister, t1) == Walk(g, sha, lister, t2)
  {
    var paths := BlobPaths(lister(TreeRequest(g, sha, true)));
    var urls := Requests(g, sha, paths);
    var w1, w2 := Walk(g, sha, lister, t1), Walk(g, sha, lister, t2);
    forall i | 0 <= i < |w1| ensures w1[i] == w2[i] {
      assert urls[i] in urls;
    }
  }

  /** In the listing `a.rs` (blob), `b/` (tree), `b/c.py` (blob), the
      directory's URL is not among those fetched. */
  lemma DirectoryNeverFetched(g: GitHubRepository, sha: string)
    ensures var tree := [SubtreeModel("a.rs", Blob), SubtreeModel("b/", Tree), SubtreeModel("b/c.py", Blob)];
      RawRequest(g, sha, "b/") !in Requests(g, sha, BlobPaths(tree))
  {
    WalkScenario(p => Ok(p));
    RawRequestInjective(g, sha, "b/", "a.rs");
    RawRequestInjective(g, sha, "b/", "b/c.py");
  }
}
