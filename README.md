# GitHub repository reference and tree walk of tokei-toukei, in Dafny

tokei-toukei counts the lines of a GitHub repository in the browser. Its
`GitHubRepository` value names a repository by owner and name. It parses and
prints the repository's web URL (`https://github.com/{owner}/{repo}`). It
builds the URLs of the REST API (`https://api.github.com`) and of the
raw-content server (`https://raw.githubusercontent.com`). Its `walk` lists
the tree of a revision recursively, keeps the blob entries, fetches every
blob's text with at most 32 fetches in flight, and yields one
`Result<GitHubBlob>` per blob.

This project models that value type in five modules:

- `Errors` holds the error kinds of URL parsing, a catch-all `Remote`
  error for the HTTP transport, and the `Option` and `Result` wrappers.
- `Urls` models the part of a WHATWG URL (the url crate) that the code uses.
  A URL is its serialized origin plus its serialized path. `path_segments`
  strips the leading `/` and splits on `/`, and has no segments when the
  path does not start with `/`. `set_path` makes the path start with `/`.
- `Repository` models the value, `from_url`, `to_url`, the endpoint
  builders and the request URLs of `trees` and `raw`.
- `TreeWalk` models the stream `walk` builds, as a pipeline over sequences
  with the fetch of a path as a parameter. `filter_map` becomes `BlobPaths`.
  `map(raw).buffered(32)` becomes `Buffered`, an in-order map, because
  `buffered` yields results in submission order. `zip` becomes `Zip`, and
  the final `map` becomes `ToBlobs`.
- `RepositoryWalk` connects that pipeline to the repository. The listing is
  the answer to the recursive tree request, and each path is fetched from
  its raw-content URL.

The network is a parameter. A `Transport` maps a URL to the body text or an
error. A `Lister` maps the tree request to the listing the API returns.

Three behaviours of the code are easy to miss, and the model keeps them:

- `from_url` takes the first two path segments even when they are empty.
  `https://github.com/o/` parses to owner `o` with an empty repository
  (`EmptyRepositoryAccepted`). `UnspecifiedRepository` is returned only when
  the second segment is absent (`OneSegmentUnspecifiedRepository`), never
  when it is empty.
- `UnspecifiedOwner` can never be returned, because splitting a path always
  gives at least one segment (`FromUrl`'s third `ensures`).
- `walk` does not return a listing failure as an error. It unwraps it and
  panics.

## Model

| member | source | states |
|---|---|---|
| `Repository.New` | src/github/repository.rs:29-31 | the value holds exactly the owner and repository it is given |
| `Repository.Host` | src/github/repository.rs:33-35 | the host name is the one the web origin `https://github.com` is built on |
| `Repository.FromUrl` | src/github/repository.rs:37-46 | `InvalidHost` exactly when the origin is not `https://github.com`; `Unspecified` exactly when the origin matches but the URL has no path segments; never `UnspecifiedOwner`; success exactly when the origin matches and there are at least two segments |
| `Repository.FromUrlFirstTwoSegments` | src/github/repository.rs:41-45 | on success, owner is the first segment and repository the second |
| `Repository.ExtraSegmentsIgnored` | src/github/repository.rs:44 | appending `/` and any text after two or more segments leaves the parse unchanged |
| `Repository.TrailingSlashIgnored` | src/github/repository.rs:116-123 | `/{o}/{r}` and `/{o}/{r}/` both parse to `new(o, r)` when neither contains `/` |
| `Repository.EmptyRepositoryAccepted` | src/github/repository.rs:41-45 | `/{o}/` parses to owner `o` and an empty repository rather than an error |
| `Repository.OneSegmentUnspecifiedRepository` | src/github/repository.rs:43 | a one-segment path fails with `UnspecifiedRepository` |
| `Repository.ToUrl` | src/github/repository.rs:48-52 | origin `https://github.com`; the path is `/{owner}/{repo}` for a non-empty owner not starting with `/`, `/{repo}` for an empty owner, and `{owner}/{repo}` when the owner starts with `/` (that `/` is the one `set_path` keeps) |
| `Repository.RoundTrip` | src/github/repository.rs:116-124 | parsing the web URL of `new(o, r)` gives `new(o, r)` back, for a non-empty `o`, with neither `o` nor `r` containing `/` |
| `Repository.ToUrlOfParsed` | src/github/repository.rs:37-52 | a web URL with exactly two segments, the first non-empty, is the `to_url` of what it parses to |
| `Repository.EmptyOwnerNoRoundTrip` | src/github/repository.rs:48-51 | with an empty owner the round trip fails with `UnspecifiedRepository` |
| `Repository.SlashInOwnerNoRoundTrip` | src/github/repository.rs:48-51 | an owner `a/b` round-trips to owner `a` and repository `b` |
| `Repository.ParseRepoUrlExamples` | src/github/repository.rs:115-123 | the unit test's two URLs, with and without a trailing slash, parse to `new("hayas1", "tokei-toukei")` |
| `Repository.ToUrlExample` | src/github/repository.rs:119 | the unit test's `to_url` serializes to exactly `https://github.com/hayas1/tokei-toukei` |
| `Repository.ApiEndpoint` | src/github/repository.rs:54-58 | origin `https://api.github.com`, and the segments of the given path |
| `Repository.RawEndpoint` | src/github/repository.rs:60-64 | origin `https://raw.githubusercontent.com`, and the segments of the given path |
| `Repository.TreeRequest` | src/github/repository.rs:66-69 | the tree request is `https://api.github.com/repos/{owner}/{repo}/git/trees/{sha}` with the single query pair `recursive` = `true`/`false` |
| `Repository.TreeRequestSegments` | src/github/repository.rs:68-69 | the tree request's segments are `repos, owner, repo, git, trees, sha` when those contain no `/` |
| `Repository.RawRequest` | src/github/repository.rs:80-84 | the raw request is on the raw-content origin with path `/{owner}/{repo}/{sha}/{path}` |
| `Repository.Raw` | src/github/repository.rs:80-86 | the result is the transport's answer for `https://raw.githubusercontent.com/{owner}/{repo}/{sha}/{path}` |
| `Repository.RawRequestSegments` | src/github/repository.rs:83-84 | the raw request's segments are owner, repository, revision, then the file path's own segments |
| `Repository.RawRequestInjective` | src/github/repository.rs:83-84 | two files of one revision share a raw URL exactly when their paths are equal, for paths that `set_path` leaves unchanged (see "Left out") |
| `Urls.Url.PathSegments` | src/github/repository.rs:41 | segments exist exactly when the path starts with `/`, and are the rest of the path split on `/` |
| `Urls.Split` | src/github/repository.rs:41 | at least one segment, none containing `/` |
| `Urls.Join` | src/github/repository.rs:50 | the joined string starts with the first piece, followed by `/` when there are more pieces |
| `Urls.JoinSplit` | src/github/repository.rs:50 | joining the pieces of a split on `/` gives back the string |
| `Urls.SplitJoin` | src/github/repository.rs:50 | splitting a join of `/`-free pieces gives back the pieces |
| `Urls.SetPath` | src/github/repository.rs:49-50 | a `/` is added in front when the given path lacks one; the origin is kept |
| `TreeWalk.BlobPaths` | src/github/repository.rs:91-95 | no more paths than entries; what it keeps is stated by `BlobIndices` (exactly the blobs, in order) and `BlobPathsCount` |
| `TreeWalk.BlobIndices` | src/github/repository.rs:91-95 | the blob paths come from increasing listing positions, each a blob entry with that path, and every blob entry is among them: exactly the blobs, in listing order |
| `TreeWalk.BlobPathsAppend` | src/github/repository.rs:91-95 | filtering a concatenated listing gives the concatenation of the filtered parts |
| `TreeWalk.BlobPathsCount` | src/github/repository.rs:91-95 | there are as many blob paths as blob-typed entries |
| `TreeWalk.Buffered` | src/github/repository.rs:97-99 | one result per path, result `i` being the fetch of path `i` |
| `TreeWalk.Zip` | src/github/repository.rs:100 | pairs by position, as long as the shorter input |
| `TreeWalk.ToBlob` | src/github/repository.rs:101 | a fetched text becomes the blob of its path; a failed fetch keeps its error |
| `TreeWalk.ToBlobs` | src/github/repository.rs:101-102 | one output per pair, each the `ToBlob` of that pair |
| `TreeWalk.WalkListing` | src/github/repository.rs:91-103 | as many elements as blob paths; element `i` is path `i` paired with the fetch of path `i` |
| `TreeWalk.WalkListingIsMap` | src/github/repository.rs:97-102 | the stream is the blob paths mapped one by one through fetch-then-wrap |
| `TreeWalk.WalkCount` | src/github/repository.rs:91-103 | the stream has exactly as many elements as the listing has blob entries |
| `TreeWalk.WalkPairsEachPathWithItsFetch` | src/github/repository.rs:97-102 | element `i` is an error exactly when the fetch of path `i` failed, with that error, and otherwise the blob of path `i` with its text |
| `TreeWalk.WalkAppend` | src/github/repository.rs:91-102 | the stream of a concatenated listing is the concatenation of the streams of its parts |
| `TreeWalk.WalkScenario` | src/github/repository.rs:91-95 | the listing `a.rs` (blob), `b/` (tree), `b/c.py` (blob) keeps `a.rs` and `b/c.py` and yields two elements |
| `RepositoryWalk.RawFetcher` | src/github/repository.rs:80-86 | the fetch of a path is the transport's answer for `https://raw.githubusercontent.com/{owner}/{repo}/{sha}/{path}` |
| `RepositoryWalk.Requests` | src/github/repository.rs:97-98 | one raw URL per blob path, in submission order |
| `RepositoryWalk.RequestsOncePerPath` | src/github/repository.rs:97-99 | each path's raw URL is requested exactly as often as the path occurs among the blob paths, for paths that `set_path` leaves unchanged (see "Left out") |
| `RepositoryWalk.Walk` | src/github/repository.rs:88-103 | the listing used is the answer to the recursive tree request, and element `i` pairs blob path `i` with the transport's answer for that path's raw URL |
| `RepositoryWalk.WalkReadsOnlyRequests` | src/github/repository.rs:97-99 | two transports that agree on the requested raw URLs give the same stream |
| `RepositoryWalk.DirectoryNeverFetched` | src/github/repository.rs:91-98 | in the listing `a.rs`, `b/`, `b/c.py`, the directory's raw URL is never requested |

## Left out

- The HTTP traffic of `trees`, `repository` and `raw`: sending the request and decoding JSON or text. The fetch of a URL is the `Transport` parameter. The tree listing is the `Lister` parameter.
- `RepositoryWalk.Walk`: a failed tree listing makes the source panic at its `unwrap`. The `Lister` returns only the listing, so this case is not modelled.
- The concurrency of `buffered(32)`: scheduling and the limit of 32 in-flight fetches. Only its ordering guarantee is kept, so `Buffered` is an in-order map.
- `repository()`, which fetches repository metadata through octocrab, and `get_statistics` with the `Statistics` type, which is not part of this model.
- `ToUrl`, `ApiEndpoint`, `RawEndpoint`: these return the URL directly and not a `Result`, because `Url::parse` of a constant origin cannot fail.
- `RoundTrip`: the url crate's `set_path` percent-encodes some characters, treats `\` as `/` and removes `.` and `..` segments. This is not modelled, so the real round trip also needs the owner and repository to be free of these.
- `Repository.Raw`: converting a path to `str` cannot fail here, because paths are strings. The `UnimplementedString` error is therefore absent.
- `RawRequestInjective`, `RequestsOncePerPath`: `set_path` is modelled as the identity on the path string. The url crate instead percent-encodes characters such as space but leaves `%` alone, turns `\` into `/`, and treats `%2e` segments as dot segments. So in the real program the git paths `a b` and `a%20b` share the raw URL `…/{sha}/a%20b`, and the file `a%20b` is given the text of `a b`. These two lemmas hold only for paths that `set_path` leaves unchanged.
- Query strings and fragments of a parsed URL, which `from_url` never reads.
- `src/components/navbar.rs`: UI markup and navigation, with no behaviour to state.
