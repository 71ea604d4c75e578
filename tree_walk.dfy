/** `GitHubRepository::walk`: list the tree of a revision recursively, keep
    the blob entries, fetch each blob's text and pair every text with the
    path it was fetched for. `buffered` yields the fetches' results in the
    order they were submitted, so the stream is a map over the blob paths;
    how many fetches are in flight at once does not change its elements. */
module TreeWalk {
  import opened Errors

  /** The `type` of one entry of a tree listing. */
  datatype ContentsType = Tree | Blob | Commit

  /** One entry of a tree listing; the other fields of the API's answer are
      not read. */
  datatype SubtreeModel = SubtreeModel(path: string, contentsType: ContentsType)

  /** A file of the repository and its text. */
  datatype GitHubBlob = GitHubBlob(path: string, content: string)

  /** The `filter_map` over the listing: the paths of the blob entries, in
      listing order; tree and commit entries give nothing. */
  function BlobPaths(tree: seq<SubtreeModel>): (paths: seq<string>)
    ensures |paths| <= |tree|
    decreases |tree|
  {
    if tree == [] then []
    else
      var n := |tree| - 1;
      BlobPaths(tree[..n]) + BlobPath(tree[n])
  }

  /** What the filter keeps of one entry: its path when it is a blob. */
  function BlobPath(entry: SubtreeModel): (kept: seq<string>)
    ensures |kept| <= 1
  {
    match entry.contentsType
    case Tree => []
    case Blob => [entry.path]
    case Commit => []
  }

  /** The filter works entry by entry, so a listing split in two gives the
      paths of the first part followed by those of the second. */
  lemma {:induction false} BlobPathsAppend(a: seq<SubtreeModel>, b: seq<SubtreeModel>)
    ensures BlobPaths(a + b) == BlobPaths(a) + BlobPaths(b)
    decreases |b|
  {
    if b == [] {
      assert a + b == a;
    } else {
      var m := |b| - 1;
      assert (a + b)[..|a + b| - 1] == a + b[..m];
      assert (a + b)[|a + b| - 1] == b[m];
      BlobPathsAppend(a, b[..m]);
    }
  }

  /** `idx` lists positions of `tree` in increasing order, each a blob entry
      whose path is the matching element of `paths`, and every blob entry
      of `tree` is among them. */
  ghost predicate SelectsBlobs(tree: seq<SubtreeModel>, idx: seq<nat>, paths: seq<string>) {
    PicksBlobs(tree, idx, paths) && Increasing(idx) && CoversBlobs(tree, idx)
  }

  /** Position `idx[k]` is a blob entry with path `paths[k]`. */
  ghost predicate PicksBlobs(tree: seq<SubtreeModel>, idx: seq<nat>, paths: seq<string>) {
    && |idx| == |paths|
    && forall k :: 0 <= k < |idx| ==>
         idx[k] < |tree| && tree[idx[k]].contentsType == Blob && tree[idx[k]].path == paths[k]
  }

  ghost predicate Increasing(idx: seq<nat>) {
    forall k, l :: 0 <= k < l < |idx| ==> idx[k] < idx[l]
  }

  /** Every blob entry's position is listed. */
  ghost predicate CoversBlobs(tree: seq<SubtreeModel>, idx: seq<nat>) {
    forall i :: 0 <= i < |tree| && tree[i].contentsType == Blob ==> i in idx
  }

  /** The positions of the blob entries, so `BlobPaths` keeps exactly the
      blob entries, in listing order. */
  ghost function BlobIndices(tree: seq<SubtreeModel>): (idx: seq<nat>)
    ensures SelectsBlobs(tree, idx, BlobPaths(tree))
    decreases |tree|
  {
    if tree == [] then []
    else
      var n := |tree| - 1;
      var front, e := tree[..n], tree[n];
      var before := BlobIndices(front);
      var idx := if e.contentsType == Blob then before + [n] else before;
      assert front + [e] == tree;
      PicksBlobsSnoc(front, e, before, BlobPaths(front));
      IncreasingSnoc(n, before, idx);
      CoversBlobsSnoc(front, e, before);
      idx
  }

  /** The picks of a listing stay picks when an entry is appended, and the
      new entry is picked when it is a blob. */
  lemma PicksBlobsSnoc(front: seq<SubtreeModel>, e: SubtreeModel, before: seq<nat>, paths: seq<string>)
    requires PicksBlobs(front, before, paths)
    ensures PicksBlobs(front + [e], if e.contentsType == Blob then before + [|front|] else before, paths + BlobPath(e))
  {
    var tree := front + [e];
    var idx := if e.contentsType == Blob then before + [|front|] else before;
    var all := paths + BlobPath(e);
    forall k | 0 <= k < |idx|
      ensures idx[k] < |tree| && tree[idx[k]].contentsType == Blob && tree[idx[k]].path == all[k]
    {
      if k < |before| {
        assert idx[k] == before[k] && all[k] == paths[k];
        assert tree[before[k]] == front[before[k]];
      } else {
        assert idx[k] == |front| && all[k] == e.path;
      }
    }
  }

  lemma IncreasingSnoc(n: nat, before: seq<nat>, idx: seq<nat>)
    requires Increasing(before)
    requires forall k :: 0 <= k < |before| ==> before[k] < n
    requires idx == before || idx == before + [n]
    ensures Increasing(idx)
  {
    forall k, l | 0 <= k < l < |idx| ensures idx[k] < idx[l] {
      assert idx[k] == before[k];
      if l >= |before| {
        assert idx[l] == n;
      } else {
        assert idx[l] == before[l];
      }
    }
  }

  /** Every blob stays covered when an entry is appended, the new entry too
      when it is a blob. */
  lemma CoversBlobsSnoc(front: seq<SubtreeModel>, e: SubtreeModel, before: seq<nat>)
    requires CoversBlobs(front, before)
    ensures CoversBlobs(front + [e], if e.contentsType == Blob then before + [|front|] else before)
  {
    var tree := front + [e];
    var idx := if e.contentsType == Blob then before + [|front|] else before;
    forall i | 0 <= i < |tree| && tree[i].contentsType == Blob ensures i in idx {
      if i < |front| {
        assert front[i] == tree[i];
        assert i in before;
      } else {
        assert idx[|idx| - 1] == i;
      }
    }
  }

  /** The types of the entries, in listing order. */
  function Kinds(tree: seq<SubtreeModel>): seq<ContentsType> {
    seq(|tree|, i requires 0 <= i < |tree| => tree[i].contentsType)
  }

  /** The number of blob entries, counted on the entries' types alone. */
  function BlobCount(tree: seq<SubtreeModel>): nat {
    multiset(Kinds(tree))[Blob]
  }

  /** As many paths as blob entries. */
  lemma {:induction false} BlobPathsCount(tree: seq<SubtreeModel>)
    ensures |BlobPaths(tree)| == BlobCount(tree)
    decreases |tree|
  {
    if tree != [] {
      var n := |tree| - 1;
      BlobPathsCount(tree[..n]);
      assert Kinds(tree) == Kinds(tree[..n]) + [tree[n].contentsType];
      assert multiset(Kinds(tree)) == multiset(Kinds(tree[..n])) + multiset{tree[n].contentsType};
    }
  }

  /** `f` applied to every element, in order. */
  function MapSeq<A, B>(f: A -> B, xs: seq<A>): (ys: seq<B>)
    ensures |ys| == |xs|
    ensures forall i :: 0 <= i < |xs| ==> ys[i] == f(xs[i])
    decreases |xs|
  {
    if xs == [] then [] else [f(xs[0])] + MapSeq(f, xs[1..])
  }

  /** Under an injective map, an image occurs as often as its preimage. */
  lemma {:induction false} MapMultiplicity<A, B>(f: A -> B, xs: seq<A>, x: A)
    requires forall a :: f(a) == f(x) ==> a == x
    ensures multiset(MapSeq(f, xs))[f(x)] == multiset(xs)[x]
    decreases |xs|
  {
    if xs != [] {
      var ys := MapSeq(f, xs[1..]);
      MapMultiplicity(f, xs[1..], x);
      assert MapSeq(f, xs) == [f(xs[0])] + ys;
      assert multiset(MapSeq(f, xs)) == multiset{f(xs[0])} + multiset(ys);
      assert xs == [xs[0]] + xs[1..];
      assert multiset(xs) == multiset{xs[0]} + multiset(xs[1..]);
    }
  }

  /** Mapping works element by element, so it distributes over `+`. */
  lemma {:induction false} MapSeqAppend<A, B>(f: A -> B, xs: seq<A>, ys: seq<A>)
    ensures MapSeq(f, xs + ys) == MapSeq(f, xs) + MapSeq(f, ys)
    decreases |xs|
  {
    if xs == [] {
      assert xs + ys == ys;
    } else {
      assert (xs + ys)[0] == xs[0];
      assert (xs + ys)[1..] == xs[1..] + ys;
      MapSeqAppend(f, xs[1..], ys);
    }
  }

  /** `stream::iter(paths).map(raw).buffered(32)`: one fetch per path, the
      results in the order the fetches were submitted. */
  function Buffered(fetch: string -> Result<string>, paths: seq<string>): (results: seq<Result<string>>)
    ensures |results| == |paths|
    ensures forall i :: 0 <= i < |paths| ==> results[i] == fetch(paths[i])
  {
    MapSeq(fetch, paths)
  }

  /** `Stream::zip`: pairs by position, as long as the shorter input. */
  function Zip<A, B>(xs: seq<A>, ys: seq<B>): (pairs: seq<(A, B)>)
    ensures |pairs| == if |xs| <= |ys| then |xs| else |ys|
    ensures forall i :: 0 <= i < |pairs| ==> pairs[i] == (xs[i], ys[i])
    decreases |xs|
  {
    if xs == [] || ys == [] then []
    else [(xs[0], ys[0])] + Zip(xs[1..], ys[1..])
  }

  /** `Ok(GitHubBlob::new(path, raw?))`: a fetched text becomes the blob of
      its path, a failed fetch stays the same error. */
  function ToBlob(raw: Result<string>, path: string): (r: Result<GitHubBlob>)
    ensures r.Ok? <==> raw.Ok?
    ensures r.Ok? ==> r.value.path == path && r.value.content == raw.value
    ensures r.Err? ==> r.error == raw.error
  {
    match raw
    case Ok(content) => Ok(GitHubBlob(path, content))
    case Err(e) => Err(e)
  }

  /** The final `map` over the zipped stream, element by element. */
  function ToBlobs(pairs: seq<(Result<string>, string)>): (blobs: seq<Result<GitHubBlob>>)
    ensures |blobs| == |pairs|
    ensures forall i :: 0 <= i < |pairs| ==> blobs[i] == ToBlob(pairs[i].0, pairs[i].1)
    decreases |pairs|
  {
    if pairs == [] then []
    else [ToBlob(pairs[0].0, pairs[0].1)] + ToBlobs(pairs[1..])
  }

  /** The stream `walk` yields for a given listing: the fetch results zipped
      back against the same blob paths. Element `i` is the blob of path `i`
      with the text fetched for path `i`, or the error of that fetch. */
  function WalkListing(tree: seq<SubtreeModel>, fetch: string -> Result<string>): (stream: seq<Result<GitHubBlob>>)
    ensures |stream| == |BlobPaths(tree)|
    ensures forall i :: 0 <= i < |stream| ==>
      stream[i] == ToBlob(fetch(BlobPaths(tree)[i]), BlobPaths(tree)[i])
  {
    var paths := BlobPaths(tree);
    ToBlobs(Zip(Buffered(fetch, paths), paths))
  }

  /** The stream has exactly one element per blob entry of the listing. */
  lemma WalkCount(tree: seq<SubtreeModel>, fetch: string -> Result<string>)
    ensures |WalkListing(tree, fetch)| == BlobCount(tree)
  {
    BlobPathsCount(tree);
  }

  /** Element `i` carries path `i`: its text when that fetch succeeded, its
      error, and only its error, when that fetch failed. */
  lemma WalkPairsEachPathWithItsFetch(tree: seq<SubtreeModel>, fetch: string -> Result<string>, i: nat)
    requires i < |BlobPaths(tree)|
    ensures var stream := WalkListing(tree, fetch);
      var path := BlobPaths(tree)[i];
      && i < |stream|
      && (stream[i].Err? <==> fetch(path).Err?)
      && (stream[i].Ok? ==> stream[i].value == GitHubBlob(path, fetch(path).value))
      && (stream[i].Err? ==> stream[i].error == fetch(path).error)
  {
  }

  /** The blob of a path with the text fetched for it, or the fetch's error. */
  function FetchBlob(fetch: string -> Result<string>): (blob: string -> Result<GitHubBlob>)
    ensures forall p :: blob(p) == ToBlob(fetch(p), p)
  {
    p => ToBlob(fetch(p), p)
  }

  /** The stream is the blob paths mapped one by one through the fetch. */
  lemma WalkListingIsMap(tree: seq<SubtreeModel>, fetch: string -> Result<string>)
    ensures WalkListing(tree, fetch) == MapSeq(FetchBlob(fetch), BlobPaths(tree))
  {
  }

  /** The stream of a listing split in two is the stream of the first part
      followed by that of the second: entries never influence each other's
      slots, whatever order their fetches complete in. */
  lemma WalkAppend(a: seq<SubtreeModel>, b: seq<SubtreeModel>, fetch: string -> Result<string>)
    ensures WalkListing(a + b, fetch) == WalkListing(a, fetch) + WalkListing(b, fetch)
  {
    BlobPathsAppend(a, b);
    WalkListingIsMap(a + b, fetch);
    WalkListingIsMap(a, fetch);
    WalkListingIsMap(b, fetch);
    MapSeqAppend(FetchBlob(fetch), BlobPaths(a), BlobPaths(b));
  }

  /** The scenario of a listing with a file, a directory and a file in that
      directory: two elements, for the two files. */
  lemma WalkScenario(fetch: string -> Result<string>)
    ensures var tree := [SubtreeModel("a.rs", Blob), SubtreeModel("b/", Tree), SubtreeModel("b/c.py", Blob)];
      && BlobPaths(tree) == ["a.rs", "b/c.py"]
      && |WalkListing(tree, fetch)| == 2
  {
    var tree := [SubtreeModel("a.rs", Blob), SubtreeModel("b/", Tree), SubtreeModel("b/c.py", Blob)];
    assert tree[..2][..1] == [tree[0]];
  }
}
