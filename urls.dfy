/** The part of a WHATWG URL that the repository layer uses: the serialized
    origin and the serialized path. A hierarchical URL's path starts with
    `/`; its path segments are what lies after that `/`, split on `/`. A URL
    whose path does not start with `/` (a "cannot-be-a-base" URL such as
    `mailto:x`) has no path segments. */
module Urls {
  import opened Errors

  /** Whether `s` stays one path segment when the path is split. */
  predicate NoSlash(s: string) {
    '/' !in s
  }

  /** `s.split('/')`: the pieces of `s` between slashes, in order. An empty
      string gives one empty piece, and a trailing slash an empty last piece. */
  function Split(s: string): (segments: seq<string>)
    ensures |segments| >= 1
    ensures forall k :: 0 <= k < |segments| ==> NoSlash(segments[k])
    decreases |s|
  {
    if s == [] then [""]
    else if s[0] == '/' then [""] + Split(s[1..])
    else
      var rest := Split(s[1..]);
      [[s[0]] + rest[0]] + rest[1..]
  }

  /** `segments.join("/")`. */
  function Join(segments: seq<string>): (s: string)
    requires |segments| >= 1
    ensures segments[0] <= s
    ensures |segments| > 1 ==> |s| > |segments[0]| && s[|segments[0]|] == '/'
    decreases |segments|
  {
    if |segments| == 1 then segments[0]
    else segments[0] + "/" + Join(segments[1..])
  }

  lemma JoinCons(first: string, rest: seq<string>)
    requires |rest| >= 1
    ensures Join([first] + rest) == first + "/" + Join(rest)
  {
    assert ([first] + rest)[1..] == rest;
  }

  /** Everything after a leading `/`, or the whole string when there is none. */
  function DropLeadingSlash(p: string): (q: string)
    ensures if |p| > 0 && p[0] == '/' then p == "/" + q else q == p
  {
    if |p| > 0 && p[0] == '/' then p[1..] else p
  }

  datatype Url = Url(origin: string, path: string) {

    /** `Url::path_segments`: `None` for a cannot-be-a-base URL. */
    function PathSegments(): (segments: Option<seq<string>>)
      ensures segments.Some? <==> |path| > 0 && path[0] == '/'
      ensures segments.Some? ==> segments.value == Split(path[1..])
    {
      if |path| > 0 && path[0] == '/' then Some(Split(path[1..])) else None
    }

    /** `Url::as_str` for a URL without query or fragment. */
    function AsStr(): string {
      origin + path
    }
  }

  /** `Url::set_path` on a hierarchical URL: the new path always starts
      with `/`, which is added when `p` lacks it; the origin is kept. */
  function SetPath(u: Url, p: string): (r: Url)
    ensures r.origin == u.origin
    ensures r.path == "/" + DropLeadingSlash(p)
  {
    Url(u.origin, "/" + DropLeadingSlash(p))
  }

  /** The segments after `set_path` are those of the path given, without
      its leading `/`. */
  lemma SetPathSegments(u: Url, p: string)
    ensures SetPath(u, p).PathSegments() == Some(Split(DropLeadingSlash(p)))
  {
    assert SetPath(u, p).path[1..] == DropLeadingSlash(p);
  }

  /** A string without `/` is one segment. */
  lemma {:induction false} SplitNoSlash(s: string)
    requires NoSlash(s)
    ensures Split(s) == [s]
    decreases |s|
  {
    if s != [] {
      SplitNoSlash(s[1..]);
      assert [s[0]] + s[1..] == s;
    }
  }

  /** Splitting distributes over a `/` that joins two strings. */
  lemma {:induction false} SplitAtSlash(a: string, b: string)
    ensures Split(a + "/" + b) == Split(a) + Split(b)
    decreases |a|
  {
    if a == [] {
      assert a + "/" + b == "/" + b;
      assert ("/" + b)[1..] == b;
    } else {
      var s := a + "/" + b;
      assert s[0] == a[0];
      assert s[1..] == a[1..] + "/" + b;
      SplitAtSlash(a[1..], b);
    }
  }

  /** A slash-free string before a `/` is the first segment. */
  lemma SplitLeadingSegment(a: string, b: string)
    requires NoSlash(a)
    ensures Split(a + "/" + b) == [a] + Split(b)
  {
    SplitAtSlash(a, b);
    SplitNoSlash(a);
  }

  /** Three slash-free strings, each followed by `/`, are the first three
      segments. */
  lemma SplitLeadingSegments(a: string, b: string, c: string, rest: string)
    requires NoSlash(a) && NoSlash(b) && NoSlash(c)
    ensures Split(a + "/" + (b + "/" + (c + "/" + rest))) == [a, b, c] + Split(rest)
  {
    SplitLeadingSegment(c, rest);
    assert Split(c + "/" + rest) == [c] + Split(rest);
    SplitLeadingSegment(b, c + "/" + rest);
    assert Split(b + "/" + (c + "/" + rest)) == [b, c] + Split(rest);
    SplitLeadingSegment(a, b + "/" + (c + "/" + rest));
  }

  /** Putting a character in front of the first piece puts it in front of
      the joined string. */
  lemma JoinPrependChar(c: char, first: string, rest: seq<string>)
    ensures Join([[c] + first] + rest) == [c] + Join([first] + rest)
  {
    if rest == [] {
      assert [[c] + first] + rest == [[c] + first];
      assert [first] + rest == [first];
    } else {
      JoinCons([c] + first, rest);
      JoinCons(first, rest);
      assert ([c] + first) + "/" + Join(rest) == [c] + (first + "/" + Join(rest));
    }
  }

  /** Joining the pieces of a split gives back the string. */
  lemma {:induction false} JoinSplit(s: string)
    ensures Join(Split(s)) == s
    decreases |s|
  {
    if s == [] {
    } else if s[0] == '/' {
      JoinSplit(s[1..]);
      JoinCons("", Split(s[1..]));
      assert s == "" + "/" + s[1..];
    } else {
      JoinSplit(s[1..]);
      var t := Split(s[1..]);
      JoinPrependChar(s[0], t[0], t[1..]);
      assert [t[0]] + t[1..] == t;
      assert s == [s[0]] + s[1..];
    }
  }

  /** Splitting a join of slash-free pieces gives back the pieces. */
  lemma {:induction false} SplitJoin(segments: seq<string>)
    requires |segments| >= 1
    requires forall k :: 0 <= k < |segments| ==> NoSlash(segments[k])
    ensures Split(Join(segments)) == segments
    decreases |segments|
  {
    SplitNoSlash(segments[0]);
    if |segments| > 1 {
      SplitJoin(segments[1..]);
      SplitAtSlash(segments[0], Join(segments[1..]));
      assert [segments[0]] + segments[1..] == segments;
    }
  }

  /** Equal strings with the same prefix have equal remainders. */
  lemma PrefixCancel(x: string, a: string, b: string)
    requires x + a == x + b
    ensures a == b
  {
    assert (x + a)[|x|..] == a;
    assert (x + b)[|x|..] == b;
  }
}
