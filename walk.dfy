/** `filepath.Walk` as the sequence of callback invocations it makes: each
    visited path with its base name and kind, or the error it reports for a
    path it cannot read. A callback that returns an error stops the walk. */
module FileWalk {
  import opened Base

  datatype Entry = Visit(path: string, name: string, isDir: bool) | Failure(msg: string)

  /** The case-insensitive suffix test of the finders:
      `HasSuffix(ToLower(name), ToLower(suffix))` for some suffix. */
  predicate MatchesSome(name: string, suffixes: seq<string>) {
    exists k :: 0 <= k < |suffixes| && HasSuffix(ToLower(name), ToLower(suffixes[k]))
  }

  /** The walk reports no error. */
  predicate Clean(walk: seq<Entry>) {
    forall i :: 0 <= i < |walk| ==> walk[i].Visit?
  }

  /** Entry `i` is the walk's first failure, and it reports `msg`: every
      entry before it is a visit. */
  predicate FailsFirstAt(walk: seq<Entry>, i: nat, msg: string) {
    i < |walk| && walk[i] == Failure(msg) && forall j :: 0 <= j < i ==> walk[j].Visit?
  }

  /** The first error the walk reports, if any: the one `filepath.Walk`
      returns when the callback hands each error back. */
  function FirstFailure(walk: seq<Entry>): (r: Option<string>)
    ensures r.None? <==> Clean(walk)
    ensures r.Some? ==> exists i: nat :: FailsFirstAt(walk, i, r.value)
    decreases |walk|
  {
    if walk == [] then None
    else if walk[0].Failure? then
      assert FailsFirstAt(walk, 0, walk[0].msg);
      Some(walk[0].msg)
    else
      var r := FirstFailure(walk[1..]);
      assert forall i :: 0 <= i < |walk[1..]| ==> walk[1..][i] == walk[i + 1];
      assert r.None? ==> Clean(walk);
      if r.Some? then
        var i: nat :| FailsFirstAt(walk[1..], i, r.value);
        assert FailsFirstAt(walk, i + 1, r.value);
        r
      else r
  }

  /** No path is visited twice, as `filepath.Walk` guarantees. */
  predicate DistinctPaths(walk: seq<Entry>) {
    forall i, j :: 0 <= i < j < |walk| && walk[i].Visit? && walk[j].Visit? ==> walk[i].path != walk[j].path
  }

  predicate NoDuplicates(xs: seq<string>) {
    forall i, j :: 0 <= i < j < |xs| ==> xs[i] != xs[j]
  }
}
