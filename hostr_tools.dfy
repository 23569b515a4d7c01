/** hostr/cmd/tools: the file finder behind the text-file deploy, the
    content type of a stored event, and the decoding of its payload. */
module HostrTools {
  import opened Base
  import opened Nostr
  import Base64
  import CmdTools
  import opened FileWalk

  // ---------------------------------------------------------------------
  // findFilePaths.go

  /** What FindFilesWithBasePathBySuffixes returns for a walk: the first
      error, or the full paths of the non-directory entries whose name
      matches some suffix, in walk order. */
  function Found(walk: seq<Entry>, suffixes: seq<string>): Result<seq<string>>
    decreases |walk|
  {
    if walk == [] then Ok([])
    else match walk[0]
      case Failure(msg) => Err(msg)
      case Visit(path, name, isDir) =>
        var here := if !isDir && MatchesSome(name, suffixes) then [path] else [];
        match Found(walk[1..], suffixes)
        case Err(m) => Err(m)
        case Ok(rest) => Ok(here + rest)
  }

  function Prepend(xs: seq<string>, r: Result<seq<string>>): Result<seq<string>> {
    if r.Ok? then Ok(xs + r.value) else r
  }

  /** `e` is a visited file at path `x` that the finder returns. */
  predicate Selects(e: Entry, x: string, suffixes: seq<string>) {
    e.Visit? && e.path == x && !e.isDir && MatchesSome(e.name, suffixes)
  }

  /** FindFilesWithBasePathBySuffixes over the walk of basePath: the walk
      callback appends a matching file once (the `break`) and stops the
      walk at the first error. */
  method FindFilesWithBasePathBySuffixes(walk: seq<Entry>, suffixes: seq<string>) returns (r: Result<seq<string>>)
    ensures r == Found(walk, suffixes)
  {
    var filePaths: seq<string> := [];
    var i := 0;
    assert walk[0..] == walk;
    assert Found(walk, suffixes).Ok? ==> [] + Found(walk, suffixes).value == Found(walk, suffixes).value;
    while i < |walk|
      invariant 0 <= i <= |walk|
      invariant Found(walk, suffixes) == Prepend(filePaths, Found(walk[i..], suffixes))
    {
      assert walk[i..][0] == walk[i] && walk[i..][1..] == walk[i + 1..];
      match walk[i] {
        case Failure(msg) =>
          assert Found(walk[i..], suffixes) == Err(msg);
          return Err(msg);
        case Visit(path, name, isDir) =>
          ghost var before := filePaths;
          if !isDir {
            var k := 0;
            while k < |suffixes|
              invariant 0 <= k <= |suffixes| && filePaths == before
              invariant forall m :: 0 <= m < k ==> !HasSuffix(ToLower(name), ToLower(suffixes[m]))
            {
              if HasSuffix(ToLower(name), ToLower(suffixes[k])) {
                // The relative-path error check here tests the callback's
                // own `err`, which is nil at this point.
                filePaths := filePaths + [path];
                break;
              }
              k := k + 1;
            }
          }
          ghost var here := if !isDir && MatchesSome(name, suffixes) then [path] else [];
          assert filePaths == before + here;
          ghost var rest := Found(walk[i + 1..], suffixes);
          assert Found(walk[i..], suffixes) == Prepend(here, rest);
          if rest.Ok? {
            assert before + (here + rest.value) == filePaths + rest.value;
          }
      }
      i := i + 1;
    }
    assert walk[i..] == [] && filePaths + [] == filePaths;
    r := Ok(filePaths);
  }

  /** The finder fails exactly when the walk reports an error, and then with
      the first one. */
  lemma {:induction false} FoundFails(walk: seq<Entry>, suffixes: seq<string>)
    ensures Found(walk, suffixes).Err? <==> FirstFailure(walk).Some?
    ensures Found(walk, suffixes).Err? ==> Found(walk, suffixes).msg == FirstFailure(walk).value
    decreases |walk|
  {
    if walk != [] && walk[0].Visit? {
      FoundFails(walk[1..], suffixes);
    }
  }

  /** On a clean walk a path is returned iff it is a visited file (not a
      directory) whose lower-cased name ends with some lower-cased suffix;
      there are never more results than entries. */
  lemma {:induction false} FoundMembers(walk: seq<Entry>, suffixes: seq<string>, x: string)
    requires Found(walk, suffixes).Ok?
    ensures |Found(walk, suffixes).value| <= |walk|
    ensures x in Found(walk, suffixes).value <==> exists i :: 0 <= i < |walk| && Selects(walk[i], x, suffixes)
    decreases |walk|
  {
    if walk != [] {
      var tail := walk[1..];
      FoundMembers(tail, suffixes, x);
      if x in Found(tail, suffixes).value {
        var i :| 0 <= i < |tail| && Selects(tail[i], x, suffixes);
        assert walk[i + 1] == tail[i];
      }
      if exists i :: 0 <= i < |walk| && Selects(walk[i], x, suffixes) {
        var i :| 0 <= i < |walk| && Selects(walk[i], x, suffixes);
        if i > 0 {
          assert tail[i - 1] == walk[i];
        }
      }
    }
  }

  /** The finder returns no directory: every result is selected by some
      entry. */
  lemma FoundAreFiles(walk: seq<Entry>, suffixes: seq<string>, j: int)
    requires Found(walk, suffixes).Ok? && 0 <= j < |Found(walk, suffixes).value|
    ensures exists i :: 0 <= i < |walk| && Selects(walk[i], Found(walk, suffixes).value[j], suffixes)
  {
    FoundMembers(walk, suffixes, Found(walk, suffixes).value[j]);
  }

  /** Each file is returned at most once: on a walk that never visits a
      path twice the results are free of duplicates. */
  lemma {:induction false} FoundNoDuplicates(walk: seq<Entry>, suffixes: seq<string>)
    requires Found(walk, suffixes).Ok? && DistinctPaths(walk)
    ensures NoDuplicates(Found(walk, suffixes).value)
    decreases |walk|
  {
    if walk != [] {
      var tail := walk[1..];
      assert DistinctPaths(tail) by {
        assert forall i :: 0 <= i < |tail| ==> tail[i] == walk[i + 1];
      }
      FoundNoDuplicates(tail, suffixes);
      var e := walk[0];
      var rest := Found(tail, suffixes).value;
      if !e.isDir && MatchesSome(e.name, suffixes) {
        forall j | 0 <= j < |rest|
          ensures rest[j] != e.path
        {
          FoundAreFiles(tail, suffixes, j);
          var i :| 0 <= i < |tail| && Selects(tail[i], rest[j], suffixes);
          assert walk[i + 1] == tail[i];
        }
        NoDuplicatesCons(e.path, rest);
      }
    }
  }

  lemma NoDuplicatesCons(x: string, xs: seq<string>)
    requires NoDuplicates(xs) && forall j :: 0 <= j < |xs| ==> xs[j] != x
    ensures NoDuplicates([x] + xs)
  {
    var r := [x] + xs;
    forall a, b | 0 <= a < b < |r|
      ensures r[a] != r[b]
    {
      assert r[b] == xs[b - 1];
      if a > 0 {
        assert r[a] == xs[a - 1];
      }
    }
  }

  // ---------------------------------------------------------------------
  // getContentType.go

  /** GetContentType(event) returns (contentType, isTextFile, err), or
      dereferences a nil tag. */
  datatype ContentTypeOutcome =
    | Returned(contentType: string, isTextFile: bool, err: Option<string>)
    | NilTagDereference

  predicate IsTextFileKind(K: KindConsts, kind: int) {
    kind == K.textFile || kind == K.replaceableTextFile
  }

  /** GetContentType as written: for a text-file kind it calls `Value` on
      the result of `GetFirst`, which is nil when no tag starts with
      "type". */
  function GetContentType(K: KindConsts, event: Event): ContentTypeOutcome {
    var kind := event.kind;
    if IsTextFileKind(K, kind) then
      match GetFirst(event.tags, ["type"])
      case None => NilTagDereference
      case Some(contentTypeTag) =>
        var contentType := Value(contentTypeTag);
        if |contentType| < 1 then Returned("", true, Some("Content-Type not specified"))
        else Returned(contentType, true, None)
    else if kind == K.html || kind == K.replaceableHtml then Returned(CmdTools.HtmlType, false, None)
    else if kind == K.css || kind == K.replaceableCss then Returned(CmdTools.CssType, false, None)
    else if kind == K.js || kind == K.replaceableJs then Returned(CmdTools.JsType, false, None)
    else Returned("", false, Some("Invalid Kind"))
  }

  /** A text-file event without a `type` tag (no tags at all, say) does not
      reach the "Content-Type not specified" error. */
  lemma UntypedTextFileDereferencesNil(K: KindConsts, ev: Event)
    requires IsTextFileKind(K, ev.kind) && ev.tags == []
    ensures GetContentType(K, ev) == NilTagDereference
  {
  }

  /** GetContentType as evidently intended: a missing `type` tag is the
      same error as an empty one. */
  function GetContentTypeIntended(K: KindConsts, event: Event): (r: ContentTypeOutcome)
    ensures r.Returned?
  {
    var kind := event.kind;
    if IsTextFileKind(K, kind) then
      var contentTypeTag := GetFirst(event.tags, ["type"]);
      var contentType := if contentTypeTag.Some? then Value(contentTypeTag.value) else "";
      if |contentType| < 1 then Returned("", true, Some("Content-Type not specified"))
      else Returned(contentType, true, None)
    else GetContentType(K, event)
  }

  /** The intended version never dereferences nil, agrees with the written
      one whenever a `type` tag exists, and turns the missing tag into the
      "Content-Type not specified" error. */
  lemma IntendedContentType(K: KindConsts, ev: Event)
    ensures GetContentType(K, ev).Returned? ==> GetContentTypeIntended(K, ev) == GetContentType(K, ev)
    ensures GetContentType(K, ev).NilTagDereference? ==>
      IsTextFileKind(K, ev.kind) && GetFirst(ev.tags, ["type"]).None? &&
      GetContentTypeIntended(K, ev) == Returned("", true, Some("Content-Type not specified"))
  {
  }

  /** The type table: text-file kinds report the `type` tag with the flag
      set (an empty value is an error, still flagged), the web-host kinds
      report the types of the kind-only version with the flag clear, and
      everything else is "Invalid Kind". The flag is set exactly for the
      two text-file kinds. */
  lemma {:induction false} ContentTypeTable(K: KindConsts, ev: Event)
    requires K.Distinct()
    ensures var r := GetContentTypeIntended(K, ev);
      r.isTextFile <==> IsTextFileKind(K, ev.kind)
    ensures var r := GetContentTypeIntended(K, ev);
      IsTextFileKind(K, ev.kind) ==>
        (r.err.None? <==> GetFirst(ev.tags, ["type"]).Some? && Value(GetFirst(ev.tags, ["type"]).value) != "") &&
        (r.err.None? ==> r.contentType == Value(GetFirst(ev.tags, ["type"]).value))
    ensures var r := GetContentTypeIntended(K, ev);
      !IsTextFileKind(K, ev.kind) ==>
        match CmdTools.GetContentType(K, ev.kind)
        case Ok(t) => r == Returned(t, false, None)
        case Err(e) => r == Returned("", false, Some(e))
  {
    DistinctKinds(K);
  }

  // ---------------------------------------------------------------------
  // getResponseContent.go

  /** GetResponseContent: the text-file payload is standard base64 and is
      decoded; any other payload is served as its bytes. */
  function GetResponseContent(eventContent: seq<byte>, isTextFile: bool): (r: Result<seq<byte>>)
    ensures !isTextFile ==> r == Ok(eventContent)
  {
    if isTextFile then Base64.Decode(eventContent) else Ok(eventContent)
  }

  /** A payload encoded by the text-file deploy decodes to the file's
      bytes. */
  lemma ResponseContentRoundTrip(b: seq<byte>)
    ensures GetResponseContent(Base64.Encode(b), true) == Ok(b)
  {
    Base64.DecodeEncode(b);
  }

  /** A text-file payload whose length, line breaks aside, is not a
      multiple of four has an incomplete group and is an error. */
  lemma IncompletePayloadFails(s: seq<byte>)
    requires |Base64.StripNewlines(s)| % 4 != 0
    ensures GetResponseContent(s, true).Err?
  {
    IncompleteGroupsFail(Base64.StripNewlines(s));
  }

  lemma {:induction false} IncompleteGroupsFail(s: seq<byte>)
    requires |s| % 4 != 0
    ensures Base64.DecodeGroups(s).Err?
    decreases |s|
  {
    if |s| >= 4 {
      IncompleteGroupsFail(s[4..]);
    }
  }
}
