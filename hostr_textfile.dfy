/** hostr/cmd/deploy/textFile.go: every text file under the site directory
    becomes a NIP-95 file event whose content is the file in base64, typed
    by its extension, recorded by path and queued for publishing. */
module HostrTextFile {
  import opened Base
  import opened Nostr
  import Base64
  import opened FileWalk
  import HostrTools
  import HostrNostr
  import opened PathSteps

  const AvailableTextFileSuffixes: seq<string> := [".txt", ".csv", ".pdf", ".json", ".yml", ".yaml", ".svg"]

  const AvailableTextFileContentTypes: map<string, string> := map[
    ".txt" := "text/plain",
    ".csv" := "text/csv",
    ".pdf" := "application/pdf",
    ".json" := "application/json",
    ".yml" := "application/x-yaml",
    ".yaml" := "application/x-yaml",
    ".svg" := "image/svg+xml"]

  /** The two tables list the same extensions. */
  lemma SuffixesHaveContentTypes()
    ensures forall s :: s in AvailableTextFileSuffixes <==> s in AvailableTextFileContentTypes
  {
  }

  /** `os.ReadFile`: the file's bytes or the error. */
  type FileReader = string -> Result<seq<byte>>

  /** `filepath.Ext`: the suffix from the last '.' of the final path
      element, or "" when that element has no '.'. */
  function Ext(path: string): (r: string)
    ensures r == "" || (r[0] == '.' && HasSuffix(path, r) && '/' !in r && '.' !in r[1..])
    decreases |path|
  {
    if path == [] then ""
    else
      var c := path[|path| - 1];
      var init := path[..|path| - 1];
      if c == '/' then ""
      else if c == '.' then "."
      else
        var r := Ext(init);
        if r == "" then ""
        else
          assert path[|path| - |r| - 1..] == init[|init| - |r|..] + [c];
          r + [c]
  }

  /** A path ending in a dot followed by a word free of '.' and '/' has
      that dot and word as its extension. */
  lemma {:induction false} ExtOfSuffix(path: string, w: string)
    requires |w| >= 1 && w[0] == '.' && '.' !in w[1..] && '/' !in w && HasSuffix(path, w)
    ensures Ext(path) == w
    decreases |w|
  {
    var c := path[|path| - 1];
    var init := path[..|path| - 1];
    if |w| > 1 {
      var v := w[..|w| - 1];
      assert v[1..] == w[1..|w| - 1];
      assert init[|init| - |v|..] == v;
      ExtOfSuffix(init, v);
      assert w == v + [c];
    }
  }

  /** The `type` tag value: the table entry for the extension, or Go's zero
      value "" when the extension is not in the table. */
  function ContentTypeOf(filePath: string): string {
    var ext := Ext(filePath);
    if ext in AvailableTextFileContentTypes then AvailableTextFileContentTypes[ext] else ""
  }

  /** A path that ends, in the table's own case, with a listed suffix gets
      that suffix's type. */
  lemma ContentTypeOfListedSuffix(filePath: string, k: int)
    requires 0 <= k < |AvailableTextFileSuffixes| && HasSuffix(filePath, AvailableTextFileSuffixes[k])
    ensures ContentTypeOf(filePath) == AvailableTextFileContentTypes[AvailableTextFileSuffixes[k]]
    ensures ContentTypeOf(filePath) != ""
  {
    var w := AvailableTextFileSuffixes[k];
    assert w[0] == '.' && '.' !in w[1..] && '/' !in w;
    ExtOfSuffix(filePath, w);
  }

  /** The finder matches names case-insensitively but the type lookup is
      case-sensitive: an upper-case extension is deployed with an empty
      `type` value. */
  lemma UpperCaseExtensionIsUntyped()
    ensures MatchesSome("README.TXT", AvailableTextFileSuffixes)
    ensures ContentTypeOf("/site/README.TXT") == ""
  {
    assert ToLower("README.TXT") == "readme.txt";
    assert ToLower(AvailableTextFileSuffixes[0]) == ".txt";
    assert HasSuffix(ToLower("README.TXT"), ToLower(AvailableTextFileSuffixes[0]));
    ExtOfSuffix("/site/README.TXT", ".TXT");
  }

  function TextFileKind(isReplaceable: bool): int {
    if isReplaceable then 30064 else 1064
  }

  /** The tags, built by successive AppendUnique calls. */
  function TextFileTags(indexHtmlIdentifier: string, filePath: string, contentType: string, isReplaceable: bool): seq<Tag>
    requires isReplaceable ==> |filePath| >= 1
  {
    var tags: seq<Tag> := [];
    var tags := if isReplaceable then
      AppendUnique(tags, ["d", HostrNostr.GetReplaceableIdentifier(indexHtmlIdentifier, filePath)])
    else tags;
    AppendUnique(tags, ["type", contentType])
  }

  /** The `d` tag comes first and only in replaceable mode, the `type` tag
      always and last. */
  lemma TextFileTagsShape(indexHtmlIdentifier: string, filePath: string, contentType: string, isReplaceable: bool)
    requires isReplaceable ==> |filePath| >= 1
    ensures TextFileTags(indexHtmlIdentifier, filePath, contentType, isReplaceable) ==
      (if isReplaceable then [["d", HostrNostr.GetReplaceableIdentifier(indexHtmlIdentifier, filePath)]] else [])
      + [["type", contentType]]
  {
    var t := ["type", contentType];
    assert t[..2] == t;
    if isReplaceable {
      var d := ["d", HostrNostr.GetReplaceableIdentifier(indexHtmlIdentifier, filePath)];
      assert d[..2] == d;
      assert !StartsWith(d, t) by { assert t[0] != d[0]; }
    }
  }

  /** The event for one file: its base64 content, signed under the
      text-file kind with those tags. */
  function TextFileEvent(g: HostrNostr.Signing, indexHtmlIdentifier: string, filePath: string,
                         bytesContent: seq<byte>, isReplaceable: bool): Result<Event>
    requires isReplaceable ==> |filePath| >= 1
  {
    HostrNostr.GetEvent(g.sign, g.now, g.priKey, g.pubKey, Base64.Encode(bytesContent), TextFileKind(isReplaceable),
                        TextFileTags(indexHtmlIdentifier, filePath, ContentTypeOf(filePath), isReplaceable))
  }

  /** One pass of the loop body for one path: read the file, then sign
      its event; a read error is returned as it is. */
  function ProcessFile(readFile: FileReader, g: HostrNostr.Signing, id: string, isReplaceable: bool, filePath: string): Result<Event>
    requires isReplaceable ==> |filePath| >= 1
  {
    match readFile(filePath)
    case Err(e) => Err(e)
    case Ok(bytesContent) => TextFileEvent(g, id, filePath, bytesContent, isReplaceable)
  }

  function FileStep(readFile: FileReader, g: HostrNostr.Signing, id: string, isReplaceable: bool): string --> Result<Event> {
    filePath requires isReplaceable ==> |filePath| >= 1 => ProcessFile(readFile, g, id, isReplaceable, filePath)
  }

  predicate NonEmptyPaths(filePaths: seq<string>) {
    forall i :: 0 <= i < |filePaths| ==> |filePaths[i]| >= 1
  }

  lemma FileStepRead(readFile: FileReader, g: HostrNostr.Signing, id: string, isReplaceable: bool, filePath: string)
    requires isReplaceable ==> |filePath| >= 1
    ensures FileStep(readFile, g, id, isReplaceable).requires(filePath)
    ensures FileStep(readFile, g, id, isReplaceable)(filePath) ==
      if readFile(filePath).Err? then Err(readFile(filePath).msg)
      else TextFileEvent(g, id, filePath, readFile(filePath).value, isReplaceable)
  {
  }

  lemma FileStepDefined(readFile: FileReader, g: HostrNostr.Signing, id: string, isReplaceable: bool, filePaths: seq<string>)
    requires isReplaceable ==> NonEmptyPaths(filePaths)
    ensures Defined(FileStep(readFile, g, id, isReplaceable), filePaths)
  {
  }

  /** The whole of generateEventsAndAddQueueAllValidStaticTextFiles: a
      finder error ends it before any file is read. */
  function TextFileDeploy(walk: seq<Entry>, readFile: FileReader, g: HostrNostr.Signing, id: string, isReplaceable: bool): Run<Event>
    requires WalkPathsNonEmpty(walk)
  {
    match HostrTools.Found(walk, AvailableTextFileSuffixes)
    case Err(e) => Run([], [], Some(e))
    case Ok(filePaths) =>
      FoundPathsNonEmpty(walk, AvailableTextFileSuffixes);
      FileStepDefined(readFile, g, id, isReplaceable, filePaths);
      Steps(FileStep(readFile, g, id, isReplaceable), filePaths)
  }

  /** `filepath.Walk` visits the base path and paths below it, never the
      empty path. */
  predicate WalkPathsNonEmpty(walk: seq<Entry>) {
    forall i :: 0 <= i < |walk| && walk[i].Visit? ==> |walk[i].path| >= 1
  }

  lemma FoundPathsNonEmpty(walk: seq<Entry>, suffixes: seq<string>)
    requires WalkPathsNonEmpty(walk) && HostrTools.Found(walk, suffixes).Ok?
    ensures NonEmptyPaths(HostrTools.Found(walk, suffixes).value)
  {
    var ps := HostrTools.Found(walk, suffixes).value;
    forall j | 0 <= j < |ps|
      ensures |ps[j]| >= 1
    {
      HostrTools.FoundAreFiles(walk, suffixes, j);
    }
  }

  /** The run over a clean walk processes the found text files in finder
      order and stops at the first failure. Each processed path was read
      and its event is the one signed for its bytes; the paths are a
      prefix of the found ones, all of them unless an error stopped the
      loop, and the error is then the read or signing error of the next
      path. A walk error stops the run before any file is read. */
  lemma TextFileDeploySpec(walk: seq<Entry>, readFile: FileReader, g: HostrNostr.Signing, id: string, isReplaceable: bool)
    requires WalkPathsNonEmpty(walk)
    ensures var r := TextFileDeploy(walk, readFile, g, id, isReplaceable);
      HostrTools.Found(walk, AvailableTextFileSuffixes).Err? ==>
        r == Run([], [], Some(HostrTools.Found(walk, AvailableTextFileSuffixes).msg))
    ensures var r := TextFileDeploy(walk, readFile, g, id, isReplaceable);
      HostrTools.Found(walk, AvailableTextFileSuffixes).Ok? ==>
        var filePaths := HostrTools.Found(walk, AvailableTextFileSuffixes).value;
        |r.out| == |r.done| <= |filePaths| && r.done == filePaths[..|r.done|] &&
        (r.err.None? <==> r.done == filePaths) &&
        (forall i :: 0 <= i < |r.done| ==>
          (isReplaceable ==> |r.done[i]| >= 1) && readFile(r.done[i]).Ok? &&
          TextFileEvent(g, id, r.done[i], readFile(r.done[i]).value, isReplaceable) == Ok(r.out[i])) &&
        (r.err.Some? ==>
          var p := filePaths[|r.done|];
          (readFile(p).Err? && r.err.value == readFile(p).msg) ||
          (readFile(p).Ok? && (isReplaceable ==> |p| >= 1) &&
           TextFileEvent(g, id, p, readFile(p).value, isReplaceable) == Err(r.err.value)))
  {
    if HostrTools.Found(walk, AvailableTextFileSuffixes).Ok? {
      var filePaths := HostrTools.Found(walk, AvailableTextFileSuffixes).value;
      FoundPathsNonEmpty(walk, AvailableTextFileSuffixes);
      StepsSpec(FileStep(readFile, g, id, isReplaceable), filePaths);
    }
  }

  /** Each generated event is a NIP-95 file event with exactly the given
      key, the base64 content of its file and the tags of its path. */
  lemma TextFileEventShape(g: HostrNostr.Signing, id: string, filePath: string, bytesContent: seq<byte>, isReplaceable: bool)
    requires isReplaceable ==> |filePath| >= 1
    ensures var r := TextFileEvent(g, id, filePath, bytesContent, isReplaceable);
      r.Ok? ==>
        r.value.pubkey == g.pubKey && r.value.content == Base64.Encode(bytesContent) &&
        r.value.kind == (if isReplaceable then 30064 else 1064) &&
        r.value.tags == (if isReplaceable then [["d", id + "/" + filePath[1..]]] else []) + [["type", ContentTypeOf(filePath)]]
  {
    TextFileTagsShape(id, filePath, ContentTypeOf(filePath), isReplaceable);
  }

  /** What the resolver makes of a generated event: it is a text file of
      the extension's type (an error when the type is empty), and its
      payload decodes to the file's bytes. */
  lemma {:induction false} ServedTextFile(K: KindConsts, g: HostrNostr.Signing, id: string, filePath: string,
                                          bytesContent: seq<byte>, isReplaceable: bool)
    requires K.Distinct() && K.TextFileKindsAreNip95()
    requires isReplaceable ==> |filePath| >= 1
    requires TextFileEvent(g, id, filePath, bytesContent, isReplaceable).Ok?
    ensures var ev := TextFileEvent(g, id, filePath, bytesContent, isReplaceable).value;
      HostrTools.GetContentType(K, ev) ==
        if ContentTypeOf(filePath) == "" then HostrTools.Returned("", true, Some("Content-Type not specified"))
        else HostrTools.Returned(ContentTypeOf(filePath), true, None)
    ensures var ev := TextFileEvent(g, id, filePath, bytesContent, isReplaceable).value;
      HostrTools.GetResponseContent(ev.content, true) == Ok(bytesContent)
  {
    var ev := TextFileEvent(g, id, filePath, bytesContent, isReplaceable).value;
    TextFileEventShape(g, id, filePath, bytesContent, isReplaceable);
    var ty := ["type", ContentTypeOf(filePath)];
    if isReplaceable {
      var d := ["d", id + "/" + filePath[1..]];
      assert ev.tags == [d, ty];
      assert !StartsWith(d, ["type"]) by { assert !HasPrefix("d", "type"); }
      assert ev.tags[1..] == [ty];
      assert StartsWith(ty, ["type"]) by { assert ty[0][..4] == "type"; }
    } else {
      assert ev.tags == [ty];
      assert StartsWith(ty, ["type"]) by { assert ty[0][..4] == "type"; }
    }
    assert GetFirst(ev.tags, ["type"]) == Some(ty);
    HostrTools.ResponseContentRoundTrip(bytesContent);
  }

  /** Applies the path → event records in order. */
  function Enter(m: map<string, Event>, paths: seq<string>, events: seq<Event>): map<string, Event>
    decreases |paths|
  {
    if paths == [] || events == [] then m
    else Enter(m, paths[..|paths| - 1], events[..|events| - 1])[paths[|paths| - 1] := events[|events| - 1]]
  }

  lemma EnterSnoc(m: map<string, Event>, paths: seq<string>, events: seq<Event>, p: string, e: Event)
    requires |paths| == |events|
    ensures Enter(m, paths + [p], events + [e]) == Enter(m, paths, events)[p := e]
  {
    assert (paths + [p])[..|paths|] == paths && (events + [e])[..|events|] == events;
  }

  /** The table gains exactly the processed paths. */
  lemma {:induction false} EnterDomain(m: map<string, Event>, paths: seq<string>, events: seq<Event>, p: string)
    requires |paths| == |events|
    ensures p in Enter(m, paths, events) <==> p in m || p in paths
    decreases |paths|
  {
    if paths != [] {
      var init := paths[..|paths| - 1];
      EnterDomain(m, init, events[..|events| - 1], p);
      assert paths == init + [paths[|paths| - 1]];
      assert p in paths <==> p in init || p == paths[|paths| - 1];
    }
  }

  /** A processed path maps to the event of its last occurrence. */
  lemma {:induction false} EnterLast(m: map<string, Event>, paths: seq<string>, events: seq<Event>, i: int)
    requires |paths| == |events| && 0 <= i < |paths|
    requires forall j :: i < j < |paths| ==> paths[j] != paths[i]
    ensures paths[i] in Enter(m, paths, events) && Enter(m, paths, events)[paths[i]] == events[i]
    decreases |paths|
  {
    if i < |paths| - 1 {
      EnterLast(m, paths[..|paths| - 1], events[..|events| - 1], i);
    }
  }

  /** The package's `[path]: event` table. */
  class TextFiles {
    var textFilePathToEvent: map<string, Event>

    constructor ()
      ensures textFilePathToEvent == map[]
    {
      textFilePathToEvent := map[];
    }

    /** generateEventsAndAddQueueAllValidStaticTextFiles: the events of
        the run are appended to the queue in finder order and recorded by
        path; the result is the run's error. */
    method GenerateEventsAndAddQueueAllValidStaticTextFiles(
      q: HostrNostr.EventQueue, walk: seq<Entry>, readFile: FileReader, g: HostrNostr.Signing,
      indexHtmlIdentifier: string, isReplaceable: bool)
      returns (err: Option<string>)
      requires WalkPathsNonEmpty(walk)
      modifies this`textFilePathToEvent, q`nostrEventsQueue
      ensures var run := TextFileDeploy(walk, readFile, g, indexHtmlIdentifier, isReplaceable);
        err == run.err &&
        q.nostrEventsQueue == old(q.nostrEventsQueue) + run.out &&
        textFilePathToEvent == Enter(old(textFilePathToEvent), run.done, run.out)
    {
      var filePaths := HostrTools.FindFilesWithBasePathBySuffixes(walk, AvailableTextFileSuffixes);
      if filePaths.Err? {
        return Some(filePaths.msg);
      }
      FoundPathsNonEmpty(walk, AvailableTextFileSuffixes);
      err := AddTextFileEvents(q, filePaths.value, readFile, g, indexHtmlIdentifier, isReplaceable);
    }

    /** The loop body from the base64 encoding to the signed event. */
    static method BuildTextFileEvent(g: HostrNostr.Signing, indexHtmlIdentifier: string, filePath: string,
                                     bytesContent: seq<byte>, isReplaceable: bool)
      returns (event: Result<Event>)
      requires isReplaceable ==> |filePath| >= 1
      ensures event == TextFileEvent(g, indexHtmlIdentifier, filePath, bytesContent, isReplaceable)
    {
      var content := Base64.Encode(bytesContent);
      var tags: seq<Tag> := [];
      if isReplaceable {
        var fileIdentifier := HostrNostr.GetReplaceableIdentifier(indexHtmlIdentifier, filePath);
        tags := AppendUnique(tags, ["d", fileIdentifier]);
      }
      var contentType := ContentTypeOf(filePath);
      tags := AppendUnique(tags, ["type", contentType]);
      var kind;
      if isReplaceable {
        kind := 30064;
      } else {
        kind := 1064;
      }
      event := HostrNostr.GetEvent(g.sign, g.now, g.priKey, g.pubKey, content, kind, tags);
    }

    /** One pass of the loop body: read the file and build its event; on
        success record it under its path and queue it. */
    method ProcessOne(q: HostrNostr.EventQueue, readFile: FileReader, g: HostrNostr.Signing, indexHtmlIdentifier: string,
                      isReplaceable: bool, filePath: string)
      returns (event: Result<Event>)
      requires isReplaceable ==> |filePath| >= 1
      modifies this`textFilePathToEvent, q`nostrEventsQueue
      ensures event == FileStep(readFile, g, indexHtmlIdentifier, isReplaceable)(filePath)
      ensures event.Ok? ==>
        textFilePathToEvent == old(textFilePathToEvent)[filePath := event.value] &&
        q.nostrEventsQueue == old(q.nostrEventsQueue) + [event.value]
      ensures event.Err? ==>
        textFilePathToEvent == old(textFilePathToEvent) && q.nostrEventsQueue == old(q.nostrEventsQueue)
    {
      var bytesContent := readFile(filePath);
      if bytesContent.Err? {
        return Err(bytesContent.msg);
      }
      event := BuildTextFileEvent(g, indexHtmlIdentifier, filePath, bytesContent.value, isReplaceable);
      if event.Err? {
        return;
      }
      textFilePathToEvent := textFilePathToEvent[filePath := event.value];
      q.AddNostrEventQueue(event.value, filePath);
    }

    /** The loop over the found paths. */
    method AddTextFileEvents(
      q: HostrNostr.EventQueue, filePaths: seq<string>, readFile: FileReader, g: HostrNostr.Signing,
      indexHtmlIdentifier: string, isReplaceable: bool)
      returns (err: Option<string>)
      requires isReplaceable ==> NonEmptyPaths(filePaths)
      modifies this`textFilePathToEvent, q`nostrEventsQueue
      ensures Defined(FileStep(readFile, g, indexHtmlIdentifier, isReplaceable), filePaths)
      ensures var run := Steps(FileStep(readFile, g, indexHtmlIdentifier, isReplaceable), filePaths);
        err == run.err &&
        q.nostrEventsQueue == old(q.nostrEventsQueue) + run.out &&
        textFilePathToEvent == Enter(old(textFilePathToEvent), run.done, run.out)
    {
      ghost var step := FileStep(readFile, g, indexHtmlIdentifier, isReplaceable);
      FileStepDefined(readFile, g, indexHtmlIdentifier, isReplaceable, filePaths);
      ghost var events: seq<Event> := [];
      var i := 0;
      LoopStart(step, filePaths);
      while i < |filePaths|
        invariant 0 <= i <= |filePaths| && |events| == i
        invariant Steps(step, filePaths) == Then(filePaths[..i], events, Loop(step, filePaths, i))
        invariant q.nostrEventsQueue == old(q.nostrEventsQueue) + events
        invariant textFilePathToEvent == Enter(old(textFilePathToEvent), filePaths[..i], events)
      {
        var filePath := filePaths[i];
        var event := ProcessOne(q, readFile, g, indexHtmlIdentifier, isReplaceable, filePath);
        if event.Err? {
          LoopHalt(step, filePaths, i, events, event.msg);
          return Some(event.msg);
        }
        LoopAdvance(step, filePaths, i, events, event.value);
        EnterSnoc(old(textFilePathToEvent), filePaths[..i], events, filePath, event.value);
        PrefixNext(filePaths, i);
        events := events + [event.value];
        i := i + 1;
      }
      LoopEnd(step, filePaths, events);
      assert filePaths[..i] == filePaths;
      return None;
    }
  }
}
