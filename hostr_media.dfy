/** hostr/cmd/deploy/media.go: media files under the site directory are
    listed, turned into upload requests authorised by a NIP-98 event, and
    sent to the upload service; each upload that succeeds records the URL
    the service returned under the file's path. */
module HostrMedia {
  import opened Base
  import opened Nostr
  import Base64
  import opened FileWalk
  import HostrTools
  import HostrNostr
  import opened PathSteps

  const AvailableContentSuffixes: seq<string> := [
    ".png", ".jpg", ".jpeg", ".gif", ".webp", ".mp4", ".quicktime",
    ".mpeg", ".webm", ".mpeg", ".mpg", ".mpeg3", ".mp3"]

  const UploadEndpoint := "https://nostrcheck.me/api/v1/media"

  /** The kind of a NIP-98 HTTP authorization event. */
  const HttpAuthKind := 27235

  /** The suffix test of isValidMediaFileType, which does not fold case. */
  predicate HasMediaSuffix(path: string) {
    exists k :: 0 <= k < |AvailableContentSuffixes| && HasSuffix(path, AvailableContentSuffixes[k])
  }

  /** isValidMediaFileType: the first suffix the path ends with answers. */
  method IsValidMediaFileType(path: string) returns (b: bool)
    ensures b <==> HasMediaSuffix(path)
  {
    var k := 0;
    while k < |AvailableContentSuffixes|
      invariant 0 <= k <= |AvailableContentSuffixes|
      invariant forall m :: 0 <= m < k ==> !HasSuffix(path, AvailableContentSuffixes[m])
    {
      if HasSuffix(path, AvailableContentSuffixes[k]) {
        return true;
      }
      k := k + 1;
    }
    return false;
  }

  /** The media test does not fold case, while the listing does: an
      upper-case `.PNG` file is listed but is not a valid media file type. */
  lemma MediaSuffixIsCaseSensitive()
    ensures MatchesSome("PHOTO.PNG", AvailableContentSuffixes)
    ensures !HasMediaSuffix("/PHOTO.PNG")
  {
    assert ToLower("PHOTO.PNG") == "photo.png";
    assert HasSuffix(ToLower("PHOTO.PNG"), ToLower(AvailableContentSuffixes[0]));
    forall k | 0 <= k < |AvailableContentSuffixes|
      ensures !HasSuffix("/PHOTO.PNG", AvailableContentSuffixes[k])
    {
      var s := AvailableContentSuffixes[k];
      if |s| <= 10 {
        assert s[|s| - 1] != "/PHOTO.PNG"[9];
      }
    }
  }

  /** `filepath.Rel(basePath, path)`: an oracle. */
  type RelPath = (string, string) -> Result<string>

  /** The listing as the walk callback builds it, entry by entry: a visited
      file whose lower-cased name ends with a lower-cased media suffix is
      listed as "/" followed by its path relative to the base path; a
      relative-path error skips the file; a walk error is returned. */
  function Listed(walk: seq<Entry>, basePath: string, rel: RelPath): Result<seq<string>>
    decreases |walk|
  {
    if walk == [] then Ok([])
    else match walk[0]
      case Failure(msg) => Err(msg)
      case Visit(path, name, isDir) =>
        var here := if isDir then [] else MediaHere(basePath, rel, path, name);
        match Listed(walk[1..], basePath, rel)
        case Err(m) => Err(m)
        case Ok(rest) => Ok(here + rest)
  }

  /** What the callback lists for a visited file. */
  function MediaHere(basePath: string, rel: RelPath, path: string, name: string): seq<string> {
    if MatchesSome(name, AvailableContentSuffixes) && rel(basePath, path).Ok? then ["/" + rel(basePath, path).value]
    else []
  }

  /** Each path that has a path relative to the base path, as "/" followed
      by that relative path, in order. */
  function Relocate(basePath: string, rel: RelPath, paths: seq<string>): (r: seq<string>)
    ensures |r| <= |paths|
  {
    if paths == [] then []
    else
      var here := if rel(basePath, paths[0]).Ok? then ["/" + rel(basePath, paths[0]).value] else [];
      here + Relocate(basePath, rel, paths[1..])
  }

  lemma {:induction false} RelocateAppend(basePath: string, rel: RelPath, xs: seq<string>, ys: seq<string>)
    ensures Relocate(basePath, rel, xs + ys) == Relocate(basePath, rel, xs) + Relocate(basePath, rel, ys)
    decreases |xs|
  {
    if xs != [] {
      assert (xs + ys)[0] == xs[0] && (xs + ys)[1..] == xs[1..] + ys;
      RelocateAppend(basePath, rel, xs[1..], ys);
      var here := if rel(basePath, xs[0]).Ok? then ["/" + rel(basePath, xs[0]).value] else [];
      assert Relocate(basePath, rel, xs) == here + Relocate(basePath, rel, xs[1..]);
      assert Relocate(basePath, rel, xs + ys) == here + Relocate(basePath, rel, xs[1..] + ys);
      assert here + (Relocate(basePath, rel, xs[1..]) + Relocate(basePath, rel, ys))
          == (here + Relocate(basePath, rel, xs[1..])) + Relocate(basePath, rel, ys);
    } else {
      assert xs + ys == ys;
    }
  }

  /** The media listing is the finder's selection over the same walk, with
      the media suffixes, made relative to the base path: so it fails
      exactly on a walk error, lists files only, each entry at most once,
      in walk order. */
  lemma {:induction false} ListedIsFoundRelocated(walk: seq<Entry>, basePath: string, rel: RelPath)
    ensures Listed(walk, basePath, rel) ==
      match HostrTools.Found(walk, AvailableContentSuffixes)
      case Err(e) => Err(e)
      case Ok(paths) => Ok(Relocate(basePath, rel, paths))
    decreases |walk|
  {
    if walk != [] && walk[0].Visit? {
      ListedIsFoundRelocated(walk[1..], basePath, rel);
      var e := walk[0];
      var here := if !e.isDir && MatchesSome(e.name, AvailableContentSuffixes) then [e.path] else [];
      var rest := HostrTools.Found(walk[1..], AvailableContentSuffixes);
      if rest.Ok? {
        RelocateAppend(basePath, rel, here, rest.value);
        assert Relocate(basePath, rel, here) == if e.isDir then [] else MediaHere(basePath, rel, e.path, e.name);
      }
    }
  }

  /** The suffix loop of the walk callback for a visited file: the first
      matching suffix lists the file, unless its relative path is an error,
      in which case the loop goes on with the next suffix. */
  method SelectMedia(basePath: string, rel: RelPath, path: string, name: string) returns (here: seq<string>)
    ensures here == MediaHere(basePath, rel, path, name)
  {
    here := [];
    var k := 0;
    while k < |AvailableContentSuffixes|
      invariant 0 <= k <= |AvailableContentSuffixes| && here == []
      invariant forall m :: 0 <= m < k ==>
        !HasSuffix(ToLower(name), ToLower(AvailableContentSuffixes[m])) || rel(basePath, path).Err?
    {
      if HasSuffix(ToLower(name), ToLower(AvailableContentSuffixes[k])) {
        var relPath := rel(basePath, path);
        if relPath.Err? {
          k := k + 1;
          continue;
        }
        return ["/" + relPath.value];
      }
      k := k + 1;
    }
  }

  /** listAllValidStaticMediaFilePaths over the walk of basePath. */
  method ListAllValidStaticMediaFilePaths(walk: seq<Entry>, basePath: string, rel: RelPath)
    returns (r: Result<seq<string>>)
    ensures r == Listed(walk, basePath, rel)
  {
    var mediaFilePaths: seq<string> := [];
    var i := 0;
    assert walk[0..] == walk;
    assert Listed(walk, basePath, rel).Ok? ==> [] + Listed(walk, basePath, rel).value == Listed(walk, basePath, rel).value;
    while i < |walk|
      invariant 0 <= i <= |walk|
      invariant Listed(walk, basePath, rel) == HostrTools.Prepend(mediaFilePaths, Listed(walk[i..], basePath, rel))
    {
      assert walk[i..][0] == walk[i] && walk[i..][1..] == walk[i + 1..];
      match walk[i] {
        case Failure(msg) =>
          assert Listed(walk[i..], basePath, rel) == Err(msg);
          return Err(msg);
        case Visit(path, name, isDir) =>
          ghost var before := mediaFilePaths;
          var here: seq<string> := [];
          if !isDir {
            here := SelectMedia(basePath, rel, path, name);
            mediaFilePaths := mediaFilePaths + here;
          }
          ghost var rest := Listed(walk[i + 1..], basePath, rel);
          assert Listed(walk[i..], basePath, rel) == HostrTools.Prepend(here, rest);
          if rest.Ok? {
            assert before + (here + rest.value) == mediaFilePaths + rest.value;
          }
      }
      i := i + 1;
    }
    assert walk[i..] == [] && mediaFilePaths + [] == mediaFilePaths;
    r := Ok(mediaFilePaths);
  }

  /** What opening the file at `filepath.Join(basePath, filePath)` and
      copying it into the form gives. */
  datatype MediaFile = CannotOpen(msg: string) | CannotCopy(msg: string) | Contents(bytes: seq<byte>)

  /** The file system, keyed by base path and file path. */
  type MediaFiles = (string, string) -> MediaFile

  /** `ev.MarshalJSON()`: an oracle. */
  type Marshaler = Event -> Result<seq<byte>>

  /** The upload request: a POST to the endpoint whose multipart body has
      the file under the form field `mediafile` and the field `uploadtype`
      set to `media`, with its three headers. */
  datatype UploadRequest = UploadRequest(
    verb: string, url: string,
    fieldName: string, fileName: string, fileContent: seq<byte>,
    uploadType: string,
    authorization: seq<byte>, accept: string, contentType: string)

  /** The tags of the authorization event, in order. */
  const Nip98Tags: seq<Tag> := [["u", UploadEndpoint], ["method", "POST"], ["payload", ""]]

  /** The bytes of "Nostr ", the authorization scheme of NIP-98. */
  const NostrScheme: seq<byte> := [78, 111, 115, 116, 114, 32]

  /** The `Authorization` header value for a marshalled event. */
  function AuthorizationHeader(evJson: seq<byte>): (r: seq<byte>)
    ensures |NostrScheme| <= |r| && r[..|NostrScheme|] == NostrScheme
  {
    NostrScheme + Base64.Encode(evJson)
  }

  /** The header gives back the event's JSON: after the scheme, it is the
      standard base64 of exactly those bytes. */
  lemma AuthorizationHeaderRoundTrip(evJson: seq<byte>)
    ensures Base64.Decode(AuthorizationHeader(evJson)[|NostrScheme|..]) == Ok(evJson)
  {
    assert AuthorizationHeader(evJson)[|NostrScheme|..] == Base64.Encode(evJson);
    Base64.DecodeEncode(evJson);
  }

  /** The authorization event: signed, with empty content, under the
      NIP-98 kind and tags. */
  function AuthEvent(g: HostrNostr.Signing): Result<Event> {
    HostrNostr.GetEvent(g.sign, g.now, g.priKey, g.pubKey, [], HttpAuthKind, Nip98Tags)
  }

  /** The authorization event follows NIP-98: kind 27235, empty content,
      exactly the `u`, `method` and `payload` tags in that order, signed by
      the deploying key, and it fails exactly when signing fails. */
  lemma AuthEventIsNip98(g: HostrNostr.Signing)
    ensures AuthEvent(g).Ok? <==> g.sign(g.priKey, Unsigned(g.pubKey, g.now, 27235, Nip98Tags, [])).Ok?
    ensures AuthEvent(g).Ok? ==>
      var ev := AuthEvent(g).value;
      ev.kind == 27235 && ev.content == [] && ev.pubkey == g.pubKey &&
      ev.tags == [["u", "https://nostrcheck.me/api/v1/media"], ["method", "POST"], ["payload", ""]]
  {
  }

  /** filePathToUploadMediaRequest; `boundary` is the multipart writer's
      random boundary, an oracle. Writing the form into the in-memory
      buffer and building a request for the constant endpoint cannot fail. */
  function FilePathToUploadMediaRequest(files: MediaFiles, marshal: Marshaler, boundary: string,
                                        g: HostrNostr.Signing, basePath: string, filePath: string)
    : (r: Result<UploadRequest>)
    ensures r.Ok? <==>
      files(basePath, filePath).Contents? && AuthEvent(g).Ok? && marshal(AuthEvent(g).value).Ok?
    ensures r.Ok? ==>
      r.value.verb == "POST" && r.value.url == UploadEndpoint &&
      r.value.fileName == filePath && r.value.fileContent == files(basePath, filePath).bytes &&
      r.value.authorization == AuthorizationHeader(marshal(AuthEvent(g).value).value)
    // The multipart form and the headers.
    ensures r.Ok? ==>
      r.value.fieldName == "mediafile" && r.value.uploadType == "media" &&
      r.value.accept == "application/json" &&
      r.value.contentType == "multipart/form-data; boundary=" + boundary
    ensures files(basePath, filePath).CannotOpen? ==>
      r == Err("Failed to read " + filePath + ": " + files(basePath, filePath).msg)
    ensures files(basePath, filePath).CannotCopy? ==>
      r == Err("Error copying file: " + files(basePath, filePath).msg)
    ensures files(basePath, filePath).Contents? && AuthEvent(g).Err? ==>
      r == Err("Error get event: " + AuthEvent(g).msg)
    ensures files(basePath, filePath).Contents? && AuthEvent(g).Ok? && marshal(AuthEvent(g).value).Err? ==>
      r == Err("Error marshaling event: " + marshal(AuthEvent(g).value).msg)
  {
    match files(basePath, filePath)
    case CannotOpen(e) => Err("Failed to read " + filePath + ": " + e)
    case CannotCopy(e) => Err("Error copying file: " + e)
    case Contents(bytes) =>
      match AuthEvent(g)
      case Err(e) => Err("Error get event: " + e)
      case Ok(ev) =>
        match marshal(ev)
        case Err(e) => Err("Error marshaling event: " + e)
        case Ok(evJson) =>
          Ok(UploadRequest("POST", UploadEndpoint, "mediafile", filePath, bytes, "media",
                           AuthorizationHeader(evJson), "application/json",
                           "multipart/form-data; boundary=" + boundary))
  }

  /** The request-building step of uploadAllValidStaticMediaFiles. */
  function RequestStep(files: MediaFiles, marshal: Marshaler, boundary: string,
                       g: HostrNostr.Signing, basePath: string): string -> Result<UploadRequest>
  {
    filePath => FilePathToUploadMediaRequest(files, marshal, boundary, g, basePath, filePath)
  }

  /** The `MediaResult` fields the uploader reads. */
  datatype MediaResult = MediaResult(result: bool, url: string)

  /** What `client.Do` gives: a send error, or the status code and the
      decoding of the body into a `*MediaResult`, which is nil when the
      body is the JSON `null`. */
  datatype Response = SendFailed(msg: string) | Responded(status: int, decoded: Result<Option<MediaResult>>)

  /** The HTTP client, an oracle. */
  type Client = UploadRequest -> Response

  /** How one upload ends: recorded with the service's URL, dropped with a
      message, or a nil-pointer dereference of the decoded result. */
  datatype Outcome = Uploaded(url: string) | NotUploaded | NilResult

  /** The checks of the upload goroutine, in order: the send, the status
      code printed in decimal starting with '2', the decoding, and the
      `result` flag. */
  function OutcomeOf(resp: Response): Outcome {
    match resp
    case SendFailed(_) => NotUploaded
    case Responded(status, decoded) =>
      if !HasPrefix(IntToDecimal(status), "2") then NotUploaded
      else match decoded
        case Err(_) => NotUploaded
        case Ok(None) => NilResult
        case Ok(Some(mr)) => if mr.result then Uploaded(mr.url) else NotUploaded
  }

  /** An upload is recorded exactly when it was sent, its status begins
      with '2', its body decoded to a result object and that result is
      true; the URL recorded is the service's. */
  lemma OutcomeCases(resp: Response)
    ensures OutcomeOf(resp).Uploaded? <==>
      resp.Responded? && HasPrefix(IntToDecimal(resp.status), "2") &&
      resp.decoded.Ok? && resp.decoded.value.Some? && resp.decoded.value.value.result
    ensures OutcomeOf(resp).Uploaded? ==> OutcomeOf(resp).url == resp.decoded.value.value.url
    ensures OutcomeOf(resp).NilResult? <==>
      resp.Responded? && HasPrefix(IntToDecimal(resp.status), "2") && resp.decoded == Ok(None)
  {
  }

  /** For the three-digit status codes of HTTP the decimal test is the 2xx
      class. */
  lemma StatusTestIsSuccessClass(status: int)
    requires 100 <= status <= 999
    ensures HasPrefix(IntToDecimal(status), "2") <==> 200 <= status <= 299
  {
    var s := IntToDecimal(status);
    assert s == NatToDecimal(status / 10) + [DigitChar(status % 10)];
    assert NatToDecimal(status / 10) == NatToDecimal(status / 100) + [DigitChar(status / 10 % 10)];
    assert NatToDecimal(status / 100) == [DigitChar(status / 100)];
    assert s[0] == DigitChar(status / 100);
  }

  function Outcomes(client: Client, requests: seq<UploadRequest>): (r: seq<Outcome>)
    ensures |r| == |requests|
    ensures forall i :: 0 <= i < |requests| ==> r[i] == OutcomeOf(client(requests[i]))
  {
    seq(|requests|, i requires 0 <= i < |requests| => OutcomeOf(client(requests[i])))
  }

  /** The number of recorded uploads. */
  function Successes(os: seq<Outcome>): nat {
    if os == [] then 0
    else Successes(os[..|os| - 1]) + (if os[|os| - 1].Uploaded? then 1 else 0)
  }

  /** The path table after the uploads: each recorded upload sets its path
      to its URL, in order. */
  function Record(m: map<string, string>, paths: seq<string>, os: seq<Outcome>): map<string, string>
    requires |paths| == |os|
  {
    if os == [] then m
    else
      var n := |os| - 1;
      var before := Record(m, paths[..n], os[..n]);
      if os[n].Uploaded? then before[paths[n] := os[n].url] else before
  }

  /** The counter never exceeds the number of requests. */
  lemma {:induction false} SuccessesBound(os: seq<Outcome>)
    ensures Successes(os) <= |os|
    decreases |os|
  {
    if os != [] {
      SuccessesBound(os[..|os| - 1]);
    }
  }

  /** The counter is the number of uploads that succeeded. */
  lemma {:induction false} SuccessesCount(os: seq<Outcome>)
    ensures Successes(os) == |set i | 0 <= i < |os| && os[i].Uploaded?|
    decreases |os|
  {
    if os != [] {
      var n := |os| - 1;
      SuccessesCount(os[..n]);
      var before := set i | 0 <= i < n && os[..n][i].Uploaded?;
      var all := set i | 0 <= i < |os| && os[i].Uploaded?;
      assert before == set i | 0 <= i < n && os[i].Uploaded?;
      if os[n].Uploaded? {
        assert all == before + {n};
      } else {
        assert all == before;
      }
    }
  }

  /** A path is in the table after the uploads exactly when it was before
      or one of its uploads succeeded; the table changes only on a full
      success. */
  lemma {:induction false} RecordDomain(m: map<string, string>, paths: seq<string>, os: seq<Outcome>, p: string)
    requires |paths| == |os|
    ensures p in Record(m, paths, os) <==>
      p in m || exists i :: 0 <= i < |os| && os[i].Uploaded? && paths[i] == p
    decreases |os|
  {
    if os != [] {
      var n := |os| - 1;
      RecordDomain(m, paths[..n], os[..n], p);
      if exists i :: 0 <= i < n && os[..n][i].Uploaded? && paths[..n][i] == p {
        var i :| 0 <= i < n && os[..n][i].Uploaded? && paths[..n][i] == p;
        assert os[i].Uploaded? && paths[i] == p;
      }
      if exists i :: 0 <= i < |os| && os[i].Uploaded? && paths[i] == p {
        var i :| 0 <= i < |os| && os[i].Uploaded? && paths[i] == p;
        if i < n {
          assert os[..n][i].Uploaded? && paths[..n][i] == p;
        }
      }
    }
  }

  /** With distinct paths, each successful upload's path maps to the URL
      the service returned for it. */
  lemma {:induction false} RecordValue(m: map<string, string>, paths: seq<string>, os: seq<Outcome>, i: nat)
    requires |paths| == |os| && NoDuplicates(paths) && i < |os| && os[i].Uploaded?
    ensures paths[i] in Record(m, paths, os) && Record(m, paths, os)[paths[i]] == os[i].url
    decreases |os|
  {
    var n := |os| - 1;
    if i < n {
      assert NoDuplicates(paths[..n]);
      assert os[..n][i] == os[i] && paths[..n][i] == paths[i];
      RecordValue(m, paths[..n], os[..n], i);
      assert paths[n] != paths[i];
    }
  }

  /** One pass of the upload loop keeps the counter and the table equal to
      the account of the uploads done so far. */
  lemma UploadStep(m0: map<string, string>, filePaths: seq<string>, os: seq<Outcome>, i: nat,
                   count: nat, m: map<string, string>)
    requires i < |os| && i < |filePaths|
    requires count == Successes(os[..i]) && m == Record(m0, filePaths[..i], os[..i])
    ensures (if os[i].Uploaded? then count + 1 else count) == Successes(os[..i + 1])
    ensures (if os[i].Uploaded? then m[filePaths[i] := os[i].url] else m)
         == Record(m0, filePaths[..i + 1], os[..i + 1])
  {
    SnocPrefix(os, i);
    SnocPrefix(filePaths, i);
  }

  /** The state a run stopped by a nil result leaves: the first nil
      result is upload `n`, and the counter and the table are the account of
      the uploads before it. */
  predicate StoppedAt(m0: map<string, string>, filePaths: seq<string>, os: seq<Outcome>, n: nat,
                      count: nat, m: map<string, string>)
  {
    n < |os| && n <= |filePaths| && os[n].NilResult? &&
    (forall i :: 0 <= i < n ==> !os[i].NilResult?) &&
    count == Successes(os[..n]) && m == Record(m0, filePaths[..n], os[..n])
  }

  lemma SnocPrefix<T>(xs: seq<T>, i: nat)
    requires i < |xs|
    ensures xs[..i + 1][..i] == xs[..i] && xs[..i + 1][i] == xs[i]
  {
  }

  /** The package's `[path]: URL` table. */
  class MediaUploader {
    var uploadedMediaFiles: map<string, string>

    constructor ()
      ensures uploadedMediaFiles == map[]
    {
      uploadedMediaFiles := map[];
    }

    /** uploadMediaFiles, with the uploads taken one after the other: the
        counter ends at the number of successes, the table records each
        success, and a nil decoded result stops the program. */
    method UploadMediaFiles(filePaths: seq<string>, requests: seq<UploadRequest>, client: Client)
      returns (uploadedMediaFilesCount: nat, panicked: bool)
      requires |requests| <= |filePaths|
      modifies this`uploadedMediaFiles
      ensures var os := Outcomes(client, requests);
        panicked <==> exists i :: 0 <= i < |os| && os[i].NilResult?
      ensures var os := Outcomes(client, requests);
        !panicked ==>
          uploadedMediaFilesCount == Successes(os) &&
          uploadedMediaFiles == Record(old(uploadedMediaFiles), filePaths[..|requests|], os)
      ensures var os := Outcomes(client, requests);
        panicked ==> exists n :: StoppedAt(old(uploadedMediaFiles), filePaths, os, n,
                                           uploadedMediaFilesCount, uploadedMediaFiles)
      ensures uploadedMediaFilesCount <= |requests|
    {
      ghost var os := Outcomes(client, requests);
      uploadedMediaFilesCount := 0;
      var i := 0;
      while i < |requests|
        invariant 0 <= i <= |requests|
        invariant forall j :: 0 <= j < i ==> !os[j].NilResult?
        invariant uploadedMediaFilesCount == Successes(os[..i])
        invariant uploadedMediaFiles == Record(old(uploadedMediaFiles), filePaths[..i], os[..i])
      {
        var stop;
        uploadedMediaFilesCount, stop := UploadOne(old(uploadedMediaFiles), filePaths, requests, client,
                                                   os, i, uploadedMediaFilesCount);
        if stop {
          SuccessesBound(os[..i]);
          assert StoppedAt(old(uploadedMediaFiles), filePaths, os, i,
                           uploadedMediaFilesCount, uploadedMediaFiles);
          return uploadedMediaFilesCount, true;
        }
        i := i + 1;
      }
      assert os[..i] == os;
      SuccessesBound(os);
      return uploadedMediaFilesCount, false;
    }

    /** One pass of the upload loop: the request is sent and its outcome
        taken; a nil result stops the loop with nothing changed, any other
        outcome extends the account by one upload. */
    method UploadOne(ghost m0: map<string, string>, filePaths: seq<string>, requests: seq<UploadRequest>,
                     client: Client, ghost os: seq<Outcome>, i: nat, count: nat)
      returns (count': nat, stop: bool)
      requires os == Outcomes(client, requests) && i < |requests| <= |filePaths|
      requires count == Successes(os[..i]) && uploadedMediaFiles == Record(m0, filePaths[..i], os[..i])
      modifies this`uploadedMediaFiles
      ensures stop <==> os[i].NilResult?
      ensures stop ==> count' == count && uploadedMediaFiles == old(uploadedMediaFiles)
      ensures !stop ==> (count' == Successes(os[..i + 1]) &&
                         uploadedMediaFiles == Record(m0, filePaths[..i + 1], os[..i + 1]))
    {
      var filePath := filePaths[i];
      var outcome := OutcomeOf(client(requests[i]));
      assert outcome == os[i];
      if outcome.NilResult? {
        return count, true;
      }
      UploadStep(m0, filePaths, os, i, count, uploadedMediaFiles);
      count' := count;
      if outcome.Uploaded? {
        count' := count + 1;
        uploadedMediaFiles := uploadedMediaFiles[filePath := outcome.url];
      }
      stop := false;
    }

    /** The request-building loop: one request per path, in order; the
        first error is returned. */
    static method BuildRequests(files: MediaFiles, marshal: Marshaler, boundary: string,
                                g: HostrNostr.Signing, basePath: string, filesPaths: seq<string>)
      returns (requests: seq<UploadRequest>, err: Option<string>)
      ensures var run := Steps(RequestStep(files, marshal, boundary, g, basePath), filesPaths);
        err == run.err && requests == run.out
    {
      ghost var step := RequestStep(files, marshal, boundary, g, basePath);
      requests := [];
      var i := 0;
      LoopStart(step, filesPaths);
      while i < |filesPaths|
        invariant 0 <= i <= |filesPaths|
        invariant Steps(step, filesPaths) == Then(filesPaths[..i], requests, Loop(step, filesPaths, i))
      {
        var request := FilePathToUploadMediaRequest(files, marshal, boundary, g, basePath, filesPaths[i]);
        if request.Err? {
          LoopHalt(step, filesPaths, i, requests, request.msg);
          return requests, Some(request.msg);
        }
        LoopAdvance(step, filesPaths, i, requests, request.value);
        requests := requests + [request.value];
        i := i + 1;
      }
      LoopEnd(step, filesPaths, requests);
      return requests, None;
    }

    /** uploadAllValidStaticMediaFiles: a listing error or the first
        request that cannot be built is returned before anything is
        uploaded; otherwise every listed path is uploaded with its request. */
    method UploadAllValidStaticMediaFiles(walk: seq<Entry>, rel: RelPath, files: MediaFiles, marshal: Marshaler,
                                          boundary: string, client: Client, g: HostrNostr.Signing, basePath: string)
      returns (err: Option<string>, panicked: bool)
      modifies this`uploadedMediaFiles
      ensures Listed(walk, basePath, rel).Err? ==>
        err == Some(Listed(walk, basePath, rel).msg) && !panicked &&
        uploadedMediaFiles == old(uploadedMediaFiles)
      ensures Listed(walk, basePath, rel).Ok? ==>
        var paths := Listed(walk, basePath, rel).value;
        var run := Steps(RequestStep(files, marshal, boundary, g, basePath), paths);
        (run.err.Some? ==> err == run.err && !panicked && uploadedMediaFiles == old(uploadedMediaFiles)) &&
        (run.err.None? ==>
          err == None && |run.out| == |paths| &&
          var os := Outcomes(client, run.out);
          (panicked <==> exists i :: 0 <= i < |os| && os[i].NilResult?) &&
          (!panicked ==> uploadedMediaFiles == Record(old(uploadedMediaFiles), paths, os)))
    {
      var filesPaths := ListAllValidStaticMediaFilePaths(walk, basePath, rel);
      if filesPaths.Err? {
        return Some(filesPaths.msg), false;
      }
      var requests, buildErr := BuildRequests(files, marshal, boundary, g, basePath, filesPaths.value);
      if buildErr.Some? {
        return buildErr, false;
      }
      StepsSpec(RequestStep(files, marshal, boundary, g, basePath), filesPaths.value);
      assert filesPaths.value[..|requests|] == filesPaths.value;
      var count;
      count, panicked := UploadMediaFiles(filesPaths.value, requests, client);
      err := None;
    }
  }
}
