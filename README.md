# nostr-webhost deploy and serve core in Dafny

This project models the core of nostr-webhost. The tool publishes a static web site to Nostr relays: every HTML, CSS and JS asset becomes a signed event, and `index.html` becomes a last event whose links point at the asset events. A small gateway then serves those events back over HTTP. The project does not model the original Go code line by line. It models each core operation and proves what the code promises about it.

Two generations of the code are modelled side by side, each from its own files:

- **hostr** (newer):
  - replaceable (NIP-33) or immutable deploys, with `nevent` links;
  - text-file (NIP-95) and media uploads;
  - the relay list in a settings file or the `RELAY_URLS` variable;
  - a gateway with an `/e` route and a `/p/.../d/...` route.
- **nostrh** (older):
  - immutable deploys that rewrite links to plain event IDs;
  - a gateway with one `/e` route;
  - a terminal progress bar.

Modules follow the source files:

- `HostrDeploy`, `HostrNostr`, `HostrTextFile` and `HostrMedia`: the four files of the hostr deploy package.
- `NostrhDeploy`: the nostrh deploy package.
- `HostrTools` and `CmdTools`: the content-type, response-content and file-finder helpers.
- `Relays`: the relay-list file and `RELAY_URLS`.
- `HostrServer` and `NostrhServer`: the two gateways.
- `NostrhTools`: the progress bar.
- `Base`, `Base64`, `Nostr`, `Html`, `FileWalk`, `Fanout`, `PathSteps` and `Serving`: the Go library behaviour the core relies on, and shared loop accounts.

**Where the code mutates state, the model is imperative:**
- The package-level event queue, the upload tables, the relay file and the gateway's shared relay list are fields of classes.
- The methods that change them state the new state in terms of a specification function of the old state and the inputs.
- Every loop of the source is a `while` loop with invariants.

**The outside world becomes parameters.** This covers signing, NIP-19 encoding and decoding, relay connections and publishing, `QuerySingle`, the HTTP client, the file system, `filepath.Walk`, `url.Parse`, the HTML parser and renderer, the clock and the settings directory. Each is a function or a value taken as input. The `consts` package is not part of this model: its kind numbers are a record of nine integers that is only assumed to be pairwise distinct.

**Publish and upload are modelled as sequential loops.** Each goroutine's work runs in queue order, and the shared counters count exactly what the code counts.

**Bugs the proofs show, and how the model treats them:**
- Under `## Findings`: three discrepancies where the code evidently does not do what its authors meant. Each is modelled both as written and as intended.
- Modelled as written, with its consequence proved (`HostrDeploy.PathToKindReplaceability`): the inverted HTML branch of hostr's `pathToKind`. A replaceable deploy gives linked HTML files the immutable HTML kind.
- Modelled as written: nostrh's `Deploy` returns no error when `index.html` fails to parse.
- Modelled as written: the nostrh gateway's second write after a page.

## Model

| member | source | states |
|---|---|---|
| Base.TrimSpace | hostr/cmd/relays/relays.go:66 | `strings.TrimSpace`: the result is a slice of the input with only white space before and after it, and it neither starts nor ends with white space |
| Base.TrimLeft | hostr/cmd/relays/relays.go:66 | a suffix of the input, everything it drops is white space, and it does not start with white space |
| Base.TrimRight | hostr/cmd/relays/relays.go:66 | a prefix of the input, everything it drops is white space, and it does not end with white space |
| Base.Split | hostr/cmd/relays/relays.go:43 | `strings.Split` on one character: at least one piece, and no piece contains the separator |
| Base.JoinSplit | hostr/cmd/relays/relays.go:43-52 | joining the pieces of a split gives the original text back |
| Base.SplitJoin | hostr/cmd/relays/relays.go:43-52 | splitting a join of separator-free pieces gives the pieces back |
| Base.SplitNoSep | hostr/cmd/relays/relays.go:43 | text without the separator splits into itself alone |
| Base.ToLower | hostr/cmd/tools/findFilePaths.go:24 | same length and no upper-case ASCII letter left; each upper-case letter becomes the letter 32 code points up, and every other character is kept |
| Base.NatToDecimal | hostr/cmd/deploy/media.go:123 | `fmt.Sprint` of a status code: decimal digits only, no leading zero |
| Base.NatToDecimalValue | hostr/cmd/deploy/media.go:123 | the digits written for a number denote that number |
| Base.IntToDecimal | nostrh/cmd/tools/displayPercent.go:38 | `%d`: starts with '-' exactly for negative numbers, and the rest is the decimal form of the absolute value |
| Base.SplitLast | hostr/cmd/deploy/deploy.go:25-27 | the piece after the last '.' of a path ending in '.' and a dot-free word is that word |
| Base.Utf8 | hostr/cmd/relays/relays.go:92 | a Go string's bytes, never fewer than its characters |
| Base.Utf8Length | hostr/cmd/relays/relays.go:92 | a string has as many bytes as characters exactly when it is ASCII |
| Base.Utf8AsciiPrefix | hostr/cmd/server/server.go:33 | comparing the first bytes with an ASCII word is the same as testing that the text starts with that word |
| Base.Utf8Append | hostr/cmd/deploy/deploy.go:55 | the bytes of a concatenation are the bytes of its parts |
| Base.DropAsciiHead | hostr/cmd/server/server.go:119 | dropping the first byte of a text with an ASCII first character drops that character |
| Base64.Encode | hostr/cmd/deploy/textFile.go:56 | standard padded base64 (section 4 of RFC 4648), whose length is four characters for each started group of three bytes |
| Base64.DecodeSextet | hostr/cmd/tools/getResponseContent.go:10 | a decoded character is a 6-bit value whose encoding is that character |
| Base64.SextetRoundTrip | hostr/cmd/tools/getResponseContent.go:10 | every 6-bit value decodes from its own character |
| Base64.EncodeHasNoNewlines | hostr/cmd/tools/getResponseContent.go:10 | encoded text has no line break for the decoder to skip |
| Base64.DecodeEncode | hostr/cmd/tools/getResponseContent.go:10 | decoding what was encoded gives back the original bytes |
| Nostr.GetFirst | hostr/cmd/server/server.go:67-68 | a tag found is one of the list and starts with the prefix; none found means that no tag starts with it |
| Nostr.GetFirstIsFirst | hostr/cmd/server/server.go:67-68 | the tag found is the first one of the list that starts with the prefix |
| Nostr.AppendUnique | hostr/cmd/deploy/textFile.go:62 | the new tag is appended exactly when no tag of the list starts with its key (its first two fields), and the list is unchanged exactly when one does |
| Nostr.AppendUniqueFresh | hostr/cmd/deploy/textFile.go:62-67 | on a list that has no tag with that key, the new tag is appended |
| Fanout.Connected | hostr/cmd/deploy/nostr.go:45-52 | no more relays than URLs, and a relay is kept exactly when its URL connects |
| Fanout.ConnectAll | hostr/cmd/deploy/nostr.go:45-52 | the connect loop skips failed relays and keeps the others in order |
| Fanout.PublishAll | hostr/cmd/deploy/nostr.go:69-85 | one row of attempts per event, in queue order, each holding one attempt per connected relay, in relay order, with the publisher's own outcome, whatever the earlier attempts gave; the counter ends at the number of events |
| FileWalk.FirstFailure | hostr/cmd/tools/findFilePaths.go:15-17 | no failure exactly when the walk is clean, else the message of the first failing entry, every entry before it being a visit |
| PathSteps.LoopSpec | hostr/cmd/deploy/textFile.go:48-86 | a loop that returns at the first error: the paths done are a prefix with their results in order, and the error is the first step's that failed |
| PathSteps.StepsSpec | hostr/cmd/deploy/textFile.go:48-86 | the same account for the whole path list |
| HostrDeploy.ExtensionOfSuffix | hostr/cmd/deploy/deploy.go:25-27 | a path ending in "." and a dot-free word has that word as extension |
| HostrDeploy.PathToKindTable | hostr/cmd/deploy/deploy.go:23-51 | a kind exactly for html, css and js; css and js give the replaceable kind exactly when asked; html gives the immutable kind when replaceable and the replaceable kind otherwise |
| HostrDeploy.PathToKindReplaceability | hostr/cmd/deploy/deploy.go:30-47 | the kind's replaceability matches the flag for CSS and JS and is the opposite for HTML |
| HostrDeploy.GetReplaceableIdentifier | hostr/cmd/deploy/deploy.go:54-56 | the identifier, a slash, then the path without its first character; length is the sum of both lengths |
| HostrDeploy.IdentifierBytes | hostr/cmd/deploy/deploy.go:54-56 | in bytes: the identifier, the slash and the path after its first byte, for a path starting with an ASCII character |
| HostrDeploy.GetEvent | hostr/cmd/deploy/deploy.go:289-304 | the event carries exactly the given author, kind, content and tags, stamped with the clock, with the signer's ID and signature; it fails exactly when signing fails, with the signer's error |
| HostrDeploy.ConvertAttr | hostr/cmd/deploy/deploy.go:231-279 | one attribute keeps its key and namespace and queues at most one event |
| HostrDeploy.ConvertAttrCases | hostr/cmd/deploy/deploy.go:233-278 | nothing happens to an attribute that does not qualify, has no kind or cannot be read; replaceable: the value becomes the identifier before signing and stays rewritten when signing breaks the loop; immutable: the value becomes the event's nevent only after the event is queued, and an encoding failure breaks the loop |
| HostrDeploy.ConvertAttrsRewrites | hostr/cmd/deploy/deploy.go:231-280 | on a link or script element, only qualifying attributes may change, and only their values |
| HostrDeploy.ConvertRewritesOnly | hostr/cmd/deploy/deploy.go:228-287 | convertLinks changes nothing but the values of qualifying href/src attributes of link and script elements: every other node, attribute and the tree's shape are unchanged |
| HostrDeploy.ConvertChildrenRewrite | hostr/cmd/deploy/deploy.go:284-286 | each child subtree is rewritten in that sense and no other |
| HostrDeploy.AssetEventsAllSucceed | hostr/cmd/deploy/deploy.go:260-266 | when every asset succeeds, event i is the signed event of reference i |
| HostrDeploy.AllSucceedNoneBreak | hostr/cmd/deploy/deploy.go:238-266 | references that all succeed break no loop |
| HostrDeploy.ConvertAttrsQueue | hostr/cmd/deploy/deploy.go:231-280 | an element queues at most one event per qualifying attribute; when no reference breaks the loop, exactly the events of the typed, readable ones, in attribute order (the others are skipped) |
| HostrDeploy.ConvertQueueOrder | hostr/cmd/deploy/deploy.go:228-287 | the queue grows by at most one event per qualifying reference of the tree; when no signing or encoding breaks a loop, by exactly the events of its typed, readable references in pre-order |
| HostrDeploy.ConvertChildrenQueueOrder | hostr/cmd/deploy/deploy.go:284-286 | the same for a run of sibling subtrees, siblings in order |
| HostrDeploy.RootTagsShape | hostr/cmd/deploy/deploy.go:209-212 | the root event's tags are `("d", identifier)` when replaceable and none otherwise |
| HostrDeploy.Deployer.constructor | hostr/cmd/deploy/deploy.go:58-64 | the package starts with an empty queue and relay list |
| HostrDeploy.Deployer.AddNostrEventQueue | hostr/cmd/deploy/deploy.go:60-62 | exactly one event is appended at the end of the queue |
| HostrDeploy.Deployer.ConvertAttribute | hostr/cmd/deploy/deploy.go:233-278 | the loop body: the attribute afterwards, whether it breaks, and the queue grown by exactly what the attribute function says |
| HostrDeploy.Deployer.ConvertElementAttrs | hostr/cmd/deploy/deploy.go:231-280 | the in-place attribute loop: the attributes and the queue as the attribute function gives them |
| HostrDeploy.Deployer.ConvertLinks | hostr/cmd/deploy/deploy.go:228-287 | the rewritten tree, and the queue grown by the tree's events in pre-order |
| HostrDeploy.Deployer.ConvertChildLinks | hostr/cmd/deploy/deploy.go:284-286 | the sibling loop: each child rewritten and its events queued in order |
| HostrDeploy.Deployer.PublishEventsFromQueue | hostr/cmd/deploy/deploy.go:66-133 | returns the last queued event's ID; "Failed to deploy" is never reported; encoded is "" when replaceable, else the nevent or "" when encoding fails; every event is tried on every connected relay |
| HostrDeploy.Deployer.Deploy | hostr/cmd/deploy/deploy.go:144-226 | a missing index.html (with `os.ReadFile`'s own error), a parse failure, a key error and a relay-list error each return their error, with the queue and the relay list unchanged (the relay list empty after its own error); once all of those succeed the relay list is the one read, and the queue is the old queue and convertLinks' events, then the root event when it signs: the signed event of the rendered document with the replaceable HTML kind and the tag `("d", identifier)` when replaceable, the plain HTML kind and no tag otherwise; the result is then its ID, its nevent over the relays when immutable ("" when encoding fails or when replaceable), and the identifier; a root signing failure returns its error; a deploy succeeds only when all of these steps succeed; no attempts are returned on any error, and after a signed root the returned attempts are the whole final queue tried on every connected relay |
| HostrNostr.GetEvent | hostr/cmd/deploy/nostr.go:17-32 | exactly the given author, kind, content and tags, the clock and the signer's ID; a signing failure returns its error |
| HostrNostr.AgreesWithDeploy | hostr/cmd/deploy/nostr.go:17-139 | the nostr.go copies of getEvent, the file-type test, pathToKind and getReplaceableIdentifier compute what the deploy.go copies compute |
| HostrNostr.BasicFileTypeHasKind | hostr/cmd/deploy/nostr.go:34-36 | a path that passes isValidBasicFileType is never rejected by pathToKind |
| HostrNostr.EventQueue.constructor | hostr/cmd/deploy/nostr.go:15 | the package starts with an empty queue and relay list |
| HostrNostr.EventQueue.AddNostrEventQueue | hostr/cmd/deploy/nostr.go:143-146 | exactly one event is appended at the end; earlier entries are unchanged |
| HostrNostr.EventQueue.PublishEventsFromQueue | hostr/cmd/deploy/nostr.go:37-104 | returns the last queued event's ID; the failure report is never taken; encoded is non-empty only when immutable and the encoding succeeded, and is then that encoding; every event is tried on every connected relay |
| HostrTextFile.SuffixesHaveContentTypes | hostr/cmd/deploy/textFile.go:12-31 | the suffix table and the content-type table list the same extensions |
| HostrTextFile.Ext | hostr/cmd/deploy/textFile.go:66 | `filepath.Ext`: "" or a final '.'-started suffix of the last path element |
| HostrTextFile.ExtOfSuffix | hostr/cmd/deploy/textFile.go:66 | a path ending in a dot and a word free of '.' and '/' has that as its extension |
| HostrTextFile.ContentTypeOfListedSuffix | hostr/cmd/deploy/textFile.go:66 | a path ending with a listed suffix, in the table's case, gets that suffix's non-empty type |
| HostrTextFile.UpperCaseExtensionIsUntyped | hostr/cmd/deploy/textFile.go:66 | "README.TXT" is found by the case-insensitive finder but gets an empty `type` value |
| HostrTextFile.TextFileTagsShape | hostr/cmd/deploy/textFile.go:58-67 | the `d` tag comes first and only when replaceable, and the `type` tag always and last |
| HostrTextFile.FileStepRead | hostr/cmd/deploy/textFile.go:50-81 | one loop pass: a read error is returned as it is, otherwise the file's event |
| HostrTextFile.FileStepDefined | hostr/cmd/deploy/textFile.go:48-86 | the loop body can run on every found path |
| HostrTextFile.FoundPathsNonEmpty | hostr/cmd/deploy/textFile.go:37-39 | the finder returns no empty path, so getReplaceableIdentifier's slice is in range |
| HostrTextFile.TextFileDeploySpec | hostr/cmd/deploy/textFile.go:42-89 | a finder error returns before any file is read; otherwise the paths done are a prefix of the finder's list in its order with their events, and the first read or signing error ends the loop with earlier events kept |
| HostrTextFile.TextFileEventShape | hostr/cmd/deploy/textFile.go:56-81 | each event has the deploying key, the base64 of its file, kind 30064 when replaceable else 1064, and the tags of its path |
| HostrTextFile.ServedTextFile | hostr/cmd/deploy/textFile.go:56-81 | the gateway's content-type helper gives a generated event its `type` value and the text-file flag, and its payload decodes back to the file's bytes |
| HostrTextFile.EnterDomain | hostr/cmd/deploy/textFile.go:83 | the path table gains exactly the processed paths |
| HostrTextFile.EnterLast | hostr/cmd/deploy/textFile.go:83 | a processed path maps to the event of its last occurrence |
| HostrTextFile.TextFiles.constructor | hostr/cmd/deploy/textFile.go:34 | the path table starts empty |
| HostrTextFile.TextFiles.GenerateEventsAndAddQueueAllValidStaticTextFiles | hostr/cmd/deploy/textFile.go:42-89 | the result is the run's error; the queue grows by exactly the run's events and the path table records each processed path |
| HostrTextFile.TextFiles.ProcessOne | hostr/cmd/deploy/textFile.go:50-85 | one pass: on success the event is recorded under its path and queued, on error nothing changes |
| HostrTextFile.TextFiles.AddTextFileEvents | hostr/cmd/deploy/textFile.go:48-86 | the loop over the found paths, stated against the loop account |
| HostrMedia.IsValidMediaFileType | hostr/cmd/deploy/media.go:61-68 | the search loop answers true exactly when the path ends with some listed suffix, case-sensitively |
| HostrMedia.MediaSuffixIsCaseSensitive | hostr/cmd/deploy/media.go:61-68 | "PHOTO.PNG" is listed by the case-insensitive listing but is not a valid media file type |
| HostrMedia.Relocate | hostr/cmd/deploy/media.go:238-244 | each path with a relative path, as "/" and that path, in order |
| HostrMedia.ListedIsFoundRelocated | hostr/cmd/deploy/media.go:223-257 | the listing is the finder's selection over the walk, each as "/" plus its relative path, in walk order; a walk error is returned |
| HostrMedia.SelectMedia | hostr/cmd/deploy/media.go:232-247 | the suffix loop with its break and its skip on a relative-path error |
| HostrMedia.ListAllValidStaticMediaFilePaths | hostr/cmd/deploy/media.go:223-257 | the walk loop computes the listing |
| HostrMedia.AuthorizationHeader | hostr/cmd/deploy/media.go:215 | the header begins with "Nostr " |
| HostrMedia.AuthorizationHeaderRoundTrip | hostr/cmd/deploy/media.go:215 | after "Nostr ", the header is the standard base64 of exactly the event's JSON |
| HostrMedia.AuthEventIsNip98 | hostr/cmd/deploy/media.go:190-200 | kind 27235, empty content, the deploying key and the tags `u`, `method`, `payload` in that order; fails exactly when signing fails |
| HostrMedia.FilePathToUploadMediaRequest | hostr/cmd/deploy/media.go:153-220 | a request exactly when the file opens and copies, signing succeeds and marshalling succeeds; then a POST to the endpoint with the file in the form field "mediafile" under its name, `uploadtype` "media", Accept "application/json", the multipart Content-Type with the boundary, and the Authorization header built from the marshalled event; each failure gives its own message ("Failed to read ...", "Error copying file: ...", "Error get event: ...", "Error marshaling event: ...") |
| HostrMedia.OutcomeCases | hostr/cmd/deploy/media.go:115-146 | recorded exactly when the decimal status starts with '2', the body decodes to a result and `result` is true, and then with the service's URL; a JSON `null` body is a nil dereference |
| HostrMedia.StatusTestIsSuccessClass | hostr/cmd/deploy/media.go:123 | for three-digit codes the decimal test is the 2xx class |
| HostrMedia.SuccessesBound | hostr/cmd/deploy/media.go:92-93 | the counter never exceeds the number of requests |
| HostrMedia.SuccessesCount | hostr/cmd/deploy/media.go:143-146 | the counter is the number of uploads that succeeded |
| HostrMedia.RecordDomain | hostr/cmd/deploy/media.go:143-146 | the table gains exactly the paths of successful uploads |
| HostrMedia.RecordValue | hostr/cmd/deploy/media.go:143-146 | with distinct paths, each successful path maps to the URL returned for it |
| HostrMedia.MediaUploader.constructor | hostr/cmd/deploy/media.go:85 | the table starts empty |
| HostrMedia.MediaUploader.UploadMediaFiles | hostr/cmd/deploy/media.go:87-151 | the counter and the table change only on full success and end as the count and record of the outcomes; a nil result stops the run with the state of the uploads before it |
| HostrMedia.UploadStep | hostr/cmd/deploy/media.go:143-146 | a success adds one to the counter and its URL under its path, any other outcome neither, and the result is the account of one more upload |
| HostrMedia.MediaUploader.UploadOne | hostr/cmd/deploy/media.go:106-147 | one upload: it stops exactly on a nil result, with nothing changed, and otherwise extends the counter and the table by that upload |
| HostrMedia.MediaUploader.UploadAllValidStaticMediaFiles | hostr/cmd/deploy/media.go:260-279 | a listing error or the first request-building error returns before any upload; otherwise one request per listed path, in order, all uploaded |
| NostrhDeploy.PathToKindTable | nostrh/cmd/deploy/deploy.go:21-34 | html, css and js get their plain kinds, and every other extension gets 0 with no error |
| NostrhDeploy.KindOfSuffix | nostrh/cmd/deploy/deploy.go:24-30 | one row of that table |
| NostrhDeploy.PathToKindAgainstHostr | nostrh/cmd/deploy/deploy.go:21-34 | the older table is hostr's immutable CSS/JS rows and hostr's inverted, replaceable-flag HTML row, and gives 0 where hostr errs, provided the two generations' `consts` packages give the plain HTML, CSS and JS kinds the same numbers |
| NostrhDeploy.GetEvent | nostrh/cmd/deploy/deploy.go:215-229 | exactly the given author, kind and content, no tags, the clock, the signer's ID and signature; fails exactly when signing fails, with the signer's error |
| NostrhDeploy.QualifiesByKeyAndSuffix | nostrh/cmd/deploy/deploy.go:108-114 | isExternalURL is false for every input, so an external .js reference is converted too |
| NostrhDeploy.ConvertAttr | nostrh/cmd/deploy/deploy.go:176-205 | one attribute keeps its key and namespace and queues at most one event |
| NostrhDeploy.ConvertAttrCases | nostrh/cmd/deploy/deploy.go:178-204 | a non-qualifying or unreadable attribute is unchanged and queues nothing; a signing failure breaks the loop; otherwise the event is queued and the value becomes its ID |
| NostrhDeploy.ConvertAttrsRewrites | nostrh/cmd/deploy/deploy.go:176-206 | only qualifying attributes may change, and only their values |
| NostrhDeploy.ConvertRewritesOnly | nostrh/cmd/deploy/deploy.go:173-213 | convertLinks changes nothing but the values of qualifying href/src attributes of link and script elements |
| NostrhDeploy.ConvertChildrenRewrite | nostrh/cmd/deploy/deploy.go:210-212 | each child subtree is rewritten in that sense and no other |
| NostrhDeploy.ConvertAttrsQueue | nostrh/cmd/deploy/deploy.go:176-206 | at most one event per qualifying attribute, and exactly the readable ones' events in order when no signing fails |
| NostrhDeploy.ConvertQueueOrder | nostrh/cmd/deploy/deploy.go:173-213 | the tree queues the events of its readable references in pre-order when no signing fails |
| NostrhDeploy.ConvertChildrenQueueOrder | nostrh/cmd/deploy/deploy.go:210-212 | the same for sibling subtrees in order |
| NostrhDeploy.Deployer.constructor | nostrh/cmd/deploy/deploy.go:36 | the queue starts empty |
| NostrhDeploy.Deployer.AddNostrEventQueue | nostrh/cmd/deploy/deploy.go:38-40 | exactly one event is appended at the end |
| NostrhDeploy.Deployer.ConvertAttribute | nostrh/cmd/deploy/deploy.go:178-204 | the loop body as the attribute function gives it |
| NostrhDeploy.Deployer.ConvertElementAttrs | nostrh/cmd/deploy/deploy.go:176-206 | the in-place attribute loop |
| NostrhDeploy.Deployer.ConvertLinks | nostrh/cmd/deploy/deploy.go:173-213 | the rewritten tree and the queue grown by its events in pre-order |
| NostrhDeploy.Deployer.ConvertChildLinks | nostrh/cmd/deploy/deploy.go:210-212 | the sibling loop |
| NostrhDeploy.Deployer.PublishEventsFromQueue | nostrh/cmd/deploy/deploy.go:42-106 | a relay-list error returns it with nothing published; otherwise the last queued event's ID, no failure report, every event tried on every connected relay |
| NostrhDeploy.Deployer.Deploy | nostrh/cmd/deploy/deploy.go:120-171 | a missing index.html returns `os.ReadFile`'s own error and a parse failure returns no ID and no error; a key error returns its error; all three leave the queue unchanged; once the index is read and parsed and the keys are derived, the queue is the old queue and the tree's events, then the root HTML event when it signs; the result is then its ID, or the relay-list error with no ID; a root signing failure returns its error; no error (with a parsed index) happens only when every step succeeded; after a signed root with the relay list read the returned attempts are the whole final queue tried on every connected relay, and otherwise none are returned |
| HostrTools.FindFilesWithBasePathBySuffixes | hostr/cmd/tools/findFilePaths.go:11-44 | the walk loop with its suffix loop and break computes the finder's result |
| HostrTools.FoundFails | hostr/cmd/tools/findFilePaths.go:15-17 | the finder fails exactly when the walk reports an error, and with the first one |
| HostrTools.FoundMembers | hostr/cmd/tools/findFilePaths.go:20-31 | a path is returned exactly when some visited file there matches a suffix; never more results than entries |
| HostrTools.FoundAreFiles | hostr/cmd/tools/findFilePaths.go:20 | no directory is returned |
| HostrTools.FoundNoDuplicates | hostr/cmd/tools/findFilePaths.go:31-32 | each file is returned once even when several suffixes match |
| HostrTools.UntypedTextFileDereferencesNil | hostr/cmd/tools/getContentType.go:15-16 | a text-file event with no tags dereferences a nil tag |
| HostrTools.GetContentTypeIntended | hostr/cmd/tools/getContentType.go:14-20 | the intended helper always returns |
| HostrTools.IntendedContentType | hostr/cmd/tools/getContentType.go:14-23 | the intended helper agrees with the written one wherever that returns, and gives "Content-Type not specified" where it dereferences nil |
| HostrTools.ContentTypeTable | hostr/cmd/tools/getContentType.go:14-33 | for the intended helper: the flag is true exactly for the two text-file kinds; their type is the `type` value and an empty one is the error; other kinds follow the kind-only table, "Invalid Kind" included |
| HostrTools.GetResponseContent | hostr/cmd/tools/getResponseContent.go:7-13 | a non-text payload is its bytes, with no error |
| HostrTools.ResponseContentRoundTrip | hostr/cmd/tools/getResponseContent.go:10 | the base64 of some bytes, as the text-file deploy encodes it, decodes to those bytes |
| HostrTools.IncompletePayloadFails | hostr/cmd/tools/getResponseContent.go:10 | a text payload whose length, line breaks aside, is not a multiple of four is an error |
| HostrTools.IncompleteGroupsFail | hostr/cmd/tools/getResponseContent.go:10 | an incomplete last group does not decode |
| CmdTools.ContentTypeTable | cmd/tools/getContentType.go:9-19 | a type exactly for the six text kinds; each immutable and replaceable pair maps to the same charset-utf-8 type; every other kind is an error |
| Relays.Entries | hostr/cmd/relays/relays.go:65-70 | no more entries than parts, none empty |
| Relays.LongLines | hostr/cmd/relays/relays.go:91-95 | no more lines than the file has, each longer than one byte |
| Relays.Kept | hostr/cmd/relays/relays.go:46-50 | no more lines than before, and none equal to the target |
| Relays.EntriesMembers | hostr/cmd/relays/relays.go:65-70 | an entry is kept exactly when its trimmed form is not blank |
| Relays.TrimmedMembers | hostr/cmd/relays/relays.go:63-70 | the relays RELAY_URLS names are exactly its non-blank entries, trimmed |
| Relays.EntriesAppend | hostr/cmd/relays/relays.go:65-70 | the entries keep their original order |
| Relays.LongLinesAppend | hostr/cmd/relays/relays.go:91-95 | the file's lines keep their order |
| Relays.LongLinesMembers | hostr/cmd/relays/relays.go:91-95 | a line is listed exactly when the file holds it and it is longer than one byte |
| Relays.LongLinesBytes | hostr/cmd/relays/relays.go:92 | a one-character line of two bytes is kept and a one-byte line is dropped |
| Relays.KeptTwice | hostr/cmd/relays/relays.go:46-50 | removing a line twice is removing it once |
| Relays.KeptNoTarget | hostr/cmd/relays/relays.go:46-50 | lines without the target are all kept |
| Relays.KeptLongLines | hostr/cmd/relays/relays.go:46-50 | removing lines and keeping the long ones commute |
| Relays.KeptAppend | hostr/cmd/relays/relays.go:46-50 | removal keeps order over concatenations |
| Relays.KeptMembers | hostr/cmd/relays/relays.go:46-50 | a line survives exactly when it is not the target |
| Relays.AddedLines | hostr/cmd/relays/relays.go:26 | appending a URL line to a file that is empty or ends in a newline lists the old relays and then the URL |
| Relays.SplitRemoved | hostr/cmd/relays/relays.go:43-52 | the lines RemoveRelay keeps split back out of what it writes |
| Relays.RemovedTwice | hostr/cmd/relays/relays.go:43-53 | RemoveRelay is idempotent |
| Relays.RemovedList | hostr/cmd/relays/relays.go:43-53 | after RemoveRelay the file lists its earlier relays other than the removed one, in order |
| Relays.RemovedEndsInNewline | hostr/cmd/relays/relays.go:43-53 | removing a non-empty URL keeps a file that is empty or ends in a newline |
| Relays.EnvOrFile | hostr/cmd/relays/relays.go:60-77 | a non-blank RELAY_URLS entry decides the list; with only blank entries the list is what an unset RELAY_URLS gives |
| Relays.RelayStore.constructor | hostr/cmd/relays/relays.go:11 | the settings file as given |
| Relays.RelayStore.AddRelay | hostr/cmd/relays/relays.go:13-28 | a directory error is returned with the file unchanged; otherwise exactly the URL and a newline are appended, creating the file |
| Relays.RelayStore.RemoveRelay | hostr/cmd/relays/relays.go:30-56 | a directory error or a missing file is returned unchanged; otherwise the lines other than the target, in order, joined by newlines |
| Relays.RelayStore.GetAllRelays | hostr/cmd/relays/relays.go:58-98 | the method computes AllRelays |
| Relays.CleanRelays | hostr/cmd/relays/relays.go:64-70 | the environment loop computes the trimmed non-blank entries |
| Relays.ReadLines | hostr/cmd/relays/relays.go:90-95 | the file loop computes the long lines |
| Serving.Picture | hostr/cmd/server/server.go:66-91 | a missing `e` or `m` tag is 400, a missing data event 404, a payload that does not decode 400, and otherwise 200 typed by the `m` tag with the decoded bytes as body; 200 exactly when all of these succeed |
| Serving.PictureRoundTrip | hostr/cmd/server/server.go:84-90 | a data event holding the base64 of some bytes is served as those bytes, typed by the type tag |
| HostrServer.NeventLookup | hostr/cmd/server/server.go:33-50 | a parameter shorter than six bytes panics; one whose first six bytes are "nevent" and that fails to decode or is not an event pointer is 400; an event pointer gives its ID and relay hints; anything else is the raw ID |
| HostrServer.EventFilter | hostr/cmd/server/server.go:53-56 | kinds HTML, CSS, JS and Picture, the one ID |
| HostrServer.NpubLookup | hostr/cmd/server/server.go:107-115 | a key shorter than four bytes panics; one whose first four bytes are "npub" and that fails to decode is 400 "Invalid npub"; a decoded public key or the raw key is the author |
| HostrServer.ByteLengthLookup | hostr/cmd/server/server.go:28-33 | a two-character, six-byte parameter is looked up as a raw ID, while five ASCII bytes panic |
| HostrServer.ReplaceableFilter | hostr/cmd/server/server.go:115-133 | the replaceable kinds, the one author and `d = [dTag]` |
| HostrServer.HandleReplaceable | hostr/cmd/server/server.go:103-150 | the npub step's answer, a panic for an empty tag parameter, or the `/p` switch on the query with the tag minus its first character |
| HostrServer.DTagBytes | hostr/cmd/server/server.go:119 | the tag parameter's first character is the slash gin puts there, so dropping it is dropping its first byte |
| HostrServer.ServeEventKinds | hostr/cmd/server/server.go:57-97 | HTML, CSS and JS are 200 with their charset-utf-8 types and the content verbatim; pictures go to the picture branch; a missing event or other kind is 404 |
| HostrServer.RoutesServeDisjointKinds | hostr/cmd/server/server.go:57-147 | `/e` never serves a replaceable event, `/p` never an immutable one or a picture, and `/p` is 200 exactly for the replaceable text kinds |
| HostrServer.EventStatuses | hostr/cmd/server/server.go:57-97 | the switch after the `/e` query answers 200, 400 or 404, and every failure carries its status text |
| HostrServer.LookupAnswers | hostr/cmd/server/server.go:33-44 | the ID step answers on its own only with a panic's 500, "Invalid nevent" or "Failed to decode nevent" |
| HostrServer.EventRouteStatuses | hostr/cmd/server/server.go:27-100 | the whole `/e` route answers 200, 400, 404 or 500; a failure is the panic's 500, one of the two nevent messages, or a status with its status text |
| HostrServer.Gateway.constructor | hostr/cmd/server/server.go:18-25 | the relay list read at start |
| HostrServer.Gateway.HandleEvent | hostr/cmd/server/server.go:27-100 | an early answer (a parameter shorter than six bytes, a bad nevent) leaves the relay list alone; otherwise the hints are appended and the response is the switch on the query over the grown list; the response is the route's answer for the list held before the request |
| HostrServer.HintsPersist | hostr/cmd/server/server.go:47 | relay hints persist: after two nevent requests the list is the start list, the first hints, then the second |
| NostrhServer.Writes | nostrh/cmd/server/server.go:26-77 | one or two writes, and the last is never a 200 |
| NostrhServer.FoundPageGetsNotFound | nostrh/cmd/server/server.go:37-75 | a found page is sent with status 200 and then the text "Not Found" |
| NostrhServer.PictureTypeIsEventId | nostrh/cmd/server/server.go:45-68 | a served picture's media type is its `e` tag value, the data event's ID |
| NostrhServer.WritesIntended | nostrh/cmd/server/server.go:35-72 | exactly one write |
| NostrhServer.IntendedMatchesHostr | nostrh/cmd/server/server.go:35-72 | for the same found event, the intended handler answers what hostr's switch after the `/e` query answers, apart from the charset |
| NostrhServer.IntendedMatchesHostrRoute | nostrh/cmd/server/server.go:28-72 | against hostr's whole `/e` route: the same answer, apart from the charset, for every parameter hostr takes as a raw ID; on a parameter shorter than six bytes hostr panics with 500 while this handler does not |
| NostrhServer.IntendedPicture | nostrh/cmd/server/server.go:43-68 | the intended handler serves the decoded bytes typed by the `m` tag |
| NostrhTools.BarWidth | nostrh/cmd/tools/displayPercent.go:17-22 | the width is min(terminal width - 12, 100) |
| NostrhTools.Bar | nostrh/cmd/tools/displayPercent.go:28-35 | max(width, 0) characters, position j '=' exactly when j < progress and ' ' otherwise |
| NostrhTools.BuildBar | nostrh/cmd/tools/displayPercent.go:28-35 | the inner loop builds that bar |
| NostrhTools.RenderFrame | nostrh/cmd/tools/displayPercent.go:28-38 | the bar loop and the printf give the poll's frame |
| NostrhTools.PrintedStart | nostrh/cmd/tools/displayPercent.go:24 | before the loop nothing is printed and nothing has finished |
| NostrhTools.Emit | nostrh/cmd/tools/displayPercent.go:38-43 | one pass of the loop: the frame is printed, and the loop stops, ending the line, exactly when that poll has finished |
| NostrhTools.PrintedAll | nostrh/cmd/tools/displayPercent.go:24-46 | a loop that ran through every poll printed every frame and met no finished poll |
| NostrhTools.DisplayProgressBar | nostrh/cmd/tools/displayPercent.go:10-47 | the output is the frames up to the first finished poll; it finishes exactly when some poll has reached its total |
| NostrhTools.NoNewlineInFrames | nostrh/cmd/tools/displayPercent.go:38 | no frame holds a newline |
| NostrhTools.OutputEndsOnDone | nostrh/cmd/tools/displayPercent.go:38-43 | with newline-free frames, the output has a newline exactly when the loop broke out, and then ends with it |
| NostrhTools.ProgressEndsOnDone | nostrh/cmd/tools/displayPercent.go:24-46 | what the bar prints ends its line exactly when the count reached the total |

## Left out

- Network and HTTP I/O are parameters: relay connection and publishing, `SimplePool.QuerySingle`, `http.Client.Do`, gin routing and its middleware. Only the response gin writes after a recovered panic (500, empty body) is modelled.
- Concurrency is left out: goroutines, the wait group, the mutex and the racy `wg.Add` in the progress goroutine. Publish and upload run as sequential loops in queue order.
- Signing, event IDs and `nostr.GetPublicKey` are oracle functions, as are NIP-19 encoding and decoding (`nip19.EncodeEvent`, `nip19.Decode`).
- The files `cmd/tools/resolvePubKey.go`, `hostr/main.go`, `cli/main.go`, the key stores and `nostrh/cmd/paths/paths.go` are not part of this model.
- HTML parsing and rendering are oracles. The document is a value tree; the source mutates `n.Attr[i].Val` in place, and the model returns the rewritten tree instead, so aliasing between nodes is not modelled.
- `url.Parse` is an oracle in hostr's `isExternalURL`. The multipart body and its boundary, `MarshalJSON` and the JSON decoding of `MediaResult` are oracles or inputs.
- File system:
  - `os.ReadFile`, `os.Open`, `os.OpenFile` and `os.WriteFile` are maps or values.
  - The relay file's content is a string.
  - Write and open errors of `AddRelay` and `RemoveRelay` other than a missing settings directory or file are left out.
  - The error `os.ReadFile` returns for a missing relay file is its Linux text (`open <path>: no such file or directory`); for index.html and the text files the error is an oracle's.
- `filepath.Walk`, `Join` and `Rel` are a given entry sequence and given functions.
- The stdin prompt for a missing identifier is one given line of input; the prompt text is not modelled.
- `Start` panicking when `GetAllRelays` fails at start-up is left out: the gateway is built from a relay list that was read.
- The progress bar's float computation of `progress` is an input, and so are `term.GetSize` and its panic. `time.Sleep` is left out. The shared counters are a given finite sequence of polls, so a loop that never finishes is a sequence with no finished poll.
- NostrhTools.Frame: the `%d` verb is modelled for Go `int` without its 64-bit bound.
- Error messages that embed a Go error with `%w` keep the fixed text and the inner message.
- HostrMedia.FilePathToUploadMediaRequest: the signing and marshalling errors are stated as their fixed text followed by the inner message. The source formats those errors with `%d`, which Go prints as a `%!d(...)` rendering of the error value; that rendering is not modelled.
- HostrMedia.FilePathToUploadMediaRequest: the errors from creating the form file, writing the field, closing the multipart writer and building the request (media.go:169, 180, 186, 211) are not modelled. The model treats the in-memory multipart writer and `http.NewRequest` on the given endpoint as never failing.
- Strings are sequences of Unicode characters. Where the code tests or slices Go byte lengths, the model measures the string's UTF-8 bytes (`Base.Utf8`): the `nevent` and `npub` tests of the hostr gateway and the relay file's `len(line) > 1`.
- GetReplaceableIdentifier (in HostrDeploy and in HostrNostr): the model drops the path's first character where Go's `filePath[1:]` drops its first byte. The two agree when the first character is ASCII (HostrDeploy.IdentifierBytes). For a path starting with a multi-byte character Go builds a string that is not valid UTF-8, and that string is not modelled.
- HandleReplaceable: dropping the first character of the tag parameter is Go's `[1:]` only because gin's catch-all parameter starts with '/' (HostrServer.DTagBytes); a parameter with a multi-byte first character cannot come from gin and is not modelled at the byte level.
- Base.TrimSpace and Base.ToLower: ASCII only, with no Unicode white space or case folding.
- The `consts` package is not part of this model: its kinds are an abstract record of nine integers, assumed distinct where a lemma needs it. Each generation has its own package; the one lemma comparing them requires equal plain HTML, CSS and JS numbers.

## Findings

| source | as written | input that shows it | evidently intended | confidence | as-written member | corrected member |
|---|---|---|---|---|---|---|
| hostr/cmd/tools/getContentType.go:15-20 | `GetFirst` returns nil when a text-file event has no `type` tag, and `Value()` is called on that nil tag | a kind-1064 event with no tags | the "Content-Type not specified" error that an empty type gets | not executed | HostrTools.UntypedTextFileDereferencesNil | HostrTools.IntendedContentType |
| nostrh/cmd/server/server.go:45-46 | the media-type tag is read with the key `e`, the same as the data-event tag | a picture event with tags `["e", "d1"]`, `["m", "image/png"]` whose data event holds base64 bytes: served with the content type "d1" | the `m` tag, as hostr's gateway reads it | not executed | NostrhServer.PictureTypeIsEventId | NostrhServer.IntendedPicture |
| nostrh/cmd/server/server.go:37-75 | the text-kind and unknown-kind branches do not return, so the final 404 write always follows | an HTML event found by its ID: the client gets status 200 and the page followed by "Not Found" | one write per request, as hostr's gateway does | not executed | NostrhServer.FoundPageGetsNotFound | NostrhServer.IntendedMatchesHostr |
