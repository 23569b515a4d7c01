/** hostr/cmd/deploy/nostr.go: the event helpers of the deploy package in
    their second copy. The signing helper, the kind table and the
    identifier rule are written out again here as that file writes them,
    and shown to agree with the copies in deploy.go. */
module HostrNostr {
  import opened Base
  import opened Nostr
  import Fanout
  import HostrDeploy

  /** getEvent: sign an event stamped `now`; a signing failure is an error. */
  function GetEvent(sign: Signer, now: int, priKey: string, pubKey: string, content: seq<byte>,
                    kind: int, tags: seq<Tag>): (r: Result<Event>)
    ensures r.Ok? <==> sign(priKey, Unsigned(pubKey, now, kind, tags, content)).Ok?
    ensures r.Ok? ==>
      r.value.pubkey == pubKey && r.value.kind == kind && r.value.content == content &&
      r.value.tags == tags && r.value.createdAt == now &&
      r.value.id == sign(priKey, Unsigned(pubKey, now, kind, tags, content)).value.id
    ensures r.Err? ==> r.msg == sign(priKey, Unsigned(pubKey, now, kind, tags, content)).msg
  {
    var ev := Unsigned(pubKey, now, kind, tags, content);
    match sign(priKey, ev)
    case Err(e) => Err(e)
    case Ok(s) => Ok(ev.(id := s.id, sig := s.sig))
  }

  /** The signing inputs every event of a run shares: go-nostr's `Sign`,
      the run's timestamp, and the key pair. */
  datatype Signing = Signing(sign: Signer, now: int, priKey: string, pubKey: string)

  /** isValidBasicFileType. */
  predicate IsValidBasicFileType(s: string) {
    HasSuffix(s, ".html") || HasSuffix(s, ".css") || HasSuffix(s, ".js")
  }

  /** pathToKind as nostr.go writes it, html branch inverted as well. */
  function PathToKind(K: KindConsts, path: string, isReplaceable: bool): Result<int> {
    var separatedPath := Split(path, '.');
    var ex := separatedPath[|separatedPath| - 1];
    match ex
    case "html" => if isReplaceable then Ok(K.html) else Ok(K.replaceableHtml)
    case "css" => if isReplaceable then Ok(K.replaceableCss) else Ok(K.css)
    case "js" => if isReplaceable then Ok(K.replaceableJs) else Ok(K.js)
    case _ => Err("Invalid path")
  }

  /** getReplaceableIdentifier. */
  function GetReplaceableIdentifier(indexHtmlIdentifier: string, filePath: string): string
    requires |filePath| >= 1
  {
    indexHtmlIdentifier + "/" + filePath[1..]
  }

  /** The two copies of the helpers compute the same results. */
  lemma AgreesWithDeploy(env: HostrDeploy.Env, priKey: string, pubKey: string, content: seq<byte>,
                         kind: int, tags: seq<Tag>, path: string, isReplaceable: bool, id: string)
    ensures GetEvent(env.sign, env.now, priKey, pubKey, content, kind, tags)
         == HostrDeploy.GetEvent(env, priKey, pubKey, content, kind, tags)
    ensures IsValidBasicFileType(path) == HostrDeploy.IsValidFileType(path)
    ensures PathToKind(env.K, path, isReplaceable) == HostrDeploy.PathToKind(env.K, path, isReplaceable)
    ensures |path| >= 1 ==> GetReplaceableIdentifier(id, path) == HostrDeploy.GetReplaceableIdentifier(id, path)
  {
  }

  /** Every basic file type has a kind: a path that passes the file-type
      filter is never rejected by pathToKind. */
  lemma {:induction false} BasicFileTypeHasKind(K: KindConsts, path: string, isReplaceable: bool)
    requires IsValidBasicFileType(path)
    ensures PathToKind(K, path, isReplaceable).Ok?
  {
    HostrDeploy.PathToKindTable(K, path, isReplaceable);
  }

  /** The package's queue and relay list. */
  class EventQueue {
    var nostrEventsQueue: seq<Event>
    var allRelays: seq<string>

    constructor ()
      ensures nostrEventsQueue == [] && allRelays == []
    {
      nostrEventsQueue := [];
      allRelays := [];
    }

    /** addNostrEventQueue: one event at the end, earlier ones untouched;
        the file path is only printed. */
    method AddNostrEventQueue(event: Event, filePath: string)
      modifies this`nostrEventsQueue
      ensures nostrEventsQueue == old(nostrEventsQueue) + [event]
    {
      nostrEventsQueue := nostrEventsQueue + [event];
    }

    /** publishEventsFromQueue, sequentialised: see the deploy.go copy. */
    method PublishEventsFromQueue(isReplaceable: bool, encodeEvent: NeventEncoder,
                                  connect: Fanout.Connector, publish: Fanout.Publisher)
      returns (eventId: string, encoded: string, attempts: seq<seq<Fanout.Attempt>>, failureReported: bool)
      requires |nostrEventsQueue| > 0
      ensures eventId == nostrEventsQueue[|nostrEventsQueue| - 1].id
      ensures !failureReported
      ensures encoded != "" ==>
        !isReplaceable &&
        encodeEvent(eventId, allRelays, nostrEventsQueue[|nostrEventsQueue| - 1].pubkey) == Ok(encoded)
      ensures !isReplaceable && encodeEvent(eventId, allRelays, nostrEventsQueue[|nostrEventsQueue| - 1].pubkey).Ok? ==>
        encoded == encodeEvent(eventId, allRelays, nostrEventsQueue[|nostrEventsQueue| - 1].pubkey).value
      ensures Fanout.FannedOut(attempts, nostrEventsQueue, Fanout.Connected(allRelays, connect), publish)
    {
      var relays := Fanout.ConnectAll(allRelays, connect);
      var allEventsCount := |nostrEventsQueue|;
      var uploadedCount;
      attempts, uploadedCount := Fanout.PublishAll(nostrEventsQueue, relays, publish);
      failureReported := uploadedCount < allEventsCount;
      var indexEvent := nostrEventsQueue[|nostrEventsQueue| - 1];
      encoded := "";
      if !isReplaceable {
        var enc := encodeEvent(indexEvent.id, allRelays, indexEvent.pubkey);
        if enc.Ok? {
          encoded := enc.value;
        }
      }
      eventId := indexEvent.id;
    }
  }
}
