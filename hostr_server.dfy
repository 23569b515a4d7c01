/** hostr/cmd/server/server.go: the two routes of the hostr gateway.
    `/e/:hex_or_nevent` serves an immutable event found by its ID (given as
    hex or inside a NIP-19 `nevent`), and the `/p/:pubKey/d/` route with its
    `*dTag` catch-all serves the replaceable event of an author with a `d`
    tag. The relay pool's query and the NIP-19 decoder are oracles. */
module HostrServer {
  import opened Base
  import opened Nostr
  import opened Serving

  /** The typed responses of the three text kinds on both routes. */
  const HtmlType := "text/html; charset=utf-8"
  const CssType := "text/css; charset=utf-8"
  const JsType := "text/javascript; charset=utf-8"

  /** Where a request's parameter leads: a response already decided (an
      error or a panic), or the key to query with and the relay hints the
      parameter carried. */
  datatype Lookup = Answered(resp: Response) | Key(key: string, hints: seq<string>)

  /** The ID step of `/e`: the parameter's first six bytes are sliced even
      when it has fewer (a panic), a `nevent` is decoded and must be an
      event pointer, and anything else is the hex ID itself. Lengths and
      slices are of the UTF-8 bytes, as in Go. */
  function NeventLookup(decode: Decoder, param: string): (r: Lookup)
    ensures r.Key? <==>
      |Utf8(param)| >= 6 &&
      (Utf8(param)[..6] != Utf8("nevent") || (decode(param).Ok? && decode(param).value.EventPointer?))
    ensures |Utf8(param)| < 6 ==> r == Answered(Recovered)
    ensures r.Key? && Utf8(param)[..6] != Utf8("nevent") ==> r == Key(param, [])
    ensures r.Key? && Utf8(param)[..6] == Utf8("nevent") ==>
      r.key == decode(param).value.id && r.hints == decode(param).value.relays
    ensures r.Answered? && |Utf8(param)| >= 6 ==> r.resp.status == 400
  {
    if |Utf8(param)| < 6 then Answered(Recovered)
    else if Utf8(param)[..6] == Utf8("nevent") then
      match decode(param)
      case Err(_) => Answered(String(400, "Invalid nevent"))
      case Ok(EventPointer(id, relays, _)) => Key(id, relays)
      case Ok(_) => Answered(String(400, "Failed to decode nevent"))
    else Key(param, [])
  }

  /** The `/e` filter: the four immutable kinds and the one ID. */
  function EventFilter(K: KindConsts, id: string): (f: Filter)
    ensures f.ids == [id] && f.authors == [] && f.tags == map[]
    ensures forall k :: k in f.kinds <==> k in {K.html, K.css, K.js, K.picture}
  {
    Filter([K.html, K.css, K.js, K.picture], [id], [], map[])
  }

  /** The `/e` switch over the event found, with the picture branch's
      second query going to the same relays. */
  function ServeEvent(K: KindConsts, relays: seq<string>, query: Query, ev: Option<Event>): Response {
    if ev.None? then Status(404)
    else if ev.value.kind == K.html then Data(200, HtmlType, ev.value.content)
    else if ev.value.kind == K.css then Data(200, CssType, ev.value.content)
    else if ev.value.kind == K.js then Data(200, JsType, ev.value.content)
    else if ev.value.kind == K.picture then Picture(relays, query, ev.value, "m")
    else Status(404)
  }

  /** The whole `/e` route for a gateway holding `relays`: the ID step's
      own answer, or the switch over what the relays, grown by the
      parameter's hints, return for the ID. */
  function EventRoute(K: KindConsts, relays: seq<string>, query: Query, decode: Decoder, param: string): Response {
    match NeventLookup(decode, param)
    case Answered(resp) => resp
    case Key(id, hints) => ServeEvent(K, relays + hints, query, query(relays + hints, EventFilter(K, id)))
  }

  /** The author step of `/p`: the first four bytes are sliced even when
      the key has fewer (a panic), an `npub` is decoded (its value is
      asserted to be a string, which only a public key is), and anything
      else is the hex key itself. Lengths and slices are of the UTF-8
      bytes, as in Go. */
  function NpubLookup(decode: Decoder, pubKey: string): (r: Lookup)
    ensures r.Key? <==>
      |Utf8(pubKey)| >= 4 &&
      (Utf8(pubKey)[..4] != Utf8("npub") || (decode(pubKey).Ok? && decode(pubKey).value.PublicKey?))
    ensures |Utf8(pubKey)| < 4 ==> r == Answered(Recovered)
    ensures r.Key? ==> r.hints == []
    ensures r.Key? && Utf8(pubKey)[..4] != Utf8("npub") ==> r.key == pubKey
    ensures r.Key? && Utf8(pubKey)[..4] == Utf8("npub") ==> r.key == decode(pubKey).value.hex
    ensures r.Answered? ==> r.resp == Recovered || r.resp == String(400, "Invalid npub")
  {
    if |Utf8(pubKey)| < 4 then Answered(Recovered)
    else if Utf8(pubKey)[..4] == Utf8("npub") then
      match decode(pubKey)
      case Err(_) => Answered(String(400, "Invalid npub"))
      case Ok(PublicKey(hex)) => Key(hex, [])
      case Ok(_) => Answered(Recovered)
    else Key(pubKey, [])
  }

  /** The `/p` filter: the three replaceable kinds, the one author and the
      one `d` value. */
  function ReplaceableFilter(K: KindConsts, author: string, dTag: string): (f: Filter)
    ensures f.ids == [] && f.authors == [author] && f.tags == map["d" := [dTag]]
    ensures forall k :: k in f.kinds <==> k in {K.replaceableHtml, K.replaceableCss, K.replaceableJs}
  {
    Filter([K.replaceableHtml, K.replaceableCss, K.replaceableJs], [], [author], map["d" := [dTag]])
  }

  /** The `/p` switch: the replaceable text kinds only. */
  function ServeReplaceable(K: KindConsts, ev: Option<Event>): Response {
    if ev.None? then Status(404)
    else if ev.value.kind == K.replaceableHtml then Data(200, HtmlType, ev.value.content)
    else if ev.value.kind == K.replaceableCss then Data(200, CssType, ev.value.content)
    else if ev.value.kind == K.replaceableJs then Data(200, JsType, ev.value.content)
    else Status(404)
  }

  /** The `/p` handler, given the relay list. The `*dTag` parameter starts
      with the '/' gin keeps, which is dropped; an empty one would panic. */
  function HandleReplaceable(K: KindConsts, relays: seq<string>, query: Query, decode: Decoder,
                             pubKey: string, dTagParam: string): (r: Response)
    ensures NpubLookup(decode, pubKey).Answered? ==> r == NpubLookup(decode, pubKey).resp
    ensures NpubLookup(decode, pubKey).Key? && dTagParam == [] ==> r == Recovered
    ensures NpubLookup(decode, pubKey).Key? && dTagParam != [] ==>
      r == ServeReplaceable(K, query(relays, ReplaceableFilter(K, NpubLookup(decode, pubKey).key, dTagParam[1..])))
  {
    match NpubLookup(decode, pubKey)
    case Answered(resp) => resp
    case Key(author, _) =>
      if dTagParam == [] then Recovered
      else ServeReplaceable(K, query(relays, ReplaceableFilter(K, author, dTagParam[1..])))
  }

  /** The `*dTag` parameter gin passes starts with '/', so dropping its
      first character is Go's `[1:]`, which drops its first byte. */
  lemma DTagBytes(dTagParam: string)
    requires dTagParam != [] && dTagParam[0] == '/'
    ensures Utf8(dTagParam[1..]) == Utf8(dTagParam)[1..]
  {
    DropAsciiHead(dTagParam);
  }

  /** Lengths count bytes: an ID of two three-byte characters has six
      bytes, so it is looked up as it stands instead of panicking, while a
      five-byte ASCII one panics. */
  lemma ByteLengthLookup(decode: Decoder)
    ensures NeventLookup(decode, "\U{65E5}\U{672C}") == Key("\U{65E5}\U{672C}", [])
    ensures NeventLookup(decode, "abcde") == Answered(Recovered)
  {
    var id := "\U{65E5}\U{672C}";
    assert Utf8(id) == Utf8Char(id[0]) + Utf8(id[1..]);
    Utf8AsciiPrefix(id, "nevent");
  }

  /** The text kinds on `/e`: status 200, the charset-qualified type of the
      file type, and the content verbatim; a missing event or a kind `/e`
      does not serve is 404. */
  lemma ServeEventKinds(K: KindConsts, relays: seq<string>, query: Query, ev: Option<Event>)
    requires K.Distinct()
    ensures ev.Some? && ev.value.kind == K.html ==> ServeEvent(K, relays, query, ev) == Data(200, HtmlType, ev.value.content)
    ensures ev.Some? && ev.value.kind == K.css ==> ServeEvent(K, relays, query, ev) == Data(200, CssType, ev.value.content)
    ensures ev.Some? && ev.value.kind == K.js ==> ServeEvent(K, relays, query, ev) == Data(200, JsType, ev.value.content)
    ensures ev.Some? && ev.value.kind == K.picture ==> ServeEvent(K, relays, query, ev) == Picture(relays, query, ev.value, "m")
    ensures ev.None? || ev.value.kind !in {K.html, K.css, K.js, K.picture} ==> ServeEvent(K, relays, query, ev) == Status(404)
  {
    DistinctKinds(K);
  }

  /** The routes serve disjoint kinds: `/e` never serves a replaceable
      event and `/p` never serves an immutable one or a picture. */
  lemma RoutesServeDisjointKinds(K: KindConsts, relays: seq<string>, query: Query, ev: Event)
    requires K.Distinct()
    ensures ev.kind in {K.replaceableHtml, K.replaceableCss, K.replaceableJs} ==>
      ServeEvent(K, relays, query, Some(ev)) == Status(404)
    ensures ev.kind in {K.html, K.css, K.js, K.picture} ==> ServeReplaceable(K, Some(ev)) == Status(404)
    ensures ServeReplaceable(K, Some(ev)).status == 200 <==>
      ev.kind in {K.replaceableHtml, K.replaceableCss, K.replaceableJs}
  {
    DistinctKinds(K);
  }

  /** The switch after the query answers 200, 400 or 404, and every
      failure carries its status text. */
  lemma EventStatuses(K: KindConsts, relays: seq<string>, query: Query, ev: Option<Event>)
    ensures ServeEvent(K, relays, query, ev).status in {200, 400, 404}
    ensures ServeEvent(K, relays, query, ev).status != 200 ==>
      ServeEvent(K, relays, query, ev) == Status(ServeEvent(K, relays, query, ev).status)
  {
    if ev.Some? && ev.value.kind == K.picture {
      var p := Picture(relays, query, ev.value, "m");
      assert p.status in {200, 400, 404};
    }
  }

  /** The ID step answers on its own only with the 500 of a panic on a
      short parameter or one of the two literal nevent messages. */
  lemma LookupAnswers(decode: Decoder, param: string)
    ensures var l := NeventLookup(decode, param);
      l.Answered? ==>
        l.resp == Recovered || l.resp == String(400, "Invalid nevent") ||
        l.resp == String(400, "Failed to decode nevent")
  {
    if |Utf8(param)| >= 6 && Utf8(param)[..6] == Utf8("nevent") {
      match decode(param)
      case Err(_) =>
      case Ok(p) =>
    }
  }

  /** The whole `/e` route answers 200, 400, 404 or 500: a failure is the
      panic's 500, a literal nevent message, or a status with its text. */
  lemma EventRouteStatuses(K: KindConsts, relays: seq<string>, query: Query, decode: Decoder, param: string)
    ensures EventRoute(K, relays, query, decode, param).status in {200, 400, 404, 500}
    ensures var r := EventRoute(K, relays, query, decode, param);
      r.status != 200 ==>
        r == Recovered || r == String(400, "Invalid nevent") || r == String(400, "Failed to decode nevent") ||
        r == Status(r.status)
  {
    LookupAnswers(decode, param);
    match NeventLookup(decode, param)
    case Answered(_) =>
    case Key(id, hints) =>
      EventStatuses(K, relays + hints, query, query(relays + hints, EventFilter(K, id)));
  }

  /** The gateway's state: the relay list read at start, which `/e`
      extends with every `nevent`'s relay hints. */
  class Gateway {
    const K: KindConsts
    const query: Query
    const decode: Decoder
    var allRelays: seq<string>

    constructor (K: KindConsts, query: Query, decode: Decoder, allRelays: seq<string>)
      ensures this.K == K && this.query == query && this.decode == decode
      ensures this.allRelays == allRelays
    {
      this.K := K;
      this.query := query;
      this.decode := decode;
      this.allRelays := allRelays;
    }

    /** The `/e` handler. The hints are appended before the query and stay
        in the list for every later request. */
    method HandleEvent(hexOrNevent: string) returns (resp: Response)
      modifies this`allRelays
      ensures var l := NeventLookup(decode, hexOrNevent);
        (l.Answered? ==> resp == l.resp && allRelays == old(allRelays)) &&
        (l.Key? ==>
           allRelays == old(allRelays) + l.hints &&
           resp == ServeEvent(K, allRelays, query, query(allRelays, EventFilter(K, l.key))))
      ensures old(allRelays) <= allRelays
      ensures resp == EventRoute(K, old(allRelays), query, decode, hexOrNevent)
    {
      var ids: seq<string> := [];
      if |Utf8(hexOrNevent)| < 6 {
        return Recovered;
      }
      if Utf8(hexOrNevent)[..6] == Utf8("nevent") {
        var res := decode(hexOrNevent);
        if res.Err? {
          return String(400, "Invalid nevent");
        }
        if !res.value.EventPointer? {
          return String(400, "Failed to decode nevent");
        }
        ids := ids + [res.value.id];
        allRelays := allRelays + res.value.relays;
      } else {
        ids := ids + [hexOrNevent];
      }
      assert ids == EventFilter(K, NeventLookup(decode, hexOrNevent).key).ids;
      var ev := query(allRelays, Filter([K.html, K.css, K.js, K.picture], ids, [], map[]));
      resp := ServeEvent(K, allRelays, query, ev);
    }
  }

  /** Relay hints accumulate: after two `nevent` requests the list holds
      the start list, then the first request's hints, then the second's. */
  method HintsPersist(g: Gateway, first: string, second: string) returns (r1: Response, r2: Response)
    modifies g`allRelays
    requires NeventLookup(g.decode, first).Key? && NeventLookup(g.decode, second).Key?
    ensures g.allRelays ==
      old(g.allRelays) + NeventLookup(g.decode, first).hints + NeventLookup(g.decode, second).hints
  {
    r1 := g.HandleEvent(first);
    r2 := g.HandleEvent(second);
  }
}
