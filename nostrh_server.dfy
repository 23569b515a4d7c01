/** nostrh/cmd/server/server.go: the `/e/:idHex` route of the older nostrh
    gateway, as the ordered list of writes its handler makes to the gin
    context. The handler has no `return` after its successful writes or
    its unknown-kind 404, so those fall through to the unconditional 404
    at its end; only the picture branch's errors return early. */
module NostrhServer {
  import opened Base
  import opened Nostr
  import opened Serving
  import HostrServer
  import Base64

  /** The content types of the three text kinds, without a charset. */
  const HtmlType := "text/html"
  const CssType := "text/css"
  const JsType := "text/javascript"

  /** The writes for an event found by the query (`None` when nil), with
      the media-type tag looked up under `typeKey`. */
  function EventWrites(K: KindConsts, relays: seq<string>, query: Query, ev: Option<Event>, typeKey: string): seq<Response> {
    if ev.None? then [Status(404)]
    else if ev.value.kind == K.html then [Data(200, HtmlType, ev.value.content), Status(404)]
    else if ev.value.kind == K.css then [Data(200, CssType, ev.value.content), Status(404)]
    else if ev.value.kind == K.js then [Data(200, JsType, ev.value.content), Status(404)]
    else if ev.value.kind == K.picture then
      var p := Picture(relays, query, ev.value, typeKey);
      if p.status == 200 then [p, Status(404)] else [p]
    else [Status(404), Status(404)]
  }

  /** The handler as written: the ID parameter is used verbatim, and the
      picture's media type is read from the `e` tag again. */
  function Writes(K: KindConsts, relays: seq<string>, query: Query, idHex: string): (w: seq<Response>)
    ensures 1 <= |w| <= 2
    ensures w[|w| - 1].status != 200
  {
    var ev := query(relays, HostrServer.EventFilter(K, idHex));
    var w := EventWrites(K, relays, query, ev, "e");
    assert ev.Some? && ev.value.kind == K.picture ==> Picture(relays, query, ev.value, "e").status in {200, 400, 404};
    w
  }

  /** What the client receives from a list of writes: gin sends the status
      and content type of the first write, ignores the status of later
      ones (warning that the headers were already written) and appends
      their bodies. */
  datatype Received = Received(status: int, contentType: string, body: seq<Body>)

  function Receive(w: seq<Response>): (r: Received)
    requires |w| >= 1
    ensures r.status == w[0].status && r.contentType == w[0].contentType && |r.body| == |w|
    ensures forall i :: 0 <= i < |w| ==> r.body[i] == w[i].body
  {
    Received(w[0].status, w[0].contentType, seq(|w|, i requires 0 <= i < |w| => w[i].body))
  }

  /** Every write list ends in an error write: a page that is found is
      still followed by a 404 write, whose "Not Found" text the client gets
      after the page. */
  lemma FoundPageGetsNotFound(K: KindConsts, relays: seq<string>, query: Query, idHex: string)
    requires K.Distinct()
    requires var ev := query(relays, HostrServer.EventFilter(K, idHex));
      ev.Some? && ev.value.kind in {K.html, K.css, K.js}
    ensures var ev := query(relays, HostrServer.EventFilter(K, idHex));
      Receive(Writes(K, relays, query, idHex)) ==
        Received(200, if ev.value.kind == K.html then HtmlType else if ev.value.kind == K.css then CssType else JsType,
                 [Bytes(ev.value.content), Text("Not Found")])
  {
    DistinctKinds(K);
    var w := Writes(K, relays, query, idHex);
    assert |w| == 2;
  }

  /** As written, a served picture's media type is the value of its `e`
      tag, which is the data event's ID: for the picture event with tags
      `["e", id]` and `["m", "image/png"]` the response type is `id`. */
  lemma PictureTypeIsEventId(K: KindConsts, relays: seq<string>, query: Query, idHex: string, data: seq<byte>)
    requires K.Distinct()
    requires var ev := query(relays, HostrServer.EventFilter(K, idHex));
      ev.Some? && ev.value.kind == K.picture && ev.value.tags == [["e", "d1"], ["m", "image/png"]]
    requires var d := query(relays, DataFilter("d1")); d.Some? && d.value.content == Base64.Encode(data)
    ensures Writes(K, relays, query, idHex)[0] == Data(200, "d1", data)
    ensures Receive(Writes(K, relays, query, idHex)).contentType == "d1"
  {
    DistinctKinds(K);
    var ev := query(relays, HostrServer.EventFilter(K, idHex)).value;
    assert StartsWith(["e", "d1"], ["e"]);
    assert GetFirst(ev.tags, ["e"]) == Some(["e", "d1"]);
    PictureRoundTrip(relays, query, ev, "e", data);
  }

  /** The handler as evidently intended: the media type from the `m` tag,
      and a return after every write, as the later hostr gateway does. */
  function WritesIntended(K: KindConsts, relays: seq<string>, query: Query, idHex: string): (w: seq<Response>)
    ensures |w| == 1
  {
    var ev := query(relays, HostrServer.EventFilter(K, idHex));
    var w := EventWrites(K, relays, query, ev, "m");
    [w[0]]
  }

  /** The intended handler writes once, and for the same found event what
      it writes is what the hostr gateway's switch after the query
      (`ServeEvent`) answers, except that the text types carry no charset. */
  lemma IntendedMatchesHostr(K: KindConsts, relays: seq<string>, query: Query, idHex: string)
    ensures var ev := query(relays, HostrServer.EventFilter(K, idHex));
      var mine := WritesIntended(K, relays, query, idHex)[0];
      var hostr := HostrServer.ServeEvent(K, relays, query, ev);
      mine.status == hostr.status && mine.body == hostr.body &&
      (mine.contentType == hostr.contentType || mine.contentType + "; charset=utf-8" == hostr.contentType)
  {
    assert HtmlType + "; charset=utf-8" == HostrServer.HtmlType;
    assert CssType + "; charset=utf-8" == HostrServer.CssType;
    assert JsType + "; charset=utf-8" == HostrServer.JsType;
  }

  /** Over the whole `/e` route the intended handler agrees with hostr's,
      in the same sense, on every parameter hostr takes as a raw ID (six
      bytes or more, not a `nevent`); on a shorter one hostr panics where
      this handler runs the query. */
  lemma IntendedMatchesHostrRoute(K: KindConsts, relays: seq<string>, query: Query, decode: Decoder, idHex: string)
    ensures HostrServer.NeventLookup(decode, idHex) == HostrServer.Key(idHex, []) ==>
      var mine := WritesIntended(K, relays, query, idHex)[0];
      var hostr := HostrServer.EventRoute(K, relays, query, decode, idHex);
      mine.status == hostr.status && mine.body == hostr.body &&
      (mine.contentType == hostr.contentType || mine.contentType + "; charset=utf-8" == hostr.contentType)
    ensures |Utf8(idHex)| < 6 ==>
      HostrServer.EventRoute(K, relays, query, decode, idHex) == Recovered &&
      WritesIntended(K, relays, query, idHex)[0].status != 500
  {
    IntendedMatchesHostr(K, relays, query, idHex);
    HostrServer.EventStatuses(K, relays, query, query(relays, HostrServer.EventFilter(K, idHex)));
    assert relays + [] == relays;
  }

  /** The intended handler serves a picture as the bytes its data event
      encodes, typed by the `m` tag. */
  lemma IntendedPicture(K: KindConsts, relays: seq<string>, query: Query, idHex: string, data: seq<byte>)
    requires K.Distinct()
    requires var ev := query(relays, HostrServer.EventFilter(K, idHex));
      ev.Some? && ev.value.kind == K.picture && ev.value.tags == [["e", "d1"], ["m", "image/png"]]
    requires var d := query(relays, DataFilter("d1")); d.Some? && d.value.content == Base64.Encode(data)
    ensures WritesIntended(K, relays, query, idHex) == [Data(200, "image/png", data)]
  {
    DistinctKinds(K);
    var ev := query(relays, HostrServer.EventFilter(K, idHex)).value;
    assert StartsWith(["e", "d1"], ["e"]);
    assert GetFirst(ev.tags, ["e"]) == Some(["e", "d1"]);
    assert !StartsWith(["e", "d1"], ["m"]);
    assert StartsWith(["m", "image/png"], ["m"]);
    assert GetFirst(ev.tags, ["m"]) == Some(["m", "image/png"]) by {
      assert ev.tags[1..] == [["m", "image/png"]];
    }
    PictureRoundTrip(relays, query, ev, "m", data);
  }
}
