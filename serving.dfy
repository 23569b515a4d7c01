/** What the two servers' gin handlers write, and the picture lookup they
    share: a picture event names its data event in one tag and its media
    type in another, and the data event holds the bytes in base64. */
module Serving {
  import opened Base
  import opened Nostr
  import Base64

  /** A response body: text written with `ctx.String` or bytes written with
      `ctx.Data`. */
  datatype Body = Text(text: string) | Bytes(data: seq<byte>)

  datatype Response = Response(status: int, contentType: string, body: Body)

  /** The content type gin gives `ctx.String`. */
  const PlainText := "text/plain; charset=utf-8"

  /** `http.StatusText` for the codes the handlers use. */
  function StatusText(code: int): string {
    if code == 200 then "OK"
    else if code == 400 then "Bad Request"
    else if code == 404 then "Not Found"
    else if code == 500 then "Internal Server Error"
    else ""
  }

  /** `ctx.String(code, text)`. */
  function String(code: int, text: string): Response {
    Response(code, PlainText, Text(text))
  }

  /** `ctx.Data(code, contentType, data)`. */
  function Data(code: int, contentType: string, data: seq<byte>): Response {
    Response(code, contentType, Bytes(data))
  }

  /** `ctx.String(code, http.StatusText(code))`. */
  function Status(code: int): Response {
    String(code, StatusText(code))
  }

  /** What gin's recovery middleware writes after a handler panics: status
      500 and no body. */
  const Recovered := Response(500, "", Bytes([]))

  /** The filter that fetches a picture's data event by its ID. */
  function DataFilter(id: string): Filter {
    Filter([], [id], [], map[])
  }

  /** The picture branch: the `e` tag names the data event and the tag
      found with `typeKey` gives the media type; either tag missing is 400,
      a missing data event is 404, undecodable data is 400, and otherwise
      the decoded bytes are served with that type. */
  function Picture(relays: seq<string>, query: Query, ev: Event, typeKey: string): (r: Response)
    ensures r.status == 200 <==>
      GetFirst(ev.tags, ["e"]).Some? && GetFirst(ev.tags, [typeKey]).Some? &&
      query(relays, DataFilter(Value(GetFirst(ev.tags, ["e"]).value))).Some? &&
      Base64.Decode(query(relays, DataFilter(Value(GetFirst(ev.tags, ["e"]).value))).value.content).Ok?
    ensures r.status in {200, 400, 404}
    ensures GetFirst(ev.tags, ["e"]).None? || GetFirst(ev.tags, [typeKey]).None? ==> r == Status(400)
    ensures GetFirst(ev.tags, ["e"]).Some? && GetFirst(ev.tags, [typeKey]).Some? ==>
      var data := query(relays, DataFilter(Value(GetFirst(ev.tags, ["e"]).value)));
      (data.None? ==> r == Status(404)) &&
      (data.Some? && Base64.Decode(data.value.content).Err? ==> r == Status(400)) &&
      (data.Some? && Base64.Decode(data.value.content).Ok? ==>
         r == Data(200, Value(GetFirst(ev.tags, [typeKey]).value), Base64.Decode(data.value.content).value))
  {
    var eTag := GetFirst(ev.tags, ["e"]);
    var mTag := GetFirst(ev.tags, [typeKey]);
    if eTag.None? || mTag.None? then Status(400)
    else
      match query(relays, DataFilter(Value(eTag.value)))
      case None => Status(404)
      case Some(evData) =>
        match Base64.Decode(evData.content)
        case Err(_) => Status(400)
        case Ok(data) => Data(200, Value(mTag.value), data)
  }

  /** A picture whose data event holds the base64 of some bytes is served
      as exactly those bytes, with the type tag's value as media type. */
  lemma PictureRoundTrip(relays: seq<string>, query: Query, ev: Event, typeKey: string, b: seq<byte>)
    requires GetFirst(ev.tags, ["e"]).Some? && GetFirst(ev.tags, [typeKey]).Some?
    requires var data := query(relays, DataFilter(Value(GetFirst(ev.tags, ["e"]).value)));
      data.Some? && data.value.content == Base64.Encode(b)
    ensures Picture(relays, query, ev, typeKey) == Data(200, Value(GetFirst(ev.tags, [typeKey]).value), b)
  {
    Base64.DecodeEncode(b);
  }
}
