/** The relay fan-out that the three `publishEventsFromQueue` copies share
    line for line: connect to every relay URL, skipping those that fail, then
    publish every queued event to every connected relay, counting one per
    event whatever the individual outcomes. The goroutines, the wait group
    and the mutex are replaced by the sequential order of the loops. */
module Fanout {
  import opened Base
  import opened Nostr

  /** `nostr.RelayConnect(ctx, url)` succeeds: an oracle. */
  type Connector = string -> bool

  /** `relay.Publish(ctx, event)` succeeds: an oracle. */
  type Publisher = (string, Event) -> bool

  /** One publish attempt of one event to one relay, and its outcome. */
  datatype Attempt = Attempt(relay: string, event: Event, ok: bool)

  /** The relays that connect, in the order of the URL list. */
  function Connected(urls: seq<string>, connect: Connector): (r: seq<string>)
    ensures |r| <= |urls|
    ensures forall u :: u in r <==> u in urls && connect(u)
  {
    if urls == [] then []
    else (if connect(urls[0]) then [urls[0]] else []) + Connected(urls[1..], connect)
  }

  /** The connect loop: failed relays are skipped, the others kept in
      order. */
  method ConnectAll(urls: seq<string>, connect: Connector) returns (relays: seq<string>)
    ensures relays == Connected(urls, connect)
  {
    relays := [];
    var i := 0;
    while i < |urls|
      invariant 0 <= i <= |urls|
      invariant Connected(urls, connect) == relays + Connected(urls[i..], connect)
    {
      assert urls[i..][1..] == urls[i + 1..];
      if connect(urls[i]) {
        relays := relays + [urls[i]];
      }
      i := i + 1;
    }
    assert urls[i..] == [];
  }

  /** Every queued event was tried on every connected relay: row `i` holds
      event `i`'s attempts in relay order, each with that relay's outcome. */
  predicate FannedOut(attempts: seq<seq<Attempt>>, queue: seq<Event>, relays: seq<string>, publish: Publisher) {
    |attempts| == |queue| &&
    (forall i :: 0 <= i < |queue| ==> |attempts[i]| == |relays|) &&
    forall i, j :: 0 <= i < |queue| && 0 <= j < |relays| ==>
      attempts[i][j] == Attempt(relays[j], queue[i], publish(relays[j], queue[i]))
  }

  /** The publish loops: row `i` holds the attempts for event `i`, one per
      connected relay in relay order, each with that relay's own outcome, so
      a failure on one relay does not stop the others; the counter ends
      equal to the number of events. */
  method PublishAll(queue: seq<Event>, relays: seq<string>, publish: Publisher)
    returns (attempts: seq<seq<Attempt>>, uploaded: nat)
    ensures uploaded == |queue|
    ensures FannedOut(attempts, queue, relays, publish)
  {
    attempts := [];
    uploaded := 0;
    var i := 0;
    while i < |queue|
      invariant 0 <= i <= |queue|
      invariant uploaded == i && |attempts| == i
      invariant forall k :: 0 <= k < i ==> |attempts[k]| == |relays|
      invariant forall k, j :: 0 <= k < i && 0 <= j < |relays| ==>
        attempts[k][j] == Attempt(relays[j], queue[k], publish(relays[j], queue[k]))
    {
      var row: seq<Attempt> := [];
      var j := 0;
      while j < |relays|
        invariant 0 <= j <= |relays| && |row| == j
        invariant forall m :: 0 <= m < j ==> row[m] == Attempt(relays[m], queue[i], publish(relays[m], queue[i]))
      {
        // A failed publish is printed and the loop continues with the next relay.
        row := row + [Attempt(relays[j], queue[i], publish(relays[j], queue[i]))];
        j := j + 1;
      }
      attempts := attempts + [row];
      uploaded := uploaded + 1;
      i := i + 1;
    }
  }
}
