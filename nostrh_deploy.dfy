/** nostrh/cmd/deploy/deploy.go: the first generation of the deploy command.
    Every readable HTML, CSS or JS asset linked from index.html becomes a
    signed event without tags, queued for publishing, and its reference is
    rewritten to the event's ID; the root document is queued last and its
    ID is the result. */
module NostrhDeploy {
  import opened Base
  import opened Nostr
  import opened Html
  import Fanout
  import HostrDeploy

  /** What the deploy code consults outside itself. */
  datatype Env = Env(
    K: KindConsts,
    fs: map<string, seq<byte>>,         // os.ReadFile: the readable files
    join: (string, string) -> string,   // filepath.Join
    sign: Signer,                       // ev.Sign
    now: int)                           // nostr.Now()

  /** What `Deploy` consults before and after the traversal. */
  datatype World = World(
    parse: Parser,
    render: Renderer,
    readError: string -> string,          // os.ReadFile's error for a path it cannot read
    secret: Result<string>,               // keystore.GetSecret
    publicKey: string -> Result<string>,  // nostr.GetPublicKey
    relays: Result<seq<string>>,          // relays.GetAllRelays
    connect: Fanout.Connector,
    publish: Fanout.Publisher)

  /** pathToKind: the plain kind of each file type, and 0, with no error,
      for any other extension. */
  function PathToKind(K: KindConsts, path: string): int {
    var ex := HostrDeploy.Extension(path);
    if ex == "html" then K.html
    else if ex == "css" then K.css
    else if ex == "js" then K.js
    else 0
  }

  /** The kind table: the three file types get their plain kinds and every
      other extension gets 0. */
  lemma PathToKindTable(K: KindConsts, path: string)
    ensures HasSuffix(path, ".html") ==> PathToKind(K, path) == K.html
    ensures HasSuffix(path, ".css") ==> PathToKind(K, path) == K.css
    ensures HasSuffix(path, ".js") ==> PathToKind(K, path) == K.js
    ensures HostrDeploy.Extension(path) !in ["html", "css", "js"] ==> PathToKind(K, path) == 0
  {
    if HasSuffix(path, ".html") { KindOfSuffix(K, path, "html"); }
    if HasSuffix(path, ".css") { KindOfSuffix(K, path, "css"); }
    if HasSuffix(path, ".js") { KindOfSuffix(K, path, "js"); }
  }

  /** One row of the table. */
  lemma KindOfSuffix(K: KindConsts, path: string, w: string)
    requires w in ["html", "css", "js"] && HasSuffix(path, "." + w)
    ensures PathToKind(K, path) == (if w == "html" then K.html else if w == "css" then K.css else K.js)
  {
    HostrDeploy.ExtensionOfSuffix(path, w);
  }

  /** Against the later generation: CSS and JS get the kind its immutable
      deploy gives, while HTML gets the kind its inverted branch gives only
      to replaceable deploys. Each generation has its own `consts` package,
      so this compares the two tables under the assumption, stated as the
      requirement, that both number the plain HTML, CSS and JS kinds
      alike. */
  lemma PathToKindAgainstHostr(N: KindConsts, H: KindConsts, path: string)
    requires N.html == H.html && N.css == H.css && N.js == H.js
    ensures HostrDeploy.Extension(path) == "html" ==>
      HostrDeploy.PathToKind(H, path, true) == Ok(PathToKind(N, path))
    ensures HostrDeploy.Extension(path) in ["css", "js"] ==>
      HostrDeploy.PathToKind(H, path, false) == Ok(PathToKind(N, path))
    ensures HostrDeploy.PathToKind(H, path, false).Err? ==> PathToKind(N, path) == 0
  {
  }

  /** isExternalURL: whatever `url.Parse` gives, the answer is false. */
  predicate IsExternalURL(urlStr: string) {
    false
  }

  /** isValidFileType. */
  predicate IsValidFileType(s: string) {
    HasSuffix(s, ".html") || HasSuffix(s, ".css") || HasSuffix(s, ".js")
  }

  /** getEvent: no tags are set; the ID and signature are the signer's and
      a signing failure is that error. */
  function GetEvent(env: Env, priKey: string, pubKey: string, content: seq<byte>, kind: int): (r: Result<Event>)
    ensures r.Ok? <==> env.sign(priKey, Unsigned(pubKey, env.now, kind, [], content)).Ok?
    ensures r.Ok? ==>
      r.value.pubkey == pubKey && r.value.kind == kind && r.value.content == content &&
      r.value.tags == [] && r.value.createdAt == env.now
    ensures r.Ok? ==>
      var s := env.sign(priKey, Unsigned(pubKey, env.now, kind, [], content)).value;
      r.value.id == s.id && r.value.sig == s.sig
    ensures r.Err? ==> r.msg == env.sign(priKey, Unsigned(pubKey, env.now, kind, [], content)).msg
  {
    Signed(env.sign, priKey, Unsigned(pubKey, env.now, kind, [], content))
  }

  /** The parameters of convertLinks. */
  datatype Ctx = Ctx(env: Env, priKey: string, pubKey: string, basePath: string)

  predicate Qualifies(a: Attr) {
    (a.key == "href" || a.key == "src") && !IsExternalURL(a.val) && IsValidFileType(a.val)
  }

  /** Since no URL is external, exactly the href/src attributes with an
      .html, .css or .js ending are converted, external ones included. */
  lemma QualifiesByKeyAndSuffix(a: Attr)
    ensures Qualifies(a) <==> (a.key == "href" || a.key == "src") && IsValidFileType(a.val)
    ensures Qualifies(Attr("", "src", "https://cdn.example/lib.js"))
  {
    assert HasSuffix("https://cdn.example/lib.js", ".js");
  }

  function AssetPath(c: Ctx, a: Attr): string {
    c.env.join(c.basePath, a.val)
  }

  predicate Readable(c: Ctx, a: Attr) {
    AssetPath(c, a) in c.env.fs
  }

  function AssetEvent(c: Ctx, a: Attr): Result<Event>
    requires Readable(c, a)
  {
    GetEvent(c.env, c.priKey, c.pubKey, c.env.fs[AssetPath(c, a)], PathToKind(c.env.K, AssetPath(c, a)))
  }

  /** One pass of the attribute loop: the attribute afterwards, what it
      queued, and whether the loop breaks. */
  datatype AttrOutcome = AttrOutcome(attr: Attr, events: seq<Event>, stop: bool)

  function ConvertAttr(c: Ctx, a: Attr): (r: AttrOutcome)
    ensures r.attr.key == a.key && r.attr.namespace == a.namespace && |r.events| <= 1
  {
    if !Qualifies(a) || !Readable(c, a) then AttrOutcome(a, [], false)
    else match AssetEvent(c, a)
      case Err(_) => AttrOutcome(a, [], true)
      case Ok(ev) => AttrOutcome(a.(val := ev.id), [ev], false)
  }

  /** What one attribute turns into: nothing happens unless it qualifies
      and its file is readable; a signing failure breaks the loop with the
      attribute unchanged; otherwise its event is queued and the reference
      becomes the event's ID. */
  lemma ConvertAttrCases(c: Ctx, a: Attr)
    ensures !Qualifies(a) || !Readable(c, a) ==> ConvertAttr(c, a) == AttrOutcome(a, [], false)
    ensures Qualifies(a) && Readable(c, a) ==>
      (ConvertAttr(c, a).stop <==> AssetEvent(c, a).Err?) &&
      (AssetEvent(c, a).Err? ==> ConvertAttr(c, a) == AttrOutcome(a, [], true)) &&
      (AssetEvent(c, a).Ok? ==>
        ConvertAttr(c, a) == AttrOutcome(a.(val := AssetEvent(c, a).value.id), [AssetEvent(c, a).value], false))
    ensures ConvertAttr(c, a).attr != a ==>
      |ConvertAttr(c, a).events| == 1 && ConvertAttr(c, a).attr.val == ConvertAttr(c, a).events[0].id
  {
  }

  function ConvertAttrs(c: Ctx, attrs: seq<Attr>): (r: (seq<Attr>, seq<Event>))
    ensures |r.0| == |attrs|
    decreases |attrs|
  {
    if attrs == [] then ([], [])
    else
      var s := ConvertAttr(c, attrs[0]);
      if s.stop then ([s.attr] + attrs[1..], s.events)
      else
        var rest := ConvertAttrs(c, attrs[1..]);
        ([s.attr] + rest.0, s.events + rest.1)
  }

  function ConvertNode(c: Ctx, n: Node): (Node, seq<Event>)
    decreases n
  {
    var own := if IsLinkOrScript(n) then ConvertAttrs(c, n.attrs) else (n.attrs, []);
    var kids := ConvertChildren(c, n.children);
    (Node(n.ntype, n.data, own.0, kids.0), own.1 + kids.1)
  }

  function ConvertChildren(c: Ctx, cs: seq<Node>): (r: (seq<Node>, seq<Event>))
    ensures |r.0| == |cs|
    decreases cs
  {
    if cs == [] then ([], [])
    else
      var first := ConvertNode(c, cs[0]);
      var rest := ConvertChildren(c, cs[1..]);
      ([first.0] + rest.0, first.1 + rest.1)
  }

  /** An attribute keeps its key; only a qualifying attribute of a link or
      script element may change its value. */
  predicate AttrRewritten(target: bool, before: Attr, after: Attr) {
    after.key == before.key && after.namespace == before.namespace &&
    (after.val != before.val ==> target && Qualifies(before))
  }

  predicate AttrsRewritten(target: bool, before: seq<Attr>, after: seq<Attr>) {
    |after| == |before| &&
    forall i :: 0 <= i < |before| ==> AttrRewritten(target, before[i], after[i])
  }

  predicate Rewritten(before: Node, after: Node)
    decreases before
  {
    after.ntype == before.ntype && after.data == before.data &&
    AttrsRewritten(IsLinkOrScript(before), before.attrs, after.attrs) &&
    |after.children| == |before.children| &&
    forall i :: 0 <= i < |before.children| ==> Rewritten(before.children[i], after.children[i])
  }

  lemma {:induction false} ConvertAttrsRewrites(c: Ctx, attrs: seq<Attr>)
    ensures AttrsRewritten(true, attrs, ConvertAttrs(c, attrs).0)
    decreases |attrs|
  {
    if attrs != [] {
      var s := ConvertAttr(c, attrs[0]);
      var r := ConvertAttrs(c, attrs).0;
      ConvertAttrCases(c, attrs[0]);
      assert AttrRewritten(true, attrs[0], r[0]);
      if s.stop {
        assert r == [s.attr] + attrs[1..];
        assert forall i :: 1 <= i < |attrs| ==> r[i] == attrs[i];
      } else {
        ConvertAttrsRewrites(c, attrs[1..]);
        var rest := ConvertAttrs(c, attrs[1..]).0;
        assert r == [s.attr] + rest;
        forall i | 1 <= i < |attrs|
          ensures AttrRewritten(true, attrs[i], r[i])
        {
          assert r[i] == rest[i - 1] && attrs[i] == attrs[1..][i - 1];
        }
      }
    }
  }

  /** convertLinks changes nothing but the values of qualifying href/src
      attributes of link and script elements. */
  lemma {:induction false} ConvertRewritesOnly(c: Ctx, n: Node)
    ensures Rewritten(n, ConvertNode(c, n).0)
    decreases n
  {
    if IsLinkOrScript(n) { ConvertAttrsRewrites(c, n.attrs); }
    ConvertChildrenRewrite(c, n.children);
  }

  lemma {:induction false} ConvertChildrenRewrite(c: Ctx, cs: seq<Node>)
    ensures forall i :: 0 <= i < |cs| ==> Rewritten(cs[i], ConvertChildren(c, cs).0[i])
    decreases cs
  {
    if cs != [] {
      ConvertRewritesOnly(c, cs[0]);
      ConvertChildrenRewrite(c, cs[1..]);
      var r := ConvertChildren(c, cs).0;
      assert forall i :: 1 <= i < |cs| ==> r[i] == ConvertChildren(c, cs[1..]).0[i - 1] && cs[i] == cs[1..][i - 1];
    }
  }

  /** The qualifying attributes of the whole tree in document order. */
  function Qualifying(attrs: seq<Attr>): seq<Attr>
    decreases |attrs|
  {
    if attrs == [] then []
    else (if Qualifies(attrs[0]) then [attrs[0]] else []) + Qualifying(attrs[1..])
  }

  function Targets(n: Node): seq<Attr>
    decreases n
  {
    (if IsLinkOrScript(n) then Qualifying(n.attrs) else []) + TargetsOfChildren(n.children)
  }

  function TargetsOfChildren(cs: seq<Node>): seq<Attr>
    decreases cs
  {
    if cs == [] then [] else Targets(cs[0]) + TargetsOfChildren(cs[1..])
  }

  /** The asset's signing does not fail (its file may still be missing). */
  predicate NoBreak(c: Ctx, a: Attr) {
    Qualifies(a) && (Readable(c, a) ==> AssetEvent(c, a).Ok?)
  }

  predicate NoneBreak(c: Ctx, refs: seq<Attr>) {
    forall i :: 0 <= i < |refs| ==> NoBreak(c, refs[i])
  }

  function EventsOf(c: Ctx, a: Attr): seq<Event> {
    if Qualifies(a) && Readable(c, a) && AssetEvent(c, a).Ok? then [AssetEvent(c, a).value] else []
  }

  function EventsFn(c: Ctx): Attr -> seq<Event> {
    a => EventsOf(c, a)
  }

  /** The events of a sequence of references, in order; unreadable ones
      contribute nothing. */
  function AssetEvents(c: Ctx, refs: seq<Attr>): seq<Event> {
    HostrDeploy.Flatten(EventsFn(c), refs)
  }

  lemma NoneBreakSplit(c: Ctx, xs: seq<Attr>, ys: seq<Attr>)
    requires NoneBreak(c, xs + ys)
    ensures NoneBreak(c, xs) && NoneBreak(c, ys)
  {
    assert forall i :: 0 <= i < |xs| ==> xs[i] == (xs + ys)[i];
    assert forall i :: 0 <= i < |ys| ==> ys[i] == (xs + ys)[i + |xs|];
  }

  lemma {:induction false} ConvertAttrsQueue(c: Ctx, attrs: seq<Attr>)
    ensures |ConvertAttrs(c, attrs).1| <= |Qualifying(attrs)|
    ensures NoneBreak(c, Qualifying(attrs)) ==> ConvertAttrs(c, attrs).1 == AssetEvents(c, Qualifying(attrs))
    decreases |attrs|
  {
    if attrs != [] {
      var s := ConvertAttr(c, attrs[0]);
      ConvertAttrsQueue(c, attrs[1..]);
      var head := if Qualifies(attrs[0]) then [attrs[0]] else [];
      var q := Qualifying(attrs);
      assert q == head + Qualifying(attrs[1..]);
      if NoneBreak(c, q) {
        NoneBreakSplit(c, head, Qualifying(attrs[1..]));
        HostrDeploy.FlattenAppend(EventsFn(c), head, Qualifying(attrs[1..]));
        if Qualifies(attrs[0]) {
          ConvertAttrCases(c, attrs[0]);
          assert NoBreak(c, head[0]);
          assert !s.stop;
          assert AssetEvents(c, head) == EventsFn(c)(attrs[0]) + HostrDeploy.Flatten(EventsFn(c), head[1..]);
        }
      }
    }
  }

  /** Queue order is pre-order order: at most one event per qualifying
      reference, and, when no signing fails, exactly the events of the
      readable references in document order. */
  lemma {:induction false} ConvertQueueOrder(c: Ctx, n: Node)
    ensures |ConvertNode(c, n).1| <= |Targets(n)|
    ensures NoneBreak(c, Targets(n)) ==> ConvertNode(c, n).1 == AssetEvents(c, Targets(n))
    decreases n
  {
    var own := if IsLinkOrScript(n) then Qualifying(n.attrs) else [];
    if IsLinkOrScript(n) { ConvertAttrsQueue(c, n.attrs); }
    ConvertChildrenQueueOrder(c, n.children);
    if NoneBreak(c, Targets(n)) {
      NoneBreakSplit(c, own, TargetsOfChildren(n.children));
    }
    HostrDeploy.FlattenAppend(EventsFn(c), own, TargetsOfChildren(n.children));
  }

  lemma {:induction false} ConvertChildrenQueueOrder(c: Ctx, cs: seq<Node>)
    ensures |ConvertChildren(c, cs).1| <= |TargetsOfChildren(cs)|
    ensures NoneBreak(c, TargetsOfChildren(cs)) ==> ConvertChildren(c, cs).1 == AssetEvents(c, TargetsOfChildren(cs))
    decreases cs
  {
    if cs != [] {
      ConvertQueueOrder(c, cs[0]);
      ConvertChildrenQueueOrder(c, cs[1..]);
      if NoneBreak(c, TargetsOfChildren(cs)) {
        NoneBreakSplit(c, Targets(cs[0]), TargetsOfChildren(cs[1..]));
      }
      HostrDeploy.FlattenAppend(EventsFn(c), Targets(cs[0]), TargetsOfChildren(cs[1..]));
    }
  }

  lemma ConvertAttrsUnfold(c: Ctx, attrs: seq<Attr>, i: nat)
    requires i < |attrs|
    ensures var s := ConvertAttr(c, attrs[i]);
      ConvertAttrs(c, attrs[i..]) ==
        if s.stop then ([s.attr] + attrs[i + 1..], s.events)
        else ([s.attr] + ConvertAttrs(c, attrs[i + 1..]).0, s.events + ConvertAttrs(c, attrs[i + 1..]).1)
  {
    assert attrs[i..][0] == attrs[i];
    assert attrs[i..][1..] == attrs[i + 1..];
  }

  /** One pass of the attribute loop keeps the loop's account with
      ConvertAttrs. */
  lemma AttrLoopStep(c: Ctx, attrs0: seq<Attr>, total: (seq<Attr>, seq<Event>), before: seq<Attr>,
                     after: seq<Attr>, i: nat, emitted: seq<Event>, s: AttrOutcome)
    requires i < |before| == |attrs0| && before[i..] == attrs0[i..]
    requires total.0 == before[..i] + ConvertAttrs(c, attrs0[i..]).0
    requires total.1 == emitted + ConvertAttrs(c, attrs0[i..]).1
    requires s == ConvertAttr(c, attrs0[i]) && after == before[i := s.attr]
    ensures s.stop ==> total == (after, emitted + s.events)
    ensures !s.stop ==>
      after[i + 1..] == attrs0[i + 1..] &&
      total.0 == after[..i + 1] + ConvertAttrs(c, attrs0[i + 1..]).0 &&
      total.1 == (emitted + s.events) + ConvertAttrs(c, attrs0[i + 1..]).1
  {
    ConvertAttrsUnfold(c, attrs0, i);
    assert before[i + 1..] == attrs0[i + 1..] by {
      assert before[i + 1..] == before[i..][1..] && attrs0[i + 1..] == attrs0[i..][1..];
    }
    HostrDeploy.Splice(before, after, attrs0[i + 1..], i, s.attr, ConvertAttrs(c, attrs0[i + 1..]).0);
  }

  lemma ChildLoopStep(c: Ctx, cs: seq<Node>, j: nat)
    requires j < |cs|
    ensures ConvertChildren(c, cs[j..]).0 == [ConvertNode(c, cs[j]).0] + ConvertChildren(c, cs[j + 1..]).0
    ensures ConvertChildren(c, cs[j..]).1 == ConvertNode(c, cs[j]).1 + ConvertChildren(c, cs[j + 1..]).1
  {
    assert cs[j..][0] == cs[j];
    assert cs[j..][1..] == cs[j + 1..];
  }

  /** index.html is read but does not parse. */
  predicate ParseFails(env: Env, world: World, basePath: string) {
    env.join(basePath, "index.html") in env.fs && world.parse(env.fs[env.join(basePath, "index.html")]).Err?
  }

  /** The outcome of Deploy: the root event's ID and the error, if any. */
  datatype DeployResult = DeployResult(eventId: string, err: Option<string>)

  /** Every step before the traversal succeeds: index.html is read and
      parsed, and the secret and the public key are obtained. */
  predicate Prepared(env: Env, world: World, basePath: string) {
    var path := env.join(basePath, "index.html");
    path in env.fs && world.parse(env.fs[path]).Ok? &&
    world.secret.Ok? && world.publicKey(world.secret.value).Ok?
  }

  /** The traversal's context once the steps before it succeed. */
  function DeployCtx(env: Env, world: World, basePath: string): Ctx
    requires Prepared(env, world, basePath)
  {
    Ctx(env, world.secret.value, world.publicKey(world.secret.value).value, basePath)
  }

  /** The rewritten document and the asset events it queues. */
  function Converted(env: Env, world: World, basePath: string): (Node, seq<Event>)
    requires Prepared(env, world, basePath)
  {
    ConvertNode(DeployCtx(env, world, basePath), world.parse(env.fs[env.join(basePath, "index.html")]).value)
  }

  /** The root event: the rendered rewritten document as plain HTML, signed
      by the deploy's key. */
  function RootEvent(env: Env, world: World, basePath: string): Result<Event>
    requires Prepared(env, world, basePath)
  {
    var c := DeployCtx(env, world, basePath);
    GetEvent(env, c.priKey, c.pubKey, world.render(Converted(env, world, basePath).0), env.K.html)
  }

  /** The deploy package's event queue. */
  class Deployer {
    var nostrEventsQueue: seq<Event>

    constructor ()
      ensures nostrEventsQueue == []
    {
      nostrEventsQueue := [];
    }

    /** addNostrEventQueue. */
    method AddNostrEventQueue(event: Event)
      modifies this`nostrEventsQueue
      ensures nostrEventsQueue == old(nostrEventsQueue) + [event]
    {
      nostrEventsQueue := nostrEventsQueue + [event];
    }

    /** The body of the attribute loop for one attribute. */
    method ConvertAttribute(env: Env, priKey: string, pubKey: string, basePath: string, a: Attr)
      returns (attr: Attr, stop: bool)
      modifies this`nostrEventsQueue
      ensures var s := ConvertAttr(Ctx(env, priKey, pubKey, basePath), a);
        attr == s.attr && stop == s.stop && nostrEventsQueue == old(nostrEventsQueue) + s.events
    {
      attr, stop := a, false;
      if (a.key == "href" || a.key == "src") && !IsExternalURL(a.val) && IsValidFileType(a.val) {
        var filePath := env.join(basePath, a.val);
        // pathToKind reports no error, so its `continue` is never taken.
        var kind := PathToKind(env.K, filePath);
        if filePath !in env.fs {
          return;
        }
        var bytesContent := env.fs[filePath];
        var event := GetEvent(env, priKey, pubKey, bytesContent, kind);
        if event.Err? {
          stop := true;
          return;
        }
        AddNostrEventQueue(event.value);
        attr := a.(val := event.value.id);
      }
    }

    /** The attribute loop of convertLinks on a link or script element. */
    method ConvertElementAttrs(env: Env, priKey: string, pubKey: string, basePath: string, attrs0: seq<Attr>)
      returns (attrs: seq<Attr>)
      modifies this`nostrEventsQueue
      ensures var c := Ctx(env, priKey, pubKey, basePath);
        attrs == ConvertAttrs(c, attrs0).0 && nostrEventsQueue == old(nostrEventsQueue) + ConvertAttrs(c, attrs0).1
    {
      ghost var c := Ctx(env, priKey, pubKey, basePath);
      ghost var total := ConvertAttrs(c, attrs0);
      ghost var q0 := nostrEventsQueue;
      ghost var emitted: seq<Event> := [];
      attrs := attrs0;
      var i := 0;
      assert attrs0[0..] == attrs0;
      while i < |attrs|
        invariant 0 <= i <= |attrs| == |attrs0|
        invariant attrs[i..] == attrs0[i..]
        invariant nostrEventsQueue == q0 + emitted
        invariant total.0 == attrs[..i] + ConvertAttrs(c, attrs0[i..]).0
        invariant total.1 == emitted + ConvertAttrs(c, attrs0[i..]).1
      {
        ghost var before := attrs;
        assert attrs[i] == attrs0[i] by { assert attrs[i] == attrs[i..][0]; }
        ghost var s := ConvertAttr(c, attrs0[i]);
        var attr, stop := ConvertAttribute(env, priKey, pubKey, basePath, attrs[i]);
        attrs := attrs[i := attr];
        AttrLoopStep(c, attrs0, total, before, attrs, i, emitted, s);
        emitted := emitted + s.events;
        if stop {
          return;
        }
        i := i + 1;
      }
      assert attrs0[i..] == [];
      assert attrs[..i] == attrs;
    }

    /** convertLinks: rewrites the subtree's references and appends the
        asset events to the queue in pre-order. */
    method ConvertLinks(env: Env, priKey: string, pubKey: string, basePath: string, n: Node) returns (out: Node)
      modifies this`nostrEventsQueue
      ensures var c := Ctx(env, priKey, pubKey, basePath);
        out == ConvertNode(c, n).0 && nostrEventsQueue == old(nostrEventsQueue) + ConvertNode(c, n).1
      decreases n
    {
      var attrs := n.attrs;
      if IsLinkOrScript(n) {
        attrs := ConvertElementAttrs(env, priKey, pubKey, basePath, n.attrs);
      }
      var kids := ConvertChildLinks(env, priKey, pubKey, basePath, n.children);
      out := Node(n.ntype, n.data, attrs, kids);
    }

    /** The child loop of convertLinks. */
    method ConvertChildLinks(env: Env, priKey: string, pubKey: string, basePath: string, cs: seq<Node>)
      returns (kids: seq<Node>)
      modifies this`nostrEventsQueue
      ensures var c := Ctx(env, priKey, pubKey, basePath);
        kids == ConvertChildren(c, cs).0 && nostrEventsQueue == old(nostrEventsQueue) + ConvertChildren(c, cs).1
      decreases cs
    {
      ghost var c := Ctx(env, priKey, pubKey, basePath);
      ghost var total := ConvertChildren(c, cs);
      ghost var q0 := nostrEventsQueue;
      ghost var fromChildren: seq<Event> := [];
      kids := [];
      var j := 0;
      assert cs[0..] == cs;
      while j < |cs|
        invariant 0 <= j <= |cs|
        invariant nostrEventsQueue == q0 + fromChildren
        invariant total.0 == kids + ConvertChildren(c, cs[j..]).0
        invariant total.1 == fromChildren + ConvertChildren(c, cs[j..]).1
      {
        ChildLoopStep(c, cs, j);
        var k := ConvertLinks(env, priKey, pubKey, basePath, cs[j]);
        fromChildren := fromChildren + ConvertNode(c, cs[j]).1;
        kids := kids + [k];
        j := j + 1;
      }
      assert cs[j..] == [];
    }

    /** publishEventsFromQueue (sequential): a relay-list error is
        returned; otherwise every event is offered to every relay that
        connected, the counter reaches the queue length so no failure is
        reported, and the result is the ID of the last queued event. */
    method PublishEventsFromQueue(relays: Result<seq<string>>, connect: Fanout.Connector, publish: Fanout.Publisher)
      returns (eventId: string, err: Option<string>, attempts: seq<seq<Fanout.Attempt>>, failureReported: bool)
      requires relays.Err? || |nostrEventsQueue| > 0
      ensures relays.Err? ==> eventId == "" && err == Some(relays.msg) && attempts == [] && !failureReported
      ensures relays.Ok? ==>
        eventId == nostrEventsQueue[|nostrEventsQueue| - 1].id && err == None && !failureReported &&
        Fanout.FannedOut(attempts, nostrEventsQueue, Fanout.Connected(relays.value, connect), publish)
    {
      if relays.Err? {
        return "", Some(relays.msg), [], false;
      }
      var connected := Fanout.ConnectAll(relays.value, connect);
      var allEventsCount := |nostrEventsQueue|;
      var uploadedFilesCount;
      attempts, uploadedFilesCount := Fanout.PublishAll(nostrEventsQueue, connected, publish);
      failureReported := uploadedFilesCount < allEventsCount;
      eventId := nostrEventsQueue[|nostrEventsQueue| - 1].id;
      err := None;
    }

    /** Deploy: reads and parses index.html, obtains the keys, rewrites the
        document, queues the root event last and publishes the queue. A
        parse failure ends the deploy with no ID and no error. */
    method Deploy(env: Env, world: World, basePath: string)
      returns (r: DeployResult, attempts: seq<seq<Fanout.Attempt>>)
      modifies this`nostrEventsQueue
      ensures env.join(basePath, "index.html") !in env.fs ==>
        r == DeployResult("", Some(world.readError(env.join(basePath, "index.html")))) && nostrEventsQueue == old(nostrEventsQueue)
      ensures ParseFails(env, world, basePath) ==>
        r == DeployResult("", None) && nostrEventsQueue == old(nostrEventsQueue)
      ensures (env.join(basePath, "index.html") in env.fs && !ParseFails(env, world, basePath) &&
               world.secret.Err?) ==>
          r == DeployResult("", Some(world.secret.msg)) && nostrEventsQueue == old(nostrEventsQueue)
      ensures (env.join(basePath, "index.html") in env.fs && !ParseFails(env, world, basePath) &&
               world.secret.Ok? && world.publicKey(world.secret.value).Err?) ==>
          r == DeployResult("", Some(world.publicKey(world.secret.value).msg)) &&
          nostrEventsQueue == old(nostrEventsQueue)
      // Past the keys the asset events are queued; the root follows unless
      // signing it fails, and the relay list is only read when publishing,
      // so its error comes after the queue is complete.
      ensures Prepared(env, world, basePath) ==>
        var converted := Converted(env, world, basePath);
        var root := RootEvent(env, world, basePath);
        (root.Err? ==>
           r == DeployResult("", Some(root.msg)) && nostrEventsQueue == old(nostrEventsQueue) + converted.1) &&
        (root.Ok? ==>
           nostrEventsQueue == old(nostrEventsQueue) + converted.1 + [root.value] &&
           r == if world.relays.Ok? then DeployResult(root.value.id, None) else DeployResult("", Some(world.relays.msg)))
      // Publishing happens only once the root is queued and the relay list
      // is read; it then tries the whole queue on every connected relay.
      ensures !(Prepared(env, world, basePath) && RootEvent(env, world, basePath).Ok? && world.relays.Ok?) ==>
        attempts == []
      ensures Prepared(env, world, basePath) && RootEvent(env, world, basePath).Ok? && world.relays.Ok? ==>
        Fanout.FannedOut(attempts, nostrEventsQueue, Fanout.Connected(world.relays.value, world.connect), world.publish)
      ensures r.err.None? && !ParseFails(env, world, basePath) ==>
        Prepared(env, world, basePath) && RootEvent(env, world, basePath).Ok? && world.relays.Ok?
    {
      var filePath := env.join(basePath, "index.html");
      if filePath !in env.fs {
        return DeployResult("", Some(world.readError(filePath))), [];
      }
      var content := env.fs[filePath];
      var doc := world.parse(content);
      if doc.Err? {
        // The parse error is printed and swallowed.
        return DeployResult("", None), [];
      }
      var priKey := world.secret;
      if priKey.Err? {
        return DeployResult("", Some(priKey.msg)), [];
      }
      var pubKey := world.publicKey(priKey.value);
      if pubKey.Err? {
        return DeployResult("", Some(pubKey.msg)), [];
      }
      ghost var q0 := nostrEventsQueue;
      var converted := ConvertLinks(env, priKey.value, pubKey.value, basePath, doc.value);
      var strHtml := world.render(converted);
      var event := GetEvent(env, priKey.value, pubKey.value, strHtml, env.K.html);
      if event.Err? {
        return DeployResult("", Some(event.msg)), [];
      }
      AddNostrEventQueue(event.value);
      var eventId, err, published, _ := PublishEventsFromQueue(world.relays, world.connect, world.publish);
      r, attempts := DeployResult(eventId, err), published;
    }
  }
}
