/** hostr/cmd/deploy/deploy.go: deploying a site whose index.html links
    HTML, CSS and JS assets. Every readable linked asset becomes a signed
    event appended to the package's event queue, and its reference in the
    document is rewritten to the asset's address: a NIP-33 `d` identifier
    when the deploy is replaceable, a NIP-19 `nevent` otherwise. The root
    document event is queued last and the queue is published to every
    relay. */
module HostrDeploy {
  import opened Base
  import opened Nostr
  import opened Html
  import Fanout

  /** The scheme and host that `url.Parse` finds in a reference. */
  datatype Url = Url(scheme: string, host: string)

  /** What the deploy code consults outside itself. */
  datatype Env = Env(
    K: KindConsts,
    fs: map<string, seq<byte>>,         // os.ReadFile: the readable files
    join: (string, string) -> string,   // filepath.Join
    parseUrl: string -> Result<Url>,    // url.Parse
    sign: Signer,                       // ev.Sign
    encodeEvent: NeventEncoder,         // nip19.EncodeEvent
    now: int)                           // nostr.Now()

  /** What `Deploy` consults before and after the traversal. */
  datatype World = World(
    parse: Parser,
    render: Renderer,
    readError: string -> string,          // os.ReadFile's error for a path it cannot read
    secret: Result<string>,               // keystore.GetSecret
    publicKey: string -> Result<string>,  // nostr.GetPublicKey
    stdinLine: string,                    // the identifier typed at the prompt
    relays: Result<seq<string>>,          // relays.GetAllRelays
    connect: Fanout.Connector,
    publish: Fanout.Publisher)

  /** The last '.'-separated piece of a path, which pathToKind switches on. */
  function Extension(path: string): string {
    var parts := Split(path, '.');
    parts[|parts| - 1]
  }

  /** pathToKind, with its html branch as written: the replaceable flag
      selects the plain HTML kind and vice versa. */
  function PathToKind(K: KindConsts, path: string, isReplaceable: bool): Result<int> {
    var ex := Extension(path);
    if ex == "html" then Ok(if isReplaceable then K.html else K.replaceableHtml)
    else if ex == "css" then Ok(if isReplaceable then K.replaceableCss else K.css)
    else if ex == "js" then Ok(if isReplaceable then K.replaceableJs else K.js)
    else Err("Invalid path")
  }

  predicate IsReplaceableKind(K: KindConsts, k: int) {
    k == K.replaceableHtml || k == K.replaceableCss || k == K.replaceableJs
  }

  /** A path ending in '.' and a dot-free word has that word as extension. */
  lemma ExtensionOfSuffix(path: string, w: string)
    requires '.' !in w && HasSuffix(path, "." + w)
    ensures Extension(path) == w
  {
    SplitLast(path, '.', w);
  }

  /** The kind table: only the three extensions are accepted, and a path
      that ends in ".css", ".js" or ".html" gets the kind of that file
      type. */
  lemma PathToKindTable(K: KindConsts, path: string, isReplaceable: bool)
    ensures PathToKind(K, path, isReplaceable).Ok? <==>
      (Extension(path) == "html" || Extension(path) == "css" || Extension(path) == "js")
    ensures HasSuffix(path, ".css") ==>
      PathToKind(K, path, isReplaceable) == Ok(if isReplaceable then K.replaceableCss else K.css)
    ensures HasSuffix(path, ".js") ==>
      PathToKind(K, path, isReplaceable) == Ok(if isReplaceable then K.replaceableJs else K.js)
    ensures HasSuffix(path, ".html") ==>
      PathToKind(K, path, isReplaceable) == Ok(if isReplaceable then K.html else K.replaceableHtml)
  {
    if HasSuffix(path, ".css") { ExtensionOfSuffix(path, "css"); }
    if HasSuffix(path, ".js") { ExtensionOfSuffix(path, "js"); }
    if HasSuffix(path, ".html") { ExtensionOfSuffix(path, "html"); }
  }

  /** The inverted html branch: the kind is replaceable exactly as asked for
      CSS and JS, and exactly the opposite for HTML. */
  lemma PathToKindReplaceability(K: KindConsts, path: string, isReplaceable: bool)
    requires K.Distinct()
    requires PathToKind(K, path, isReplaceable).Ok?
    ensures IsReplaceableKind(K, PathToKind(K, path, isReplaceable).value)
        == (if Extension(path) == "html" then !isReplaceable else isReplaceable)
  {
    DistinctKinds(K);
  }

  /** getReplaceableIdentifier: the root identifier, a slash, and the path
      without its first character. */
  function GetReplaceableIdentifier(indexHtmlIdentifier: string, filePath: string): (r: string)
    requires |filePath| >= 1
    ensures |r| == |indexHtmlIdentifier| + |filePath|
    ensures HasPrefix(r, indexHtmlIdentifier + "/")
    ensures r[|indexHtmlIdentifier| + 1..] == filePath[1..]
  {
    indexHtmlIdentifier + "/" + filePath[1..]
  }

  /** In Go's bytes: the identifier's bytes, the slash, then the path's
      bytes after its first one, for a path whose first character is
      ASCII (every path a link can name relative to the site). */
  lemma IdentifierBytes(indexHtmlIdentifier: string, filePath: string)
    requires |filePath| >= 1 && filePath[0] as int < 0x80
    ensures Utf8(GetReplaceableIdentifier(indexHtmlIdentifier, filePath))
         == Utf8(indexHtmlIdentifier) + Utf8("/") + Utf8(filePath)[1..]
  {
    Utf8Append(indexHtmlIdentifier + "/", filePath[1..]);
    Utf8Append(indexHtmlIdentifier, "/");
    DropAsciiHead(filePath);
  }

  /** isExternalURL: the reference parses with both a scheme and a host. */
  predicate IsExternalURL(env: Env, s: string) {
    env.parseUrl(s).Ok? && env.parseUrl(s).value.scheme != "" && env.parseUrl(s).value.host != ""
  }

  /** isValidFileType. */
  predicate IsValidFileType(s: string) {
    HasSuffix(s, ".html") || HasSuffix(s, ".css") || HasSuffix(s, ".js")
  }

  /** getEvent: the event carries exactly the given author, kind, content
      and tags, stamped with the clock, and the ID and signature the signer
      gives for it; a signing failure is that error. */
  function GetEvent(env: Env, priKey: string, pubKey: string, content: seq<byte>, kind: int, tags: seq<Tag>)
    : (r: Result<Event>)
    ensures r.Ok? <==> env.sign(priKey, Unsigned(pubKey, env.now, kind, tags, content)).Ok?
    ensures r.Ok? ==>
      r.value.pubkey == pubKey && r.value.kind == kind && r.value.content == content &&
      r.value.tags == tags && r.value.createdAt == env.now
    ensures r.Ok? ==>
      var s := env.sign(priKey, Unsigned(pubKey, env.now, kind, tags, content)).value;
      r.value.id == s.id && r.value.sig == s.sig
    ensures r.Err? ==> r.msg == env.sign(priKey, Unsigned(pubKey, env.now, kind, tags, content)).msg
  {
    Signed(env.sign, priKey, Unsigned(pubKey, env.now, kind, tags, content))
  }

  /** The parameters of convertLinks plus the relay list it reads. */
  datatype Ctx = Ctx(
    env: Env, priKey: string, pubKey: string, basePath: string,
    isReplaceable: bool, identifier: string, relays: seq<string>)

  /** The attribute is an `href` or `src` with a local .html/.css/.js
      reference. */
  predicate Qualifies(c: Ctx, a: Attr) {
    (a.key == "href" || a.key == "src") && !IsExternalURL(c.env, a.val) && IsValidFileType(a.val)
  }

  function AssetPath(c: Ctx, a: Attr): string {
    c.env.join(c.basePath, a.val)
  }

  function AssetKind(c: Ctx, a: Attr): Result<int> {
    PathToKind(c.env.K, AssetPath(c, a), c.isReplaceable)
  }

  predicate Readable(c: Ctx, a: Attr) {
    AssetPath(c, a) in c.env.fs
  }

  function AssetTags(c: Ctx, a: Attr): seq<Tag>
    requires Qualifies(c, a)
  {
    if c.isReplaceable then AppendUnique([], ["d", GetReplaceableIdentifier(c.identifier, a.val)]) else []
  }

  /** The signed event for a qualifying, readable asset of a known kind. */
  function AssetEvent(c: Ctx, a: Attr): Result<Event>
    requires Qualifies(c, a) && AssetKind(c, a).Ok? && Readable(c, a)
  {
    GetEvent(c.env, c.priKey, c.pubKey, c.env.fs[AssetPath(c, a)], AssetKind(c, a).value, AssetTags(c, a))
  }

  /** One pass of the attribute loop: the attribute afterwards, what it
      queued, and whether the loop breaks. */
  datatype AttrOutcome = AttrOutcome(attr: Attr, events: seq<Event>, stop: bool)

  function ConvertAttr(c: Ctx, a: Attr): (r: AttrOutcome)
    ensures r.attr.key == a.key && r.attr.namespace == a.namespace && |r.events| <= 1
  {
    if !Qualifies(c, a) || AssetKind(c, a).Err? || !Readable(c, a) then AttrOutcome(a, [], false)
    else
      var ident := GetReplaceableIdentifier(c.identifier, a.val);
      var a1 := if c.isReplaceable then a.(val := ident) else a;
      match AssetEvent(c, a)
      case Err(_) => AttrOutcome(a1, [], true)
      case Ok(ev) =>
        if c.isReplaceable then AttrOutcome(a1, [ev], false)
        else match c.env.encodeEvent(ev.id, c.relays, c.pubKey)
          case Err(_) => AttrOutcome(a, [ev], true)
          case Ok(nevent) => AttrOutcome(a.(val := nevent), [ev], false)
  }

  /** What one attribute turns into, case by case. */
  lemma ConvertAttrCases(c: Ctx, a: Attr, r: AttrOutcome)
    requires r == ConvertAttr(c, a)
    // Nothing happens to an attribute that does not qualify, whose kind
    // pathToKind rejects, or whose file cannot be read.
    ensures !Qualifies(c, a) || AssetKind(c, a).Err? || !Readable(c, a) ==> r == AttrOutcome(a, [], false)
    ensures r.events != [] ==> Qualifies(c, a) && AssetKind(c, a).Ok? && Readable(c, a)
                               && AssetEvent(c, a) == Ok(r.events[0])
    // Replaceable: the reference becomes the asset's identifier before
    // signing, so it stays rewritten when signing fails.
    ensures c.isReplaceable && Qualifies(c, a) && AssetKind(c, a).Ok? && Readable(c, a) ==>
      r.attr.val == GetReplaceableIdentifier(c.identifier, a.val)
      && (r.events == [] <==> r.stop) && (r.stop <==> AssetEvent(c, a).Err?)
    // Immutable: the reference changes only once the event is queued, and
    // then to the event's nevent.
    ensures !c.isReplaceable && r.attr != a ==> |r.events| == 1
    ensures !c.isReplaceable && r.events != [] ==>
      var nevent := c.env.encodeEvent(r.events[0].id, c.relays, c.pubKey);
      (r.stop <==> nevent.Err?) && r.attr == (if nevent.Ok? then a.(val := nevent.value) else a)
  {
  }

  /** The attribute loop of one link/script element, with its `break`. */
  function ConvertAttrs(c: Ctx, attrs: seq<Attr>): (r: (seq<Attr>, seq<Event>))
    ensures |r.0| == |attrs|
    decreases |attrs|
  {
    if attrs == [] then ([], [])
    else
      var s := ConvertAttr(c, attrs[0]);
      if s.stop then ([s.attr] + attrs[1..], s.events)
      else
        var rest := ConvertAttrs(c, attrs[1..]);
        ([s.attr] + rest.0, s.events + rest.1)
  }

  /** convertLinks on a subtree: the rewritten subtree and the events it
      queued, the node's own before its children's, children in order. */
  function ConvertNode(c: Ctx, n: Node): (Node, seq<Event>)
    decreases n
  {
    var own := if IsLinkOrScript(n) then ConvertAttrs(c, n.attrs) else (n.attrs, []);
    var kids := ConvertChildren(c, n.children);
    (Node(n.ntype, n.data, own.0, kids.0), own.1 + kids.1)
  }

  function ConvertChildren(c: Ctx, cs: seq<Node>): (r: (seq<Node>, seq<Event>))
    ensures |r.0| == |cs|
    decreases cs
  {
    if cs == [] then ([], [])
    else
      var first := ConvertNode(c, cs[0]);
      var rest := ConvertChildren(c, cs[1..]);
      ([first.0] + rest.0, first.1 + rest.1)
  }

  /** Every attribute keeps its key; only qualifying attributes of link and
      script elements may change their value. */
  predicate AttrRewritten(c: Ctx, target: bool, before: Attr, after: Attr) {
    after.key == before.key && after.namespace == before.namespace &&
    (after.val != before.val ==> target && Qualifies(c, before))
  }

  predicate AttrsRewritten(c: Ctx, target: bool, before: seq<Attr>, after: seq<Attr>) {
    |after| == |before| &&
    forall i :: 0 <= i < |before| ==> AttrRewritten(c, target, before[i], after[i])
  }

  /** The tree after convertLinks differs from the one before only in such
      attribute values. */
  predicate Rewritten(c: Ctx, before: Node, after: Node)
    decreases before
  {
    after.ntype == before.ntype && after.data == before.data &&
    AttrsRewritten(c, IsLinkOrScript(before), before.attrs, after.attrs) &&
    |after.children| == |before.children| &&
    forall i :: 0 <= i < |before.children| ==> Rewritten(c, before.children[i], after.children[i])
  }

  lemma {:induction false} ConvertAttrsRewrites(c: Ctx, attrs: seq<Attr>)
    ensures AttrsRewritten(c, true, attrs, ConvertAttrs(c, attrs).0)
    decreases |attrs|
  {
    if attrs != [] {
      var s := ConvertAttr(c, attrs[0]);
      var r := ConvertAttrs(c, attrs).0;
      ConvertAttrCases(c, attrs[0], s);
      assert AttrRewritten(c, true, attrs[0], r[0]);
      if s.stop {
        assert r == [s.attr] + attrs[1..];
        assert forall i :: 1 <= i < |attrs| ==> r[i] == attrs[i];
      } else {
        ConvertAttrsRewrites(c, attrs[1..]);
        var rest := ConvertAttrs(c, attrs[1..]).0;
        assert r == [s.attr] + rest;
        forall i | 1 <= i < |attrs|
          ensures AttrRewritten(c, true, attrs[i], r[i])
        {
          assert r[i] == rest[i - 1] && attrs[i] == attrs[1..][i - 1];
        }
      }
    }
  }

  /** convertLinks changes nothing but the values of qualifying href/src
      attributes of link and script elements. */
  lemma {:induction false} ConvertRewritesOnly(c: Ctx, n: Node)
    ensures Rewritten(c, n, ConvertNode(c, n).0)
    decreases n
  {
    if IsLinkOrScript(n) { ConvertAttrsRewrites(c, n.attrs); }
    ConvertChildrenRewrite(c, n.children);
  }

  lemma {:induction false} ConvertChildrenRewrite(c: Ctx, cs: seq<Node>)
    ensures forall i :: 0 <= i < |cs| ==> Rewritten(c, cs[i], ConvertChildren(c, cs).0[i])
    decreases cs
  {
    if cs != [] {
      ConvertRewritesOnly(c, cs[0]);
      ConvertChildrenRewrite(c, cs[1..]);
      var r := ConvertChildren(c, cs).0;
      assert forall i :: 1 <= i < |cs| ==> r[i] == ConvertChildren(c, cs[1..]).0[i - 1] && cs[i] == cs[1..][i - 1];
    }
  }

  /** The qualifying attributes in document (pre-order) order. */
  function Qualifying(c: Ctx, attrs: seq<Attr>): seq<Attr>
    decreases |attrs|
  {
    if attrs == [] then []
    else (if Qualifies(c, attrs[0]) then [attrs[0]] else []) + Qualifying(c, attrs[1..])
  }

  function Targets(c: Ctx, n: Node): seq<Attr>
    decreases n
  {
    (if IsLinkOrScript(n) then Qualifying(c, n.attrs) else []) + TargetsOfChildren(c, n.children)
  }

  function TargetsOfChildren(c: Ctx, cs: seq<Node>): seq<Attr>
    decreases cs
  {
    if cs == [] then [] else Targets(c, cs[0]) + TargetsOfChildren(c, cs[1..])
  }

  /** Everything about this asset succeeds: its kind, its file, its
      signature and, when immutable, its nevent. */
  predicate Succeeds(c: Ctx, a: Attr) {
    Qualifies(c, a) && AssetKind(c, a).Ok? && Readable(c, a) && AssetEvent(c, a).Ok? &&
    (c.isReplaceable || c.env.encodeEvent(AssetEvent(c, a).value.id, c.relays, c.pubKey).Ok?)
  }

  predicate AllSucceed(c: Ctx, refs: seq<Attr>) {
    forall i :: 0 <= i < |refs| ==> Succeeds(c, refs[i])
  }

  /** The reference does not break its attribute loop: when it qualifies,
      has a known kind and a readable file, its signature and, when
      immutable, its nevent succeed. A reference skipped for its kind or
      its file queues nothing and the loop goes on. */
  predicate NoBreak(c: Ctx, a: Attr) {
    Qualifies(c, a) && AssetKind(c, a).Ok? && Readable(c, a) ==>
      AssetEvent(c, a).Ok? &&
      (c.isReplaceable || c.env.encodeEvent(AssetEvent(c, a).value.id, c.relays, c.pubKey).Ok?)
  }

  predicate NoneBreak(c: Ctx, refs: seq<Attr>) {
    forall i :: 0 <= i < |refs| ==> NoBreak(c, refs[i])
  }

  /** An asset that succeeds does not break the loop. */
  lemma AllSucceedNoneBreak(c: Ctx, refs: seq<Attr>)
    requires AllSucceed(c, refs)
    ensures NoneBreak(c, refs)
  {
  }

  /** The event a reference yields when it gets that far. */
  function EventsOf(c: Ctx, a: Attr): seq<Event> {
    if Qualifies(c, a) && AssetKind(c, a).Ok? && Readable(c, a) && AssetEvent(c, a).Ok?
    then [AssetEvent(c, a).value] else []
  }

  function EventsFn(c: Ctx): Attr -> seq<Event> {
    a => EventsOf(c, a)
  }

  /** The concatenation of f over a sequence. */
  function Flatten<A, B>(f: A -> seq<B>, xs: seq<A>): seq<B>
    decreases |xs|
  {
    if xs == [] then [] else f(xs[0]) + Flatten(f, xs[1..])
  }

  lemma {:induction false} FlattenAppend<A, B>(f: A -> seq<B>, xs: seq<A>, ys: seq<A>)
    ensures Flatten(f, xs + ys) == Flatten(f, xs) + Flatten(f, ys)
    decreases |xs|
  {
    if xs != [] {
      assert (xs + ys)[0] == xs[0];
      assert (xs + ys)[1..] == xs[1..] + ys;
      FlattenAppend(f, xs[1..], ys);
    } else {
      assert xs + ys == ys;
    }
  }

  lemma {:induction false} FlattenSingletons<A, B>(f: A -> seq<B>, xs: seq<A>)
    requires forall i :: 0 <= i < |xs| ==> |f(xs[i])| == 1
    ensures |Flatten(f, xs)| == |xs|
    ensures forall i :: 0 <= i < |xs| ==> [Flatten(f, xs)[i]] == f(xs[i])
    decreases |xs|
  {
    if xs != [] {
      var tail := xs[1..];
      assert forall i :: 0 <= i < |tail| ==> tail[i] == xs[i + 1];
      FlattenSingletons(f, tail);
      var r := Flatten(f, xs);
      assert r == f(xs[0]) + Flatten(f, tail);
      assert [r[0]] == f(xs[0]);
      assert forall i :: 1 <= i < |xs| ==> r[i] == Flatten(f, tail)[i - 1] && xs[i] == tail[i - 1];
    }
  }

  /** The events of a sequence of references, in order. */
  function AssetEvents(c: Ctx, refs: seq<Attr>): seq<Event> {
    Flatten(EventsFn(c), refs)
  }

  /** When all references succeed, each contributes exactly its event. */
  lemma AssetEventsAllSucceed(c: Ctx, refs: seq<Attr>)
    requires AllSucceed(c, refs)
    ensures |AssetEvents(c, refs)| == |refs|
    ensures forall i :: 0 <= i < |refs| ==> [AssetEvents(c, refs)[i]] == EventsOf(c, refs[i])
    ensures forall i :: 0 <= i < |refs| ==> AssetEvents(c, refs)[i] == AssetEvent(c, refs[i]).value
  {
    assert forall i :: 0 <= i < |refs| ==> |EventsFn(c)(refs[i])| == 1;
    FlattenSingletons(EventsFn(c), refs);
  }

  lemma NoneBreakSplit(c: Ctx, xs: seq<Attr>, ys: seq<Attr>)
    requires NoneBreak(c, xs + ys)
    ensures NoneBreak(c, xs) && NoneBreak(c, ys)
  {
    assert forall i :: 0 <= i < |xs| ==> xs[i] == (xs + ys)[i];
    assert forall i :: 0 <= i < |ys| ==> ys[i] == (xs + ys)[i + |xs|];
  }

  lemma {:induction false} ConvertAttrsQueue(c: Ctx, attrs: seq<Attr>)
    ensures |ConvertAttrs(c, attrs).1| <= |Qualifying(c, attrs)|
    ensures NoneBreak(c, Qualifying(c, attrs)) ==>
      ConvertAttrs(c, attrs).1 == AssetEvents(c, Qualifying(c, attrs))
    decreases |attrs|
  {
    if attrs != [] {
      var s := ConvertAttr(c, attrs[0]);
      ConvertAttrsQueue(c, attrs[1..]);
      var head := if Qualifies(c, attrs[0]) then [attrs[0]] else [];
      var q := Qualifying(c, attrs);
      assert q == head + Qualifying(c, attrs[1..]);
      if NoneBreak(c, q) {
        NoneBreakSplit(c, head, Qualifying(c, attrs[1..]));
        FlattenAppend(EventsFn(c), head, Qualifying(c, attrs[1..]));
        if Qualifies(c, attrs[0]) {
          ConvertAttrCases(c, attrs[0], s);
          assert NoBreak(c, head[0]);
          assert !s.stop;
          assert AssetEvents(c, head) == EventsFn(c)(attrs[0]) + Flatten(EventsFn(c), head[1..]);
        }
      }
    }
  }

  /** Queue order is pre-order order: at most one event per qualifying
      reference, and, when no reference breaks its loop, exactly the events
      of the references in document order, none for a skipped one. */
  lemma {:induction false} ConvertQueueOrder(c: Ctx, n: Node)
    ensures |ConvertNode(c, n).1| <= |Targets(c, n)|
    ensures NoneBreak(c, Targets(c, n)) ==> ConvertNode(c, n).1 == AssetEvents(c, Targets(c, n))
    decreases n
  {
    var own := if IsLinkOrScript(n) then Qualifying(c, n.attrs) else [];
    if IsLinkOrScript(n) { ConvertAttrsQueue(c, n.attrs); }
    ConvertChildrenQueueOrder(c, n.children);
    if NoneBreak(c, Targets(c, n)) {
      NoneBreakSplit(c, own, TargetsOfChildren(c, n.children));
    }
    FlattenAppend(EventsFn(c), own, TargetsOfChildren(c, n.children));
  }

  lemma {:induction false} ConvertChildrenQueueOrder(c: Ctx, cs: seq<Node>)
    ensures |ConvertChildren(c, cs).1| <= |TargetsOfChildren(c, cs)|
    ensures NoneBreak(c, TargetsOfChildren(c, cs)) ==>
      ConvertChildren(c, cs).1 == AssetEvents(c, TargetsOfChildren(c, cs))
    decreases cs
  {
    if cs != [] {
      ConvertQueueOrder(c, cs[0]);
      ConvertChildrenQueueOrder(c, cs[1..]);
      if NoneBreak(c, TargetsOfChildren(c, cs)) {
        NoneBreakSplit(c, Targets(c, cs[0]), TargetsOfChildren(c, cs[1..]));
      }
      FlattenAppend(EventsFn(c), Targets(c, cs[0]), TargetsOfChildren(c, cs[1..]));
    }
  }

  /** The outcome of Deploy: (eventId, encoded, identifier) or the error. */
  datatype DeployResult = Deployed(eventId: string, encoded: string, identifier: string) | Failed(msg: string)

  /** The root document's path. */
  function IndexPath(env: Env, basePath: string): string {
    env.join(basePath, "index.html")
  }

  /** Every step before the traversal succeeds: index.html is read and
      parsed, and the secret, the public key and the relays are obtained. */
  predicate Prepared(env: Env, world: World, basePath: string) {
    IndexPath(env, basePath) in env.fs && world.parse(env.fs[IndexPath(env, basePath)]).Ok? &&
    world.secret.Ok? && world.publicKey(world.secret.value).Ok? && world.relays.Ok?
  }

  /** The identifier: the given one, or the trimmed line read from the
      prompt when the deploy is replaceable and none was given. */
  function RootIdentifier(world: World, isReplaceable: bool, htmlIdentifier: string): string {
    if isReplaceable && |htmlIdentifier| < 1 then TrimSpace(world.stdinLine) else htmlIdentifier
  }

  /** The traversal's context once the steps before it succeed. */
  function DeployCtx(env: Env, world: World, basePath: string, isReplaceable: bool, htmlIdentifier: string): Ctx
    requires Prepared(env, world, basePath)
  {
    Ctx(env, world.secret.value, world.publicKey(world.secret.value).value, basePath,
        isReplaceable, RootIdentifier(world, isReplaceable, htmlIdentifier), world.relays.value)
  }

  /** The rewritten document and the asset events it queues. */
  function Converted(env: Env, world: World, basePath: string, isReplaceable: bool, htmlIdentifier: string)
    : (Node, seq<Event>)
    requires Prepared(env, world, basePath)
  {
    ConvertNode(DeployCtx(env, world, basePath, isReplaceable, htmlIdentifier),
                world.parse(env.fs[IndexPath(env, basePath)]).value)
  }

  /** The root event: the rendered rewritten document, signed by the
      deploy's key with the root kind and tags. */
  function RootEvent(env: Env, world: World, basePath: string, isReplaceable: bool, htmlIdentifier: string)
    : Result<Event>
    requires Prepared(env, world, basePath)
  {
    var c := DeployCtx(env, world, basePath, isReplaceable, htmlIdentifier);
    GetEvent(env, c.priKey, c.pubKey, world.render(Converted(env, world, basePath, isReplaceable, htmlIdentifier).0),
             RootKind(env.K, isReplaceable), RootTags(isReplaceable, c.identifier))
  }

  /** The address printed for an immutable deploy: the root's `nevent` over
      the relay list, or "" when encoding fails. */
  function Nevent(env: Env, root: Event, relays: seq<string>): string {
    var enc := env.encodeEvent(root.id, relays, root.pubkey);
    if enc.Ok? then enc.value else ""
  }

  /** The kind of the root document: the replaceable HTML kind exactly when
      the deploy is replaceable (not inverted, unlike pathToKind). */
  function RootKind(K: KindConsts, isReplaceable: bool): int {
    if isReplaceable then K.replaceableHtml else K.html
  }

  function RootTags(isReplaceable: bool, identifier: string): seq<Tag> {
    if isReplaceable then AppendUnique([], ["d", identifier]) else []
  }

  /** The root event carries `("d", identifier)` exactly when replaceable. */
  lemma RootTagsShape(isReplaceable: bool, identifier: string)
    ensures RootTags(isReplaceable, identifier) == (if isReplaceable then [["d", identifier]] else [])
  {
    if isReplaceable { AppendUniqueFresh([], "d", identifier); }
  }

  /** One step of the attribute loop, as ConvertAttrs takes it. */
  lemma ConvertAttrsUnfold(c: Ctx, attrs: seq<Attr>, i: nat)
    requires i < |attrs|
    ensures var s := ConvertAttr(c, attrs[i]);
      ConvertAttrs(c, attrs[i..]) ==
        if s.stop then ([s.attr] + attrs[i + 1..], s.events)
        else ([s.attr] + ConvertAttrs(c, attrs[i + 1..]).0, s.events + ConvertAttrs(c, attrs[i + 1..]).1)
  {
    assert attrs[i..][0] == attrs[i];
    assert attrs[i..][1..] == attrs[i + 1..];
  }

  lemma StepAt(before: seq<Attr>, after: seq<Attr>, i: nat)
    requires i < |before| == |after|
    requires forall k :: 0 <= k < |before| && k != i ==> after[k] == before[k]
    ensures after[..i + 1] == before[..i] + [after[i]]
    ensures after[i + 1..] == before[i + 1..]
  {
  }

  lemma StopAt(before: seq<Attr>, after: seq<Attr>, i: nat)
    requires i < |before| == |after|
    requires forall k :: 0 <= k < |before| && k != i ==> after[k] == before[k]
    ensures after == before[..i] + [after[i]] + before[i + 1..]
  {
  }

  /** Overwriting position i of a sequence, seen as prefix, element and
      tail. */
  lemma Splice<T>(before: seq<T>, after: seq<T>, tail: seq<T>, i: nat, v: T, y: seq<T>)
    requires i < |before| && after == before[i := v] && before[i + 1..] == tail
    ensures before[..i] + ([v] + y) == after[..i + 1] + y
    ensures before[..i] + ([v] + tail) == after
    ensures after[i + 1..] == tail
  {
    assert after[..i + 1] == before[..i] + [v];
  }

  /** One pass of the attribute loop keeps the loop's account with
      ConvertAttrs: after a break the whole result is known. */
  lemma AttrLoopStep(c: Ctx, attrs0: seq<Attr>, total: (seq<Attr>, seq<Event>), before: seq<Attr>,
                     after: seq<Attr>, i: nat, emitted: seq<Event>, s: AttrOutcome)
    requires i < |before| == |attrs0| && before[i..] == attrs0[i..]
    requires total.0 == before[..i] + ConvertAttrs(c, attrs0[i..]).0
    requires total.1 == emitted + ConvertAttrs(c, attrs0[i..]).1
    requires s == ConvertAttr(c, attrs0[i]) && after == before[i := s.attr]
    ensures s.stop ==> total == (after, emitted + s.events)
    ensures !s.stop ==>
      after[i + 1..] == attrs0[i + 1..] &&
      total.0 == after[..i + 1] + ConvertAttrs(c, attrs0[i + 1..]).0 &&
      total.1 == (emitted + s.events) + ConvertAttrs(c, attrs0[i + 1..]).1
  {
    ConvertAttrsUnfold(c, attrs0, i);
    assert before[i + 1..] == attrs0[i + 1..] by {
      assert before[i + 1..] == before[i..][1..] && attrs0[i + 1..] == attrs0[i..][1..];
    }
    Splice(before, after, attrs0[i + 1..], i, s.attr, ConvertAttrs(c, attrs0[i + 1..]).0);
  }

  /** One step of the child loop, as ConvertChildren takes it. */
  lemma ChildLoopStep(c: Ctx, cs: seq<Node>, j: nat)
    requires j < |cs|
    ensures ConvertChildren(c, cs[j..]).0 == [ConvertNode(c, cs[j]).0] + ConvertChildren(c, cs[j + 1..]).0
    ensures ConvertChildren(c, cs[j..]).1 == ConvertNode(c, cs[j]).1 + ConvertChildren(c, cs[j + 1..]).1
  {
    assert cs[j..][0] == cs[j];
    assert cs[j..][1..] == cs[j + 1..];
  }

  /** The deploy package's state: the event queue and the relay list. */
  class Deployer {
    var queue: seq<Event>
    var allRelays: seq<string>

    constructor ()
      ensures queue == [] && allRelays == []
    {
      queue := [];
      allRelays := [];
    }

    /** addNostrEventQueue. */
    method AddNostrEventQueue(event: Event)
      modifies this`queue
      ensures queue == old(queue) + [event]
    {
      queue := queue + [event];
    }

    /** The body of convertLinks' attribute loop for one attribute: the
        attribute afterwards and whether the loop breaks. */
    method ConvertAttribute(env: Env, priKey: string, pubKey: string, basePath: string,
                            isReplaceable: bool, identifier: string, a: Attr) returns (attr: Attr, stop: bool)
      modifies this`queue
      ensures var s := ConvertAttr(Ctx(env, priKey, pubKey, basePath, isReplaceable, identifier, allRelays), a);
        attr == s.attr && stop == s.stop && queue == old(queue) + s.events
    {
      attr, stop := a, false;
      if (a.key == "href" || a.key == "src") && !IsExternalURL(env, a.val) && IsValidFileType(a.val) {
        var filePath := env.join(basePath, a.val);
        var kind := PathToKind(env.K, filePath, isReplaceable);
        if kind.Err? {
          return;
        }
        if filePath !in env.fs {
          // "Failed to read": skip this reference.
          return;
        }
        var bytesContent := env.fs[filePath];
        var tags: seq<Tag> := [];
        if isReplaceable {
          var fileIdentifier := GetReplaceableIdentifier(identifier, a.val);
          tags := AppendUnique(tags, ["d", fileIdentifier]);
          attr := a.(val := fileIdentifier);
        }
        var event := GetEvent(env, priKey, pubKey, bytesContent, kind.value, tags);
        if event.Err? {
          stop := true;
          return;
        }
        AddNostrEventQueue(event.value);
        if !isReplaceable {
          var nevent := env.encodeEvent(event.value.id, allRelays, pubKey);
          if nevent.Err? {
            stop := true;
            return;
          }
          attr := a.(val := nevent.value);
        }
      }
    }

    /** The attribute loop of convertLinks on a link or script element. */
    method ConvertElementAttrs(env: Env, priKey: string, pubKey: string, basePath: string,
                               isReplaceable: bool, identifier: string, attrs0: seq<Attr>) returns (attrs: seq<Attr>)
      modifies this`queue
      ensures var c := Ctx(env, priKey, pubKey, basePath, isReplaceable, identifier, allRelays);
        attrs == ConvertAttrs(c, attrs0).0 && queue == old(queue) + ConvertAttrs(c, attrs0).1
    {
      ghost var c := Ctx(env, priKey, pubKey, basePath, isReplaceable, identifier, allRelays);
      ghost var total := ConvertAttrs(c, attrs0);
      ghost var q0 := queue;
      ghost var emitted: seq<Event> := [];
      attrs := attrs0;
      var i := 0;
      assert attrs0[0..] == attrs0;
      while i < |attrs|
        invariant 0 <= i <= |attrs| == |attrs0|
        invariant attrs[i..] == attrs0[i..]
        invariant queue == q0 + emitted
        invariant total.0 == attrs[..i] + ConvertAttrs(c, attrs0[i..]).0
        invariant total.1 == emitted + ConvertAttrs(c, attrs0[i..]).1
      {
        ghost var before := attrs;
        assert attrs[i] == attrs0[i] by { assert attrs[i] == attrs[i..][0]; }
        ghost var s := ConvertAttr(c, attrs0[i]);
        var attr, stop := ConvertAttribute(env, priKey, pubKey, basePath, isReplaceable, identifier, attrs[i]);
        attrs := attrs[i := attr];
        AttrLoopStep(c, attrs0, total, before, attrs, i, emitted, s);
        emitted := emitted + s.events;
        if stop {
          return;
        }
        i := i + 1;
      }
      assert attrs0[i..] == [];
      assert attrs[..i] == attrs;
    }

    /** convertLinks: rewrites the subtree's references and appends the
        asset events to the queue in pre-order. */
    method ConvertLinks(env: Env, priKey: string, pubKey: string, basePath: string,
                        isReplaceable: bool, identifier: string, n: Node) returns (out: Node)
      modifies this`queue
      ensures var c := Ctx(env, priKey, pubKey, basePath, isReplaceable, identifier, allRelays);
        out == ConvertNode(c, n).0 && queue == old(queue) + ConvertNode(c, n).1
      decreases n
    {
      ghost var c := Ctx(env, priKey, pubKey, basePath, isReplaceable, identifier, allRelays);
      var attrs := n.attrs;
      if IsLinkOrScript(n) {
        attrs := ConvertElementAttrs(env, priKey, pubKey, basePath, isReplaceable, identifier, n.attrs);
      }

      var kids := ConvertChildLinks(env, priKey, pubKey, basePath, isReplaceable, identifier, n.children);
      out := Node(n.ntype, n.data, attrs, kids);
    }

    /** The child loop of convertLinks: each child subtree in turn. */
    method ConvertChildLinks(env: Env, priKey: string, pubKey: string, basePath: string,
                             isReplaceable: bool, identifier: string, cs: seq<Node>) returns (kids: seq<Node>)
      modifies this`queue
      ensures var c := Ctx(env, priKey, pubKey, basePath, isReplaceable, identifier, allRelays);
        kids == ConvertChildren(c, cs).0 && queue == old(queue) + ConvertChildren(c, cs).1
      decreases cs
    {
      ghost var c := Ctx(env, priKey, pubKey, basePath, isReplaceable, identifier, allRelays);
      ghost var total := ConvertChildren(c, cs);
      ghost var q0 := queue;
      ghost var fromChildren: seq<Event> := [];
      kids := [];
      var j := 0;
      assert cs[0..] == cs;
      while j < |cs|
        invariant 0 <= j <= |cs|
        invariant queue == q0 + fromChildren
        invariant total.0 == kids + ConvertChildren(c, cs[j..]).0
        invariant total.1 == fromChildren + ConvertChildren(c, cs[j..]).1
      {
        ChildLoopStep(c, cs, j);
        var k := ConvertLinks(env, priKey, pubKey, basePath, isReplaceable, identifier, cs[j]);
        fromChildren := fromChildren + ConvertNode(c, cs[j]).1;
        kids := kids + [k];
        j := j + 1;
      }
      assert cs[j..] == [];
    }

    /** publishEventsFromQueue (sequential): every event is offered to every
        relay that connected, the counter reaches the queue length so no
        failure is reported, and the result is the last queued event, which
        Deploy makes the root; the nevent is only produced when not
        replaceable and is "" when its encoding fails. */
    method PublishEventsFromQueue(isReplaceable: bool, env: Env, connect: Fanout.Connector, publish: Fanout.Publisher)
      returns (eventId: string, encoded: string, attempts: seq<seq<Fanout.Attempt>>, failureReported: bool)
      requires |queue| > 0
      ensures eventId == queue[|queue| - 1].id
      ensures !failureReported
      ensures isReplaceable ==> encoded == ""
      ensures !isReplaceable ==>
        var enc := env.encodeEvent(queue[|queue| - 1].id, allRelays, queue[|queue| - 1].pubkey);
        encoded == (if enc.Ok? then enc.value else "")
      ensures Fanout.FannedOut(attempts, queue, Fanout.Connected(allRelays, connect), publish)
    {
      var relays := Fanout.ConnectAll(allRelays, connect);
      var allEventsCount := |queue|;
      var uploadedFilesCount;
      attempts, uploadedFilesCount := Fanout.PublishAll(queue, relays, publish);
      failureReported := uploadedFilesCount < allEventsCount;
      var indexEvent := queue[|queue| - 1];
      encoded := "";
      if !isReplaceable {
        var enc := env.encodeEvent(indexEvent.id, allRelays, indexEvent.pubkey);
        if enc.Ok? {
          encoded := enc.value;
        }
      }
      eventId := indexEvent.id;
    }

    /** Deploy: reads and parses index.html, obtains the keys, the
        identifier (prompting when replaceable and none was given) and the
        relays, rewrites the document, queues the root event last and
        publishes the queue. */
    method Deploy(env: Env, world: World, basePath: string, isReplaceable: bool, htmlIdentifier: string)
      returns (r: DeployResult, attempts: seq<seq<Fanout.Attempt>>)
      modifies this
      // When every step succeeds, the asset events and then the root event
      // are queued, the whole queue is published to every connected relay,
      // and the root's ID, its address and the identifier are the result; a
      // failure to sign the root leaves the asset events queued.
      ensures r.Failed? ==> attempts == []
      ensures Prepared(env, world, basePath) && RootEvent(env, world, basePath, isReplaceable, htmlIdentifier).Ok? ==>
        Fanout.FannedOut(attempts, queue, Fanout.Connected(allRelays, world.connect), world.publish)
      ensures Prepared(env, world, basePath) ==>
        var converted := Converted(env, world, basePath, isReplaceable, htmlIdentifier);
        var root := RootEvent(env, world, basePath, isReplaceable, htmlIdentifier);
        allRelays == world.relays.value &&
        (root.Err? ==> r == Failed(root.msg) && queue == old(queue) + converted.1) &&
        (root.Ok? ==>
           queue == old(queue) + converted.1 + [root.value] &&
           r == Deployed(root.value.id, if isReplaceable then "" else Nevent(env, root.value, allRelays),
                         RootIdentifier(world, isReplaceable, htmlIdentifier)))
      ensures r.Deployed? ==> Prepared(env, world, basePath)
      // The steps before the traversal return their error with nothing
      // queued and, before the relays are read, the relay list unchanged.
      ensures var path := IndexPath(env, basePath);
        path !in env.fs ==>
          r == Failed(world.readError(path)) && queue == old(queue) && allRelays == old(allRelays)
      ensures var path := IndexPath(env, basePath);
        path in env.fs && world.parse(env.fs[path]).Err? ==>
          r == Failed(world.parse(env.fs[path]).msg) && queue == old(queue) && allRelays == old(allRelays)
      ensures var path := IndexPath(env, basePath);
        path in env.fs && world.parse(env.fs[path]).Ok? && world.secret.Err? ==>
          r == Failed(world.secret.msg) && queue == old(queue) && allRelays == old(allRelays)
      ensures var path := IndexPath(env, basePath);
        path in env.fs && world.parse(env.fs[path]).Ok? && world.secret.Ok? &&
        world.publicKey(world.secret.value).Err? ==>
          r == Failed(world.publicKey(world.secret.value).msg) && queue == old(queue) && allRelays == old(allRelays)
      ensures var path := IndexPath(env, basePath);
        path in env.fs && world.parse(env.fs[path]).Ok? && world.secret.Ok? &&
        world.publicKey(world.secret.value).Ok? && world.relays.Err? ==>
          r == Failed(world.relays.msg) && queue == old(queue) && allRelays == []
    {
      var filePath := env.join(basePath, "index.html");
      if filePath !in env.fs {
        return Failed(world.readError(filePath)), [];
      }
      var content := env.fs[filePath];
      var doc := world.parse(content);
      if doc.Err? {
        return Failed(doc.msg), [];
      }
      var priKey := world.secret;
      if priKey.Err? {
        return Failed(priKey.msg), [];
      }
      var pubKey := world.publicKey(priKey.value);
      if pubKey.Err? {
        return Failed(pubKey.msg), [];
      }
      var identifier := htmlIdentifier;
      if isReplaceable && |identifier| < 1 {
        identifier := TrimSpace(world.stdinLine);
      }
      // `allRelays, err = relays.GetAllRelays()` assigns nil on error.
      if world.relays.Err? {
        allRelays := [];
        return Failed(world.relays.msg), [];
      }
      allRelays := world.relays.value;
      ghost var q0 := queue;
      var converted := ConvertLinks(env, priKey.value, pubKey.value, basePath, isReplaceable, identifier, doc.value);
      var strHtml := world.render(converted);
      var indexHtmlKind := RootKind(env.K, isReplaceable);
      var tags := RootTags(isReplaceable, identifier);
      var event := GetEvent(env, priKey.value, pubKey.value, strHtml, indexHtmlKind, tags);
      if event.Err? {
        return Failed(event.msg), [];
      }
      AddNostrEventQueue(event.value);
      var eventId, encoded, published, _ := PublishEventsFromQueue(isReplaceable, env, world.connect, world.publish);
      r, attempts := Deployed(eventId, encoded, identifier), published;
    }
  }
}
