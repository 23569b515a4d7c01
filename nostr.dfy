/** The Nostr vocabulary shared by the deploy and serve code: events, tags
    with go-nostr's lookup rules, query filters, and the kind numbers of the
    `consts` package, which are not part of this model and so are taken as
    parameters. */
module Nostr {
  import opened Base

  /** The kind numbers named in the `consts` package. Their values are not
      known here; the model only relies on them being pairwise distinct. */
  datatype KindConsts = KindConsts(
    html: int, replaceableHtml: int,
    css: int, replaceableCss: int,
    js: int, replaceableJs: int,
    picture: int,
    textFile: int, replaceableTextFile: int)
  {
    predicate Distinct() {
      var ks := [html, replaceableHtml, css, replaceableCss, js, replaceableJs,
                 picture, textFile, replaceableTextFile];
      forall i, j :: 0 <= i < j < |ks| ==> ks[i] != ks[j]
    }

    /** The kind numbers the text-file builder writes as literals. */
    predicate TextFileKindsAreNip95() {
      textFile == 1064 && replaceableTextFile == 30064
    }
  }

  /** Distinctness spelled out pair by pair. */
  lemma DistinctKinds(K: KindConsts)
    requires K.Distinct()
    ensures K.html != K.replaceableHtml && K.html != K.css && K.html != K.replaceableCss
    ensures K.html != K.js && K.html != K.replaceableJs && K.html != K.picture
    ensures K.html != K.textFile && K.html != K.replaceableTextFile && K.replaceableHtml != K.css
    ensures K.replaceableHtml != K.replaceableCss && K.replaceableHtml != K.js && K.replaceableHtml != K.replaceableJs
    ensures K.replaceableHtml != K.picture && K.replaceableHtml != K.textFile && K.replaceableHtml != K.replaceableTextFile
    ensures K.css != K.replaceableCss && K.css != K.js && K.css != K.replaceableJs
    ensures K.css != K.picture && K.css != K.textFile && K.css != K.replaceableTextFile
    ensures K.replaceableCss != K.js && K.replaceableCss != K.replaceableJs && K.replaceableCss != K.picture
    ensures K.replaceableCss != K.textFile && K.replaceableCss != K.replaceableTextFile && K.js != K.replaceableJs
    ensures K.js != K.picture && K.js != K.textFile && K.js != K.replaceableTextFile
    ensures K.replaceableJs != K.picture && K.replaceableJs != K.textFile && K.replaceableJs != K.replaceableTextFile
    ensures K.picture != K.textFile && K.picture != K.replaceableTextFile && K.textFile != K.replaceableTextFile
  {
    var ks := [K.html, K.replaceableHtml, K.css, K.replaceableCss, K.js, K.replaceableJs,
               K.picture, K.textFile, K.replaceableTextFile];
    assert ks[0] == K.html && ks[1] == K.replaceableHtml && ks[2] == K.css;
    assert ks[3] == K.replaceableCss && ks[4] == K.js && ks[5] == K.replaceableJs;
    assert ks[6] == K.picture && ks[7] == K.textFile && ks[8] == K.replaceableTextFile;
  }

  /** `nostr.Tag` is a list of strings: a key followed by values. */
  type Tag = seq<string>

  /** `Tag.StartsWith`: all prefix elements but the last are equal, the last
      one is a string prefix of the tag's element. The model is total: an
      empty prefix starts every tag here, whereas the library would index
      the prefix at -1 and panic. The callers modelled here pass a literal
      non-empty prefix, except AppendUnique, which passes an empty one only
      for an empty tag. */
  predicate StartsWith(tag: Tag, prefix: Tag) {
    |prefix| <= |tag| &&
    (forall i :: 0 <= i < |prefix| - 1 ==> prefix[i] == tag[i]) &&
    (|prefix| == 0 || HasPrefix(tag[|prefix| - 1], prefix[|prefix| - 1]))
  }

  /** `Tags.GetFirst`: the first tag that starts with the prefix, or nil. */
  function GetFirst(tags: seq<Tag>, prefix: Tag): (r: Option<Tag>)
    ensures r.Some? ==> r.value in tags && StartsWith(r.value, prefix)
    ensures r.None? ==> forall t :: t in tags ==> !StartsWith(t, prefix)
  {
    if tags == [] then None
    else if StartsWith(tags[0], prefix) then Some(tags[0])
    else GetFirst(tags[1..], prefix)
  }

  /** GetFirst finds the first match: when tag `i` starts with the prefix
      and no tag before it does, the result is tag `i`. */
  lemma {:induction false} GetFirstIsFirst(tags: seq<Tag>, prefix: Tag, i: nat)
    requires i < |tags| && StartsWith(tags[i], prefix)
    requires forall j :: 0 <= j < i ==> !StartsWith(tags[j], prefix)
    ensures GetFirst(tags, prefix) == Some(tags[i])
    decreases i
  {
    if i > 0 {
      assert !StartsWith(tags[0], prefix);
      assert forall j :: 0 <= j < i - 1 ==> tags[1..][j] == tags[j + 1];
      GetFirstIsFirst(tags[1..], prefix, i - 1);
    }
  }

  /** `Tag.Value`: the tag's second element, or "" for a tag of fewer. It
      is a value method, so calling it through the nil `*Tag` that
      `GetFirst` returns when nothing matches is a nil dereference; callers
      model that case themselves. */
  function Value(t: Tag): string {
    if |t| > 1 then t[1] else ""
  }

  /** `Tags.AppendUnique`: appends unless a tag already starts with the
      new tag's first two elements. */
  function AppendUnique(tags: seq<Tag>, tag: Tag): (r: seq<Tag>)
    ensures r == tags || r == tags + [tag]
    ensures var key := tag[..if |tag| > 2 then 2 else |tag|];
      (r == tags + [tag] <==> forall t :: t in tags ==> !StartsWith(t, key)) &&
      (r == tags <==> exists t :: t in tags && StartsWith(t, key))
  {
    var n := if |tag| > 2 then 2 else |tag|;
    if GetFirst(tags, tag[..n]).None? then tags + [tag] else tags
  }

  /** On a tag list with no tag of that key, AppendUnique appends. */
  lemma AppendUniqueFresh(tags: seq<Tag>, key: string, value: string)
    requires forall t :: t in tags ==> |t| >= 1 && !HasPrefix(t[0], key)
    ensures AppendUnique(tags, [key, value]) == tags + [[key, value]]
  {
    assert [key, value][..2] == [key, value];
  }

  /** A `nostr.Event`; `content` is the Go string as bytes. */
  datatype Event = Event(
    id: string, pubkey: string, createdAt: int, kind: int,
    tags: seq<Tag>, content: seq<byte>, sig: string)

  /** What signing adds to an event: its ID (the hash) and signature. */
  datatype Signature = Signature(id: string, sig: string)

  /** `ev.Sign(priKey)`: an oracle from the private key and the unsigned
      event to its ID and signature, or an error. */
  type Signer = (string, Event) -> Result<Signature>

  /** An unsigned event as the deploy code builds it before `Sign`. */
  function Unsigned(pubKey: string, now: int, kind: int, tags: seq<Tag>, content: seq<byte>): Event {
    Event("", pubKey, now, kind, tags, content, "")
  }

  /** The result of signing the unsigned event: the same fields plus the
      oracle's ID and signature, or the oracle's error. */
  function Signed(sign: Signer, priKey: string, ev: Event): (r: Result<Event>)
    ensures r.Ok? <==> sign(priKey, ev).Ok?
    ensures r.Ok? ==> r.value == ev.(id := sign(priKey, ev).value.id, sig := sign(priKey, ev).value.sig)
    ensures r.Err? ==> r.msg == sign(priKey, ev).msg
  {
    match sign(priKey, ev)
    case Ok(s) => Ok(ev.(id := s.id, sig := s.sig))
    case Err(e) => Err(e)
  }

  /** `nostr.Filter`, restricted to the fields the servers set. */
  datatype Filter = Filter(
    kinds: seq<int>, ids: seq<string>, authors: seq<string>,
    tags: map<string, seq<string>>)

  /** `SimplePool.QuerySingle`: the first matching event from the relays,
      or nil. An oracle. */
  type Query = (seq<string>, Filter) -> Option<Event>

  /** A NIP-19 entity as `nip19.Decode` returns it. */
  datatype Decoded =
    | EventPointer(id: string, relays: seq<string>, author: string)
    | PublicKey(hex: string)
    | OtherEntity(prefix: string)

  /** `nip19.Decode`: an oracle. */
  type Decoder = string -> Result<Decoded>

  /** `nip19.EncodeEvent(id, relays, author)`: an oracle. */
  type NeventEncoder = (string, seq<string>, string) -> Result<string>
}
