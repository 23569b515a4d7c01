/** cmd/tools/getContentType.go: the content type served for a kind, in
    the generation that knows only the web-host kinds. */
module CmdTools {
  import opened Base
  import opened Nostr

  const HtmlType := "text/html; charset=utf-8"
  const CssType := "text/css; charset=utf-8"
  const JsType := "text/javascript; charset=utf-8"

  /** GetContentType(kind). */
  function GetContentType(K: KindConsts, kind: int): Result<string> {
    if kind == K.html || kind == K.replaceableHtml then Ok(HtmlType)
    else if kind == K.css || kind == K.replaceableCss then Ok(CssType)
    else if kind == K.js || kind == K.replaceableJs then Ok(JsType)
    else Err("Invalid Kind")
  }

  /** The table is closed: exactly the six web-host kinds have a type, the
      immutable and replaceable variant of each file type share it, and
      every other kind is an error. */
  lemma ContentTypeTable(K: KindConsts, kind: int)
    ensures GetContentType(K, kind).Ok? <==>
      kind in [K.html, K.replaceableHtml, K.css, K.replaceableCss, K.js, K.replaceableJs]
    ensures GetContentType(K, K.html) == GetContentType(K, K.replaceableHtml) == Ok(HtmlType)
    ensures K.Distinct() ==> GetContentType(K, K.css) == GetContentType(K, K.replaceableCss) == Ok(CssType)
    ensures K.Distinct() ==> GetContentType(K, K.js) == GetContentType(K, K.replaceableJs) == Ok(JsType)
    ensures GetContentType(K, kind).Ok? ==> GetContentType(K, kind).value in [HtmlType, CssType, JsType]
  {
    if K.Distinct() { DistinctKinds(K); }
  }
}
