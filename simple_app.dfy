/**
  The browser application's part in starting an interop (`simple_app.cc`): the
  first page's URL gets an `afx=` query parameter describing the interop the
  page wants, and when a page's context is created that parameter is read back
  and picks the interop object to create.
*/
module SimpleApp {
  import opened Wrappers
  import opened Text

  // ---------------------------------------------------------------------------
  // The URL of the first page

  /** What the first browser window shows. */
  datatype StartPage =
    | Page(html: string)   // a page given inline, as a data URI
    | Address(url: string)

  /** The page shown when no URL was passed on the command line. */
  const ForgottenUrlPage: string :=
    "<html><body bgcolor=\"white\"><h2>You forgot to pass the URL d(o)(O)b</h2></body></html>"

  /**
    `OnContextInitialized`: the URL `argUrl` with `afx=` plus `encoded` (the
    URI-encoded description of the index interop) added to its query, in front
    of its fragment; an empty URL gives the inline page instead.
  */
  function StartPageFor(argUrl: string, encoded: string): (r: StartPage)
    ensures r.Page? <==> argUrl == []
  {
    if argUrl == [] then Page(ForgottenUrlPage)
    else Address(RewriteUrl(argUrl, encoded))
  }

  /**
    The rewrite itself: the path (before the first `?`, itself before the first
    `#`), `?`, the new query, then the fragment from the first `#` on.
  */
  function RewriteUrl(argUrl: string, encoded: string): string
  {
    Before(Before(argUrl, '#'), '?') + "?" + NewQuery(argUrl, encoded) + From(argUrl, '#')
  }

  /** The text after the first `?`, or nothing. */
  function QueryPart(s: string): (r: string)
    ensures '?' !in s ==> r == []
  {
    match FirstIndexOf(s, '?')
    case None => []
    case Some(i) => s[i + 1..]
  }

  /** A non-empty query gets a `&` before the parameter joins it. */
  function Joined(query: string): string
  {
    if 0 < |query| then query + "&" else ""
  }

  function Parameter(encoded: string): string
  {
    "afx=" + encoded
  }

  /** The query the rewritten URL carries: the old one, joined, and the parameter. */
  function NewQuery(argUrl: string, encoded: string): string
  {
    Joined(QueryPart(Before(argUrl, '#'))) + Parameter(encoded)
  }

  /** The path, the text before the first `?` (and before any `#`), starts the result, followed by `?`. */
  lemma RewriteKeepsPath(argUrl: string, encoded: string)
    ensures Before(Before(argUrl, '#'), '?') + "?" <= RewriteUrl(argUrl, encoded)
  {
    var p := Before(Before(argUrl, '#'), '?') + "?";
    AppendAssociative(p, NewQuery(argUrl, encoded), From(argUrl, '#'));
  }

  /** Without `#` the result ends with the parameter. */
  lemma RewriteWithoutFragment(argUrl: string, encoded: string)
    requires '#' !in argUrl
    ensures EndsWithText(RewriteUrl(argUrl, encoded), Parameter(encoded))
  {
    var a := Before(Before(argUrl, '#'), '?') + "?";
    var n := NewQuery(argUrl, encoded);
    assert RewriteUrl(argUrl, encoded) == a + n + [];
    assert a + n + [] == a + n;
    SuffixOfSuffix(Joined(QueryPart(Before(argUrl, '#'))), Parameter(encoded), Parameter(encoded));
    SuffixOfSuffix(a, n, Parameter(encoded));
  }

  lemma SuffixOfSuffix(x: string, y: string, t: string)
    requires EndsWithText(y, t)
    ensures EndsWithText(x + y, t)
  {
    assert (x + y)[|x + y| - |t|..] == y[|y| - |t|..];
  }

  predicate EndsWithText(s: string, t: string)
  {
    |t| <= |s| && s[|s| - |t|..] == t
  }

  /** The fragment, from the first `#` on, ends the result. */
  lemma RewriteKeepsFragment(argUrl: string, encoded: string, i: nat)
    requires i < |argUrl| && argUrl[i] == '#' && '#' !in argUrl[..i]
    ensures EndsWithText(RewriteUrl(argUrl, encoded), argUrl[i..])
  {
    FirstIndexOfAt(argUrl, '#', i);
    var a := Before(Before(argUrl, '#'), '?') + "?" + NewQuery(argUrl, encoded);
    var f := argUrl[i..];
    assert RewriteUrl(argUrl, encoded) == a + f;
    assert (a + f)[|a + f| - |f|..] == f;
  }

  /** Without `?` and `#` the URL is kept whole and the query is the parameter alone. */
  lemma RewritePlainUrl(argUrl: string, encoded: string)
    requires '?' !in argUrl && '#' !in argUrl
    ensures RewriteUrl(argUrl, encoded) == argUrl + "?" + Parameter(encoded)
  {
    assert NewQuery(argUrl, encoded) == Parameter(encoded);
    assert argUrl + "?" + Parameter(encoded) + [] == argUrl + "?" + Parameter(encoded);
  }

  /** An existing non-empty query is kept and joined to the parameter by `&`. */
  lemma RewriteKeepsQuery(path: string, query: string, encoded: string)
    requires '?' !in path && '#' !in path && '#' !in query && |query| > 0
    ensures RewriteUrl(path + "?" + query, encoded) == path + "?" + (query + "&") + Parameter(encoded)
  {
    var url := path + "?" + query;
    FirstIndexOfAt(url, '?', |path|);
    assert url[..|path|] == path;
    assert url[|path| + 1..] == query;
    assert NewQuery(url, encoded) == (query + "&") + Parameter(encoded);
    var n := NewQuery(url, encoded);
    assert path + "?" + n + [] == path + "?" + n;
    AppendAssociative(path + "?", query + "&", Parameter(encoded));
  }

  lemma AppendAssociative(a: string, b: string, c: string)
    ensures a + (b + c) == a + b + c
  {
  }

  // ---------------------------------------------------------------------------
  // Reading the parameter back

  /**
    `OnContextCreated`: the value of the first `afx=` in the query, up to the
    next `&` or the end; nothing when the query has no `afx=`.
  */
  function ExtractAfx(query: string): (r: Option<string>)
    ensures r.None? <==> forall j :: 0 <= j <= |query| ==> !OccursAt(query, "afx=", j)
    ensures r.Some? ==> '&' !in r.value
  {
    match Find(query, "afx=")
    case None => None
    case Some(pos) => Some(Before(query[pos + 4..], '&'))
  }

  /** The query of a URL: what follows its first `?`, up to its first `#`. */
  function QueryOf(url: string): string
  {
    QueryPart(Before(url, '#'))
  }

  /**
    The parameter the rewrite adds is the one read back, as long as the original
    query had no `afx=` of its own and the encoded text holds no `&` or `#`
    (URI encoding escapes both).
  */
  lemma ExtractAfterRewrite(argUrl: string, encoded: string)
    requires argUrl != []
    requires forall j :: 0 <= j <= |QueryOf(argUrl)| ==> !OccursAt(QueryOf(argUrl), "afx=", j)
    requires '&' !in encoded && '#' !in encoded
    ensures ExtractAfx(QueryOf(RewriteUrl(argUrl, encoded))) == Some(encoded)
  {
    QueryOfRewrite(argUrl, encoded);
    FindAfterQuery(QueryOf(argUrl), encoded);
  }

  /** The rewritten URL's query is the new query. */
  lemma QueryOfRewrite(argUrl: string, encoded: string)
    requires '#' !in encoded
    ensures QueryOf(RewriteUrl(argUrl, encoded)) == NewQuery(argUrl, encoded)
  {
    var nq := NewQuery(argUrl, encoded);
    var prefix := Before(Before(argUrl, '#'), '?');
    var suffix := From(argUrl, '#');
    var head := prefix + "?" + nq;
    assert RewriteUrl(argUrl, encoded) == head + suffix;
    QueryHasNoHash(argUrl, encoded);
    assert '#' !in head;
    BeforeAppend(head, suffix, '#');
    assert suffix == [] || suffix[0] == '#';
    assert Before(RewriteUrl(argUrl, encoded), '#') == head;
    FirstIndexOfAt(head, '?', |prefix|);
    assert head[|prefix| + 1..] == nq;
  }

  lemma QueryHasNoHash(argUrl: string, encoded: string)
    requires '#' !in encoded
    ensures '#' !in NewQuery(argUrl, encoded)
  {
    var b := Before(argUrl, '#');
    match FirstIndexOf(b, '?')
    case None =>
    case Some(i) =>
      assert forall x :: x in b[i + 1..] ==> x in b;
  }

  /** In `query & afx=encoded` (or `afx=encoded`) the first `afx=` is the added one. */
  lemma FindAfterQuery(query: string, encoded: string)
    requires forall j :: 0 <= j <= |query| ==> !OccursAt(query, "afx=", j)
    requires '&' !in encoded
    ensures ExtractAfx(Joined(query) + Parameter(encoded)) == Some(encoded)
  {
    var head := Joined(query);
    var nq := head + Parameter(encoded);
    assert OccursAt(nq, "afx=", |head|);
    forall j | 0 <= j < |head|
      ensures !OccursAt(nq, "afx=", j)
    {
      if j + 4 <= |query| {
        assert nq[j..j + 4] == query[j..j + 4];
        assert !OccursAt(query, "afx=", j);
      } else {
        // The text at `j` covers the `&` at |query|, which "afx=" does not hold.
        assert nq[j..j + 4][|query| - j] == '&';
        assert "afx="[|query| - j] != '&';
      }
    }
    assert nq[|head| + 4..] == encoded;
  }

  // ---------------------------------------------------------------------------
  // Choosing the interop to create

  /** A value of the parameter's JSON dictionary, as far as the choice looks at it. */
  datatype JsonValue = Str(s: string) | Int(i: int) | OtherValue

  /** `GetString`: the text of a string value, and the empty text for any other value. */
  function StringOf(v: JsonValue): string
  {
    if v.Str? then v.s else []
  }

  /** The interop objects a page can be given. */
  datatype Factory = DrawingFactory | EngineFactory | IndexFactory

  function FactoryName(f: Factory): string
  {
    match f
    case DrawingFactory => "drawing"
    case EngineFactory => "engine"
    case IndexFactory => "index"
  }

  /**
    The choice in `OnContextCreated`: nothing unless `interopType`, `argStr`
    and `handlerId` are all present; then the factory named by `interopType`.
  */
  function ChooseFactory(info: map<string, JsonValue>): Option<Factory>
  {
    if "interopType" in info && "argStr" in info && "handlerId" in info then
      var t := StringOf(info["interopType"]);
      if t == "drawing" then Some(DrawingFactory)
      else if t == "engine" then Some(EngineFactory)
      else if t == "index" then Some(IndexFactory)
      else None
    else None
  }

  /** A factory is chosen exactly when the three keys are present and `interopType` names it. */
  lemma ChooseFactoryIff(info: map<string, JsonValue>, f: Factory)
    ensures ChooseFactory(info) == Some(f) <==>
      "interopType" in info && "argStr" in info && "handlerId" in info
      && info["interopType"] == Str(FactoryName(f))
  {
  }

  /** The dictionary the first page is given (`interopType` "index", `argStr`, `handlerId`). */
  function IndexInfo(argStr: string, handlerId: int): map<string, JsonValue>
  {
    map["interopType" := Str("index"), "argStr" := Str(argStr), "handlerId" := Int(handlerId)]
  }

  /** The first page is given the index interop. */
  lemma FirstPageGetsIndex(argStr: string, handlerId: int)
    ensures ChooseFactory(IndexInfo(argStr, handlerId)) == Some(IndexFactory)
  {
    ChooseFactoryIff(IndexInfo(argStr, handlerId), IndexFactory);
  }
}
