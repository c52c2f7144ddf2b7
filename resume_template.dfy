/**
 * The link and lookup helpers of the resume HTML template: `ensureHTTPS`
 * gives a URL a scheme, `createLink` renders an anchor, and `get` reads a
 * dot-separated path out of the resume data with a default for missing
 * values.
 */
module ResumeTemplate {
  import opened Text
  import opened Js
  import opened Wrappers

  const Http := "http://"
  const Https := "https://"
  const Mailto := "mailto:"

  /** The URL already names one of the schemes the template accepts. */
  predicate HasScheme(url: string) {
    StartsWith(url, Http) || StartsWith(url, Https) || StartsWith(url, Mailto)
  }

  /**
   * `ensureHTTPS`: an empty URL gives `null`; a URL with a scheme is kept;
   * any other URL gets "https://" in front. The result always has a scheme
   * and ends with the URL it was given.
   */
  function EnsureHttps(url: string): (r: Option<string>)
    ensures r.None? <==> url == []
    ensures r.Some? ==> HasScheme(r.value)
    ensures r.Some? ==> |url| <= |r.value| && r.value[|r.value| - |url|..] == url
    ensures r.Some? ==> (r.value == url <==> HasScheme(url))
    ensures r.Some? && !HasScheme(url) ==> r.value == Https + url
  {
    if url == [] then None
    else if StartsWith(url, Http) || StartsWith(url, Https) then Some(url)
    else if StartsWith(url, Mailto) then Some(url)
    else
      PrefixStartsWith(Https, url);
      assert (Https + url)[|Https|..] == url;
      Some(Https + url)
  }

  /** Applying `ensureHTTPS` to its own result changes nothing. */
  lemma EnsureHttpsIdempotent(url: string)
    requires url != []
    ensures EnsureHttps(EnsureHttps(url).value) == EnsureHttps(url)
  {
  }

  /** What `createLink` renders: the target and the visible label. */
  datatype Anchor = Anchor(href: string, caption: string)

  const Open := "<a href=\""
  const Middle := "\" target=\"_blank\">"
  const Close := "</a>"

  function Render(a: Anchor): string {
    Open + a.href + Middle + a.caption + Close
  }

  /**
   * Reads an anchor back: the opening up to the first quote is the target,
   * what lies between the middle part and the closing tag is the label.
   */
  function ParseAnchor(s: string): (r: Option<Anchor>)
    ensures r.Some? ==> '"' !in r.value.href
  {
    if !StartsWith(s, Open) then None
    else
      var rest := s[|Open|..];
      var q := IndexOf(rest, '"');
      if q < 0 then None
      else
        var tail := rest[q..];
        if |tail| < |Middle| + |Close| || !StartsWith(tail, Middle) || tail[|tail| - |Close|..] != Close then None
        else Some(Anchor(rest[..q], tail[|Middle|..|tail| - |Close|]))
  }

  /** The first quote after a quote-free prefix is the one that follows it. */
  lemma {:induction false} IndexOfAfter(h: string, t: string)
    requires '"' !in h && t != [] && t[0] == '"'
    ensures IndexOf(h + t, '"') == |h|
    decreases |h|
  {
    if h != [] {
      assert (h + t)[1..] == h[1..] + t;
      IndexOfAfter(h[1..], t);
    }
  }

  lemma TailParts(caption: string)
    ensures var tail := Middle + caption + Close;
            |tail| >= |Middle| + |Close| && StartsWith(tail, Middle)
            && tail[|tail| - |Close|..] == Close && tail[|Middle|..|tail| - |Close|] == caption
  {
    var tail := Middle + caption + Close;
    assert tail == Middle + (caption + Close);
    PrefixStartsWith(Middle, caption + Close);
  }

  /** An anchor whose target holds no quote reads back as itself. */
  lemma ParseRender(a: Anchor)
    requires '"' !in a.href
    ensures ParseAnchor(Render(a)) == Some(a)
  {
    var s, tail := Render(a), Middle + a.caption + Close;
    var rest := a.href + tail;
    assert StartsWith(s, Open) && s[|Open|..] == rest by {
      assert s == Open + rest;
      PrefixStartsWith(Open, rest);
    }
    assert IndexOf(rest, '"') == |a.href| by {
      IndexOfAfter(a.href, tail);
    }
    assert rest[..|a.href|] == a.href && rest[|a.href|..] == tail;
    TailParts(a.caption);
  }

  /**
   * `createLink(url, text)`: without a URL the text is returned as it is;
   * otherwise an anchor to `ensureHTTPS(url)` whose label is the text, or
   * the URL itself when the text is empty.
   */
  function CreateLink(url: string, text: string): (r: string)
    ensures url == [] ==> r == text
    ensures url != [] ==> exists a: Anchor :: r == Render(a) && Some(a.href) == EnsureHttps(url)
                                               && a.caption != [] && (text != [] ==> a.caption == text)
                                               && (text == [] ==> a.caption == url)
  {
    if url == [] then text
    else
      var a := Anchor(EnsureHttps(url).value, if text != [] then text else url);
      assert Some(a.href) == EnsureHttps(url) && a.caption != [];
      Render(a)
  }

  /** A link built from a URL without quotes reads back as its target and label. */
  lemma CreateLinkRoundTrip(url: string, text: string)
    requires url != [] && '"' !in url
    ensures ParseAnchor(CreateLink(url, text))
            == Some(Anchor(EnsureHttps(url).value, if text != [] then text else url))
  {
    var href := EnsureHttps(url).value;
    assert '"' !in href by {
      if href != url {
        assert href == Https + url;
        assert forall k :: 0 <= k < |href| ==> href[k] == if k < |Https| then Https[k] else url[k - |Https|];
      }
    }
    ParseRender(Anchor(href, if text != [] then text else url));
  }

  /** The `reduce` of `get`: each step is `acc?.[part]`. */
  function Lookup(v: Json, parts: seq<string>): Json
    decreases |parts|
  {
    if parts == [] then v else Lookup(OptGet(v, parts[0]), parts[1..])
  }

  /** Once a step yields `null` or `undefined`, optional chaining gives `undefined` to the end. */
  lemma {:induction false} LookupNullish(v: Json, parts: seq<string>)
    requires Nullish(v) && parts != []
    ensures Lookup(v, parts) == Undefined
    decreases |parts|
  {
    if |parts| > 1 {
      LookupNullish(Undefined, parts[1..]);
    }
  }

  /** Following a path in two pieces reaches the same value as following it at once. */
  lemma {:induction false} LookupConcat(v: Json, a: seq<string>, b: seq<string>)
    ensures Lookup(v, a + b) == Lookup(Lookup(v, a), b)
    decreases |a|
  {
    if a == [] {
      assert a + b == b;
    } else {
      assert (a + b)[0] == a[0] && (a + b)[1..] == a[1..] + b;
      LookupConcat(OptGet(v, a[0]), a[1..], b);
    }
  }

  /**
   * `get(obj, path, defaultValue)`: the value at the dot-separated path,
   * or the default when that value is `null` or `undefined`. The `try`
   * never catches: optional chaining cannot throw on these values.
   */
  function GetPath(obj: Json, path: string, default: Json): (r: Json)
    ensures Nullish(r) ==> Nullish(default)
    ensures !Nullish(Lookup(obj, Split(path, '.'))) ==> r == Lookup(obj, Split(path, '.'))
    ensures Nullish(Lookup(obj, Split(path, '.'))) ==> r == default
  {
    Coalesce(Lookup(obj, Split(path, '.')), default)
  }

  /** The default of the template's calls, `''`. */
  const EmptyDefault := Str([])

  /** A field that holds `''`, `0` or `false` is returned as it is: only nullish values fall back. */
  lemma GetPathKeepsFalsy(fields: map<string, Json>, key: string, default: Json)
    requires '.' !in key && key in fields && !Nullish(fields[key])
    ensures GetPath(Obj(fields), key, default) == fields[key]
  {
    SplitWithoutSeparator(key, '.');
    assert Lookup(Obj(fields), [key]) == Lookup(fields[key], []);
  }

  /** A missing outer key gives the default, whatever the inner key. */
  lemma GetPathMissingOuter(fields: map<string, Json>, outer: string, inner: string, default: Json)
    requires '.' !in outer && '.' !in inner && outer !in fields
    ensures GetPath(Obj(fields), outer + "." + inner, default) == default
  {
    GetPathTwoLevels(Obj(fields), outer, inner, default);
  }

  /** `get(obj, 'a.b')` is `obj?.a?.b ?? default`. */
  lemma GetPathTwoLevels(obj: Json, outer: string, inner: string, default: Json)
    requires '.' !in outer && '.' !in inner
    ensures GetPath(obj, outer + "." + inner, default) == Coalesce(OptGet(OptGet(obj, outer), inner), default)
  {
    SplitAtSeparator(outer, '.', inner);
    SplitWithoutSeparator(inner, '.');
    assert Split(outer + "." + inner, '.') == [outer, inner];
    assert [outer, inner][1..] == [inner];
    assert Lookup(obj, [outer, inner]) == Lookup(OptGet(obj, outer), [inner]);
    assert Lookup(OptGet(obj, outer), [inner]) == Lookup(OptGet(OptGet(obj, outer), inner), []);
  }
}
