/** The helpers of EmojiArt/Extension.swift: `String.uniqued`,
    `String.remove(_:)`, `Collection.suffix(after:)`, the data-scheme and
    embedded-URL queries on `URL`, and the two initialisers of `Sturldata`.
    A Swift `Character` is modelled as one opaque `char`. */
module Extension {
  import opened Foundation
  import Base64

  // ---------------------------------------------------------------------
  // String.uniqued
  // ---------------------------------------------------------------------

  ghost predicate NoDuplicates(s: string) {
    forall i, j :: 0 <= i < j < |s| ==> s[i] != s[j]
  }

  /** What `reduce(into: "")` has accumulated after the characters of `s`:
      each character is appended unless the result already contains it. */
  function Dedup(s: string): (r: string)
    ensures NoDuplicates(r)
    ensures forall c :: c in r <==> c in s
    ensures |r| <= |s|
    decreases |s|
  {
    if s == [] then []
    else
      var r := Dedup(s[..|s| - 1]);
      var c := s[|s| - 1];
      assert forall x :: x in s <==> x in s[..|s| - 1] || x == c by {
        assert s == s[..|s| - 1] + [c];
      }
      if c in r then r else r + [c]
  }

  /** The position of the first occurrence of a character of `s`. */
  function FirstPosition(s: string, c: char): (k: nat)
    requires c in s
    ensures k < |s| && s[k] == c
  {
    FirstIndexOf(s, c).value
  }

  lemma FirstPositionExtend(p: string, c: char, x: char)
    requires x in p
    ensures FirstPosition(p + [c], x) == FirstPosition(p, x)
  {
    FirstIndexOfPrefix(p, [c], x);
  }

  /** The characters of `r` occur in `s`, in the order of their first
      occurrences there. */
  ghost predicate InFirstOccurrenceOrder(s: string, r: string) {
    && (forall c :: c in r ==> c in s)
    && (forall i, j :: 0 <= i < j < |r| ==> FirstPosition(s, r[i]) < FirstPosition(s, r[j]))
  }

  /** `uniqued` keeps exactly the first occurrence of every character, in the
      order of those first occurrences. */
  lemma {:induction false} DedupKeepsFirstOccurrenceOrder(s: string)
    ensures InFirstOccurrenceOrder(s, Dedup(s))
    decreases |s|
  {
    if s != [] {
      var p, c := s[..|s| - 1], s[|s| - 1];
      assert s == p + [c];
      DedupKeepsFirstOccurrenceOrder(p);
      var rp := Dedup(p);
      var r := Dedup(s);
      assert InFirstOccurrenceOrder(p, rp);
      assert r == rp || r == rp + [c];
      forall i, j | 0 <= i < j < |r|
        ensures FirstPosition(s, r[i]) < FirstPosition(s, r[j])
      {
        assert r[i] == rp[i] && r[i] in p;
        FirstPositionExtend(p, c, r[i]);
        if j < |rp| {
          assert r[j] == rp[j] && r[j] in p;
          FirstPositionExtend(p, c, r[j]);
        } else {
          assert c !in p && r[j] == c;
          FirstIndexOfAppend(p, [c], c);
          assert FirstPosition(s, c) == |p|;
        }
      }
    }
  }

  lemma {:induction false} DedupOfDistinct(s: string)
    requires NoDuplicates(s)
    ensures Dedup(s) == s
    decreases |s|
  {
    if s != [] {
      var p := s[..|s| - 1];
      DedupOfDistinct(p);
      assert s[|s| - 1] !in p;
      assert s == p + [s[|s| - 1]];
    }
  }

  /** `uniqued` is idempotent. */
  lemma DedupIdempotent(s: string)
    ensures Dedup(Dedup(s)) == Dedup(s)
  {
    DedupOfDistinct(Dedup(s));
  }

  /** `String.uniqued`, with the `reduce(into:)` accumulation as a loop. */
  method Uniqued(s: string) returns (r: string)
    ensures r == Dedup(s)
    ensures NoDuplicates(r) && forall c :: c in r <==> c in s
  {
    r := "";
    for i := 0 to |s|
      invariant r == Dedup(s[..i])
    {
      assert s[..i + 1][..i] == s[..i];
      if s[i] !in r {
        r := r + [s[i]];
      }
    }
    assert s[..|s|] == s;
  }

  // ---------------------------------------------------------------------
  // String.remove(_:)
  // ---------------------------------------------------------------------

  /** `remove(_ emoji:)`, which is `removeAll(where: { $0 == emoji })`. */
  function RemoveAll(s: string, c: char): (r: string)
    ensures c !in r
    ensures forall x :: x != c ==> multiset(r)[x] == multiset(s)[x]
    ensures |r| <= |s|
  {
    if s == [] then []
    else
      var rest := RemoveAll(s[1..], c);
      assert s == [s[0]] + s[1..];
      if s[0] == c then rest else [s[0]] + rest
  }

  /** Removal works element by element: it distributes over concatenation,
      so the remaining characters keep their relative order. */
  lemma {:induction false} RemoveAllConcat(a: string, b: string, c: char)
    ensures RemoveAll(a + b, c) == RemoveAll(a, c) + RemoveAll(b, c)
  {
    if a == [] {
      assert a + b == b;
    } else {
      assert (a + b)[1..] == a[1..] + b;
      RemoveAllConcat(a[1..], b, c);
    }
  }

  // ---------------------------------------------------------------------
  // Collection.suffix(after:)
  // ---------------------------------------------------------------------

  /** `suffix(after:)`: the elements strictly after position `i`; the source
      traps unless `i` is a valid index. */
  function SuffixAfter<T>(s: seq<T>, i: nat): (r: seq<T>)
    requires i < |s|
    ensures |r| == |s| - i - 1
    ensures s[..i + 1] + r == s
  {
    s[i + 1..]
  }

  // ---------------------------------------------------------------------
  // URL helpers
  // ---------------------------------------------------------------------

  /** A query item of a URL, `name=value`; the value may be missing. */
  datatype QueryItem = QueryItem(name: string, value: Option<string>)

  /** The Foundation parsers the helpers call: `URL(string:)` and the query
      items of `URLComponents(url:resolvingAgainstBaseURL:)`. */
  datatype URLParsing = URLParsing(
    parse: string -> Option<URL>,
    queryItems: URL -> Option<seq<QueryItem>>)

  /** A query item whose value starts with "http" and parses as a URL. */
  predicate EmbedsURL(item: QueryItem, parsing: URLParsing) {
    item.value.Some? && HasPrefix(item.value.value, "http") && parsing.parse(item.value.value).Some?
  }

  /** The loop of `imageURL`: the index of the first query item that embeds
      a URL. */
  function FirstEmbedding(items: seq<QueryItem>, parsing: URLParsing): (r: Option<nat>)
    ensures r.None? <==> forall k :: 0 <= k < |items| ==> !EmbedsURL(items[k], parsing)
    ensures r.Some? ==> r.value < |items| && EmbedsURL(items[r.value], parsing)
    ensures r.Some? ==> forall k :: 0 <= k < r.value ==> !EmbedsURL(items[k], parsing)
  {
    if items == [] then None
    else if EmbedsURL(items[0], parsing) then Some(0)
    else
      match FirstEmbedding(items[1..], parsing)
      case None => None
      case Some(k) => Some(k + 1)
  }

  /** `URL.imageURL`: the first URL embedded in a query value, else the URL
      itself. */
  function ImageURL(url: URL, parsing: URLParsing): (r: URL)
    ensures r == url ||
      (parsing.queryItems(url).Some? &&
       exists k :: 0 <= k < |parsing.queryItems(url).value|
         && EmbedsURL(parsing.queryItems(url).value[k], parsing)
         && parsing.parse(parsing.queryItems(url).value[k].value.value) == Some(r))
    ensures (parsing.queryItems(url).None? ||
             forall k :: 0 <= k < |parsing.queryItems(url).value| ==>
               !EmbedsURL(parsing.queryItems(url).value[k], parsing)) ==> r == url
    ensures parsing.queryItems(url).Some? ==>
      var items := parsing.queryItems(url).value;
      FirstEmbedding(items, parsing).Some? ==>
        r == parsing.parse(items[FirstEmbedding(items, parsing).value].value.value).value
  {
    match parsing.queryItems(url)
    case None => url
    case Some(items) =>
      match FirstEmbedding(items, parsing)
      case None => url
      case Some(k) => parsing.parse(items[k].value.value).value
  }

  /** `URL.dataSchemeImageData`: for "data:image...;base64,<data>" the
      base 64 decoding of the text after the first comma, provided the text
      before that comma ends with "base64"; nil otherwise. */
  function DataSchemeImageData(url: URL): (r: Option<seq<byte>>)
    ensures !HasPrefix(url.absoluteString, "data:image") ==> r.None?
    ensures ',' !in url.absoluteString ==> r.None?
    ensures HasPrefix(url.absoluteString, "data:image") && ',' in url.absoluteString ==>
      var s := url.absoluteString;
      var comma := FirstPosition(s, ',');
      && (HasSuffix(s[..comma], "base64") ==> r == Base64.Decode(SuffixAfter(s, comma)))
      && (!HasSuffix(s[..comma], "base64") ==> r.None?)
  {
    var s := url.absoluteString;
    if HasPrefix(s, "data:image") then
      match FirstIndexOf(s, ',')
      case Some(comma) =>
        if HasSuffix(s[..comma], "base64") then Base64.Decode(SuffixAfter(s, comma))
        else None
      case None => None
    else None
  }

  /** For a URL "<meta>,<payload>" whose head is a data-scheme image header
      ending in "base64" and containing no comma, the helper decodes exactly
      the payload. */
  lemma DataSchemePayload(meta: string, payload: string)
    requires HasPrefix(meta, "data:image") && HasSuffix(meta, "base64")
    requires ',' !in meta
    ensures DataSchemeImageData(URL(meta + "," + payload)) == Base64.Decode(payload)
  {
    var s := meta + "," + payload;
    assert s == meta + ("," + payload);
    FirstIndexOfAppend(meta, "," + payload, ',');
    assert FirstPosition(s, ',') == |meta|;
    assert s[..|meta|] == meta;
    assert HasPrefix(s, "data:image") by {
      assert s[..10] == meta[..10];
    }
    assert HasSuffix(s[..|meta|], "base64");
    assert SuffixAfter(s, |meta|) == payload;
  }

  /** The header "data:image<mime>;base64" of a data-scheme image URL. */
  lemma DataSchemeHeader(mime: string)
    requires ',' !in mime
    ensures var meta := "data:image" + mime + ";base64";
      HasPrefix(meta, "data:image") && HasSuffix(meta, "base64") && ',' !in meta
  {
    var head, tail := "data:image", ";base64";
    var meta := head + mime + tail;
    assert meta[..|head|] == head;
    assert meta[|meta| - 6..] == tail[1..];
    assert ',' !in head && ',' !in tail;
    assert forall c :: c in meta <==> c in head || c in mime || c in tail;
  }

  /** A data-scheme URL built from a base 64 encoding decodes back to the
      bytes it was built from. */
  lemma DataSchemeRoundTrip(mime: string, bytes: seq<byte>)
    requires ',' !in mime
    ensures DataSchemeImageData(URL("data:image" + mime + ";base64," + Base64.Encode(bytes))) == Some(bytes)
  {
    var meta := "data:image" + mime + ";base64";
    var encoded := Base64.Encode(bytes);
    DataSchemeHeader(mime);
    assert "data:image" + mime + ";base64," + encoded == meta + "," + encoded;
    DataSchemePayload(meta, encoded);
    Base64.DecodeEncode(bytes);
  }

  // ---------------------------------------------------------------------
  // Sturldata
  // ---------------------------------------------------------------------

  /** `Sturldata`: a dropped string, URL, data blob or image. */
  datatype Sturldata = StringItem(text: string) | UrlItem(url: URL) | DataItem(data: seq<byte>) | ImageItem(image: UIImage)

  /** `Sturldata(string:)`: a string that starts with "http" and parses as a
      URL becomes that URL's image URL; anything else stays a string. */
  function FromString(s: string, parsing: URLParsing): (r: Sturldata)
    ensures !HasPrefix(s, "http") ==> r == StringItem(s)
    ensures parsing.parse(s).None? ==> r == StringItem(s)
    ensures r.StringItem? || r.UrlItem?
    ensures HasPrefix(s, "http") && parsing.parse(s).Some? ==> r.UrlItem?
    ensures r.UrlItem? ==> HasPrefix(s, "http") && r.url == ImageURL(parsing.parse(s).value, parsing)
  {
    if HasPrefix(s, "http") && parsing.parse(s).Some? then UrlItem(ImageURL(parsing.parse(s).value, parsing))
    else StringItem(s)
  }

  /** `Sturldata(url:)`: a data-scheme image URL carries its bytes;
      any other URL becomes its image URL. */
  function FromURL(url: URL, parsing: URLParsing): (r: Sturldata)
    ensures r.DataItem? <==> DataSchemeImageData(url).Some?
    ensures r.DataItem? ==> r.data == DataSchemeImageData(url).value
    ensures !r.DataItem? ==> r == UrlItem(ImageURL(url, parsing))
  {
    match DataSchemeImageData(url)
    case Some(data) => DataItem(data)
    case None => UrlItem(ImageURL(url, parsing))
  }
}
