/**
 * Post-processing of the links harvested from an extracted article (index.js:91-111):
 * every anchor's href loses its query string, and only hrefs the URL parser accepts are kept.
 */
module Links {
  import opened Wrappers

  /** What the WHATWG URL parser exposes that `isLinkStrictUrl` looks at. */
  datatype ParsedUrl = ParsedUrl(hostname: string)

  /** `new URL(s)`: `None` when the constructor throws. The parser itself is not modelled. */
  type UrlParser = string -> Option<ParsedUrl>

  /** `s.split(sep)` for a one-character separator: the pieces between separators, left to right. */
  function Split(s: string, sep: char): (parts: seq<string>)
    ensures |parts| >= 1
    ensures forall i :: 0 <= i < |parts| ==> sep !in parts[i]
    ensures parts[0] <= s
    ensures |parts[0]| < |s| ==> s[|parts[0]|] == sep
  {
    if s == [] then [[]]
    else
      var rest := Split(s[1..], sep);
      if s[0] == sep then [[]] + rest
      else [[s[0]] + rest[0]] + rest[1..]
  }

  /** There is one more piece than there are separators. */
  lemma {:induction false} SplitCount(s: string, sep: char)
    ensures |Split(s, sep)| == multiset(s)[sep] + 1
  {
    if s != [] {
      SplitCount(s[1..], sep);
      assert s == [s[0]] + s[1..];
      assert multiset(s) == multiset{s[0]} + multiset(s[1..]);
    }
  }

  /** `parts.join(sep)`. */
  function Join(parts: seq<string>, sep: char): string
    requires |parts| >= 1
  {
    if |parts| == 1 then parts[0] else parts[0] + [sep] + Join(parts[1..], sep)
  }

  /** Splitting loses nothing: joining the pieces again gives back the original string. */
  lemma {:induction false} JoinSplit(s: string, sep: char)
    ensures Join(Split(s, sep), sep) == s
  {
    if s != [] {
      var rest := Split(s[1..], sep);
      JoinSplit(s[1..], sep);
      assert Join(rest, sep) == s[1..];
      assert s == [s[0]] + s[1..];
      if s[0] == sep {
        var parts := [[]] + rest;
        assert Split(s, sep) == parts;
        assert parts[1..] == rest;
        assert Join(parts, sep) == [] + [sep] + Join(rest, sep);
      } else {
        var parts := [[s[0]] + rest[0]] + rest[1..];
        assert Split(s, sep) == parts;
        if |rest| == 1 {
          assert Join(parts, sep) == [s[0]] + rest[0];
        } else {
          assert parts[1..] == rest[1..];
          assert Join(rest, sep) == rest[0] + [sep] + Join(rest[1..], sep);
          assert Join(parts, sep) == [s[0]] + rest[0] + [sep] + Join(rest[1..], sep);
        }
      }
    }
  }

  /** `href.split('?')[0]` (index.js:95): the part of the href before its first `?`. */
  function StripQuery(href: string): (link: string)
    ensures link <= href
    ensures '?' !in link
    ensures '?' in href ==> |link| < |href| && href[|link|] == '?'
    ensures '?' !in href ==> link == href
  {
    Split(href, '?')[0]
  }

  /** Stripping is idempotent: a harvested link has no query string left to strip. */
  lemma StripQueryIdempotent(href: string)
    ensures StripQuery(StripQuery(href)) == StripQuery(href)
  {
  }

  /** A link is exactly the href cut at its first `?`, whatever follows it. */
  lemma StripQueryAtFirstMark(href: string, i: nat)
    requires i < |href| && href[i] == '?' && '?' !in href[..i]
    ensures StripQuery(href) == href[..i]
  {
  }

  /** The query string is removed while the path is retained. */
  lemma StripQueryExample()
    ensures StripQuery("https://ex.com/a?x=1") == "https://ex.com/a"
  {
    var href := "https://ex.com/a?x=1";
    assert href[..16] == "https://ex.com/a";
    StripQueryAtFirstMark(href, 16);
  }

  /**
   * The hostname clause `!(!url.hostname && url.hostname === 'localhost')` of index.js:107:
   * `!url.hostname` holds exactly when the hostname is the empty string. The clause can never be false:
   * no hostname is both empty and equal to `localhost`.
   */
  predicate HostnameClause(hostname: string)
    ensures HostnameClause(hostname)
  {
    !(hostname == "" && hostname == "localhost")
  }

  /** `isLinkStrictUrl` (index.js:104-111): a thrown parse error rejects; otherwise the hostname clause decides. */
  predicate IsLinkStrictUrl(s: string, parse: UrlParser)
    ensures IsLinkStrictUrl(s, parse) <==> parse(s).Some?
  {
    match parse(s)
    case None => false
    case Some(url) => HostnameClause(url.hostname)
  }

  /** `links.filter(isLinkStrictUrl)` (index.js:97). */
  function KeepStrict(links: seq<string>, parse: UrlParser): (kept: seq<string>)
    ensures |kept| <= |links|
    ensures forall i :: 0 <= i < |kept| ==> parse(kept[i]).Some?
    ensures forall i :: 0 <= i < |kept| ==> kept[i] in links
  {
    if links == [] then []
    else (if IsLinkStrictUrl(links[0], parse) then [links[0]] else []) + KeepStrict(links[1..], parse)
  }

  /** The filter keeps document order: filtering a concatenation filters each part in turn. */
  lemma {:induction false} KeepStrictAppend(a: seq<string>, b: seq<string>, parse: UrlParser)
    ensures KeepStrict(a + b, parse) == KeepStrict(a, parse) + KeepStrict(b, parse)
  {
    if a == [] {
      assert a + b == b;
    } else {
      assert (a + b)[0] == a[0];
      assert (a + b)[1..] == a[1..] + b;
      KeepStrictAppend(a[1..], b, parse);
    }
  }

  /** Every accepted link is kept as often as it occurs (duplicates are retained); every rejected one is dropped. */
  lemma {:induction false} KeepStrictCount(links: seq<string>, parse: UrlParser, x: string)
    ensures multiset(KeepStrict(links, parse))[x] == if parse(x).Some? then multiset(links)[x] else 0
  {
    if links != [] {
      KeepStrictCount(links[1..], parse, x);
      assert links == [links[0]] + links[1..];
      assert multiset(links) == multiset{links[0]} + multiset(links[1..]);
    }
  }

  /** The hrefs with their query strings stripped, one for one. */
  function StripAll(hrefs: seq<string>): seq<string>
  {
    seq(|hrefs|, i requires 0 <= i < |hrefs| => StripQuery(hrefs[i]))
  }

  /** What `getArticleLinks` returns for the anchors' hrefs, in document order. */
  function ArticleLinks(hrefs: seq<string>, parse: UrlParser): (links: seq<string>)
    ensures |links| <= |hrefs|
    ensures forall i :: 0 <= i < |links| ==> '?' !in links[i] && parse(links[i]).Some?
  {
    KeepStrict(StripAll(hrefs), parse)
  }

  /** The links of two runs of anchors are the links of the first run followed by those of the second. */
  lemma ArticleLinksAppend(h1: seq<string>, h2: seq<string>, parse: UrlParser)
    ensures ArticleLinks(h1 + h2, parse) == ArticleLinks(h1, parse) + ArticleLinks(h2, parse)
  {
    assert StripAll(h1 + h2) == StripAll(h1) + StripAll(h2);
    KeepStrictAppend(StripAll(h1), StripAll(h2), parse);
  }

  /** A single anchor yields its stripped href exactly when the parser accepts that. */
  lemma ArticleLinksSingle(href: string, parse: UrlParser)
    ensures ArticleLinks([href], parse) == if parse(StripQuery(href)).Some? then [StripQuery(href)] else []
  {
    assert StripAll([href]) == [StripQuery(href)];
    assert StripAll([href])[1..] == [];
  }

  /**
   * `getArticleLinks` (index.js:91-98) given the hrefs of the anchors of the article's content
   * in document order: pushes each stripped href, then filters with `isLinkStrictUrl`.
   */
  method GetArticleLinks(hrefs: seq<string>, parse: UrlParser) returns (links: seq<string>)
    ensures links == ArticleLinks(hrefs, parse)
  {
    var stripped: seq<string> := [];
    for i := 0 to |hrefs|
      invariant |stripped| == i
      invariant forall k :: 0 <= k < i ==> stripped[k] == StripQuery(hrefs[k])
    {
      stripped := stripped + [StripQuery(hrefs[i])];
    }
    assert stripped == StripAll(hrefs);
    links := KeepStrict(stripped, parse);
  }
}
