/**
 * The static allow and deny lists (the `whitelist` and `blacklist` modules the worker loads at start-up)
 * and the `some(r => url.match(r))` tests over them (index.js:35, 117-119).
 */
module Policy {

  /** A pattern as the lists hold it; JavaScript's `String.prototype.match` decides what it matches. */
  type Pattern = string

  datatype Config = Config(
    whitelist: seq<Pattern>,
    blacklist: seq<Pattern>,
    /** Whether `url.match(r)` returns a match (truthy) rather than `null`. Regular expressions are not modelled. */
    matches: (string, Pattern) -> bool)

  /** `patterns.some(r => url.match(r))`: scans the list from the front and stops at the first match. */
  function AnyMatch(url: string, patterns: seq<Pattern>, matches: (string, Pattern) -> bool): (found: bool)
    ensures found <==> exists i :: 0 <= i < |patterns| && matches(url, patterns[i])
  {
    if patterns == [] then false
    else if matches(url, patterns[0]) then true
    else
      var rest := AnyMatch(url, patterns[1..], matches);
      assert rest ==> exists i :: 0 <= i < |patterns| && matches(url, patterns[i]) by {
        if rest {
          var j :| 0 <= j < |patterns[1..]| && matches(url, patterns[1..][j]);
          assert matches(url, patterns[j + 1]);
        }
      }
      rest
  }

  /** `isLinkWhiteListed` (index.js:117-119). */
  predicate IsLinkWhiteListed(url: string, config: Config)
    ensures IsLinkWhiteListed(url, config) <==>
      exists i :: 0 <= i < |config.whitelist| && config.matches(url, config.whitelist[i])
  {
    AnyMatch(url, config.whitelist, config.matches)
  }

  /** The blacklist test of index.js:35. */
  predicate IsBlacklisted(url: string, config: Config)
    ensures IsBlacklisted(url, config) <==>
      exists i :: 0 <= i < |config.blacklist| && config.matches(url, config.blacklist[i])
  {
    AnyMatch(url, config.blacklist, config.matches)
  }

  /** Matching only grows with the list: a pattern that matches keeps matching in any list that contains it. */
  lemma AnyMatchSubset(url: string, p: seq<Pattern>, q: seq<Pattern>, matches: (string, Pattern) -> bool)
    requires forall x :: x in p ==> x in q
    ensures AnyMatch(url, p, matches) ==> AnyMatch(url, q, matches)
  {
    if AnyMatch(url, p, matches) {
      var i :| 0 <= i < |p| && matches(url, p[i]);
      assert p[i] in q;
      var j :| 0 <= j < |q| && q[j] == p[i];
    }
  }

  /** The order of the patterns does not matter: only whether some pattern matches. */
  lemma AnyMatchPermutation(url: string, p: seq<Pattern>, q: seq<Pattern>, matches: (string, Pattern) -> bool)
    requires multiset(p) == multiset(q)
    ensures AnyMatch(url, p, matches) == AnyMatch(url, q, matches)
  {
    forall x | x in p ensures x in q {
      assert x in multiset(p);
    }
    forall x | x in q ensures x in p {
      assert x in multiset(q);
    }
    AnyMatchSubset(url, p, q, matches);
    AnyMatchSubset(url, q, p, matches);
  }
}
