/**
 * The product code (ASIN) search shared by both extractors:
 * `re.search(r"/[dg]p/([A-Z0-9]{10})(/|$|\?)", link)`, then `group(1).upper()`.
 */
module Asin {
  import opened Wrappers
  import opened Text

  /** `[A-Z0-9]`. */
  predicate IsCodeChar(c: char) {
    'A' <= c <= 'Z' || '0' <= c <= '9'
  }

  /**
   * `(/|$|\?)` at index `j`. Without MULTILINE, Python's `$` matches at the end
   * of the string and also just before a newline that ends it.
   */
  predicate EndsCode(link: string, j: int)
    requires 0 <= j <= |link|
  {
    j == |link| || link[j] == '/' || link[j] == '?' || (j == |link| - 1 && link[j] == '\n')
  }

  /** The pattern matches starting at index `i`; its group 1 is `link[i + 4..i + 14]`. */
  predicate MatchAt(link: string, i: int) {
    0 <= i && i + 14 <= |link|
    && link[i] == '/' && (link[i + 1] == 'd' || link[i + 1] == 'g') && link[i + 2] == 'p' && link[i + 3] == '/'
    && (forall k :: i + 4 <= k < i + 14 ==> IsCodeChar(link[k]))
    && EndsCode(link, i + 14)
  }

  /** The leftmost match at or after `from`, as `re.search` scans. */
  function SearchFrom(link: string, from: nat): (r: Option<nat>)
    requires from <= |link|
    ensures r.Some? ==> from <= r.value && MatchAt(link, r.value)
    ensures r.Some? ==> forall j :: from <= j < r.value ==> !MatchAt(link, j)
    ensures r.None? ==> forall j :: from <= j ==> !MatchAt(link, j)
    decreases |link| - from
  {
    if MatchAt(link, from) then Some(from)
    else if from == |link| then None
    else SearchFrom(link, from + 1)
  }

  lemma UpperKeepsCode(s: string)
    requires forall k :: 0 <= k < |s| ==> IsCodeChar(s[k])
    ensures Upper(s) == s
  {
  }

  /**
   * `extrair_codigo_asin`: the code of the leftmost match, or `None` when the
   * pattern matches nowhere. The `.upper()` never changes the code.
   */
  function ExtractAsin(link: string): (r: Option<string>)
    ensures r.None? <==> forall i :: !MatchAt(link, i)
    ensures r.Some? ==> |r.value| == 10 && forall k :: 0 <= k < 10 ==> IsCodeChar(r.value[k])
    ensures r.Some? ==> exists i :: MatchAt(link, i) && r.value == link[i + 4..i + 14]
                                    && forall j :: 0 <= j < i ==> !MatchAt(link, j)
  {
    match SearchFrom(link, 0)
    case None => None
    case Some(i) =>
      var code := link[i + 4..i + 14];
      UpperKeepsCode(code);
      Some(Upper(code))
  }

  /** Without a `/dp/` or `/gp/` in the link there is no code. */
  lemma {:induction false} NoMarkerNoCode(link: string)
    requires !Contains(link, "/dp/") && !Contains(link, "/gp/")
    ensures ExtractAsin(link) == None
  {
    forall i | MatchAt(link, i) ensures false {
      var marker := link[i..i + 4];
      assert marker == "/dp/" || marker == "/gp/";
      assert OccursAt(link, marker, i);
    }
  }
}
