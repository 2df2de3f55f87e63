/** Two pure fragments of the API probe script: reading the `<title>` of a
    fetched stop page, and choosing which data source to recommend. */
module Probe {
  import opened Wrappers
  import opened Text

  /** `sub` occurs at `i`, and nowhere from `from` up to `i`. */
  predicate FirstAt(s: string, sub: string, from: nat, i: nat) {
    from <= i && OccursAt(s, sub, i) && forall j: nat :: from <= j < i ==> !OccursAt(s, sub, j)
  }

  /** `find` returns exactly the first occurrence from its start on. */
  lemma FindFirstAt(s: string, sub: string, from: nat, i: nat)
    requires FirstAt(s, sub, from, i)
    ensures Find(s, sub, from) == Some(i)
  {
  }

  const OpenTag: string := "<title>"
  const CloseTag: string := "</title>"

  /** The page title the probe prints, if any: the text from just after the
      first `<title>` up to the next `</title>`, only when that is not empty. */
  function PageTitle(text: string): (r: Option<string>)
    ensures !Contains(text, OpenTag) ==> r.None?
    ensures r.Some? ==> |r.value| > 0
  {
    if !Contains(text, OpenTag) then None
    else
      var start := Find(text, OpenTag, 0).value + |OpenTag|;
      match Find(text, CloseTag, start)
      case None => None
      case Some(end) => if end > start then Some(text[start..end]) else None
  }

  /** Three pieces found one after another in `s` make up one occurrence. */
  lemma OccursInSequence(s: string, a: string, b: string, c: string, p: nat)
    requires OccursAt(s, a, p) && OccursAt(s, b, p + |a|) && OccursAt(s, c, p + |a| + |b|)
    ensures OccursAt(s, a + b + c, p)
  {
    var q, r := p + |a|, p + |a| + |b|;
    assert s[p..r + |c|] == s[p..q] + s[q..r] + s[r..r + |c|];
  }

  /** With the first `<title>` at `p` and the first `</title>` after it at `e`,
      the title is `text[p+7:e]` when that is not empty, and nothing otherwise. */
  lemma PageTitleBetweenTags(text: string, p: nat, e: nat)
    requires FirstAt(text, OpenTag, 0, p) && FirstAt(text, CloseTag, p + |OpenTag|, e)
    ensures PageTitle(text) == if e > p + 7 then Some(text[p + 7..e]) else None
  {
    FindFirstAt(text, OpenTag, 0, p);
    FindFirstAt(text, CloseTag, p + |OpenTag|, e);
  }

  /** A title shows up in the page between the two tags. */
  lemma PageTitleEnclosed(text: string, p: nat, e: nat)
    requires FirstAt(text, OpenTag, 0, p) && FirstAt(text, CloseTag, p + |OpenTag|, e)
    ensures PageTitle(text).Some? ==> OccursAt(text, OpenTag + PageTitle(text).value + CloseTag, p)
  {
    PageTitleBetweenTags(text, p, e);
    if e > p + 7 {
      var t := text[p + 7..e];
      assert OccursAt(text, t, p + |OpenTag|);
      OccursInSequence(text, OpenTag, t, CloseTag, p);
    }
  }

  /** An opening tag without a closing one after it gives no title. */
  lemma PageTitleUnclosed(text: string, p: nat)
    requires FirstAt(text, OpenTag, 0, p)
    requires forall j: nat :: p + |OpenTag| <= j ==> !OccursAt(text, CloseTag, j)
    ensures PageTitle(text).None?
  {
    FindFirstAt(text, OpenTag, 0, p);
  }

  /** The closing line of the probe script's summary. */
  datatype Recommendation =
    | MobiIettV2         // "MobiIETT API v2 çalışıyor! Bu en iyi seçenek."
    | MobiIettOld        // "Eski MobiIETT API çalışıyor! Bu iyi bir alternatif."
    | GithubStatic       // "GitHub static data çalışıyor! Fallback olarak kullanılabilir."
    | IbbOpenData        // "İBB API çalışıyor! Bu da iyi bir alternatif."
    | ScrapingOnly       // "Sadece web scraping çalışıyor. JavaScript problemi var."
    | HardcodedFallback  // "Hiçbir API çalışmıyor. Hardcoded fallback data kullanılacak."

  /** The `if`/`elif` chain over the five probe results. */
  function Recommend(v2: bool, oldApi: bool, github: bool, ibb: bool, scraping: bool): (r: Recommendation)
    ensures r == MobiIettV2 <==> v2
    ensures r == MobiIettOld <==> !v2 && oldApi
    ensures r == GithubStatic <==> !v2 && !oldApi && github
    ensures r == IbbOpenData <==> !v2 && !oldApi && !github && ibb
    ensures r == ScrapingOnly <==> !v2 && !oldApi && !github && !ibb && scraping
    ensures r == HardcodedFallback <==> !v2 && !oldApi && !github && !ibb && !scraping
  {
    if v2 then MobiIettV2
    else if oldApi then MobiIettOld
    else if github then GithubStatic
    else if ibb then IbbOpenData
    else if scraping then ScrapingOnly
    else HardcodedFallback
  }

  /** The sources in order of preference, as `Recommend` ranks them. */
  const Ranked: seq<Recommendation> := [MobiIettV2, MobiIettOld, GithubStatic, IbbOpenData, ScrapingOnly]

  /** The recommendation is the source of the first successful probe, in the
      order v2, old, GitHub, IBB, scraping. */
  lemma RecommendFirstTrue(flags: seq<bool>, i: nat)
    requires |flags| == 5 && i < 5 && flags[i]
    requires forall j :: 0 <= j < i ==> !flags[j]
    ensures Recommend(flags[0], flags[1], flags[2], flags[3], flags[4]) == Ranked[i]
  {
    if i > 0 { assert !flags[0]; }
    if i > 1 { assert !flags[1]; }
    if i > 2 { assert !flags[2]; }
    if i > 3 { assert !flags[3]; }
  }
}
