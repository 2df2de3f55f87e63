/** Reading a stop out of an IETT stop-page URL, and the rule by which an
    incoming chat message is taken as such a URL or as a bare stop code. */
module StationUrl {
  import opened Wrappers
  import opened Text
  import opened Percent

  /** A regex `key([class]+)` can match at `i`: the key occurs there and the
      next character is in the class. */
  predicate KeyMatchAt(url: string, key: string, i: nat, inClass: char -> bool) {
    OccursAt(url, key, i) && i + |key| < |url| && inClass(url[i + |key|])
  }

  /** The leftmost position at or after `from` where `key([class]+)` matches. */
  function FirstKeyMatch(url: string, key: string, from: nat, inClass: char -> bool): (r: Option<nat>)
    requires |key| > 0
    ensures r.Some? ==> from <= r.value && KeyMatchAt(url, key, r.value, inClass)
    ensures r.Some? ==> forall j: nat :: from <= j < r.value ==> !KeyMatchAt(url, key, j, inClass)
    ensures r.None? ==> forall j: nat :: from <= j ==> !KeyMatchAt(url, key, j, inClass)
    decreases |url| - from
  {
    match Find(url, key, from)
    case None => None
    case Some(p) =>
      if p + |key| < |url| && inClass(url[p + |key|]) then Some(p)
      else FirstKeyMatch(url, key, p + 1, inClass)
  }

  /** `i` is where `re.search` reports the match: it matches there and nowhere before. */
  predicate LeftmostKeyMatch(url: string, key: string, i: nat, inClass: char -> bool) {
    KeyMatchAt(url, key, i, inClass) && forall j: nat :: j < i ==> !KeyMatchAt(url, key, j, inClass)
  }

  lemma LeftmostIsUnique(url: string, key: string, i: nat, k: nat, inClass: char -> bool)
    requires LeftmostKeyMatch(url, key, i, inClass) && LeftmostKeyMatch(url, key, k, inClass)
    ensures i == k
  {
  }

  /** `re.search(key + "([class]+)", url).group(1)`, or None when there is no match. */
  function SearchGroup(url: string, key: string, inClass: char -> bool): (r: Option<string>)
    requires |key| > 0
    ensures r.Some? <==> exists i: nat :: KeyMatchAt(url, key, i, inClass)
    ensures forall i: nat :: LeftmostKeyMatch(url, key, i, inClass) ==>
              r == Some(url[i + |key|..SpanEnd(url, i + |key|, inClass)])
    ensures r.Some? ==> |r.value| > 0 && forall k :: 0 <= k < |r.value| ==> inClass(r.value[k])
  {
    match FirstKeyMatch(url, key, 0, inClass)
    case None => None
    case Some(i) =>
      var g := url[i + |key|..SpanEnd(url, i + |key|, inClass)];
      assert LeftmostKeyMatch(url, key, i, inClass);
      assert forall k: nat :: LeftmostKeyMatch(url, key, k, inClass) ==> k == i by {
        forall k: nat | LeftmostKeyMatch(url, key, k, inClass) ensures k == i {
          LeftmostIsUnique(url, key, i, k, inClass);
        }
      }
      assert forall k :: 0 <= k < |g| ==> g[k] == url[i + |key| + k];
      Some(g)
  }

  predicate NotAmpersand(c: char) {
    c != '&'
  }

  /** `re.search(r'dkod=(\d+)', url)` matches at `i`. There is no word boundary:
      "xdkod=12" matches too. */
  predicate CodeMatchAt(url: string, i: nat) {
    KeyMatchAt(url, "dkod=", i, IsDigit)
  }

  /** `re.search(r'stationname=([^&]+)', url)` matches at `i`. */
  predicate NameMatchAt(url: string, i: nat) {
    KeyMatchAt(url, "stationname=", i, NotAmpersand)
  }

  /** `IETTBot.extract_station_code`: the maximal digit run after the leftmost
      "dkod=" that is followed by a digit; None when there is none. */
  function ExtractStationCode(url: string): (r: Option<string>)
    ensures r.Some? <==> exists i: nat :: CodeMatchAt(url, i)
    ensures forall i: nat :: LeftmostKeyMatch(url, "dkod=", i, IsDigit) ==>
              r == Some(url[i + 5..SpanEnd(url, i + 5, IsDigit)])
    ensures r.Some? ==> AllDigits(r.value)
  {
    assert forall i: nat :: CodeMatchAt(url, i) == KeyMatchAt(url, "dkod=", i, IsDigit);
    SearchGroup(url, "dkod=", IsDigit)
  }

  /** `IETTBot.extract_station_name`: the text after the leftmost "stationname="
      that is followed by a character other than '&', up to the next '&' or the
      end, percent-decoded; None when there is no such occurrence. */
  function ExtractStationName(url: string): (r: Option<string>)
    ensures r.Some? <==> exists i: nat :: NameMatchAt(url, i)
    ensures forall i: nat :: LeftmostKeyMatch(url, "stationname=", i, NotAmpersand) ==>
              r == Some(Unquote(url[i + 12..SpanEnd(url, i + 12, NotAmpersand)]))
  {
    assert forall i: nat :: NameMatchAt(url, i) == KeyMatchAt(url, "stationname=", i, NotAmpersand);
    match SearchGroup(url, "stationname=", NotAmpersand)
    case None => None
    case Some(g) => Some(Unquote(g))
  }

  /** When the captured name has no '%', the name is the captured text itself. */
  lemma NameWithoutEscapes(url: string, i: nat)
    requires LeftmostKeyMatch(url, "stationname=", i, NotAmpersand)
    requires '%' !in url[i + 12..SpanEnd(url, i + 12, NotAmpersand)]
    ensures ExtractStationName(url) == Some(url[i + 12..SpanEnd(url, i + 12, NotAmpersand)])
  {
  }

  // ---------------------------------------------------------------- handle_message

  /** What `handle_message` does with a text message. */
  datatype Reply =
    | UrlStationSaved(code: string, name: Option<string>)  // saved from a URL: "✅ Durağın URL'den ayarlandı!"
    | UrlWithoutCode                                       // "❌ URL'den durak kodu çıkarılamadı."
    | CodeSaved(code: string)                              // saved as a bare code: "✅ Durak ayarlandı!"
    | Usage                                                // the "📝 Nasıl kullanılır?" help text

  /** `"iett.istanbul" in text and "dkod=" in text`. */
  predicate LooksLikeStationUrl(text: string) {
    Contains(text, "iett.istanbul") && Contains(text, "dkod=")
  }

  /** `text.isdigit() and len(text) >= 6`. */
  predicate IsBareCode(text: string) {
    AllDigits(text) && |text| >= 6
  }

  /** The classification at the top of `handle_message`. */
  function ClassifyMessage(text: string): (r: Reply)
    ensures r.UrlStationSaved? || r.UrlWithoutCode? <==> LooksLikeStationUrl(text)
    ensures r.UrlStationSaved? ==> ExtractStationCode(text) == Some(r.code) && r.name == ExtractStationName(text)
    ensures r.UrlWithoutCode? ==> ExtractStationCode(text).None?
    ensures r.CodeSaved? <==> !LooksLikeStationUrl(text) && IsBareCode(text)
    ensures r.CodeSaved? ==> r.code == text
  {
    if LooksLikeStationUrl(text) then
      match ExtractStationCode(text)
      case Some(code) => UrlStationSaved(code, ExtractStationName(text))
      case None => UrlWithoutCode
    else if IsBareCode(text) then CodeSaved(text)
    else Usage
  }

  /** What the message saves for the user: a code and maybe a name, or nothing. */
  function SavedStation(r: Reply): Option<(string, Option<string>)> {
    match r
    case UrlStationSaved(code, name) => Some((code, name))
    case CodeSaved(code) => Some((code, None))
    case _ => None
  }

  /** A message is saved from the URL branch exactly when it mentions the IETT
      site and has a "dkod=" followed by a digit somewhere. */
  lemma UrlBranchSavesIff(text: string)
    ensures ClassifyMessage(text).UrlStationSaved? <==>
              Contains(text, "iett.istanbul") && exists i: nat :: CodeMatchAt(text, i)
  {
    if Contains(text, "iett.istanbul") && exists i: nat :: CodeMatchAt(text, i) {
      var i: nat :| CodeMatchAt(text, i);
      ContainsIff(text, "dkod=");
      assert OccursAt(text, "dkod=", i);
    }
  }

  /** An all-digit message can never take the URL branch, so it is saved exactly
      when it has at least six digits. */
  lemma DigitMessageIsBareCode(text: string)
    requires AllDigits(text)
    ensures ClassifyMessage(text) == (if |text| >= 6 then CodeSaved(text) else Usage)
  {
    forall i: nat ensures !OccursAt(text, "iett.istanbul", i) {
      if i + 13 <= |text| {
        assert IsDigit(text[i..i + 13][0]);
      }
    }
    ContainsIff(text, "iett.istanbul");
    assert !LooksLikeStationUrl(text);
  }
}
