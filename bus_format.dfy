/** `IETTBot.format_bus_info`: the chat message listing the buses of a stop.

    Buses are listed in the order of Python's `sorted(buses, key=lambda x:
    x.get("estimated_minutes", 999))`, which is stable. StableSort below is an
    insertion sort; StableSortUnique shows that it is the only ordering that is
    sorted by that key and keeps buses of equal key in their original order,
    so it is exactly what `sorted` returns. */
module BusFormat {
  import opened Wrappers
  import opened Text
  import opened Clock
  import opened Arrivals

  // ---------------------------------------------------------------- the stable sort

  /** The sort key: a missing "estimated_minutes" sorts as 999. */
  function SortKey(b: Bus): int {
    b.estimatedMinutes.GetOr(999)
  }

  predicate SortedByKey(s: seq<Bus>) {
    forall i, j :: 0 <= i < j < |s| ==> SortKey(s[i]) <= SortKey(s[j])
  }

  /** The buses of `s` whose key is `k`, in their order in `s`. */
  function WithKey(s: seq<Bus>, k: int): seq<Bus> {
    if s == [] then [] else (if SortKey(s[0]) == k then [s[0]] else []) + WithKey(s[1..], k)
  }

  /** `r` is a stable sort of `s`: sorted by key, and for every key the same
      buses in the same order. */
  ghost predicate IsStableSortOf(r: seq<Bus>, s: seq<Bus>) {
    SortedByKey(r) && forall k :: WithKey(r, k) == WithKey(s, k)
  }

  /** Inserts `x` after every bus whose key is not larger. */
  function Insert(x: Bus, s: seq<Bus>): (r: seq<Bus>)
    ensures multiset(r) == multiset(s) + multiset{x}
  {
    if s == [] then [x]
    else if SortKey(x) < SortKey(s[0]) then [x] + s
    else
      assert s == [s[0]] + s[1..];
      [s[0]] + Insert(x, s[1..])
  }

  function StableSort(s: seq<Bus>): (r: seq<Bus>)
    ensures multiset(r) == multiset(s)
  {
    if s == [] then []
    else
      assert s == s[..|s| - 1] + [s[|s| - 1]];
      Insert(s[|s| - 1], StableSort(s[..|s| - 1]))
  }

  lemma {:induction false} InsertSorted(x: Bus, s: seq<Bus>)
    requires SortedByKey(s)
    ensures SortedByKey(Insert(x, s))
  {
    if s != [] && SortKey(x) >= SortKey(s[0]) {
      InsertSorted(x, s[1..]);
      var t := Insert(x, s[1..]);
      forall y | y in t ensures SortKey(s[0]) <= SortKey(y) {
        assert y in multiset(t);
      }
    }
  }

  lemma {:induction false} WithKeyAppend(a: seq<Bus>, b: seq<Bus>, k: int)
    ensures WithKey(a + b, k) == WithKey(a, k) + WithKey(b, k)
  {
    if a != [] {
      var h := if SortKey(a[0]) == k then [a[0]] else [];
      assert a + b != [] && (a + b)[0] == a[0];
      assert (a + b)[1..] == a[1..] + b;
      calc {
        WithKey(a + b, k);
        h + WithKey(a[1..] + b, k);
        { WithKeyAppend(a[1..], b, k); }
        h + (WithKey(a[1..], k) + WithKey(b, k));
        (h + WithKey(a[1..], k)) + WithKey(b, k);
        WithKey(a, k) + WithKey(b, k);
      }
    } else {
      assert a + b == b;
    }
  }

  lemma {:induction false} WithKeyNone(s: seq<Bus>, k: int)
    requires forall y <- s :: SortKey(y) != k
    ensures WithKey(s, k) == []
  {
    if s != [] {
      WithKeyNone(s[1..], k);
    }
  }

  /** Inserting in front of a sorted list whose keys are all larger. */
  lemma WithKeyInsertFront(x: Bus, s: seq<Bus>, k: int)
    requires SortedByKey(s) && s != [] && SortKey(x) < SortKey(s[0])
    ensures WithKey([x] + s, k) == WithKey(s, k) + (if SortKey(x) == k then [x] else [])
  {
    var t := [x] + s;
    assert t[0] == x && t[1..] == s;
    if SortKey(x) == k {
      WithKeyNone(s, k);
    }
  }

  lemma {:induction false} WithKeyInsert(x: Bus, s: seq<Bus>, k: int)
    requires SortedByKey(s)
    ensures WithKey(Insert(x, s), k) == WithKey(s, k) + (if SortKey(x) == k then [x] else [])
  {
    if s == [] {
    } else if SortKey(x) < SortKey(s[0]) {
      WithKeyInsertFront(x, s, k);
    } else {
      var h0 := if SortKey(s[0]) == k then [s[0]] else [];
      var hx := if SortKey(x) == k then [x] else [];
      var rest := Insert(x, s[1..]);
      var t := [s[0]] + rest;
      assert Insert(x, s) == t;
      assert t[0] == s[0] && t[1..] == rest;
      assert WithKey(t, k) == h0 + WithKey(rest, k);
      assert SortedByKey(s[1..]);
      WithKeyInsert(x, s[1..], k);
      AppendAssoc(h0, WithKey(s[1..], k), hx);
    }
  }

  /** The insertion sort is sorted and stable. */
  lemma {:induction false} StableSortCorrect(s: seq<Bus>)
    ensures IsStableSortOf(StableSort(s), s)
  {
    if s != [] {
      var init, last := s[..|s| - 1], s[|s| - 1];
      assert s == init + [last];
      StableSortCorrect(init);
      InsertSorted(last, StableSort(init));
      forall k ensures WithKey(StableSort(s), k) == WithKey(s, k) {
        WithKeyInsert(last, StableSort(init), k);
        WithKeyAppend(init, [last], k);
      }
    }
  }

  lemma {:induction false} WithKeyMembers(s: seq<Bus>, k: int, y: Bus)
    requires y in WithKey(s, k)
    ensures y in s && SortKey(y) == k
  {
    if s != [] && y in WithKey(s[1..], k) {
      WithKeyMembers(s[1..], k, y);
    }
  }

  lemma NonEmptyWithSameKeys(r1: seq<Bus>, r2: seq<Bus>)
    requires forall k :: WithKey(r1, k) == WithKey(r2, k)
    ensures r1 != [] ==> r2 != []
  {
    if r1 != [] {
      assert WithKey(r1, SortKey(r1[0])) != [];
      assert WithKey(r2, SortKey(r1[0])) != [];
    }
  }

  /** Two sorted sequences that agree, key by key, on which buses they hold and
      in what order, are equal. */
  lemma {:induction false} SortedWithSameKeysEqual(r1: seq<Bus>, r2: seq<Bus>)
    requires SortedByKey(r1) && SortedByKey(r2)
    requires forall k :: WithKey(r1, k) == WithKey(r2, k)
    ensures r1 == r2
    decreases |r1|
  {
    NonEmptyWithSameKeys(r1, r2);
    NonEmptyWithSameKeys(r2, r1);
    if r1 != [] {
      var k1, k2 := SortKey(r1[0]), SortKey(r2[0]);
      assert r2[0] in WithKey(r2, k2);
      WithKeyMembers(r1, k2, r2[0]);
      assert r1[0] in WithKey(r1, k1);
      WithKeyMembers(r2, k1, r1[0]);
      assert k1 == k2;
      assert WithKey(r1, k1)[0] == r1[0] && WithKey(r2, k1)[0] == r2[0];
      assert r1[0] == r2[0];
      forall k ensures WithKey(r1[1..], k) == WithKey(r2[1..], k) {
        var h := if k1 == k then [r1[0]] else [];
        assert WithKey(r1, k) == h + WithKey(r1[1..], k);
        assert WithKey(r2, k) == h + WithKey(r2[1..], k);
        assert (h + WithKey(r1[1..], k))[|h|..] == WithKey(r1[1..], k);
        assert (h + WithKey(r2[1..], k))[|h|..] == WithKey(r2[1..], k);
      }
      SortedWithSameKeysEqual(r1[1..], r2[1..]);
      assert r1 == [r1[0]] + r1[1..] && r2 == [r2[0]] + r2[1..];
    }
  }

  /** Every stable sort of `s` is StableSort(s): the model's order is the one
      Python's `sorted` produces. */
  lemma StableSortUnique(r: seq<Bus>, s: seq<Bus>)
    requires IsStableSortOf(r, s)
    ensures r == StableSort(s)
  {
    StableSortCorrect(s);
    SortedWithSameKeysEqual(r, StableSort(s));
  }

  // ---------------------------------------------------------------- one bus

  /** The minutes shown: a missing "estimated_minutes" shows as 0. */
  function DisplayMinutes(b: Bus): int {
    b.estimatedMinutes.GetOr(0)
  }

  const ArrivedLabel: string := "🔴 Durağa geldi"

  /** The time label: arrived at 1 minute or less, yellow up to 5, green above. */
  function TimeText(m: int): (r: string)
    ensures |r| > 1
    ensures r[0] == '🔴' <==> m <= 1
    ensures r[0] == '🟡' <==> 1 < m <= 5
    ensures r[0] == '🟢' <==> 5 < m
    ensures 1 < m ==> r[1..] == " " + IntToString(m) + " dk"
    ensures m <= 1 <==> r == ArrivedLabel
  {
    if m <= 1 then ArrivedLabel
    else if m <= 5 then "🟡 " + IntToString(m) + " dk"
    else "🟢 " + IntToString(m) + " dk"
  }

  const DirectionPrefix: string := "📍 Yön: "

  /** The direction line: none for an empty direction, and a direction longer
      than 45 characters cut to its first 45 followed by "...". */
  function DirectionLine(d: string): (r: string)
    ensures d == [] <==> r == []
    ensures |d| <= 45 ==> r == [] || r == DirectionPrefix + d + "\n"
    ensures |d| > 45 ==> r == DirectionPrefix + d[..45] + "...\n" && |r| == |DirectionPrefix| + 49
  {
    if d == [] then []
    else if |d| > 45 then DirectionPrefix + d[..45] + "...\n"
    else DirectionPrefix + d + "\n"
  }

  /** `"─" * 25`. */
  const Rule: string := "─────────────────────────"

  lemma RuleIs25Dashes()
    ensures |Rule| == 25 && forall i :: 0 <= i < 25 ==> Rule[i] == '─'
  {
  }

  /** The block one bus contributes to the message. */
  function BusBlock(b: Bus): string {
    LineHeading(b) + ArrivalLine(b) + DirectionLine(b.direction.GetOr("")) + RuleLine
  }

  /** The first line of a block: the line code in bold and the time label. */
  function LineHeading(b: Bus): string {
    "**" + b.line.GetOr("Bilinmiyor") + "** - " + TimeText(DisplayMinutes(b)) + "\n"
  }

  /** The second line of a block: the clock time of arrival. */
  function ArrivalLine(b: Bus): string {
    "🕐 Saat: " + b.arrivalTime.GetOr("") + "\n"
  }

  const RuleLine: string := Rule + "\n"

  lemma PrefixOfAppend<T>(a: seq<T>, b: seq<T>)
    ensures (a + b)[..|a|] == a
  {
  }

  lemma SuffixOfAppend<T>(a: seq<T>, b: seq<T>)
    ensures (a + b)[|a + b| - |b|..] == b
  {
  }

  /** A block opens with the bold line code and its time label and closes
      with the 25-dash rule on a line of its own. */
  lemma BusBlockShape(b: Bus)
    ensures |BusBlock(b)| >= |LineHeading(b)| + 26
    ensures BusBlock(b)[..|LineHeading(b)|] == LineHeading(b)
    ensures BusBlock(b)[|BusBlock(b)| - 26..] == Rule + "\n"
  {
    var h, a, d := LineHeading(b), ArrivalLine(b), DirectionLine(b.direction.GetOr(""));
    PrefixOfAppend(h, a);
    PrefixOfAppend(h + a, d);
    PrefixOfAppend(h + a + d, RuleLine);
    SuffixOfAppend(h + a + d, RuleLine);
    assert |RuleLine| == 26;
  }

  // ---------------------------------------------------------------- the message

  const NoInfoText: string := "❌ Durak bilgisi alınamadı."
  const NoBusesText: string := "🚌 Bu durağa henüz otobüs bilgisi yok."
  const Footer: string := "\n💡 Bilgileri yenilemek için: `/otobusler`"

  /** The heading: the current time, the stop name when one is known and not empty. */
  function Header(now: int, stationName: Option<string>): string {
    "🕐 **Şu an: " + HourMinute(now) + "**\n"
    + (if stationName.Some? && stationName.value != "" then "📍 **Durak: " + stationName.value + "**\n" else "")
    + "\n🚌 **Yaklaşan Otobüsler:**\n\n"
  }

  /** The blocks of `s`, one after the other. */
  function Blocks(s: seq<Bus>): string {
    if s == [] then "" else Blocks(s[..|s| - 1]) + BusBlock(s[|s| - 1])
  }

  /** The message `format_bus_info(station_info, now, station_name)` returns. */
  function Rendered(info: Option<StationInfo>, now: int, stationName: Option<string>): string {
    if info.None? || info.value.buses.None? then NoInfoText
    else if info.value.buses.value == [] then NoBusesText
    else Header(now, stationName) + Blocks(StableSort(info.value.buses.value)) + Footer
  }

  lemma AppendAssoc<T>(a: seq<T>, b: seq<T>, c: seq<T>)
    ensures (a + b) + c == a + (b + c)
  {
  }

  lemma BlocksSnoc(s: seq<Bus>, i: nat)
    requires i < |s|
    ensures Blocks(s[..i + 1]) == Blocks(s[..i]) + BusBlock(s[i])
  {
    assert s[..i + 1][..i] == s[..i];
  }

  /** The loop of `format_bus_info`: `message += ...` once per bus, in order. */
  method AppendBlocks(heading: string, sorted: seq<Bus>) returns (message: string)
    ensures message == heading + Blocks(sorted)
  {
    message := heading;
    var i := 0;
    while i < |sorted|
      invariant 0 <= i <= |sorted|
      invariant message == heading + Blocks(sorted[..i])
    {
      var block := BusBlock(sorted[i]);
      BlocksSnoc(sorted, i);
      AppendAssoc(heading, Blocks(sorted[..i]), block);
      message := message + block;
      i := i + 1;
    }
    assert sorted[..|sorted|] == sorted;
  }

  /** `IETTBot.format_bus_info`. */
  method FormatBusInfo(info: Option<StationInfo>, now: int, stationName: Option<string>) returns (message: string)
    ensures message == Rendered(info, now, stationName)
  {
    if info.None? || info.value.buses.None? {
      return NoInfoText;
    }
    var buses := info.value.buses.value;
    if buses == [] {
      return NoBusesText;
    }
    message := AppendBlocks(Header(now, stationName), StableSort(buses));
    message := message + Footer;
  }

  // ---------------------------------------------------------------- what the message says

  /** The guard cases: no info or no "buses" key, then an empty list. */
  lemma RenderedGuards(info: Option<StationInfo>, now: int, stationName: Option<string>)
    ensures info.None? || info.value.buses.None? ==> Rendered(info, now, stationName) == NoInfoText
    ensures info.Some? && info.value.buses == Some([]) ==> Rendered(info, now, stationName) == NoBusesText
  {
  }

  /** For a non-empty list, the message is the heading, then one block for each
      bus in the order any stable sort by key puts them, then the footer. */
  lemma RenderedInStableOrder(buses: seq<Bus>, r: seq<Bus>, now: int, stationName: Option<string>)
    requires buses != [] && IsStableSortOf(r, buses)
    ensures Rendered(Some(StationInfo(Some(buses))), now, stationName) == Header(now, stationName) + Blocks(r) + Footer
  {
    StableSortUnique(r, buses);
  }

  /** A bus without "estimated_minutes" is labelled as arrived, yet it is listed
      after every bus due in fewer than 999 minutes. */
  lemma MissingMinutesListedLater(buses: seq<Bus>, i: nat, j: nat)
    requires i < |StableSort(buses)| && j < |StableSort(buses)|
    requires StableSort(buses)[i].estimatedMinutes.None?
    requires StableSort(buses)[j].estimatedMinutes.Some? && StableSort(buses)[j].estimatedMinutes.value < 999
    ensures j < i
    ensures TimeText(DisplayMinutes(StableSort(buses)[i])) == ArrivedLabel
  {
    StableSortCorrect(buses);
  }
}
