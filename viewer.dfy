/**
 * svgholder/src/pages/SvgViewer.tsx: the gallery page. Its state is the class `Gallery`;
 * each handler is one atomic step that takes the outcome of its request as a parameter.
 * Grouping by upload day and the two formatters are modelled on integer milliseconds.
 */
module Viewer {
  import opened Wrappers
  import opened Text
  import opened Records
  import opened ClientService
  import Sorting

  /** Milliseconds in a day, `1000 * 60 * 60 * 24`. */
  const DAY_MS := 1000 * 60 * 60 * 24

  /**
   * The `YYYY-MM-DD` part of `toISOString()`, represented by the number of the UTC day
   * (days since the epoch, rounded down). Later days have larger numbers, matching the
   * order of the date strings.
   */
  function DayKey(ms: int): (k: int)
    ensures k * DAY_MS <= ms < (k + 1) * DAY_MS
  {
    ms / DAY_MS
  }

  /** One section of the gallery: the day's key, the Date of its midnight, its items. */
  datatype DateGroup = DateGroup(dateKey: int, date: int, svgs: seq<SvgItem>)

  function ItemDay(x: SvgItem): int {
    DayKey(x.uploadDate)
  }

  /** The items of `s` uploaded on day `k`, in their order in `s`. */
  function OnDay(s: seq<SvgItem>, k: int): seq<SvgItem> {
    if s == [] then []
    else OnDay(s[..|s| - 1], k) + if ItemDay(s[|s| - 1]) == k then [s[|s| - 1]] else []
  }

  /** Day `k` holds every item of that day as often as `s` does, and nothing else. */
  lemma {:induction false} OnDayCount(s: seq<SvgItem>, k: int, x: SvgItem)
    ensures multiset(OnDay(s, k))[x] == if ItemDay(x) == k then multiset(s)[x] else 0
  {
    if s != [] {
      var init, last := s[..|s| - 1], s[|s| - 1];
      assert s == init + [last];
      OnDayCount(init, k, x);
    }
  }

  function Keys(groups: seq<DateGroup>): (ks: seq<int>)
    ensures |ks| == |groups| && forall i :: 0 <= i < |groups| ==> ks[i] == groups[i].dateKey
  {
    seq(|groups|, i requires 0 <= i < |groups| => groups[i].dateKey)
  }

  function Flatten(groups: seq<DateGroup>): seq<SvgItem> {
    if groups == [] then [] else groups[0].svgs + Flatten(groups[1..])
  }

  /**
   * What `groupSvgsByDate` promises: keys strictly newest first, no empty group, each group
   * holding exactly the items of its day newest first, and a group for every item's day.
   */
  predicate IsDateGrouping(groups: seq<DateGroup>, svgs: seq<SvgItem>) {
    (forall i, j :: 0 <= i < j < |groups| ==> groups[i].dateKey > groups[j].dateKey)
    && (forall i :: 0 <= i < |groups| ==> groups[i].svgs != [] && groups[i].date == groups[i].dateKey * DAY_MS)
    && (forall i :: 0 <= i < |groups| ==> multiset(groups[i].svgs) == multiset(OnDay(svgs, groups[i].dateKey)))
    && (forall i :: 0 <= i < |groups| ==> Sorting.SortedDesc(groups[i].svgs, UploadDate))
    && (forall x :: x in svgs ==> ItemDay(x) in Keys(groups))
  }

  lemma {:induction false} FlattenCount(groups: seq<DateGroup>, svgs: seq<SvgItem>, x: SvgItem)
    requires Sorting.Distinct(Keys(groups))
    requires forall i :: 0 <= i < |groups| ==> multiset(groups[i].svgs) == multiset(OnDay(svgs, groups[i].dateKey))
    ensures multiset(Flatten(groups))[x] == if ItemDay(x) in Keys(groups) then multiset(svgs)[x] else 0
  {
    if groups != [] {
      var rest := groups[1..];
      assert Keys(rest) == Keys(groups)[1..];
      assert forall i :: 0 <= i < |rest| ==> rest[i] == groups[i + 1];
      FlattenCount(rest, svgs, x);
      assert multiset(groups[0].svgs)[x] == multiset(OnDay(svgs, groups[0].dateKey))[x];
      OnDayCount(svgs, groups[0].dateKey, x);
      if ItemDay(x) == groups[0].dateKey {
        assert ItemDay(x) !in Keys(rest);
      } else {
        assert ItemDay(x) in Keys(groups) <==> ItemDay(x) in Keys(rest);
      }
    }
  }

  /** A date grouping is a partition: the groups together hold every item exactly as often. */
  lemma GroupingPartitions(groups: seq<DateGroup>, svgs: seq<SvgItem>)
    requires IsDateGrouping(groups, svgs)
    ensures multiset(Flatten(groups)) == multiset(svgs)
  {
    var ks := Keys(groups);
    forall i, j | 0 <= i < j < |ks| ensures ks[i] != ks[j] {
      assert groups[i].dateKey > groups[j].dateKey;
    }
    forall x ensures multiset(Flatten(groups))[x] == multiset(svgs)[x] {
      FlattenCount(groups, svgs, x);
    }
  }

  /** Every item sits in the group of its own day, and in no other. */
  lemma GroupHoldsItsDay(groups: seq<DateGroup>, svgs: seq<SvgItem>, i: int, x: SvgItem)
    requires IsDateGrouping(groups, svgs) && 0 <= i < |groups|
    ensures x in groups[i].svgs <==> x in svgs && ItemDay(x) == groups[i].dateKey
  {
    assert multiset(groups[i].svgs)[x] == multiset(OnDay(svgs, groups[i].dateKey))[x];
    OnDayCount(svgs, groups[i].dateKey, x);
  }

  /**
   * The dictionary `groups` after a pass over `s`: a bucket for exactly the days present in
   * `s`, holding that day's items in order; `order` lists the days as first met.
   */
  ghost predicate BucketsOf(buckets: map<int, seq<SvgItem>>, order: seq<int>, s: seq<SvgItem>) {
    (forall k :: k in buckets <==> k in order)
    && (forall k :: k in order ==> buckets[k] == OnDay(s, k))
    && (forall k :: k in order <==> OnDay(s, k) != [])
    && Sorting.Distinct(order)
  }

  /** One step of the pass: push `x` onto its day's bucket, creating the bucket if needed. */
  lemma BucketStep(buckets: map<int, seq<SvgItem>>, order: seq<int>, s: seq<SvgItem>, x: SvgItem,
                   buckets': map<int, seq<SvgItem>>, order': seq<int>)
    requires BucketsOf(buckets, order, s)
    requires ItemDay(x) in buckets ==> order' == order && buckets' == buckets[ItemDay(x) := buckets[ItemDay(x)] + [x]]
    requires ItemDay(x) !in buckets ==> order' == order + [ItemDay(x)] && buckets' == buckets[ItemDay(x) := [x]]
    ensures BucketsOf(buckets', order', s + [x])
  {
    assert (s + [x])[..|s|] == s;
    assert forall k :: OnDay(s + [x], k) == OnDay(s, k) + if ItemDay(x) == k then [x] else [];
  }

  lemma TakeOneMore<T>(s: seq<T>, i: nat)
    requires i < |s|
    ensures s[..i + 1] == s[..i] + [s[i]]
  {
  }

  /** The groups built from day keys, each with its bucket newest first. */
  function MakeGroups(keys: seq<int>, buckets: map<int, seq<SvgItem>>): (groups: seq<DateGroup>)
    requires forall j :: 0 <= j < |keys| ==> keys[j] in buckets
    ensures Keys(groups) == keys
    ensures forall j :: 0 <= j < |keys| ==>
      groups[j] == DateGroup(keys[j], keys[j] * DAY_MS, Sorting.SortDesc(buckets[keys[j]], UploadDate))
  {
    seq(|keys|, j requires 0 <= j < |keys| =>
      DateGroup(keys[j], keys[j] * DAY_MS, Sorting.SortDesc(buckets[keys[j]], UploadDate)))
  }

  /** Building the sections from the keys of a complete bucket map, newest first, gives a date grouping. */
  lemma MakeGroupsIsGrouping(order: seq<int>, keys: seq<int>, buckets: map<int, seq<SvgItem>>, svgs: seq<SvgItem>)
    requires BucketsOf(buckets, order, svgs)
    requires multiset(keys) == multiset(order) && Sorting.SortedDesc(keys, Sorting.Self) && Sorting.Distinct(keys)
    ensures forall j :: 0 <= j < |keys| ==> keys[j] in buckets
    ensures IsDateGrouping(MakeGroups(keys, buckets), svgs)
  {
    forall j | 0 <= j < |keys| ensures keys[j] in order {
      assert keys[j] in multiset(order);
    }
    GroupsNewestFirst(keys, buckets);
    GroupsHoldTheirDays(order, keys, buckets, svgs);
    GroupsCoverEveryDay(order, keys, buckets, svgs);
  }

  lemma GroupsNewestFirst(keys: seq<int>, buckets: map<int, seq<SvgItem>>)
    requires forall j :: 0 <= j < |keys| ==> keys[j] in buckets
    requires Sorting.SortedDesc(keys, Sorting.Self) && Sorting.Distinct(keys)
    ensures var groups := MakeGroups(keys, buckets);
      forall i, j :: 0 <= i < j < |groups| ==> groups[i].dateKey > groups[j].dateKey
  {
    Sorting.StrictlyDescending(keys);
  }

  lemma GroupsHoldTheirDays(order: seq<int>, keys: seq<int>, buckets: map<int, seq<SvgItem>>, svgs: seq<SvgItem>)
    requires BucketsOf(buckets, order, svgs)
    requires forall j :: 0 <= j < |keys| ==> keys[j] in order
    ensures forall j :: 0 <= j < |keys| ==> keys[j] in buckets
    ensures var groups := MakeGroups(keys, buckets);
      (forall i :: 0 <= i < |groups| ==> groups[i].svgs != [] && groups[i].date == groups[i].dateKey * DAY_MS)
      && (forall i :: 0 <= i < |groups| ==> multiset(groups[i].svgs) == multiset(OnDay(svgs, groups[i].dateKey)))
      && (forall i :: 0 <= i < |groups| ==> Sorting.SortedDesc(groups[i].svgs, UploadDate))
  {
    var groups := MakeGroups(keys, buckets);
    forall i | 0 <= i < |groups|
      ensures groups[i].svgs != [] && groups[i].date == groups[i].dateKey * DAY_MS
      ensures multiset(groups[i].svgs) == multiset(OnDay(svgs, groups[i].dateKey))
      ensures Sorting.SortedDesc(groups[i].svgs, UploadDate)
    {
      assert groups[i].svgs == Sorting.SortDesc(OnDay(svgs, keys[i]), UploadDate);
    }
  }

  lemma GroupsCoverEveryDay(order: seq<int>, keys: seq<int>, buckets: map<int, seq<SvgItem>>, svgs: seq<SvgItem>)
    requires BucketsOf(buckets, order, svgs)
    requires multiset(keys) == multiset(order)
    requires forall j :: 0 <= j < |keys| ==> keys[j] in buckets
    ensures forall x :: x in svgs ==> ItemDay(x) in Keys(MakeGroups(keys, buckets))
  {
    forall x | x in svgs ensures ItemDay(x) in keys {
      OnDayCount(svgs, ItemDay(x), x);
      assert multiset(OnDay(svgs, ItemDay(x)))[x] > 0;
      assert ItemDay(x) in multiset(keys);
    }
  }

  /**
   * `groupSvgsByDate`: fills a dictionary from day key to items in one pass, then orders the
   * keys newest first and each day's items newest first.
   */
  method GroupSvgsByDate(svgs: seq<SvgItem>) returns (groups: seq<DateGroup>)
    ensures IsDateGrouping(groups, svgs)
    ensures multiset(Flatten(groups)) == multiset(svgs)
  {
    var buckets: map<int, seq<SvgItem>> := map[];
    var order: seq<int> := [];
    var i := 0;
    while i < |svgs|
      invariant 0 <= i <= |svgs|
      invariant BucketsOf(buckets, order, svgs[..i])
    {
      var svg := svgs[i];
      var key := ItemDay(svg);
      ghost var before, keysBefore := buckets, order;
      if key !in buckets {
        buckets := buckets[key := [svg]];
        order := order + [key];
      } else {
        buckets := buckets[key := buckets[key] + [svg]];
      }
      BucketStep(before, keysBefore, svgs[..i], svg, buckets, order);
      TakeOneMore(svgs, i);
      i := i + 1;
    }
    assert svgs[..i] == svgs;
    groups := OrderGroups(buckets, order, svgs);
  }

  /**
   * The second half of `groupSvgsByDate`: `Object.entries(groups)` sorted newest day first,
   * each day's items sorted newest first.
   */
  method OrderGroups(buckets: map<int, seq<SvgItem>>, order: seq<int>, ghost svgs: seq<SvgItem>)
    returns (groups: seq<DateGroup>)
    requires BucketsOf(buckets, order, svgs)
    ensures IsDateGrouping(groups, svgs)
    ensures multiset(Flatten(groups)) == multiset(svgs)
  {
    var keys := Sorting.SortDesc(order, Sorting.Self);
    Sorting.SortDistinct(order, Sorting.Self);
    MakeGroupsIsGrouping(order, keys, buckets, svgs);
    groups := MakeGroups(keys, buckets);
    GroupingPartitions(groups, svgs);
  }

  /** `formatFileSize`: the unit is chosen by integer thresholds; only bytes get exact text. */
  datatype SizeLabel = InBytes(text: string) | InKilobytes(bytes: int) | InMegabytes(bytes: int)

  function FormatFileSize(bytes: int): (r: SizeLabel)
    ensures r.InBytes? <==> bytes < 1024
    ensures r.InKilobytes? <==> 1024 <= bytes < 1024 * 1024
    ensures r.InMegabytes? <==> 1024 * 1024 <= bytes
    ensures !r.InBytes? ==> r.bytes == bytes
  {
    if bytes < 1024 then InBytes(IntToString(bytes) + " B")
    else if bytes < 1024 * 1024 then InKilobytes(bytes)
    else InMegabytes(bytes)
  }

  /** The byte label reads back as the number it was made from. */
  lemma {:induction false} ByteLabelReadsBack(bytes: nat)
    requires bytes < 1024
    ensures FormatFileSize(bytes).InBytes?
    ensures var t := FormatFileSize(bytes).text;
      |t| >= 3 && t[|t| - 2..] == " B" && IsDecimal(t[..|t| - 2]) && ParseDecimal(t[..|t| - 2]) == bytes
  {
    var t := FormatFileSize(bytes).text;
    assert t == NatToString(bytes) + " B";
    assert t[..|t| - 2] == NatToString(bytes);
    ParseNatToString(bytes);
  }

  function SizeRank(l: SizeLabel): int {
    match l
    case InBytes(_) => 0
    case InKilobytes(_) => 1
    case InMegabytes(_) => 2
  }

  /** A larger file never gets a smaller unit. */
  lemma FileSizeUnitMonotone(a: int, b: int)
    requires a <= b
    ensures SizeRank(FormatFileSize(a)) <= SizeRank(FormatFileSize(b))
  {
  }

  function Abs(x: int): nat {
    if x < 0 then -x else x
  }

  /** `Math.ceil(a / b)` for whole numbers. */
  function CeilDiv(a: nat, b: nat): (r: nat)
    requires b > 0
    ensures r == 0 <==> a == 0
    ensures r > 0 ==> (r - 1) * b < a <= r * b
  {
    var q := (a + b - 1) / b;
    assert q * b + (a + b - 1) % b == a + b - 1;
    assert (q - 1) * b == q * b - b;
    q
  }

  /** `diffDays` of `formatDateForGrouping`: whole days, rounded up, between two instants. */
  function DaysBetween(date: int, now: int): (d: nat)
    ensures d == 0 <==> date == now
    ensures d > 0 ==> (d - 1) * DAY_MS < Abs(now - date) <= d * DAY_MS
  {
    CeilDiv(Abs(now - date), DAY_MS)
  }

  /** The section headings; `MonthAndYear` is the locale's `month year` of the instant. */
  datatype DateLabel = Today | Yesterday | DaysAgo(n: int) | WeeksAgo(n: int) | MonthsAgo(n: int) | MonthAndYear(date: int)

  /** The if-chain of `formatDateForGrouping` over a number of days. */
  function BucketDays(days: nat, date: int): (r: DateLabel)
    ensures r == Today <==> days == 0
    ensures r == Yesterday <==> days == 1
    ensures r.DaysAgo? <==> 2 <= days <= 7
    ensures r.DaysAgo? ==> r.n == days
    ensures r.WeeksAgo? <==> 8 <= days <= 30
    ensures r.WeeksAgo? ==> 2 <= r.n <= 5 && (r.n - 1) * 7 < days <= r.n * 7
    ensures r.MonthsAgo? <==> 31 <= days <= 365
    ensures r.MonthsAgo? ==> 2 <= r.n <= 13 && (r.n - 1) * 30 < days <= r.n * 30
    ensures r.MonthAndYear? <==> days > 365
  {
    if days == 0 then Today
    else if days == 1 then Yesterday
    else if days <= 7 then DaysAgo(days)
    else if days <= 30 then WeeksAgo(CeilDiv(days, 7))
    else if days <= 365 then MonthsAgo(CeilDiv(days, 30))
    else MonthAndYear(date)
  }

  /**
   * `formatDateForGrouping(date)` with the clock reading `now` as a parameter, both in
   * milliseconds. The buckets in terms of the elapsed time itself:
   */
  function FormatDateForGrouping(date: int, now: int): (r: DateLabel)
    ensures r == Today <==> now == date
    ensures r == Yesterday <==> 0 < Abs(now - date) <= DAY_MS
    ensures r.DaysAgo? <==> DAY_MS < Abs(now - date) <= 7 * DAY_MS
    ensures r.WeeksAgo? <==> 7 * DAY_MS < Abs(now - date) <= 30 * DAY_MS
    ensures r.MonthsAgo? <==> 30 * DAY_MS < Abs(now - date) <= 365 * DAY_MS
    ensures r.MonthAndYear? <==> 365 * DAY_MS < Abs(now - date)
  {
    BucketDays(DaysBetween(date, now), date)
  }

  /** The heading's text; the locale's month-and-year text is not modelled. */
  function LabelText(l: DateLabel): Option<string> {
    match l
    case Today => Some("Today")
    case Yesterday => Some("Yesterday")
    case DaysAgo(n) => Some(IntToString(n) + " days ago")
    case WeeksAgo(n) => Some(IntToString(n) + " weeks ago")
    case MonthsAgo(n) => Some(IntToString(n) + " months ago")
    case MonthAndYear(_) => None
  }

  lemma SuffixCancel(a: string, b: string, u: string)
    requires a + u == b + u
    ensures a == b
  {
    assert a == (a + u)[..|a|];
    assert b == (b + u)[..|b|];
  }

  /** Different headings have different texts: the text tells which bucket an item is in. */
  lemma LabelTextInjective(a: DateLabel, b: DateLabel)
    requires LabelText(a).Some? && LabelText(a) == LabelText(b)
    ensures a == b
  {
    var t := LabelText(a).value;
    match a
    case Today =>
    case Yesterday =>
    case DaysAgo(n) =>
      assert t[|t| - 6] == 'y';
      if b.DaysAgo? {
        SuffixCancel(IntToString(n), IntToString(b.n), " days ago");
        IntToStringInjective(n, b.n);
      }
    case WeeksAgo(n) =>
      assert t[|t| - 6] == 'k';
      if b.WeeksAgo? {
        SuffixCancel(IntToString(n), IntToString(b.n), " weeks ago");
        IntToStringInjective(n, b.n);
      }
    case MonthsAgo(n) =>
      assert t[|t| - 6] == 'h';
      if b.MonthsAgo? {
        SuffixCancel(IntToString(n), IntToString(b.n), " months ago");
        IntToStringInjective(n, b.n);
      }
  }

  /**
   * The section heading as `formatDateForGrouping(group.dateKey)` computes it: the key is read
   * back as the Date of its UTC midnight and compared with the clock.
   */
  function GroupHeading(dateKey: int, now: int): DateLabel {
    FormatDateForGrouping(dateKey * DAY_MS, now)
  }

  /**
   * With the clock anywhere in the group's own day after midnight, the heading of that day's
   * group reads `Yesterday`, and the group of the day before reads `2 days ago`.
   */
  lemma TodaysGroupHeadedYesterday(dateKey: int, now: int)
    requires DayKey(now) == dateKey && now != dateKey * DAY_MS
    ensures GroupHeading(dateKey, now) == Yesterday
    ensures GroupHeading(dateKey - 1, now) == DaysAgo(2)
  {
  }

  /** One millisecond after midnight, for a concrete day. */
  lemma TodaysGroupHeadedYesterdayExample()
    ensures GroupHeading(20000, 20000 * DAY_MS + 1) == Yesterday
  {
    TodaysGroupHeadedYesterday(20000, 20000 * DAY_MS + 1);
  }

  /** The heading by calendar days: the number of UTC days between the group's day and today. */
  function CalendarGroupHeading(dateKey: int, now: int): DateLabel {
    BucketDays(Abs(DayKey(now) - dateKey), dateKey * DAY_MS)
  }

  /** Today's group is headed `Today`, yesterday's `Yesterday`, and `n` days back `n days ago`. */
  lemma CalendarGroupHeadingCountsDays(dateKey: int, now: int)
    ensures CalendarGroupHeading(dateKey, now) == Today <==> DayKey(now) == dateKey
    ensures CalendarGroupHeading(dateKey, now) == Yesterday <==> Abs(DayKey(now) - dateKey) == 1
    ensures 2 <= DayKey(now) - dateKey <= 7 ==> CalendarGroupHeading(dateKey, now) == DaysAgo(DayKey(now) - dateKey)
  {
  }

  /** The items of `s` whose id is not `id`, in their order in `s` (`prev.filter(...)`). */
  function WithoutId(s: seq<SvgItem>, id: string): (r: seq<SvgItem>)
    ensures forall x :: multiset(r)[x] == if x.id == id then 0 else multiset(s)[x]
  {
    if s == [] then []
    else
      Sorting.HeadTail(s);
      (if s[0].id == id then [] else [s[0]]) + WithoutId(s[1..], id)
  }

  /** The filter keeps the order of the items it keeps. */
  lemma {:induction false} WithoutIdKeepsOrder(s: seq<SvgItem>, id: string)
    ensures Sorting.IsSubsequence(WithoutId(s, id), s)
  {
    if s != [] {
      WithoutIdKeepsOrder(s[1..], id);
      var t := WithoutId(s[1..], id);
      if s[0].id != id {
        assert ([s[0]] + t)[1..] == t;
      } else {
        assert WithoutId(s, id) == t;
        SubsequenceOfTail(t, s);
      }
    }
  }

  lemma {:induction false} SubsequenceOfTail<T>(a: seq<T>, b: seq<T>)
    requires b != [] && Sorting.IsSubsequence(a, b[1..])
    ensures Sorting.IsSubsequence(a, b)
  {
    if a != [] && a[0] == b[0] {
      SubsequenceDropHead(a, b[1..]);
    }
  }

  lemma {:induction false} SubsequenceDropHead<T>(a: seq<T>, b: seq<T>)
    requires a != [] && Sorting.IsSubsequence(a, b)
    ensures Sorting.IsSubsequence(a[1..], b)
  {
    if a[0] != b[0] {
      SubsequenceDropHead(a, b[1..]);
      SubsequenceOfTail(a[1..], b);
    } else {
      SubsequenceOfTail(a[1..], b);
    }
  }

  /** The request `handleSearch` issues. */
  datatype Fetch = FetchAll | FetchSearch(query: string)

  /** What the client call behind `fetch` delivers for the outcome `o`. */
  function Fetched(fetch: Fetch, o: ApiOutcome<seq<SvgRecord>>): Result<seq<SvgItem>, string> {
    if fetch == FetchAll then GetAllSvgs(o) else SearchSvgs(o)
  }

  /** The state of the gallery page (the clipboard flag `copySuccess` is not modelled). */
  class Gallery {
    var svgs: seq<SvgItem>
    var loading: bool
    var error: Option<string>
    var searchQuery: string
    var selectedSvg: Option<SvgItem>
    var deleteLoading: Option<string>

    /** The initial state, before the mount effect runs `loadSvgs`. */
    constructor ()
      ensures svgs == [] && loading && error == None && searchQuery == ""
      ensures selectedSvg == None && deleteLoading == None
    {
      svgs := [];
      loading := true;
      error := None;
      searchQuery := "";
      selectedSvg := None;
      deleteLoading := None;
    }

    /**
     * `loadSvgs`: clears the error, fetches every record and replaces the list; on failure the
     * list stays and `error` holds the message. `loading` is false afterwards.
     */
    method LoadSvgs(o: ApiOutcome<seq<SvgRecord>>)
      modifies this
      ensures !loading
      ensures GetAllSvgs(o).Ok? ==> svgs == GetAllSvgs(o).value && error == None
      ensures GetAllSvgs(o).Err? ==> svgs == old(svgs) && error == Some(GetAllSvgs(o).error)
      ensures searchQuery == old(searchQuery) && selectedSvg == old(selectedSvg)
      ensures deleteLoading == old(deleteLoading)
    {
      loading := true;
      error := None;
      var r := GetAllSvgs(o);
      if r.Ok? {
        svgs := r.value;
      } else {
        error := Some(r.error);
      }
      loading := false;
    }

    /**
     * `handleSearch`: a query that is blank once trimmed reloads everything; otherwise the
     * trimmed query is searched and the list replaced, and a failure sets `error` and keeps
     * the list. A successful search leaves an earlier error in place.
     */
    method HandleSearch(o: ApiOutcome<seq<SvgRecord>>) returns (fetch: Fetch)
      modifies this
      ensures fetch == if Trim(old(searchQuery)) == [] then FetchAll else FetchSearch(Trim(old(searchQuery)))
      ensures !loading
      ensures Fetched(fetch, o).Ok? ==>
        svgs == Fetched(fetch, o).value && error == if fetch == FetchAll then None else old(error)
      ensures Fetched(fetch, o).Err? ==> svgs == old(svgs) && error == Some(Fetched(fetch, o).error)
      ensures searchQuery == old(searchQuery) && selectedSvg == old(selectedSvg)
      ensures deleteLoading == old(deleteLoading)
    {
      var q := Trim(searchQuery);
      if q == [] {
        LoadSvgs(o);
        return FetchAll;
      }
      fetch := FetchSearch(q);
      Search(o);
    }

    /** The search branch of `handleSearch`, once the query is known not to be blank. */
    method Search(o: ApiOutcome<seq<SvgRecord>>)
      modifies this
      ensures !loading
      ensures SearchSvgs(o).Ok? ==> svgs == SearchSvgs(o).value && error == old(error)
      ensures SearchSvgs(o).Err? ==> svgs == old(svgs) && error == Some(SearchSvgs(o).error)
      ensures searchQuery == old(searchQuery) && selectedSvg == old(selectedSvg)
      ensures deleteLoading == old(deleteLoading)
    {
      loading := true;
      var r := SearchSvgs(o);
      if r.Ok? {
        svgs := r.value;
      } else {
        error := Some(r.error);
      }
      loading := false;
    }

    /** Typing in the search box. */
    method SetSearchQuery(q: string)
      modifies this
      ensures searchQuery == q
      ensures svgs == old(svgs) && loading == old(loading) && error == old(error)
      ensures selectedSvg == old(selectedSvg) && deleteLoading == old(deleteLoading)
    {
      searchQuery := q;
    }

    /** The Clear button: empties the query and reloads everything. */
    method ClearSearch(o: ApiOutcome<seq<SvgRecord>>)
      modifies this
      ensures searchQuery == "" && !loading
      ensures GetAllSvgs(o).Ok? ==> svgs == GetAllSvgs(o).value && error == None
      ensures GetAllSvgs(o).Err? ==> svgs == old(svgs) && error == Some(GetAllSvgs(o).error)
      ensures selectedSvg == old(selectedSvg) && deleteLoading == old(deleteLoading)
    {
      searchQuery := "";
      LoadSvgs(o);
    }

    /** Opening the details of an item. */
    method Select(svg: SvgItem)
      modifies this
      ensures selectedSvg == Some(svg)
      ensures svgs == old(svgs) && loading == old(loading) && error == old(error)
      ensures searchQuery == old(searchQuery) && deleteLoading == old(deleteLoading)
    {
      selectedSvg := Some(svg);
    }

    /** Closing the details. */
    method CloseDetails()
      modifies this
      ensures selectedSvg == None
      ensures svgs == old(svgs) && loading == old(loading) && error == old(error)
      ensures searchQuery == old(searchQuery) && deleteLoading == old(deleteLoading)
    {
      selectedSvg := None;
    }

    /**
     * `handleDelete(id)`: `confirmed` is the user's answer to the confirmation. If the delete
     * succeeds, every item with that id leaves the list and an open detail view of it closes;
     * otherwise nothing changes and `alerted` reports the `Failed to delete SVG` alert.
     * `deleteLoading` is cleared either way.
     */
    method HandleDelete(id: string, confirmed: bool, o: ApiOutcome<SvgRecord>) returns (alerted: bool)
      modifies this
      ensures !confirmed ==> !alerted && unchanged(this)
      ensures confirmed ==> deleteLoading == None && alerted == !DeleteSvg(o)
      ensures confirmed && DeleteSvg(o) ==> svgs == WithoutId(old(svgs), id)
      ensures confirmed && DeleteSvg(o) ==>
        selectedSvg == if old(selectedSvg).Some? && old(selectedSvg).value.id == id then None else old(selectedSvg)
      ensures !(confirmed && DeleteSvg(o)) ==> svgs == old(svgs) && selectedSvg == old(selectedSvg)
      ensures loading == old(loading) && error == old(error) && searchQuery == old(searchQuery)
    {
      if !confirmed {
        return false;
      }
      deleteLoading := Some(id);
      var success := DeleteSvg(o);
      if success {
        svgs := WithoutId(svgs, id);
        if selectedSvg.Some? && selectedSvg.value.id == id {
          selectedSvg := None;
        }
        alerted := false;
      } else {
        alerted := true;
      }
      deleteLoading := None;
    }
  }
}
