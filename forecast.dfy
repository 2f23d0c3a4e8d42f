/** The forecast aggregator: three-hour forecast entries are grouped by UTC
    calendar day, today's entries skipped, scanning stops at the first entry
    of a second day, and each day group is reduced to a daily summary. */
module Forecast {

  const SecondsPerDay: int := 86400

  /** One three-hour forecast entry as the forecast endpoint reports it. */
  datatype Entry = Entry(dt: int, tempMax: real, tempMin: real, desc: string, icon: string)

  /** One summarised forecast day; `date` is the UTC day number (days since 1970-01-01). */
  datatype ForecastDay = ForecastDay(date: int, tempMax: real, tempMin: real, desc: string, icon: string)

  /** The UTC calendar day holding the epoch timestamp `dt`. */
  function Day(dt: int): (d: int)
    ensures d * SecondsPerDay <= dt < (d + 1) * SecondsPerDay
  {
    dt / SecondsPerDay
  }

  lemma DayMonotone(a: int, b: int)
    requires a <= b
    ensures Day(a) <= Day(b)
  {
  }

  // ---------------------------------------------------------------------------
  // Grouping

  /** The entries whose UTC date is not `today`, in their original order. */
  function SkipToday(s: seq<Entry>, today: int): (r: seq<Entry>)
    ensures |r| <= |s|
  {
    if s == [] then []
    else
      var init, last := s[..|s| - 1], s[|s| - 1];
      if Day(last.dt) == today then SkipToday(init, today) else SkipToday(init, today) + [last]
  }

  /** An entry is kept exactly when it is in the input and not on today's date. */
  lemma {:induction false} SkipTodayMembers(s: seq<Entry>, today: int, e: Entry)
    ensures e in SkipToday(s, today) <==> e in s && Day(e.dt) != today
    decreases |s|
  {
    if s != [] {
      var init, last := s[..|s| - 1], s[|s| - 1];
      assert s == init + [last];
      SkipTodayMembers(init, today, e);
    }
  }

  lemma {:induction false} SkipTodayAppend(a: seq<Entry>, b: seq<Entry>, today: int)
    ensures SkipToday(a + b, today) == SkipToday(a, today) + SkipToday(b, today)
    decreases |b|
  {
    if b == [] {
      assert a + b == a;
    } else {
      var b' := b[..|b| - 1];
      assert (a + b)[..|a + b| - 1] == a + b';
      assert (a + b)[|a + b| - 1] == b[|b| - 1];
      SkipTodayAppend(a, b', today);
    }
  }

  /** The length of the longest prefix of `f` whose entries all fall on day `d`. */
  function Run(f: seq<Entry>, d: int): (k: nat)
    ensures k <= |f|
    ensures forall j :: 0 <= j < k ==> Day(f[j].dt) == d
    ensures k < |f| ==> Day(f[k].dt) != d
  {
    if f == [] || Day(f[0].dt) != d then 0 else 1 + Run(f[1..], d)
  }

  /** The day groups the scan collects, in first-seen order: every upcoming
      entry up to the first one on a different day than the first upcoming
      entry, and then that entry alone as the second group. */
  function Groups(entries: seq<Entry>, today: int): seq<seq<Entry>>
  {
    var f := SkipToday(entries, today);
    if f == [] then []
    else
      var k := Run(f, Day(f[0].dt));
      if k == |f| then [f] else [f[..k], [f[k]]]
  }

  /** At most two non-empty groups, each on one date that is not today, two
      groups on different dates, the second holding one entry, and together
      the groups are the upcoming entries up to the cut, in scan order. */
  lemma GroupsShape(entries: seq<Entry>, today: int)
    ensures var g, f := Groups(entries, today), SkipToday(entries, today);
      |g| <= 2 &&
      (forall i :: 0 <= i < |g| ==> g[i] != [] && Day(g[i][0].dt) != today && OneDay(g[i])) &&
      (|g| == 2 ==> Day(g[0][0].dt) != Day(g[1][0].dt) && |g[1]| == 1) &&
      (g == [] <==> f == []) &&
      (|g| == 1 ==> g[0] == f) &&
      (|g| == 2 ==> |g[0]| < |f| && g[0] + g[1] == f[..|g[0]| + 1])
  {
    var f := SkipToday(entries, today);
    if f != [] {
      if Run(f, Day(f[0].dt)) == |f| {
        OneGroup(entries, today);
      } else {
        TwoGroups(entries, today);
      }
    }
  }

  lemma OneGroup(entries: seq<Entry>, today: int)
    requires var f := SkipToday(entries, today); f != [] && Run(f, Day(f[0].dt)) == |f|
    ensures var f := SkipToday(entries, today);
      Groups(entries, today) == [f] && OneDay(f) && Day(f[0].dt) != today
  {
    var f := SkipToday(entries, today);
    assert f[0] in f;
    SkipTodayMembers(entries, today, f[0]);
  }

  lemma TwoGroups(entries: seq<Entry>, today: int)
    requires var f := SkipToday(entries, today); f != [] && Run(f, Day(f[0].dt)) < |f|
    ensures var f := SkipToday(entries, today); var k := Run(f, Day(f[0].dt));
      Groups(entries, today) == [f[..k], [f[k]]] && 0 < k &&
      f[..k][0] == f[0] && OneDay(f[..k]) && f[..k] + [f[k]] == f[..k + 1] &&
      Day(f[0].dt) != today && Day(f[k].dt) != today && Day(f[k].dt) != Day(f[0].dt)
  {
    var f := SkipToday(entries, today);
    var k := Run(f, Day(f[0].dt));
    assert f[0] in f && f[k] in f;
    SkipTodayMembers(entries, today, f[0]);
    SkipTodayMembers(entries, today, f[k]);
    var first := f[..k];
    assert forall j :: 0 <= j < k ==> first[j] == f[j];
    assert OneDay(first);
    assert first + [f[k]] == f[..k + 1];
  }

  /** Every entry of `f` falls on the date of its first entry. */
  predicate OneDay(f: seq<Entry>)
  {
    forall j :: 0 <= j < |f| ==> Day(f[j].dt) == Day(f[0].dt)
  }

  /** When the upcoming entries all fall on one date they form the only group. */
  lemma GroupsOfOneDay(entries: seq<Entry>, today: int)
    requires OneDay(SkipToday(entries, today))
    ensures var f := SkipToday(entries, today);
      Groups(entries, today) == if f == [] then [] else [f]
  {
  }

  /** An upcoming entry at position `i` directly follows the upcoming
      entries before it in the filtered sequence. */
  lemma SkipTodayAround(entries: seq<Entry>, today: int, i: nat)
    requires i < |entries| && Day(entries[i].dt) != today
    ensures var all, f := SkipToday(entries, today), SkipToday(entries[..i], today);
      |f| < |all| && all[..|f|] == f && all[|f|] == entries[i]
  {
    assert entries[..i + 1][..i] == entries[..i];
    assert entries == entries[..i + 1] + entries[i + 1..];
    SkipTodayAppend(entries[..i + 1], entries[i + 1..], today);
  }

  /** When the upcoming entries among the first `i` fall on one date and entry
      `i` is upcoming on another, those entries and entry `i` are the groups. */
  lemma GroupsAtCut(entries: seq<Entry>, today: int, i: nat)
    requires i < |entries| && SkipToday(entries[..i], today) != []
    requires OneDay(SkipToday(entries[..i], today))
    requires Day(entries[i].dt) != today
    requires Day(entries[i].dt) != Day(SkipToday(entries[..i], today)[0].dt)
    ensures Groups(entries, today) == [SkipToday(entries[..i], today), [entries[i]]]
  {
    var f := SkipToday(entries[..i], today);
    SkipTodayAround(entries, today, i);
    var all := SkipToday(entries, today);
    assert all[0] == f[0];
    var k := Run(all, Day(all[0].dt));
    assert forall j :: 0 <= j < |f| ==> all[j] == f[j];
    assert k == |f|;
  }

  /** Filtering one more entry appends it exactly when it is not on today's date. */
  lemma SkipTodayStep(entries: seq<Entry>, today: int, i: nat)
    requires i < |entries|
    ensures SkipToday(entries[..i + 1], today) ==
      SkipToday(entries[..i], today) + if Day(entries[i].dt) == today then [] else [entries[i]]
  {
    assert entries[..i + 1][..i] == entries[..i];
  }

  /** The grouping loop's state after the first `i` entries when it has not
      stopped: `seen` holds the upcoming entries so far, all on one date, which
      is the only key when there is one. */
  ghost predicate ScanState(entries: seq<Entry>, today: int, i: nat, seen: seq<Entry>,
                            order: seq<int>, byDay: map<int, seq<Entry>>)
    requires i <= |entries|
  {
    seen == SkipToday(entries[..i], today) && OneDay(seen) &&
    (seen == [] ==> order == [] && byDay == map[]) &&
    (seen != [] ==> order == [Day(seen[0].dt)] && byDay == map[order[0] := seen])
  }

  /** `order` lists the dates of the groups in order and `byDay` maps each of
      them, and nothing else, to its group. */
  ghost predicate Collected(entries: seq<Entry>, today: int, order: seq<int>, byDay: map<int, seq<Entry>>)
  {
    var g := Groups(entries, today);
    |order| == |g| &&
    (forall i :: 0 <= i < |order| ==> order[i] == Day(g[i][0].dt) && order[i] in byDay && byDay[order[i]] == g[i]) &&
    (forall d :: d in byDay ==> d in order)
  }

  /** The loop stops at entry `i`, the first upcoming one on a second date:
      the new key makes two, and the keys and groups are complete. */
  lemma ScanStops(entries: seq<Entry>, today: int, i: nat, seen: seq<Entry>, order: seq<int>, byDay: map<int, seq<Entry>>)
    requires i < |entries| && ScanState(entries, today, i, seen, order, byDay) && seen != []
    requires Day(entries[i].dt) != today && Day(entries[i].dt) !in byDay
    ensures var d := Day(entries[i].dt);
      var next := byDay[d := []][d := [] + [entries[i]]];
      |next| >= 2 && Collected(entries, today, order + [d], next)
  {
    var d := Day(entries[i].dt);
    assert byDay == map[order[0] := seen];
    assert [] + [entries[i]] == [entries[i]];
    assert byDay[d := []][d := [] + [entries[i]]] == map[order[0] := seen, d := [entries[i]]];
    assert map[order[0] := seen, d := [entries[i]]].Keys == {order[0], d};
    GroupsAtCut(entries, today, i);
  }

  /** Entry `i` is upcoming on the date already collected, or is the first
      upcoming entry: the single key's group grows by it and the loop goes on. */
  lemma ScanGrows(entries: seq<Entry>, today: int, i: nat, seen: seq<Entry>, order: seq<int>, byDay: map<int, seq<Entry>>)
    requires i < |entries| && ScanState(entries, today, i, seen, order, byDay)
    requires Day(entries[i].dt) != today && (Day(entries[i].dt) in byDay || seen == [])
    ensures var d := Day(entries[i].dt);
      var added := if d !in byDay then byDay[d := []] else byDay;
      var next := added[d := added[d] + [entries[i]]];
      |next| < 2 &&
      ScanState(entries, today, i + 1, seen + [entries[i]], if d !in byDay then order + [d] else order, next)
  {
    SkipTodayStep(entries, today, i);
    var d := Day(entries[i].dt);
    var added := if d !in byDay then byDay[d := []] else byDay;
    assert added[d := added[d] + [entries[i]]] == map[d := seen + [entries[i]]];
    assert OneDay(seen + [entries[i]]);
  }

  /** The loop runs off the end with the upcoming entries on at most one date. */
  lemma ScanEnds(entries: seq<Entry>, today: int, seen: seq<Entry>, order: seq<int>, byDay: map<int, seq<Entry>>)
    requires ScanState(entries, today, |entries|, seen, order, byDay)
    ensures Collected(entries, today, order, byDay)
  {
    assert entries[..|entries|] == entries;
    GroupsOfOneDay(entries, today);
  }

  /** The grouping loop: scans the entries, skips today's, appends each to the
      list of its date (a new date becoming a new key) and stops once two
      dates are present. `order` is the insertion order of `byDay`'s keys. */
  method CollectDays(entries: seq<Entry>, today: int) returns (order: seq<int>, byDay: map<int, seq<Entry>>)
    ensures Collected(entries, today, order, byDay)
  {
    order, byDay := [], map[];
    ghost var seen: seq<Entry> := [];
    var i := 0;
    while i < |entries|
      invariant 0 <= i <= |entries|
      invariant ScanState(entries, today, i, seen, order, byDay)
    {
      var d := Day(entries[i].dt);
      if d == today {
        SkipTodayStep(entries, today, i);
        i := i + 1;
        continue;
      }
      if d !in byDay && seen != [] {
        ScanStops(entries, today, i, seen, order, byDay);
      } else {
        ScanGrows(entries, today, i, seen, order, byDay);
      }
      if d !in byDay {
        byDay := byDay[d := []];
        order := order + [d];
      }
      byDay := byDay[d := byDay[d] + [entries[i]]];
      if |byDay| >= 2 {
        break;
      }
      seen := seen + [entries[i]];
      i := i + 1;
    }
    if i == |entries| {
      ScanEnds(entries, today, seen, order, byDay);
    }
  }

  // ---------------------------------------------------------------------------
  // Reductions

  /** The largest `tempMax` of a non-empty group. */
  function HighestMax(g: seq<Entry>): real
    requires g != []
  {
    if |g| == 1 then g[0].tempMax
    else
      var rest := HighestMax(g[1..]);
      if g[0].tempMax >= rest then g[0].tempMax else rest
  }

  /** The group's highest maximum bounds every entry's maximum and is one of them. */
  lemma {:induction false} HighestMaxIsMax(g: seq<Entry>)
    requires g != []
    ensures forall e :: e in g ==> e.tempMax <= HighestMax(g)
    ensures exists e :: e in g && e.tempMax == HighestMax(g)
    decreases |g|
  {
    assert g[0] in g;
    if |g| > 1 {
      HighestMaxIsMax(g[1..]);
      assert forall e :: e in g ==> e == g[0] || e in g[1..];
    }
  }

  /** The smallest `tempMin` of a non-empty group. */
  function LowestMin(g: seq<Entry>): real
    requires g != []
  {
    if |g| == 1 then g[0].tempMin
    else
      var rest := LowestMin(g[1..]);
      if g[0].tempMin <= rest then g[0].tempMin else rest
  }

  /** The group's lowest minimum is at most every entry's minimum and is one of them. */
  lemma {:induction false} LowestMinIsMin(g: seq<Entry>)
    requires g != []
    ensures forall e :: e in g ==> LowestMin(g) <= e.tempMin
    ensures exists e :: e in g && e.tempMin == LowestMin(g)
    decreases |g|
  {
    assert g[0] in g;
    if |g| > 1 {
      LowestMinIsMin(g[1..]);
      assert forall e :: e in g ==> e == g[0] || e in g[1..];
    }
  }

  /** How often `x` occurs in `s`, as a list's `count` method reports it. */
  function Count(s: seq<string>, x: string): (n: nat)
    ensures n <= |s|
    ensures n > 0 <==> x in s
  {
    if s == [] then 0 else (if s[0] == x then 1 else 0) + Count(s[1..], x)
  }

  /** A most frequent value of a non-empty sequence. */
  function Mode(s: seq<string>): string
    requires s != []
  {
    MostCounted(s, s)
  }

  /** The mode occurs in the sequence, and no value occurs more often. */
  lemma ModeIsMostFrequent(s: seq<string>)
    requires s != []
    ensures Mode(s) in s
    ensures forall x :: Count(s, x) <= Count(s, Mode(s))
  {
    MostCountedIsMost(s, s);
    forall x ensures Count(s, x) <= Count(s, Mode(s)) {
      if x in s {
        var j :| 0 <= j < |s| && s[j] == x;
      }
    }
  }

  /** The candidate counted most often in `s`, the earliest one on a tie. */
  function MostCounted(s: seq<string>, cands: seq<string>): string
    requires cands != []
  {
    if |cands| == 1 then cands[0]
    else
      var best := MostCounted(s, cands[1..]);
      if Count(s, best) <= Count(s, cands[0]) then cands[0] else best
  }

  /** The chosen candidate is one of the candidates, counted at least as often as each of them. */
  lemma {:induction false} MostCountedIsMost(s: seq<string>, cands: seq<string>)
    requires cands != []
    ensures MostCounted(s, cands) in cands
    ensures forall j :: 0 <= j < |cands| ==> Count(s, cands[j]) <= Count(s, MostCounted(s, cands))
    decreases |cands|
  {
    if |cands| > 1 {
      MostCountedIsMost(s, cands[1..]);
      assert forall j :: 1 <= j < |cands| ==> cands[j] == cands[1..][j - 1];
    }
  }

  lemma ModeOfRainRainClear()
    ensures Mode(["rain", "rain", "clear"]) == "rain"
  {
    var s := ["rain", "rain", "clear"];
    ModeIsMostFrequent(s);
    assert Count(s, "rain") == 2;
    assert Count(s, "clear") == 1;
  }

  function Descriptions(g: seq<Entry>): (ds: seq<string>)
    ensures |ds| == |g| && forall i :: 0 <= i < |g| ==> ds[i] == g[i].desc
  {
    seq(|g|, i requires 0 <= i < |g| => g[i].desc)
  }

  function Icons(g: seq<Entry>): (ics: seq<string>)
    ensures |ics| == |g| && forall i :: 0 <= i < |g| ==> ics[i] == g[i].icon
  {
    seq(|g|, i requires 0 <= i < |g| => g[i].icon)
  }

  /** The summary of one day group: the highest maximum, the lowest minimum
      and the most frequent description and icon. */
  function Summarize(date: int, g: seq<Entry>): ForecastDay
    requires g != []
  {
    ForecastDay(date, HighestMax(g), LowestMin(g), Mode(Descriptions(g)), Mode(Icons(g)))
  }

  /** A summary's maximum bounds every maximum of its group and is one of them,
      and its minimum likewise for the minima. */
  lemma SummaryTemperatures(date: int, g: seq<Entry>)
    requires g != []
    ensures var day := Summarize(date, g);
      day.date == date &&
      (forall e :: e in g ==> e.tempMax <= day.tempMax && day.tempMin <= e.tempMin) &&
      (exists e :: e in g && e.tempMax == day.tempMax) &&
      (exists e :: e in g && e.tempMin == day.tempMin)
  {
    HighestMaxIsMax(g);
    LowestMinIsMin(g);
  }

  /** A summary's description and icon each occur in the group, at least as
      often as any other value. */
  lemma SummaryModes(date: int, g: seq<Entry>)
    requires g != []
    ensures var day := Summarize(date, g);
      day.desc in Descriptions(g) && (forall x :: Count(Descriptions(g), x) <= Count(Descriptions(g), day.desc)) &&
      day.icon in Icons(g) && (forall x :: Count(Icons(g), x) <= Count(Icons(g), day.icon))
  {
    ModeIsMostFrequent(Descriptions(g));
    ModeIsMostFrequent(Icons(g));
  }

  /** The forecast list for a successful forecast response. */
  function Aggregate(entries: seq<Entry>, today: int): (days: seq<ForecastDay>)
  {
    var g := Groups(entries, today);
    seq(|g|, i requires 0 <= i < |g| => Summarize(Day(g[i][0].dt), g[i]))
  }

  /** The forecast list a city gets for the forecast response's status code. */
  function ForecastOf(status: int, entries: seq<Entry>, today: int): seq<ForecastDay>
  {
    if status != 200 then [] else Aggregate(entries, today)
  }

  /** The forecast list is empty on a failed request, and otherwise has at
      most two days, none of them today, on different dates. */
  lemma ForecastOfShape(status: int, entries: seq<Entry>, today: int)
    ensures var days := ForecastOf(status, entries, today);
      (status != 200 ==> days == []) &&
      |days| <= 2 &&
      (forall i :: 0 <= i < |days| ==> days[i].date != today) &&
      (|days| == 2 ==> days[0].date != days[1].date)
  {
    AggregateShape(entries, today);
  }

  /** The reduction loop: a summary of each of the first two collected dates, in key order. */
  method BuildForecastList(order: seq<int>, byDay: map<int, seq<Entry>>) returns (list: seq<ForecastDay>)
    requires forall i :: 0 <= i < |order| ==> order[i] in byDay && byDay[order[i]] != []
    ensures |list| == if |order| < 2 then |order| else 2
    ensures forall i :: 0 <= i < |list| ==> list[i] == Summarize(order[i], byDay[order[i]])
  {
    list := [];
    var items := order[..if |order| < 2 then |order| else 2];
    ghost var want := seq(|items|, i requires 0 <= i < |items| => Summarize(order[i], byDay[order[i]]));
    for k := 0 to |items|
      invariant list == want[..k]
    {
      var date := items[k];
      var day := Summarize(date, byDay[date]);
      assert want[..k + 1] == want[..k] + [day];
      list := list + [day];
    }
    assert want[..|items|] == want;
  }

  /** The forecast step for one city: an empty list on a failed request,
      otherwise the grouping loop followed by the reduction loop. */
  method ForecastFor(status: int, entries: seq<Entry>, today: int) returns (list: seq<ForecastDay>)
    ensures list == ForecastOf(status, entries, today)
  {
    if status != 200 {
      return [];
    }
    var order, byDay := CollectDays(entries, today);
    list := BuildForecastList(order, byDay);
  }

  // ---------------------------------------------------------------------------
  // Properties of the aggregated forecast

  /** At most two days, none of them today, no date twice, the first day being
      the date of the first upcoming entry, and each day summarising its group. */
  lemma AggregateShape(entries: seq<Entry>, today: int)
    ensures var days, g := Aggregate(entries, today), Groups(entries, today);
      |days| == |g| && |days| <= 2 &&
      (forall i :: 0 <= i < |days| ==> days[i].date != today) &&
      (|days| == 2 ==> days[0].date != days[1].date) &&
      (days != [] ==> days[0].date == Day(SkipToday(entries, today)[0].dt)) &&
      (forall i :: 0 <= i < |days| ==> days[i] == Summarize(days[i].date, g[i]))
  {
    GroupsShape(entries, today);
    var days: seq<ForecastDay>, g: seq<seq<Entry>> := Aggregate(entries, today), Groups(entries, today);
    forall i | 0 <= i < |days|
      ensures days[i].date == Day(g[i][0].dt) && days[i] == Summarize(days[i].date, g[i])
    {
      assert days[i] == Summarize(Day(g[i][0].dt), g[i]);
    }
    if |g| == 2 {
      assert (g[0] + g[1])[0] == g[0][0];
    }
  }

  lemma GroupAt(entries: seq<Entry>, today: int, i: nat)
    requires i < |Groups(entries, today)|
    ensures var g := Groups(entries, today)[i]; g != [] && OneDay(g) && Day(g[0].dt) != today
  {
    GroupsShape(entries, today);
  }

  /** Each summarised day's maximum bounds and is attained by its group's
      maxima, its minimum likewise for the minima, and every entry of the
      group lies on the day's date. */
  lemma AggregateTemperatures(entries: seq<Entry>, today: int, i: nat)
    requires i < |Aggregate(entries, today)|
    ensures var day, g := Aggregate(entries, today)[i], Groups(entries, today)[i];
      (forall e :: e in g ==> Day(e.dt) == day.date && e.tempMax <= day.tempMax && day.tempMin <= e.tempMin) &&
      (exists e :: e in g && e.tempMax == day.tempMax) &&
      (exists e :: e in g && e.tempMin == day.tempMin)
  {
    var gs := Groups(entries, today);
    assert |Aggregate(entries, today)| == |gs|;
    GroupAt(entries, today, i);
    var g := gs[i];
    var day := Aggregate(entries, today)[i];
    assert day == Summarize(Day(g[0].dt), g);
    SummaryTemperatures(day.date, g);
    forall e | e in g ensures Day(e.dt) == day.date {
      var j :| 0 <= j < |g| && g[j] == e;
    }
  }

  /** When the upcoming entries span two different dates, exactly two days come out. */
  lemma TwoDatesGiveTwoDays(entries: seq<Entry>, today: int, a: Entry, b: Entry)
    requires a in entries && b in entries
    requires Day(a.dt) != today && Day(b.dt) != today && Day(a.dt) != Day(b.dt)
    ensures |Aggregate(entries, today)| == 2
  {
    GroupsShape(entries, today);
    var f := SkipToday(entries, today);
    SkipTodayMembers(entries, today, a);
    SkipTodayMembers(entries, today, b);
    var ia :| 0 <= ia < |f| && f[ia] == a;
    var ib :| 0 <= ib < |f| && f[ib] == b;
  }

  /** The first group holds every upcoming entry that precedes the second
      group's only entry; nothing after that entry is inspected. */
  lemma SecondDayCutsScan(entries: seq<Entry>, today: int)
    requires |Groups(entries, today)| == 2
    ensures var g, f := Groups(entries, today), SkipToday(entries, today);
      |g[1]| == 1 && |g[0]| < |f| && g[0] == f[..|g[0]|] && g[1][0] == f[|g[0]|]
  {
    GroupsShape(entries, today);
    var g, f := Groups(entries, today), SkipToday(entries, today);
    assert (g[0] + g[1])[..|g[0]|] == g[0];
    assert (g[0] + g[1])[|g[0]|] == g[1][0];
  }

  predicate Chronological(entries: seq<Entry>)
  {
    forall i, j :: 0 <= i < j < |entries| ==> entries[i].dt <= entries[j].dt
  }

  lemma {:induction false} SkipTodayKeepsOrder(s: seq<Entry>, today: int)
    requires Chronological(s)
    ensures Chronological(SkipToday(s, today))
    decreases |s|
  {
    if s != [] {
      var init, last := s[..|s| - 1], s[|s| - 1];
      assert Chronological(init);
      SkipTodayKeepsOrder(init, today);
      var r := SkipToday(init, today);
      forall e | e in r ensures e.dt <= last.dt {
        SkipTodayMembers(init, today, e);
        var k :| 0 <= k < |init| && init[k] == e;
      }
    }
  }

  /** For chronologically ordered entries the first day's date is strictly
      before the second's. */
  lemma ChronologicalDaysAscend(entries: seq<Entry>, today: int)
    requires Chronological(entries)
    requires |Aggregate(entries, today)| == 2
    ensures Aggregate(entries, today)[0].date < Aggregate(entries, today)[1].date
  {
    AggregateShape(entries, today);
    SecondDayCutsScan(entries, today);
    SkipTodayKeepsOrder(entries, today);
    var g, f := Groups(entries, today), SkipToday(entries, today);
    assert g[0][0] == f[0];
    DayMonotone(f[0].dt, f[|g[0]|].dt);
  }
}
