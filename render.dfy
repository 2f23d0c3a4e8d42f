/** The page renderer: a head block, then one card per city showing today's
    weather and one block per forecast day. The page is modelled by its
    structural blocks, not by its HTML text. */
module Render {
  import opened Forecast
  import opened Cities

  /** `Head` is the fixed head template, which shows no render time. */
  datatype Block =
    | Head
    | CardOpen(city: string)
    | TodayBlock(temp: Temp, desc: string, img: string)
    | OutlookBlock(caption: string, date: int, tempMax: real, tempMin: real, desc: string, img: string)
    | CardClose

  /** The label of the first forecast block ("tomorrow"). */
  const Tomorrow: string := "明天"
  /** The label of every later forecast block ("the day after tomorrow"). */
  const DayAfter: string := "後天"

  /** The image tag for a weather icon code. */
  function IconImg(icon: string): (tag: string)
    ensures |tag| > |icon|
  {
    "<img src=\"https://openweathermap.org/img/wn/" + icon + "@2x.png\" alt=\"icon\">"
  }

  /** The image markup of today's block: the icon's tag, or nothing at all
      when the icon code is empty. */
  function TodayImg(icon: string): (tag: string)
    ensures tag == "" <==> icon == ""
  {
    if icon != "" then IconImg(icon) else ""
  }

  /** The label of forecast block `i`. */
  function Label(i: nat): string
  {
    if i == 0 then Tomorrow else DayAfter
  }

  function Outlook(i: nat, f: ForecastDay): Block
  {
    OutlookBlock(Label(i), f.date, f.tempMax, f.tempMin, f.desc, IconImg(f.icon))
  }

  /** One forecast block per forecast day, labelled by position. */
  function OutlookBlocks(fs: seq<ForecastDay>): seq<Block>
  {
    seq(|fs|, i requires 0 <= i < |fs| => Outlook(i, fs[i]))
  }

  function TodayOf(info: CityInfo): Block
  {
    TodayBlock(info.current.temp, info.current.desc, TodayImg(info.current.icon))
  }

  /** The card of one city. */
  function Card(name: string, info: CityInfo): seq<Block>
  {
    [CardOpen(name), TodayOf(info)] + OutlookBlocks(info.forecast) + [CardClose]
  }

  /** The whole page: the head, then the cards in city order. */
  function Page(cities: seq<City>, table: map<string, CityInfo>): seq<Block>
    requires forall i :: 0 <= i < |cities| ==> cities[i].name in table
  {
    if cities == [] then [Head]
    else
      var last := cities[|cities| - 1];
      Page(cities[..|cities| - 1], table) + Card(last.name, table[last.name])
  }

  /** One more city adds its card at the end of the page. */
  lemma PageStep(cities: seq<City>, table: map<string, CityInfo>, k: nat)
    requires k < |cities| && forall i :: 0 <= i < |cities| ==> cities[i].name in table
    ensures Page(cities[..k + 1], table) ==
      Page(cities[..k], table) + Card(cities[k].name, table[cities[k].name])
  {
    assert cities[..k + 1][..k] == cities[..k];
  }

  /** One more forecast day adds its block at the end. */
  lemma OutlookBlocksStep(fs: seq<ForecastDay>, i: nat)
    requires i < |fs|
    ensures OutlookBlocks(fs[..i + 1]) == OutlookBlocks(fs[..i]) + [Outlook(i, fs[i])]
  {
  }

  /** The rendering of one city's card: the card start, today's block, one
      forecast block per forecast day and the card end. */
  method RenderCard(name: string, c: CityInfo) returns (card: seq<Block>)
    ensures card == Card(name, c)
  {
    var img := if c.current.icon != "" then IconImg(c.current.icon) else "";
    var head := [CardOpen(name), TodayBlock(c.current.temp, c.current.desc, img)];
    assert head == [CardOpen(name), TodayOf(c)];
    card := head;
    for i := 0 to |c.forecast|
      invariant card == head + OutlookBlocks(c.forecast[..i])
    {
      var f := c.forecast[i];
      var caption := if i == 0 then Tomorrow else DayAfter;
      OutlookBlocksStep(c.forecast, i);
      card := card + [OutlookBlock(caption, f.date, f.tempMax, f.tempMin, f.desc, IconImg(f.icon))];
    }
    assert c.forecast[..|c.forecast|] == c.forecast;
    card := card + [CardClose];
  }

  /** The rendering loop: the head, then each city's card in city order. */
  method RenderPage(cities: seq<City>, table: map<string, CityInfo>) returns (html: seq<Block>)
    requires forall i :: 0 <= i < |cities| ==> cities[i].name in table
    ensures html == Page(cities, table)
  {
    html := [Head];
    for k := 0 to |cities|
      invariant html == Page(cities[..k], table)
    {
      PageStep(cities, table, k);
      var name := cities[k].name;
      var card := RenderCard(name, table[name]);
      html := html + card;
    }
    assert cities[..|cities|] == cities;
  }

  // ---------------------------------------------------------------------------
  // Properties of a card

  /** The number of forecast blocks among `bs`. */
  function Outlooks(bs: seq<Block>): (n: nat)
    ensures n <= |bs|
  {
    if bs == [] then 0 else Outlooks(bs[..|bs| - 1]) + (if bs[|bs| - 1].OutlookBlock? then 1 else 0)
  }

  lemma {:induction false} OutlooksAppend(a: seq<Block>, b: seq<Block>)
    ensures Outlooks(a + b) == Outlooks(a) + Outlooks(b)
    decreases |b|
  {
    if b == [] {
      assert a + b == a;
    } else {
      assert (a + b)[..|a + b| - 1] == a + b[..|b| - 1];
      OutlooksAppend(a, b[..|b| - 1]);
    }
  }

  lemma {:induction false} OutlookBlocksCount(fs: seq<ForecastDay>)
    ensures Outlooks(OutlookBlocks(fs)) == |fs|
    decreases |fs|
  {
    if fs != [] {
      var bs := OutlookBlocks(fs);
      assert bs[..|bs| - 1] == OutlookBlocks(fs[..|fs| - 1]);
      OutlookBlocksCount(fs[..|fs| - 1]);
    }
  }

  /** A card holds exactly one forecast block per forecast day. */
  lemma CardOutlookCount(name: string, info: CityInfo)
    ensures Outlooks(Card(name, info)) == |info.forecast|
  {
    var head := [CardOpen(name), TodayOf(info)];
    OutlooksAppend(head + OutlookBlocks(info.forecast), [CardClose]);
    OutlooksAppend(head, OutlookBlocks(info.forecast));
    OutlookBlocksCount(info.forecast);
    assert Outlooks(head) == 0 by {
      assert head[..1] == [CardOpen(name)];
      assert [CardOpen(name)][..0] == [];
    }
    assert Outlooks([CardClose]) == 0 by {
      assert [CardClose][..0] == [];
    }
  }

  /** Forecast block `i` of a card shows forecast day `i`, labelled "tomorrow"
      for the first day and "the day after tomorrow" for any later one. */
  lemma CardOutlookAt(name: string, info: CityInfo, i: nat)
    requires i < |info.forecast|
    ensures var b, f := Card(name, info)[i + 2], info.forecast[i];
      b.OutlookBlock? &&
      (b.caption == Tomorrow <==> i == 0) && (b.caption == DayAfter <==> i != 0) &&
      b.date == f.date && b.tempMax == f.tempMax && b.tempMin == f.tempMin && b.desc == f.desc &&
      b.img == IconImg(f.icon)
  {
    assert Card(name, info)[i + 2] == OutlookBlocks(info.forecast)[i];
  }

  /** Today's block carries an image tag exactly when the city's icon code is
      non-empty; a city whose current-weather request failed shows `N/A`, the
      failure text and no image. */
  lemma CardToday(city: City, reply: CurrentReply, info: CityInfo)
    requires info.current == CityInfoFor(city, reply).current
    ensures var b := Card(city.name, info)[1];
      b.TodayBlock? && (b.img == "" <==> info.current.icon == "") &&
      (reply.status != 200 ==> b.temp == NotAvailable && b.desc == FetchFailed && b.img == "") &&
      (reply.status == 200 && reply.icon != "" ==> b.img == IconImg(reply.icon))
  {
  }
}
