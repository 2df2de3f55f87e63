/** Arrival records and how `IETTBot` obtains them: the fixed example table of
    `parse_bus_times`, the page wrapper `scrape_station_info` and the
    three-source fallback `get_station_info`. */
module Arrivals {
  import opened Wrappers
  import opened Clock
  import opened Http

  /** One bus dict; any key may be absent from a dict that came from an API. */
  datatype Bus = Bus(
    line: Option<string>,
    direction: Option<string>,
    arrivalTime: Option<string>,
    estimatedMinutes: Option<int>)

  /** A station-info JSON object; `buses` is None when it has no "buses" key.
      A JSON `null` body is the None of an `Option<StationInfo>`. */
  datatype StationInfo = StationInfo(buses: Option<seq<Bus>>)

  function Lines(r: seq<Bus>): seq<Option<string>> {
    seq(|r|, i requires 0 <= i < |r| => r[i].line)
  }

  function Minutes(r: seq<Bus>): seq<Option<int>> {
    seq(|r|, i requires 0 <= i < |r| => r[i].estimatedMinutes)
  }

  function Directions(r: seq<Bus>): seq<Option<string>> {
    seq(|r|, i requires 0 <= i < |r| => r[i].direction)
  }

  /** An example entry: due in `minutes`, with the clock face `minutes` from now. */
  function ExampleBus(line: string, direction: string, minutes: int, now: int): (b: Bus)
    ensures b.arrivalTime == Some(ClockText((MinuteOfDay(now) + minutes) % 1440))
  {
    ClockAfterWraps(now, minutes);
    Bus(Some(line), Some(direction), Some(ClockAfter(now, minutes)), Some(minutes))
  }

  /** `IETTBot.parse_bus_times`: the HTML is not read; stop 322001 gets three
      example lines, every other stop two. */
  function ParseBusTimes(html: string, stationCode: string, now: int): (r: seq<Bus>)
    ensures stationCode == "322001" ==>
              Lines(r) == [Some("142"), Some("144A"), Some("76D")] &&
              Directions(r) == [Some("Boğazköy-Avcılar-Metrobüs"), Some("Avcılar-Bahçeşehir"), Some("Avcılar-Taksim")] &&
              Minutes(r) == [Some(3), Some(8), Some(12)]
    ensures stationCode != "322001" ==>
              Lines(r) == [Some("34"), Some("98M")] &&
              Directions(r) == [Some("Merkez-Şehir"), Some("Metrobüs Hattı")] &&
              Minutes(r) == [Some(5), Some(7)]
    ensures forall b <- r :: b.estimatedMinutes.Some? &&
              b.arrivalTime == Some(ClockText((MinuteOfDay(now) + b.estimatedMinutes.value) % 1440))
  {
    if stationCode == "322001" then
      [ExampleBus("142", "Boğazköy-Avcılar-Metrobüs", 3, now),
       ExampleBus("144A", "Avcılar-Bahçeşehir", 8, now),
       ExampleBus("76D", "Avcılar-Taksim", 12, now)]
    else
      [ExampleBus("34", "Merkez-Şehir", 5, now),
       ExampleBus("98M", "Metrobüs Hattı", 7, now)]
  }

  /** `IETTBot.scrape_station_info` given what the GET of the stop page did. */
  function ScrapeStationInfo(stationCode: string, page: Response<string>, now: int): (r: Option<StationInfo>)
    ensures r.Some? <==> page.Reply? && page.status == 200
    ensures r.Some? ==> r.value.buses == Some(ParseBusTimes(page.body, stationCode, now))
  {
    if page.Reply? && page.status == 200 then
      Some(StationInfo(Some(ParseBusTimes(page.body, stationCode, now))))
    else None
  }

  /** The sources `get_station_info` may ask, in the order it asks them. */
  datatype Source = MobileApi | MainApi | StopPage

  /** What `get_station_info` returned, and which sources it asked. */
  datatype Lookup = Lookup(info: Option<StationInfo>, requested: seq<Source>)

  /** The mobile API answered 200 with a body that parses as JSON. */
  predicate MobileAnswers(mobile: Response<Json<Option<StationInfo>>>) {
    mobile.Reply? && mobile.status == 200 && mobile.body.Parsed?
  }

  /** `IETTBot.get_station_info`. An exception from the mobile API (including a
      body that is not JSON) is swallowed; one from the main API aborts the whole
      lookup with None; a non-200 main API falls through to the stop page. */
  function GetStationInfo(
    stationCode: string,
    mobile: Response<Json<Option<StationInfo>>>,
    main: Response<Json<Option<StationInfo>>>,
    page: Response<string>,
    now: int): (r: Lookup)
    ensures r.requested in {[MobileApi], [MobileApi, MainApi], [MobileApi, MainApi, StopPage]}
    ensures r.requested == [MobileApi] <==> MobileAnswers(mobile)
    ensures MobileAnswers(mobile) ==> r.info == mobile.body.value
    ensures StopPage in r.requested <==> !MobileAnswers(mobile) && main.Reply? && main.status != 200
    ensures StopPage in r.requested ==> r.info == ScrapeStationInfo(stationCode, page, now)
    ensures !MobileAnswers(mobile) && main.Raises? ==> r.info.None?
    ensures !MobileAnswers(mobile) && main.Reply? && main.status == 200 ==>
              r.info == (if main.body.Parsed? then main.body.value else None)
  {
    if MobileAnswers(mobile) then Lookup(mobile.body.value, [MobileApi])
    else if main.Raises? then Lookup(None, [MobileApi, MainApi])
    else if main.status == 200 then
      Lookup(if main.body.Parsed? then main.body.value else None, [MobileApi, MainApi])
    else Lookup(ScrapeStationInfo(stationCode, page, now), [MobileApi, MainApi, StopPage])
  }
}
