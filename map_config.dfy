/** The decisions the map widget takes before it touches any record: which
    map it draws, which filters its flight query gets, whether popups are
    detailed, and which subfleets and airports the fleet map shows. */
module MapConfig {
  import opened Common
  import opened Php
  import opened MapData

  /** The widget's configuration array. */
  datatype WidgetConfig = WidgetConfig(
    source: PhpValue,
    visible: PhpValue,
    limit: PhpValue,
    airline: PhpValue,
    location: PhpValue,
    company: PhpValue,
    popups: PhpValue)

  /** The defaults a widget gets when the page sets nothing. */
  const DefaultConfig := WidgetConfig(PInt(0), PBool(true), PNull, PNull, PNull, PNull, PNull)

  /** The global settings the widget consults, read as booleans. */
  datatype Settings = Settings(
    onlyFlightsFromCurrent: bool,
    restrictToCompany: bool,
    restrictAircraftToRank: bool,
    restrictAircraftToTyperating: bool)

  /** The eight kinds of map. */
  datatype MapType =
    | GenericMap
    | AirlineMap(airlineId: PhpValue)
    | UserMap
    | FleetMap
    | AerodromesMap
    | AssignmentMap
    | SceneryMap
    | AirportMap(airportId: PhpValue)

  /** The source strings that name a map kind of their own. */
  predicate IsKeyword(s: string)
  {
    s == "user" || s == "fleet" || s == "aerodromes" || s == "assignment" || s == "scenery"
  }

  predicate NonZeroNumeric(v: PhpValue)
  {
    IsNumeric(v) && NumericValue(v) != 0.0
  }

  /** The map kind a `source` value selects: the integer 0 is the generic
      map, any other non-zero number an airline, the five keywords their own
      maps, and every remaining value an airport id. */
  function ModeOf(source: PhpValue): (t: MapType)
    ensures t == GenericMap <==> source == PInt(0)
    ensures t.AirlineMap? <==> source != PInt(0) && NonZeroNumeric(source)
    ensures t.AirlineMap? ==> t.airlineId == source
    ensures t == UserMap <==> source == PStr("user")
    ensures t == FleetMap <==> source == PStr("fleet")
    ensures t == AerodromesMap <==> source == PStr("aerodromes")
    ensures t == AssignmentMap <==> source == PStr("assignment")
    ensures t == SceneryMap <==> source == PStr("scenery")
    ensures t.AirportMap? <==>
      source != PInt(0) && !NonZeroNumeric(source) && !(source.PStr? && IsKeyword(source.s))
    ensures t.AirportMap? ==> t.airportId == source
  {
    KeywordsAreNotNumeric();
    if source == PInt(0) then GenericMap
    else if NonZeroNumeric(source) then AirlineMap(source)
    else if source == PStr("user") then UserMap
    else if source == PStr("fleet") then FleetMap
    else if source == PStr("aerodromes") then AerodromesMap
    else if source == PStr("assignment") then AssignmentMap
    else if source == PStr("scenery") then SceneryMap
    else AirportMap(source)
  }

  lemma KeywordsAreNotNumeric()
    ensures !IsNumericString("user") && !IsNumericString("fleet") && !IsNumericString("aerodromes")
    ensures !IsNumericString("assignment") && !IsNumericString("scenery")
  {
    LetterStartIsNotNumeric("user");
    LetterStartIsNotNumeric("fleet");
    LetterStartIsNotNumeric("aerodromes");
    LetterStartIsNotNumeric("assignment");
    LetterStartIsNotNumeric("scenery");
  }

  /** A string that starts with a letter is not numeric. */
  lemma LetterStartIsNotNumeric(k: string)
    requires |k| > 0 && 'a' <= k[0] <= 'z'
    ensures !IsNumericString(k)
  {
    assert Unsigned(k) == k;
    var i := IndexOf(k, '.');
    if i < |k| {
      assert i > 0 && k[..i][0] == k[0];
    }
  }

  /** A few sources whose kind is easy to get wrong: the string "0" and the
      float 0.0 are not the generic map but airport ids, a numeric string is
      an airline, and an unset source is an airport id too. */
  lemma ModeExamples()
    ensures ModeOf(PStr("0")) == AirportMap(PStr("0"))
    ensures ModeOf(PFloat(0.0)) == AirportMap(PFloat(0.0))
    ensures ModeOf(PStr("12")) == AirlineMap(PStr("12"))
    ensures ModeOf(PNull) == AirportMap(PNull)
  {
    ZeroNumeral();
    TwelveNumeral();
  }

  lemma ZeroNumeral()
    ensures IsNumeric(PStr("0")) && NumericValue(PStr("0")) == 0.0
  {
    assert IndexOf("0", '.') == 1;
    assert DigitsValue("0") == 0;
  }

  lemma TwelveNumeral()
    ensures IsNumeric(PStr("12")) && NumericValue(PStr("12")) == 12.0
  {
    assert IndexOf("12", '.') == 2;
    assert DigitsValue("12") == 12 by {
      assert "12"[..1] == "1";
      assert DigitsValue("1") == 1 by { assert "1"[..0] == ""; }
    }
  }

  /** Maps drawn from flights or PIREPs (the kinds that build city pairs). */
  predicate IsFlightMode(t: MapType)
  {
    t != FleetMap && t != AerodromesMap && t != SceneryMap
  }

  /** Maps that colour city pairs against the viewer's own PIREPs. */
  predicate ColoursByViewer(t: MapType)
  {
    t != FleetMap && t != AssignmentMap && t != AerodromesMap
  }

  /** Restrict the generic map to the viewer's airport: forced on by the
      global setting, otherwise only when the config says true. */
  function LimitLocation(s: Settings, c: WidgetConfig): (r: bool)
    ensures s.onlyFlightsFromCurrent ==> r
    ensures !s.onlyFlightsFromCurrent ==> (r <==> c.location == PBool(true))
  {
    if s.onlyFlightsFromCurrent then true
    else if c.location.PBool? then c.location.b else false
  }

  /** Restrict to the viewer's airline: forced on by the global setting,
      otherwise only when the config says true. */
  function LimitCompany(s: Settings, c: WidgetConfig): (r: bool)
    ensures s.restrictToCompany ==> r
    ensures !s.restrictToCompany ==> (r <==> c.company == PBool(true))
  {
    if s.restrictToCompany then true
    else if c.company.PBool? then c.company.b else false
  }

  /** The viewer's location: the current airport, else the home airport,
      else the placeholder ZZZZ (also for a guest). */
  function ViewerAirportId(viewer: Option<Viewer>): (id: string)
    ensures viewer.Some? && viewer.value.currentAirport.Some? ==> id == viewer.value.currentAirport.value
    ensures viewer.Some? && viewer.value.currentAirport.None? && viewer.value.homeAirport.Some? ==>
      id == viewer.value.homeAirport.value
    ensures viewer.None? || (viewer.value.currentAirport.None? && viewer.value.homeAirport.None?) ==>
      id == "ZZZZ"
  {
    match viewer
    case None => "ZZZZ"
    case Some(v) =>
      if v.currentAirport.Some? then v.currentAirport.value
      else if v.homeAirport.Some? then v.homeAirport.value
      else "ZZZZ"
  }

  /** The viewer's airline id; reading it from a missing user gives null. */
  function ViewerAirline(viewer: Option<Viewer>): PhpValue
  {
    if viewer.Some? then PInt(viewer.value.airlineId) else PNull
  }

  /** The columns the flight query filters on. */
  datatype FilterKey = Active | Visible | AirlineId | DptAirportId

  /** A key/value filter: every listed column must equal its value. */
  type Filter = map<FilterKey, PhpValue>

  /** The flight query's main filter and the filter of its OR branch (the
      latter is used only by the airport map). */
  datatype Filters = Filters(main: Filter, alt: Filter)

  predicate CompanyApplies(t: MapType, s: Settings, c: WidgetConfig)
  {
    (t == GenericMap || t.AirportMap?) && LimitCompany(s, c)
  }

  predicate VisibleApplies(t: MapType, c: WidgetConfig)
  {
    Truthy(c.visible) && t != UserMap && t != FleetMap
  }

  /** The filters, built in the order the widget assigns them. */
  function BuildFilters(t: MapType, s: Settings, c: WidgetConfig, viewer: Option<Viewer>): (f: Filters)
    ensures Active in f.main && f.main[Active] == PInt(1)
    ensures Active in f.alt && f.alt[Active] == PInt(1)
    ensures Visible in f.main <==> VisibleApplies(t, c)
    ensures Visible in f.alt <==> VisibleApplies(t, c)
    ensures Visible in f.main ==> f.main[Visible] == PInt(1) && f.alt[Visible] == PInt(1)
    ensures DptAirportId in f.main <==> (t == GenericMap && LimitLocation(s, c)) || t.AirportMap?
    ensures t == GenericMap && DptAirportId in f.main ==> f.main[DptAirportId] == PStr(ViewerAirportId(viewer))
    ensures t.AirportMap? ==> f.main[DptAirportId] == t.airportId
    ensures AirlineId in f.main <==> t.AirlineMap? || CompanyApplies(t, s, c)
    ensures t.AirlineMap? ==> f.main[AirlineId] == t.airlineId
    ensures CompanyApplies(t, s, c) ==> f.main[AirlineId] == ViewerAirline(viewer)
    ensures AirlineId in f.alt <==> CompanyApplies(t, s, c)
    ensures CompanyApplies(t, s, c) ==> f.alt[AirlineId] == ViewerAirline(viewer)
    ensures DptAirportId !in f.alt
  {
    var main0: Filter := map[Active := PInt(1)];
    var alt0: Filter := map[Active := PInt(1)];
    var main1 := if t.AirlineMap? then main0[AirlineId := t.airlineId] else main0;
    var main2 := if t == GenericMap && LimitLocation(s, c)
      then main1[DptAirportId := PStr(ViewerAirportId(viewer))] else main1;
    var company := CompanyApplies(t, s, c);
    var main3 := if company then main2[AirlineId := ViewerAirline(viewer)] else main2;
    var alt1 := if company then alt0[AirlineId := ViewerAirline(viewer)] else alt0;
    var visible := VisibleApplies(t, c);
    var main4 := if visible then main3[Visible := PInt(1)] else main3;
    var alt2 := if visible then alt1[Visible := PInt(1)] else alt1;
    // the airport map adds its departure filter just before the query
    var main5 := if t.AirportMap? then main4[DptAirportId := t.airportId] else main4;
    Filters(main5, alt2)
  }

  /** A flight row as the query sees it. */
  datatype FlightRow = FlightRow(
    active: PhpValue,
    visible: PhpValue,
    airlineId: PhpValue,
    dptAirportId: PhpValue,
    arrAirportId: PhpValue)

  function Column(row: FlightRow, k: FilterKey): PhpValue
  {
    match k
    case Active => row.active
    case Visible => row.visible
    case AirlineId => row.airlineId
    case DptAirportId => row.dptAirportId
  }

  /** A key/value filter selects a row when every listed column matches. */
  predicate Selects(f: Filter, row: FlightRow)
  {
    forall k :: k in f ==> Column(row, k) == f[k]
  }

  /** What the flight query of a map kind selects (the assignment map's
      extra restriction to assigned flight ids is left to the caller). */
  predicate QuerySelects(t: MapType, f: Filters, row: FlightRow)
  {
    if t.AirportMap? then
      Selects(f.main, row) || (row.arrAirportId == t.airportId && Selects(f.alt, row))
    else Selects(f.main, row)
  }

  /** Every flight the airport map selects is an active flight that
      departs from or arrives at the airport, is visible when visibility
      applies and belongs to the viewer's airline when the company limit
      applies. */
  lemma AirportMapSelection(t: MapType, s: Settings, c: WidgetConfig, viewer: Option<Viewer>, row: FlightRow)
    requires t.AirportMap?
    requires QuerySelects(t, BuildFilters(t, s, c, viewer), row)
    ensures row.dptAirportId == t.airportId || row.arrAirportId == t.airportId
    ensures row.active == PInt(1)
    ensures VisibleApplies(t, c) ==> row.visible == PInt(1)
    ensures LimitCompany(s, c) ==> row.airlineId == ViewerAirline(viewer)
  {
    var f := BuildFilters(t, s, c, viewer);
    assert Column(row, Active) == PInt(1);
    if VisibleApplies(t, c) {
      assert Column(row, Visible) == PInt(1);
    }
    if LimitCompany(s, c) {
      assert Column(row, AirlineId) == ViewerAirline(viewer);
    }
    if Selects(f.main, row) {
      assert Column(row, DptAirportId) == t.airportId;
    }
  }

  /** With the location limit the generic map selects only flights leaving
      the viewer's airport. */
  lemma GenericMapSelection(s: Settings, c: WidgetConfig, viewer: Option<Viewer>, row: FlightRow)
    requires LimitLocation(s, c)
    requires QuerySelects(GenericMap, BuildFilters(GenericMap, s, c, viewer), row)
    ensures row.dptAirportId == PStr(ViewerAirportId(viewer))
    ensures row.active == PInt(1)
  {
    assert Column(row, DptAirportId) == PStr(ViewerAirportId(viewer));
    assert Column(row, Active) == PInt(1);
  }

  /** The popup setting before the size guard: the config's boolean if it
      gives one, else false for an airline map and null (detailed) for the
      others. */
  function InitialPopups(c: WidgetConfig, t: MapType): Option<bool>
  {
    if c.popups.PBool? then Some(c.popups.b)
    else if t.AirlineMap? then Some(false)
    else None
  }

  /** The number of flights from which detailed popups are switched off. */
  const PopupThreshold: nat := 1000

  /** Detailed popups after the size guard: a flight map with 1000 or more
      flights never gets them, whatever the config says. */
  function DetailedPopups(c: WidgetConfig, t: MapType, flightCount: nat): (r: Option<bool>)
    ensures IsFlightMode(t) && flightCount >= PopupThreshold ==> r == Some(false)
    ensures !(IsFlightMode(t) && flightCount >= PopupThreshold) && c.popups.PBool? ==> r == Some(c.popups.b)
    ensures !(IsFlightMode(t) && flightCount >= PopupThreshold) && !c.popups.PBool? ==>
      r == (if t.AirlineMap? then Some(false) else None)
  {
    if IsFlightMode(t) && flightCount >= PopupThreshold then Some(false)
    else InitialPopups(c, t)
  }

  /** The subfleets whose aircraft the fleet map shows: those of the
      configured airline (all, when the config names none), cut down to the
      viewer's allowable subfleets when either aircraft restriction is on. */
  function FleetSubfleets(subfleets: seq<Subfleet>, c: WidgetConfig, s: Settings, allowable: set<int>): (r: set<int>)
    ensures forall id :: id in r <==>
      (exists sf :: sf in subfleets && sf.id == id && OfConfiguredAirline(sf, c)) &&
      ((s.restrictAircraftToRank || s.restrictAircraftToTyperating) ==> id in allowable)
  {
    var chosen := set sf | sf in subfleets && OfConfiguredAirline(sf, c) :: sf.id;
    if s.restrictAircraftToRank || s.restrictAircraftToTyperating then chosen * allowable else chosen
  }

  predicate OfConfiguredAirline(sf: Subfleet, c: WidgetConfig)
  {
    IsNumeric(c.airline) ==> sf.airlineId as real == NumericValue(c.airline)
  }

  /** The parked, active aircraft of the chosen subfleets, in query order. */
  function FleetAircraft(aircraft: seq<Aircraft>, subfleets: set<int>): (r: seq<Aircraft>)
    ensures forall ac :: ac in r <==> ac in aircraft && ac.parked && ac.active && ac.subfleetId in subfleets
    ensures |r| <= |aircraft|
  {
    if aircraft == [] then []
    else
      var rest := FleetAircraft(aircraft[1..], subfleets);
      var ac := aircraft[0];
      assert forall x :: x in aircraft <==> x == ac || x in aircraft[1..];
      if ac.parked && ac.active && ac.subfleetId in subfleets then [ac] + rest else rest
  }

  /** The airports that hold at least one of the shown aircraft. */
  function FleetAirports(airports: seq<Airport>, aircraft: seq<Aircraft>): (r: seq<Airport>)
    ensures forall a :: a in r <==> a in airports && exists ac :: ac in aircraft && ac.airportId == a.id
    ensures |r| <= |airports|
  {
    if airports == [] then []
    else
      var rest := FleetAirports(airports[1..], aircraft);
      var a := airports[0];
      assert forall x :: x in airports <==> x == a || x in airports[1..];
      if exists ac :: ac in aircraft && ac.airportId == a.id then [a] + rest else rest
  }
}
