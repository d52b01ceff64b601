/** The map widget's airport and hub markers (ProcessAirport, ProcessHub),
    the layers they are sorted into, and the overlay and layer toggle lists
    handed to the map script. */
module MapMarkers {
  import opened Common
  import opened Php
  import opened MapData

  /** What a marker popup says about parked aircraft. */
  datatype FleetNote =
    | NoFleet                                         // no aircraft list was given
    | Registrations(aircraft: seq<(string, string)>)  // registration and ICAO type of each
    | ParkedCount(count: nat)                         // only the number parked

  /** The page the marker's name links to. */
  datatype PageKind = AirportPage | HubPage

  /** A marker: the airport id, its location, and the popup as structured
      text (link target, linked label, fleet note). */
  datatype Marker = Marker(id: string, loc: Location, page: PageKind, title: string, fleet: FleetNote)

  /** The label replaces every single quote in the airport name by a
      backtick, so that the name cannot end the script's string. */
  function EscapeQuotes(s: string): (r: string)
    ensures |r| == |s|
    ensures forall i :: 0 <= i < |r| ==> r[i] != '\''
    ensures forall i :: 0 <= i < |s| && s[i] != '\'' ==> r[i] == s[i]
    ensures forall i :: 0 <= i < |s| && s[i] == '\'' ==> r[i] == '`'
  {
    if s == [] then []
    else [if s[0] == '\'' then '`' else s[0]] + EscapeQuotes(s[1..])
  }

  /** The aircraft parked at an airport, in list order. */
  function ParkedAt(aircraft: seq<Aircraft>, airportId: string): (r: seq<Aircraft>)
    ensures forall ac :: ac in r <==> ac in aircraft && ac.airportId == airportId
    ensures |r| <= |aircraft|
    decreases |aircraft|
  {
    if aircraft == [] then []
    else
      var init, ac := DropLast(aircraft), Last(aircraft);
      assert aircraft == init + [ac];
      ParkedAt(init, airportId) + if ac.airportId == airportId then [ac] else []
  }

  function RegistrationsOf(aircraft: seq<Aircraft>): (r: seq<(string, string)>)
    ensures |r| == |aircraft|
    ensures forall i :: 0 <= i < |aircraft| ==> r[i] == (aircraft[i].registration, aircraft[i].icao)
  {
    if aircraft == [] then []
    else [(aircraft[0].registration, aircraft[0].icao)] + RegistrationsOf(aircraft[1..])
  }

  /** One more aircraft visited by the fleet loop. */
  lemma ParkedStep(aircraft: seq<Aircraft>, i: nat, airportId: string)
    requires i < |aircraft|
    ensures var ac := aircraft[i];
      RegistrationsOf(ParkedAt(aircraft[..i + 1], airportId)) ==
        RegistrationsOf(ParkedAt(aircraft[..i], airportId)) + if ac.airportId == airportId then [(ac.registration, ac.icao)] else []
  {
    var ac := aircraft[i];
    assert aircraft[..i + 1] == aircraft[..i] + [ac];
    assert DropLast(aircraft[..i + 1]) == aircraft[..i] && Last(aircraft[..i + 1]) == ac;
    var prev := ParkedAt(aircraft[..i], airportId);
    if ac.airportId == airportId {
      var now := prev + [ac];
      assert ParkedAt(aircraft[..i + 1], airportId) == now;
      assert RegistrationsOf(now) == RegistrationsOf(prev) + [(ac.registration, ac.icao)];
    }
  }

  /** The fleet note: each registration when one to five aircraft are parked
      there, otherwise (none, or six and more) only the count; nothing
      without an aircraft list. */
  function FleetNoteOf(aircraft: Option<seq<Aircraft>>, airportId: string): (note: FleetNote)
    ensures aircraft.None? <==> note == NoFleet
    ensures note.Registrations? ==> 1 <= |note.aircraft| <= 5
    ensures note.ParkedCount? ==> note.count == 0 || note.count >= 6
  {
    if aircraft.None? then NoFleet
    else
      var here := ParkedAt(aircraft.value, airportId);
      if 0 < |here| < 6 then Registrations(RegistrationsOf(here)) else ParkedCount(|here|)
  }

  /** The loop over the parked aircraft that writes the fleet part of a
      popup. */
  method FleetSection(aircraft: Option<seq<Aircraft>>, airportId: string) returns (note: FleetNote)
    ensures note == FleetNoteOf(aircraft, airportId)
  {
    if aircraft.None? {
      return NoFleet;
    }
    var all := aircraft.value;
    var count := |ParkedAt(all, airportId)|;
    if !(0 < count < 6) {
      return ParkedCount(count);
    }
    var regs: seq<(string, string)> := [];
    var i := 0;
    while i < |all|
      invariant 0 <= i <= |all|
      invariant regs == RegistrationsOf(ParkedAt(all[..i], airportId))
    {
      ParkedStep(all, i, airportId);
      if all[i].airportId == airportId {
        regs := regs + [(all[i].registration, all[i].icao)];
      }
      i := i + 1;
    }
    assert all[..i] == all;
    note := Registrations(regs);
  }

  /** The fleet note lists the registration and type of exactly the aircraft
      parked at the airport when there are one to five of them, gives only
      the count otherwise, and is absent without an aircraft list. */
  lemma FleetNoteCases(aircraft: Option<seq<Aircraft>>, airportId: string)
    ensures var note := FleetNoteOf(aircraft, airportId);
      && (aircraft.None? <==> note == NoFleet)
      && (aircraft.Some? ==> var n := |ParkedAt(aircraft.value, airportId)|;
           (note.Registrations? <==> 1 <= n <= 5)
           && (note.Registrations? ==> |note.aircraft| == n)
           && (note.ParkedCount? ==> note.count == n))
      && (note.Registrations? ==> forall r :: r in note.aircraft <==>
           exists ac :: ac in aircraft.value && ac.airportId == airportId && r == (ac.registration, ac.icao))
  {
    var note := FleetNoteOf(aircraft, airportId);
    if note.Registrations? {
      var here := ParkedAt(aircraft.value, airportId);
      var regs := note.aircraft;
      forall r ensures r in regs <==>
        exists ac :: ac in aircraft.value && ac.airportId == airportId && r == (ac.registration, ac.icao)
      {
        if r in regs {
          var k :| 0 <= k < |regs| && regs[k] == r;
          assert here[k] in here;
        }
        if exists ac :: ac in aircraft.value && ac.airportId == airportId && r == (ac.registration, ac.icao) {
          var ac :| ac in aircraft.value && ac.airportId == airportId && r == (ac.registration, ac.icao);
          var k :| 0 <= k < |here| && here[k] == ac;
          assert regs[k] == r;
        }
      }
    }
  }

  function MarkerOf(a: Airport, page: PageKind, aircraft: Option<seq<Aircraft>>): Marker
  {
    Marker(a.id, a.loc, page, a.id + " " + EscapeQuotes(a.name), FleetNoteOf(aircraft, a.id))
  }

  /** An airport marker; a missing airport gives none (the empty array). */
  method ProcessAirport(airport: Option<Airport>, aircraft: Option<seq<Aircraft>>) returns (m: Option<Marker>)
    ensures airport.None? <==> m.None?
    ensures airport.Some? ==> m == Some(MarkerOf(airport.value, AirportPage, aircraft))
  {
    if airport.None? {
      return None;
    }
    var a := airport.value;
    var fleet := FleetSection(aircraft, a.id);
    m := Some(Marker(a.id, a.loc, AirportPage, a.id + " " + EscapeQuotes(a.name), fleet));
  }

  /** A hub marker: as an airport marker, linking to the hub page. */
  method ProcessHub(hub: Option<Airport>, aircraft: Option<seq<Aircraft>>) returns (m: Option<Marker>)
    ensures hub.None? <==> m.None?
    ensures hub.Some? ==> m == Some(MarkerOf(hub.value, HubPage, aircraft))
  {
    if hub.None? {
      return None;
    }
    var a := hub.value;
    var fleet := FleetSection(aircraft, a.id);
    m := Some(Marker(a.id, a.loc, HubPage, a.id + " " + EscapeQuotes(a.name), fleet));
  }

  /** The markers of the airports with the given hub flag, in list order. */
  function MarkersOf(airports: seq<Airport>, hub: bool, aircraft: Option<seq<Aircraft>>): (r: seq<Marker>)
    ensures |r| <= |airports|
    ensures forall m :: m in r ==> m.page == (if hub then HubPage else AirportPage)
    ensures forall m :: m in r <==>
      exists a :: a in airports && a.hub == hub && m == MarkerOf(a, if hub then HubPage else AirportPage, aircraft)
    decreases |airports|
  {
    if airports == [] then []
    else
      var init, a := DropLast(airports), Last(airports);
      assert airports == init + [a];
      MarkersOf(init, hub, aircraft) +
        if a.hub == hub then [MarkerOf(a, if hub then HubPage else AirportPage, aircraft)] else []
  }

  lemma MarkersStep(airports: seq<Airport>, i: nat, hub: bool, aircraft: Option<seq<Aircraft>>)
    requires i < |airports|
    ensures var a := airports[i];
      MarkersOf(airports[..i + 1], hub, aircraft) == MarkersOf(airports[..i], hub, aircraft)
        + if a.hub == hub then [MarkerOf(a, if hub then HubPage else AirportPage, aircraft)] else []
  {
    assert airports[..i + 1] == airports[..i] + [airports[i]];
    assert DropLast(airports[..i + 1]) == airports[..i] && Last(airports[..i + 1]) == airports[i];
  }

  /** One of the loops that fill the hub layer (hub) and the airport layer
      (not hub). */
  method CollectMarkers(airports: seq<Airport>, hub: bool, aircraft: Option<seq<Aircraft>>)
    returns (markers: seq<Marker>)
    ensures markers == MarkersOf(airports, hub, aircraft)
  {
    markers := [];
    var i := 0;
    while i < |airports|
      invariant 0 <= i <= |airports|
      invariant markers == MarkersOf(airports[..i], hub, aircraft)
    {
      MarkersStep(airports, i, hub, aircraft);
      if airports[i].hub == hub {
        var m: Option<Marker>;
        if hub {
          m := ProcessHub(Some(airports[i]), aircraft);
        } else {
          m := ProcessAirport(Some(airports[i]), aircraft);
        }
        markers := markers + [m.value];
      }
      i := i + 1;
    }
    assert airports[..i] == airports;
  }

  /** The hub and airport layers of every map but the scenery map. */
  method BuildAirportLayers(airports: seq<Airport>, aircraft: Option<seq<Aircraft>>)
    returns (hubs: seq<Marker>, others: seq<Marker>)
    ensures hubs == MarkersOf(airports, true, aircraft)
    ensures others == MarkersOf(airports, false, aircraft)
    ensures |hubs| + |others| == |airports|
  {
    hubs := CollectMarkers(airports, true, aircraft);
    others := CollectMarkers(airports, false, aircraft);
    MarkersSplit(airports, aircraft);
  }

  /** Every airport lands in exactly one of the two layers. */
  lemma {:induction false} MarkersSplit(airports: seq<Airport>, aircraft: Option<seq<Aircraft>>)
    ensures |MarkersOf(airports, true, aircraft)| + |MarkersOf(airports, false, aircraft)| == |airports|
    decreases |airports|
  {
    if airports != [] {
      MarkersSplit(DropLast(airports), aircraft);
    }
  }


  /** The simulator a scenery entry is for; UnknownSim is a code that none
      of the simulator constants matches. */
  datatype Simulator = NoSim | Fs9 | Fsx | P3d | Xp | Msfs | OtherSim | UnknownSim(code: int)

  /** One of the viewer's scenery entries with its airport relation. */
  datatype Scenery = Scenery(airportId: string, airport: Option<Airport>, sim: Simulator)

  /** An airport placed on the scenery map, tagged with its simulator. */
  datatype SceneryPoint = SceneryPoint(airport: Airport, sim: Simulator)

  /** A scenery entry is placed when its airport resolved and has a filled
      latitude and longitude; the point takes the entry's airport id. */
  predicate Placeable(sc: Scenery)
  {
    sc.airport.Some? && !Blank(sc.airport.value.loc.lat) && !Blank(sc.airport.value.loc.lon)
  }

  function PointOf(sc: Scenery): SceneryPoint
    requires sc.airport.Some?
  {
    var a := sc.airport.value;
    SceneryPoint(Airport(sc.airportId, a.name, a.hub, a.loc), sc.sim)
  }

  function SceneryPoints(sceneries: seq<Scenery>): (r: seq<SceneryPoint>)
    ensures |r| <= |sceneries|
    ensures forall p :: p in r <==> exists sc :: sc in sceneries && Placeable(sc) && p == PointOf(sc)
    decreases |sceneries|
  {
    if sceneries == [] then []
    else
      var init, sc := DropLast(sceneries), Last(sceneries);
      assert sceneries == init + [sc];
      SceneryPoints(init) + if Placeable(sc) then [PointOf(sc)] else []
  }

  lemma SceneryStep(sceneries: seq<Scenery>, i: nat)
    requires i < |sceneries|
    ensures SceneryPoints(sceneries[..i + 1]) ==
      SceneryPoints(sceneries[..i]) + if Placeable(sceneries[i]) then [PointOf(sceneries[i])] else []
  {
    assert sceneries[..i + 1] == sceneries[..i] + [sceneries[i]];
    assert DropLast(sceneries[..i + 1]) == sceneries[..i] && Last(sceneries[..i + 1]) == sceneries[i];
  }

  /** The loop that turns the viewer's scenery entries into map points. */
  method BuildSceneryPoints(sceneries: seq<Scenery>) returns (points: seq<SceneryPoint>)
    ensures points == SceneryPoints(sceneries)
  {
    points := [];
    var i := 0;
    while i < |sceneries|
      invariant 0 <= i <= |sceneries|
      invariant points == SceneryPoints(sceneries[..i])
    {
      SceneryStep(sceneries, i);
      var sc := sceneries[i];
      if Placeable(sc) {
        var a := sc.airport.value;
        points := points + [SceneryPoint(Airport(sc.airportId, a.name, a.hub, a.loc), sc.sim)];
      }
      i := i + 1;
    }
    assert sceneries[..i] == sceneries;
  }

  /** The layers of the map, in the order the toggles list them. */
  datatype Layer = HubsLayer | AirportsLayer | FlightsLayer | Fs9Layer | FsxLayer | P3dLayer | XpLayer | MsfsLayer | OtherSimsLayer

  /** The simulator layer of a scenery point: no simulator and "other" share
      a layer, an unknown code has none. */
  function SimLayer(sim: Simulator): (r: Option<Layer>)
    ensures r.Some? ==> r.value in {Fs9Layer, FsxLayer, P3dLayer, XpLayer, MsfsLayer, OtherSimsLayer}
    ensures r.None? <==> sim.UnknownSim?
  {
    match sim
    case NoSim => Some(OtherSimsLayer)
    case OtherSim => Some(OtherSimsLayer)
    case Fs9 => Some(Fs9Layer)
    case Fsx => Some(FsxLayer)
    case P3d => Some(P3dLayer)
    case Xp => Some(XpLayer)
    case Msfs => Some(MsfsLayer)
    case UnknownSim(_) => None
  }

  /** The airport markers of the points whose simulator belongs to layer. */
  function SimMarkers(points: seq<SceneryPoint>, layer: Layer): (r: seq<Marker>)
    ensures |r| <= |points|
    ensures forall m :: m in r <==>
      exists p :: p in points && SimLayer(p.sim) == Some(layer) && m == MarkerOf(p.airport, AirportPage, None)
    ensures forall m :: m in r ==> m.fleet == NoFleet
    decreases |points|
  {
    if points == [] then []
    else
      var init, p := DropLast(points), Last(points);
      assert points == init + [p];
      SimMarkers(init, layer) + if SimLayer(p.sim) == Some(layer) then [MarkerOf(p.airport, AirportPage, None)] else []
  }

  /** One of the per-simulator loops: scenery airports get no fleet note. */
  method CollectSimLayer(points: seq<SceneryPoint>, layer: Layer) returns (markers: seq<Marker>)
    ensures markers == SimMarkers(points, layer)
  {
    markers := [];
    var i := 0;
    while i < |points|
      invariant 0 <= i <= |points|
      invariant markers == SimMarkers(points[..i], layer)
    {
      assert points[..i + 1] == points[..i] + [points[i]];
      assert DropLast(points[..i + 1]) == points[..i] && Last(points[..i + 1]) == points[i];
      if SimLayer(points[i].sim) == Some(layer) {
        var m := ProcessAirport(Some(points[i].airport), None);
        markers := markers + [m.value];
      }
      i := i + 1;
    }
    assert points[..i] == points;
  }

  /** The number of points whose simulator has a layer. */
  function KnownSims(points: seq<SceneryPoint>): nat
  {
    if points == [] then 0
    else KnownSims(DropLast(points)) + if SimLayer(Last(points).sim).Some? then 1 else 0
  }

  /** Every point with a known simulator lands in exactly one of the six
      simulator layers, and a point with an unknown code in none. */
  lemma {:induction false} SimLayersPartition(points: seq<SceneryPoint>)
    ensures |SimMarkers(points, Fs9Layer)| + |SimMarkers(points, FsxLayer)| + |SimMarkers(points, P3dLayer)|
          + |SimMarkers(points, XpLayer)| + |SimMarkers(points, MsfsLayer)| + |SimMarkers(points, OtherSimsLayer)|
          == KnownSims(points)
    decreases |points|
  {
    if points != [] {
      SimLayersPartition(DropLast(points));
    }
  }

  /** The layer at each position of the toggle order. */
  function LayerAt(i: int): Layer
  {
    if i <= 0 then HubsLayer
    else if i == 1 then AirportsLayer
    else if i == 2 then FlightsLayer
    else if i == 3 then Fs9Layer
    else if i == 4 then FsxLayer
    else if i == 5 then P3dLayer
    else if i == 6 then XpLayer
    else if i == 7 then MsfsLayer
    else OtherSimsLayer
  }

  /** Hubs, Airports, Flights, FS9, FSX, P3D, XP, MSFS, Other. */
  const LayerOrder: seq<Layer> := seq(9, LayerAt)

  /** The position of a layer in the toggle order. */
  function Rank(l: Layer): (r: nat)
    ensures r < 9 && LayerAt(r) == l
  {
    match l
    case HubsLayer => 0
    case AirportsLayer => 1
    case FlightsLayer => 2
    case Fs9Layer => 3
    case FsxLayer => 4
    case P3dLayer => 5
    case XpLayer => 6
    case MsfsLayer => 7
    case OtherSimsLayer => 8
  }

  /** The number of entries in each layer array. */
  datatype LayerSizes = LayerSizes(
    hubs: nat, airports: nat, flights: nat,
    fs9: nat, fsx: nat, p3d: nat, xp: nat, msfs: nat, other: nat)

  function Size(z: LayerSizes, l: Layer): nat
  {
    match l
    case HubsLayer => z.hubs
    case AirportsLayer => z.airports
    case FlightsLayer => z.flights
    case Fs9Layer => z.fs9
    case FsxLayer => z.fsx
    case P3dLayer => z.p3d
    case XpLayer => z.xp
    case MsfsLayer => z.msfs
    case OtherSimsLayer => z.other
  }

  predicate RankSorted(ls: seq<Layer>)
  {
    forall i, j :: 0 <= i < j < |ls| ==> Rank(ls[i]) < Rank(ls[j])
  }

  /** The non-empty layers among ls, in the order of ls. */
  function Enabled(z: LayerSizes, ls: seq<Layer>): (r: seq<Layer>)
    ensures forall l :: l in r <==> l in ls && Size(z, l) > 0
    decreases |ls|
  {
    if ls == [] then []
    else
      var init, l := DropLast(ls), Last(ls);
      assert ls == init + [l];
      Enabled(z, init) + if Size(z, l) > 0 then [l] else []
  }

  /** Dropping the empty layers keeps the order of the rest. */
  lemma {:induction false} EnabledKeepsOrder(z: LayerSizes, ls: seq<Layer>)
    requires RankSorted(ls)
    ensures RankSorted(Enabled(z, ls))
    decreases |ls|
  {
    if ls != [] {
      var init, l := DropLast(ls), Last(ls);
      assert ls == init + [l];
      assert RankSorted(init);
      EnabledKeepsOrder(z, init);
      var prev := Enabled(z, init);
      if Size(z, l) > 0 {
        forall k | k in prev ensures Rank(k) < Rank(l) {
          var i :| 0 <= i < |init| && init[i] == k;
          assert ls[i] == k && ls[|ls| - 1] == l;
        }
        var e := prev + [l];
        assert Enabled(z, ls) == e;
        forall i, j | 0 <= i < j < |e| ensures Rank(e[i]) < Rank(e[j]) {
          if j == |prev| {
            assert e[i] in prev;
          } else {
            assert e[i] == prev[i] && e[j] == prev[j];
          }
        }
      } else {
        assert Enabled(z, ls) == prev;
      }
    }
  }

  const OpenAipEntry := "\"OpenAIP Data\": OpenAIP,"

  function OverlayEntry(l: Layer): string
  {
    match l
    case HubsLayer => "'Hubs': mHubs,"
    case AirportsLayer => "'Airports': mAirports,"
    case FlightsLayer => "'Flights': mFlights,"
    case Fs9Layer => "'Fs2004': mFS9,"
    case FsxLayer => "'FsX': mFSX,"
    case P3dLayer => "'Prepar 3D': mP3D,"
    case XpLayer => "'X-Plane': mXP,"
    case MsfsLayer => "'MSFS': mMSFS,"
    case OtherSimsLayer => "'Other Sims': mOTHER,"
  }

  function LayerEntry(l: Layer): string
  {
    match l
    case HubsLayer => " mHubs,"
    case AirportsLayer => " mAirports,"
    case FlightsLayer => " mFlights,"
    case Fs9Layer => " mFS9,"
    case FsxLayer => " mFSX,"
    case P3dLayer => " mP3D,"
    case XpLayer => " mXP,"
    case MsfsLayer => " mMSFS,"
    case OtherSimsLayer => " mOTHER,"
  }

  /** The overlay string: the OpenAIP entry, then one entry per layer. */
  function OverlayText(ls: seq<Layer>): string
  {
    if ls == [] then OpenAipEntry else OverlayText(DropLast(ls)) + OverlayEntry(Last(ls))
  }

  function LayerText(ls: seq<Layer>): string
  {
    if ls == [] then "" else LayerText(DropLast(ls)) + LayerEntry(Last(ls))
  }

  /** Toggle text for the non-empty layers among ls. */
  function Toggles(z: LayerSizes, ls: seq<Layer>): (string, string)
  {
    (OverlayText(Enabled(z, ls)), LayerText(Enabled(z, ls)))
  }

  lemma EnabledSnoc(z: LayerSizes, p: seq<Layer>, l: Layer)
    ensures Enabled(z, p + [l]) == Enabled(z, p) + if Size(z, l) > 0 then [l] else []
  {
    assert DropLast(p + [l]) == p && Last(p + [l]) == l;
  }

  lemma TextSnoc(e: seq<Layer>, l: Layer)
    ensures OverlayText(e + [l]) == OverlayText(e) + OverlayEntry(l)
    ensures LayerText(e + [l]) == LayerText(e) + LayerEntry(l)
  {
    assert DropLast(e + [l]) == e && Last(e + [l]) == l;
  }

  /** Considering one more, non-empty, layer appends its entries. */
  lemma ToggleAppends(z: LayerSizes, p: seq<Layer>, l: Layer)
    requires Size(z, l) > 0
    ensures OverlayText(Enabled(z, p + [l])) == OverlayText(Enabled(z, p)) + OverlayEntry(l)
    ensures LayerText(Enabled(z, p + [l])) == LayerText(Enabled(z, p)) + LayerEntry(l)
  {
    EnabledSnoc(z, p, l);
    TextSnoc(Enabled(z, p), l);
  }

  /** Considering one more, empty, layer changes nothing. */
  lemma ToggleSkips(z: LayerSizes, p: seq<Layer>, l: Layer)
    requires Size(z, l) == 0
    ensures Enabled(z, p + [l]) == Enabled(z, p)
  {
    EnabledSnoc(z, p, l);
  }

  /** One of the nine checks: after the layers done so far, the next layer,
      when non-empty, appends its overlay entry and its layer entry. */
  method AddLayer(z: LayerSizes, done: seq<Layer>, l: Layer, overlays: string, layers: string)
    returns (overlays': string, layers': string)
    requires overlays == OverlayText(Enabled(z, done))
    requires layers == LayerText(Enabled(z, done))
    ensures overlays' == OverlayText(Enabled(z, done + [l]))
    ensures layers' == LayerText(Enabled(z, done + [l]))
  {
    overlays', layers' := overlays, layers;
    if Size(z, l) > 0 {
      overlays' := overlays' + OverlayEntry(l);
      layers' := layers' + LayerEntry(l);
      ToggleAppends(z, done, l);
    } else {
      ToggleSkips(z, done, l);
    }
  }

  lemma OrderStep(k: nat, l: Layer)
    requires k < |LayerOrder| && LayerAt(k) == l
    ensures LayerOrder[..k] + [l] == LayerOrder[..k + 1]
  {
  }

  /** The nine checks that append to the overlay and layer strings, in the
      fixed order. */
  method BuildOverlays(z: LayerSizes) returns (overlays: string, layers: string)
    ensures (overlays, layers) == Toggles(z, LayerOrder)
  {
    overlays := OpenAipEntry;
    layers := "";
    assert LayerOrder[..0] == [];
    OrderStep(0, HubsLayer);
    overlays, layers := AddLayer(z, LayerOrder[..0], HubsLayer, overlays, layers);
    OrderStep(1, AirportsLayer);
    overlays, layers := AddLayer(z, LayerOrder[..1], AirportsLayer, overlays, layers);
    OrderStep(2, FlightsLayer);
    overlays, layers := AddLayer(z, LayerOrder[..2], FlightsLayer, overlays, layers);
    OrderStep(3, Fs9Layer);
    overlays, layers := AddLayer(z, LayerOrder[..3], Fs9Layer, overlays, layers);
    OrderStep(4, FsxLayer);
    overlays, layers := AddLayer(z, LayerOrder[..4], FsxLayer, overlays, layers);
    OrderStep(5, P3dLayer);
    overlays, layers := AddLayer(z, LayerOrder[..5], P3dLayer, overlays, layers);
    OrderStep(6, XpLayer);
    overlays, layers := AddLayer(z, LayerOrder[..6], XpLayer, overlays, layers);
    OrderStep(7, MsfsLayer);
    overlays, layers := AddLayer(z, LayerOrder[..7], MsfsLayer, overlays, layers);
    OrderStep(8, OtherSimsLayer);
    overlays, layers := AddLayer(z, LayerOrder[..8], OtherSimsLayer, overlays, layers);
    WholeOrder();
  }

  lemma WholeOrder()
    ensures LayerOrder[..9] == LayerOrder
  {
  }

  /** A layer is listed exactly when its array is non-empty, and the listed
      layers follow the fixed order Hubs, Airports, Flights, FS9, FSX, P3D,
      XP, MSFS, Other. */
  lemma EnabledLayers(z: LayerSizes)
    ensures forall l :: l in Enabled(z, LayerOrder) <==> Size(z, l) > 0
    ensures RankSorted(Enabled(z, LayerOrder))
  {
    forall l ensures l in LayerOrder {
      assert LayerOrder[Rank(l)] == l;
    }
    EnabledKeepsOrder(z, LayerOrder);
  }

  lemma {:induction false} OverlayTextOpens(ls: seq<Layer>)
    ensures |OverlayText(ls)| >= |OpenAipEntry|
    ensures OverlayText(ls)[..|OpenAipEntry|] == OpenAipEntry
    decreases |ls|
  {
    if ls != [] {
      OverlayTextOpens(DropLast(ls));
      var prev := OverlayText(DropLast(ls));
      assert (prev + OverlayEntry(Last(ls)))[..|OpenAipEntry|] == prev[..|OpenAipEntry|];
    }
  }

  lemma {:induction false} NothingEnabled(z: LayerSizes, ls: seq<Layer>)
    requires forall l :: Size(z, l) == 0
    ensures Enabled(z, ls) == []
    decreases |ls|
  {
    if ls != [] {
      NothingEnabled(z, DropLast(ls));
    }
  }

  /** The overlay string always opens with the OpenAIP entry, and a map with
      every layer empty lists nothing else. */
  lemma OverlaysOpenWithOpenAip(z: LayerSizes)
    ensures |Toggles(z, LayerOrder).0| >= |OpenAipEntry|
    ensures Toggles(z, LayerOrder).0[..|OpenAipEntry|] == OpenAipEntry
    ensures (forall l :: Size(z, l) == 0) ==> Toggles(z, LayerOrder) == (OpenAipEntry, "")
  {
    OverlayTextOpens(Enabled(z, LayerOrder));
    if forall l :: Size(z, l) == 0 {
      NothingEnabled(z, LayerOrder);
    }
  }
}
