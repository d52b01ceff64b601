/** The map widget's run: the mode chosen from the source setting decides
    which records are read, the flight maps build their city pairs, the
    airports become hub and airport markers (or, on the scenery map,
    simulator layers), and the overlay toggle lists the layers that got
    entries. The query results are inputs. */
module MapWidget {
  import opened Common
  import opened Php
  import opened MapData
  import opened MapConfig
  import opened MapCityPairs
  import opened MapMarkers

  /** The query results the widget works on, each in query order: the
      flights (the viewer's accepted PIREPs on the viewer's own map) the
      mode's query returned, the endpoints of the viewer's accepted PIREPs,
      the airports table, the viewer's scenery entries, the subfleets of the
      configured airline, the aircraft table and the subfleets the viewer
      may fly. */
  datatype MapInputs = MapInputs(
    flights: seq<MapFlight>,
    viewerPireps: seq<PirepEnds>,
    airports: seq<Airport>,
    sceneries: seq<Scenery>,
    subfleets: seq<Subfleet>,
    aircraft: seq<Aircraft>,
    allowable: set<int>)

  /** What the widget hands to its view. */
  datatype MapView = MapView(
    mode: MapType,
    hubs: seq<Marker>,
    airports: seq<Marker>,
    cityPairs: seq<MapCityPair>,
    fs9: seq<Marker>,
    fsx: seq<Marker>,
    p3d: seq<Marker>,
    xp: seq<Marker>,
    msfs: seq<Marker>,
    other: seq<Marker>,
    overlays: string,
    layers: string)

  function SizesOf(v: MapView): LayerSizes
  {
    LayerSizes(|v.hubs|, |v.airports|, |v.cityPairs|, |v.fs9|, |v.fsx|, |v.p3d|, |v.xp|, |v.msfs|, |v.other|)
  }

  /** The airports the flight-less maps draw, with the aircraft list the
      fleet map adds to their popups. */
  method FlightlessAirports(t: MapType, c: WidgetConfig, s: Settings, db: MapInputs)
    returns (airports: seq<Airport>, aircraft: Option<seq<Aircraft>>)
    requires t == FleetMap || t == AerodromesMap
    ensures t == AerodromesMap ==> airports == db.airports && aircraft.None?
    ensures t == FleetMap ==> (var fleet := FleetAircraft(db.aircraft, FleetSubfleets(db.subfleets, c, s, db.allowable));
      airports == FleetAirports(db.airports, fleet) && aircraft == Some(fleet))
    ensures t == FleetMap ==> aircraft.Some? && forall a :: a in airports <==>
      a in db.airports && exists ac :: ac in aircraft.value && ac.airportId == a.id
    ensures t == FleetMap ==> forall ac :: ac in aircraft.value <==>
      ac in db.aircraft && ac.parked && ac.active && ac.subfleetId in FleetSubfleets(db.subfleets, c, s, db.allowable)
  {
    if t == AerodromesMap {
      return db.airports, None;
    }
    var fleet := FleetAircraft(db.aircraft, FleetSubfleets(db.subfleets, c, s, db.allowable));
    airports := FleetAirports(db.airports, fleet);
    aircraft := Some(fleet);
  }

  /** The six simulator layers of the scenery map. */
  method SceneryLayers(sceneries: seq<Scenery>)
    returns (fs9: seq<Marker>, fsx: seq<Marker>, p3d: seq<Marker>, xp: seq<Marker>, msfs: seq<Marker>, other: seq<Marker>)
    ensures var points := SceneryPoints(sceneries);
      && other == SimMarkers(points, OtherSimsLayer) && fs9 == SimMarkers(points, Fs9Layer)
      && fsx == SimMarkers(points, FsxLayer) && p3d == SimMarkers(points, P3dLayer)
      && xp == SimMarkers(points, XpLayer) && msfs == SimMarkers(points, MsfsLayer)
  {
    var points := BuildSceneryPoints(sceneries);
    other := CollectSimLayer(points, OtherSimsLayer);
    fs9 := CollectSimLayer(points, Fs9Layer);
    fsx := CollectSimLayer(points, FsxLayer);
    p3d := CollectSimLayer(points, P3dLayer);
    xp := CollectSimLayer(points, XpLayer);
    msfs := CollectSimLayer(points, MsfsLayer);
  }

  /** The city pairs of a flight map and the airports they touch. */
  method FlightPairs(t: MapType, c: WidgetConfig, viewer: Option<Viewer>, db: MapInputs)
    returns (airports: seq<Airport>, cityPairs: seq<MapCityPair>)
    requires IsFlightMode(t)
    ensures airports == AirportsOf(db.flights)
    ensures |cityPairs| == |CityPairsOf(db.flights)|
    ensures forall i :: 0 <= i < |cityPairs| ==> cityPairs[i].name == CityPairsOf(db.flights)[i].Name()
    ensures |db.flights| >= PopupThreshold ==> forall p :: p in cityPairs ==> p.popup.Bare?
    ensures forall i :: 0 <= i < |cityPairs| ==> cityPairs[i] == MapCityPairOf(CityPairsOf(db.flights)[i], db.flights,
      DetailedPopups(c, t, |db.flights|), ViewerPairsOf(viewer, t, db.viewerPireps), t == UserMap)
  {
    var detailed := DetailedPopups(c, t, |db.flights|);
    var viewerPairs := BuildViewerPairs(viewer, t, db.viewerPireps);
    var pairs;
    pairs, airports := BuildCityPairs(db.flights);
    cityPairs := BuildMapCityPairs(pairs, db.flights, detailed, viewerPairs, t == UserMap);
  }

  /** The hub and airport markers; their popups list the fleet exactly when
      an aircraft list is given. */
  method AirportMarkers(airports: seq<Airport>, aircraft: Option<seq<Aircraft>>)
    returns (hubs: seq<Marker>, others: seq<Marker>)
    ensures hubs == MarkersOf(airports, true, aircraft) && others == MarkersOf(airports, false, aircraft)
    ensures forall m :: m in hubs || m in others ==> (aircraft.Some? <==> m.fleet != NoFleet)
  {
    hubs, others := BuildAirportLayers(airports, aircraft);
    forall m | m in hubs || m in others
      ensures aircraft.Some? <==> m.fleet != NoFleet
    {
      var a :| a in airports && (m == MarkerOf(a, HubPage, aircraft) || m == MarkerOf(a, AirportPage, aircraft));
      FleetNoteCases(aircraft, a.id);
    }
  }

  /** The whole widget: the view's arrays are those of the chosen mode and
      the overlay toggle lists exactly the arrays that are not empty, in the
      fixed layer order. */
  method Run(c: WidgetConfig, s: Settings, viewer: Option<Viewer>, db: MapInputs) returns (v: MapView)
    ensures v.mode == ModeOf(c.source)
    ensures IsFlightMode(v.mode) ==> (|v.cityPairs| == |CityPairsOf(db.flights)|
      && forall i :: 0 <= i < |v.cityPairs| ==> v.cityPairs[i].name == CityPairsOf(db.flights)[i].Name())
    ensures IsFlightMode(v.mode) && |db.flights| >= PopupThreshold ==> forall p :: p in v.cityPairs ==> p.popup.Bare?
    ensures IsFlightMode(v.mode) ==> forall i :: 0 <= i < |v.cityPairs| ==>
      v.cityPairs[i] == MapCityPairOf(CityPairsOf(db.flights)[i], db.flights, DetailedPopups(c, v.mode, |db.flights|),
        ViewerPairsOf(viewer, v.mode, db.viewerPireps), v.mode == UserMap)
    ensures !IsFlightMode(v.mode) ==> v.cityPairs == []
    ensures v.mode == SceneryMap ==> v.hubs == [] && v.airports == []
    ensures IsFlightMode(v.mode) ==> (var airports := AirportsOf(db.flights);
      v.hubs == MarkersOf(airports, true, None) && v.airports == MarkersOf(airports, false, None))
    ensures v.mode == AerodromesMap ==>
      v.hubs == MarkersOf(db.airports, true, None) && v.airports == MarkersOf(db.airports, false, None)
    ensures v.mode == FleetMap ==> (var fleet := FleetAircraft(db.aircraft, FleetSubfleets(db.subfleets, c, s, db.allowable));
      var airports := FleetAirports(db.airports, fleet);
      v.hubs == MarkersOf(airports, true, Some(fleet)) && v.airports == MarkersOf(airports, false, Some(fleet)))
    ensures v.mode == SceneryMap ==> (var points := SceneryPoints(db.sceneries);
      && v.fs9 == SimMarkers(points, Fs9Layer) && v.fsx == SimMarkers(points, FsxLayer)
      && v.p3d == SimMarkers(points, P3dLayer) && v.xp == SimMarkers(points, XpLayer)
      && v.msfs == SimMarkers(points, MsfsLayer) && v.other == SimMarkers(points, OtherSimsLayer))
    ensures v.mode != SceneryMap ==> v.fs9 == [] && v.fsx == [] && v.p3d == [] && v.xp == [] && v.msfs == [] && v.other == []
    ensures v.mode == FleetMap ==> forall m :: m in v.hubs || m in v.airports ==> m.fleet != NoFleet
    ensures v.mode != FleetMap ==> forall m :: m in v.hubs || m in v.airports ==> m.fleet == NoFleet
    ensures v.overlays == "{" + Toggles(SizesOf(v), LayerOrder).0 + "}"
    ensures v.layers == Toggles(SizesOf(v), LayerOrder).1
    ensures forall l :: l in Enabled(SizesOf(v), LayerOrder) <==> Size(SizesOf(v), l) > 0
  {
    var t := ModeOf(c.source);
    var airports: seq<Airport> := [];
    var aircraft: Option<seq<Aircraft>> := None;
    var cityPairs: seq<MapCityPair> := [];
    if t == FleetMap || t == AerodromesMap {
      airports, aircraft := FlightlessAirports(t, c, s, db);
    } else if t != SceneryMap {
      airports, cityPairs := FlightPairs(t, c, viewer, db);
    }
    var hubs: seq<Marker> := [];
    var others: seq<Marker> := [];
    var fs9, fsx, p3d, xp, msfs, other := [], [], [], [], [], [];
    if t == SceneryMap {
      fs9, fsx, p3d, xp, msfs, other := SceneryLayers(db.sceneries);
    } else {
      hubs, others := AirportMarkers(airports, aircraft);
    }
    var z := LayerSizes(|hubs|, |others|, |cityPairs|, |fs9|, |fsx|, |p3d|, |xp|, |msfs|, |other|);
    var overlays, layers := BuildOverlays(z);
    EnabledLayers(z);
    v := MapView(t, hubs, others, cityPairs, fs9, fsx, p3d, xp, msfs, other, "{" + overlays + "}", layers);
  }
}
