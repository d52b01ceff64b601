/** The map widget's city pairs: the loop that turns flights (or the viewer's
    PIREPs) into de-duplicated airport pairs and collects their airports, the
    colour of each pair against the viewer's own accepted PIREPs, and the
    popup text of each pair. */
module MapCityPairs {
  import opened Common
  import opened Php
  import opened MapData
  import opened MapConfig

  /** A city pair as the loop collects it; its name is the two airport ids
      written one after the other. */
  datatype CityPair = CityPair(dpt: string, arr: string, dloc: Location, aloc: Location)
  {
    function Name(): string
    {
      dpt + arr
    }
  }

  function NameOf(p: CityPair): string
  {
    p.Name()
  }

  function IdOf(a: Airport): string
  {
    a.id
  }

  function Names(ps: seq<CityPair>): set<string>
  {
    KeySet(ps, NameOf)
  }

  /** Both airport relations of the record resolved. */
  predicate Resolved(f: MapFlight)
  {
    f.dptAirport.Some? && f.arrAirport.Some?
  }

  function FlightName(f: MapFlight): string
  {
    f.dptAirportId + f.arrAirportId
  }

  function ReverseName(f: MapFlight): string
  {
    f.arrAirportId + f.dptAirportId
  }

  function PairOf(f: MapFlight): CityPair
    requires Resolved(f)
  {
    CityPair(f.dptAirportId, f.arrAirportId, f.dptAirport.value.loc, f.arrAirport.value.loc)
  }

  /** Two pairs whose endpoints are each other's swapped. */
  predicate Reversed(p: CityPair, q: CityPair)
  {
    p.dpt == q.arr && p.arr == q.dpt
  }

  /** A record adds its pair when it resolved and the reversed name is not
      among the names collected so far. */
  predicate Pushes(prev: seq<CityPair>, f: MapFlight)
  {
    Resolved(f) && ReverseName(f) !in Names(prev)
  }

  /** The pairs the loop collects, before de-duplication by name. */
  function RawPairs(fs: seq<MapFlight>): seq<CityPair>
    decreases |fs|
  {
    if fs == [] then []
    else
      var prev := RawPairs(DropLast(fs));
      if Pushes(prev, Last(fs)) then prev + [PairOf(Last(fs))] else prev
  }

  /** The airports the loop collects: both endpoints of every resolved
      record, including records whose pair was not added. */
  function AirportPack(fs: seq<MapFlight>): seq<Airport>
    decreases |fs|
  {
    if fs == [] then []
    else
      var f := Last(fs);
      AirportPack(DropLast(fs)) + if Resolved(f) then [f.dptAirport.value, f.arrAirport.value] else []
  }

  /** The city pairs of the map: the collected pairs, unique by name. */
  function CityPairsOf(fs: seq<MapFlight>): seq<CityPair>
  {
    UniqueBy(RawPairs(fs), NameOf)
  }

  /** The airports of the map: the collected airports, unique by id. */
  function AirportsOf(fs: seq<MapFlight>): seq<Airport>
  {
    UniqueBy(AirportPack(fs), IdOf)
  }

  /** The city-pair loop and the two de-duplications that follow it. */
  method BuildCityPairs(flights: seq<MapFlight>) returns (pairs: seq<CityPair>, airports: seq<Airport>)
    ensures pairs == CityPairsOf(flights) && airports == AirportsOf(flights)
    ensures forall i, j :: 0 <= i < j < |pairs| ==> pairs[i].Name() != pairs[j].Name()
    ensures forall i, j :: 0 <= i < j < |pairs| ==> !Reversed(pairs[i], pairs[j])
    ensures forall p :: p in pairs ==> exists f :: f in flights && Resolved(f) && p == PairOf(f)
    ensures forall f :: f in flights && Resolved(f) ==> FlightName(f) in Names(pairs) || ReverseName(f) in Names(pairs)
    ensures forall i, j :: 0 <= i < j < |airports| ==> airports[i].id != airports[j].id
    ensures forall f :: f in flights && Resolved(f) ==>
      f.dptAirport.value.id in KeySet(airports, IdOf) && f.arrAirport.value.id in KeySet(airports, IdOf)
    ensures forall a :: a in airports ==>
      exists f :: f in flights && Resolved(f) && (a == f.dptAirport.value || a == f.arrAirport.value)
  {
    var raw: seq<CityPair> := [];
    var pack: seq<Airport> := [];
    var i := 0;
    while i < |flights|
      invariant 0 <= i <= |flights|
      invariant raw == RawPairs(flights[..i])
      invariant pack == AirportPack(flights[..i])
    {
      var f := flights[i];
      assert flights[..i + 1] == flights[..i] + [f];
      assert DropLast(flights[..i + 1]) == flights[..i];
      if f.dptAirport.None? || f.arrAirport.None? {
        // the record is skipped: an airport relation did not resolve
        i := i + 1;
        continue;
      }
      pack := pack + [f.dptAirport.value, f.arrAirport.value];
      if ReverseName(f) in Names(raw) {
        // the reverse of this pair is already collected
        i := i + 1;
        continue;
      }
      raw := raw + [PairOf(f)];
      i := i + 1;
    }
    assert flights[..|flights|] == flights;
    pairs := UniqueBy(raw, NameOf);
    airports := UniqueBy(pack, IdOf);
    UniqueByFacts(raw, NameOf);
    UniqueByFacts(pack, IdOf);
    RawPairsFacts(flights);
    AirportPackFacts(flights);
    forall i, j | 0 <= i < j < |pairs| ensures !Reversed(pairs[i], pairs[j]) {
      assert pairs[i] in raw && pairs[j] in raw;
      assert NameOf(pairs[i]) != NameOf(pairs[j]);
    }
    forall i, j | 0 <= i < j < |pairs| ensures pairs[i].Name() != pairs[j].Name() {
      assert NameOf(pairs[i]) != NameOf(pairs[j]);
    }
    forall i, j | 0 <= i < j < |airports| ensures airports[i].id != airports[j].id {
      assert IdOf(airports[i]) != IdOf(airports[j]);
    }
    forall f | f in flights && Resolved(f)
      ensures f.dptAirport.value.id in KeySet(airports, IdOf) && f.arrAirport.value.id in KeySet(airports, IdOf)
    {
      assert IdOf(f.dptAirport.value) in KeySet(pack, IdOf);
      assert IdOf(f.arrAirport.value) in KeySet(pack, IdOf);
    }
  }

  /** What the collected pairs satisfy: two of them are reverses only when
      they are the same self-loop, each comes from a resolved record, and
      every resolved record has its name or its reversed name collected. */
  lemma {:induction false} RawPairsFacts(fs: seq<MapFlight>)
    ensures forall p, q :: p in RawPairs(fs) && q in RawPairs(fs) && Reversed(p, q) ==> p.dpt == p.arr
    ensures forall p :: p in RawPairs(fs) ==> exists f :: f in fs && Resolved(f) && p == PairOf(f)
    ensures forall f :: f in fs && Resolved(f) ==> FlightName(f) in Names(RawPairs(fs)) || ReverseName(f) in Names(RawPairs(fs))
    decreases |fs|
  {
    if fs != [] {
      var init, f := DropLast(fs), Last(fs);
      assert fs == init + [f];
      RawPairsFacts(init);
      var prev := RawPairs(init);
      if Pushes(prev, f) {
        var cur := prev + [PairOf(f)];
        KeySetAppend(prev, PairOf(f), NameOf);
        forall p | p in prev ensures !Reversed(p, PairOf(f)) && !Reversed(PairOf(f), p) {
          assert NameOf(p) in Names(prev);
        }
        assert forall p :: p in cur <==> p in prev || p == PairOf(f);
      }
    }
  }

  /** The collected airports are exactly the endpoints of the resolved
      records. */
  lemma {:induction false} AirportPackFacts(fs: seq<MapFlight>)
    ensures forall a :: a in AirportPack(fs) <==>
      exists f :: f in fs && Resolved(f) && (a == f.dptAirport.value || a == f.arrAirport.value)
    decreases |fs|
  {
    if fs != [] {
      var init, f := DropLast(fs), Last(fs);
      assert fs == init + [f];
      AirportPackFacts(init);
    }
  }

  /** The resolved records of fs, in order. */
  function ResolvedOnly(fs: seq<MapFlight>): (r: seq<MapFlight>)
    ensures forall f :: f in r <==> f in fs && Resolved(f)
    decreases |fs|
  {
    if fs == [] then []
    else
      var init := DropLast(fs);
      assert fs == init + [Last(fs)];
      ResolvedOnly(init) + if Resolved(Last(fs)) then [Last(fs)] else []
  }

  /** A record with an unresolved airport contributes nothing: the loop
      gives the same pairs and airports as on the resolved records alone. */
  lemma {:induction false} UnresolvedContributeNothing(fs: seq<MapFlight>)
    ensures RawPairs(fs) == RawPairs(ResolvedOnly(fs))
    ensures AirportPack(fs) == AirportPack(ResolvedOnly(fs))
    decreases |fs|
  {
    if fs != [] {
      var init, f := DropLast(fs), Last(fs);
      UnresolvedContributeNothing(init);
      assert DropLast(fs) == init && Last(fs) == f;
      if Resolved(f) {
        var r := ResolvedOnly(init) + [f];
        assert ResolvedOnly(fs) == r;
        assert DropLast(r) == ResolvedOnly(init) && Last(r) == f;
      } else {
        assert ResolvedOnly(fs) == ResolvedOnly(init);
      }
    }
  }

  /** Every resolved record has four-character airport ids (ICAO codes);
      the widget splits pair names at offset 4 on this assumption. */
  predicate FourCharIds(fs: seq<MapFlight>)
  {
    forall f :: f in fs && Resolved(f) ==> |f.dptAirportId| == 4 && |f.arrAirportId| == 4
  }

  /** The two records connect the same two airports, in either direction. */
  predicate SameRoute(f: MapFlight, g: MapFlight)
  {
    (f.dptAirportId == g.dptAirportId && f.arrAirportId == g.arrAirportId) ||
    (f.dptAirportId == g.arrAirportId && f.arrAirportId == g.dptAirportId)
  }

  /** fs[i] is the first resolved record between its two airports. */
  predicate FirstOfRoute(fs: seq<MapFlight>, i: nat)
    requires i < |fs|
  {
    Resolved(fs[i]) && forall j :: 0 <= j < i && Resolved(fs[j]) ==> !SameRoute(fs[j], fs[i])
  }

  /** The direction kept for two airports is that of the first resolved
      record between them: its name is a pair of the map and, unless it is
      a self-loop, the reversed name is not. */
  lemma FirstDirectionKept(fs: seq<MapFlight>, i: nat)
    requires FourCharIds(fs)
    requires i < |fs| && FirstOfRoute(fs, i)
    ensures FlightName(fs[i]) in Names(CityPairsOf(fs))
    ensures fs[i].dptAirportId != fs[i].arrAirportId ==> ReverseName(fs[i]) !in Names(CityPairsOf(fs))
  {
    assert fs[..|fs|] == fs;
    FirstDirectionPrefix(fs, i, |fs|);
    UniqueByFacts(RawPairs(fs), NameOf);
  }

  lemma {:induction false} FirstDirectionPrefix(fs: seq<MapFlight>, i: nat, m: nat)
    requires FourCharIds(fs)
    requires i < |fs| && FirstOfRoute(fs, i) && m <= |fs|
    ensures m <= i ==> FlightName(fs[i]) !in Names(RawPairs(fs[..m])) && ReverseName(fs[i]) !in Names(RawPairs(fs[..m]))
    ensures m > i ==> FlightName(fs[i]) in Names(RawPairs(fs[..m]))
    ensures m > i && fs[i].dptAirportId != fs[i].arrAirportId ==> ReverseName(fs[i]) !in Names(RawPairs(fs[..m]))
    decreases m
  {
    var fi := fs[i];
    if m == 0 {
      assert fs[..0] == [];
      return;
    }
    FirstDirectionPrefix(fs, i, m - 1);
    var pre := fs[..m - 1];
    var g := fs[m - 1];
    assert fs[..m] == pre + [g];
    assert DropLast(fs[..m]) == pre && Last(fs[..m]) == g;
    var prev := RawPairs(pre);
    assert g in fs && fi in fs;
    if m - 1 == i {
      ConcatFourChar(fi.arrAirportId, fi.dptAirportId, fi.dptAirportId, fi.arrAirportId);
      assert Pushes(prev, g);
    }
    if Pushes(prev, g) {
      KeySetAppend(prev, PairOf(g), NameOf);
      assert NameOf(PairOf(g)) == FlightName(g);
      if m - 1 < i {
        ConcatFourChar(g.dptAirportId, g.arrAirportId, fi.dptAirportId, fi.arrAirportId);
        ConcatFourChar(g.dptAirportId, g.arrAirportId, fi.arrAirportId, fi.dptAirportId);
        assert !SameRoute(fs[m - 1], fs[i]);
      } else if m - 1 > i {
        ConcatFourChar(g.dptAirportId, g.arrAirportId, fi.arrAirportId, fi.dptAirportId);
      }
    }
  }

  /** Two opposite flights give one city pair, in the direction of the
      flight that comes first: the kept direction depends on the order of
      the records. */
  lemma OppositeFlightsGiveOnePair(f: MapFlight, g: MapFlight)
    requires Resolved(f) && Resolved(g)
    requires g.dptAirportId == f.arrAirportId && g.arrAirportId == f.dptAirportId
    ensures CityPairsOf([f, g]) == [PairOf(f)]
    ensures CityPairsOf([g, f]) == [PairOf(g)]
  {
    FirstKeptSecondDropped(f, g);
    FirstKeptSecondDropped(g, f);
  }

  lemma FirstKeptSecondDropped(f: MapFlight, g: MapFlight)
    requires Resolved(f) && Resolved(g)
    requires g.dptAirportId == f.arrAirportId && g.arrAirportId == f.dptAirportId
    ensures CityPairsOf([f, g]) == [PairOf(f)]
  {
    assert DropLast([f]) == [] && Last([f]) == f;
    assert DropLast([f, g]) == [f] && Last([f, g]) == g;
    assert Names([]) == {};
    assert RawPairs([f]) == [PairOf(f)];
    KeySetAppend([], PairOf(f), NameOf);
    assert [] + [PairOf(f)] == [PairOf(f)];
    assert ReverseName(g) in Names([PairOf(f)]);
    assert RawPairs([f, g]) == [PairOf(f)];
    var single := [PairOf(f)];
    assert DropLast(single) == [] && Last(single) == PairOf(f);
    assert UniqueBy([], NameOf) == [];
    assert KeySet(UniqueBy([], NameOf), NameOf) == {};
    assert UniqueBy(single, NameOf) == [] + single;
  }

  /** The colour of a pair on a flight map. */
  datatype Colour = DarkGreen | LightGreen | Crimson

  /** A pair the viewer has flown as named is dark green, one flown only in
      the other direction light green, anything else (also when no viewer
      pairs were built) crimson. The reverse is cut out of the name at
      offset 4. */
  function PairColour(viewerPairs: Option<seq<string>>, name: string): (c: Colour)
    ensures viewerPairs.None? ==> c == Crimson
    ensures c == DarkGreen <==> viewerPairs.Some? && name in viewerPairs.value
    ensures c == LightGreen <==> (viewerPairs.Some? && name !in viewerPairs.value
      && Substr(name, 4, 4) + Substr(name, 0, 4) in viewerPairs.value)
  {
    if viewerPairs.Some? && name in viewerPairs.value then DarkGreen
    else if viewerPairs.Some? && Substr(name, 4, 4) + Substr(name, 0, 4) in viewerPairs.value then LightGreen
    else Crimson
  }

  /** The names of the viewer's accepted PIREPs, in query order. */
  function PirepNames(accepted: seq<PirepEnds>): seq<string>
    decreases |accepted|
  {
    if accepted == [] then [] else PirepNames(DropLast(accepted)) + [PirepName(Last(accepted))]
  }

  /** The viewer pairs the widget builds: none unless a viewer is signed in
      on a map that colours by viewer, else the PIREP names without
      repeats. */
  function ViewerPairsOf(viewer: Option<Viewer>, t: MapType, accepted: seq<PirepEnds>): Option<seq<string>>
  {
    if viewer.None? || !ColoursByViewer(t) then None else Some(UniqueBy(PirepNames(accepted), Self))
  }

  /** The names of the viewer's accepted PIREPs, unique; built only for a
      signed-in viewer on the maps that colour by viewer. */
  method BuildViewerPairs(viewer: Option<Viewer>, t: MapType, accepted: seq<PirepEnds>)
    returns (names: Option<seq<string>>)
    ensures names == ViewerPairsOf(viewer, t, accepted)
    ensures names.Some? <==> viewer.Some? && ColoursByViewer(t)
    ensures names.Some? ==> forall n :: n in names.value <==> exists p :: p in accepted && PirepName(p) == n
    ensures names.Some? ==> forall i, j :: 0 <= i < j < |names.value| ==> names.value[i] != names.value[j]
  {
    if viewer.None? || !ColoursByViewer(t) {
      return None;
    }
    var all: seq<string> := [];
    var i := 0;
    while i < |accepted|
      invariant 0 <= i <= |accepted|
      invariant all == PirepNames(accepted[..i])
      invariant forall n :: n in all <==> exists p :: p in accepted[..i] && PirepName(p) == n
    {
      assert accepted[..i + 1] == accepted[..i] + [accepted[i]];
      assert DropLast(accepted[..i + 1]) == accepted[..i] && Last(accepted[..i + 1]) == accepted[i];
      all := all + [PirepName(accepted[i])];
      i := i + 1;
    }
    assert accepted[..i] == accepted;
    var unique := UniqueBy(all, Self);
    UniqueByFacts(all, Self);
    forall n ensures n in unique <==> n in all {
      if n in all {
        assert Self(n) in KeySet(all, Self);
      }
    }
    forall i, j | 0 <= i < j < |unique| ensures unique[i] != unique[j] {
      assert Self(unique[i]) != Self(unique[j]);
    }
    names := Some(unique);
  }

  /** With four-character ids, the colour says exactly how the viewer has
      flown the pair: dark green for the same direction, light green for
      only the opposite one. */
  lemma ColourByViewerPireps(accepted: seq<PirepEnds>, names: seq<string>, dpt: string, arr: string)
    requires |dpt| == 4 && |arr| == 4
    requires forall p :: p in accepted ==> |p.dptAirportId| == 4 && |p.arrAirportId| == 4
    requires forall n :: n in names <==> exists p :: p in accepted && PirepName(p) == n
    ensures PairColour(Some(names), dpt + arr) == DarkGreen <==>
      exists p :: p in accepted && p.dptAirportId == dpt && p.arrAirportId == arr
    ensures PairColour(Some(names), dpt + arr) == LightGreen <==>
      (!exists p :: p in accepted && p.dptAirportId == dpt && p.arrAirportId == arr) &&
      (exists p :: p in accepted && p.dptAirportId == arr && p.arrAirportId == dpt)
  {
    SplitFourChar(dpt, arr);
    forall p | p in accepted
      ensures PirepName(p) == dpt + arr <==> p.dptAirportId == dpt && p.arrAirportId == arr
      ensures PirepName(p) == arr + dpt <==> p.dptAirportId == arr && p.arrAirportId == dpt
    {
      ConcatFourChar(p.dptAirportId, p.arrAirportId, dpt, arr);
      ConcatFourChar(p.dptAirportId, p.arrAirportId, arr, dpt);
    }
  }

  /** One link of a detailed popup. */
  datatype PopupLink = PopupLink(
    toPirep: bool,
    recordId: string,
    airlineCode: Option<string>,
    flightNumber: string,
    dptAirportId: string,
    arrAirportId: string)

  /** A pair's popup: bare airport codes, or links to the flights (or
      PIREPs) between the two airports. */
  datatype Popup = Bare(text: string) | Detailed(links: seq<PopupLink>)

  function LinkOf(f: MapFlight, toPirep: bool): PopupLink
  {
    PopupLink(toPirep, f.id, f.airlineCode, f.flightNumber, f.dptAirportId, f.arrAirportId)
  }

  /** Links to the records from dpt to arr, in record order. */
  function Links(fs: seq<MapFlight>, dpt: string, arr: string, toPirep: bool): (r: seq<PopupLink>)
    ensures forall l :: l in r <==>
      exists f :: f in fs && f.dptAirportId == dpt && f.arrAirportId == arr && l == LinkOf(f, toPirep)
    decreases |fs|
  {
    if fs == [] then []
    else
      var init, f := DropLast(fs), Last(fs);
      assert fs == init + [f];
      Links(init, dpt, arr, toPirep) + if f.dptAirportId == dpt && f.arrAirportId == arr then [LinkOf(f, toPirep)] else []
  }

  /** The bare popup: the two halves of the name around " - ". */
  function BareText(name: string): string
  {
    Substr(name, 0, 4) + " - " + Substr(name, 4, 4)
  }

  /** The detailed popup: the records in the pair's direction, then those
      in the opposite direction, both found by splitting the name at 4. */
  method DetailedPopup(fs: seq<MapFlight>, name: string, toPirep: bool) returns (links: seq<PopupLink>)
    ensures links == Links(fs, Substr(name, 0, 4), Substr(name, 4, 4), toPirep) +
                     Links(fs, Substr(name, 4, 4), Substr(name, 0, 4), toPirep)
  {
    var dpt, arr := Substr(name, 0, 4), Substr(name, 4, 4);
    var forward: seq<PopupLink> := [];
    var i := 0;
    while i < |fs|
      invariant 0 <= i <= |fs|
      invariant forward == Links(fs[..i], dpt, arr, toPirep)
    {
      assert fs[..i + 1] == fs[..i] + [fs[i]];
      assert DropLast(fs[..i + 1]) == fs[..i];
      if fs[i].dptAirportId == dpt && fs[i].arrAirportId == arr {
        forward := forward + [LinkOf(fs[i], toPirep)];
      }
      i := i + 1;
    }
    var backward: seq<PopupLink> := [];
    i := 0;
    while i < |fs|
      invariant 0 <= i <= |fs|
      invariant backward == Links(fs[..i], arr, dpt, toPirep)
    {
      assert fs[..i + 1] == fs[..i] + [fs[i]];
      assert DropLast(fs[..i + 1]) == fs[..i];
      if fs[i].dptAirportId == arr && fs[i].arrAirportId == dpt {
        backward := backward + [LinkOf(fs[i], toPirep)];
      }
      i := i + 1;
    }
    assert fs[..|fs|] == fs;
    links := forward + backward;
  }

  /** A city pair as the view receives it. */
  datatype MapCityPair = MapCityPair(name: string, dloc: Location, aloc: Location, colour: Colour, popup: Popup)

  /** The view record of one pair: bare popup exactly when detailed popups
      are false, detailed otherwise (also when they are null). */
  function MapCityPairOf(p: CityPair, fs: seq<MapFlight>, detailed: Option<bool>,
                         viewerPairs: Option<seq<string>>, toPirep: bool): MapCityPair
  {
    var name := p.Name();
    var popup :=
      if detailed == Some(false) then Bare(BareText(name))
      else Detailed(Links(fs, Substr(name, 0, 4), Substr(name, 4, 4), toPirep) +
                    Links(fs, Substr(name, 4, 4), Substr(name, 0, 4), toPirep));
    MapCityPair(name, p.dloc, p.aloc, PairColour(viewerPairs, name), popup)
  }

  /** The loop that turns the city pairs into view records. */
  method BuildMapCityPairs(pairs: seq<CityPair>, fs: seq<MapFlight>, detailed: Option<bool>,
                           viewerPairs: Option<seq<string>>, toPirep: bool)
    returns (out: seq<MapCityPair>)
    ensures |out| == |pairs|
    ensures forall i :: 0 <= i < |pairs| ==> out[i] == MapCityPairOf(pairs[i], fs, detailed, viewerPairs, toPirep)
  {
    out := [];
    var i := 0;
    while i < |pairs|
      invariant 0 <= i <= |pairs|
      invariant |out| == i
      invariant forall k :: 0 <= k < i ==> out[k] == MapCityPairOf(pairs[k], fs, detailed, viewerPairs, toPirep)
    {
      var name := pairs[i].Name();
      var popup;
      if detailed == Some(false) {
        popup := Bare(BareText(name));
      } else {
        var links := DetailedPopup(fs, name, toPirep);
        popup := Detailed(links);
      }
      out := out + [MapCityPair(name, pairs[i].dloc, pairs[i].aloc, PairColour(viewerPairs, name), popup)];
      i := i + 1;
    }
  }

  /** On a flight map with 1000 or more records every pair with
      four-character ids gets the bare "DPT - ARR" popup, whatever the
      popups config says. */
  lemma LargeMapsGetBarePopups(c: WidgetConfig, t: MapType, fs: seq<MapFlight>, p: CityPair,
                               viewerPairs: Option<seq<string>>, toPirep: bool)
    requires IsFlightMode(t) && |fs| >= PopupThreshold
    requires |p.dpt| == 4 && |p.arr| == 4
    ensures MapCityPairOf(p, fs, DetailedPopups(c, t, |fs|), viewerPairs, toPirep).popup == Bare(p.dpt + " - " + p.arr)
  {
    SplitFourChar(p.dpt, p.arr);
  }

  /** With four-character ids and popups not set to false (null, or a
      configured true) the popup is detailed: it links every record between
      the pair's two airports, first those in the pair's direction, and
      nothing else. */
  lemma DetailedPopupContents(p: CityPair, fs: seq<MapFlight>, detailed: Option<bool>, viewerPairs: Option<seq<string>>, toPirep: bool)
    requires |p.dpt| == 4 && |p.arr| == 4
    requires detailed != Some(false)
    ensures var m := MapCityPairOf(p, fs, detailed, viewerPairs, toPirep);
      m.popup.Detailed? &&
      m.popup.links == Links(fs, p.dpt, p.arr, toPirep) + Links(fs, p.arr, p.dpt, toPirep) &&
      forall l :: l in m.popup.links <==>
        exists f :: f in fs && l == LinkOf(f, toPirep) &&
          ((f.dptAirportId == p.dpt && f.arrAirportId == p.arr) || (f.dptAirportId == p.arr && f.arrAirportId == p.dpt))
  {
    SplitFourChar(p.dpt, p.arr);
  }
}
