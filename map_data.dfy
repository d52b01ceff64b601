/** The records the map widget reads from the application's repositories.
    Every query result reaches the model as a sequence in the order the query
    returns it. */
module MapData {
  import opened Common

  datatype Location = Location(lat: string, lon: string)

  /** An airport row; hub is the stored hub flag. */
  datatype Airport = Airport(id: string, name: string, hub: bool, loc: Location)

  /** A flight, or a PIREP in the viewer's own map: the stored airport ids
      and the eager-loaded airport models, which are None when the relation
      did not resolve. */
  datatype MapFlight = MapFlight(
    id: string,
    airlineCode: Option<string>,
    flightNumber: string,
    dptAirportId: string,
    arrAirportId: string,
    dptAirport: Option<Airport>,
    arrAirport: Option<Airport>)

  /** An aircraft row; parked and active stand for the PARKED state and the
      ACTIVE status. */
  datatype Aircraft = Aircraft(
    registration: string,
    icao: string,
    airportId: string,
    subfleetId: int,
    parked: bool,
    active: bool)

  datatype Subfleet = Subfleet(id: int, airlineId: int)

  /** The signed-in user with the current and home airport relations. */
  datatype Viewer = Viewer(
    id: int,
    airlineId: int,
    currentAirport: Option<string>,
    homeAirport: Option<string>)

  /** The endpoints of one of the viewer's accepted PIREPs. */
  datatype PirepEnds = PirepEnds(dptAirportId: string, arrAirportId: string)

  function PirepName(p: PirepEnds): string
  {
    p.dptAirportId + p.arrAirportId
  }
}
