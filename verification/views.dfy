/**
 * The flight and route view sets: the tickets_available annotation on the
 * flight queryset and the choice of serializer class per action.
 */
module Views {
  import opened Models
  import opened Serializers

  // ---------------------------------------------------------------------------
  // tickets_available = airplane.rows * airplane.seats_in_row - Count("tickets")

  /** The tickets_available annotation of flight f. */
  function TicketsAvailable(flights: map<FlightId, Flight>, airplanes: map<AirplaneId, Airplane>,
                            tickets: map<TicketId, Ticket>, f: FlightId): (n: int)
    requires f in flights && flights[f].airplane in airplanes
    ensures n <= Capacity(airplanes[flights[f].airplane])
    ensures n == Capacity(airplanes[flights[f].airplane]) <==> FlightTicketIds(tickets, f) == {}
  {
    Capacity(airplanes[flights[f].airplane]) - TicketCount(tickets, f)
  }

  /**
   * Under the (flight, row, seat) constraint, the list view's tickets_available
   * and the detail view's taken_places agree: together they make up the capacity.
   */
  lemma AvailablePlusTakenIsCapacity(flights: map<FlightId, Flight>, airplanes: map<AirplaneId, Airplane>,
                                     tickets: map<TicketId, Ticket>, f: FlightId)
    requires f in flights && flights[f].airplane in airplanes
    requires UniqueSeats(tickets)
    ensures TicketsAvailable(flights, airplanes, tickets, f) + |TakenPlaces(tickets, f)|
         == Capacity(airplanes[flights[f].airplane])
  {
    TakenPlacesCount(tickets, f);
  }

  /**
   * When every ticket of the flight holds a seat of the airplane's grid,
   * tickets_available is the number of seats of the grid no ticket holds.
   */
  lemma AvailableCountsFreeSeats(flights: map<FlightId, Flight>, airplanes: map<AirplaneId, Airplane>,
                                 tickets: map<TicketId, Ticket>, f: FlightId)
    requires f in flights && flights[f].airplane in airplanes
    requires UniqueSeats(tickets)
    requires airplanes[flights[f].airplane].rows >= 0 && airplanes[flights[f].airplane].seatsInRow >= 0
    requires FlightPlaces(tickets, f) <= SeatGrid(airplanes[flights[f].airplane].rows, airplanes[flights[f].airplane].seatsInRow)
    ensures TicketsAvailable(flights, airplanes, tickets, f)
         == |SeatGrid(airplanes[flights[f].airplane].rows, airplanes[flights[f].airplane].seatsInRow) - FlightPlaces(tickets, f)|
  {
    var a := airplanes[flights[f].airplane];
    var grid, taken := SeatGrid(a.rows, a.seatsInRow), FlightPlaces(tickets, f);
    FlightPlacesCount(tickets, f);
    assert grid == (grid - taken) + taken;
    assert (grid - taken) !! taken;
    assert |grid| == |grid - taken| + |taken|;
  }

  /** One stored ticket takes one seat from its own flight and none from any other. */
  lemma AvailableAfterInsert(flights: map<FlightId, Flight>, airplanes: map<AirplaneId, Airplane>,
                             tickets: map<TicketId, Ticket>, id: TicketId, t: Ticket, g: FlightId)
    requires g in flights && flights[g].airplane in airplanes
    requires id !in tickets
    ensures TicketsAvailable(flights, airplanes, tickets[id := t], g)
         == TicketsAvailable(flights, airplanes, tickets, g) - (if t.flight == g then 1 else 0)
  {
    TicketCountAfterInsert(tickets, id, t, g);
  }

  /** A stored order lowers each flight's availability by the number of its requests for that flight. */
  lemma AvailableAfterOrder(flights: map<FlightId, Flight>, airplanes: map<AirplaneId, Airplane>,
                            tickets: map<TicketId, Ticket>, requests: seq<TicketRequest>, order: OrderId, g: FlightId)
    requires g in flights && flights[g].airplane in airplanes
    requires KeysBelow(tickets, order + 1)
    ensures TicketsAvailable(flights, airplanes, BookedTickets(tickets, requests, order), g)
         == TicketsAvailable(flights, airplanes, tickets, g) - RequestsOn(requests, g)
  {
    BatchTicketCount(tickets, requests, order, order + 1, g);
  }

  /** Deleting flight f leaves the availability of every other flight as it was. */
  lemma AvailableAfterDeleteFlight(flights: map<FlightId, Flight>, airplanes: map<AirplaneId, Airplane>,
                                   tickets: map<TicketId, Ticket>, f: FlightId, g: FlightId)
    requires g in flights && flights[g].airplane in airplanes && g != f
    ensures TicketsAvailable(flights - {f}, airplanes, TicketsWithoutFlight(tickets, f), g)
         == TicketsAvailable(flights, airplanes, tickets, g)
  {
    DeleteFlightCounts(tickets, f, g);
  }

  /**
   * The order test fixture: a ten-by-six airplane with one ticket in row 2,
   * seat 5. The flight lists 59 available tickets and its detail shows the
   * single taken place (2, 5).
   */
  lemma OrderFixture(flights: map<FlightId, Flight>, airplanes: map<AirplaneId, Airplane>,
                     tickets: map<TicketId, Ticket>, f: FlightId, id: TicketId)
    requires f in flights && flights[f].airplane in airplanes
    requires airplanes[flights[f].airplane].rows == 10 && airplanes[flights[f].airplane].seatsInRow == 6
    requires id in tickets && tickets[id] == Ticket(2, 5, f, tickets[id].order)
    requires forall k :: k in tickets ==> k == id
    ensures TicketsAvailable(flights, airplanes, tickets, f) == 59
    ensures TakenPlaces(tickets, f) == [Place(2, 5)]
  {
    assert FlightTicketIds(tickets, f) == {id};
    assert UniqueSeats(tickets) by {
      forall i, j ensures SeatsDiffer(tickets, i, j) { }
    }
    TakenPlacesCount(tickets, f);
    var taken := TakenPlaces(tickets, f);
    assert SeatTaken(tickets, f, 2, 5);
    assert Place(2, 5) in taken;
  }

  // ---------------------------------------------------------------------------
  // get_serializer_class

  /** The serializer classes of the flight endpoints and the fields each one renders. */
  datatype FlightSerializerClass = FlightSerializer | FlightListSerializer | FlightDetailSerializer

  function FlightFields(c: FlightSerializerClass): seq<string>
  {
    match c
    case FlightSerializer =>
      ["id", "route", "airplane", "departure_time", "arrival_time", "crews"]
    case FlightListSerializer =>
      ["id", "departure_time", "arrival_time", "route_source", "route_destination",
       "airplane_name", "airplane_capacity", "crews_fullname", "tickets_available"]
    case FlightDetailSerializer =>
      ["id", "route", "airplane", "departure_time", "arrival_time", "crews", "taken_places"]
  }

  /** FlightViewSet.get_serializer_class: "list" and "retrieve" have their own classes. */
  function FlightSerializerFor(action: string): (c: FlightSerializerClass)
    ensures c == FlightListSerializer <==> action == "list"
    ensures c == FlightDetailSerializer <==> action == "retrieve"
    ensures c == FlightSerializer <==> action != "list" && action != "retrieve"
  {
    if action == "list" then FlightListSerializer
    else if action == "retrieve" then FlightDetailSerializer
    else FlightSerializer
  }

  /**
   * Only the list shows tickets_available, only the detail shows
   * taken_places, and every action other than list renders the crews.
   */
  lemma FlightFieldsByAction(action: string)
    ensures "tickets_available" in FlightFields(FlightSerializerFor(action)) <==> action == "list"
    ensures "taken_places" in FlightFields(FlightSerializerFor(action)) <==> action == "retrieve"
    ensures "crews" in FlightFields(FlightSerializerFor(action)) <==> action != "list"
  {
  }

  /** How a route serializer renders the source and destination airports. */
  datatype AirportRendering =
    | PrimaryKey      // the airport's id, writable
    | NameSlug        // SlugRelatedField(slug_field="name"), read-only
    | NestedAirport   // AirportSerializer, read-only

  datatype RouteSerializerClass = RouteSerializer | RouteListSerializer | RouteDetailSerializer

  function RouteEndpoints(c: RouteSerializerClass): AirportRendering
  {
    match c
    case RouteSerializer => PrimaryKey
    case RouteListSerializer => NameSlug
    case RouteDetailSerializer => NestedAirport
  }

  /** RouteViewSet.get_serializer_class: "list" and "retrieve" have their own classes. */
  function RouteSerializerFor(action: string): (c: RouteSerializerClass)
    ensures c == RouteListSerializer <==> action == "list"
    ensures c == RouteDetailSerializer <==> action == "retrieve"
    ensures c == RouteSerializer <==> action != "list" && action != "retrieve"
  {
    if action == "list" then RouteListSerializer
    else if action == "retrieve" then RouteDetailSerializer
    else RouteSerializer
  }

  /**
   * The route list names its airports, the detail nests them, and only the
   * other actions (create) take airport primary keys.
   */
  lemma RouteEndpointsByAction(action: string)
    ensures RouteEndpoints(RouteSerializerFor(action)) == PrimaryKey <==> action != "list" && action != "retrieve"
    ensures RouteEndpoints(RouteSerializerFor(action)) == NameSlug <==> action == "list"
    ensures RouteEndpoints(RouteSerializerFor(action)) == NestedAirport <==> action == "retrieve"
  {
  }
}
