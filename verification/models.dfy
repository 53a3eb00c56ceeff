/**
 * The entities of the airport booking domain and the pure rules over them:
 * airplane capacity, crew full names, the different-airports rule for routes,
 * the (flight, row, seat) uniqueness of tickets, per-flight ticket counts and
 * the (row, seat) ordering of a flight's tickets.
 *
 * Tables are maps from primary key to row value; the class in module Store
 * holds one such map per table.
 */
module Models {

  type AirportId = nat
  type RouteId = nat
  type AirplaneTypeId = nat
  type AirplaneId = nat
  type CrewId = nat
  type FlightId = nat
  type OrderId = nat
  type TicketId = nat
  /** Users come from the external authentication provider; only their id is kept. */
  type UserId = nat

  datatype Airport = Airport(name: string, closestBigCity: string)
  datatype Route = Route(source: AirportId, destination: AirportId, distance: int)
  datatype AirplaneType = AirplaneType(name: string)
  datatype Airplane = Airplane(name: string, rows: int, seatsInRow: int, airplaneType: AirplaneTypeId)
  datatype Crew = Crew(firstName: string, lastName: string)
  /** Departure and arrival times are opaque instants; nothing orders them. */
  datatype Flight = Flight(route: RouteId, airplane: AirplaneId, departureTime: int, arrivalTime: int,
                           crews: set<CrewId>)
  datatype Order = Order(createdAt: int, user: UserId)
  datatype Ticket = Ticket(row: int, seat: int, flight: FlightId, order: OrderId)

  /** A seat position on an airplane, as listed under a flight's taken places. */
  datatype Place = Place(row: int, seat: int)

  datatype Outcome<+E> = Pass | Fail(error: E)

  datatype ModelError = SameAirports

  // ---------------------------------------------------------------------------
  // Airplane capacity

  /**
   * Airplane.capacity. For non-negative dimensions it is the number of
   * distinct seat positions of the airplane.
   */
  function Capacity(a: Airplane): (c: int)
    ensures a.rows >= 0 && a.seatsInRow >= 0 ==> c == |SeatGrid(a.rows, a.seatsInRow)|
  {
    if a.rows >= 0 && a.seatsInRow >= 0 then
      GridSize(a.rows, a.seatsInRow);
      a.rows * a.seatsInRow
    else
      a.rows * a.seatsInRow
  }

  /** Every seat position of an airplane: rows 1..rows, seats 1..seatsInRow. */
  function SeatGrid(rows: int, seatsInRow: int): set<Place>
  {
    set r, s | 1 <= r <= rows && 1 <= s <= seatsInRow :: Place(r, s)
  }

  function RowPlaces(r: int, seatsInRow: int): set<Place>
  {
    set s | 1 <= s <= seatsInRow :: Place(r, s)
  }

  lemma {:induction false} RowPlacesSize(r: int, seatsInRow: nat)
    ensures |RowPlaces(r, seatsInRow)| == seatsInRow
  {
    if seatsInRow > 0 {
      RowPlacesSize(r, seatsInRow - 1);
      assert RowPlaces(r, seatsInRow) == RowPlaces(r, seatsInRow - 1) + {Place(r, seatsInRow)};
    } else {
      assert RowPlaces(r, seatsInRow) == {};
    }
  }

  lemma {:induction false} GridSize(rows: nat, seatsInRow: nat)
    ensures |SeatGrid(rows, seatsInRow)| == rows * seatsInRow
  {
    if rows == 0 {
      assert SeatGrid(rows, seatsInRow) == {};
    } else {
      GridSize(rows - 1, seatsInRow);
      RowPlacesSize(rows, seatsInRow);
      GridSplit(rows, seatsInRow);
      assert rows * seatsInRow == (rows - 1) * seatsInRow + seatsInRow;
    }
  }

  /** The grid of a non-empty airplane is its last row plus the grid before it. */
  lemma GridSplit(rows: nat, seatsInRow: nat)
    requires rows > 0
    ensures |SeatGrid(rows, seatsInRow)| == |SeatGrid(rows - 1, seatsInRow)| + |RowPlaces(rows, seatsInRow)|
  {
    var before, row := SeatGrid(rows - 1, seatsInRow), RowPlaces(rows, seatsInRow);
    forall p: Place | p in SeatGrid(rows, seatsInRow) ensures p in before + row {
      if p.row < rows { assert p in before; } else { assert p in row; }
    }
    assert SeatGrid(rows, seatsInRow) == before + row;
    forall p: Place | p in row ensures p !in before { }
    assert |before + row| == |before| + |row|;
  }

  /** The airplane used throughout the order tests: ten rows of six seats. */
  lemma TenBySixAirplane(a: Airplane)
    requires a.rows == 10 && a.seatsInRow == 6
    ensures Capacity(a) == 60
    ensures |SeatGrid(a.rows, a.seatsInRow)| == 60
  {
  }

  // ---------------------------------------------------------------------------
  // Crew names

  /** Crew.full_name: the first name, one space, the last name. */
  function FullName(c: Crew): (r: string)
    ensures |r| == |c.firstName| + 1 + |c.lastName|
    ensures r[..|c.firstName|] == c.firstName && r[|c.firstName|] == ' ' && r[|c.firstName| + 1..] == c.lastName
  {
    c.firstName + " " + c.lastName
  }

  /**
   * As long as first names contain no space, the full name determines both
   * parts: the first name is everything before the first space.
   */
  lemma FullNameDeterminesCrew(c: Crew, d: Crew)
    requires ' ' !in c.firstName && ' ' !in d.firstName
    requires FullName(c) == FullName(d)
    ensures c == d
  {
  }

  // ---------------------------------------------------------------------------
  // Routes

  /** The validator run by Route.clean: source and destination must differ. */
  function DifferentAirports(r: Route): (o: Outcome<ModelError>)
    ensures o.Pass? <==> r.source != r.destination
    ensures o.Fail? ==> o.error == SameAirports
  {
    if r.source == r.destination then Fail(SameAirports) else Pass
  }

  // ---------------------------------------------------------------------------
  // Tickets: the (flight, row, seat) constraint

  function PlaceOf(t: Ticket): Place
  {
    Place(t.row, t.seat)
  }

  /** Some stored ticket already holds this seat on this flight. */
  predicate SeatTaken(tickets: map<TicketId, Ticket>, f: FlightId, row: int, seat: int)
  {
    exists id | id in tickets :: tickets[id].flight == f && tickets[id].row == row && tickets[id].seat == seat
  }

  /** Tickets i and j, if both stored and distinct, hold different seats or are on different flights. */
  ghost predicate SeatsDiffer(tickets: map<TicketId, Ticket>, i: TicketId, j: TicketId)
  {
    i in tickets && j in tickets && i != j ==>
      tickets[i].flight != tickets[j].flight || PlaceOf(tickets[i]) != PlaceOf(tickets[j])
  }

  /**
   * unique_together = ("flight", "row", "seat"). The quantifier is instantiated
   * only where a proof names a pair through SeatsDiffer.
   */
  ghost predicate UniqueSeats(tickets: map<TicketId, Ticket>)
  {
    forall i, j {:trigger SeatsDiffer(tickets, i, j)} :: SeatsDiffer(tickets, i, j)
  }

  /**
   * Adding one ticket to a table that satisfies the constraint keeps it
   * satisfied exactly when the new ticket's seat is free.
   */
  lemma InsertKeepsUniqueSeats(tickets: map<TicketId, Ticket>, id: TicketId, t: Ticket)
    requires UniqueSeats(tickets) && id !in tickets
    ensures UniqueSeats(tickets[id := t]) <==> !SeatTaken(tickets, t.flight, t.row, t.seat)
  {
    var u := tickets[id := t];
    if SeatTaken(tickets, t.flight, t.row, t.seat) {
      var k :| k in tickets && tickets[k].flight == t.flight && tickets[k].row == t.row && tickets[k].seat == t.seat;
      assert k in u && id in u && k != id && u[k].flight == u[id].flight && PlaceOf(u[k]) == PlaceOf(u[id]);
      assert !SeatsDiffer(u, k, id);
    } else {
      forall i, j ensures SeatsDiffer(u, i, j) {
        assert SeatsDiffer(tickets, i, j);
      }
    }
  }

  // ---------------------------------------------------------------------------
  // A flight's tickets

  function FlightTicketIds(tickets: map<TicketId, Ticket>, f: FlightId): set<TicketId>
  {
    set id | id in tickets && tickets[id].flight == f
  }

  /** Count("tickets") for one flight. */
  function TicketCount(tickets: map<TicketId, Ticket>, f: FlightId): (n: nat)
    ensures n == 0 <==> forall id :: id in tickets ==> tickets[id].flight != f
  {
    var ids := FlightTicketIds(tickets, f);
    assert forall id :: id in tickets && tickets[id].flight == f ==> id in ids;
    |ids|
  }

  function PlacesOf(tickets: map<TicketId, Ticket>, ids: set<TicketId>): set<Place>
  {
    set id | id in ids && id in tickets :: PlaceOf(tickets[id])
  }

  /** The (row, seat) pairs of a flight's tickets. */
  function FlightPlaces(tickets: map<TicketId, Ticket>, f: FlightId): (r: set<Place>)
    ensures forall p: Place :: p in r <==> SeatTaken(tickets, f, p.row, p.seat)
  {
    var r := PlacesOf(tickets, FlightTicketIds(tickets, f));
    assert forall p: Place :: SeatTaken(tickets, f, p.row, p.seat) ==> p in r by {
      forall p: Place | SeatTaken(tickets, f, p.row, p.seat) ensures p in r {
        var k :| k in tickets && tickets[k].flight == f && tickets[k].row == p.row && tickets[k].seat == p.seat;
        assert k in FlightTicketIds(tickets, f) && PlaceOf(tickets[k]) == p;
      }
    }
    r
  }

  lemma {:induction false} PlacesOfSize(tickets: map<TicketId, Ticket>, f: FlightId, ids: set<TicketId>)
    requires UniqueSeats(tickets)
    requires forall id :: id in ids ==> id in tickets && tickets[id].flight == f
    ensures |PlacesOf(tickets, ids)| == |ids|
    decreases ids
  {
    if ids != {} {
      var id :| id in ids;
      var rest := ids - {id};
      PlacesOfSize(tickets, f, rest);
      assert PlacesOf(tickets, ids) == PlacesOf(tickets, rest) + {PlaceOf(tickets[id])};
      forall k | k in rest && k in tickets ensures PlaceOf(tickets[k]) != PlaceOf(tickets[id]) {
        assert k != id && tickets[k].flight == tickets[id].flight;
        assert SeatsDiffer(tickets, k, id);
      }
      assert PlaceOf(tickets[id]) !in PlacesOf(tickets, rest);
    } else {
      assert PlacesOf(tickets, ids) == {};
    }
  }

  /**
   * Under the uniqueness constraint every ticket of a flight holds its own
   * seat, so the flight has as many taken places as tickets.
   */
  lemma FlightPlacesCount(tickets: map<TicketId, Ticket>, f: FlightId)
    requires UniqueSeats(tickets)
    ensures |FlightPlaces(tickets, f)| == TicketCount(tickets, f)
  {
    PlacesOfSize(tickets, f, FlightTicketIds(tickets, f));
  }

  /** One more ticket on flight f adds one to f's count and nothing to any other flight's. */
  lemma TicketCountAfterInsert(tickets: map<TicketId, Ticket>, id: TicketId, t: Ticket, g: FlightId)
    requires id !in tickets
    ensures TicketCount(tickets[id := t], g) == TicketCount(tickets, g) + (if t.flight == g then 1 else 0)
  {
    if t.flight == g {
      assert FlightTicketIds(tickets[id := t], g) == FlightTicketIds(tickets, g) + {id};
    } else {
      assert FlightTicketIds(tickets[id := t], g) == FlightTicketIds(tickets, g);
    }
  }

  // ---------------------------------------------------------------------------
  // Ordering of a flight's tickets: ordering = ["row", "seat"]

  predicate PlaceBefore(p: Place, q: Place)
  {
    p.row < q.row || (p.row == q.row && p.seat < q.seat)
  }

  ghost predicate IsLeast(m: Place, s: set<Place>)
  {
    forall q :: q in s ==> q == m || PlaceBefore(m, q)
  }

  lemma {:induction false} LeastExists(s: set<Place>)
    requires s != {}
    ensures exists m :: m in s && IsLeast(m, s)
    decreases s
  {
    var x :| x in s;
    if s == {x} {
      assert IsLeast(x, s);
    } else {
      LeastExists(s - {x});
      var m :| m in s - {x} && IsLeast(m, s - {x});
      if PlaceBefore(x, m) {
        forall q | q in s ensures q == x || PlaceBefore(x, q) {
          if q != x {
            assert q in s - {x};
          }
        }
      } else {
        assert IsLeast(m, s);
      }
    }
  }

  /** A set of places listed in ascending (row, seat) order. */
  ghost function SortedPlaces(s: set<Place>): (r: seq<Place>)
    ensures |r| == |s|
    ensures forall p :: p in r <==> p in s
    ensures forall i, j :: 0 <= i < j < |r| ==> PlaceBefore(r[i], r[j])
    decreases s
  {
    if s == {} then []
    else
      LeastExists(s);
      var m :| m in s && IsLeast(m, s);
      [m] + SortedPlaces(s - {m})
  }

  /**
   * FlightDetailSerializer.taken_places: the places held by the flight's
   * tickets, in strictly ascending (row, seat) order.
   */
  ghost function TakenPlaces(tickets: map<TicketId, Ticket>, f: FlightId): (r: seq<Place>)
    ensures forall p: Place :: p in r <==> SeatTaken(tickets, f, p.row, p.seat)
    ensures forall i, j :: 0 <= i < j < |r| ==> PlaceBefore(r[i], r[j])
  {
    SortedPlaces(FlightPlaces(tickets, f))
  }

  /** Under the (flight, row, seat) constraint taken_places has one entry per ticket of the flight. */
  lemma TakenPlacesCount(tickets: map<TicketId, Ticket>, f: FlightId)
    requires UniqueSeats(tickets)
    ensures |TakenPlaces(tickets, f)| == TicketCount(tickets, f)
  {
    FlightPlacesCount(tickets, f);
  }

  // ---------------------------------------------------------------------------
  // Referential integrity of the tables

  ghost predicate KeysBelow<V>(m: map<nat, V>, n: nat)
  {
    forall k :: k in m ==> k < n
  }

  ghost predicate AirportNamesDiffer(airports: map<AirportId, Airport>, i: AirportId, j: AirportId)
  {
    i in airports && j in airports && i != j ==> airports[i].name != airports[j].name
  }

  /** Airport.name is unique=True; instantiated only for pairs a proof names. */
  ghost predicate UniqueAirportNames(airports: map<AirportId, Airport>)
  {
    forall i, j {:trigger AirportNamesDiffer(airports, i, j)} :: AirportNamesDiffer(airports, i, j)
  }

  ghost predicate TypeNamesDiffer(types: map<AirplaneTypeId, AirplaneType>, i: AirplaneTypeId, j: AirplaneTypeId)
  {
    i in types && j in types && i != j ==> types[i].name != types[j].name
  }

  /** AirplaneType.name is unique=True; instantiated only for pairs a proof names. */
  ghost predicate UniqueTypeNames(types: map<AirplaneTypeId, AirplaneType>)
  {
    forall i, j {:trigger TypeNamesDiffer(types, i, j)} :: TypeNamesDiffer(types, i, j)
  }

  predicate AirportNameTaken(airports: map<AirportId, Airport>, name: string)
  {
    exists id | id in airports :: airports[id].name == name
  }

  predicate TypeNameTaken(types: map<AirplaneTypeId, AirplaneType>, name: string)
  {
    exists id | id in types :: types[id].name == name
  }

  /** A new airport keeps the names unique exactly when its name is not taken. */
  lemma InsertKeepsAirportNames(airports: map<AirportId, Airport>, id: AirportId, a: Airport)
    requires UniqueAirportNames(airports) && id !in airports
    ensures UniqueAirportNames(airports[id := a]) <==> !AirportNameTaken(airports, a.name)
  {
    var u := airports[id := a];
    if AirportNameTaken(airports, a.name) {
      var k :| k in airports && airports[k].name == a.name;
      assert !AirportNamesDiffer(u, k, id);
    } else {
      forall i, j ensures AirportNamesDiffer(u, i, j) {
        assert AirportNamesDiffer(airports, i, j);
      }
    }
  }

  /** A new airplane type keeps the names unique exactly when its name is not taken. */
  lemma InsertKeepsTypeNames(types: map<AirplaneTypeId, AirplaneType>, id: AirplaneTypeId, t: AirplaneType)
    requires UniqueTypeNames(types) && id !in types
    ensures UniqueTypeNames(types[id := t]) <==> !TypeNameTaken(types, t.name)
  {
    var u := types[id := t];
    if TypeNameTaken(types, t.name) {
      var k :| k in types && types[k].name == t.name;
      assert !TypeNamesDiffer(u, k, id);
    } else {
      forall i, j ensures TypeNamesDiffer(u, i, j) {
        assert TypeNamesDiffer(types, i, j);
      }
    }
  }

  /** Every route joins two distinct stored airports. */
  ghost predicate RoutesValid(routes: map<RouteId, Route>, airports: map<AirportId, Airport>)
  {
    forall id :: id in routes ==>
      routes[id].source in airports && routes[id].destination in airports &&
      routes[id].source != routes[id].destination
  }

  ghost predicate AirplanesValid(airplanes: map<AirplaneId, Airplane>, types: map<AirplaneTypeId, AirplaneType>)
  {
    forall id :: id in airplanes ==> airplanes[id].airplaneType in types
  }

  ghost predicate FlightsValid(flights: map<FlightId, Flight>, routes: map<RouteId, Route>,
                               airplanes: map<AirplaneId, Airplane>, crews: map<CrewId, Crew>)
  {
    forall id :: id in flights ==>
      flights[id].route in routes && flights[id].airplane in airplanes && flights[id].crews <= crews.Keys
  }

  ghost predicate TicketsValid(tickets: map<TicketId, Ticket>, flights: map<FlightId, Flight>,
                               orders: map<OrderId, Order>)
  {
    forall id :: id in tickets ==> tickets[id].flight in flights && tickets[id].order in orders
  }

  /** The constraints the schema enforces on every committed state of the tables. */
  ghost predicate Consistent(airports: map<AirportId, Airport>, routes: map<RouteId, Route>,
                             airplaneTypes: map<AirplaneTypeId, AirplaneType>, airplanes: map<AirplaneId, Airplane>,
                             crews: map<CrewId, Crew>, flights: map<FlightId, Flight>,
                             orders: map<OrderId, Order>, tickets: map<TicketId, Ticket>, nextId: nat)
  {
    && UniqueAirportNames(airports)
    && UniqueTypeNames(airplaneTypes)
    && RoutesValid(routes, airports)
    && AirplanesValid(airplanes, airplaneTypes)
    && FlightsValid(flights, routes, airplanes, crews)
    && TicketsValid(tickets, flights, orders)
    && UniqueSeats(tickets)
    && KeysBelow(airports, nextId) && KeysBelow(routes, nextId)
    && KeysBelow(airplaneTypes, nextId) && KeysBelow(airplanes, nextId)
    && KeysBelow(crews, nextId) && KeysBelow(flights, nextId)
    && KeysBelow(orders, nextId) && KeysBelow(tickets, nextId)
  }

  // ---------------------------------------------------------------------------
  // Cascading deletion (on_delete=CASCADE)

  /** The tickets left after flight f is deleted. */
  function TicketsWithoutFlight(tickets: map<TicketId, Ticket>, f: FlightId): (r: map<TicketId, Ticket>)
  {
    map id | id in tickets && tickets[id].flight != f :: tickets[id]
  }

  /** The tickets left after order o is deleted. */
  function TicketsWithoutOrder(tickets: map<TicketId, Ticket>, o: OrderId): (r: map<TicketId, Ticket>)
  {
    map id | id in tickets && tickets[id].order != o :: tickets[id]
  }

  /** The routes left after airport a is deleted. */
  function RoutesWithoutAirport(routes: map<RouteId, Route>, a: AirportId): (r: map<RouteId, Route>)
  {
    map id | id in routes && routes[id].source != a && routes[id].destination != a :: routes[id]
  }

  /** The flights left once their route may have been deleted. */
  function FlightsOnRoutes(flights: map<FlightId, Flight>, routes: map<RouteId, Route>): (r: map<FlightId, Flight>)
  {
    map id | id in flights && flights[id].route in routes :: flights[id]
  }

  /** The flights left after airplane a is deleted. */
  function FlightsWithoutAirplane(flights: map<FlightId, Flight>, a: AirplaneId): (r: map<FlightId, Flight>)
  {
    map id | id in flights && flights[id].airplane != a :: flights[id]
  }

  /** The orders left after user u is deleted. */
  function OrdersWithoutUser(orders: map<OrderId, Order>, u: UserId): (r: map<OrderId, Order>)
  {
    map id | id in orders && orders[id].user != u :: orders[id]
  }

  /** The tickets left once their order may have been deleted. */
  function TicketsOfOrders(tickets: map<TicketId, Ticket>, orders: map<OrderId, Order>): (r: map<TicketId, Ticket>)
  {
    map id | id in tickets && tickets[id].order in orders :: tickets[id]
  }

  /** The tickets left once their flight may have been deleted. */
  function TicketsOnFlights(tickets: map<TicketId, Ticket>, flights: map<FlightId, Flight>): (r: map<TicketId, Ticket>)
  {
    map id | id in tickets && tickets[id].flight in flights :: tickets[id]
  }

  /** Removing tickets never breaks the uniqueness constraint. */
  lemma SubTableKeepsUniqueSeats(tickets: map<TicketId, Ticket>, sub: map<TicketId, Ticket>)
    requires UniqueSeats(tickets)
    requires forall id :: id in sub ==> id in tickets && sub[id] == tickets[id]
    ensures UniqueSeats(sub)
  {
    forall i, j ensures SeatsDiffer(sub, i, j) {
      assert SeatsDiffer(tickets, i, j);
    }
  }

  /** A new ticket whose flight and order exist and whose seat is free keeps the ticket table consistent. */
  lemma InsertTicketKeepsIntegrity(tickets: map<TicketId, Ticket>, flights: map<FlightId, Flight>,
                                   orders: map<OrderId, Order>, n: nat, t: Ticket)
    requires TicketsValid(tickets, flights, orders) && UniqueSeats(tickets) && KeysBelow(tickets, n)
    requires t.flight in flights && t.order in orders && !SeatTaken(tickets, t.flight, t.row, t.seat)
    ensures TicketsValid(tickets[n := t], flights, orders)
    ensures UniqueSeats(tickets[n := t])
    ensures KeysBelow(tickets[n := t], n + 1)
  {
    InsertKeepsUniqueSeats(tickets, n, t);
  }

  lemma DeleteFlightKeepsIntegrity(tickets: map<TicketId, Ticket>, flights: map<FlightId, Flight>,
                                   orders: map<OrderId, Order>, n: nat, f: FlightId)
    requires TicketsValid(tickets, flights, orders) && UniqueSeats(tickets) && KeysBelow(tickets, n)
    ensures TicketsValid(TicketsWithoutFlight(tickets, f), flights - {f}, orders)
    ensures UniqueSeats(TicketsWithoutFlight(tickets, f))
    ensures KeysBelow(TicketsWithoutFlight(tickets, f), n)
  {
    SubTableKeepsUniqueSeats(tickets, TicketsWithoutFlight(tickets, f));
  }

  lemma DeleteOrderKeepsIntegrity(tickets: map<TicketId, Ticket>, flights: map<FlightId, Flight>,
                                  orders: map<OrderId, Order>, n: nat, o: OrderId)
    requires TicketsValid(tickets, flights, orders) && UniqueSeats(tickets) && KeysBelow(tickets, n)
    ensures TicketsValid(TicketsWithoutOrder(tickets, o), flights, orders - {o})
    ensures UniqueSeats(TicketsWithoutOrder(tickets, o))
    ensures KeysBelow(TicketsWithoutOrder(tickets, o), n)
  {
    SubTableKeepsUniqueSeats(tickets, TicketsWithoutOrder(tickets, o));
  }

  /** The three-step cascade from one airport keeps every foreign key pointing at a stored row. */
  lemma DeleteAirportKeepsIntegrity(airports: map<AirportId, Airport>, routes: map<RouteId, Route>,
                                    airplanes: map<AirplaneId, Airplane>, crews: map<CrewId, Crew>,
                                    flights: map<FlightId, Flight>, tickets: map<TicketId, Ticket>,
                                    orders: map<OrderId, Order>, n: nat, a: AirportId)
    requires UniqueAirportNames(airports) && KeysBelow(airports, n)
    requires RoutesValid(routes, airports) && FlightsValid(flights, routes, airplanes, crews)
    requires TicketsValid(tickets, flights, orders) && UniqueSeats(tickets)
    requires KeysBelow(routes, n) && KeysBelow(flights, n) && KeysBelow(tickets, n)
    ensures UniqueAirportNames(airports - {a}) && KeysBelow(airports - {a}, n)
    ensures var rs := RoutesWithoutAirport(routes, a);
            var fs := FlightsOnRoutes(flights, rs);
            var ts := TicketsOnFlights(tickets, fs);
            && RoutesValid(rs, airports - {a}) && FlightsValid(fs, rs, airplanes, crews)
            && TicketsValid(ts, fs, orders) && UniqueSeats(ts)
            && KeysBelow(rs, n) && KeysBelow(fs, n) && KeysBelow(ts, n)
  {
    forall i, j ensures AirportNamesDiffer(airports - {a}, i, j) {
      assert AirportNamesDiffer(airports, i, j);
    }
    SubTableKeepsUniqueSeats(tickets, TicketsOnFlights(tickets, FlightsOnRoutes(flights, RoutesWithoutAirport(routes, a))));
  }

  /** Deleting a route, its flights and their tickets keeps every foreign key pointing at a stored row. */
  lemma DeleteRouteKeepsIntegrity(routes: map<RouteId, Route>, airports: map<AirportId, Airport>,
                                  airplanes: map<AirplaneId, Airplane>, crews: map<CrewId, Crew>,
                                  flights: map<FlightId, Flight>, tickets: map<TicketId, Ticket>,
                                  orders: map<OrderId, Order>, n: nat, r: RouteId)
    requires RoutesValid(routes, airports) && FlightsValid(flights, routes, airplanes, crews)
    requires TicketsValid(tickets, flights, orders) && UniqueSeats(tickets)
    requires KeysBelow(routes, n) && KeysBelow(flights, n) && KeysBelow(tickets, n)
    ensures var fs := FlightsOnRoutes(flights, routes - {r});
            var ts := TicketsOnFlights(tickets, fs);
            && RoutesValid(routes - {r}, airports) && FlightsValid(fs, routes - {r}, airplanes, crews)
            && TicketsValid(ts, fs, orders) && UniqueSeats(ts)
            && KeysBelow(routes - {r}, n) && KeysBelow(fs, n) && KeysBelow(ts, n)
  {
    SubTableKeepsUniqueSeats(tickets, TicketsOnFlights(tickets, FlightsOnRoutes(flights, routes - {r})));
  }

  /** Deleting an airplane, its flights and their tickets keeps every foreign key pointing at a stored row. */
  lemma DeleteAirplaneKeepsIntegrity(routes: map<RouteId, Route>, airplanes: map<AirplaneId, Airplane>,
                                     types: map<AirplaneTypeId, AirplaneType>, crews: map<CrewId, Crew>,
                                     flights: map<FlightId, Flight>, tickets: map<TicketId, Ticket>,
                                     orders: map<OrderId, Order>, n: nat, a: AirplaneId)
    requires AirplanesValid(airplanes, types) && FlightsValid(flights, routes, airplanes, crews)
    requires TicketsValid(tickets, flights, orders) && UniqueSeats(tickets)
    requires KeysBelow(airplanes, n) && KeysBelow(flights, n) && KeysBelow(tickets, n)
    ensures var fs := FlightsWithoutAirplane(flights, a);
            var ts := TicketsOnFlights(tickets, fs);
            && AirplanesValid(airplanes - {a}, types) && FlightsValid(fs, routes, airplanes - {a}, crews)
            && TicketsValid(ts, fs, orders) && UniqueSeats(ts)
            && KeysBelow(airplanes - {a}, n) && KeysBelow(fs, n) && KeysBelow(ts, n)
  {
    SubTableKeepsUniqueSeats(tickets, TicketsOnFlights(tickets, FlightsWithoutAirplane(flights, a)));
  }

  /** Deleting a user, their orders and those orders' tickets keeps every foreign key pointing at a stored row. */
  lemma DeleteUserKeepsIntegrity(tickets: map<TicketId, Ticket>, flights: map<FlightId, Flight>,
                                 orders: map<OrderId, Order>, n: nat, u: UserId)
    requires TicketsValid(tickets, flights, orders) && UniqueSeats(tickets)
    requires KeysBelow(orders, n) && KeysBelow(tickets, n)
    ensures var os := OrdersWithoutUser(orders, u);
            var ts := TicketsOfOrders(tickets, os);
            && TicketsValid(ts, flights, os) && UniqueSeats(ts)
            && KeysBelow(os, n) && KeysBelow(ts, n)
  {
    SubTableKeepsUniqueSeats(tickets, TicketsOfOrders(tickets, OrdersWithoutUser(orders, u)));
  }

  /**
   * Deleting flight f leaves no ticket on f and leaves every other flight's
   * tickets exactly as they were.
   */
  lemma DeleteFlightCounts(tickets: map<TicketId, Ticket>, f: FlightId, g: FlightId)
    ensures TicketCount(TicketsWithoutFlight(tickets, f), f) == 0
    ensures g != f ==> FlightTicketIds(TicketsWithoutFlight(tickets, f), g) == FlightTicketIds(tickets, g)
    ensures g != f ==> TicketCount(TicketsWithoutFlight(tickets, f), g) == TicketCount(tickets, g)
  {
  }

  /**
   * Deleting order o removes exactly the tickets of o: a seat stays taken
   * precisely when a ticket of another order holds it.
   */
  lemma DeleteOrderReleasesSeats(tickets: map<TicketId, Ticket>, o: OrderId, f: FlightId, row: int, seat: int)
    requires UniqueSeats(tickets)
    ensures SeatTaken(TicketsWithoutOrder(tickets, o), f, row, seat) <==>
      (SeatTaken(tickets, f, row, seat) &&
       forall id :: id in tickets && tickets[id].flight == f && PlaceOf(tickets[id]) == Place(row, seat) ==>
         tickets[id].order != o)
  {
    var rest := TicketsWithoutOrder(tickets, o);
    if SeatTaken(rest, f, row, seat) {
      var k :| k in rest && rest[k].flight == f && rest[k].row == row && rest[k].seat == seat;
      assert k in tickets && tickets[k] == rest[k];
      forall id | id in tickets && tickets[id].flight == f && PlaceOf(tickets[id]) == Place(row, seat)
        ensures tickets[id].order != o
      {
        assert SeatsDiffer(tickets, id, k);
      }
    } else if SeatTaken(tickets, f, row, seat) {
      var k :| k in tickets && tickets[k].flight == f && tickets[k].row == row && tickets[k].seat == seat;
      assert k !in rest;
      assert tickets[k].order == o;
    }
  }
}
