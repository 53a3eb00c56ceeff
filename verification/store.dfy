/**
 * The relational store behind the models: one table per model, the unique
 * constraints on airport names, airplane type names and ticket seats, the
 * foreign keys, Route.save and the on_delete=CASCADE chains.
 *
 * Every row gets its primary key from one counter, nextId, that only grows.
 */
module Store {
  import opened Models

  datatype StoreError =
    | NameNotUnique          // unique=True on a name column
    | MissingReference       // a foreign key names no stored row
    | SeatNotUnique          // unique_together = ("flight", "row", "seat")
    | Invalid(e: ModelError) // a model validator refused the row

  datatype Result<+T, +E> = Success(value: T) | Failure(error: E)

  class Database {
    var airports: map<AirportId, Airport>
    var routes: map<RouteId, Route>
    var airplaneTypes: map<AirplaneTypeId, AirplaneType>
    var airplanes: map<AirplaneId, Airplane>
    var crews: map<CrewId, Crew>
    var flights: map<FlightId, Flight>
    var orders: map<OrderId, Order>
    var tickets: map<TicketId, Ticket>
    var nextId: nat

    /** The constraints the schema enforces on every committed state. */
    ghost predicate Valid()
      reads this
    {
      Consistent(airports, routes, airplaneTypes, airplanes, crews, flights, orders, tickets, nextId)
    }

    /** Valid() spelled out for the unique=True name columns of airports and airplane types. */
    lemma UniqueNames()
      requires Valid()
      ensures forall i, j :: i in airports && j in airports && i != j ==> airports[i].name != airports[j].name
      ensures forall i, j :: i in airplaneTypes && j in airplaneTypes && i != j ==>
        airplaneTypes[i].name != airplaneTypes[j].name
    {
      forall i, j | i in airports && j in airports && i != j ensures airports[i].name != airports[j].name {
        assert AirportNamesDiffer(airports, i, j);
      }
      forall i, j | i in airplaneTypes && j in airplaneTypes && i != j
        ensures airplaneTypes[i].name != airplaneTypes[j].name
      {
        assert TypeNamesDiffer(airplaneTypes, i, j);
      }
    }

    /**
     * Valid() spelled out for the foreign keys: every reference names a stored
     * row, no route joins an airport to itself, and the next key is fresh.
     */
    lemma ReferencesHold()
      requires Valid()
      ensures forall id :: id in routes ==>
        routes[id].source in airports && routes[id].destination in airports && routes[id].source != routes[id].destination
      ensures forall id :: id in airplanes ==> airplanes[id].airplaneType in airplaneTypes
      ensures forall id :: id in flights ==>
        flights[id].route in routes && flights[id].airplane in airplanes && flights[id].crews <= crews.Keys
      ensures forall id :: id in tickets ==> tickets[id].flight in flights && tickets[id].order in orders
      ensures nextId !in airports && nextId !in routes && nextId !in airplaneTypes && nextId !in airplanes
      ensures nextId !in crews && nextId !in flights && nextId !in orders && nextId !in tickets
    {
    }

    /** Valid() spelled out for unique_together: two tickets of one flight never share a (row, seat). */
    lemma SeatsUnique()
      requires Valid()
      ensures forall i, j :: i in tickets && j in tickets && i != j && tickets[i].flight == tickets[j].flight ==>
        PlaceOf(tickets[i]) != PlaceOf(tickets[j])
    {
      forall i, j | i in tickets && j in tickets && i != j && tickets[i].flight == tickets[j].flight
        ensures PlaceOf(tickets[i]) != PlaceOf(tickets[j])
      {
        assert SeatsDiffer(tickets, i, j);
      }
    }

    constructor ()
      ensures Valid()
      ensures airports == map[] && routes == map[] && airplaneTypes == map[] && airplanes == map[]
      ensures crews == map[] && flights == map[] && orders == map[] && tickets == map[]
    {
      airports, routes, airplaneTypes, airplanes := map[], map[], map[], map[];
      crews, flights, orders, tickets := map[], map[], map[], map[];
      nextId := 0;
    }

    /** Airport.objects.create: the name column is unique. */
    method AddAirport(name: string, closestBigCity: string) returns (r: Result<AirportId, StoreError>)
      requires Valid()
      modifies this`airports, this`nextId
      ensures Valid()
      ensures r.Success? <==> !AirportNameTaken(old(airports), name)
      ensures r.Success? ==> (r.value !in old(airports) &&
        airports == old(airports)[r.value := Airport(name, closestBigCity)])
      ensures r.Failure? ==> r.error == NameNotUnique && airports == old(airports) && nextId == old(nextId)
    {
      if AirportNameTaken(airports, name) {
        return Failure(NameNotUnique);
      }
      InsertKeepsAirportNames(airports, nextId, Airport(name, closestBigCity));
      r := Success(nextId);
      airports := airports[nextId := Airport(name, closestBigCity)];
      nextId := nextId + 1;
    }

    /** AirplaneType.objects.create: the name column is unique. */
    method AddAirplaneType(name: string) returns (r: Result<AirplaneTypeId, StoreError>)
      requires Valid()
      modifies this`airplaneTypes, this`nextId
      ensures Valid()
      ensures r.Success? <==> !TypeNameTaken(old(airplaneTypes), name)
      ensures r.Success? ==> (r.value !in old(airplaneTypes) &&
        airplaneTypes == old(airplaneTypes)[r.value := AirplaneType(name)])
      ensures r.Failure? ==> r.error == NameNotUnique && airplaneTypes == old(airplaneTypes) && nextId == old(nextId)
    {
      if TypeNameTaken(airplaneTypes, name) {
        return Failure(NameNotUnique);
      }
      InsertKeepsTypeNames(airplaneTypes, nextId, AirplaneType(name));
      r := Success(nextId);
      airplaneTypes := airplaneTypes[nextId := AirplaneType(name)];
      nextId := nextId + 1;
    }

    /**
     * Route.save: run clean(), whose validator refuses equal airports, and
     * only then write the row, which needs both airports to exist.
     */
    method SaveRoute(source: AirportId, destination: AirportId, distance: int)
      returns (r: Result<RouteId, StoreError>)
      requires Valid()
      modifies this`routes, this`nextId
      ensures Valid()
      ensures source == destination ==> r == Failure(Invalid(SameAirports))
      ensures r.Success? <==> source != destination && source in airports && destination in airports
      ensures r.Success? ==> (r.value !in old(routes) &&
        routes == old(routes)[r.value := Route(source, destination, distance)])
      ensures r.Failure? ==> routes == old(routes) && nextId == old(nextId)
    {
      var route := Route(source, destination, distance);
      var clean := DifferentAirports(route);
      if clean.Fail? {
        return Failure(Invalid(clean.error));
      }
      if source !in airports || destination !in airports {
        return Failure(MissingReference);
      }
      r := Success(nextId);
      routes := routes[nextId := route];
      nextId := nextId + 1;
    }

    /** Airplane.objects.create: the airplane type must exist. */
    method AddAirplane(name: string, rows: int, seatsInRow: int, airplaneType: AirplaneTypeId)
      returns (r: Result<AirplaneId, StoreError>)
      requires Valid()
      modifies this`airplanes, this`nextId
      ensures Valid()
      ensures r.Success? <==> airplaneType in airplaneTypes
      ensures r.Success? ==> (r.value !in old(airplanes) &&
        airplanes == old(airplanes)[r.value := Airplane(name, rows, seatsInRow, airplaneType)])
      ensures r.Failure? ==> r.error == MissingReference && airplanes == old(airplanes) && nextId == old(nextId)
    {
      if airplaneType !in airplaneTypes {
        return Failure(MissingReference);
      }
      r := Success(nextId);
      airplanes := airplanes[nextId := Airplane(name, rows, seatsInRow, airplaneType)];
      nextId := nextId + 1;
    }

    /** Crew.objects.create: no constraint beyond the columns. */
    method AddCrew(firstName: string, lastName: string) returns (id: CrewId)
      requires Valid()
      modifies this`crews, this`nextId
      ensures Valid()
      ensures id !in old(crews) && crews == old(crews)[id := Crew(firstName, lastName)]
    {
      id := nextId;
      crews := crews[id := Crew(firstName, lastName)];
      nextId := nextId + 1;
    }

    /** Flight.objects.create plus its crews: route, airplane and every crew member must exist. */
    method AddFlight(route: RouteId, airplane: AirplaneId, departureTime: int, arrivalTime: int,
                     crewIds: set<CrewId>)
      returns (r: Result<FlightId, StoreError>)
      requires Valid()
      modifies this`flights, this`nextId
      ensures Valid()
      ensures r.Success? <==> route in routes && airplane in airplanes && crewIds <= crews.Keys
      ensures r.Success? ==> (r.value !in old(flights) &&
        flights == old(flights)[r.value := Flight(route, airplane, departureTime, arrivalTime, crewIds)])
      ensures r.Failure? ==> r.error == MissingReference && flights == old(flights) && nextId == old(nextId)
    {
      if route !in routes || airplane !in airplanes || !(crewIds <= crews.Keys) {
        return Failure(MissingReference);
      }
      r := Success(nextId);
      flights := flights[nextId := Flight(route, airplane, departureTime, arrivalTime, crewIds)];
      nextId := nextId + 1;
    }

    /** Order.objects.create: the user comes from authentication, created_at from the clock. */
    method InsertOrder(createdAt: int, user: UserId) returns (id: OrderId)
      requires Valid()
      modifies this`orders, this`nextId
      ensures Valid()
      ensures id == old(nextId) && nextId == old(nextId) + 1
      ensures id !in old(orders) && orders == old(orders)[id := Order(createdAt, user)]
    {
      id := nextId;
      orders := orders[id := Order(createdAt, user)];
      nextId := nextId + 1;
    }

    /**
     * Ticket.objects.create: the row is written only when its flight and order
     * exist and no stored ticket holds the same seat on the same flight.
     */
    method InsertTicket(t: Ticket) returns (r: Result<TicketId, StoreError>)
      requires Valid()
      modifies this`tickets, this`nextId
      ensures Valid()
      ensures r.Success? <==> t.flight in flights && t.order in orders && !SeatTaken(old(tickets), t.flight, t.row, t.seat)
      ensures r.Success? ==> (r.value == old(nextId) && nextId == old(nextId) + 1 &&
        tickets == old(tickets)[old(nextId) := t])
      ensures r.Failure? ==> tickets == old(tickets) && nextId == old(nextId)
      ensures r.Failure? && t.flight in flights && t.order in orders ==> r.error == SeatNotUnique
    {
      if t.flight !in flights || t.order !in orders {
        return Failure(MissingReference);
      }
      if SeatTaken(tickets, t.flight, t.row, t.seat) {
        return Failure(SeatNotUnique);
      }
      InsertTicketKeepsIntegrity(tickets, flights, orders, nextId, t);
      r := Success(nextId);
      tickets := tickets[nextId := t];
      nextId := nextId + 1;
    }

    /**
     * The rollback of transaction.atomic(): the order table, the ticket table
     * and the key counter go back to a consistent earlier state.
     */
    method Rollback(orders0: map<OrderId, Order>, tickets0: map<TicketId, Ticket>, next0: nat)
      requires Consistent(airports, routes, airplaneTypes, airplanes, crews, flights, orders0, tickets0, next0)
      modifies this`orders, this`tickets, this`nextId
      ensures Valid()
      ensures orders == orders0 && tickets == tickets0 && nextId == next0
    {
      orders, tickets, nextId := orders0, tickets0, next0;
    }

    /** Deleting a flight deletes exactly the tickets on it. */
    method DeleteFlight(f: FlightId)
      requires Valid()
      modifies this`flights, this`tickets
      ensures Valid()
      ensures flights == old(flights) - {f}
      ensures tickets == TicketsWithoutFlight(old(tickets), f)
    {
      DeleteFlightKeepsIntegrity(tickets, flights, orders, nextId, f);
      flights := flights - {f};
      tickets := TicketsWithoutFlight(tickets, f);
    }

    /** Deleting a route deletes the flights on it, then the tickets on those flights. */
    method DeleteRoute(rt: RouteId)
      requires Valid()
      modifies this`routes, this`flights, this`tickets
      ensures Valid()
      ensures routes == old(routes) - {rt}
      ensures flights == FlightsOnRoutes(old(flights), routes)
      ensures tickets == TicketsOnFlights(old(tickets), flights)
    {
      DeleteRouteKeepsIntegrity(routes, airports, airplanes, crews, flights, tickets, orders, nextId, rt);
      routes := routes - {rt};
      flights := FlightsOnRoutes(flights, routes);
      tickets := TicketsOnFlights(tickets, flights);
    }

    /** Deleting an order deletes exactly its tickets. */
    method DeleteOrder(o: OrderId)
      requires Valid()
      modifies this`orders, this`tickets
      ensures Valid()
      ensures orders == old(orders) - {o}
      ensures tickets == TicketsWithoutOrder(old(tickets), o)
    {
      DeleteOrderKeepsIntegrity(tickets, flights, orders, nextId, o);
      orders := orders - {o};
      tickets := TicketsWithoutOrder(tickets, o);
    }

    /**
     * Deleting an airport deletes the routes that start or end there, then the
     * flights on those routes, then the tickets on those flights.
     */
    method DeleteAirport(a: AirportId)
      requires Valid()
      modifies this`airports, this`routes, this`flights, this`tickets
      ensures Valid()
      ensures airports == old(airports) - {a}
      ensures routes == RoutesWithoutAirport(old(routes), a)
      ensures flights == FlightsOnRoutes(old(flights), routes)
      ensures tickets == TicketsOnFlights(old(tickets), flights)
    {
      DeleteAirportKeepsIntegrity(airports, routes, airplanes, crews, flights, tickets, orders, nextId, a);
      airports := airports - {a};
      routes := RoutesWithoutAirport(routes, a);
      flights := FlightsOnRoutes(flights, routes);
      tickets := TicketsOnFlights(tickets, flights);
    }

    /** Deleting an airplane deletes the flights it flies, then the tickets on those flights. */
    method DeleteAirplane(a: AirplaneId)
      requires Valid()
      modifies this`airplanes, this`flights, this`tickets
      ensures Valid()
      ensures airplanes == old(airplanes) - {a}
      ensures flights == FlightsWithoutAirplane(old(flights), a)
      ensures tickets == TicketsOnFlights(old(tickets), flights)
    {
      DeleteAirplaneKeepsIntegrity(routes, airplanes, airplaneTypes, crews, flights, tickets, orders, nextId, a);
      airplanes := airplanes - {a};
      flights := FlightsWithoutAirplane(flights, a);
      tickets := TicketsOnFlights(tickets, flights);
    }

    /** Deleting a user deletes their orders, then the tickets of those orders. */
    method DeleteUser(u: UserId)
      requires Valid()
      modifies this`orders, this`tickets
      ensures Valid()
      ensures orders == OrdersWithoutUser(old(orders), u)
      ensures tickets == TicketsOfOrders(old(tickets), orders)
    {
      DeleteUserKeepsIntegrity(tickets, flights, orders, nextId, u);
      orders := OrdersWithoutUser(orders, u);
      tickets := TicketsOfOrders(tickets, orders);
    }
  }
}
