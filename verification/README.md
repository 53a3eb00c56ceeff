# Airport API booking core in Dafny

This project models the booking-consistency core of a Django airport API.
Airports, routes, airplane types, airplanes, crews and flights are stored rows.
Users place orders, and each order holds tickets for seats on flights. The
model covers the following:

- **Models** (`models.dfy`). The entities are values. The pure rules are
  stated over tables that map a primary key to a row:
  - airplane capacity;
  - the crew full name;
  - the different-airports validator of routes;
  - the `(flight, row, seat)` uniqueness of tickets;
  - per-flight ticket counts;
  - the `(row, seat)` ordering of a flight's taken places;
  - referential integrity;
  - the `on_delete=CASCADE` deletions.
- **Store** (`store.dfy`). A `Database` class holds one map per table and a
  primary-key counter. Its methods insert and delete rows. Every method keeps
  `Valid()`, the conjunction of the schema's constraints: unique airport and
  airplane-type names, foreign keys that point at stored rows, unique ticket
  seats, and keys below the counter.
- **Serializers** (`serializers.dfy`). These model OrderSerializer:
  - validation of the nested ticket list, whose emptiness is refused;
  - the per-ticket check of TicketSerializer.validate;
  - the atomic `create`, which inserts one order and then one ticket per
    request, and rolls everything back on the first refused insert.
- **Views** (`views.dfy`). These model the `tickets_available` annotation of
  the flight list, and the `get_serializer_class` choices of the route and
  flight view sets.

Ticket.validate_ticket does not exist in the repository. The model therefore
takes the per-ticket check as a parameter, `check: (row, seat, airplane) ->
bool`. Every property holds whatever that check is. Clocks and the
authenticated user are parameters (`createdAt`, `user`).

## Model

| member | source | states |
|---|---|---|
| Models.Capacity | airport/models.py:49-51 | for non-negative dimensions, `rows * seats_in_row` is the number of distinct (row, seat) positions of the airplane |
| Models.TenBySixAirplane | tests/test_order_api.py:78-99 | a ten-row, six-seat airplane has capacity 60 and 60 seat positions |
| Models.FullName | airport/models.py:61-63 | the full name is the first name, then one space, then the last name |
| Models.FullNameDeterminesCrew | airport/models.py:61-63 | when first names contain no space, equal full names mean equal first and last names |
| Models.DifferentAirports | airport/models.py:14-16 | the validator passes exactly when source and destination differ, and otherwise reports the same-airports error |
| Models.InsertKeepsUniqueSeats | airport/models.py:99-100 | adding a ticket under a fresh key keeps `(flight, row, seat)` unique if and only if no stored ticket holds that seat on that flight |
| Models.InsertKeepsAirportNames | airport/models.py:7 | a new airport keeps airport names unique if and only if its name is not already stored |
| Models.InsertKeepsTypeNames | airport/models.py:37 | a new airplane type keeps type names unique if and only if its name is not already stored |
| Models.TicketCount | airport/views.py:90 | a flight's ticket count is zero exactly when no stored ticket is for that flight |
| Models.FlightPlaces | airport/serializers.py:134-136 | a (row, seat) pair belongs to a flight's places exactly when some ticket of that flight holds it |
| Models.FlightPlacesCount | airport/models.py:99-100 | under the uniqueness constraint a flight has exactly as many taken places as tickets |
| Models.SortedPlaces | airport/models.py:101 | the listing has one entry per place, exactly the given places, in strictly ascending (row, seat) order |
| Models.TakenPlaces | airport/serializers.py:134-136 | taken_places lists exactly the places held by the flight's tickets, in strictly ascending (row, seat) order as `ordering = ["row", "seat"]` gives |
| Models.TakenPlacesCount | airport/serializers.py:134-136 | under the uniqueness constraint taken_places has exactly one entry per ticket of the flight |
| Models.TicketCountAfterInsert | airport/views.py:90 | a new ticket adds one to its own flight's ticket count and nothing to any other flight's count |
| Models.SubTableKeepsUniqueSeats | airport/models.py:99-100 | removing tickets never breaks the uniqueness constraint |
| Models.InsertTicketKeepsIntegrity | airport/models.py:96-100 | a ticket whose flight and order exist and whose seat is free keeps the ticket table consistent |
| Models.DeleteFlightKeepsIntegrity | airport/models.py:96 | deleting a flight and its tickets leaves every ticket pointing at a stored flight and order, with seats still unique |
| Models.DeleteOrderKeepsIntegrity | airport/models.py:97 | deleting an order and its tickets leaves every ticket pointing at a stored flight and order, with seats still unique |
| Models.DeleteAirportKeepsIntegrity | airport/models.py:20-21 | the cascade from an airport to its routes, their flights and those tickets leaves every foreign key pointing at a stored row |
| Models.DeleteRouteKeepsIntegrity | airport/models.py:67 | the cascade from a route to its flights and their tickets leaves every foreign key pointing at a stored row |
| Models.DeleteAirplaneKeepsIntegrity | airport/models.py:68 | the cascade from an airplane to its flights and their tickets leaves every foreign key pointing at a stored row |
| Models.DeleteUserKeepsIntegrity | airport/models.py:82-84 | the cascade from a user to their orders and those tickets leaves every foreign key pointing at a stored row |
| Models.DeleteFlightCounts | airport/models.py:96 | after a flight is deleted it has no tickets, and every other flight keeps exactly its tickets |
| Models.DeleteOrderReleasesSeats | airport/models.py:97 | after an order is deleted, a seat stays taken exactly when it was taken by a ticket of another order |
| Store.Database.UniqueNames | airport/models.py:7 | in a valid store no two airports share a name, and no two airplane types share a name (line 37) |
| Store.Database.ReferencesHold | airport/models.py:66-71 | in a valid store every flight's route, airplane and crew members are stored, as are every route's two distinct airports, every airplane's type and every ticket's flight and order; the next key is used by no table |
| Store.Database.SeatsUnique | airport/models.py:99-100 | in a valid store two distinct tickets of one flight never hold the same (row, seat) |
| Store.Database.AddAirport | airport/models.py:7 | the insert succeeds if and only if the name is free; on success exactly one airport is added under a fresh key, and on failure nothing changes |
| Store.Database.AddAirplaneType | airport/models.py:37 | the insert succeeds if and only if the name is free; on success exactly one type is added under a fresh key, and on failure nothing changes |
| Store.Database.SaveRoute | airport/models.py:28-33 | equal airports are refused by the validator before anything is written; the route is stored with exactly the given airports if and only if they differ and both exist; a refusal leaves routes and keys unchanged |
| Store.Database.AddAirplane | airport/models.py:43-47 | the airplane is stored if and only if its type exists; a refusal leaves airplanes and keys unchanged |
| Store.Database.AddCrew | airport/models.py:54-56 | exactly one crew member is added under a fresh key |
| Store.Database.AddFlight | airport/models.py:66-71 | the flight is stored if and only if its route, its airplane and all its crew members exist; a refusal leaves flights and keys unchanged |
| Store.Database.InsertOrder | airport/serializers.py:161 | exactly one order is added under the next key |
| Store.Database.InsertTicket | airport/models.py:99-100 | the insert succeeds if and only if flight and order exist and the seat is free; a clash is reported as a uniqueness error and changes nothing; the store stays valid |
| Store.Database.Rollback | airport/serializers.py:159 | the order table, the ticket table and the key counter return to a consistent earlier state |
| Store.Database.DeleteFlight | airport/models.py:96 | the flight and exactly the tickets on it are removed; the store stays valid |
| Store.Database.DeleteRoute | airport/models.py:67 | the route, exactly the flights on it and their tickets are removed; the store stays valid |
| Store.Database.DeleteOrder | airport/models.py:97 | the order and exactly its tickets are removed; the store stays valid |
| Store.Database.DeleteAirport | airport/models.py:20-21 | the airport, exactly the routes that start or end there, the flights on those routes and their tickets are removed; the store stays valid |
| Store.Database.DeleteAirplane | airport/models.py:68 | the airplane, exactly the flights it flies and their tickets are removed; the store stays valid |
| Store.Database.DeleteUser | airport/models.py:82-84 | exactly the user's orders and their tickets are removed; the store stays valid |
| Serializers.ValidateTicket | airport/serializers.py:105-113 | a ticket passes if and only if its flight exists and the check accepts (row, seat) on the flight's airplane; a missing flight is reported as such |
| Serializers.ValidateTicketsFrom | airport/serializers.py:152 | the list passes if and only if every ticket passes; otherwise it reports the first refused ticket and its error |
| Serializers.ValidateOrder | airport/serializers.py:152 | an order passes if and only if its ticket list is non-empty and every ticket passes; the empty list, and only it, is refused as such; otherwise the error names the first refused ticket, every earlier ticket having passed |
| Serializers.AsWrittenFrom | airport/serializers.py:107 | reports the first ticket whose flight exists and whose seat is free, which is where the missing method is called: that ticket reaches validate and no earlier one does; it passes only when no ticket reaches validate |
| Serializers.ValidateOrderAsWritten | airport/serializers.py:105-113 | as written, validation never passes; it ends in the missing-method error if and only if some ticket reaches validate |
| Serializers.AsWrittenRefusesEveryOrder | airport/serializers.py:107 | every order the corrected code would store ends, as written, in the missing-method error on its first ticket |
| Serializers.OneTicketWitness | airport/serializers.py:107 | a one-ticket order for a free seat passes the corrected validation but fails the as-written validation |
| Serializers.NewTickets | airport/serializers.py:162-163 | the loop writes one ticket per request under consecutive fresh keys, each holding that request's seat and the new order |
| Serializers.BookedTicketsSpec | airport/serializers.py:158-164 | booking keeps every stored ticket unchanged and adds exactly one ticket per request, referencing the order, under the keys after the order's |
| Serializers.PrefixFits | airport/serializers.py:162-163 | a batch that fits fits in every prefix, so a clash found partway rules out the whole batch |
| Serializers.BatchKeepsUniqueSeats | airport/serializers.py:162-163 | the batch keeps seats unique if and only if no requested seat is taken and no two requests ask for the same seat on the same flight |
| Serializers.BatchTicketCount | airport/serializers.py:162-163 | the batch adds to each flight's ticket count exactly the number of requests for that flight |
| Serializers.InsertExtendsBatch | airport/serializers.py:162-163 | writing ticket i extends the written prefix by exactly that ticket |
| Serializers.FreeSeatExtendsBatch | airport/serializers.py:163 | a free seat for request i extends a fitting prefix of the batch by one request |
| Serializers.TakenSeatBreaksBatch | airport/serializers.py:163 | a clash at request i, with a stored ticket or an earlier request, means the whole batch does not fit |
| Serializers.InsertStep | airport/serializers.py:163 | one ticket insert either extends the written prefix by that ticket, or is refused, writes nothing, and neither the prefix through this request nor the whole batch fits |
| Serializers.InsertTickets | airport/serializers.py:162-163 | the loop completes if and only if the batch fits, writing exactly one ticket per request; otherwise it stops at the first conflicting request: the requests before it fit, the one at it clashes, and exactly the tickets of the requests before it have been written |
| Serializers.PlaceOrder | airport/serializers.py:159-164 | either the order and one ticket per request are stored under fresh keys, or nothing changes; it succeeds if and only if the batch fits, and a failure names the first clashing request |
| Serializers.CreateOrder | airport/serializers.py:151-164 | the order is stored if and only if validation passes and the batch fits; an empty list is refused; a validation failure is returned as validation reported it (empty list, or the first refused ticket and its error); a failure is a seat conflict if and only if validation passed; on failure orders, tickets and keys are unchanged; a seat conflict names the first clashing request; on success the order takes the next key, there is exactly one new order and one new ticket per request under the following keys, and every stored ticket is unchanged |
| Views.TicketsAvailable | airport/views.py:88-91 | availability never exceeds the airplane's capacity, and equals it exactly when the flight has no tickets |
| Views.AvailablePlusTakenIsCapacity | airport/views.py:88-91 | under the uniqueness constraint, availability plus the number of taken places is the capacity |
| Views.AvailableCountsFreeSeats | airport/views.py:88-91 | when all tickets lie on the airplane's grid, availability is the number of grid seats no ticket holds |
| Views.AvailableAfterInsert | airport/views.py:88-91 | a new ticket lowers its own flight's availability by one and leaves every other flight's unchanged |
| Views.AvailableAfterOrder | airport/views.py:88-91 | a stored order lowers each flight's availability by exactly its number of requests for that flight |
| Views.AvailableAfterDeleteFlight | airport/views.py:88-91 | deleting a flight leaves every other flight's availability unchanged |
| Views.OrderFixture | tests/test_order_api.py:78-110 | a ten-by-six airplane with one ticket in row 2, seat 5 lists 59 available tickets, and its detail shows exactly that taken place |
| Views.FlightSerializerFor | airport/views.py:96-103 | "list" selects the list serializer, "retrieve" the detail serializer, and every other action the plain one |
| Views.FlightFieldsByAction | airport/serializers.py:89-101 | only the list renders tickets_available, only the detail renders taken_places, and every action except list renders crews |
| Views.RouteSerializerFor | airport/views.py:72-79 | "list" selects the list serializer, "retrieve" the detail serializer, and every other action the plain one |
| Views.RouteEndpointsByAction | airport/serializers.py:47-66 | the list shows airport names, the detail nests airports, and only the other actions take airport keys |

## Left out

- HTTP routing, authentication, permissions, pagination and listing filters are left out. They are framework wiring.
- No orders endpoint is registered in the URL configuration, so the order logic is modelled from the serializer alone.
- Datetimes are opaque integers. Nothing requires departure before arrival, because the code does not.
- Row and seat bounds are left out. The per-ticket check is a parameter, because Ticket.validate_ticket is not part of this model: the repository does not define it.
- CharField lengths, `blank` rules and integer field widths are left out. Integers are unbounded.
- The mistyped `crews_fullname` field of the flight list serializer is left out. It is a presentation bug.
- Concurrency and transaction isolation are left out. Only sequential all-or-nothing behaviour is modelled.
- Keys come from one counter shared by all tables. A database has one key sequence per table, and on PostgreSQL a rolled-back transaction does not give its sequence values back. The model restores the counter on rollback, so keys may differ from the database's but are still fresh.
- Ordering of flights by departure time and of orders by creation time is left out. Only the ticket ordering, which taken_places shows, is modelled.
- Deleting an airplane type (`on_delete=CASCADE`, airport/models.py:47) is left out: its cascade is DeleteAirplane applied to each airplane of the type, and each step keeps the store valid. Removing crew members from a flight is left out: it only edits the flight's crew set, which can only shrink, so the crew references stay valid.
- A route with equal airports is refused with a ValidationError raised from `save`. The model returns it as an error value, and leaves out how the API reports it.
- Serializers.ValidateOrder: DRF also runs a unique-together validator on each nested ticket. The model leaves a seat that is already taken to the insert inside the transaction, which refuses it with SeatConflict. Either way nothing is stored; only the error kind differs.
- Serializers.ValidateTicketsFrom: DRF collects the errors of all tickets. The model reports only the first refused ticket.
- Serializers.ValidateOrderAsWritten: when no ticket reaches validate, DRF reports the errors of every ticket. The model reports only ticket 0's error.
- Models.TakenPlaces: it lists each place once. With duplicate seats, which the uniqueness constraint rules out, the detail view would repeat them.
- Views.OrderFixture and Models.TenBySixAirplane: they fix the dimensions; the general statements are AvailableCountsFreeSeats and Capacity.

## Findings

| source | as written | input that shows it | evidently intended | confidence | as-written member | corrected member |
|---|---|---|---|---|---|---|
| airport/serializers.py:107 | TicketSerializer.validate calls `Ticket.validate_ticket`, which the Ticket model (airport/models.py:93-101) does not define | an order with one ticket, row 2 and seat 5, on an existing flight whose seat is free: `validate` raises AttributeError, so no order can be created through OrderSerializer | a per-ticket check of (row, seat) against the flight's airplane that either accepts the ticket or refuses it with a validation error | high; not executed | Serializers.ValidateOrderAsWritten | Serializers.ValidateOrder |
