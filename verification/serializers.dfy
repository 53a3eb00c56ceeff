/**
 * Order creation: the validation OrderSerializer runs on its nested ticket
 * list, and OrderSerializer.create, which inserts one order and then one
 * ticket per request inside a single transaction.
 */
module Serializers {
  import opened Models
  import opened Store

  /** One entry of the order's "tickets" list. */
  datatype TicketRequest = TicketRequest(row: int, seat: int, flight: FlightId)

  datatype TicketError =
    | FlightDoesNotExist   // the flight primary key names no stored flight
    | SeatRefused          // the per-ticket check refused (row, seat) on the flight's airplane
    | SeatAlreadyTaken     // the unique-together validator found (flight, row, seat) stored
    | ValidatorMissing     // Ticket.validate_ticket is looked up and is not there

  datatype OrderError =
    | EmptyTickets                            // allow_empty=False on the tickets list
    | BadTicket(index: nat, error: TicketError)
    | SeatConflict(index: nat)                // an insert hit unique_together; the transaction rolled back

  /**
   * The per-ticket check TicketSerializer.validate applies to (row, seat) and
   * the flight's airplane. Its rules are not part of this model, so every
   * property below holds whatever the check is.
   */
  type SeatCheck = (int, int, Airplane) -> bool

  function TicketFor(req: TicketRequest, order: OrderId): Ticket
  {
    Ticket(req.row, req.seat, req.flight, order)
  }

  ghost predicate FlightsHaveAirplanes(flights: map<FlightId, Flight>, airplanes: map<AirplaneId, Airplane>)
  {
    forall f :: f in flights ==> flights[f].airplane in airplanes
  }

  predicate TicketValid(req: TicketRequest, flights: map<FlightId, Flight>, airplanes: map<AirplaneId, Airplane>,
                        check: SeatCheck)
  {
    req.flight in flights && flights[req.flight].airplane in airplanes &&
    check(req.row, req.seat, airplanes[flights[req.flight].airplane])
  }

  // ---------------------------------------------------------------------------
  // Validation

  /** TicketSerializer.validate, with the per-ticket check supplied by the caller. */
  function ValidateTicket(req: TicketRequest, flights: map<FlightId, Flight>, airplanes: map<AirplaneId, Airplane>,
                          check: SeatCheck): (o: Outcome<TicketError>)
    requires FlightsHaveAirplanes(flights, airplanes)
    ensures o.Pass? <==> TicketValid(req, flights, airplanes, check)
    ensures o == Fail(FlightDoesNotExist) <==> req.flight !in flights
    ensures o.Fail? ==> o.error != ValidatorMissing
  {
    if req.flight !in flights then Fail(FlightDoesNotExist)
    else if check(req.row, req.seat, airplanes[flights[req.flight].airplane]) then Pass
    else Fail(SeatRefused)
  }

  /** Validates requests[i..] in order and reports the first refused one. */
  function ValidateTicketsFrom(requests: seq<TicketRequest>, i: nat, flights: map<FlightId, Flight>,
                               airplanes: map<AirplaneId, Airplane>, check: SeatCheck): (o: Outcome<OrderError>)
    requires i <= |requests|
    requires FlightsHaveAirplanes(flights, airplanes)
    ensures o.Pass? <==> forall j :: i <= j < |requests| ==> TicketValid(requests[j], flights, airplanes, check)
    ensures o.Fail? ==> o.error.BadTicket? && i <= o.error.index < |requests|
    ensures o.Fail? ==> !TicketValid(requests[o.error.index], flights, airplanes, check)
    ensures o.Fail? ==> o.error.error == ValidateTicket(requests[o.error.index], flights, airplanes, check).error
    ensures o.Fail? ==> forall j :: i <= j < o.error.index ==> TicketValid(requests[j], flights, airplanes, check)
    decreases |requests| - i
  {
    if i == |requests| then Pass
    else
      var v := ValidateTicket(requests[i], flights, airplanes, check);
      if v.Fail? then Fail(BadTicket(i, v.error))
      else ValidateTicketsFrom(requests, i + 1, flights, airplanes, check)
  }

  /**
   * OrderSerializer validation: the ticket list must not be empty and every
   * ticket must pass TicketSerializer.validate.
   */
  function ValidateOrder(requests: seq<TicketRequest>, flights: map<FlightId, Flight>,
                         airplanes: map<AirplaneId, Airplane>, check: SeatCheck): (o: Outcome<OrderError>)
    requires FlightsHaveAirplanes(flights, airplanes)
    ensures o.Pass? <==> |requests| > 0 && forall j :: 0 <= j < |requests| ==> TicketValid(requests[j], flights, airplanes, check)
    ensures o == Fail(EmptyTickets) <==> |requests| == 0
    ensures o.Fail? && o.error.BadTicket? ==> (o.error.index < |requests| &&
      !TicketValid(requests[o.error.index], flights, airplanes, check))
    ensures o.Fail? && o.error.BadTicket? ==>
      forall j :: 0 <= j < o.error.index ==> TicketValid(requests[j], flights, airplanes, check)
    ensures o.Fail? ==> o.error.EmptyTickets? || o.error.BadTicket?
  {
    if |requests| == 0 then Fail(EmptyTickets)
    else ValidateTicketsFrom(requests, 0, flights, airplanes, check)
  }

  /**
   * As the code stands, a ticket reaches TicketSerializer.validate once its
   * flight resolves and the (flight, row, seat) unique-together validator
   * finds the seat free; validate then calls Ticket.validate_ticket, which
   * the Ticket model does not define, and the AttributeError ends the request.
   */
  predicate ReachesValidate(req: TicketRequest, flights: map<FlightId, Flight>, tickets: map<TicketId, Ticket>)
  {
    req.flight in flights && !SeatTaken(tickets, req.flight, req.row, req.seat)
  }

  /** The first of requests[i..] to reach validate, as the error it raises. */
  function AsWrittenFrom(requests: seq<TicketRequest>, i: nat, flights: map<FlightId, Flight>,
                         tickets: map<TicketId, Ticket>): (o: Outcome<OrderError>)
    requires i <= |requests|
    ensures o.Pass? <==> forall j :: i <= j < |requests| ==> !ReachesValidate(requests[j], flights, tickets)
    ensures o.Fail? ==> (o.error.BadTicket? && o.error.error == ValidatorMissing &&
      i <= o.error.index < |requests| && ReachesValidate(requests[o.error.index], flights, tickets))
    ensures o.Fail? ==> forall j :: i <= j < o.error.index ==> !ReachesValidate(requests[j], flights, tickets)
    decreases |requests| - i
  {
    if i == |requests| then Pass
    else if ReachesValidate(requests[i], flights, tickets) then Fail(BadTicket(i, ValidatorMissing))
    else AsWrittenFrom(requests, i + 1, flights, tickets)
  }

  /**
   * OrderSerializer validation as written. It never passes: either a ticket
   * reaches the missing method, or every ticket was refused on the way.
   */
  function ValidateOrderAsWritten(requests: seq<TicketRequest>, flights: map<FlightId, Flight>,
                                  tickets: map<TicketId, Ticket>): (o: Outcome<OrderError>)
    ensures o.Fail?
    ensures o == Fail(EmptyTickets) <==> |requests| == 0
    ensures (o.error.BadTicket? && o.error.error == ValidatorMissing) <==>
      exists j :: 0 <= j < |requests| && ReachesValidate(requests[j], flights, tickets)
  {
    if |requests| == 0 then Fail(EmptyTickets)
    else
      var reached := AsWrittenFrom(requests, 0, flights, tickets);
      if reached.Fail? then reached
      else if requests[0].flight !in flights then Fail(BadTicket(0, FlightDoesNotExist))
      else Fail(BadTicket(0, SeatAlreadyTaken))
  }

  /**
   * An order the corrected code stores (every ticket accepted, no seat
   * clash) ends, as written, in the missing-method error.
   */
  lemma AsWrittenRefusesEveryOrder(requests: seq<TicketRequest>, flights: map<FlightId, Flight>,
                                    airplanes: map<AirplaneId, Airplane>,
                                    tickets: map<TicketId, Ticket>, check: SeatCheck)
    requires FlightsHaveAirplanes(flights, airplanes)
    requires ValidateOrder(requests, flights, airplanes, check).Pass? && BatchFits(tickets, requests)
    ensures ValidateOrderAsWritten(requests, flights, tickets) == Fail(BadTicket(0, ValidatorMissing))
  {
  }

  /** A one-ticket order for a free seat of an existing flight, accepted by any check. */
  lemma OneTicketWitness(flights: map<FlightId, Flight>, airplanes: map<AirplaneId, Airplane>, f: FlightId)
    requires FlightsHaveAirplanes(flights, airplanes) && f in flights
    ensures ValidateOrder([TicketRequest(2, 5, f)], flights, airplanes, (row, seat, a) => true) == Pass
    ensures BatchFits(map[], [TicketRequest(2, 5, f)])
    ensures ValidateOrderAsWritten([TicketRequest(2, 5, f)], flights, map[]) == Fail(BadTicket(0, ValidatorMissing))
  {
  }

  // ---------------------------------------------------------------------------
  // The rows the transaction writes

  /** The tickets the loop writes for `requests`, numbered from `first`, all in order `order`. */
  function NewTickets(requests: seq<TicketRequest>, order: OrderId, first: nat): (m: map<TicketId, Ticket>)
    ensures forall k :: k in m <==> first <= k < first + |requests|
    ensures forall k :: k in m ==> m[k] == TicketFor(requests[k - first], order)
    decreases |requests|
  {
    if requests == [] then map[]
    else
      var n := |requests| - 1;
      NewTickets(requests[..n], order, first)[first + n := TicketFor(requests[n], order)]
  }

  /**
   * The ticket table once order `order` has booked `requests`: the stored
   * tickets plus one new ticket per request, keyed from order + 1 on.
   */
  function BookedTickets(tickets: map<TicketId, Ticket>, requests: seq<TicketRequest>, order: OrderId): map<TicketId, Ticket>
  {
    tickets + NewTickets(requests, order, order + 1)
  }

  /** The tickets written from key order + 1 on are the booked table. */
  lemma BookedFrom(tickets: map<TicketId, Ticket>, requests: seq<TicketRequest>, order: OrderId, first: nat)
    requires first == order + 1
    ensures tickets + NewTickets(requests, order, first) == BookedTickets(tickets, requests, order)
  {
  }

  /**
   * What booking adds: every stored ticket stays as it was, and the keys
   * order + 1 .. order + |requests| now hold one ticket per request, in
   * request order, each referencing the order.
   */
  lemma BookedTicketsSpec(tickets: map<TicketId, Ticket>, requests: seq<TicketRequest>, order: OrderId)
    requires KeysBelow(tickets, order + 1)
    ensures forall id :: id in tickets ==> (id in BookedTickets(tickets, requests, order) &&
      BookedTickets(tickets, requests, order)[id] == tickets[id])
    ensures forall id :: id in BookedTickets(tickets, requests, order) && id !in tickets <==>
      order + 1 <= id < order + 1 + |requests|
    ensures forall j :: 0 <= j < |requests| ==>
      BookedTickets(tickets, requests, order)[order + 1 + j] == Ticket(requests[j].row, requests[j].seat, requests[j].flight, order)
  {
  }

  /**
   * No requested seat is already taken and no two requests ask for the same
   * seat of the same flight.
   */
  ghost predicate BatchFits(tickets: map<TicketId, Ticket>, requests: seq<TicketRequest>)
  {
    && (forall i :: 0 <= i < |requests| ==> !SeatTaken(tickets, requests[i].flight, requests[i].row, requests[i].seat))
    && (forall i, j {:trigger RequestsDiffer(requests, i, j)} :: RequestsDiffer(requests, i, j))
  }

  /** Requests i < j of a batch ask for different seats or flights. */
  ghost predicate RequestsDiffer(requests: seq<TicketRequest>, i: int, j: int)
  {
    0 <= i < j < |requests| ==> requests[i] != requests[j]
  }

  /**
   * The whole batch can be added without breaking unique_together exactly when
   * it fits: a clash with a stored ticket or between two requests rules it out.
   */
  lemma BatchKeepsUniqueSeats(tickets: map<TicketId, Ticket>, requests: seq<TicketRequest>, order: OrderId, first: nat)
    requires UniqueSeats(tickets) && KeysBelow(tickets, first)
    ensures UniqueSeats(tickets + NewTickets(requests, order, first)) <==> BatchFits(tickets, requests)
  {
    var added := NewTickets(requests, order, first);
    var all := tickets + added;
    assert forall k :: k in added ==> k !in tickets;
    if BatchFits(tickets, requests) {
      forall a: TicketId, b: TicketId ensures SeatsDiffer(all, a, b) {
        if a !in all || b !in all || a == b {
        } else if a in added && b in added {
          var i, j := a - first, b - first;
          if i < j { assert RequestsDiffer(requests, i, j); } else { assert RequestsDiffer(requests, j, i); }
        } else if a in added {
          var i := a - first;
          assert !SeatTaken(tickets, requests[i].flight, requests[i].row, requests[i].seat);
          assert b in tickets && all[b] == tickets[b];
        } else if b in added {
          var j := b - first;
          assert !SeatTaken(tickets, requests[j].flight, requests[j].row, requests[j].seat);
          assert a in tickets && all[a] == tickets[a];
        } else {
          assert SeatsDiffer(tickets, a, b);
        }
      }
    } else if exists i :: 0 <= i < |requests| && SeatTaken(tickets, requests[i].flight, requests[i].row, requests[i].seat) {
      var i :| 0 <= i < |requests| && SeatTaken(tickets, requests[i].flight, requests[i].row, requests[i].seat);
      var k :| k in tickets && tickets[k].flight == requests[i].flight && tickets[k].row == requests[i].row &&
               tickets[k].seat == requests[i].seat;
      assert first + i in added && k in all && all[k] == tickets[k] && all[first + i] == TicketFor(requests[i], order);
      assert k != first + i;
      assert !SeatsDiffer(all, k, first + i);
    } else {
      var i, j :| !RequestsDiffer(requests, i, j);
      assert first + i in all && first + j in all && all[first + i] == TicketFor(requests[i], order);
      assert all[first + j] == TicketFor(requests[j], order);
      assert !SeatsDiffer(all, first + i, first + j);
    }
  }

  /** The requests of a batch that are for flight g. */
  function RequestsOn(requests: seq<TicketRequest>, g: FlightId): nat
  {
    if requests == [] then 0
    else RequestsOn(requests[..|requests| - 1], g) + (if requests[|requests| - 1].flight == g then 1 else 0)
  }

  /** Writing the batch adds to each flight's ticket count exactly the number of its requests. */
  lemma {:induction false} BatchTicketCount(tickets: map<TicketId, Ticket>, requests: seq<TicketRequest>, order: OrderId,
                                            first: nat, g: FlightId)
    requires KeysBelow(tickets, first)
    ensures TicketCount(tickets + NewTickets(requests, order, first), g) == TicketCount(tickets, g) + RequestsOn(requests, g)
    decreases |requests|
  {
    if requests != [] {
      var n := |requests| - 1;
      var before := tickets + NewTickets(requests[..n], order, first);
      BatchTicketCount(tickets, requests[..n], order, first, g);
      assert first + n !in before;
      assert tickets + NewTickets(requests, order, first) == before[first + n := TicketFor(requests[n], order)];
      TicketCountAfterInsert(before, first + n, TicketFor(requests[n], order), g);
    } else {
      assert tickets + NewTickets(requests, order, first) == tickets;
    }
  }

  /** Every prefix of a batch that fits fits too. */
  lemma PrefixFits(tickets: map<TicketId, Ticket>, requests: seq<TicketRequest>, n: nat)
    requires n <= |requests|
    ensures BatchFits(tickets, requests) ==> BatchFits(tickets, requests[..n])
  {
    var p := requests[..n];
    if BatchFits(tickets, requests) {
      forall a, b ensures RequestsDiffer(p, a, b) {
        assert RequestsDiffer(requests, a, b);
      }
    }
  }

  // ---------------------------------------------------------------------------
  // Steps of the insert loop

  lemma InsertExtendsBatch(tickets: map<TicketId, Ticket>, requests: seq<TicketRequest>, i: nat, order: OrderId,
                           first: nat)
    requires i < |requests| && KeysBelow(tickets, first)
    ensures tickets + NewTickets(requests[..i + 1], order, first)
         == (tickets + NewTickets(requests[..i], order, first))[first + i := TicketFor(requests[i], order)]
  {
  }

  /** A free seat for request i extends a fitting prefix by one request. */
  lemma FreeSeatExtendsBatch(tickets: map<TicketId, Ticket>, requests: seq<TicketRequest>, i: nat, order: OrderId,
                             first: nat)
    requires i < |requests| && KeysBelow(tickets, first)
    requires BatchFits(tickets, requests[..i])
    requires !SeatTaken(tickets + NewTickets(requests[..i], order, first), requests[i].flight, requests[i].row, requests[i].seat)
    ensures BatchFits(tickets, requests[..i + 1])
  {
    var all := tickets + NewTickets(requests[..i], order, first);
    var r := requests[i];
    forall k | k in tickets && tickets[k].flight == r.flight && tickets[k].row == r.row
      ensures tickets[k].seat != r.seat
    {
      assert k < first && k in all && all[k] == tickets[k];
    }
    forall j | 0 <= j < i ensures requests[j] != r {
      assert first + j in all && all[first + j] == TicketFor(requests[j], order);
    }
    var p := requests[..i + 1];
    forall a, b ensures RequestsDiffer(p, a, b) {
      if 0 <= a < b < i {
        assert p[a] == requests[..i][a] && p[b] == requests[..i][b];
        assert RequestsDiffer(requests[..i], a, b);
      }
    }
    forall a | 0 <= a < |p| ensures !SeatTaken(tickets, p[a].flight, p[a].row, p[a].seat) {
      if a < i { assert p[a] == requests[..i][a]; }
    }
  }

  /**
   * A taken seat for request i means the batch up to and including request i
   * does not fit, and so neither does the whole batch.
   */
  lemma TakenSeatBreaksBatch(tickets: map<TicketId, Ticket>, requests: seq<TicketRequest>, i: nat, order: OrderId,
                             first: nat)
    requires i < |requests| && KeysBelow(tickets, first)
    requires SeatTaken(tickets + NewTickets(requests[..i], order, first), requests[i].flight, requests[i].row, requests[i].seat)
    ensures !BatchFits(tickets, requests[..i + 1])
    ensures !BatchFits(tickets, requests)
  {
    var added := NewTickets(requests[..i], order, first);
    var all := tickets + added;
    var r, p := requests[i], requests[..i + 1];
    assert p[i] == r;
    var k :| k in all && all[k].flight == r.flight && all[k].row == r.row && all[k].seat == r.seat;
    if k in added {
      var j := k - first;
      assert requests[..i][j] == requests[j] == p[j];
      assert p[j] == r;
      assert !RequestsDiffer(p, j, i);
    } else {
      assert k in tickets && all[k] == tickets[k];
      assert SeatTaken(tickets, p[i].flight, p[i].row, p[i].seat);
    }
    PrefixFits(tickets, requests, i + 1);
  }

  // ---------------------------------------------------------------------------
  // OrderSerializer.create

  /**
   * One Ticket.objects.create of the loop, for request i, given that the
   * first i requests have been written as tickets of `order`.
   */
  method InsertStep(db: Database, requests: seq<TicketRequest>, i: nat, order: OrderId,
                    tickets0: map<TicketId, Ticket>, first: nat)
    returns (ok: bool)
    requires db.Valid() && i < |requests| && KeysBelow(tickets0, first)
    requires order in db.orders && requests[i].flight in db.flights
    requires db.nextId == first + i
    requires db.tickets == tickets0 + NewTickets(requests[..i], order, first)
    requires BatchFits(tickets0, requests[..i])
    modifies db`tickets, db`nextId
    ensures db.Valid()
    ensures !ok ==> !BatchFits(tickets0, requests[..i + 1]) && !BatchFits(tickets0, requests)
    ensures !ok ==> db.tickets == old(db.tickets) && db.nextId == old(db.nextId)
    ensures ok ==> (db.nextId == first + i + 1 &&
      db.tickets == tickets0 + NewTickets(requests[..i + 1], order, first) &&
      BatchFits(tickets0, requests[..i + 1]))
  {
    var t := db.InsertTicket(TicketFor(requests[i], order));
    ok := t.Success?;
    if !ok {
      TakenSeatBreaksBatch(tickets0, requests, i, order, first);
    } else {
      FreeSeatExtendsBatch(tickets0, requests, i, order, first);
      InsertExtendsBatch(tickets0, requests, i, order, first);
    }
  }

  /**
   * The loop of OrderSerializer.create: one Ticket.objects.create per request,
   * stopping at the first one the (flight, row, seat) constraint refuses. On
   * a refusal the rows already written stay; the enclosing transaction undoes them.
   */
  method InsertTickets(db: Database, requests: seq<TicketRequest>, order: OrderId) returns (o: Outcome<OrderError>)
    requires db.Valid()
    requires order in db.orders
    requires forall j :: 0 <= j < |requests| ==> requests[j].flight in db.flights
    modifies db`tickets, db`nextId
    ensures db.Valid()
    ensures o.Pass? <==> BatchFits(old(db.tickets), requests)
    ensures o.Fail? ==> o.error.SeatConflict? && o.error.index < |requests|
    ensures o.Fail? ==> (BatchFits(old(db.tickets), requests[..o.error.index]) &&
      !BatchFits(old(db.tickets), requests[..o.error.index + 1]))
    ensures o.Fail? ==> db.tickets == old(db.tickets) + NewTickets(requests[..o.error.index], order, old(db.nextId))
    ensures o.Pass? ==> (db.tickets == old(db.tickets) + NewTickets(requests, order, old(db.nextId)) &&
      db.nextId == old(db.nextId) + |requests|)
  {
    var tickets0, first := db.tickets, db.nextId;
    assert requests[..0] == [];
    var i := 0;
    while i < |requests|
      invariant 0 <= i <= |requests|
      invariant db.Valid()
      invariant db.orders == old(db.orders) && db.flights == old(db.flights)
      invariant db.nextId == first + i
      invariant db.tickets == tickets0 + NewTickets(requests[..i], order, first)
      invariant BatchFits(tickets0, requests[..i])
    {
      var ok := InsertStep(db, requests, i, order, tickets0, first);
      if !ok {
        return Fail(SeatConflict(i));
      }
      i := i + 1;
    }
    assert requests[..i] == requests;
    o := Pass;
  }

  /**
   * The body of transaction.atomic() in OrderSerializer.create: insert the
   * order, then its tickets; if any ticket insert is refused, roll back so
   * that neither the order nor any of its tickets remains.
   */
  method PlaceOrder(db: Database, user: UserId, createdAt: int, requests: seq<TicketRequest>)
    returns (r: Result<OrderId, OrderError>)
    requires db.Valid()
    requires forall j :: 0 <= j < |requests| ==> requests[j].flight in db.flights
    modifies db`orders, db`tickets, db`nextId
    ensures db.Valid()
    ensures r.Success? <==> BatchFits(old(db.tickets), requests)
    ensures r.Failure? ==> (r.error.SeatConflict? && r.error.index < |requests| &&
      db.orders == old(db.orders) && db.tickets == old(db.tickets) && db.nextId == old(db.nextId))
    ensures r.Failure? ==> (BatchFits(old(db.tickets), requests[..r.error.index]) &&
      !BatchFits(old(db.tickets), requests[..r.error.index + 1]))
    ensures r.Success? ==> (r.value == old(db.nextId) &&
      db.orders == old(db.orders)[r.value := Order(createdAt, user)] &&
      db.tickets == BookedTickets(old(db.tickets), requests, r.value) &&
      db.nextId == old(db.nextId) + 1 + |requests|)
    ensures r.Success? ==> r.value !in old(db.orders)
    ensures r.Success? ==> forall id :: id in old(db.tickets) ==> id in db.tickets && db.tickets[id] == old(db.tickets)[id]
  {
    var orders0, tickets0, next0 := db.orders, db.tickets, db.nextId;
    assert Consistent(db.airports, db.routes, db.airplaneTypes, db.airplanes, db.crews, db.flights,
                      orders0, tickets0, next0);
    var order := db.InsertOrder(createdAt, user);
    var first := db.nextId;
    assert db.tickets == tickets0 && first == order + 1;
    var inserted := InsertTickets(db, requests, order);
    if inserted.Fail? {
      db.Rollback(orders0, tickets0, next0);
      return Failure(inserted.error);
    }
    BookedFrom(tickets0, requests, order, first);
    BookedTicketsSpec(tickets0, requests, order);
    r := Success(order);
  }

  /**
   * OrderSerializer: validate the request, then run create in one
   * transaction. Either the order and all its tickets are stored, or nothing
   * changes.
   */
  method CreateOrder(db: Database, user: UserId, createdAt: int, requests: seq<TicketRequest>, check: SeatCheck)
    returns (r: Result<OrderId, OrderError>)
    requires db.Valid()
    modifies db`orders, db`tickets, db`nextId
    ensures db.Valid()
    ensures FlightsHaveAirplanes(db.flights, db.airplanes)
    ensures r.Success? <==>
      ValidateOrder(requests, db.flights, db.airplanes, check).Pass? && BatchFits(old(db.tickets), requests)
    ensures |requests| == 0 ==> r == Failure(EmptyTickets)
    ensures ValidateOrder(requests, db.flights, db.airplanes, check).Fail? ==>
      r == Failure(ValidateOrder(requests, db.flights, db.airplanes, check).error)
    ensures r.Failure? ==> (r.error.SeatConflict? <==> ValidateOrder(requests, db.flights, db.airplanes, check).Pass?)
    ensures r.Failure? ==> db.orders == old(db.orders) && db.tickets == old(db.tickets) && db.nextId == old(db.nextId)
    ensures r.Failure? && r.error.SeatConflict? ==> (r.error.index < |requests| &&
      BatchFits(old(db.tickets), requests[..r.error.index]) &&
      !BatchFits(old(db.tickets), requests[..r.error.index + 1]))
    ensures r.Success? ==> (r.value == old(db.nextId) && r.value !in old(db.orders) &&
      db.orders == old(db.orders)[r.value := Order(createdAt, user)] &&
      db.tickets == BookedTickets(old(db.tickets), requests, r.value) &&
      db.nextId == old(db.nextId) + 1 + |requests|)
    ensures r.Success? ==> forall id :: id in old(db.tickets) ==> id in db.tickets && db.tickets[id] == old(db.tickets)[id]
  {
    assert FlightsHaveAirplanes(db.flights, db.airplanes) by {
      assert FlightsValid(db.flights, db.routes, db.airplanes, db.crews);
    }
    var valid := ValidateOrder(requests, db.flights, db.airplanes, check);
    if valid.Fail? {
      return Failure(valid.error);
    }
    assert forall j :: 0 <= j < |requests| ==> TicketValid(requests[j], db.flights, db.airplanes, check);
    r := PlaceOrder(db, user, createdAt, requests);
  }
}
