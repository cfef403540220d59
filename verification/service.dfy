/**
  internal/service/service.go over the two stores. Each method's effect on the whole
  system is a run of the state machine in Booking; each method runs by itself here, and
  Runs has its steps interleaved. Replies of other services and fresh ids are parameters,
  and goroutines are handed out as the chains of Race.
 */
module Service {
  import opened Strings
  import opened PlaceKeys
  import opened SliceUtils
  import opened Results
  import opened CacheSpec
  import opened TypedNames
  import opened ReservationCache
  import opened Tickets
  import opened OrdersRepo
  import opened Listing
  import PaymentService
  import Race
  import Quiet
  import Booking
  import Runs

  datatype Screening = Screening(places: seq<Place>, startTime: int)

  // The screening is ahead, and has every place asked for.
  ghost predicate Offers(reply: Result<Screening>, now: int, toReserve: seq<Place>) {
    reply.Ok? && reply.value.startTime > now && forall p :: p in toReserve ==> p in reply.value.places
  }

  lemma SeenAs(places: seq<Place>)
    ensures Elements(places) == set p | p in places
  {
  }

  // The replies in the order they come in, merged up to the first failure.
  method MergeReplies(occupied: seq<Place>, reserved: seq<Place>, a: Quiet.Replies) returns (places: seq<Place>)
    ensures Distinct(places)
    ensures Elements(places) == (if Quiet.SeesTickets(a) then Elements(occupied) else {})
                                + (if Quiet.SeesCache(a) then Elements(reserved) else {})
  {
    places := [];
    assert Elements(places) == {} && Distinct(places);
    hide Elements, Distinct;
    if a.cacheFirst {
      if !a.cache {
        return;
      }
      places := UniqueMergeSlices(places, reserved);
      if !a.tickets {
        return;
      }
      places := UniqueMergeSlices(places, occupied);
    } else {
      if !a.tickets {
        return;
      }
      places := UniqueMergeSlices(places, occupied);
      if !a.cache {
        return;
      }
      places := UniqueMergeSlices(places, reserved);
    }
  }

  method AnyTaken(occupied: seq<Place>, toReserve: seq<Place>) returns (taken: bool)
    ensures taken <==> exists p :: p in toReserve && p in Elements(occupied)
  {
    for i := 0 to |toReserve|
      invariant forall k :: 0 <= k < i ==> toReserve[k] !in occupied
    {
      taken := Compare(occupied, toReserve[i]);
      if taken {
        assert toReserve[i] in toReserve && toReserve[i] in Elements(occupied);
        return;
      }
    }
    taken := false;
  }

  // Checking place existence in the screening's places.
  method AllExist(hall: seq<Place>, toReserve: seq<Place>) returns (exist: bool)
    ensures exist <==> forall p :: p in toReserve ==> p in hall
  {
    for i := 0 to |toReserve|
      invariant forall k :: 0 <= k < i ==> toReserve[k] in hall
    {
      var isSeatExist := false;
      for j := 0 to |hall|
        invariant !isSeatExist && toReserve[i] !in hall[..j]
      {
        if toReserve[i].row == hall[j].row && toReserve[i].seat == hall[j].seat {
          isSeatExist := true;
          break;
        }
      }
      if !isSeatExist {
        assert hall[..|hall|] == hall;
        assert toReserve[i] in toReserve;
        return false;
      }
    }
    return true;
  }

  // What merging makes of one screening's entry.
  ghost predicate MergedEntry(id: int64, merged: map<int64, seq<Place>>, places: map<int64, seq<Place>>,
                              reply: map<int64, seq<Place>>)
    requires id in merged && (id in reply || id in places)
  {
    if id !in reply then merged[id] == places[id]
    else if id !in places then merged[id] == reply[id]
    else Distinct(merged[id]) && Elements(merged[id]) == Elements(places[id]) + Elements(reply[id])
  }

  // One store's reply, merged: the first entry for a screening is taken as it is.
  method MergeReply(places: map<int64, seq<Place>>, reply: map<int64, seq<Place>>)
    returns (merged: map<int64, seq<Place>>)
    ensures merged.Keys == places.Keys + reply.Keys
    ensures forall id :: id in merged ==> MergedEntry(id, merged, places, reply)
  {
    hide Distinct;
    merged := places;
    var rest := reply.Keys;
    while rest != {}
      invariant rest <= reply.Keys
      invariant merged.Keys == places.Keys + (reply.Keys - rest)
      invariant forall id :: id in merged && id !in rest ==> MergedEntry(id, merged, places, reply)
      invariant forall id :: id in merged && id in rest ==> merged[id] == places[id]
      decreases rest
    {
      var key :| key in rest;
      ghost var before := merged;
      if key !in merged {
        merged := merged[key := reply[key]];
      } else {
        var both := UniqueMergeSlices(merged[key], reply[key]);
        merged := merged[key := both];
      }
      rest := rest - {key};
      forall id | id in merged && id !in rest ensures MergedEntry(id, merged, places, reply) {
        assert id != key ==> MergedEntry(id, before, places, reply);
      }
    }
  }

  lemma NoEntryNoPlace(c: Collection, screening: int64)
    ensures Elements(SeatList(c, screening)) == OccupiedPlaces(c, screening)
    ensures SeatList(c, screening) == [] ==> OccupiedPlaces(c, screening) == {}
  {
    SeatListIsOccupied(c, screening);
  }

  // The two replies, the one that arrives first being stored as it comes. The cache has
  // a duplicate-free entry for every id, so the result is duplicate-free in either order.
  method MergeBoth(occupied: map<int64, seq<Place>>, reserved: map<int64, seq<Place>>, cacheFirst: bool)
    returns (places: map<int64, seq<Place>>)
    requires occupied.Keys <= reserved.Keys && forall id :: id in reserved ==> Distinct(reserved[id])
    ensures places.Keys == reserved.Keys
    ensures forall id :: id in places ==>
              Distinct(places[id]) &&
              Elements(places[id]) ==
              (if id in occupied then Elements(occupied[id]) else {}) + Elements(reserved[id])
  {
    hide Distinct, Elements;
    places := map[];
    if cacheFirst {
      places := MergeReply(places, reserved);
      places := MergeReply(places, occupied);
    } else {
      places := MergeReply(places, occupied);
      places := MergeReply(places, reserved);
    }
    assert forall id :: id in places ==> id in reserved;
  }

  method CountEach(places: map<int64, seq<Place>>) returns (counts: map<int64, uint32>)
    ensures counts.Keys == places.Keys
    ensures forall id :: id in places ==> counts[id] == |places[id]| % 0x1_0000_0000
  {
    counts := map[];
    var keys := Keys(places.Keys);
    for i := 0 to |keys|
      invariant counts.Keys == Elements(keys[..i])
      invariant forall id :: id in counts ==> id in places && counts[id] == |places[id]| % 0x1_0000_0000
    {
      assert keys[..i + 1] == keys[..i] + [keys[i]];
      assert keys[i] in Elements(keys);
      counts := counts[keys[i] := |places[keys[i]]| % 0x1_0000_0000];
    }
    assert keys[..|keys|] == keys;
  }

  // The number of places in both stores' replies.
  method CountBoth(occupied: map<int64, seq<Place>>, reserved: map<int64, seq<Place>>, cacheFirst: bool)
    returns (counts: map<int64, uint32>)
    requires occupied.Keys <= reserved.Keys && forall id :: id in reserved ==> Distinct(reserved[id])
    ensures counts.Keys == reserved.Keys
    ensures forall id :: id in counts ==>
              counts[id] == |(if id in occupied then Elements(occupied[id]) else {}) + Elements(reserved[id])|
                            % 0x1_0000_0000
  {
    var places := MergeBoth(occupied, reserved, cacheFirst);
    counts := CountEach(places);
    forall id | id in counts
      ensures counts[id] == |(if id in occupied then Elements(occupied[id]) else {}) + Elements(reserved[id])|
                            % 0x1_0000_0000
    {
      DistinctCount(places[id]);
    }
  }

  // The places counted of a screening.
  ghost function CountedIn(c: Collection, v: Holds, screening: int64, reached: bool): set<Place> {
    OccupiedPlaces(c, screening) + if reached then ReservedPlaces(v, screening) else {}
  }

  // Without the reserved places the count is the same exactly if all of them are ticketed.
  lemma CountIsWhole(c: Collection, v: Holds, screening: int64)
    ensures |CountedIn(c, v, screening, false)| <= |CountedIn(c, v, screening, true)|
    ensures |CountedIn(c, v, screening, false)| == |CountedIn(c, v, screening, true)| <==>
            ReservedPlaces(v, screening) <= OccupiedPlaces(c, screening)
  {
    hide OccupiedPlaces, ReservedPlaces;
    var some, all := CountedIn(c, v, screening, false), CountedIn(c, v, screening, true);
    assert all == some + (all - some);
    assert some == OccupiedPlaces(c, screening);
    if |some| == |all| {
      SubsetSameSize(some, all);
    }
    if ReservedPlaces(v, screening) <= OccupiedPlaces(c, screening) {
      assert some == all;
    }
  }

  // The count is of the places it covers, on 32 bits. So below 2^32 it is what a single
  // look-up lists, if the reading got through, or if every reserved place is ticketed, and
  // otherwise it is not.
  ghost predicate CountRight(c: Collection, v: Holds, screening: int64, reached: bool, count: uint32) {
    && count == |CountedIn(c, v, screening, reached)| % 0x1_0000_0000
    && (|CountedIn(c, v, screening, true)| < 0x1_0000_0000 ==>
          (count == |CountedIn(c, v, screening, true)| <==>
             reached || ReservedPlaces(v, screening) <= OccupiedPlaces(c, screening)))
  }

  lemma CountIsRight(c: Collection, v: Holds, screening: int64, reached: bool, count: uint32)
    requires count == |CountedIn(c, v, screening, reached)| % 0x1_0000_0000
    ensures CountRight(c, v, screening, reached, count)
  {
    CountIsWhole(c, v, screening);
    hide OccupiedPlaces, ReservedPlaces, CountedIn;
  }

  // The count of both replies' entries is right.
  lemma CountOfReplies(c: Collection, v: Holds, screening: int64, reached: bool, occupied: map<int64, seq<Place>>,
                       reserved: seq<Place>, count: uint32)
    requires screening in occupied <==> SeatList(c, screening) != []
    requires screening in occupied ==> occupied[screening] == SeatList(c, screening)
    requires Elements(reserved) == if reached then ReservedPlaces(v, screening) else {}
    requires count == |(if screening in occupied then Elements(occupied[screening]) else {}) + Elements(reserved)|
                      % 0x1_0000_0000
    ensures CountRight(c, v, screening, reached, count)
  {
    NoEntryNoPlace(c, screening);
    hide OccupiedPlaces, ReservedPlaces, SeatList, CountRight, Elements;
    var some := if screening in occupied then Elements(occupied[screening]) else {};
    assert some == OccupiedPlaces(c, screening);
    assert some + Elements(reserved) == CountedIn(c, v, screening, reached);
    CountIsRight(c, v, screening, reached, count);
  }

  lemma CountsMean(c: Collection, v: Holds, ids: seq<int64>, answers: seq<bool>, counts: map<int64, uint32>)
    requires |answers| == |ids|
    requires forall id :: id in counts ==> CountRight(c, v, id, ReachedLast(ids, answers, id), counts[id])
    ensures forall id :: id in counts ==>
              var occupied, reserved := OccupiedPlaces(c, id), ReservedPlaces(v, id);
              var counted := occupied + (if ReachedLast(ids, answers, id) then reserved else {});
              && counts[id] == |counted| % 0x1_0000_0000
              && (|occupied + reserved| < 0x1_0000_0000 ==>
                    (counts[id] == |occupied + reserved| <==>
                       ReachedLast(ids, answers, id) || reserved <= occupied))
  {
    hide OccupiedPlaces, ReservedPlaces, ReachedLast;
  }

  lemma UnsoldIsNotOccupied(s: Booking.System, body: Reservation)
    ensures Booking.Unsold(s, body) <==>
            forall p :: p in body.places ==> p !in OccupiedPlaces(s.tickets, body.screening)
  {
    SeatListIsOccupied(s.tickets, body.screening);
    hide Occupied, OccupiedPlaces;
  }

  lemma UnreservedIsNotListed(s: Booking.System, body: Reservation)
    requires Inv(s.cache)
    ensures Booking.Unreserved(s, body) <==>
            forall p :: p in body.places ==> p !in ReservedPlaces(View(s.cache), body.screening)
  {
    hide Inv, Reserved, ReservedPlaces, View;
    forall p
      ensures Reserved(View(s.cache), body.screening, p) <==> p in ReservedPlaces(View(s.cache), body.screening)
    {
      ReservedKey(s.cache, body.screening, p);
    }
  }

  method HasOrder(c: Collection, accountId: string, orderId: string) returns (found: bool)
    ensures found <==> exists t :: t in c && t.orderId == orderId && t.ownerId == accountId
  {
    for i := 0 to |c|
      invariant forall k :: 0 <= k < i ==> !(c[k].orderId == orderId && c[k].ownerId == accountId)
    {
      if c[i].orderId == orderId && c[i].ownerId == accountId {
        assert c[i] in c;
        return true;
      }
    }
    return false;
  }

  lemma OneElement<T>(s: seq<T>)
    requires Distinct(s)
    ensures forall x :: Elements(s) == {x} <==> |s| == 1 && s[0] == x
  {
    DistinctCount(s);
    forall x ensures Elements(s) == {x} <==> |s| == 1 && s[0] == x {
      if |s| == 1 && s[0] == x {
        assert s == [x];
      }
      if Elements(s) == {x} {
        assert |s| == 1 && s[0] in Elements(s);
      }
    }
  }

  class CinemaOrdersService {
    const repo: OrdersRepository
    const cache: ReserveCache
    const payment: PaymentService.PaymentServiceStub
    const seatReservationTime: nat
    ghost var requests: map<nat, Booking.Request>
    ghost var issued: set<Name>
    ghost var seen: map<Name, Reservation>
    ghost var origin: map<string, Name>

    ghost function System(): Booking.System
      reads this, repo, cache
    {
      Booking.System(cache.State(), repo.tickets, requests, map[], map[], issued, seen, origin)
    }

    ghost predicate Valid()
      reads this, repo, cache
    {
      Quiet.Settled(System()) && seatReservationTime > 0 && payment.repo == repo
    }

    // A service over stores that may already hold reservations and orders.
    constructor (repo: OrdersRepository, cache: ReserveCache, payment: PaymentService.PaymentServiceStub,
                 seatReservationTime: nat, ghost requests: map<nat, Booking.Request>, ghost issued: set<Name>,
                 ghost seen: map<Name, Reservation>, ghost origin: map<string, Name>)
      requires Quiet.Settled(Booking.System(cache.State(), repo.tickets, requests, map[], map[], issued, seen, origin))
      requires seatReservationTime > 0 && payment.repo == repo
      ensures Valid()
      ensures System() == Booking.System(cache.State(), repo.tickets, requests, map[], map[], issued, seen, origin)
      ensures this.repo == repo && this.cache == cache && this.payment == payment
      ensures this.seatReservationTime == seatReservationTime
    {
      this.repo, this.cache, this.payment, this.seatReservationTime := repo, cache, payment, seatReservationTime;
      this.requests, this.issued, this.seen, this.origin := requests, issued, seen, origin;
    }

    // What a screening's seats look like to a customer.
    ghost function Taken(screening: int64): set<Place>
      reads this, repo, cache
    {
      OccupiedPlaces(repo.tickets, screening) + ReservedPlaces(View(cache.State()), screening)
    }

    // What the replies that come in show of it.
    ghost function Shown(screening: int64, a: Quiet.Replies): set<Place>
      reads this, repo, cache
    {
      (if Quiet.SeesTickets(a) then OccupiedPlaces(repo.tickets, screening) else {}) +
      (if Quiet.SeesCache(a) then ReservedPlaces(View(cache.State()), screening) else {})
    }

    // Each reply merged into what has arrived, up to the first failure. The reading of the
    // cache goes on even when nobody waits for it any more.
    method GetOccupiedPlaces(screening: int64, a: Quiet.Replies) returns (places: seq<Place>)
      requires Valid()
      modifies cache`store
      ensures Valid()
      ensures System() == if a.cache then Runs.Run(old(System()), Quiet.Readings([screening])) else old(System())
      ensures View(cache.State()) == View(old(cache.State())) && repo.tickets == old(repo.tickets)
      ensures a.cache ==> cache.State() == Clean(old(cache.State()), screening)
      ensures Distinct(places) && Elements(places) == old(Shown(screening, a))
      ensures (set p | p in places) ==
              (if !a.tickets || (a.cacheFirst && !a.cache) then {}
               else set t | t in repo.tickets && t.screening == screening
                            && t.status != Canceled && t.status != Refunded :: t.place)
              + (if !a.cache || (!a.cacheFirst && !a.tickets) then {}
                 else ReservedPlaces(View(old(cache.State())), screening))
      ensures a.tickets && a.cache ==> Elements(places) == old(Taken(screening))
    {
      hide Inv, Quiet.Settled, Booking.Do, Clean, CleanAll, View, ReservedPlaces, OccupiedPlaces, SeatList, Typed;
      hide Elements, Distinct, Runs.Run, Quiet.Readings;
      Quiet.SettledIsSound(System());
      Quiet.ReadingsSettle(System(), [screening]);
      Quiet.CleanOne(cache.State(), screening);
      var occupied := repo.GetOccupiedPlaces(screening);
      var reserved := [];
      if a.cache {
        reserved := cache.GetReservedPlacesForScreening(screening);
      }
      SeatTaken(repo.tickets, screening, Place(0, 0));
      SeenAs(occupied);
      places := MergeReplies(occupied, reserved, a);
      SeenAs(places);
    }

    // For any number of screenings at once. Without the tickets there are no counts; but a
    // reading of the cache that fails is not noticed, and then tickets alone are counted.
    method GetScreeningsOccupiedPlacesCounts(ids: seq<int64>, cacheFirst: bool, tickets: bool, answers: seq<bool>)
      returns (counts: map<int64, uint32>)
      requires Valid() && |answers| == |ids|
      modifies cache`store
      ensures Valid() && System() == Runs.Run(old(System()), Quiet.Readings(Reached(ids, answers)))
      ensures View(cache.State()) == View(old(cache.State())) && repo.tickets == old(repo.tickets)
      ensures counts.Keys == if tickets then Elements(ids) else {}
      ensures forall id :: id in counts ==>
                var occupied := OccupiedPlaces(old(repo.tickets), id);
                var reserved := ReservedPlaces(View(old(cache.State())), id);
                var counted := occupied + (if ReachedLast(ids, answers, id) then reserved else {});
                && counts[id] == |counted| % 0x1_0000_0000
                && (|occupied + reserved| < 0x1_0000_0000 ==>
                      (counts[id] == |occupied + reserved| <==>
                         ReachedLast(ids, answers, id) || reserved <= occupied))
    {
      hide Inv, Quiet.Settled, Booking.Do, Clean, CleanAll, View, ReservedPlaces, OccupiedPlaces, SeatList, Typed;
      hide Distinct, Runs.Run, Quiet.Readings, Reached, ReachedLast, CountRight;
      Quiet.SettledIsSound(System());
      Quiet.ReadingsSettle(System(), Reached(ids, answers));
      ghost var c, v := repo.tickets, View(cache.State());
      var reserved := cache.GetScreeningsReservedPlaces(ids, answers);
      if !tickets {
        return map[];
      }
      var occupied := repo.GetScreeningsOccupiedPlaces(ids);
      counts := CountBoth(occupied, reserved, cacheFirst);
      hide Valid, System, Elements;
      forall id | id in counts ensures CountRight(c, v, id, ReachedLast(ids, answers, id), counts[id]) {
        CountOfReplies(c, v, id, ReachedLast(ids, answers, id), occupied, reserved[id], counts[id]);
      }
      CountsMean(c, v, ids, answers, counts);
    }

    // The replies and the screening let the request through.
    ghost predicate LetsThrough(screening: int64, toReserve: seq<Place>, reply: Result<Screening>, now: int,
                                a: Quiet.Replies)
      reads this, repo, cache
    {
      Offers(reply, now, toReserve) && forall p :: p in toReserve ==> p !in Shown(screening, a)
    }

    // Holds the places for a while if the screening offers them and nobody else is seen
    // to have them. The stores stay consistent exactly if nobody else does have them.
    method ReservePlaces(id: string, screening: int64, toReserve: seq<Place>, reply: Result<Screening>, now: int,
                         a: Quiet.Replies, ghost request: nat) returns (r: Result<string>)
      requires Valid() && IsUuid(id) && OtherName(id) !in issued && Distinct(toReserve) && request !in requests
      modifies this`requests, this`issued, cache`store
      ensures System() == Runs.Run(old(System()),
                Quiet.ReserveSteps(old(System()), request, OtherName(id), Reservation(toReserve, screening),
                             seatReservationTime, Offers(reply, now, toReserve), a))
      ensures repo.tickets == old(repo.tickets)
      ensures r == if exists p :: p in toReserve && p in old(Shown(screening, a)) then Err(Conflict)
                   else if reply.Err? then Err(reply.code)
                   else if reply.value.startTime <= now then Err(InvalidArgument)
                   else if exists p :: p in toReserve && p !in reply.value.places then Err(InvalidArgument)
                   else if toReserve == [] then Err(Internal)
                   else Ok(id)
      ensures Valid() <==> (old(LetsThrough(screening, toReserve, reply, now, a)) ==>
                              forall p :: p in toReserve ==> p !in old(Taken(screening)))
      ensures a.tickets && a.cache ==> Valid()
    {
      hide Inv, Quiet.Settled, Clean, View, ReservedPlaces, OccupiedPlaces, Typed, ReadName, IsUuid, Reserve;
      hide Booking.Unsold, Booking.Unreserved, Quiet.ReserveSteps, Booking.Do, Runs.Run, Quiet.Readings;
      ghost var before := System();
      ghost var body := Reservation(toReserve, screening);
      ghost var offered := Offers(reply, now, toReserve);
      Quiet.SettledIsSound(before);
      UnsoldIsNotOccupied(before, body);
      UnreservedIsNotListed(before, body);
      Quiet.ReserveStepsAddUp(before, request, OtherName(id), body, seatReservationTime, offered, a);
      ghost var steps := Quiet.ReserveSteps(before, request, OtherName(id), body, seatReservationTime, offered, a);
      ghost var after := Runs.Run(before, steps);
      var occupied := GetOccupiedPlaces(screening, a);
      requests := after.requests;
      var conflict := AnyTaken(occupied, toReserve);
      if conflict {
        return Err(Conflict);
      }
      if reply.Err? {
        return Err(reply.code);
      }
      var offer := reply.value;
      if offer.startTime <= now {
        return Err(InvalidArgument);
      }
      var exist := AllExist(offer.places, toReserve);
      if !exist {
        return Err(InvalidArgument);
      }
      TypedLookup(cache.store, id);
      ReadUuid(id);
      r := cache.ReservePlaces(id, screening, toReserve, seatReservationTime);
      issued := issued + {OtherName(id)};
    }

    // Turns a reservation into an order awaiting payment, at one price a place. The
    // reservation is deleted later, by DeletePlacesReservation.
    method ProcessOrder(reservationId: string, accountId: string, email: Result<string>, price: Result<uint32>,
                        orderId: string, ticketIds: seq<string>, date: int)
      returns (r: Result<string>, amount: uint32, payer: Race.Chain)
      requires Valid() && orderId !in origin
      requires Distinct(ticketIds) && Elements(ticketIds) !! Ids(repo.tickets)
      requires var v := View(cache.State()); var id := ReadName(reservationId);
               id in v ==> |ticketIds| == |v[id].body.places|
      modifies this`seen, this`origin, repo
      ensures Valid() && cache.State() == old(cache.State())
      ensures var v, id := View(old(cache.State())), ReadName(reservationId);
              r == if email.Err? then Err(email.code)
                   else if id !in v then Err(if Alive(old(cache.State()), id) then Internal else NotFound)
                   else if v[id].body.places == [] then Err(NotFound)
                   else if price.Err? then Err(price.code)
                   else Ok(payment.paymentUrl)
      ensures var v, id := View(old(cache.State())), ReadName(reservationId);
              var read := Booking.Do(old(System()), Booking.ReadReservation(id));
              System() == if email.Err? || id !in v then old(System())
                          else if r.Err? then read
                          else Booking.Do(read,
                                 Booking.InsertOrder(id, orderId, accountId, ticketIds, price.value, date))
      ensures r.Err? ==> repo.tickets == old(repo.tickets)
      ensures r.Ok? ==>
                var body := View(old(cache.State()))[ReadName(reservationId)].body;
                && |repo.tickets| == |old(repo.tickets)| + |body.places|
                && repo.tickets[..|old(repo.tickets)|] == old(repo.tickets)
                && forall k :: 0 <= k < |body.places| ==>
                     repo.tickets[|old(repo.tickets)| + k] ==
                     Ticket(ticketIds[k], orderId, accountId, PaymentRequired, date, body.screening, body.places[k],
                            price.value)
      ensures r.Ok? ==> Race.Starts(Race.State(repo.tickets, payer, Race.Sending, Race.Finished), orderId)
      ensures r.Ok? ==> payer == Race.Paying(3) && amount == (price.value * |ticketIds|) % 0x1_0000_0000
                        && SumPrices(repo.tickets, orderId) == price.value * |ticketIds|
      ensures r.Ok? ==>
                forall account ::
                  AllPrices(Owned(repo.tickets, account)) ==
                  AllPrices(Owned(old(repo.tickets), account))
                  + if account == accountId then price.value * |ticketIds| else 0
    {
      hide Quiet.Settled, Inv, View, Alive, Typed, ReadName, Race.Starts, Booking.Do, NewTickets;
      hide Owned, AllPrices, SumPrices;
      amount, payer := 0, Race.Finished;
      if email.Err? {
        return Err(email.code), amount, payer;
      }
      ghost var id := ReadName(reservationId);
      ghost var before := System();
      var reply := cache.GetReservation(reservationId);
      if reply.Err? {
        return Err(reply.code), amount, payer;
      }
      var body := reply.value;
      Quiet.ReadSettles(before, id);
      seen := seen[id := body];
      ghost var read := System();
      if |body.places| == 0 {
        return Err(NotFound), amount, payer;
      }
      if price.Err? {
        return Err(price.code), amount, payer;
      }
      ghost var event := Booking.InsertOrder(id, orderId, accountId, ticketIds, price.value, date);
      Quiet.InsertSettles(read, event);
      repo.ProcessOrder(orderId, accountId, body.screening, body.places, price.value, ticketIds, date);
      origin := origin[orderId := id];
      amount := (price.value * |body.places|) % 0x1_0000_0000;
      r, payer := payment.PreparePaymentURL(email.value, amount, orderId);
    }

    // The delayed delete after ProcessOrder, and CancelReservation.
    method DeletePlacesReservation(reservationId: string) returns (r: Result<()>)
      requires Valid()
      modifies cache`store
      ensures Valid() && repo.tickets == old(repo.tickets)
      ensures System() == Runs.Run(old(System()), Quiet.WholeDelete(ReadName(reservationId)))
      ensures r.Ok? <==> Deletable(old(cache.State()), ReadName(reservationId))
    {
      hide Inv, Quiet.Settled, Delete, View, Typed, ReadName, Runs.Run, Quiet.WholeDelete;
      Quiet.DeletionSettles(System(), ReadName(reservationId));
      r := cache.DeletePlacesReservation(reservationId);
    }

    // An order whose notification was not delivered is refunded if it is paid for, and
    // canceled if it still awaits payment; anything else is left alone.
    method SendOrderCreatedNotification(accountId: string, orderId: string, delivered: bool)
      returns (refunder: Race.Chain)
      requires Valid()
      modifies repo
      ensures Valid() && cache.State() == old(cache.State())
      ensures var found := exists t :: t in old(repo.tickets) && t.orderId == orderId && t.ownerId == accountId;
              var statuses := set t | t in old(repo.tickets) && t.orderId == orderId && !t.status.Unlisted? :: t.status;
        && refunder == (if found && !delivered && statuses == {Paid}
                           && SumPrices(old(repo.tickets), orderId) < 0x1_0000_0000
                        then Race.Awaiting(3) else Race.Finished)
        && repo.tickets == if found && !delivered && statuses == {PaymentRequired}
                           then Apply(old(repo.tickets), WholeOrder(orderId, Canceled)) else old(repo.tickets)
    {
      hide Quiet.Settled, View, Typed;
      refunder := Race.Finished;
      Quiet.StatusSettles(System(), WholeOrder(orderId, Canceled));
      var found := HasOrder(repo.tickets, accountId, orderId);
      if !found || delivered {
        return;
      }
      var statuses := repo.GetOrderItemsStatuses(orderId);
      OneElement(statuses);
      if |statuses| != 1 {
        return;
      }
      if statuses[0] == Paid {
        var requested;
        requested, refunder := payment.RequestOrderRefund(100, orderId);
      } else if statuses[0] == PaymentRequired {
        repo.CancelOrder(orderId);
      }
    }
  }
}
