/**
  internal/repository/mongorepository/cinemaOrdersRepository.go. UpdateMany, Find and
  Aggregate have the meaning Tickets gives them; a transaction that does not commit
  leaves the collection as it was.
 */
module OrdersRepo {
  import opened Strings
  import opened PlaceKeys
  import opened SliceUtils
  import opened Results
  import opened Tickets
  import opened Listing

  // The projection of a Find, in natural order.
  function SeatList(c: Collection, screening: int64): seq<Place> {
    if c == [] then []
    else
      var t := c[|c| - 1];
      SeatList(c[..|c| - 1], screening) +
      (if t.screening == screening && Occupying(t.status) then [t.place] else [])
  }

  lemma {:induction false} SeatListIsOccupied(c: Collection, screening: int64)
    ensures Elements(SeatList(c, screening)) == OccupiedPlaces(c, screening)
    ensures forall p :: p in OccupiedPlaces(c, screening) <==> Occupied(c, screening, p)
  {
    if c != [] {
      var front, t := c[..|c| - 1], c[|c| - 1];
      SeatListIsOccupied(front, screening);
      assert c == front + [t];
      var last := if t.screening == screening && Occupying(t.status) then [t.place] else [];
      assert Elements(SeatList(front, screening) + last) == Elements(SeatList(front, screening)) + Elements(last);
      assert OccupiedPlaces(c, screening) == OccupiedPlaces(front, screening) + Elements(last);
    }
    forall p ensures p in OccupiedPlaces(c, screening) <==> Occupied(c, screening, p) {
      if p in OccupiedPlaces(c, screening) {
        var t :| t in c && t.screening == screening && Occupying(t.status) && t.place == p;
        var i :| 0 <= i < |c| && c[i] == t;
        assert TakesSeat(c[i], screening, p);
      }
    }
  }

  lemma SeatListIs(c: Collection, screening: int64)
    ensures (set p | p in SeatList(c, screening)) ==
            set t | t in c && t.screening == screening && t.status != Canceled && t.status != Refunded :: t.place
  {
    SeatListIsOccupied(c, screening);
    SeatTaken(c, screening, Place(0, 0));
    assert Elements(SeatList(c, screening)) == set p | p in SeatList(c, screening);
  }

  lemma SeatListMore(c: Collection, screening: int64, p: Place)
    requires c != []
    ensures multiset(SeatList(c, screening))[p] ==
            multiset(SeatList(c[..|c| - 1], screening))[p] + if TakesSeat(c[|c| - 1], screening, p) then 1 else 0
  {
  }

  function Takers(c: Collection, screening: int64, p: Place): set<nat> {
    set i: nat | i < |c| && TakesSeat(c[i], screening, p)
  }

  lemma TakersMore(front: Collection, t: Ticket, screening: int64, p: Place)
    ensures |Takers(front + [t], screening, p)| ==
            |Takers(front, screening, p)| + if TakesSeat(t, screening, p) then 1 else 0
  {
    hide TakesSeat;
    assert Takers(front + [t], screening, p) ==
           Takers(front, screening, p) + if TakesSeat(t, screening, p) then {|front|} else {};
  }

  lemma {:induction false} SeatListTakers(c: Collection, screening: int64, p: Place)
    ensures multiset(SeatList(c, screening))[p] == |Takers(c, screening, p)|
  {
    if c == [] {
      assert Takers(c, screening, p) == {};
    } else {
      hide SeatList, TakesSeat;
      var n := |c| - 1;
      SeatListTakers(c[..n], screening, p);
      SeatListMore(c, screening, p);
      TakersMore(c[..n], c[n], screening, p);
      assert c == c[..n] + [c[n]];
    }
  }

  // A place is listed once for each ticket that takes it.
  lemma SeatListCounts(c: Collection, screening: int64, p: Place)
    ensures multiset(SeatList(c, screening))[p] ==
            |set i: nat | i < |c| && c[i].screening == screening && c[i].place == p
                          && c[i].status != Canceled && c[i].status != Refunded|
  {
    SeatListTakers(c, screening, p);
    assert Takers(c, screening, p) ==
           set i: nat | i < |c| && c[i].screening == screening && c[i].place == p
                        && c[i].status != Canceled && c[i].status != Refunded;
  }

  class OrdersRepository {
    var tickets: Collection

    constructor ()
      ensures tickets == []
    {
      tickets := [];
    }

    method GetOccupiedPlaces(screening: int64) returns (places: seq<Place>)
      ensures places == SeatList(tickets, screening)
      ensures (set p | p in places) ==
              set t | t in tickets && t.screening == screening
                      && t.status != Canceled && t.status != Refunded :: t.place
      ensures forall p :: multiset(places)[p] ==
                          |set i: nat | i < |tickets| && tickets[i].screening == screening && tickets[i].place == p
                                        && tickets[i].status != Canceled && tickets[i].status != Refunded|
    {
      places := [];
      for i := 0 to |tickets|
        invariant places == SeatList(tickets[..i], screening)
      {
        assert tickets[..i + 1][..i] == tickets[..i];
        if tickets[i].screening == screening && Occupying(tickets[i].status) {
          places := places + [tickets[i].place];
        }
      }
      assert tickets[..|tickets|] == tickets;
      SeatListIs(tickets, screening);
      forall p {
        SeatListCounts(tickets, screening, p);
      }
    }

    // Only the screenings asked for that have an occupied place get an entry.
    method GetScreeningsOccupiedPlaces(ids: seq<int64>) returns (res: map<int64, seq<Place>>)
      ensures res.Keys == set id | id in ids && SeatList(tickets, id) != []
      ensures forall id :: id in res ==> res[id] == SeatList(tickets, id)
      ensures forall id :: id in ids ==>
                (if id in res then set p | p in res[id] else {}) ==
                set t | t in tickets && t.screening == id && t.status != Canceled && t.status != Refunded :: t.place
    {
      res := map[];
      for i := 0 to |ids|
        invariant res.Keys == set id | id in ids[..i] && SeatList(tickets, id) != []
        invariant forall id :: id in res ==> res[id] == SeatList(tickets, id)
      {
        assert ids[..i + 1] == ids[..i] + [ids[i]];
        var places := SeatList(tickets, ids[i]);
        if places != [] {
          res := res[ids[i] := places];
        }
      }
      assert ids[..|ids|] == ids;
      forall id | id in ids
        ensures (if id in res then set p | p in res[id] else {}) ==
                set t | t in tickets && t.screening == id && t.status != Canceled && t.status != Refunded :: t.place
      {
        SeatListIs(tickets, id);
      }
    }

    // Every ticket of the order moves whose status the new one may follow.
    method ChangeOrderStatus(orderId: string, newStatus: Status)
      modifies this
      ensures tickets == Apply(old(tickets), WholeOrder(orderId, newStatus))
      ensures |tickets| == |old(tickets)| && forall i :: 0 <= i < |tickets| ==>
                var t := old(tickets)[i];
                tickets[i] ==
                if t.orderId == orderId && Follows(t.status, newStatus) then t.(status := newStatus) else t
    {
      tickets := SetMatching(tickets, WholeOrder(orderId, newStatus));
    }

    method CancelOrder(orderId: string)
      modifies this
      ensures tickets == Apply(old(tickets), WholeOrder(orderId, Canceled))
      ensures |tickets| == |old(tickets)| && forall i :: 0 <= i < |tickets| ==>
                var t := old(tickets)[i];
                tickets[i] == if t.orderId == orderId && t.status == PaymentRequired then t.(status := Canceled) else t
    {
      tickets := SetMatching(tickets, WholeOrder(orderId, Canceled));
    }

    // A transaction over the listed items: every one of them changes, or none does.
    method ChangeOrderItemsStatus(orderId: string, itemsIds: seq<string>, newStatus: Status) returns (r: Result<()>)
      requires UniqueIds(tickets)
      modifies this
      ensures tickets == Apply(old(tickets), Items(orderId, itemsIds, newStatus))
      ensures r.Ok? <==> Commits(old(tickets), Items(orderId, itemsIds, newStatus))
      ensures var movable := set t | t in old(tickets) && t.orderId == orderId && Follows(t.status, newStatus) :: t.id;
              r.Ok? <==> (forall j, k :: 0 <= j < k < |itemsIds| ==> itemsIds[j] != itemsIds[k])
                         && (forall k :: 0 <= k < |itemsIds| ==> itemsIds[k] in movable)
      ensures r.Ok? ==>
                forall i :: 0 <= i < |tickets| ==>
                  tickets[i] == if old(tickets)[i].id in itemsIds then old(tickets)[i].(status := newStatus)
                                else old(tickets)[i]
      ensures r.Err? ==> r == Err(NotFound) && tickets == old(tickets)
    {
      var u := Items(orderId, itemsIds, newStatus);
      ItemsCommitExactly(tickets, orderId, itemsIds, newStatus);
      var modified := ModifiedCount(tickets, u);
      if modified != |itemsIds| {
        return Err(NotFound);
      }
      tickets := SetMatching(tickets, u);
      return Ok(());
    }

    method ProcessOrder(orderId: string, ownerId: string, screening: int64, places: seq<Place>, price: uint32,
                        ids: seq<string>, date: int)
      requires |ids| == |places|
      modifies this
      ensures tickets == old(tickets) + NewTickets(ids, orderId, ownerId, date, screening, places, price)
      ensures |tickets| == |old(tickets)| + |places| && forall k :: 0 <= k < |places| ==>
                tickets[|old(tickets)| + k] ==
                Ticket(ids[k], orderId, ownerId, PaymentRequired, date, screening, places[k], price)
      ensures forall account :: AllPrices(Owned(tickets, account)) ==
                AllPrices(Owned(old(tickets), account)) + if account == ownerId then price * |places| else 0
    {
      var documents: Collection := [];
      for i := 0 to |places|
        invariant |documents| == i && forall k :: 0 <= k < i ==>
                    documents[k] == Ticket(ids[k], orderId, ownerId, PaymentRequired, date, screening, places[k], price)
      {
        documents := documents +
          [Ticket(ids[i], orderId, ownerId, PaymentRequired, date, screening, places[i], price)];
      }
      assert documents == NewTickets(ids, orderId, ownerId, date, screening, places, price);
      hide NewTickets, Owned, AllPrices;
      forall account {
        AccountGrows(tickets, documents, ownerId, price, account);
      }
      tickets := tickets + documents;
    }

    // The distinct statuses; ones the service does not know are skipped.
    method GetOrderItemsStatuses(orderId: string) returns (statuses: seq<Status>)
      ensures Distinct(statuses)
      ensures (set s | s in statuses) ==
              set t | t in tickets && t.orderId == orderId && !t.status.Unlisted? :: t.status
    {
      var stored := Keys(StatusSet(tickets, orderId));
      statuses := [];
      for i := 0 to |stored|
        invariant Distinct(statuses)
        invariant Elements(statuses) == set s | s in stored[..i] && !s.Unlisted?
      {
        assert stored[..i + 1] == stored[..i] + [stored[i]];
        if !stored[i].Unlisted? {
          assert stored[i] !in stored[..i];
          assert stored[i] !in Elements(statuses);
          assert Elements(statuses + [stored[i]]) == Elements(statuses) + {stored[i]};
          statuses := statuses + [stored[i]];
        }
      }
      assert stored[..|stored|] == stored;
      assert Elements(stored) == StatusSet(tickets, orderId);
      StatusKnown(tickets, orderId);
      assert Elements(statuses) == set s | s in statuses;
    }

    // Decoded into 32 bits; a total that does not fit is an error.
    method GetOrderTotalPrice(orderId: string) returns (price: Result<uint32>)
      ensures price == if SumPrices(tickets, orderId) < 0x1_0000_0000 then Ok(SumPrices(tickets, orderId))
                       else Err(Internal)
    {
      var total := 0;
      for i := 0 to |tickets|
        invariant total == SumPrices(tickets[..i], orderId)
      {
        assert tickets[..i + 1][..i] == tickets[..i];
        if tickets[i].orderId == orderId {
          total := total + tickets[i].price;
        }
      }
      assert tickets[..|tickets|] == tickets;
      if total >= 0x1_0000_0000 {
        return Err(Internal);
      }
      return Ok(total);
    }
  }
}
