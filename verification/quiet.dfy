/**
  The service's methods as runs of events, when nobody else comes between them: what the
  steps of a reading, of a delete and of a request add up to.
 */
module Quiet {
  import opened Strings
  import opened PlaceKeys
  import opened SliceUtils
  import opened Results
  import opened CacheSpec
  import opened Tickets
  import opened Booking
  import opened Runs

  // The stores agree, and nobody is in the middle of a reading or a delete.
  ghost predicate Settled(s: System) {
    Consistent(s) && Inv(s.cache) && s.readers == map[] && s.deletions == map[]
  }

  lemma SettledIsSound(s: System)
    requires Settled(s)
    ensures Sound(s) && Inv(s.cache) && CacheKept(s)
    ensures s.readers == map[] && s.deletions == map[]
  {
    assert Gone(s.deletions) == {};
  }

  lemma NothingGone()
    ensures Gone(map[]) == {}
  {
  }

  // A change of the cache that brings in no record.
  lemma SettledCache(s: System, c: Cache)
    requires Settled(s) && Inv(c)
    requires forall id :: id in View(c) ==> id in View(s.cache) && View(c)[id] == View(s.cache)[id]
    requires forall n :: n in c.names && c.names[n].Record? ==> n in s.cache.names && s.cache.names[n] == c.names[n]
    ensures Settled(s.(cache := c))
  {
    hide View, Named, TicketsTraced, RecordsIssued, DeletionsRight, Distinct, KeysBacked, PlacesKeyed;
    CacheSound(s, s.(cache := c));
    OthersKeepSeats(s, s.(cache := c));
  }

  // ---------- readings ----------

  function Reading(screening: int64): seq<Event> {
    [ReadMembers(0, screening), ReadValues(0), RemoveStale(0)]
  }

  function Readings(screenings: seq<int64>): seq<Event> {
    if screenings == [] then []
    else Readings(screenings[..|screenings| - 1]) + Reading(screenings[|screenings| - 1])
  }

  lemma {:induction false} ReadingsClean(s: System, screenings: seq<int64>)
    requires s.readers == map[]
    ensures Run(s, Readings(screenings)) == s.(cache := CleanAll(s.cache, screenings))
  {
    hide Do, Clean;
    if screenings != [] {
      var front, last := screenings[..|screenings| - 1], screenings[|screenings| - 1];
      var before := s.(cache := CleanAll(s.cache, front));
      ReadingsClean(s, front);
      RunConcat(s, Readings(front), Reading(last));
      RunThree(before, ReadMembers(0, last), ReadValues(0), RemoveStale(0));
      ReadingCleans(before, 0, last);
    }
  }

  lemma CleanOne(c: Cache, screening: int64)
    ensures CleanAll(c, [screening]) == Clean(c, screening)
  {
    hide Clean;
    assert [screening][..0] == [];
  }

  lemma ReadingsSettle(s: System, screenings: seq<int64>)
    requires Settled(s)
    ensures Settled(Run(s, Readings(screenings)))
    ensures Run(s, Readings(screenings)) == s.(cache := CleanAll(s.cache, screenings))
    ensures View(CleanAll(s.cache, screenings)) == View(s.cache)
  {
    SettledIsSound(s);
    assert Named(s.cache);
    hide Settled, Sound, CacheKept, Inv, View, CleanAll, Run, Named, Readings;
    ReadingsClean(s, screenings);
    CleanAllRefines(s.cache, screenings);
    CleanAllNamed(s.cache, screenings);
    SettledCache(s, CleanAll(s.cache, screenings));
  }

  // ---------- deletes ----------

  function WholeDelete(id: Name): seq<Event> {
    [ReadForDelete(0, id), Unindex(0), DropReserved(0)]
  }

  lemma DeletionSettles(s: System, id: Name)
    requires Settled(s)
    ensures Settled(Run(s, WholeDelete(id)))
    ensures Run(s, WholeDelete(id)) == s.(cache := Delete(s.cache, id))
  {
    SettledIsSound(s);
    hide Settled, Sound, CacheKept, Inv, View, Delete, Run, Do;
    RunThree(s, ReadForDelete(0, id), Unindex(0), DropReserved(0));
    DeletingDeletes(s, 0, id);
    DeleteRefines(s.cache, id);
    DeleteRecords(s.cache, id);
    SettledCache(s, Delete(s.cache, id));
  }

  // ---------- a request ----------

  // Which store's reply comes first, and which stores answer. A reply that is a failure
  // ends the wait, with no error: what came in by then is taken for everything.
  datatype Replies = Replies(cacheFirst: bool, tickets: bool, cache: bool)

  predicate SeesTickets(a: Replies) {
    a.tickets && (a.cacheFirst ==> a.cache)
  }

  predicate SeesCache(a: Replies) {
    a.cache && (!a.cacheFirst ==> a.tickets)
  }

  // A request's look-up of the cache: a reading that the request waits for, or one that
  // goes on although nobody does.
  function CacheLook(request: nat, body: Reservation, a: Replies): seq<Event> {
    if !a.cache then [LookUpCache(request, body, 0, false)]
    else if !SeesCache(a) then Reading(body.screening)
    else [ReadMembers(0, body.screening), LookUpCache(request, body, 0, true), RemoveStale(0)]
  }

  function LookUps(request: nat, body: Reservation, a: Replies): seq<Event> {
    var tickets := [LookUpTickets(request, body, a.tickets)];
    if a.cacheFirst then CacheLook(request, body, a) + tickets else tickets + CacheLook(request, body, a)
  }

  // Free for all that the replies show.
  ghost predicate SeemsFree(s: System, body: Reservation, a: Replies) {
    (SeesTickets(a) ==> Unsold(s, body)) && (SeesCache(a) ==> Unreserved(s, body))
  }

  lemma RunOne(s: System, e: Event)
    ensures Run(s, [e]) == Do(s, e)
  {
    hide Do;
    assert [e][..0] == [];
  }

  ghost predicate MayAsk(s: System, request: nat, body: Reservation) {
    var r := Asking(s, request, body);
    Distinct(body.places) && r.body == body && !r.written && r.cache.None? && r.tickets != Some(NoReply)
  }

  lemma LookUpCacheTells(s: System, request: nat, body: Reservation)
    requires Awaits(s, 0) && s.readers[0].screening == body.screening && MayAsk(s, request, body)
    ensures var look := Some(Reply(true, ShowsFree(s, s.readers[0].members, body)));
      Do(s, LookUpCache(request, body, 0, true)) ==
      s.(readers := s.readers[0 := Valued(s, s.readers[0])],
         requests := s.requests[request := Asking(s, request, body).(cache := look)])
  {
    hide ShowsFree, Valued, Distinct;
  }

  lemma RemovingEnds(s: System)
    requires 0 in s.readers && s.readers[0].stale.Some?
    ensures Do(s, RemoveStale(0)) ==
            s.(cache := Remove(s.cache, s.readers[0].screening, s.readers[0].stale.value), readers := s.readers - {0})
  {
  }

  lemma ReadingStarts(s: System, request: nat, body: Reservation)
    requires Inv(s.cache) && s.readers == map[] && s.deletions == map[] && MayAsk(s, request, body)
    ensures var started := Do(s, ReadMembers(0, body.screening));
      && started == s.(readers := map[0 := Reader(body.screening, Index(s.cache, body.screening), None)])
      && MayAsk(started, request, body) && Asking(started, request, body) == Asking(s, request, body)
      && ShowsFree(started, Index(s.cache, body.screening), body) == Unreserved(s, body)
  {
    NothingGone();
    hide Index, ShowsFree, Unreserved, InvBut, Distinct, View;
    ShowsExactly(s, body);
    SameStores(s, Do(s, ReadMembers(0, body.screening)), body);
  }

  // A reading with a request waiting for it does what any reading does, and tells it.
  lemma LookCleans(s: System, request: nat, body: Reservation)
    requires Inv(s.cache) && s.readers == map[] && s.deletions == map[] && MayAsk(s, request, body)
    ensures var look := Some(Reply(true, Unreserved(s, body)));
      Run(s, [ReadMembers(0, body.screening), LookUpCache(request, body, 0, true), RemoveStale(0)]) ==
      s.(cache := Clean(s.cache, body.screening),
         requests := s.requests[request := Asking(s, request, body).(cache := look)])
  {
    ReadingStarts(s, request, body);
    hide Run, Clean, Remove, Index, ShowsFree, Unreserved, Inv, InvBut, Distinct, View, Do, MayAsk, Asking;
    var started := Do(s, ReadMembers(0, body.screening));
    CleanIsRemove(s.cache, body.screening);
    RunThree(s, ReadMembers(0, body.screening), LookUpCache(request, body, 0, true), RemoveStale(0));
    LookUpCacheTells(started, request, body);
    var looked := Do(started, LookUpCache(request, body, 0, true));
    RemovingEnds(looked);
    assert looked.readers - {0} == map[];
  }

  lemma CacheLookAddsUp(s: System, request: nat, body: Reservation, a: Replies)
    requires Inv(s.cache) && s.readers == map[] && s.deletions == map[] && (SeesCache(a) ==> MayAsk(s, request, body))
    ensures var look := Some(Reply(true, Unreserved(s, body)));
      Run(s, CacheLook(request, body, a)) ==
      if !a.cache then Do(s, LookUpCache(request, body, 0, false))
      else if !SeesCache(a) then s.(cache := Clean(s.cache, body.screening))
      else s.(cache := Clean(s.cache, body.screening),
              requests := s.requests[request := Asking(s, request, body).(cache := look)])
  {
    hide Inv, Run, Do, Clean, Unreserved, MayAsk;
    if !a.cache {
      RunOne(s, LookUpCache(request, body, 0, false));
    } else if !SeesCache(a) {
      RunThree(s, ReadMembers(0, body.screening), ReadValues(0), RemoveStale(0));
      ReadingCleans(s, 0, body.screening);
    } else {
      LookCleans(s, request, body);
    }
  }

  // The request when its look-ups are over.
  ghost function Replied(s: System, body: Reservation, a: Replies): Request {
    Request(body,
            if a.cacheFirst && !a.cache then None else Some(Reply(a.tickets, Unsold(s, body))),
            if !a.cacheFirst && !a.tickets then None else Some(Reply(a.cache, Unreserved(s, body))),
            false)
  }

  lemma TicketsTell(s: System, request: nat, body: Reservation, answered: bool)
    requires var r := Asking(s, request, body);
      Distinct(body.places) && r.body == body && !r.written && r.tickets.None?
    ensures var look := Some(Reply(answered, Unsold(s, body)));
      Do(s, LookUpTickets(request, body, answered)) ==
      if Asking(s, request, body).cache == Some(NoReply) then s
      else s.(requests := s.requests[request := Asking(s, request, body).(tickets := look)])
  {
    hide Unsold, Distinct;
  }

  lemma CacheFails(s: System, request: nat, body: Reservation)
    ensures MayAsk(s, request, body) ==>
      Do(s, LookUpCache(request, body, 0, false)) ==
      s.(requests := s.requests[request := Asking(s, request, body).(cache := Some(NoReply))])
    ensures Asking(s, request, body).tickets == Some(NoReply) ==> Do(s, LookUpCache(request, body, 0, false)) == s
  {
    hide ShowsFree, Distinct;
  }

  lemma StillUnsold(s: System, s': System, body: Reservation)
    requires s'.tickets == s.tickets
    ensures Unsold(s', body) == Unsold(s, body)
  {
    hide Occupied;
  }

  lemma StillUnreserved(s: System, s': System, body: Reservation)
    requires s'.cache == s.cache
    ensures Unreserved(s', body) == Unreserved(s, body)
  {
  }

  lemma CacheFirstAddsUp(s: System, request: nat, body: Reservation, a: Replies)
    requires Inv(s.cache) && s.readers == map[] && s.deletions == map[]
    requires request !in s.requests && Distinct(body.places) && a.cacheFirst
    ensures Run(s, LookUps(request, body, a)) ==
      s.(cache := if a.cache then Clean(s.cache, body.screening) else s.cache,
         requests := s.requests[request := Replied(s, body, a)])
  {
    hide Inv, Run, Do, Clean, Unsold, Unreserved, CacheLook, Distinct;
    var looked, e := Run(s, CacheLook(request, body, a)), LookUpTickets(request, body, a.tickets);
    RunConcat(s, CacheLook(request, body, a), [e]);
    RunOne(looked, e);
    CacheLookAddsUp(s, request, body, a);
    if a.cache {
      StillUnsold(s, looked, body);
    } else {
      CacheFails(s, request, body);
    }
    TicketsTell(looked, request, body, a.tickets);
  }

  lemma TicketsFirstAddsUp(s: System, request: nat, body: Reservation, a: Replies)
    requires Inv(s.cache) && s.readers == map[] && s.deletions == map[]
    requires request !in s.requests && Distinct(body.places) && !a.cacheFirst
    ensures Run(s, LookUps(request, body, a)) ==
      s.(cache := if a.cache then Clean(s.cache, body.screening) else s.cache,
         requests := s.requests[request := Replied(s, body, a)])
  {
    hide Inv, Run, Do, Clean, Unsold, Unreserved, CacheLook, Distinct;
    var looked, e := Do(s, LookUpTickets(request, body, a.tickets)), LookUpTickets(request, body, a.tickets);
    RunConcat(s, [e], CacheLook(request, body, a));
    RunOne(s, e);
    TicketsTell(s, request, body, a.tickets);
    assert looked == s.(requests := looked.requests);
    CacheLookAddsUp(looked, request, body, a);
    if a.cache {
      StillUnreserved(s, looked, body);
    } else {
      CacheFails(looked, request, body);
    }
  }

  lemma AskingSettles(s: System, s': System)
    requires Settled(s) && s' == s.(requests := s'.requests)
    requires forall r :: r in s'.requests ==> Distinct(s'.requests[r].body.places)
    ensures Settled(s')
  {
    hide View, Named, TicketsTraced, RecordsIssued, DeletionsRight, Distinct;
    CacheSound(s, s');
    OthersKeepSeats(s, s');
  }

  lemma RequestsDistinct(s: System)
    requires Sound(s)
    ensures forall r :: r in s.requests ==> Distinct(s.requests[r].body.places)
  {
  }

  // What the look-ups add up to: the index is cleaned if the cache answers, waited for or
  // not, and the request goes on exactly if its places are free for all it was told.
  lemma LookUpsSettle(s: System, request: nat, body: Reservation, a: Replies)
    requires Settled(s) && request !in s.requests && Distinct(body.places)
    ensures var s' := Run(s, LookUps(request, body, a));
      && s' == s.(cache := if a.cache then Clean(s.cache, body.screening) else s.cache, requests := s'.requests)
      && Settled(s') && request in s'.requests && s'.requests[request].body == body
      && (Passed(s', request) <==> SeemsFree(s, body, a))
  {
    SettledIsSound(s);
    RequestsDistinct(s);
    hide Settled, Sound, CacheKept, Inv, Run, Clean, CleanAll, Unsold, Unreserved, LookUps, Readings, Distinct, View;
    var cleaned := s.(cache := if a.cache then Clean(s.cache, body.screening) else s.cache);
    ReadingsSettle(s, [body.screening]);
    CleanOne(s.cache, body.screening);
    assert a.cache || cleaned == s;
    if a.cacheFirst {
      CacheFirstAddsUp(s, request, body, a);
    } else {
      TicketsFirstAddsUp(s, request, body, a);
    }
    AskingSettles(cleaned, Run(s, LookUps(request, body, a)));
  }

  // A write leaves the stores settled exactly if what it writes is free.
  lemma WriteSettles(s: System, request: nat, id: Name, ttl: nat)
    requires Settled(s) && Possible(s, WriteReservation(request, id, ttl))
    ensures var body, s' := s.requests[request].body, Do(s, WriteReservation(request, id, ttl));
      && s' == s.(cache := Reserve(s.cache, id, body, ttl), requests := s'.requests, issued := s.issued + {id})
      && (Settled(s') <==> Free(s, body))
  {
    SettledIsSound(s);
    var e := WriteReservation(request, id, ttl);
    NothingGone();
    assert Consistent(s);
    StepConsistentExactly(s, e);
    StepKeepsCacheExactly(s, e);
    hide Sound, Consistent, InvBut, View, Reserve, Unsold, Unreserved, Gone;
  }

  lemma CleanKeepsFree(s: System, s': System, body: Reservation)
    requires Sound(s) && s'.tickets == s.tickets
    requires s'.cache == s.cache || s'.cache == Clean(s.cache, body.screening)
    ensures Unsold(s', body) == Unsold(s, body) && Unreserved(s', body) == Unreserved(s, body)
  {
    CleanNamed(s.cache, body.screening);
    hide View, Clean, Named, Occupied, NoneReserved;
  }

  ghost function ReserveSteps(s: System, request: nat, id: Name, body: Reservation, ttl: nat, offered: bool,
                              a: Replies): seq<Event>
  {
    var looks := LookUps(request, body, a);
    if offered && Passed(Run(s, looks), request) then looks + [WriteReservation(request, id, ttl)] else looks
  }

  lemma FreshName(s: System, id: Name)
    requires Sound(s) && id.OtherName? && id !in s.issued
    ensures id !in s.cache.names
  {
    FreshId(s, id);
  }

  // What a request adds up to: it writes exactly if its places are offered and free for
  // all it was told, and leaves the stores settled exactly if they then are free.
  lemma ReserveStepsAddUp(s: System, request: nat, id: Name, body: Reservation, ttl: nat, offered: bool, a: Replies)
    requires Settled(s) && request !in s.requests && Distinct(body.places)
    requires id.OtherName? && id !in s.issued && ttl > 0
    ensures var s' := Run(s, ReserveSteps(s, request, id, body, ttl, offered, a));
            var cache := if a.cache then Clean(s.cache, body.screening) else s.cache;
            var writes := offered && SeemsFree(s, body, a);
      && s' == s.(cache := s'.cache, requests := s'.requests, issued := s'.issued)
      && s'.cache == (if writes then Reserve(cache, id, body, ttl) else cache)
      && s'.issued == (if writes then s.issued + {id} else s.issued)
      && id !in cache.names && Inv(cache)
      && (Settled(s') <==> (writes ==> Free(s, body)))
  {
    SettledIsSound(s);
    hide Settled, Sound, CacheKept, Inv, Run, Do, Clean, Reserve, Unsold, Unreserved, LookUps, Distinct, View, Passed;
    var looks, write := LookUps(request, body, a), WriteReservation(request, id, ttl);
    var looked := Run(s, looks);
    LookUpsSettle(s, request, body, a);
    SettledIsSound(looked);
    FreshName(looked, id);
    RunLast(s, looks, write);
    CleanKeepsFree(s, looked, body);
    if offered && SeemsFree(s, body, a) {
      WriteSettles(looked, request, id, ttl);
    }
  }

  // ---------- steps of their own ----------

  lemma ReadSettles(s: System, id: Name)
    requires Settled(s) && id in View(s.cache)
    ensures Do(s, ReadReservation(id)) == s.(seen := s.seen[id := View(s.cache)[id].body])
    ensures Settled(Do(s, ReadReservation(id))) && Distinct(View(s.cache)[id].body.places)
  {
    SettledIsSound(s);
    RecordDistinct(s.cache, id);
    assert Consistent(s);
    hide Consistent, Inv, Named, View, Distinct;
    PromptStepConsistent(s, ReadReservation(id));
  }

  // Inserting in time settles, and the race of the new order's goroutines starts there.
  lemma InsertSettles(s: System, e: Event)
    requires Settled(s) && e.InsertOrder? && Possible(s, e) && e.id in View(s.cache)
    ensures Settled(Do(s, e)) && SumPrices(Do(s, e).tickets, e.orderId) == e.price * |e.ticketIds|
    ensures var body := s.seen[e.id];
            Do(s, e) == s.(tickets := s.tickets + NewTickets(e.ticketIds, e.orderId, e.ownerId, e.date, body.screening,
                                                             body.places, e.price),
                           origin := s.origin[e.orderId := e.id])
    ensures Race.Starts(Race.State(Do(s, e).tickets, Race.Paying(3), Race.Sending, Race.Finished), e.orderId)
  {
    SettledIsSound(s);
    assert Consistent(s);
    hide Consistent, Sound, Inv, View, SumPrices, Race.Starts, CacheKept;
    PromptStepConsistent(s, e);
    NewOrderPrice(s, e);
    NewOrderStartsRace(s, e);
  }

  lemma StatusSettles(s: System, update: Update)
    requires Settled(s)
    ensures Settled(Do(s, ChangeStatus(update)))
  {
    assert Consistent(s);
    hide Consistent, Inv, Apply;
    PromptStepConsistent(s, ChangeStatus(update));
  }
}
