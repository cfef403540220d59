/**
  Why the conditions of Runs are there: seven runs that sell one seat twice, which the code
  does not rule out. The first breaks only the condition on repeats, the second only the
  one on late inserts; the others only the one on outdated writes, each in its own way.
 */
module Counterexamples {
  import opened PlaceKeys
  import opened SliceUtils
  import opened Results
  import opened CacheSpec
  import opened Tickets
  import opened Booking
  import opened Runs

  // A screening, a seat with its key, and three customers.
  const SEAT := Reservation([Place(1, 1)], 7)
  const KEY := SeatName(7, Place(1, 1))
  const FIRST := OtherName("6ba7b810-9dad-41d1-80b4-00c04fd430c8")
  const SECOND := OtherName("6ba7b811-9dad-41d1-80b4-00c04fd430c8")
  const THIRD := OtherName("6ba7b812-9dad-41d1-80b4-00c04fd430c8")

  function LookT(request: nat): Event {
    LookUpTickets(request, SEAT, true)
  }

  // A request's look-up of the cache, by a reader with its number.
  function LookC(request: nat): seq<Event> {
    [ReadMembers(request, 7), LookUpCache(request, SEAT, request, true)]
  }

  function Keep(request: nat, id: Name): Event {
    WriteReservation(request, id, 600)
  }

  function Sale(id: Name, orderId: string, ticketId: string): Event {
    InsertOrder(id, orderId, "customer", [ticketId], 100, 0)
  }

  function Sold(orderId: string, ticketId: string): Ticket {
    Ticket(ticketId, orderId, "customer", PaymentRequired, 0, 7, Place(1, 1), 100)
  }

  function Sales(a: Name, b: Name): seq<Event> {
    [Sale(a, "order 1", "ticket 1"), Sale(b, "order 2", "ticket 2")]
  }

  lemma Different()
    ensures FIRST != SECOND && SECOND != THIRD && FIRST != THIRD
  {
    assert FIRST.text[7] != SECOND.text[7] && SECOND.text[7] != THIRD.text[7] && FIRST.text[7] != THIRD.text[7];
  }

  lemma OneSeat()
    ensures KeysOf(SEAT) == {KEY}
  {
    assert forall p :: p in SEAT.places <==> p == Place(1, 1);
  }

  // ---------- runs, one event longer at a time ----------

  lemma RunOn(run: seq<Event>, e: Event)
    ensures Run(START, run + [e]) == Do(Run(START, run), e)
    ensures Never(Late, START, run + [e]) <==> Never(Late, START, run) && !Late(Run(START, run), e)
    ensures Never(Outdated, START, run + [e]) <==> Never(Outdated, START, run) && !Outdated(Run(START, run), e)
    ensures Sound(Run(START, run)) && Sound(Run(START, run + [e]))
  {
    StartConsistent();
    hide Do, Sound, Late, Outdated, Never;
    assert (run + [e])[..|run|] == run;
    RunKeepsSound(START, run);
    RunKeepsSound(START, run + [e]);
    NeverOn(Late, START, run, e);
    NeverOn(Outdated, START, run, e);
  }

  // A step that is neither an insert nor a write.
  lemma PlainOn(run: seq<Event>, e: Event)
    requires !e.InsertOrder? && !e.WriteReservation?
    ensures Run(START, run + [e]) == Do(Run(START, run), e) && Sound(Run(START, run))
    ensures Never(Late, START, run + [e]) <==> Never(Late, START, run)
    ensures Never(Outdated, START, run + [e]) <==> Never(Outdated, START, run)
  {
    hide Do, Sound, Never, Run;
    RunOn(run, e);
  }

  lemma NoneYet()
    ensures Run(START, []) == START && Never(Late, START, []) && Never(Outdated, START, [])
  {
  }

  lemma SoldTwice(run: seq<Event>)
    requires !SellsOnce(Run(START, run))
    ensures !Always(SellsOnce, START, run)
  {
    hide Run, SellsOnce;
    assert run[..|run|] == run;
  }

  // ---------- what each event does to the seat ----------

  lemma SeesTickets(run: seq<Event>, request: nat)
    requires var s := Run(START, run); s.tickets == [] && request !in s.requests
    ensures var s, more := Run(START, run), run + [LookT(request)];
      && Run(START, more) ==
         s.(requests := s.requests[request := Request(SEAT, Some(AllFree), None, false)])
      && (Never(Late, START, more) <==> Never(Late, START, run))
      && (Never(Outdated, START, more) <==> Never(Outdated, START, run))
  {
    hide Run, Never, Sound;
    PlainOn(run, LookT(request));
  }

  // The names on the index that have no value.
  ghost function Dead(c: Cache): set<Name> {
    set k | k in Index(c, 7) && !Alive(c, k)
  }

  lemma SeesCache(run: seq<Event>, request: nat)
    requires var s := Run(START, run);
      && request in s.requests && s.requests[request] == Request(SEAT, Some(AllFree), None, false)
      && request !in s.readers && (KEY !in Index(s.cache, 7) || !Alive(s.cache, KEY))
    ensures var s, more := Run(START, run), run + LookC(request);
      && Run(START, more) ==
         s.(requests := s.requests[request := Request(SEAT, Some(AllFree), Some(AllFree), false)],
            readers := s.readers[request := Reader(7, Index(s.cache, 7), Some(Dead(s.cache)))])
      && (Never(Late, START, more) <==> Never(Late, START, run))
      && (Never(Outdated, START, more) <==> Never(Outdated, START, run))
  {
    hide Run, Never, Sound, Index, Alive;
    var e1, e2 := ReadMembers(request, 7), LookUpCache(request, SEAT, request, true);
    PlainOn(run, e1);
    PlainOn(run + [e1], e2);
    assert run + [e1] + [e2] == run + LookC(request);
  }

  // Both look-ups.
  lemma Asks(run: seq<Event>, request: nat)
    requires var s := Run(START, run);
      && s.tickets == [] && request !in s.requests && request !in s.readers
      && (KEY !in Index(s.cache, 7) || !Alive(s.cache, KEY))
    ensures var s, more := Run(START, run), run + [LookT(request)] + LookC(request);
      && Run(START, more) ==
         s.(requests := s.requests[request := Request(SEAT, Some(AllFree), Some(AllFree), false)],
            readers := s.readers[request := Reader(7, Index(s.cache, 7), Some(Dead(s.cache)))])
      && (Never(Late, START, more) <==> Never(Late, START, run))
      && (Never(Outdated, START, more) <==> Never(Outdated, START, run))
  {
    hide Run, Never, Sound, Index, Alive, Dead, LookT, LookC;
    SeesTickets(run, request);
    SeesCache(run + [LookT(request)], request);
  }

  lemma ReserveSeat(c: Cache, id: Name)
    requires id.OtherName?
    ensures var c' := Reserve(c, id, SEAT, 600);
      && Index(c', 7) == Index(c, 7) + {KEY}
      && KEY in c'.names && c'.names[KEY] == Text(KEY, c.now + 600)
  {
    OneSeat();
    hide KeysOf;
  }

  lemma Keeps(run: seq<Event>, request: nat, id: Name)
    requires var s := Run(START, run);
      && request in s.requests && s.requests[request].body == SEAT && Passed(s, request)
      && id.OtherName? && id !in s.issued
    ensures var s, more := Run(START, run), run + [Keep(request, id)]; var s' := Run(START, more);
      && s' == s.(cache := s'.cache, requests := s.requests[request := s.requests[request].(written := true)],
                  issued := s.issued + {id})
      && View(s'.cache) == View(s.cache)[id := Hold(SEAT, s.cache.now + 600)] && s'.cache.now == s.cache.now
      && Index(s'.cache, 7) == Index(s.cache, 7) + {KEY}
      && KEY in s'.cache.names && s'.cache.names[KEY] == Text(KEY, s.cache.now + 600)
      && (Never(Late, START, more) <==> Never(Late, START, run))
      && (Never(Outdated, START, more) <==>
            Never(Outdated, START, run) && Free(s, SEAT))
  {
    hide Run, Never, Sound, View, Reserve, Free, Index;
    var s := Run(START, run);
    RunOn(run, Keep(request, id));
    WriteView(s, Keep(request, id));
    ReserveSeat(s.cache, id);
  }

  lemma Reads(run: seq<Event>, id: Name)
    requires var s := Run(START, run); id in View(s.cache) && View(s.cache)[id].body == SEAT
    ensures var s, more := Run(START, run), run + [ReadReservation(id)];
      && Run(START, more) == s.(seen := s.seen[id := SEAT])
      && (Never(Late, START, more) <==> Never(Late, START, run))
      && (Never(Outdated, START, more) <==> Never(Outdated, START, run))
  {
    hide Run, Never, Sound, View;
    PlainOn(run, ReadReservation(id));
  }

  lemma Sells(run: seq<Event>, id: Name, orderId: string, ticketId: string)
    requires var s := Run(START, run);
      id in s.seen && s.seen[id] == SEAT && orderId !in s.origin && ticketId !in Ids(s.tickets)
    ensures var s, more := Run(START, run), run + [Sale(id, orderId, ticketId)];
      && Run(START, more) == s.(tickets := s.tickets + [Sold(orderId, ticketId)], origin := s.origin[orderId := id])
      && (Never(Late, START, more) <==> Never(Late, START, run) && id in View(s.cache))
      && (Never(Outdated, START, more) <==> Never(Outdated, START, run))
  {
    hide Run, Never, Sound, View;
    RunOn(run, Sale(id, orderId, ticketId));
    assert Elements([ticketId]) == {ticketId};
    assert NewTickets([ticketId], orderId, "customer", 0, 7, SEAT.places, 100) == [Sold(orderId, ticketId)];
  }

  // Time for a reservation to lapse, with its key.
  lemma Lapses(run: seq<Event>)
    requires var s := Run(START, run);
      && s.cache.now == 0 && View(s.cache) == map[FIRST := Hold(SEAT, 600)]
      && KEY in s.cache.names && s.cache.names[KEY] == Text(KEY, 600)
    ensures var s, more := Run(START, run), run + [Elapse(600)]; var s' := Run(START, more);
      && s' == s.(cache := Cache(600, s.cache.names)) && View(s'.cache) == map[] && !Alive(s'.cache, KEY)
      && (Never(Late, START, more) <==> Never(Late, START, run))
      && (Never(Outdated, START, more) <==> Never(Outdated, START, run))
  {
    hide Run, Never, Sound, View;
    PlainOn(run, Elapse(600));
    TickView(Run(START, run).cache, 600);
  }

  lemma Removes(run: seq<Event>, reader: nat)
    requires var s := Run(START, run); reader in s.readers && s.readers[reader] == Reader(7, {KEY}, Some({KEY}))
    ensures var s, more := Run(START, run), run + [RemoveStale(reader)]; var s' := Run(START, more);
      && s' == s.(cache := s'.cache, readers := s.readers - {reader})
      && View(s'.cache) == View(s.cache) && s'.cache.now == s.cache.now
      && Index(s'.cache, 7) == Index(s.cache, 7) - {KEY}
      && (KEY in s'.cache.names <==> KEY in s.cache.names)
      && (KEY in s.cache.names ==> s'.cache.names[KEY] == s.cache.names[KEY])
      && (Never(Late, START, more) <==> Never(Late, START, run))
      && (Never(Outdated, START, more) <==> Never(Outdated, START, run))
  {
    hide Run, Never, View, Named, Remove, Index, RecordsIssued, DeletionsRight, TicketsTraced;
    PlainOn(run, RemoveStale(reader));
    RemoveKeeps(Run(START, run).cache, 7, {KEY});
  }

  lemma ReadsForDelete(run: seq<Event>, deletion: nat, id: Name)
    requires var s := Run(START, run);
      id in View(s.cache) && View(s.cache)[id].body == SEAT && deletion !in s.deletions
    ensures var s, more := Run(START, run), run + [ReadForDelete(deletion, id)];
      && Run(START, more) == s.(deletions := s.deletions[deletion := Deletion(id, SEAT, false)])
      && (Never(Late, START, more) <==> Never(Late, START, run))
      && (Never(Outdated, START, more) <==> Never(Outdated, START, run))
  {
    hide Run, Never, Sound;
    PlainOn(run, ReadForDelete(deletion, id));
  }

  lemma Frees(run: seq<Event>, deletion: nat, id: Name)
    requires var s := Run(START, run); deletion in s.deletions && s.deletions[deletion] == Deletion(id, SEAT, false)
    ensures var s, more := Run(START, run), run + [Unindex(deletion), DropReserved(deletion)];
            var s' := Run(START, more);
      && s' == s.(cache := s'.cache, deletions := s.deletions - {deletion})
      && View(s'.cache) == View(s.cache) - {id} && s'.cache.now == s.cache.now && !Alive(s'.cache, KEY)
      && Index(s'.cache, 7) == Index(s.cache, 7) - {KEY}
      && (Never(Late, START, more) <==> Never(Late, START, run))
      && (Never(Outdated, START, more) <==> Never(Outdated, START, run))
  {
    hide Run, Never, View, Named, Remove, DropKeys, Index, RecordsIssued, TicketsTraced, KeysOf;
    var s, e1, e2 := Run(START, run), Unindex(deletion), DropReserved(deletion);
    OneSeat();
    PlainOn(run, e1);
    PlainOn(run + [e1], e2);
    assert DeletionRight(s, s.deletions[deletion]);
    hide DeletionsRight;
    assert run + [e1] + [e2] == run + [e1, e2];
    RemoveKeeps(s.cache, 7, {KEY});
    var c := Remove(s.cache, 7, {KEY});
    DropView(c, id, SEAT);
    DropSeats(c, id, SEAT);
  }

  // ---------- seats and holds ----------

  lemma NoTickets(s: System)
    requires s.tickets == []
    ensures Unsold(s, SEAT)
  {
  }

  lemma NoHolds(s: System)
    requires View(s.cache) == map[]
    ensures Unreserved(s, SEAT)
  {
  }

  lemma SoldSeats(s: System)
    requires s.tickets == [Sold("order 1", "ticket 1"), Sold("order 2", "ticket 2")]
    ensures !SellsOnce(s)
  {
    assert TakesSeat(s.tickets[0], 7, Place(1, 1)) && TakesSeat(s.tickets[1], 7, Place(1, 1));
  }

  lemma SellsSecond(run: seq<Event>, b: Name)
    requires var s := Run(START, run);
      && s.tickets == [Sold("order 1", "ticket 1")] && s.origin.Keys == {"order 1"} && b in s.seen && s.seen[b] == SEAT
    ensures var more := run + [Sale(b, "order 2", "ticket 2")];
      && !Always(SellsOnce, START, more)
      && (Never(Late, START, more) <==> Never(Late, START, run) && b in View(Run(START, run).cache))
      && (Never(Outdated, START, more) <==> Never(Outdated, START, run))
  {
    hide Run, Never, View, Always, SellsOnce;
    Sells(run, b, "order 2", "ticket 2");
    SoldSeats(Run(START, run + [Sale(b, "order 2", "ticket 2")]));
    SoldTwice(run + [Sale(b, "order 2", "ticket 2")]);
  }

  lemma SellsBoth(run: seq<Event>, a: Name, b: Name)
    requires var s := Run(START, run);
      && s.tickets == [] && s.origin == map[] && a in s.seen && b in s.seen && s.seen[a] == s.seen[b] == SEAT
    ensures !Always(SellsOnce, START, run + Sales(a, b))
    ensures var v := View(Run(START, run).cache);
      Never(Late, START, run + Sales(a, b)) <==> Never(Late, START, run) && a in v && b in v
    ensures Never(Outdated, START, run + Sales(a, b)) <==> Never(Outdated, START, run)
  {
    hide Run, Never, View, Always, SellsOnce, Sale;
    Sells(run, a, "order 1", "ticket 1");
    SellsSecond(run + [Sale(a, "order 1", "ticket 1")], b);
    assert run + [Sale(a, "order 1", "ticket 1")] + [Sale(b, "order 2", "ticket 2")] == run + Sales(a, b);
  }

  // No inserts, and every look-up answered.
  predicate Calm(run: seq<Event>) {
    forall e :: e in run ==> !e.InsertOrder? && (e.LookUpTickets? || e.LookUpCache? ==> e.answered)
  }

  lemma OnceEach(run: seq<Event>, a: Name, b: Name)
    requires (forall e :: e in run ==> !e.InsertOrder?) && a != b
    ensures ProcessedOnce(run + Sales(a, b))
    ensures Calm(run) ==> AlwaysAnswered(run + Sales(a, b))
  {
    var more := run + Sales(a, b);
    forall k | 0 <= k < |run| ensures !more[k].InsertOrder? {
      assert run[k] in run;
    }
  }

  // ---------- one customer books the seat ----------

  const BOOKED := [LookT(1)] + LookC(1) + [Keep(1, FIRST), ReadReservation(FIRST)]

  // The seat is held for the first customer, and nothing else ever happened.
  ghost predicate JustBooked(s: System) {
    && s.tickets == [] && s.origin == map[] && s.deletions == map[]
    && s.requests.Keys == {1} && s.readers.Keys == {1} && s.issued == {FIRST} && s.seen == map[FIRST := SEAT]
    && s.cache.now == 0 && View(s.cache) == map[FIRST := Hold(SEAT, 600)] && Index(s.cache, 7) == {KEY}
    && KEY in s.cache.names && s.cache.names[KEY] == Text(KEY, 600)
  }

  lemma AfterAsked()
    ensures var run := [] + [LookT(1)] + LookC(1);
      && Run(START, run) == START.(requests := map[1 := Request(SEAT, Some(AllFree), Some(AllFree), false)],
                                   readers := map[1 := Reader(7, {}, Some({}))])
      && Never(Late, START, run) && Never(Outdated, START, run)
      && View(START.cache) == map[] && Index(START.cache, 7) == {}
  {
    assert Index(START.cache, 7) == {} && View(START.cache) == map[];
    hide Run, Never, View, Index, LookT, LookC;
    NoneYet();
    Asks([], 1);
    assert Dead(START.cache) == {};
  }

  lemma AfterBooked()
    ensures JustBooked(Run(START, BOOKED)) && Never(Late, START, BOOKED) && Never(Outdated, START, BOOKED)
  {
    hide Run, Never, View, Index, Keep, LookT, LookC, Unsold, Unreserved;
    AfterAsked();
    var run := [] + [LookT(1)] + LookC(1);
    NoTickets(Run(START, run));
    NoHolds(Run(START, run));
    Keeps(run, 1, FIRST);
    Reads(run + [Keep(1, FIRST)], FIRST);
    assert run + [Keep(1, FIRST)] + [ReadReservation(FIRST)] == BOOKED;
  }

  // ---------- one reservation processed twice before its delete ----------

  const REPEATED := BOOKED + [ReadReservation(FIRST)] + Sales(FIRST, FIRST)

  // Nothing is late or outdated.
  lemma RepeatSellsTwice()
    ensures Never(Late, START, REPEATED) && Never(Outdated, START, REPEATED) && !Always(SellsOnce, START, REPEATED)
  {
    hide Run, Never, View, Index, SellsOnce, Always, BOOKED;
    AfterBooked();
    Reads(BOOKED, FIRST);
    SellsBoth(BOOKED + [ReadReservation(FIRST)], FIRST, FIRST);
  }

  // ---------- an order inserted after its reservation lapsed ----------

  // The seat is looked up again, and the stale key taken off the index, once the
  // reservation has lapsed.
  const RELOOKED := [LookT(2)] + LookC(2) + [RemoveStale(2)]
  const STALE := BOOKED + [Elapse(600)] + RELOOKED + [Keep(2, SECOND), ReadReservation(SECOND)] + Sales(FIRST, SECOND)

  // Nobody holds the seat any more; the index still lists its key.
  ghost predicate Lapsed(s: System) {
    && s.tickets == [] && s.cache.now == 600 && View(s.cache) == map[] && Index(s.cache, 7) == {KEY}
    && KEY in s.cache.names && !Alive(s.cache, KEY) && 2 !in s.requests && 2 !in s.readers && SECOND !in s.issued
  }

  lemma DeadKey(c: Cache)
    requires Index(c, 7) == {KEY} && !Alive(c, KEY)
    ensures Dead(c) == {KEY}
  {
    hide Index, Alive;
  }

  lemma RemovedAgain(readers: map<nat, Reader>, n: nat, r: Reader)
    requires n !in readers
    ensures readers[n := r] - {n} == readers
  {
  }

  lemma AfterTakenOff(run: seq<Event>)
    requires Lapsed(Run(START, run))
    ensures var s, more := Run(START, run), run + RELOOKED; var s' := Run(START, more);
      && s' == s.(cache := s'.cache, requests := s.requests[2 := Request(SEAT, Some(AllFree), Some(AllFree), false)])
      && s'.cache.now == 600 && View(s'.cache) == map[] && Index(s'.cache, 7) == {}
      && (Never(Late, START, more) <==> Never(Late, START, run))
      && (Never(Outdated, START, more) <==> Never(Outdated, START, run))
  {
    hide Run, Never, View, Index, Alive, Dead, LookT, LookC;
    var s, looked := Run(START, run), run + [LookT(2)] + LookC(2);
    DeadKey(s.cache);
    Asks(run, 2);
    Removes(looked, 2);
    RemovedAgain(s.readers, 2, Reader(7, {KEY}, Some({KEY})));
    assert looked + [RemoveStale(2)] == run + RELOOKED;
  }

  lemma AfterRelooked(run: seq<Event>)
    requires Lapsed(Run(START, run))
    ensures var s, more := Run(START, run), run + RELOOKED + [Keep(2, SECOND)]; var s' := Run(START, more);
      && s' == s.(cache := s'.cache, requests := s'.requests, issued := s.issued + {SECOND})
      && s'.requests.Keys == s.requests.Keys + {2}
      && s'.cache.now == 600 && View(s'.cache) == map[SECOND := Hold(SEAT, 1200)] && Index(s'.cache, 7) == {KEY}
      && KEY in s'.cache.names && s'.cache.names[KEY] == Text(KEY, 1200)
      && (Never(Late, START, more) <==> Never(Late, START, run))
      && (Never(Outdated, START, more) <==> Never(Outdated, START, run))
  {
    hide Run, Never, View, Index, Alive, Keep, RELOOKED, Unsold, Unreserved;
    AfterTakenOff(run);
    NoTickets(Run(START, run + RELOOKED));
    NoHolds(Run(START, run + RELOOKED));
    Keeps(run + RELOOKED, 2, SECOND);
  }

  lemma AfterLapse()
    ensures var run := BOOKED + [Elapse(600)]; var s := Run(START, run);
      && Lapsed(s) && Never(Late, START, run) && Never(Outdated, START, run)
      && s.origin == map[] && s.deletions == map[] && s.requests.Keys == {1} && s.readers.Keys == {1}
      && s.issued == {FIRST} && s.seen == map[FIRST := SEAT]
  {
    Different();
    hide Run, Never, View, BOOKED;
    AfterBooked();
    Lapses(BOOKED);
  }

  // Each reservation is processed once, and written while its places are free.
  lemma StaleInsertSellsTwice()
    ensures ProcessedOnce(STALE) && Never(Outdated, START, STALE) && !Always(SellsOnce, START, STALE)
  {
    Different();
    var run := BOOKED + [Elapse(600)];
    var booked := run + RELOOKED + [Keep(2, SECOND)] + [ReadReservation(SECOND)];
    assert forall e :: e in booked ==> !e.InsertOrder?;
    assert booked + Sales(FIRST, SECOND) == STALE;
    hide Run, Never, View, Index, SellsOnce, Always, BOOKED, RELOOKED, Lapsed, STALE, ProcessedOnce;
    AfterLapse();
    AfterRelooked(run);
    Reads(run + RELOOKED + [Keep(2, SECOND)], SECOND);
    SellsBoth(booked, FIRST, SECOND);
    OnceEach(booked, FIRST, SECOND);
  }

  // ---------- two requests looked up before either is written ----------

  const LOOKED_UP := [LookT(1)] + LookC(1) + [LookT(2)] + LookC(2)
  const BOTH_KEPT := [Keep(1, FIRST), Keep(2, SECOND), ReadReservation(FIRST), ReadReservation(SECOND)]
  const OVERLAPPED := LOOKED_UP + BOTH_KEPT + Sales(FIRST, SECOND)

  lemma AfterLookUps()
    ensures var s := Run(START, LOOKED_UP);
      && Never(Late, START, LOOKED_UP) && s == START.(requests := s.requests, readers := s.readers)
      && s.requests == map[1 := Request(SEAT, Some(AllFree), Some(AllFree), false),
                           2 := Request(SEAT, Some(AllFree), Some(AllFree), false)]
  {
    assert Index(START.cache, 7) == {};
    hide Run, Never, View, Index, LookT, LookC;
    NoneYet();
    Asks([], 1);
    var run := [] + [LookT(1)] + LookC(1);
    Asks(run, 2);
    assert run + [LookT(2)] + LookC(2) == LOOKED_UP;
  }

  lemma AfterBothKept(run: seq<Event>)
    requires var s := Run(START, run);
      && s.requests == map[1 := Request(SEAT, Some(AllFree), Some(AllFree), false),
                           2 := Request(SEAT, Some(AllFree), Some(AllFree), false)]
      && s.issued == {} && s.seen == map[] && View(s.cache) == map[]
    ensures var s, more := Run(START, run), run + BOTH_KEPT; var s' := Run(START, more);
      && s' == s.(cache := s'.cache, requests := s'.requests, issued := s'.issued, seen := s'.seen)
      && s'.seen == map[FIRST := SEAT, SECOND := SEAT] && FIRST in View(s'.cache) && SECOND in View(s'.cache)
      && (Never(Late, START, more) <==> Never(Late, START, run))
  {
    Different();
    hide Run, Never, View, Index, Keep, Free;
    var run1 := run + [Keep(1, FIRST)];
    Keeps(run, 1, FIRST);
    var run2 := run1 + [Keep(2, SECOND)];
    Keeps(run1, 2, SECOND);
    var run3 := run2 + [ReadReservation(FIRST)];
    Reads(run2, FIRST);
    Reads(run3, SECOND);
    assert run3 + [ReadReservation(SECOND)] == run + BOTH_KEPT;
  }

  // Each reservation is processed once, and in time.
  lemma OverlappingRequestsSellTwice()
    ensures ProcessedOnce(OVERLAPPED) && AlwaysAnswered(OVERLAPPED) && Never(Late, START, OVERLAPPED)
    ensures !Always(SellsOnce, START, OVERLAPPED)
  {
    Different();
    var run := LOOKED_UP + BOTH_KEPT;
    assert Calm(LOOKED_UP) && Calm(BOTH_KEPT) && View(START.cache) == map[];
    hide Run, Never, View, Index, SellsOnce, Always, LOOKED_UP, BOTH_KEPT, AlwaysAnswered, ProcessedOnce, Sales;
    AfterLookUps();
    AfterBothKept(LOOKED_UP);
    SellsBoth(run, FIRST, SECOND);
    OnceEach(run, FIRST, SECOND);
  }

  // ---------- a look-up that a store did not answer ----------

  const UNHEARD := [LookUpTickets(2, SEAT, false), Keep(2, SECOND), ReadReservation(SECOND)]
  const UNANSWERED := BOOKED + UNHEARD + Sales(FIRST, SECOND)

  lemma AfterUnheard(run: seq<Event>)
    requires JustBooked(Run(START, run))
    ensures var s, more := Run(START, run), run + UNHEARD; var s' := Run(START, more);
      && s'.tickets == [] && s'.origin == map[] && s'.seen == map[FIRST := SEAT, SECOND := SEAT]
      && FIRST in View(s'.cache) && SECOND in View(s'.cache)
      && (Never(Late, START, more) <==> Never(Late, START, run))
  {
    Different();
    hide Run, Never, View, Index, Keep, Free;
    PlainOn(run, LookUpTickets(2, SEAT, false));
    NoReplyPasses(Run(START, run), 2, SEAT);
    var run1 := run + [LookUpTickets(2, SEAT, false)];
    var run2 := run1 + [Keep(2, SECOND)];
    Keeps(run1, 2, SECOND);
    Reads(run2, SECOND);
    assert run2 + [ReadReservation(SECOND)] == run + UNHEARD;
  }

  // Each reservation is processed once, and in time.
  lemma UnansweredLookUpSellsTwice()
    ensures ProcessedOnce(UNANSWERED) && Never(Late, START, UNANSWERED) && !Always(SellsOnce, START, UNANSWERED)
  {
    Different();
    var run := BOOKED + UNHEARD;
    assert forall e :: e in run ==> !e.InsertOrder?;
    hide Run, Never, View, Index, SellsOnce, Always, BOOKED, UNHEARD, ProcessedOnce, JustBooked;
    AfterBooked();
    AfterUnheard(BOOKED);
    SellsBoth(run, FIRST, SECOND);
    OnceEach(run, FIRST, SECOND);
  }

  // ---------- the two stores looked up on either side of an order ----------

  // The second customer's look-up of the tickets, the first one's order, and the delete
  // of its reservation.
  const HANDED_OVER :=
    [LookT(2), Sale(FIRST, "order 1", "ticket 1"), ReadForDelete(1, FIRST), Unindex(1), DropReserved(1)]
  const LOOKED_LATE := LookC(2) + [Keep(2, SECOND), ReadReservation(SECOND)]
  const STRADDLED := BOOKED + HANDED_OVER + LOOKED_LATE + [Sale(SECOND, "order 2", "ticket 2")]

  // The seat went from the cache to the tickets, and the second customer saw it in neither.
  ghost predicate HandedOver(s: System) {
    && s.tickets == [Sold("order 1", "ticket 1")] && s.origin == map["order 1" := FIRST] && s.issued == {FIRST}
    && s.seen == map[FIRST := SEAT] && View(s.cache) == map[] && !Alive(s.cache, KEY)
    && 2 in s.requests && s.requests[2] == Request(SEAT, Some(AllFree), None, false) && s.readers.Keys == {1}
  }

  lemma AfterHandOver(run: seq<Event>)
    requires JustBooked(Run(START, run))
    ensures HandedOver(Run(START, run + HANDED_OVER))
    ensures Never(Late, START, run + HANDED_OVER) <==> Never(Late, START, run)
  {
    hide Run, Never, View, Index, LookT, Sale, Alive;
    var run1 := run + [LookT(2)];
    SeesTickets(run, 2);
    var run2 := run1 + [Sale(FIRST, "order 1", "ticket 1")];
    Sells(run1, FIRST, "order 1", "ticket 1");
    var run3 := run2 + [ReadForDelete(1, FIRST)];
    ReadsForDelete(run2, 1, FIRST);
    Frees(run3, 1, FIRST);
    assert run3 + [Unindex(1), DropReserved(1)] == run + HANDED_OVER;
  }

  lemma AfterLookedLate(run: seq<Event>)
    requires HandedOver(Run(START, run))
    ensures var s' := Run(START, run + LOOKED_LATE);
      && s'.tickets == [Sold("order 1", "ticket 1")] && s'.origin.Keys == {"order 1"}
      && SECOND in s'.seen && s'.seen[SECOND] == SEAT && SECOND in View(s'.cache)
    ensures Never(Late, START, run + LOOKED_LATE) <==> Never(Late, START, run)
  {
    Different();
    hide Run, Never, View, Index, LookC, Keep, Alive, Free;
    var run1 := run + LookC(2);
    SeesCache(run, 2);
    var run2 := run1 + [Keep(2, SECOND)];
    Keeps(run1, 2, SECOND);
    Reads(run2, SECOND);
    assert run2 + [ReadReservation(SECOND)] == run + LOOKED_LATE;
  }

  lemma StraddledOnce()
    ensures ProcessedOnce(STRADDLED) && AlwaysAnswered(STRADDLED)
  {
    Different();
    assert |STRADDLED| == 15 && STRADDLED[6] == Sale(FIRST, "order 1", "ticket 1");
  }

  // Each reservation is processed once, and in time, and no two requests overlap.
  lemma StraddledLookUpSellsTwice()
    ensures ProcessedOnce(STRADDLED) && AlwaysAnswered(STRADDLED) && Never(Late, START, STRADDLED)
    ensures !Always(SellsOnce, START, STRADDLED)
  {
    StraddledOnce();
    hide Run, Never, View, SellsOnce, Always, BOOKED, HANDED_OVER, LOOKED_LATE, AlwaysAnswered, ProcessedOnce;
    hide JustBooked, HandedOver;
    AfterBooked();
    AfterHandOver(BOOKED);
    AfterLookedLate(BOOKED + HANDED_OVER);
    SellsSecond(BOOKED + HANDED_OVER + LOOKED_LATE, SECOND);
  }

  // ---------- a third customer who sees a seat that the index does not list ----------

  const THIRD_TOO :=
    [LookT(3)] + LookC(3) + [Keep(3, THIRD), ReadReservation(SECOND), ReadReservation(THIRD)]

  // The second customer has the seat reserved, and a look-up does not show it.
  ghost predicate Unseen(s: System) {
    && s.tickets == [] && s.origin == map[] && SECOND in View(s.cache) && View(s.cache)[SECOND].body == SEAT
    && (KEY !in Index(s.cache, 7) || !Alive(s.cache, KEY))
    && 3 !in s.requests && 3 !in s.readers && THIRD !in s.issued
  }

  lemma ThirdKeeps(run: seq<Event>)
    requires Unseen(Run(START, run))
    ensures var s' := Run(START, run + THIRD_TOO);
      && s'.tickets == [] && s'.origin == map[] && SECOND in s'.seen && THIRD in s'.seen
      && s'.seen[SECOND] == s'.seen[THIRD] == SEAT && SECOND in View(s'.cache) && THIRD in View(s'.cache)
    ensures Never(Late, START, run + THIRD_TOO) <==> Never(Late, START, run)
  {
    Different();
    hide Run, Never, View, Index, LookT, LookC, Keep, Alive, Dead, Free;
    Asks(run, 3);
    var run1 := run + [LookT(3)] + LookC(3);
    var run2 := run1 + [Keep(3, THIRD)];
    Keeps(run1, 3, THIRD);
    var run3 := run2 + [ReadReservation(SECOND)];
    Reads(run2, SECOND);
    Reads(run3, THIRD);
    assert run3 + [ReadReservation(THIRD)] == run + THIRD_TOO;
  }

  lemma ThirdBuysToo(run: seq<Event>)
    requires Unseen(Run(START, run))
    ensures var more := run + THIRD_TOO + Sales(SECOND, THIRD);
      !Always(SellsOnce, START, more) && (Never(Late, START, more) <==> Never(Late, START, run))
  {
    Different();
    hide Run, Never, View, Always, SellsOnce, Sales, THIRD_TOO, Unseen;
    ThirdKeeps(run);
    SellsBoth(run + THIRD_TOO, SECOND, THIRD);
  }

  // ---------- a cleanup that removes too late ----------

  // Another reading finds the lapsed key stale, and takes it off the index only after the
  // seat has been reserved again.
  const FOUND_STALE := [Elapse(600), ReadMembers(9, 7), ReadValues(9)]
  const TIDIED := BOOKED + FOUND_STALE + RELOOKED + [Keep(2, SECOND), RemoveStale(9)]
  const UNLISTED := TIDIED + THIRD_TOO + Sales(SECOND, THIRD)

  lemma TidiedIsCalm()
    ensures Calm(TIDIED)
  {
    assert Calm(BOOKED) && Calm(FOUND_STALE) && Calm(RELOOKED);
    hide BOOKED, FOUND_STALE, RELOOKED;
  }

  lemma AfterFoundStale()
    ensures var run := BOOKED + FOUND_STALE; var s := Run(START, run);
      && Lapsed(s) && Never(Late, START, run) && s.origin == map[] && s.requests.Keys == {1} && s.issued == {FIRST}
      && s.readers.Keys == {1, 9} && s.readers[9] == Reader(7, {KEY}, Some({KEY}))
  {
    hide Run, Never, View, Index, Alive, BOOKED;
    AfterLapse();
    var run := BOOKED + [Elapse(600)];
    PlainOn(run, ReadMembers(9, 7));
    PlainOn(run + [ReadMembers(9, 7)], ReadValues(9));
    DeadKey(Run(START, run).cache);
    assert run + [ReadMembers(9, 7)] + [ReadValues(9)] == BOOKED + FOUND_STALE;
  }

  lemma AfterTidied()
    ensures Unseen(Run(START, TIDIED)) && Never(Late, START, TIDIED)
  {
    Different();
    hide Run, Never, View, Index, Alive, BOOKED, FOUND_STALE, RELOOKED, Keep;
    AfterFoundStale();
    AfterRelooked(BOOKED + FOUND_STALE);
    Removes(BOOKED + FOUND_STALE + RELOOKED + [Keep(2, SECOND)], 9);
    assert BOOKED + FOUND_STALE + RELOOKED + [Keep(2, SECOND)] + [RemoveStale(9)] == TIDIED;
  }

  // Each reservation is processed once, and in time, and no two requests overlap.
  lemma LateRemovalSellsTwice()
    ensures ProcessedOnce(UNLISTED) && AlwaysAnswered(UNLISTED) && Never(Late, START, UNLISTED)
    ensures !Always(SellsOnce, START, UNLISTED)
  {
    Different();
    var run := TIDIED + THIRD_TOO;
    assert Calm(THIRD_TOO);
    TidiedIsCalm();
    hide Run, Never, View, SellsOnce, Always, TIDIED, THIRD_TOO, ProcessedOnce, AlwaysAnswered, Unseen, Sales;
    AfterTidied();
    ThirdBuysToo(TIDIED);
    OnceEach(run, SECOND, THIRD);
  }

  // ---------- a delete that drops too late ----------

  // A delete reads the first reservation, and drops its keys only after it has lapsed and
  // the seat has been reserved again.
  const DROPPED :=
    BOOKED + [ReadForDelete(1, FIRST)] + [Elapse(600)] + RELOOKED + [Keep(2, SECOND)] + [Unindex(1), DropReserved(1)]
  const DISOWNED := DROPPED + THIRD_TOO + Sales(SECOND, THIRD)

  lemma DroppedIsCalm()
    ensures Calm(DROPPED)
  {
    assert Calm(BOOKED) && Calm(RELOOKED);
    hide BOOKED, RELOOKED;
  }

  lemma AfterReadForDelete()
    ensures var run := BOOKED + [ReadForDelete(1, FIRST)] + [Elapse(600)]; var s := Run(START, run);
      && Lapsed(s) && Never(Late, START, run) && s.origin == map[] && s.requests.Keys == {1} && s.issued == {FIRST}
      && s.readers.Keys == {1} && s.deletions == map[1 := Deletion(FIRST, SEAT, false)]
  {
    Different();
    hide Run, Never, View, BOOKED;
    AfterBooked();
    ReadsForDelete(BOOKED, 1, FIRST);
    Lapses(BOOKED + [ReadForDelete(1, FIRST)]);
  }

  lemma AfterDropped()
    ensures Unseen(Run(START, DROPPED)) && Never(Late, START, DROPPED)
  {
    Different();
    hide Run, Never, View, Index, Alive, BOOKED, RELOOKED, Keep;
    AfterReadForDelete();
    AfterRelooked(BOOKED + [ReadForDelete(1, FIRST)] + [Elapse(600)]);
    Frees(BOOKED + [ReadForDelete(1, FIRST)] + [Elapse(600)] + RELOOKED + [Keep(2, SECOND)], 1, FIRST);
  }

  // Each reservation is processed once, and in time, and no two requests overlap.
  lemma LateDeleteSellsTwice()
    ensures ProcessedOnce(DISOWNED) && AlwaysAnswered(DISOWNED) && Never(Late, START, DISOWNED)
    ensures !Always(SellsOnce, START, DISOWNED)
  {
    Different();
    var run := DROPPED + THIRD_TOO;
    assert Calm(THIRD_TOO);
    DroppedIsCalm();
    hide Run, Never, View, SellsOnce, Always, DROPPED, THIRD_TOO, ProcessedOnce, AlwaysAnswered, Unseen, Sales;
    AfterDropped();
    ThirdBuysToo(DROPPED);
    OnceEach(run, SECOND, THIRD);
  }
}
