/**
  The whole system as a state machine: the cache and the ticket collection under any
  interleaving of the calls that the service's goroutines make to them. What is not decided
  by the code (ids, the clock, replies of other services, which goroutine acts next) is in
  the events.

  A reservation looks the places up in both stores at once, in either order, asks for the
  screening, and writes. An order reads its reservation, asks for the price, and inserts.
  The cache's own methods are several calls too: a reading of a screening asks for the
  index, then for values, then takes the names without one off the index; a delete reads
  the reservation, takes its keys off the index, and then drops them.
 */
module Booking {
  import opened Strings
  import opened PlaceKeys
  import opened SliceUtils
  import opened Results
  import opened CacheSpec
  import opened Tickets

  // What a store said of a request's places. A store that fails to answer ends the
  // look-up, with no error: what came in by then is taken for everything.
  datatype Look = AllFree | SomeTaken | NoReply

  // A request's distinct places, the replies so far, and whether it was written.
  datatype Request = Request(body: Reservation, tickets: Option<Look>, cache: Option<Look>, written: bool)

  // A reading of a screening on its way: the index it was told, and the names that had no
  // value when it asked for them.
  datatype Reader = Reader(screening: int64, members: set<Name>, stale: Option<set<Name>>)

  // A delete on its way: what it read, and whether it has taken the keys off the index.
  datatype Deletion = Deletion(id: Name, body: Reservation, unindexed: bool)

  datatype System = System(
    cache: Cache,
    tickets: Collection,
    requests: map<nat, Request>,
    readers: map<nat, Reader>,
    deletions: map<nat, Deletion>,
    issued: set<Name>,              // reservation ids handed out so far
    seen: map<Name, Reservation>,   // reservations ProcessOrder has read
    origin: map<string, Name>)      // which reservation an order was made from

  const START := System(Cache(0, map[]), [], map[], map[], map[], {}, map[], map[])

  datatype Event =
    | LookUpTickets(request: nat, body: Reservation, answered: bool)
    | ReadMembers(reader: nat, screening: int64)
    // the values of a reading that nobody reserves by, and of one that a request waits for
    | ReadValues(reader: nat)
    | LookUpCache(request: nat, body: Reservation, reader: nat, answered: bool)
    | RemoveStale(reader: nat)
    | WriteReservation(request: nat, id: Name, ttl: nat)
    | ReadReservation(id: Name)
    | InsertOrder(id: Name, orderId: string, ownerId: string, ticketIds: seq<string>, price: uint32, date: int)
    // the delete that follows ProcessOrder at some later time, or a cancellation
    | ReadForDelete(deletion: nat, id: Name)
    | Unindex(deletion: nat)
    | DropReserved(deletion: nat)
    // pay, cancel, use and refund, of whole orders and of items
    | ChangeStatus(update: Update)
    | Elapse(elapsed: nat)
    | Drop(names: set<Name>)

  // No place is occupied, no place is reserved.
  ghost predicate Unsold(s: System, body: Reservation) {
    forall p :: p in body.places ==> !Occupied(s.tickets, body.screening, p)
  }

  ghost predicate Unreserved(s: System, body: Reservation) {
    NoneReserved(View(s.cache), body)
  }

  ghost predicate Free(s: System, body: Reservation) {
    Unsold(s, body) && Unreserved(s, body)
  }

  ghost function Reply(answered: bool, free: bool): Look {
    if !answered then NoReply else if free then AllFree else SomeTaken
  }

  // None of the places is among the indexed names that a value is found for.
  ghost predicate ShowsFree(s: System, members: set<Name>, body: Reservation) {
    forall p :: p in body.places ==>
      SeatName(body.screening, p) !in members || !Alive(s.cache, SeatName(body.screening, p))
  }

  // The reading, once it has asked for the values.
  ghost function Valued(s: System, r: Reader): Reader {
    r.(stale := Some(set k | k in r.members && !Alive(s.cache, k)))
  }

  ghost predicate Awaits(s: System, reader: nat) {
    reader in s.readers && s.readers[reader].stale.None?
  }

  // The request as it was when a reply comes in.
  ghost function Asking(s: System, request: nat, body: Reservation): Request {
    if request in s.requests then s.requests[request] else Request(body, None, None, false)
  }

  // The replies let the request through, once: no place was seen taken, and both stores
  // answered or one failed to.
  ghost predicate Passed(s: System, request: nat) {
    request in s.requests &&
    var r := s.requests[request];
    && !r.written && r.tickets != Some(SomeTaken) && r.cache != Some(SomeTaken)
    && ((r.tickets.Some? && r.cache.Some?) || r.tickets == Some(NoReply) || r.cache == Some(NoReply))
  }

  // What a caller, a UUID generator and the configuration guarantee.
  ghost predicate Possible(s: System, e: Event) {
    match e
    case LookUpTickets(request, body, _) =>
      var r := Asking(s, request, body);
      Distinct(body.places) && r.body == body && !r.written && r.tickets.None? && r.cache != Some(NoReply)
    case ReadMembers(reader, _) => reader !in s.readers
    case ReadValues(reader) => Awaits(s, reader)
    case LookUpCache(request, body, reader, answered) =>
      var r := Asking(s, request, body);
      && Distinct(body.places) && r.body == body && !r.written && r.cache.None? && r.tickets != Some(NoReply)
      && (answered ==> Awaits(s, reader) && s.readers[reader].screening == body.screening)
    case RemoveStale(reader) => reader in s.readers && s.readers[reader].stale.Some?
    case WriteReservation(request, id, ttl) => Passed(s, request) && id.OtherName? && id !in s.issued && ttl > 0
    case InsertOrder(id, orderId, _, ticketIds, _, _) =>
      id in s.seen && s.seen[id].places != [] && orderId !in s.origin &&
      |ticketIds| == |s.seen[id].places| && Distinct(ticketIds) && Elements(ticketIds) !! Ids(s.tickets)
    case ReadForDelete(deletion, _) => deletion !in s.deletions
    case Unindex(deletion) => deletion in s.deletions && !s.deletions[deletion].unindexed
    case DropReserved(deletion) => deletion in s.deletions && s.deletions[deletion].unindexed
    case _ => true
  }

  // One event; one that cannot happen does not.
  ghost function Do(s: System, e: Event): System {
    if !Possible(s, e) then s else match e
    case LookUpTickets(request, body, answered) =>
      var look := Reply(answered, Unsold(s, body));
      s.(requests := s.requests[request := Asking(s, request, body).(tickets := Some(look))])
    case ReadMembers(reader, screening) =>
      s.(readers := s.readers[reader := Reader(screening, Index(s.cache, screening), None)])
    case ReadValues(reader) => s.(readers := s.readers[reader := Valued(s, s.readers[reader])])
    case LookUpCache(request, body, reader, answered) =>
      var look := Reply(answered, answered && ShowsFree(s, s.readers[reader].members, body));
      s.(readers := if answered then s.readers[reader := Valued(s, s.readers[reader])] else s.readers,
         requests := s.requests[request := Asking(s, request, body).(cache := Some(look))])
    case RemoveStale(reader) =>
      s.(cache := Remove(s.cache, s.readers[reader].screening, s.readers[reader].stale.value),
         readers := s.readers - {reader})
    case WriteReservation(request, id, ttl) =>
      s.(cache := Reserve(s.cache, id, s.requests[request].body, ttl),
         requests := s.requests[request := s.requests[request].(written := true)], issued := s.issued + {id})
    case ReadReservation(id) =>
      if id in View(s.cache) then s.(seen := s.seen[id := View(s.cache)[id].body]) else s
    case InsertOrder(id, orderId, ownerId, ticketIds, price, date) =>
      var body := s.seen[id];
      s.(tickets := s.tickets + NewTickets(ticketIds, orderId, ownerId, date, body.screening, body.places, price),
         origin := s.origin[orderId := id])
    // without places the SREM to come is an error, and the delete ends there
    case ReadForDelete(deletion, id) =>
      if !Deletable(s.cache, id) then s
      else s.(deletions := s.deletions[deletion := Deletion(id, s.cache.names[id].body, false)])
    case Unindex(deletion) =>
      var d := s.deletions[deletion];
      s.(cache := Remove(s.cache, d.body.screening, KeysOf(d.body)),
         deletions := s.deletions[deletion := d.(unindexed := true)])
    case DropReserved(deletion) =>
      var d := s.deletions[deletion];
      s.(cache := DropKeys(s.cache, d.id, d.body), deletions := s.deletions - {deletion})
    case ChangeStatus(update) => s.(tickets := Apply(s.tickets, update))
    case Elapse(elapsed) => s.(cache := Tick(s.cache, elapsed))
    case Drop(names) => s.(cache := Evict(s.cache, names))
  }

  lemma NothingDone(s: System, e: Event)
    requires !Possible(s, e)
    ensures Do(s, e) == s
  {
  }

  // ---------- what no run can break ----------

  ghost predicate RecordsIssued(s: System) {
    && s.seen.Keys <= s.issued
    && forall n :: n in s.cache.names && s.cache.names[n].Record? ==>
         n in s.issued && (n in s.seen ==> s.seen[n] == s.cache.names[n].body)
  }

  // What a delete has read is what its id stands for.
  ghost predicate DeletionRight(s: System, d: Deletion) {
    && d.id.OtherName? && d.id in s.issued && d.body.places != []
    && (d.id in s.cache.names && s.cache.names[d.id].Record? ==> s.cache.names[d.id].body == d.body)
  }

  ghost predicate DeletionsRight(s: System) {
    forall n :: n in s.deletions ==> DeletionRight(s, s.deletions[n])
  }

  ghost predicate FromRead(s: System, t: Ticket) {
    && t.orderId in s.origin && s.origin[t.orderId] in s.seen
    && t.screening == s.seen[s.origin[t.orderId]].screening
    && t.place in s.seen[s.origin[t.orderId]].places
  }

  ghost predicate TicketsTraced(s: System) {
    && UniqueIds(s.tickets)
    && (forall i :: 0 <= i < |s.tickets| ==> FromRead(s, s.tickets[i]))
    && (forall id :: id in s.seen ==> Distinct(s.seen[id].places))
  }

  ghost predicate Sound(s: System) {
    && Named(s.cache) && RecordsIssued(s) && DeletionsRight(s) && TicketsTraced(s)
    && forall r :: r in s.requests ==> Distinct(s.requests[r].body.places)
  }

  lemma RecordsKept(s: System, c: Cache)
    requires RecordsIssued(s)
    requires forall n :: n in c.names && c.names[n].Record? ==> n in s.cache.names && s.cache.names[n] == c.names[n]
    ensures RecordsIssued(s.(cache := c))
  {
  }

  // Steps that leave the tickets and what they came from alone.
  lemma TracesKept(s: System, s': System)
    requires TicketsTraced(s) && s'.tickets == s.tickets && s'.seen == s.seen && s'.origin == s.origin
    ensures TicketsTraced(s')
  {
    forall i | 0 <= i < |s'.tickets| ensures FromRead(s', s'.tickets[i]) {
      assert FromRead(s, s.tickets[i]);
    }
  }

  // A new reservation id names nothing yet.
  lemma FreshId(s: System, id: Name)
    requires Named(s.cache) && RecordsIssued(s) && id.OtherName? && id !in s.issued
    ensures id !in s.cache.names
  {
    assert id in s.cache.names ==> WellNamed(id, s.cache.names[id]);
  }

  lemma WriteView(s: System, e: Event)
    requires Sound(s) && e.WriteReservation? && Possible(s, e)
    ensures var body := s.requests[e.request].body;
            View(Do(s, e).cache) == View(s.cache)[e.id := Hold(body, s.cache.now + e.ttl)]
    ensures e.id !in View(s.cache) && Do(s, e).cache.now == s.cache.now
  {
    FreshId(s, e.id);
    ReserveView(s.cache, e.id, s.requests[e.request].body, e.ttl);
    ReserveOthers(s.cache, e.id, s.requests[e.request].body, e.ttl);
    hide Reserve, View, Named, TicketsTraced, RecordsIssued, Distinct;
  }

  lemma WriteSound(s: System, e: Event)
    requires Sound(s) && e.WriteReservation? && Possible(s, e)
    ensures Sound(Do(s, e))
  {
    var body := s.requests[e.request].body;
    FreshId(s, e.id);
    ReserveNamed(s.cache, e.id, body, e.ttl);
    ReserveOthers(s.cache, e.id, body, e.ttl);
    ReserveRecords(s.cache, e.id, body, e.ttl);
    hide Named, Reserve, View, TicketsTraced, Distinct;
    TracesKept(s, Do(s, e));
  }

  lemma ReadSound(s: System, id: Name)
    requires Sound(s) && id in View(s.cache)
    ensures Sound(s.(seen := s.seen[id := View(s.cache)[id].body]))
  {
    var s' := s.(seen := s.seen[id := View(s.cache)[id].body]);
    RecordDistinct(s.cache, id);
    forall i | 0 <= i < |s'.tickets| ensures FromRead(s', s'.tickets[i]) {
      assert FromRead(s, s.tickets[i]);
    }
    hide Named, UniqueIds, Distinct;
  }

  lemma InsertSound(s: System, e: Event)
    requires Sound(s) && e.InsertOrder? && Possible(s, e)
    ensures Sound(Do(s, e))
  {
    hide Named;
    var s' := Do(s, e);
    var n := |s.tickets|;
    forall i, j | 0 <= i < j < |s'.tickets| ensures s'.tickets[i].id != s'.tickets[j].id {
      if i < n <= j {
        assert s.tickets[i].id in Ids(s.tickets);
        assert e.ticketIds[j - n] in Elements(e.ticketIds);
      }
    }
    forall i | 0 <= i < |s'.tickets| ensures FromRead(s', s'.tickets[i]) {
      assert i < n ==> FromRead(s, s.tickets[i]);
      assert i >= n ==> s'.tickets[i].place == s.seen[e.id].places[i - n];
    }
  }

  // A status change moves nothing but statuses, and never takes a seat.
  lemma StatusFrees(c: Collection, u: Update)
    ensures forall i :: 0 <= i < |c| ==>
              Apply(c, u)[i] == c[i].(status := Apply(c, u)[i].status)
              && (Occupying(Apply(c, u)[i].status) ==> Occupying(c[i].status))
  {
  }

  lemma StatusSound(s: System, u: Update)
    requires Sound(s)
    ensures Sound(s.(tickets := Apply(s.tickets, u)))
  {
    hide Named, Distinct, Apply, AllowedPrevious;
    StatusFrees(s.tickets, u);
    var s' := s.(tickets := Apply(s.tickets, u));
    forall i | 0 <= i < |s'.tickets| ensures FromRead(s', s'.tickets[i]) {
      assert FromRead(s, s.tickets[i]);
    }
  }

  // Steps of the cache that bring in no record.
  lemma CacheSound(s: System, s': System)
    requires Sound(s) && Named(s'.cache) && s' == s.(cache := s'.cache, requests := s'.requests, readers := s'.readers)
    requires forall r :: r in s'.requests ==> Distinct(s'.requests[r].body.places)
    requires forall n :: n in s'.cache.names && s'.cache.names[n].Record? ==>
               n in s.cache.names && s.cache.names[n] == s'.cache.names[n]
    ensures Sound(s')
  {
    RecordsKept(s, s'.cache);
    TracesKept(s, s');
    forall n | n in s'.deletions ensures DeletionRight(s', s'.deletions[n]) {
      assert DeletionRight(s, s.deletions[n]);
    }
  }

  lemma DeletionsSound(s: System, s': System)
    requires Sound(s) && s' == s.(deletions := s'.deletions) && DeletionsRight(s')
    ensures Sound(s')
  {
    TracesKept(s, s');
  }

  lemma ReadForDeleteSound(s: System, e: Event)
    requires Sound(s) && Possible(s, e) && e.ReadForDelete?
    ensures Sound(Do(s, e))
  {
    if Deletable(s.cache, e.id) {
      RecordsAreOther(s.cache);
      assert DeletionRight(s, Deletion(e.id, s.cache.names[e.id].body, false));
      hide Named, View, TicketsTraced, RecordsIssued, Distinct;
      var s' := Do(s, e);
      forall n | n in s'.deletions ensures DeletionRight(s', s'.deletions[n]) {
        assert n != e.deletion ==> DeletionRight(s, s.deletions[n]);
      }
      DeletionsSound(s, s');
    }
  }

  // Taking names off the index, or dropping them.
  lemma DeletingSound(s: System, e: Event)
    requires Sound(s) && Possible(s, e) && (e.Unindex? || e.DropReserved?)
    ensures Sound(Do(s, e))
  {
    var s', d := Do(s, e), s.deletions[e.deletion];
    assert DeletionRight(s, d);
    RemoveKeeps(s.cache, d.body.screening, KeysOf(d.body));
    RemoveRecords(s.cache, d.body.screening, KeysOf(d.body));
    DropView(s.cache, d.id, d.body);
    hide Named, View, Remove, DropKeys, KeysOf, TicketsTraced, RecordsIssued, Distinct, Index;
    var dropped := s.(cache := s'.cache);
    CacheSound(s, dropped);
    forall n | n in s'.deletions ensures DeletionRight(s', s'.deletions[n]) {
      assert DeletionRight(dropped, dropped.deletions[n]);
    }
    hide Do, DeletionRight;
    DeletionsSound(dropped, s');
  }

  // Every step of every run keeps the records, ids and tickets in order.
  lemma StepKeepsSound(s: System, e: Event)
    requires Sound(s)
    ensures Sound(Do(s, e))
  {
    if !Possible(s, e) { return; }
    match e
    case RemoveStale(reader) =>
      RemoveKeeps(s.cache, s.readers[reader].screening, s.readers[reader].stale.value);
      RemoveRecords(s.cache, s.readers[reader].screening, s.readers[reader].stale.value);
      hide Named, View, Remove, TicketsTraced, RecordsIssued, DeletionsRight, Distinct;
      CacheSound(s, Do(s, e));
    case WriteReservation(_, _, _) => WriteSound(s, e);
    case ReadReservation(id) => if id in View(s.cache) { ReadSound(s, id); }
    case InsertOrder(_, _, _, _, _, _) => InsertSound(s, e);
    case ReadForDelete(_, _) => ReadForDeleteSound(s, e);
    case Unindex(_) => DeletingSound(s, e);
    case DropReserved(_) => DeletingSound(s, e);
    case ChangeStatus(update) => StatusSound(s, update);
    case _ =>
      hide Named, View, TicketsTraced, DeletionsRight, RecordsIssued, Distinct, ShowsFree, Unsold, Valued;
      CacheSound(s, Do(s, e));
  }

  // ---------- the cache invariant, step by step ----------

  // The names that deletes on their way have taken off the index.
  ghost function Gone(ds: map<nat, Deletion>): set<Name> {
    set n, k | n in ds && ds[n].unindexed && k in KeysOf(ds[n].body) :: k
  }

  ghost predicate CacheKept(s: System) {
    InvBut(s.cache, Gone(s.deletions))
  }

  // A place about to be reserved is reserved already.
  ghost predicate Overlaps(s: System, e: Event) {
    e.WriteReservation? && Possible(s, e) && !Unreserved(s, s.requests[e.request].body)
  }

  // A name about to be taken off the index as stale has been reserved again since.
  ghost predicate Unlists(s: System, e: Event) {
    e.RemoveStale? && Possible(s, e) &&
    var r := s.readers[e.reader];
    exists k :: k in Index(s.cache, r.screening) && k in r.stale.value && k !in Gone(s.deletions) && Alive(s.cache, k)
  }

  // A delete is about to drop keys that are by now another live reservation's.
  ghost predicate DropsAnothers(s: System, e: Event) {
    e.DropReserved? && Possible(s, e) &&
    SharedWith(View(s.cache), s.deletions[e.deletion].id, s.deletions[e.deletion].body)
  }

  ghost predicate Corrupts(s: System, e: Event) {
    Overlaps(s, e) || Unlists(s, e) || DropsAnothers(s, e)
  }

  lemma GoneWith(ds: map<nat, Deletion>, n: nat, d: Deletion)
    requires n in ds ==> !ds[n].unindexed || ds[n].body == d.body
    ensures d.unindexed ==> Gone(ds[n := d]) == Gone(ds) + KeysOf(d.body)
    ensures !d.unindexed && n !in ds ==> Gone(ds[n := d]) == Gone(ds)
  {
    hide KeysOf;
    var es := ds[n := d];
    forall k | k in Gone(ds) ensures d.unindexed || n !in ds ==> k in Gone(es) {
      var m :| m in ds && ds[m].unindexed && k in KeysOf(ds[m].body);
      assert m in es && (m == n ==> k in KeysOf(d.body));
    }
    if d.unindexed {
      forall k | k in KeysOf(d.body) ensures k in Gone(es) {
        assert n in es && es[n].unindexed;
      }
    }
    forall k | k in Gone(es) ensures k in Gone(ds) || (d.unindexed && k in KeysOf(d.body)) {
      var m :| m in es && es[m].unindexed && k in KeysOf(es[m].body);
      assert m != n ==> m in ds && ds[m] == es[m];
    }
  }

  lemma WriteKeepsCacheExactly(s: System, e: Event)
    requires Sound(s) && CacheKept(s) && e.WriteReservation? && Possible(s, e)
    ensures CacheKept(Do(s, e)) <==> !Overlaps(s, e)
  {
    var body := s.requests[e.request].body;
    FreshId(s, e.id);
    ReserveExact(s.cache, Gone(s.deletions), e.id, body, e.ttl);
    hide InvBut, Named, Reserve, View, NoneReserved, RecordsIssued, DeletionsRight, TicketsTraced, Distinct, Gone;
  }

  lemma UnindexKeepsCache(s: System, e: Event)
    requires Sound(s) && CacheKept(s) && e.Unindex? && Possible(s, e)
    ensures CacheKept(Do(s, e))
  {
    var d := s.deletions[e.deletion];
    hide InvBut, Named, View, RecordsIssued, DeletionsRight, TicketsTraced, Distinct, Gone, Remove, KeysOf;
    UnindexKeepsInv(s.cache, Gone(s.deletions), d.body);
    GoneWith(s.deletions, e.deletion, d.(unindexed := true));
  }

  lemma GoneWithout(ds: map<nat, Deletion>, n: nat)
    requires n in ds && ds[n].unindexed
    ensures Gone(ds) == Gone(ds - {n}) + KeysOf(ds[n].body)
  {
    hide Gone, KeysOf;
    GoneWith(ds - {n}, n, ds[n]);
    assert (ds - {n})[n := ds[n]] == ds;
  }

  lemma DeletionOf(s: System, n: nat)
    requires Sound(s) && n in s.deletions
    ensures DeletionRight(s, s.deletions[n])
    ensures var d := s.deletions[n];
      d.id.OtherName? && (d.id in View(s.cache) ==> View(s.cache)[d.id].body == d.body)
  {
    assert DeletionRight(s, s.deletions[n]);
  }

  lemma DropKeepsCacheExactly(s: System, e: Event)
    requires Sound(s) && CacheKept(s) && e.DropReserved? && Possible(s, e)
    ensures CacheKept(Do(s, e)) <==> !DropsAnothers(s, e)
  {
    hide Sound, InvBut, View, Gone, DropKeys, KeysOf, SharedWith, DeletionRight;
    var d := s.deletions[e.deletion];
    DeletionOf(s, e.deletion);
    GoneWithout(s.deletions, e.deletion);
    DropExact(s.cache, Gone(s.deletions - {e.deletion}), d.id, d.body);
  }

  lemma RemoveKeepsCacheExactly(s: System, e: Event)
    requires CacheKept(s) && e.RemoveStale? && Possible(s, e)
    ensures CacheKept(Do(s, e)) <==> !Unlists(s, e)
  {
    hide InvBut, View, Remove, Gone, Index;
    RemoveExact(s.cache, Gone(s.deletions), s.readers[e.reader].screening, s.readers[e.reader].stale.value);
  }

  lemma OthersKeepCache(s: System, e: Event)
    requires CacheKept(s) && !e.RemoveStale? && !e.WriteReservation? && !e.Unindex? && !e.DropReserved?
    ensures CacheKept(Do(s, e))
  {
    hide InvBut, Gone, View, Tick, Evict, Unsold, ShowsFree, Valued, Apply, Index, Distinct;
    if !Possible(s, e) { return; }
    match e
    case ReadForDelete(deletion, id) =>
      if Deletable(s.cache, id) { GoneWith(s.deletions, deletion, Deletion(id, s.cache.names[id].body, false)); }
    case Elapse(elapsed) => TickRefines(s.cache, Gone(s.deletions), elapsed);
    case Drop(names) => EvictRefines(s.cache, Gone(s.deletions), names);
    case _ =>
  }

  // Exactly such a write, removal or drop ends the cache invariant.
  lemma StepKeepsCacheExactly(s: System, e: Event)
    requires Sound(s) && CacheKept(s)
    ensures CacheKept(Do(s, e)) <==> !Corrupts(s, e)
  {
    hide Sound, CacheKept, Do, Possible;
    if !Possible(s, e) {
      NothingDone(s, e);
    } else if e.RemoveStale? {
      RemoveKeepsCacheExactly(s, e);
    } else if e.WriteReservation? {
      WriteKeepsCacheExactly(s, e);
    } else if e.Unindex? {
      UnindexKeepsCache(s, e);
    } else if e.DropReserved? {
      DropKeepsCacheExactly(s, e);
    } else {
      OthersKeepCache(s, e);
    }
  }

  // ---------- consistency of the two stores, step by step ----------

  // A seat both ticketed and reserved is so by one and the same customer.
  ghost predicate Accounted(s: System, t: Ticket, id: Name)
    requires id in View(s.cache)
  {
    Occupying(t.status) && Lists(View(s.cache)[id], t.screening, t.place) ==>
      t.orderId in s.origin && s.origin[t.orderId] == id
  }

  ghost predicate SeatsAccounted(s: System) {
    forall i, id :: 0 <= i < |s.tickets| && id in View(s.cache) ==> Accounted(s, s.tickets[i], id)
  }

  // No seat is reserved twice, and none is both ticketed and reserved by two customers.
  ghost predicate Consistent(s: System) {
    Sound(s) && Disjoint(View(s.cache)) && SeatsAccounted(s)
  }

  // Another live reservation lists a place about to be sold.
  ghost predicate ReservedByOther(s: System, id: Name, body: Reservation) {
    exists r, p :: r in View(s.cache) && r != id && p in body.places && Lists(View(s.cache)[r], body.screening, p)
  }

  // A reservation written although its places are not free any more.
  ghost predicate Outdated(s: System, e: Event) {
    e.WriteReservation? && Possible(s, e) && !Free(s, s.requests[e.request].body)
  }

  // An order inserted although somebody else has reserved its places.
  ghost predicate Intrudes(s: System, e: Event) {
    e.InsertOrder? && Possible(s, e) && ReservedByOther(s, e.id, s.seen[e.id])
  }

  ghost predicate Disturbs(s: System, e: Event) {
    Outdated(s, e) || Intrudes(s, e)
  }

  lemma WriteKeepsSeats(s: System, e: Event)
    requires Consistent(s) && e.WriteReservation? && Possible(s, e)
    ensures SeatsAccounted(Do(s, e)) <==> Unsold(s, s.requests[e.request].body)
  {
    var s', body := Do(s, e), s.requests[e.request].body;
    WriteView(s, e);
    hide Named, Reserve, View, UniqueIds, Distinct;
    if SeatsAccounted(s') {
      forall i, p | 0 <= i < |s.tickets| && p in body.places ensures !TakesSeat(s.tickets[i], body.screening, p) {
        assert FromRead(s, s.tickets[i]) && Accounted(s', s'.tickets[i], e.id);
      }
    }
    if Unsold(s, body) {
      forall i, r | 0 <= i < |s'.tickets| && r in View(s'.cache) ensures Accounted(s', s'.tickets[i], r) {
        var t := s.tickets[i];
        if r == e.id {
          assert Occupying(t.status) && Lists(View(s'.cache)[r], t.screening, t.place) ==>
              TakesSeat(t, body.screening, t.place);
        } else {
          assert Accounted(s, t, r);
        }
      }
    }
  }

  lemma InsertKeepsSeats(s: System, e: Event)
    requires Consistent(s) && e.InsertOrder? && Possible(s, e)
    ensures SeatsAccounted(Do(s, e)) <==> !ReservedByOther(s, e.id, s.seen[e.id])
  {
    hide Named, UniqueIds, Distinct, View;
    var s' := Do(s, e);
    var n, body := |s.tickets|, s.seen[e.id];
    if SeatsAccounted(s') {
      forall r, p | r in View(s.cache) && r != e.id && p in body.places
        ensures !Lists(View(s.cache)[r], body.screening, p)
      {
        var k :| 0 <= k < |body.places| && body.places[k] == p;
        assert s'.tickets[n + k].place == p && Accounted(s', s'.tickets[n + k], r);
      }
    }
    if !ReservedByOther(s, e.id, body) {
      forall i, r | 0 <= i < |s'.tickets| && r in View(s'.cache) ensures Accounted(s', s'.tickets[i], r) {
        if i < n {
          assert FromRead(s, s.tickets[i]) && Accounted(s, s.tickets[i], r);
        } else {
          assert s'.tickets[i].place in body.places;
        }
      }
    }
  }

  // No step of another kind can bring a ticket and a reservation together.
  lemma OthersKeepSeats(s: System, s': System)
    requires SeatsAccounted(s) && s'.origin == s.origin && |s'.tickets| == |s.tickets|
    requires forall i :: 0 <= i < |s.tickets| ==>
               s'.tickets[i] == s.tickets[i].(status := s'.tickets[i].status)
               && (Occupying(s'.tickets[i].status) ==> Occupying(s.tickets[i].status))
    requires forall id :: id in View(s'.cache) ==> id in View(s.cache) && View(s'.cache)[id] == View(s.cache)[id]
    ensures SeatsAccounted(s')
  {
    hide View;
    forall i, r | 0 <= i < |s'.tickets| && r in View(s'.cache) ensures Accounted(s', s'.tickets[i], r) {
      assert Accounted(s, s.tickets[i], r);
    }
  }

  // No other step brings in a reservation.
  lemma StepKeepsViews(s: System, e: Event)
    requires Sound(s) && !(e.WriteReservation? && Possible(s, e))
    ensures forall id :: id in View(Do(s, e).cache) ==>
              id in View(s.cache) && View(Do(s, e).cache)[id] == View(s.cache)[id]
  {
    hide View, Named, Remove, DropKeys, Tick, Evict, Apply, Valued, ShowsFree, Unsold, KeysOf, Index;
    hide Distinct, RecordsIssued, TicketsTraced, DeletionsRight;
    if !Possible(s, e) { return; }
    match e
    case RemoveStale(reader) =>
      RemoveKeeps(s.cache, s.readers[reader].screening, s.readers[reader].stale.value);
    case Unindex(deletion) =>
      RemoveKeeps(s.cache, s.deletions[deletion].body.screening, KeysOf(s.deletions[deletion].body));
    case DropReserved(deletion) =>
      DropView(s.cache, s.deletions[deletion].id, s.deletions[deletion].body);
    case Elapse(elapsed) => TickView(s.cache, elapsed);
    case Drop(names) => EvictView(s.cache, names);
    case _ =>
  }

  lemma StepKeepsSeats(s: System, e: Event)
    requires Consistent(s) && !e.WriteReservation? && !e.InsertOrder?
    ensures SeatsAccounted(Do(s, e)) && Disjoint(View(Do(s, e).cache))
  {
    hide Sound, View, Remove, DropKeys, Tick, Evict, Apply, Unsold, ShowsFree, Valued, SeatsAccounted;
    StepKeepsViews(s, e);
    if e.ChangeStatus? {
      StatusFrees(s.tickets, e.update);
    }
    var s' := Do(s, e);
    OthersKeepSeats(s, s');
    forall id1, id2, n, p | id1 in View(s'.cache) && id2 in View(s'.cache)
      && Lists(View(s'.cache)[id1], n, p) && Lists(View(s'.cache)[id2], n, p)
      ensures id1 == id2
    {
      assert Lists(View(s.cache)[id1], n, p) && Lists(View(s.cache)[id2], n, p);
    }
  }

  lemma WriteKeepsDisjoint(s: System, e: Event)
    requires Sound(s) && Disjoint(View(s.cache)) && e.WriteReservation? && Possible(s, e)
    ensures Disjoint(View(Do(s, e).cache)) <==> Unreserved(s, s.requests[e.request].body)
  {
    hide Sound, Do, View, Disjoint, NoneReserved;
    WriteView(s, e);
    hide Possible;
    ReserveDisjoint(View(s.cache), e.id, s.requests[e.request].body, s.cache.now + e.ttl);
  }

  // Exactly a disturbing write or insert ends the consistency of the two stores. It does
  // not take the index for that.
  lemma StepConsistentExactly(s: System, e: Event)
    requires Consistent(s)
    ensures Consistent(Do(s, e)) <==> !Disturbs(s, e)
  {
    if !Possible(s, e) { return; }
    StepKeepsSound(s, e);
    if e.WriteReservation? {
      WriteKeepsSeats(s, e);
      WriteKeepsDisjoint(s, e);
    } else if e.InsertOrder? {
      InsertKeepsSeats(s, e);
    } else {
      StepKeepsSeats(s, e);
    }
    hide Sound, SeatsAccounted, Disjoint, ReservedByOther, View, Unsold, Unreserved;
  }

  // ---------- selling a seat twice, step by step ----------

  // No seat is sold twice.
  ghost predicate SoldOnce(c: Collection) {
    forall i, j :: 0 <= i < j < |c| && Occupying(c[i].status) && Occupying(c[j].status) ==>
      c[i].screening != c[j].screening || c[i].place != c[j].place
  }

  // Of any two tickets for one place of one screening, one is canceled or refunded.
  lemma SoldOnceMeans(c: Collection)
    ensures SoldOnce(c) <==>
            forall i, j ::
              0 <= i < j < |c| && c[i].screening == c[j].screening && c[i].place == c[j].place ==>
                c[i].status in {Canceled, Refunded} || c[j].status in {Canceled, Refunded}
  {
  }

  ghost predicate SellsOnce(s: System) {
    SoldOnce(s.tickets)
  }

  // A place about to be sold is occupied.
  ghost predicate Clashes(s: System, e: Event) {
    e.InsertOrder? && Possible(s, e) &&
    exists p :: p in s.seen[e.id].places && Occupied(s.tickets, s.seen[e.id].screening, p)
  }

  // An insert sells a seat twice exactly when one of its places is occupied.
  lemma InsertExact(s: System, e: Event)
    requires SoldOnce(s.tickets) && e.InsertOrder? && Possible(s, e) && Distinct(s.seen[e.id].places)
    ensures SoldOnce(Do(s, e).tickets) <==> !Clashes(s, e)
  {
    var s' := Do(s, e);
    var n, body := |s.tickets|, s.seen[e.id];
    if SoldOnce(s'.tickets) {
      forall p | p in body.places ensures !Occupied(s.tickets, body.screening, p) {
        var k :| 0 <= k < |body.places| && body.places[k] == p;
        assert s'.tickets[n + k].place == p;
        forall i | 0 <= i < n ensures !TakesSeat(s.tickets[i], body.screening, p) {
          assert s'.tickets[i] == s.tickets[i];
        }
      }
    }
    if !Clashes(s, e) {
      forall i, j | 0 <= i < j < |s'.tickets| && Occupying(s'.tickets[i].status) && Occupying(s'.tickets[j].status)
        ensures s'.tickets[i].screening != s'.tickets[j].screening || s'.tickets[i].place != s'.tickets[j].place
      {
        if i < n <= j {
          assert body.places[j - n] in body.places;
          assert !TakesSeat(s.tickets[i], body.screening, body.places[j - n]);
        }
      }
    }
  }

  lemma StepSellsOnceExactly(s: System, e: Event)
    requires Sound(s) && SellsOnce(s)
    ensures SellsOnce(Do(s, e)) <==> !Clashes(s, e)
  {
    if e.InsertOrder? && Possible(s, e) {
      InsertExact(s, e);
    } else if e.ChangeStatus? {
      StatusFrees(s.tickets, e.update);
      hide Apply;
    } else {
      hide Possible, Unsold, View, Remove, Reserve, DropKeys, Tick, Evict, ShowsFree, Valued;
      assert Do(s, e).tickets == s.tickets;
    }
  }

  // An order inserted after the reservation it was read from lapsed or was deleted.
  ghost predicate Late(s: System, e: Event) {
    e.InsertOrder? && Possible(s, e) && e.id !in View(s.cache)
  }

  ghost predicate HeldFrom(s: System, t: Ticket, id: Name) {
    Occupying(t.status) && t.orderId in s.origin && s.origin[t.orderId] == id
  }

  // An order made from the same reservation earlier still holds a seat.
  ghost predicate Repeats(s: System, e: Event) {
    e.InsertOrder? && Possible(s, e) && exists i :: 0 <= i < |s.tickets| && HeldFrom(s, s.tickets[i], e.id)
  }

  // In time and up to date, nothing is disturbed.
  lemma PromptStepsDoNotDisturb(s: System, e: Event)
    requires Consistent(s) && !Late(s, e) && !Outdated(s, e)
    ensures !Disturbs(s, e)
  {
    if e.InsertOrder? && Possible(s, e) {
      assert View(s.cache)[e.id].body == s.seen[e.id];
      assert Disjoint(View(s.cache));
      hide View, Named, TicketsTraced, DeletionsRight;
      forall r, p | r in View(s.cache) && p in s.seen[e.id].places
        && Lists(View(s.cache)[r], s.seen[e.id].screening, p)
        ensures r == e.id
      {
        assert Lists(View(s.cache)[e.id], s.seen[e.id].screening, p);
      }
    }
  }

  lemma PromptStepConsistent(s: System, e: Event)
    requires Consistent(s) && !Late(s, e) && !Outdated(s, e)
    ensures Consistent(Do(s, e))
  {
    hide Consistent, Late, Outdated, Do, Disturbs;
    PromptStepsDoNotDisturb(s, e);
    StepConsistentExactly(s, e);
  }

  // In time, the seats are taken only if this reservation already gave an order.
  lemma ClashIsRepeat(s: System, e: Event)
    requires Consistent(s) && !Late(s, e)
    ensures Clashes(s, e) <==> Repeats(s, e)
  {
    if e.InsertOrder? && Possible(s, e) {
      var body := s.seen[e.id];
      assert View(s.cache)[e.id].body == body;
      if Repeats(s, e) {
        var i :| 0 <= i < |s.tickets| && HeldFrom(s, s.tickets[i], e.id);
        assert FromRead(s, s.tickets[i]);
        assert TakesSeat(s.tickets[i], body.screening, s.tickets[i].place);
      } else {
        forall i, p | 0 <= i < |s.tickets| && p in body.places
          ensures !TakesSeat(s.tickets[i], body.screening, p)
        {
          assert Accounted(s, s.tickets[i], e.id) && !HeldFrom(s, s.tickets[i], e.id);
        }
      }
    }
  }

  // ---------- a request's places, step by step ----------

  // A rival reserves one of a request's places; a rival buys one.
  ghost predicate Reserves(s: System, e: Event, body: Reservation) {
    e.WriteReservation? && Possible(s, e) && Shares(s.requests[e.request].body, body)
  }

  ghost predicate Buys(s: System, e: Event, body: Reservation) {
    e.InsertOrder? && Possible(s, e) && Shares(s.seen[e.id], body)
  }

  lemma InsertBuys(s: System, e: Event, body: Reservation)
    requires Unsold(s, body) && e.InsertOrder? && Possible(s, e)
    ensures Unsold(Do(s, e), body) <==> !Buys(s, e, body)
  {
    var s', sold := Do(s, e), s.seen[e.id];
    var n := |s.tickets|;
    if Unsold(s', body) {
      forall p | p in sold.places && sold.screening == body.screening ensures p !in body.places {
        var k :| 0 <= k < |sold.places| && sold.places[k] == p;
        assert TakesSeat(s'.tickets[n + k], body.screening, p);
      }
    }
    if !Buys(s, e, body) {
      forall i, p | 0 <= i < |s'.tickets| && p in body.places ensures !TakesSeat(s'.tickets[i], body.screening, p) {
        if i < n {
          assert !TakesSeat(s.tickets[i], body.screening, p);
        } else {
          assert s'.tickets[i].place in sold.places;
        }
      }
    }
  }

  // Unsold places stay unsold exactly until a rival buys one.
  lemma StepKeepsUnsoldExactly(s: System, e: Event, body: Reservation)
    requires Unsold(s, body)
    ensures Unsold(Do(s, e), body) <==> !Buys(s, e, body)
  {
    if e.InsertOrder? && Possible(s, e) {
      InsertBuys(s, e, body);
    } else {
      var s' := Do(s, e);
      if e.ChangeStatus? {
        StatusFrees(s.tickets, e.update);
      }
      hide Possible, View, Remove, Reserve, DropKeys, Tick, Evict, Apply, ShowsFree, Valued;
      forall i, p | 0 <= i < |s'.tickets| && p in body.places ensures !TakesSeat(s'.tickets[i], body.screening, p) {
        assert !TakesSeat(s.tickets[i], body.screening, p);
      }
    }
  }

  lemma WriteReserves(s: System, e: Event, body: Reservation)
    requires Sound(s) && Unreserved(s, body) && e.WriteReservation? && Possible(s, e)
    ensures Unreserved(Do(s, e), body) <==> !Reserves(s, e, body)
  {
    WriteView(s, e);
    var s', rival := Do(s, e), s.requests[e.request].body;
    hide Do, Sound, View, Possible;
    if Unreserved(s', body) {
      forall p | p in rival.places && rival.screening == body.screening ensures p !in body.places {
        assert Lists(View(s'.cache)[e.id], body.screening, p);
      }
    }
  }

  // Unreserved places stay unreserved exactly until a rival reserves one.
  lemma StepKeepsUnreservedExactly(s: System, e: Event, body: Reservation)
    requires Sound(s) && Unreserved(s, body)
    ensures Unreserved(Do(s, e), body) <==> !Reserves(s, e, body)
  {
    if e.WriteReservation? && Possible(s, e) {
      WriteReserves(s, e, body);
    } else {
      StepKeepsViews(s, e);
      var s' := Do(s, e);
      hide Sound, Do, View, Possible;
      forall p, id | p in body.places && id in View(s'.cache) ensures !Lists(View(s'.cache)[id], body.screening, p) {
        assert Lists(View(s.cache)[id], body.screening, p) ==> Reserved(View(s.cache), body.screening, p);
      }
    }
  }

  // The store drops nothing but what has expired, when it likes.
  lemma ExpiredDropped(s: System, names: set<Name>)
    ensures var s' := Do(s, Drop(names));
      && s' == s.(cache := s'.cache) && s'.cache.now == s.cache.now
      && forall n ::
           (n in s'.cache.names <==>
              n in s.cache.names
              && (n !in names || s.cache.names[n].Members? || s.cache.now < s.cache.names[n].deadline))
           && (n in s'.cache.names ==> s'.cache.names[n] == s.cache.names[n])
  {
    EvictView(s.cache, names);
  }

  // ---------- what the events do to orders ----------

  // A change of a whole order moves exactly its tickets whose status the new one may follow.
  lemma OrderStatusChanged(s: System, orderId: string, target: Status)
    ensures var s' := Do(s, ChangeStatus(WholeOrder(orderId, target)));
      && s' == s.(tickets := s'.tickets) && |s'.tickets| == |s.tickets|
      && forall i :: 0 <= i < |s.tickets| ==>
           s'.tickets[i] ==
           if s.tickets[i].orderId == orderId && Follows(s.tickets[i].status, target)
           then s.tickets[i].(status := target) else s.tickets[i]
  {
  }

  // A change of items moves all of them or none: all, if they are distinct and each is the id
  // of such a ticket.
  lemma ItemsStatusChanged(s: System, orderId: string, items: seq<string>, target: Status)
    requires UniqueIds(s.tickets)
    ensures var s' := Do(s, ChangeStatus(Items(orderId, items, target)));
            var movable := set t | t in s.tickets && t.orderId == orderId && Follows(t.status, target) :: t.id;
            var commits := (forall j, k :: 0 <= j < k < |items| ==> items[j] != items[k])
                           && (forall k :: 0 <= k < |items| ==> items[k] in movable);
      && s' == s.(tickets := s'.tickets) && |s'.tickets| == |s.tickets|
      && forall i :: 0 <= i < |s.tickets| ==>
           s'.tickets[i] ==
           if commits && s.tickets[i].id in items then s.tickets[i].(status := target) else s.tickets[i]
  {
    ItemsCommitExactly(s.tickets, orderId, items, target);
    hide Apply, Commits, Follows, UniqueIds;
  }

  // Reading a live reservation lets an order be made of it, at its places and at one price.
  lemma OrderInserted(s: System, e: Event, k: nat)
    requires Sound(s) && e.InsertOrder? && e.id in View(s.cache) && k < |View(s.cache)[e.id].body.places|
    requires e.orderId !in s.origin && |e.ticketIds| == |View(s.cache)[e.id].body.places|
    requires forall i, j :: 0 <= i < j < |e.ticketIds| ==> e.ticketIds[i] != e.ticketIds[j]
    requires forall i, t :: 0 <= i < |e.ticketIds| && t in s.tickets ==> t.id != e.ticketIds[i]
    ensures var s', body := Do(Do(s, ReadReservation(e.id)), e), View(s.cache)[e.id].body;
      && s' == s.(tickets := s'.tickets, seen := s.seen[e.id := body], origin := s.origin[e.orderId := e.id])
      && |s'.tickets| == |s.tickets| + |body.places| && s'.tickets[..|s.tickets|] == s.tickets
      && s'.tickets[|s.tickets| + k] ==
         Ticket(e.ticketIds[k], e.orderId, e.ownerId, PaymentRequired, e.date, body.screening, body.places[k], e.price)
  {
    hide View, Sound;
  }

  // ---------- the cache's methods, when nobody comes between their calls ----------

  // A reading cleans; a delete deletes.
  lemma ReadingCleans(s: System, reader: nat, screening: int64)
    requires reader !in s.readers
    ensures Do(Do(Do(s, ReadMembers(reader, screening)), ReadValues(reader)), RemoveStale(reader)) ==
            s.(cache := Clean(s.cache, screening))
  {
    CleanIsRemove(s.cache, screening);
    hide Clean, Remove, View, Index;
    assert s.readers[reader := Reader(screening, Index(s.cache, screening), None)]
        [reader := Valued(s, Reader(screening, Index(s.cache, screening), None))] - {reader} == s.readers;
  }

  lemma DeletingDeletes(s: System, deletion: nat, id: Name)
    requires deletion !in s.deletions
    ensures Do(Do(Do(s, ReadForDelete(deletion, id)), Unindex(deletion)), DropReserved(deletion)) ==
            s.(cache := Delete(s.cache, id))
  {
    if Deletable(s.cache, id) {
      DeleteIsRemoveAndDrop(s.cache, id);
      hide Delete, Remove, DropKeys, KeysOf;
      var d := Deletion(id, s.cache.names[id].body, false);
      assert s.deletions[deletion := d][deletion := d.(unindexed := true)] - {deletion} == s.deletions;
    } else {
      assert Delete(s.cache, id) == s.cache;
    }
  }
}
