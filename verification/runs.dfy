/**
  What holds over whole runs: sequences of events from any sound state, in which every
  interleaving of the service's steps occurs.
 */
module Runs {
  import opened Strings
  import opened PlaceKeys
  import opened SliceUtils
  import opened Results
  import opened CacheSpec
  import opened Tickets
  import opened Booking
  import Race

  ghost function Run(s: System, run: seq<Event>): System {
    if run == [] then s else Do(Run(s, run[..|run| - 1]), run[|run| - 1])
  }

  // In every state of the run.
  ghost predicate Always(p: System -> bool, s: System, run: seq<Event>) {
    forall k :: 0 <= k <= |run| ==> p(Run(s, run[..k]))
  }

  // At no step of the run.
  ghost predicate Never(y: (System, Event) -> bool, s: System, run: seq<Event>) {
    forall k :: 0 <= k < |run| ==> !y(Run(s, run[..k]), run[k])
  }

  lemma RunStep(s: System, run: seq<Event>, k: nat)
    requires k < |run|
    ensures Run(s, run[..k + 1]) == Do(Run(s, run[..k]), run[k])
  {
    assert run[..k + 1][..k] == run[..k];
  }

  lemma {:induction false} RunConcat(s: System, a: seq<Event>, b: seq<Event>)
    ensures Run(s, a + b) == Run(Run(s, a), b)
  {
    hide Do;
    if b == [] {
      assert a + b == a;
    } else {
      RunConcat(s, a, b[..|b| - 1]);
      assert (a + b)[..|a + b| - 1] == a + b[..|b| - 1];
    }
  }

  lemma RunLast(s: System, run: seq<Event>, e: Event)
    ensures Run(s, run + [e]) == Do(Run(s, run), e)
  {
    hide Do;
    assert (run + [e])[..|run|] == run;
  }

  lemma RunThree(s: System, e1: Event, e2: Event, e3: Event)
    ensures Run(s, [e1, e2, e3]) == Do(Do(Do(s, e1), e2), e3)
  {
    hide Do;
    RunLast(s, [], e1);
    RunLast(s, [] + [e1], e2);
    RunLast(s, [] + [e1] + [e2], e3);
    assert [] + [e1] + [e2] + [e3] == [e1, e2, e3];
  }

  lemma {:induction false} RunKeepsSound(s: System, run: seq<Event>)
    requires Sound(s)
    ensures Sound(Run(s, run))
  {
    hide Sound, Do;
    if run != [] {
      RunKeepsSound(s, run[..|run| - 1]);
      StepKeepsSound(Run(s, run[..|run| - 1]), run[|run| - 1]);
    }
  }

  lemma {:induction false} KeptSince(p: System -> bool, y: (System, Event) -> bool, s: System, run: seq<Event>,
                                     j: nat, k: nat)
    requires Sound(s) && j <= k <= |run| && p(Run(s, run[..j]))
    requires forall m :: j <= m < k ==> !y(Run(s, run[..m]), run[m])
    requires forall t, e :: Sound(t) && p(t) && !y(t, e) ==> p(Do(t, e))
    ensures p(Run(s, run[..k]))
  {
    hide Sound, Do;
    if k > j {
      KeptSince(p, y, s, run, j, k - 1);
      RunKeepsSound(s, run[..k - 1]);
      RunStep(s, run, k - 1);
    }
  }

  lemma NeverOn(y: (System, Event) -> bool, s: System, run: seq<Event>, e: Event)
    ensures Never(y, s, run + [e]) <==> Never(y, s, run) && !y(Run(s, run), e)
  {
    hide Run;
    var more := run + [e];
    assert more[..|run|] == run && more[|run|] == e;
    forall k | 0 <= k < |run| ensures more[..k] == run[..k] && more[k] == run[k] {}
    if Never(y, s, more) {
      forall k | 0 <= k < |run| ensures !y(Run(s, run[..k]), run[k]) {
        assert !y(Run(s, more[..k]), more[k]);
      }
      assert !y(Run(s, more[..|run|]), more[|run|]);
    }
  }

  // What one step keeps exactly when something does not happen, a run keeps exactly
  // when it never happens.
  lemma Exactly(p: System -> bool, y: (System, Event) -> bool, s: System, run: seq<Event>)
    requires Sound(s) && p(s)
    requires forall t, e :: Sound(t) && p(t) ==> (p(Do(t, e)) <==> !y(t, e))
    ensures Always(p, s, run) <==> Never(y, s, run)
  {
    hide Sound, Do;
    if Never(y, s, run) {
      forall k | 0 <= k <= |run| ensures p(Run(s, run[..k])) {
        assert run[..0] == [];
        KeptSince(p, y, s, run, 0, k);
      }
    }
    if Always(p, s, run) {
      forall k | 0 <= k < |run| ensures !y(Run(s, run[..k]), run[k]) {
        RunKeepsSound(s, run[..k]);
        RunStep(s, run, k);
        assert p(Run(s, run[..k + 1]));
      }
    }
  }

  // ---------- exact conditions over every run ----------

  // The cache invariant lasts exactly while every reservation is written at a moment when
  // none of its places is reserved, no cleanup takes a name off the index that has been
  // reserved again since it was found stale, and no delete drops the keys of a reservation
  // made since it read its own. The code ensures none of the three.
  lemma CacheLastsExactly(s: System, run: seq<Event>)
    requires Sound(s) && CacheKept(s)
    ensures Always(CacheKept, s, run) <==>
            Never(Overlaps, s, run) && Never(Unlists, s, run) && Never(DropsAnothers, s, run)
  {
    hide Sound, CacheKept, Overlaps, Unlists, DropsAnothers, Do;
    forall t, e | Sound(t) && CacheKept(t) ensures CacheKept(Do(t, e)) <==> !Corrupts(t, e) {
      StepKeepsCacheExactly(t, e);
    }
    Exactly(CacheKept, Corrupts, s, run);
  }

  // No seat is ever sold twice exactly when every order is inserted while its places are
  // unoccupied. The code looks only when reserving.
  lemma SellsOnceExactly(s: System, run: seq<Event>)
    requires Sound(s) && SellsOnce(s)
    ensures Always(SellsOnce, s, run) <==> Never(Clashes, s, run)
  {
    hide Sound, SellsOnce, Clashes, Do;
    forall t, e | Sound(t) && SellsOnce(t) ensures SellsOnce(Do(t, e)) <==> !Clashes(t, e) {
      StepSellsOnceExactly(t, e);
    }
    Exactly(SellsOnce, Clashes, s, run);
  }

  // The two stores agree about every seat exactly while every reservation is written with
  // its places free and every order inserted with its places reserved by nobody else. What
  // the index says makes no difference to that, nor which keys are alive.
  lemma ConsistentExactly(s: System, run: seq<Event>)
    requires Consistent(s)
    ensures Always(Consistent, s, run) <==> Never(Disturbs, s, run)
  {
    assert Sound(s);
    hide Sound, Consistent, Disturbs, Do;
    forall t, e | Sound(t) && Consistent(t) ensures Consistent(Do(t, e)) <==> !Disturbs(t, e) {
      StepConsistentExactly(t, e);
    }
    Exactly(Consistent, Disturbs, s, run);
  }

  // ---------- runs without late inserts and outdated writes ----------

  lemma {:induction false} PromptRunConsistent(s: System, run: seq<Event>, k: nat)
    requires Consistent(s) && Never(Late, s, run) && Never(Outdated, s, run) && k <= |run|
    ensures Consistent(Run(s, run[..k]))
  {
    hide Consistent, Late, Outdated, Do;
    if k > 0 {
      PromptRunConsistent(s, run, k - 1);
      RunStep(s, run, k - 1);
      PromptStepConsistent(Run(s, run[..k - 1]), run[k - 1]);
    }
  }

  // No seat is ever sold twice, whatever the interleaving, exactly when no order is
  // inserted from a reservation whose earlier order still holds a seat.
  lemma NoDoubleBooking(s: System, run: seq<Event>)
    requires Consistent(s) && SellsOnce(s) && Never(Late, s, run) && Never(Outdated, s, run)
    ensures Always(SellsOnce, s, run) <==> Never(Repeats, s, run)
  {
    assert Sound(s);
    SellsOnceExactly(s, run);
    hide Sound, Consistent, SellsOnce, Late, Outdated, Clashes, Repeats, Always;
    forall k | 0 <= k < |run|
      ensures Clashes(Run(s, run[..k]), run[k]) <==> Repeats(Run(s, run[..k]), run[k])
    {
      PromptRunConsistent(s, run, k);
      ClashIsRepeat(Run(s, run[..k]), run[k]);
    }
  }

  ghost predicate OneTicket(s: System, screening: int64, place: Place) {
    forall i, j ::
      (0 <= i < |s.tickets| && 0 <= j < |s.tickets|
       && TakesSeat(s.tickets[i], screening, place) && TakesSeat(s.tickets[j], screening, place)) ==> i == j
  }

  ghost predicate OneReservation(s: System, screening: int64, place: Place) {
    forall id1, id2 ::
      (id1 in View(s.cache) && id2 in View(s.cache)
       && Lists(View(s.cache)[id1], screening, place) && Lists(View(s.cache)[id2], screening, place)) ==> id1 == id2
  }

  ghost predicate SameCustomer(s: System, screening: int64, place: Place) {
    forall i, id ::
      (0 <= i < |s.tickets| && id in View(s.cache)
       && TakesSeat(s.tickets[i], screening, place) && Lists(View(s.cache)[id], screening, place))
      ==> HeldFrom(s, s.tickets[i], id)
  }

  lemma SeatInConsistent(s: System, screening: int64, place: Place)
    requires Consistent(s) && SellsOnce(s)
    ensures OneTicket(s, screening, place) && OneReservation(s, screening, place)
    ensures SameCustomer(s, screening, place)
  {
    assert Disjoint(View(s.cache)) && SeatsAccounted(s);
    hide Sound, View;
    forall i, id | 0 <= i < |s.tickets| && id in View(s.cache) ensures Accounted(s, s.tickets[i], id) {
    }
  }

  // Every state of such a run: one ticket and one reservation a seat at most, and both
  // only if the ticket was sold from that reservation.
  lemma SeatIsOneCustomers(s: System, run: seq<Event>, screening: int64, place: Place)
    requires Consistent(s) && SellsOnce(s)
    requires Never(Late, s, run) && Never(Outdated, s, run) && Never(Repeats, s, run)
    ensures var c := Run(s, run).tickets;
      forall i, j ::
        0 <= i < j < |c| && c[i].screening == c[j].screening == screening && c[i].place == c[j].place == place ==>
          c[i].status in {Canceled, Refunded} || c[j].status in {Canceled, Refunded}
    ensures var v := View(Run(s, run).cache);
      forall id1, id2 ::
        (id1 in v && id2 in v && v[id1].body.screening == screening && place in v[id1].body.places
         && v[id2].body.screening == screening && place in v[id2].body.places) ==> id1 == id2
    ensures var now := Run(s, run);
      forall i, id ::
        (0 <= i < |now.tickets| && now.tickets[i].screening == screening && now.tickets[i].place == place
         && now.tickets[i].status !in {Canceled, Refunded}
         && id in View(now.cache) && View(now.cache)[id].body.screening == screening
         && place in View(now.cache)[id].body.places) ==>
          now.tickets[i].orderId in now.origin && now.origin[now.tickets[i].orderId] == id
  {
    hide Consistent, SellsOnce, Late, Outdated, Repeats;
    assert run[..|run|] == run;
    PromptRunConsistent(s, run, |run|);
    NoDoubleBooking(s, run);
    SeatInConsistent(Run(s, run), screening, place);
    hide Run, View;
  }

  // ---------- writes that are not outdated ----------

  lemma StartConsistent()
    ensures Consistent(START) && Sound(START) && CacheKept(START) && SellsOnce(START) && View(START.cache) == map[]
  {
  }

  // The places a request found unsold stay so exactly until a rival buys one, and those
  // it found unreserved exactly until a rival reserves one.
  lemma FreeLastsExactly(s: System, run: seq<Event>, body: Reservation)
    requires Sound(s)
    ensures Unsold(s, body) ==>
              (Always(t => Unsold(t, body), s, run) <==> Never((t, e) => Buys(t, e, body), s, run))
    ensures Unreserved(s, body) ==>
              (Always(t => Unreserved(t, body), s, run) <==> Never((t, e) => Reserves(t, e, body), s, run))
  {
    hide Sound, Unsold, Unreserved, Buys, Reserves, Do, Always, Never;
    forall t, e | Sound(t) && Unsold(t, body) ensures Unsold(Do(t, e), body) <==> !Buys(t, e, body) {
      StepKeepsUnsoldExactly(t, e, body);
    }
    forall t, e | Sound(t) && Unreserved(t, body) ensures Unreserved(Do(t, e), body) <==> !Reserves(t, e, body) {
      StepKeepsUnreservedExactly(t, e, body);
    }
    if Unsold(s, body) {
      Exactly(t => Unsold(t, body), (t, e) => Buys(t, e, body), s, run);
    }
    if Unreserved(s, body) {
      Exactly(t => Unreserved(t, body), (t, e) => Reserves(t, e, body), s, run);
    }
  }

  // At step j the request's places were looked up and found unsold; unreserved.
  ghost predicate SawUnsold(run: seq<Event>, j: nat, request: nat, body: Reservation)
    requires j < |run|
  {
    run[j] == LookUpTickets(request, body, true) && Unsold(Run(START, run[..j]), body)
  }

  // A reading started at step i ended at step j for the request, and found no value for
  // any of its places that was on the index.
  ghost predicate SawUnreserved(run: seq<Event>, i: nat, j: nat, request: nat, body: Reservation)
    requires i < j < |run|
  {
    && run[i].ReadMembers? && run[i].screening == body.screening
    && run[j] == LookUpCache(request, body, run[i].reader, true)
    && ShowsFree(Run(START, run[..j]), Index(Run(START, run[..i]).cache, body.screening), body)
  }

  // At step j a store failed to answer the request.
  ghost predicate WasFailed(run: seq<Event>, j: nat, request: nat, body: Reservation)
    requires j < |run|
  {
    && Possible(Run(START, run[..j]), run[j])
    && (run[j] == LookUpTickets(request, body, false)
        || (run[j].LookUpCache? && run[j] == LookUpCache(request, body, run[j].reader, false)))
  }

  lemma ReaderStep(s: System, e: Event, reader: nat)
    requires reader in Do(s, e).readers
    ensures var r := Do(s, e).readers[reader];
      || (reader in s.readers && s.readers[reader].screening == r.screening && s.readers[reader].members == r.members)
      || (e == ReadMembers(reader, r.screening) && r.members == Index(s.cache, r.screening))
  {
    hide Unsold, ShowsFree, View, Index, Remove, DropKeys, Reserve, Tick, Evict, Apply, Distinct, Passed;
  }

  // What a reading was told is what the index was when it started.
  ghost predicate ToldIndex(run: seq<Event>, k: nat, reader: nat, r: Reader)
    requires k <= |run|
  {
    exists i: nat :: i < k && run[i] == ReadMembers(reader, r.screening)
                     && r.members == Index(Run(START, run[..i]).cache, r.screening)
  }

  lemma {:induction false} ReadersWereTold(run: seq<Event>, k: nat, reader: nat)
    requires k <= |run| && reader in Run(START, run[..k]).readers
    ensures ToldIndex(run, k, reader, Run(START, run[..k]).readers[reader])
  {
    hide Do, Index;
    if k > 0 {
      RunStep(START, run, k - 1);
      var before := Run(START, run[..k - 1]);
      ReaderStep(before, run[k - 1], reader);
      var r := Run(START, run[..k]).readers[reader];
      if run[k - 1] == ReadMembers(reader, r.screening) && r.members == Index(before.cache, r.screening) {
        assert ToldIndex(run, k, reader, r);
      } else {
        ReadersWereTold(run, k - 1, reader);
        var i: nat :| i < k - 1 && run[i] == ReadMembers(reader, r.screening)
                      && r.members == Index(Run(START, run[..i]).cache, r.screening);
      }
    }
  }

  // What a request was told is what a look-up of its own saw.
  ghost predicate Told(run: seq<Event>, k: nat, request: nat, r: Request)
    requires k <= |run|
  {
    && (r.tickets == Some(AllFree) ==> exists j: nat :: j < k && SawUnsold(run, j, request, r.body))
    && (r.cache == Some(AllFree) ==>
          exists i: nat, j: nat :: i < j < k && SawUnreserved(run, i, j, request, r.body))
    && (r.tickets == Some(NoReply) || r.cache == Some(NoReply) ==>
          exists j: nat :: j < k && WasFailed(run, j, request, r.body))
  }

  // How a request came to be told what it is told.
  ghost predicate ToldNow(s: System, e: Event, request: nat, r: Request) {
    && (r.tickets == Some(AllFree) ==>
         || (request in s.requests && s.requests[request].tickets == Some(AllFree))
         || (e == LookUpTickets(request, r.body, true) && Unsold(s, r.body)))
    && (r.cache == Some(AllFree) ==>
         || (request in s.requests && s.requests[request].cache == Some(AllFree))
         || (e.LookUpCache? && e == LookUpCache(request, r.body, e.reader, true) && e.reader in s.readers
             && s.readers[e.reader].screening == r.body.screening
             && ShowsFree(s, s.readers[e.reader].members, r.body)))
    && (r.tickets == Some(NoReply) || r.cache == Some(NoReply) ==>
         || (request in s.requests
             && (s.requests[request].tickets == Some(NoReply) || s.requests[request].cache == Some(NoReply)))
         || (Possible(s, e)
             && (e == LookUpTickets(request, r.body, false)
                 || (e.LookUpCache? && e == LookUpCache(request, r.body, e.reader, false)))))
  }

  lemma ToldStep(s: System, e: Event, request: nat)
    requires request in Do(s, e).requests
    ensures ToldNow(s, e, request, Do(s, e).requests[request])
    ensures request in s.requests ==> Do(s, e).requests[request].body == s.requests[request].body
  {
    hide Unsold, ShowsFree, View, Index, Remove, DropKeys, Reserve, Tick, Evict, Apply, Distinct, Valued;
  }

  lemma ToldByReading(run: seq<Event>, k: nat, request: nat, body: Reservation)
    requires k < |run| && run[k].LookUpCache? && run[k] == LookUpCache(request, body, run[k].reader, true)
    requires var before := Run(START, run[..k]); var reader := run[k].reader;
      && reader in before.readers && before.readers[reader].screening == body.screening
      && ShowsFree(before, before.readers[reader].members, body)
    ensures exists i: nat :: i < k && SawUnreserved(run, i, k, request, body)
  {
    var before, reader := Run(START, run[..k]), run[k].reader;
    hide Run, Index, ShowsFree;
    ReadersWereTold(run, k, reader);
    var i: nat :| i < k && run[i] == ReadMembers(reader, body.screening)
                  && before.readers[reader].members == Index(Run(START, run[..i]).cache, body.screening);
    assert SawUnreserved(run, i, k, request, body);
  }

  lemma ToldMore(run: seq<Event>, k: nat, request: nat, r: Request)
    requires 0 < k <= |run|
    requires var before := Run(START, run[..k - 1]);
      && ToldNow(before, run[k - 1], request, r)
      && (request in before.requests ==>
            before.requests[request].body == r.body && Told(run, k - 1, request, before.requests[request]))
    ensures Told(run, k, request, r)
  {
    var before, e := Run(START, run[..k - 1]), run[k - 1];
    hide Run, Unsold, ShowsFree, Possible;
    assert e == LookUpTickets(request, r.body, true) && Unsold(before, r.body) ==>
        SawUnsold(run, k - 1, request, r.body);
    assert Possible(before, e) && (e == LookUpTickets(request, r.body, false)
                                   || (e.LookUpCache? && e == LookUpCache(request, r.body, e.reader, false))) ==>
        WasFailed(run, k - 1, request, r.body);
    if e.LookUpCache? && e == LookUpCache(request, r.body, e.reader, true) && e.reader in before.readers
       && before.readers[e.reader].screening == r.body.screening
       && ShowsFree(before, before.readers[e.reader].members, r.body)
    {
      ToldByReading(run, k - 1, request, r.body);
    }
    hide SawUnsold, SawUnreserved, WasFailed;
  }

  lemma {:induction false} RequestsWereTold(run: seq<Event>, k: nat, request: nat)
    requires k <= |run| && request in Run(START, run[..k]).requests
    ensures Told(run, k, request, Run(START, run[..k]).requests[request])
  {
    hide Do, Unsold, ShowsFree, Possible;
    if k > 0 {
      RunStep(START, run, k - 1);
      var before, e := Run(START, run[..k - 1]), run[k - 1];
      ToldStep(before, e, request);
      if request in before.requests {
        RequestsWereTold(run, k - 1, request);
      }
      var r := Run(START, run[..k]).requests[request];
      ToldMore(run, k, request, r);
    }
  }

  // Every written reservation was looked up in both stores by its own request, and found
  // free in each, unless a store had failed to answer the request.
  lemma WriteWasChecked(run: seq<Event>, k: nat)
    requires k < |run| && run[k].WriteReservation? && Possible(Run(START, run[..k]), run[k])
    ensures var request := run[k].request; var body := Run(START, run[..k]).requests[request].body;
      || (exists j: nat :: j < k && WasFailed(run, j, request, body))
      || ((exists j: nat :: j < k && SawUnsold(run, j, request, body))
          && (exists i: nat, j: nat :: i < j < k && SawUnreserved(run, i, j, request, body)))
  {
    hide Run, SawUnsold, SawUnreserved, WasFailed;
    RequestsWereTold(run, k, run[k].request);
    var r := Run(START, run[..k]).requests[run[k].request];
    assert r.tickets.Some? ==> r.tickets.value.AllFree? || r.tickets.value.SomeTaken? || r.tickets.value.NoReply?;
    assert r.cache.Some? ==> r.cache.value.AllFree? || r.cache.value.SomeTaken? || r.cache.value.NoReply?;
  }

  predicate AlwaysAnswered(run: seq<Event>) {
    forall e :: e in run && (e.LookUpTickets? || e.LookUpCache?) ==> e.answered
  }

  // Between the look-ups of a written request and its write no rival buys or reserves one
  // of its places, and none of them is being deleted when its look-up of the cache starts.
  ghost predicate Unrivalled(run: seq<Event>, k: nat)
    requires k < |run| && run[k].WriteReservation? && Possible(Run(START, run[..k]), run[k])
  {
    var request, body := run[k].request, Run(START, run[..k]).requests[run[k].request].body;
    && (forall j, m :: 0 <= j < m < k && SawUnsold(run, j, request, body) ==>
          !Buys(Run(START, run[..m]), run[m], body))
    && (forall i, j, m :: 0 <= i < j < k && i < m < k && SawUnreserved(run, i, j, request, body) ==>
          !Reserves(Run(START, run[..m]), run[m], body))
    && (forall i, j :: 0 <= i < j < k && SawUnreserved(run, i, j, request, body) ==>
          KeysOf(body) !! Gone(Run(START, run[..i]).deletions))
  }

  ghost predicate AllUnrivalled(run: seq<Event>) {
    forall k :: 0 <= k < |run| && run[k].WriteReservation? && Possible(Run(START, run[..k]), run[k]) ==>
      Unrivalled(run, k)
  }

  lemma LookingTakesNothing(s: System, e: Event, body: Reservation)
    requires e.LookUpTickets? || e.LookUpCache? || e.ReadMembers?
    ensures !Buys(s, e, body) && !Reserves(s, e, body)
  {
  }

  lemma UnsoldSince(run: seq<Event>, j: nat, k: nat, request: nat, body: Reservation)
    requires j < k <= |run| && SawUnsold(run, j, request, body)
    requires forall m :: j < m < k ==> !Buys(Run(START, run[..m]), run[m], body)
    ensures Unsold(Run(START, run[..k]), body)
  {
    StartConsistent();
    hide Sound, Unsold, Buys, Do;
    forall t, e | Sound(t) && Unsold(t, body) ensures Unsold(Do(t, e), body) <==> !Buys(t, e, body) {
      StepKeepsUnsoldExactly(t, e, body);
    }
    LookingTakesNothing(Run(START, run[..j]), run[j], body);
    KeptSince(t => Unsold(t, body), (t, e) => Buys(t, e, body), START, run, j, k);
  }

  lemma UnreservedSince(run: seq<Event>, j: nat, k: nat, body: Reservation)
    requires j <= k <= |run| && Unreserved(Run(START, run[..j]), body)
    requires forall m :: j <= m < k ==> !Reserves(Run(START, run[..m]), run[m], body)
    ensures Unreserved(Run(START, run[..k]), body)
  {
    StartConsistent();
    hide Sound, Unreserved, Reserves, Do;
    forall t, e | Sound(t) && Unreserved(t, body) ensures Unreserved(Do(t, e), body) <==> !Reserves(t, e, body) {
      StepKeepsUnreservedExactly(t, e, body);
    }
    KeptSince(t => Unreserved(t, body), (t, e) => Reserves(t, e, body), START, run, j, k);
  }

  // With the cache invariant, a place without a value, or off the index with no delete on
  // its way, is unreserved.
  lemma SeatUnreserved(s: System, screening: int64, p: Place)
    requires CacheKept(s)
    requires var key := SeatName(screening, p);
      !Alive(s.cache, key) || (key !in Index(s.cache, screening) && key !in Gone(s.deletions))
    ensures Unreserved(s, Reservation([p], screening))
  {
    hide InvBut, View, Index, Gone;
    ReservedKeyBut(s.cache, Gone(s.deletions), screening, p);
  }

  lemma OneOfShared(s: System, e: Event, body: Reservation, p: Place)
    requires p in body.places
    ensures Reserves(s, e, Reservation([p], body.screening)) ==> Reserves(s, e, body)
  {
    hide Possible;
  }

  // One place of a look-up that saw it free: it was so when the index was read, or when
  // the values were.
  lemma PlaceUnreservedSince(run: seq<Event>, i: nat, j: nat, k: nat, request: nat, body: Reservation, p: Place)
    requires i < j < k <= |run| && SawUnreserved(run, i, j, request, body) && p in body.places
    requires CacheKept(Run(START, run[..i])) && CacheKept(Run(START, run[..j]))
    requires KeysOf(body) !! Gone(Run(START, run[..i]).deletions)
    requires forall m :: i < m < k ==> !Reserves(Run(START, run[..m]), run[m], body)
    ensures Unreserved(Run(START, run[..k]), Reservation([p], body.screening))
  {
    var one := Reservation([p], body.screening);
    var key := SeatName(body.screening, p);
    assert key in KeysOf(body);
    LookingTakesNothing(Run(START, run[..i]), run[i], one);
    forall m | i <= m < k ensures !Reserves(Run(START, run[..m]), run[m], one) {
      OneOfShared(Run(START, run[..m]), run[m], body, p);
    }
    hide Run, CacheKept, Unreserved, Reserves, Gone, KeysOf, Index;
    if key !in Index(Run(START, run[..i]).cache, body.screening) {
      SeatUnreserved(Run(START, run[..i]), body.screening, p);
      UnreservedSince(run, i, k, one);
    } else {
      SeatUnreserved(Run(START, run[..j]), body.screening, p);
      UnreservedSince(run, j, k, one);
    }
  }

  lemma NoEvents(run: seq<Event>)
    ensures Run(START, run[..0]) == START
  {
  }

  lemma OverlapIsOutdated(s: System, e: Event)
    ensures Overlaps(s, e) ==> Outdated(s, e)
  {
  }

  lemma OneByOne(s: System, body: Reservation)
    requires forall p :: p in body.places ==> Unreserved(s, Reservation([p], body.screening))
    ensures Unreserved(s, body)
  {
    hide View, Reserved;
    forall p | p in body.places ensures !Reserved(View(s.cache), body.screening, p) {
      assert Unreserved(s, Reservation([p], body.screening)) && p in [p];
    }
  }

  lemma NeverFailed(run: seq<Event>, j: nat, request: nat, body: Reservation)
    requires AlwaysAnswered(run) && j < |run|
    ensures !WasFailed(run, j, request, body)
  {
    hide Run, Possible;
    assert run[j] in run;
  }

  lemma WriteIsCurrent(run: seq<Event>, k: nat)
    requires AlwaysAnswered(run) && AllUnrivalled(run) && k < |run|
    requires forall m :: 0 <= m <= k ==> CacheKept(Run(START, run[..m]))
    ensures !Outdated(Run(START, run[..k]), run[k])
  {
    if run[k].WriteReservation? && Possible(Run(START, run[..k]), run[k]) {
      var request := run[k].request;
      var body := Run(START, run[..k]).requests[request].body;
      assert Unrivalled(run, k);
      WriteWasChecked(run, k);
      hide Run, Possible, CacheKept, SawUnsold, SawUnreserved, Unsold, Buys, Reserves, KeysOf, Gone;
      forall j: nat | j < k ensures !WasFailed(run, j, request, body) {
        NeverFailed(run, j, request, body);
      }
      var l: nat :| l < k && SawUnsold(run, l, request, body);
      var i: nat, j: nat :| i < j < k && SawUnreserved(run, i, j, request, body);
      UnsoldSince(run, l, k, request, body);
      forall p | p in body.places ensures Unreserved(Run(START, run[..k]), Reservation([p], body.screening)) {
        PlaceUnreservedSince(run, i, j, k, request, body, p);
      }
      OneByOne(Run(START, run[..k]), body);
    }
  }

  lemma CurrentKeepsCache(run: seq<Event>, k: nat)
    requires k < |run| && CacheKept(Run(START, run[..k])) && !Outdated(Run(START, run[..k]), run[k])
    requires !Unlists(Run(START, run[..k]), run[k]) && !DropsAnothers(Run(START, run[..k]), run[k])
    ensures CacheKept(Run(START, run[..k + 1]))
  {
    hide CacheKept, Do, Sound, Outdated, Overlaps, Unlists, DropsAnothers, Run;
    StartConsistent();
    RunKeepsSound(START, run[..k]);
    OverlapIsOutdated(Run(START, run[..k]), run[k]);
    StepKeepsCacheExactly(Run(START, run[..k]), run[k]);
    RunStep(START, run, k);
  }

  // No write so far was outdated, so the cache has been kept, so this one is not either.
  lemma {:induction false} CurrentUpTo(run: seq<Event>, k: nat)
    requires AlwaysAnswered(run) && AllUnrivalled(run) && k <= |run|
    requires Never(Unlists, START, run) && Never(DropsAnothers, START, run)
    ensures forall m :: 0 <= m < k ==> !Outdated(Run(START, run[..m]), run[m])
    ensures forall m :: 0 <= m <= k ==> CacheKept(Run(START, run[..m]))
  {
    hide CacheKept, Run, Outdated, AllUnrivalled, AlwaysAnswered, Unlists, DropsAnothers;
    if k == 0 {
      NoEvents(run);
      StartConsistent();
    } else {
      CurrentUpTo(run, k - 1);
      WriteIsCurrent(run, k - 1);
      CurrentKeepsCache(run, k - 1);
    }
  }

  // While both stores answer, rivals and deletes keep out between look-ups and writes,
  // however far apart these are, and no cleanup or delete comes too late, no reservation
  // is written outdated, and the cache invariant lasts.
  lemma UnrivalledIsCurrent(run: seq<Event>)
    requires AlwaysAnswered(run)
    requires forall k ::
               0 <= k < |run| && run[k].WriteReservation? && Possible(Run(START, run[..k]), run[k]) ==>
                 var request, body := run[k].request, Run(START, run[..k]).requests[run[k].request].body;
                 && (forall j, m :: 0 <= j < m < k && SawUnsold(run, j, request, body) ==>
                       !Buys(Run(START, run[..m]), run[m], body))
                 && (forall i, j, m :: 0 <= i < j < k && i < m < k && SawUnreserved(run, i, j, request, body) ==>
                       !Reserves(Run(START, run[..m]), run[m], body))
                 && (forall i, j :: 0 <= i < j < k && SawUnreserved(run, i, j, request, body) ==>
                       KeysOf(body) !! Gone(Run(START, run[..i]).deletions))
    requires Never(Unlists, START, run) && Never(DropsAnothers, START, run)
    ensures Never(Outdated, START, run) && Always(CacheKept, START, run)
  {
    hide Outdated, CacheKept, Run, Possible, SawUnsold, SawUnreserved, Buys, Reserves, KeysOf, Gone;
    forall k | 0 <= k < |run| && run[k].WriteReservation? && Possible(Run(START, run[..k]), run[k])
      ensures Unrivalled(run, k)
    {
    }
    CurrentUpTo(run, |run|);
  }

  // ---------- each reservation processed once ----------

  ghost predicate ProcessedOnce(run: seq<Event>) {
    forall k, m :: 0 <= k < m < |run| && run[k].InsertOrder? && run[m].InsertOrder? ==> run[k].id != run[m].id
  }

  lemma OriginStep(s: System, e: Event, orderId: string)
    requires orderId in Do(s, e).origin
    ensures (orderId in s.origin && s.origin[orderId] == Do(s, e).origin[orderId])
            || (e.InsertOrder? && e.id == Do(s, e).origin[orderId])
  {
    hide Possible, Unsold, View, Remove, Reserve, DropKeys, Tick, Evict, Apply, ShowsFree, Valued;
  }

  // Orders come only from the run's own inserts.
  lemma {:induction false} OriginOfOrders(run: seq<Event>, k: nat, orderId: string)
    requires k <= |run| && orderId in Run(START, run[..k]).origin
    ensures exists m :: 0 <= m < k && run[m].InsertOrder? && run[m].id == Run(START, run[..k]).origin[orderId]
  {
    if k > 0 {
      hide Do;
      RunStep(START, run, k - 1);
      var before := Run(START, run[..k - 1]);
      OriginStep(before, run[k - 1], orderId);
      if orderId in before.origin && Run(START, run[..k]).origin[orderId] == before.origin[orderId] {
        OriginOfOrders(run, k - 1, orderId);
      }
    }
  }

  // From an empty system: if each reservation is processed at most once, and nothing is
  // late or outdated, no seat is ever sold twice.
  lemma ProcessedOnceIsSafe(run: seq<Event>)
    requires Never(Late, START, run) && Never(Outdated, START, run) && ProcessedOnce(run)
    ensures Always(SellsOnce, START, run)
  {
    forall k | 0 <= k < |run| ensures !Repeats(Run(START, run[..k]), run[k]) {
      var before, e := Run(START, run[..k]), run[k];
      if e.InsertOrder? {
        forall i | 0 <= i < |before.tickets| ensures !HeldFrom(before, before.tickets[i], e.id) {
          var orderId := before.tickets[i].orderId;
          if orderId in before.origin {
            OriginOfOrders(run, k, orderId);
          }
        }
      }
    }
    StartConsistent();
    hide Consistent, SellsOnce, Late, Outdated, Repeats;
    NoDoubleBooking(START, run);
  }

  // ---------- how long a reservation lasts ----------

  // A delete of it goes through.
  ghost predicate Deletes(s: System, e: Event, id: Name) {
    e.DropReserved? && Possible(s, e) && s.deletions[e.deletion].id == id
  }

  ghost function Deleting(id: Name): (System, Event) -> bool {
    (s, e) => Deletes(s, e, id)
  }

  lemma StepViews(s: System, e: Event)
    requires Sound(s)
    ensures View(Do(s, e).cache) ==
            if !Possible(s, e) then View(s.cache)
            else match e
            case WriteReservation(request, id, ttl) =>
              View(s.cache)[id := Hold(s.requests[request].body, s.cache.now + ttl)]
            case DropReserved(deletion) => View(s.cache) - {s.deletions[deletion].id}
            case Elapse(elapsed) =>
              map id | id in View(s.cache) && s.cache.now + elapsed < View(s.cache)[id].until :: View(s.cache)[id]
            case _ => View(s.cache)
    ensures Do(s, e).cache.now == s.cache.now + if e.Elapse? then e.elapsed else 0
    ensures s.issued <= Do(s, e).issued
  {
    hide View, Named, Remove, DropKeys, Tick, Evict, Reserve, Apply, Valued, ShowsFree, Unsold, KeysOf, Index;
    hide Distinct, RecordsIssued, TicketsTraced, DeletionsRight;
    if !Possible(s, e) { return; }
    match e
    case RemoveStale(reader) =>
      RemoveKeeps(s.cache, s.readers[reader].screening, s.readers[reader].stale.value);
    case WriteReservation(_, _, _) => WriteView(s, e);
    case Unindex(deletion) =>
      RemoveKeeps(s.cache, s.deletions[deletion].body.screening, KeysOf(s.deletions[deletion].body));
    case DropReserved(deletion) =>
      DropView(s.cache, s.deletions[deletion].id, s.deletions[deletion].body);
    case Elapse(elapsed) => TickView(s.cache, elapsed);
    case Drop(names) => EvictView(s.cache, names);
    case _ =>
  }

  lemma ViewsAreIssued(s: System, id: Name)
    requires Sound(s) && id in View(s.cache)
    ensures id in s.issued && s.cache.now < View(s.cache)[id].until
    ensures forall n :: n in s.deletions && s.deletions[n].id == id ==> View(s.cache)[id].body.places != []
  {
    forall n | n in s.deletions && s.deletions[n].id == id ensures View(s.cache)[id].body.places != [] {
      assert DeletionRight(s, s.deletions[n]);
    }
  }

  lemma StepKeepsHold(s: System, e: Event, id: Name)
    requires Sound(s) && id in View(s.cache)
    ensures id in View(Do(s, e).cache) <==>
            Do(s, e).cache.now < View(s.cache)[id].until && !Deletes(s, e, id)
    ensures id in View(Do(s, e).cache) ==> View(Do(s, e).cache)[id] == View(s.cache)[id]
    ensures Do(s, e).cache.now >= s.cache.now
    ensures Deletes(s, e, id) ==> View(s.cache)[id].body.places != []
  {
    hide Do, Sound, View;
    StepViews(s, e);
    ViewsAreIssued(s, id);
  }

  // Once gone, an id that was issued never comes back.
  lemma StepKeepsGone(s: System, e: Event, id: Name)
    requires Sound(s) && id in s.issued && id !in View(s.cache)
    ensures id !in View(Do(s, e).cache)
    ensures Do(s, e).cache.now >= s.cache.now
  {
    hide Do, Sound, View;
    StepViews(s, e);
  }

  // A reservation can be read, with exactly its places and screening, until its deadline
  // passes or a delete of it goes through, and not one step longer; one without places
  // cannot be deleted. This needs nothing of the other events, whatever they do to the
  // index and to keys.
  lemma {:induction false} ReservationLasts(s: System, run: seq<Event>, id: Name)
    requires Sound(s) && id in View(s.cache)
    ensures id in Run(s, run).issued && Run(s, run).cache.now >= s.cache.now
    ensures id in View(Run(s, run).cache) <==>
            Run(s, run).cache.now < View(s.cache)[id].until
            && (View(s.cache)[id].body.places != [] ==> Never(Deleting(id), s, run))
    ensures id in View(Run(s, run).cache) ==> View(Run(s, run).cache)[id] == View(s.cache)[id]
  {
    if run == [] {
      ViewsAreIssued(s, id);
    } else {
      var front, e := run[..|run| - 1], run[|run| - 1];
      assert run == front + [e];
      var before := Run(s, front);
      hide Sound, Do, View, Never, Deletes;
      ReservationLasts(s, front, id);
      NeverOn(Deleting(id), s, front, e);
      RunKeepsSound(s, front);
      StepViews(before, e);
      if id in View(before.cache) {
        StepKeepsHold(before, e, id);
      } else {
        StepKeepsGone(before, e, id);
      }
    }
  }

  // With the cache invariant and no delete of the places on its way, a reading shows them
  // free exactly if they are unreserved.
  lemma ShowsExactly(s: System, body: Reservation)
    requires CacheKept(s) && KeysOf(body) !! Gone(s.deletions)
    ensures ShowsFree(s, Index(s.cache, body.screening), body) <==> Unreserved(s, body)
  {
    hide InvBut, View, Index, Gone, Reserved, Alive;
    forall p | p in body.places
      ensures Reserved(View(s.cache), body.screening, p) <==>
              Alive(s.cache, SeatName(body.screening, p))
              && SeatName(body.screening, p) in Index(s.cache, body.screening)
    {
      assert SeatName(body.screening, p) in KeysOf(body);
      ReservedKeyBut(s.cache, Gone(s.deletions), body.screening, p);
    }
  }

  lemma SameStores(s: System, s': System, body: Reservation)
    requires s'.cache == s.cache && s'.tickets == s.tickets
    ensures Unsold(s', body) == Unsold(s, body)
    ensures forall members :: ShowsFree(s', members, body) == ShowsFree(s, members, body)
  {
    hide Occupied, Alive;
  }

  lemma PassesTicketsFirst(s: System, request: nat, body: Reservation, reader: nat)
    requires request !in s.requests && Distinct(body.places)
    requires Awaits(s, reader) && s.readers[reader].screening == body.screening
    ensures var s' := Do(Do(s, LookUpTickets(request, body, true)), LookUpCache(request, body, reader, true));
      && s'.cache == s.cache && s'.tickets == s.tickets
      && (Passed(s', request) <==> Unsold(s, body) && ShowsFree(s, s.readers[reader].members, body))
  {
    hide Unsold, ShowsFree, Distinct, Valued;
    SameStores(s, Do(s, LookUpTickets(request, body, true)), body);
  }

  lemma PassesCacheFirst(s: System, request: nat, body: Reservation, reader: nat)
    requires request !in s.requests && Distinct(body.places)
    requires Awaits(s, reader) && s.readers[reader].screening == body.screening
    ensures var s' := Do(Do(s, LookUpCache(request, body, reader, true)), LookUpTickets(request, body, true));
      && s'.cache == s.cache && s'.tickets == s.tickets
      && (Passed(s', request) <==> Unsold(s, body) && ShowsFree(s, s.readers[reader].members, body))
  {
    hide Unsold, ShowsFree, Distinct, Valued;
    SameStores(s, Do(s, LookUpCache(request, body, reader, true)), body);
  }

  // Looked up in both stores, in either order and with nobody in between, a request is let
  // through exactly if its places are free; nothing a customer can see changes.
  lemma CheckOutcome(s: System, request: nat, body: Reservation, reader: nat, cacheFirst: bool)
    requires CacheKept(s) && KeysOf(body) !! Gone(s.deletions)
    requires request !in s.requests && reader !in s.readers && Distinct(body.places)
    ensures var tickets, cache := LookUpTickets(request, body, true), LookUpCache(request, body, reader, true);
            var read := Do(s, ReadMembers(reader, body.screening));
            var s' := if cacheFirst then Do(Do(read, cache), tickets) else Do(Do(read, tickets), cache);
      s'.cache == s.cache && s'.tickets == s.tickets && (Passed(s', request) <==> Free(s, body))
  {
    ShowsExactly(s, body);
    var read := Do(s, ReadMembers(reader, body.screening));
    SameStores(s, read, body);
    hide CacheKept, Index, Distinct, Unsold, Unreserved, ShowsFree, KeysOf, Gone, Do, Passed;
    PassesTicketsFirst(read, request, body, reader);
    PassesCacheFirst(read, request, body, reader);
  }

  // A store that fails to answer first lets every request through.
  lemma NoReplyPasses(s: System, request: nat, body: Reservation)
    requires request !in s.requests && Distinct(body.places)
    ensures Passed(Do(s, LookUpTickets(request, body, false)), request)
    ensures forall reader :: Passed(Do(s, LookUpCache(request, body, reader, false)), request)
  {
  }

  // Once written it is held for exactly its time.
  lemma WriteOutcome(s: System, e: Event, run: seq<Event>)
    requires Sound(s) && e.WriteReservation? && Possible(s, e)
    ensures var now, body := Run(Do(s, e), run), s.requests[e.request].body;
      && (e.id in View(now.cache) <==>
            now.cache.now < s.cache.now + e.ttl && (body.places != [] ==> Never(Deleting(e.id), Do(s, e), run)))
      && (e.id in View(now.cache) ==> View(now.cache)[e.id].body == body)
  {
    WriteSound(s, e);
    WriteView(s, e);
    hide Sound, Do, View, Run, Never;
    ReservationLasts(Do(s, e), run, e.id);
  }

  // ---------- tickets ----------

  lemma StepKeepsTickets(s: System, e: Event, i: nat)
    requires i < |s.tickets|
    ensures |Do(s, e).tickets| >= |s.tickets|
    ensures Do(s, e).tickets[i] == s.tickets[i].(status := Do(s, e).tickets[i].status)
    ensures Occupying(Do(s, e).tickets[i].status) ==> Occupying(s.tickets[i].status)
    ensures Do(s, e).tickets[i].status != s.tickets[i].status ==>
              Rank(s.tickets[i].status) < Rank(Do(s, e).tickets[i].status)
  {
    hide Possible, Unsold, View, Remove, Reserve, DropKeys, Tick, Evict, ShowsFree, Valued;
  }

  // A ticket, once sold, only climbs the status graph; its seat only ever gets free.
  lemma {:induction false} TicketsOnlyClimb(s: System, run: seq<Event>, i: nat)
    requires i < |s.tickets|
    ensures |Run(s, run).tickets| >= |s.tickets|
    ensures Run(s, run).tickets[i] == s.tickets[i].(status := Run(s, run).tickets[i].status)
    ensures s.tickets[i].status in {Canceled, Refunded} ==> Run(s, run).tickets[i].status in {Canceled, Refunded}
    ensures Rank(s.tickets[i].status) <= Rank(Run(s, run).tickets[i].status)
  {
    hide Do, Rank;
    if run != [] {
      TicketsOnlyClimb(s, run[..|run| - 1], i);
      StepKeepsTickets(Run(s, run[..|run| - 1]), run[|run| - 1], i);
    }
  }

  lemma {:induction false} SumOfOthers(c: Collection, orderId: string)
    requires forall i :: 0 <= i < |c| ==> c[i].orderId != orderId
    ensures SumPrices(c, orderId) == 0
  {
    if c != [] {
      SumOfOthers(c[..|c| - 1], orderId);
    }
  }

  lemma {:induction false} SumOfNew(ids: seq<string>, orderId: string, ownerId: string, date: int,
                                    screening: int64, places: seq<Place>, price: uint32)
    requires |ids| == |places|
    ensures SumPrices(NewTickets(ids, orderId, ownerId, date, screening, places, price), orderId) == price * |ids|
  {
    if ids != [] {
      var n := |ids| - 1;
      var c := NewTickets(ids, orderId, ownerId, date, screening, places, price);
      SumOfNew(ids[..n], orderId, ownerId, date, screening, places[..n], price);
      assert c[..n] == NewTickets(ids[..n], orderId, ownerId, date, screening, places[..n], price);
      assert price * n + price == price * |ids|;
    }
  }

  // A new order costs exactly its places.
  lemma NewOrderPrice(s: System, e: Event)
    requires Sound(s) && e.InsertOrder? && Possible(s, e)
    ensures SumPrices(Do(s, e).tickets, e.orderId) == e.price * |e.ticketIds|
  {
    var body := s.seen[e.id];
    var added := NewTickets(e.ticketIds, e.orderId, e.ownerId, e.date, body.screening, body.places, e.price);
    SumOfConcat(s.tickets, added, e.orderId);
    SumOfNew(e.ticketIds, e.orderId, e.ownerId, e.date, body.screening, body.places, e.price);
    forall i | 0 <= i < |s.tickets| ensures s.tickets[i].orderId != e.orderId {
      assert FromRead(s, s.tickets[i]);
    }
    SumOfOthers(s.tickets, e.orderId);
  }

  lemma StepKeepsPrice(s: System, e: Event, orderId: string)
    requires orderId in s.origin
    ensures orderId in Do(s, e).origin
    ensures SumPrices(Do(s, e).tickets, orderId) == SumPrices(s.tickets, orderId)
  {
    if !Possible(s, e) { return; }
    match e
    case InsertOrder(id, newOrder, ownerId, ticketIds, price, date) =>
      var body := s.seen[id];
      var added := NewTickets(ticketIds, newOrder, ownerId, date, body.screening, body.places, price);
      SumOfConcat(s.tickets, added, orderId);
      SumOfOthers(added, orderId);
    case ChangeStatus(update) => SumIgnoresStatus(s.tickets, Apply(s.tickets, update), orderId);
    case _ =>
  }

  // What an order costs is settled when it is made.
  lemma {:induction false} PriceSettled(s: System, run: seq<Event>, orderId: string)
    requires orderId in s.origin
    ensures orderId in Run(s, run).origin
    ensures SumPrices(Run(s, run).tickets, orderId) == SumPrices(s.tickets, orderId)
  {
    hide Do, SumPrices;
    if run != [] {
      PriceSettled(s, run[..|run| - 1], orderId);
      StepKeepsPrice(Run(s, run[..|run| - 1]), run[|run| - 1], orderId);
    }
  }

  // The amount handed to the payment service is what the order costs ever after, while
  // it fits the 32 bits it is computed on.
  lemma PaidWhatItCosts(s: System, e: Event, run: seq<Event>)
    requires Sound(s) && e.InsertOrder? && Possible(s, e)
    ensures SumPrices(Run(Do(s, e), run).tickets, e.orderId) == e.price * |e.ticketIds|
    ensures (e.price * |e.ticketIds|) % 0x1_0000_0000 == SumPrices(Run(Do(s, e), run).tickets, e.orderId)
            <==> e.price * |e.ticketIds| < 0x1_0000_0000
  {
    NewOrderPrice(s, e);
    PriceSettled(Do(s, e), run, e.orderId);
    hide Do, Run, SumPrices, Sound;
  }

  // An order just inserted is where the race of its two goroutines starts.
  lemma NewOrderStartsRace(s: System, e: Event)
    requires Sound(s) && e.InsertOrder? && Possible(s, e)
    ensures Race.Starts(Race.State(Do(s, e).tickets, Race.Paying(3), Race.Sending, Race.Finished), e.orderId)
  {
    var c, n := Do(s, e).tickets, |s.tickets|;
    forall i | 0 <= i < |c| && c[i].orderId == e.orderId ensures c[i].status == PaymentRequired {
      assert i < n ==> FromRead(s, s.tickets[i]);
    }
    assert c[n] in c && c[n].orderId == e.orderId;
  }
}
