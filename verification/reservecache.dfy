/**
  internal/repository/rediscache/reserveCache.go over a text-keyed store with a
  logical clock. Each operation is one atomic step, and each is proved to be the
  operation of CacheSpec on the names the texts stand for.
 */
module ReservationCache {
  import opened Strings
  import opened PlaceKeys
  import opened SliceUtils
  import opened Results
  import opened CacheSpec
  import opened TypedNames

  // ---------- steps the methods take on the text store ----------

  // An index set with these members; an empty set is no set.
  function StoreIndex(store: Store, screening: int64, items: set<string>): Store {
    if items == {} then store - {PrintInt(screening)} else store[PrintInt(screening) := Members(items)]
  }

  lemma TypedIndex(store: Store, screening: int64, items: set<string>)
    ensures Typed(StoreIndex(store, screening, items)) == WithIndex(Typed(store), screening, ReadSet(items))
  {
    hide ReadName, Typed, PrintInt;
    ReadSetName(screening);
    ReadSetUnion(items, {});
    TypedPut(store, PrintInt(screening), Members(items));
    TypedDrop(store, {PrintInt(screening)});
    assert ReadSet({PrintInt(screening)}) == {SetName(screening)};
  }

  // These texts are the keys of these places.
  ghost predicate Spells(keys: seq<string>, body: Reservation) {
    ReadSet(Elements(keys)) == KeysOf(body)
  }

  lemma SpellNone(screening: int64)
    ensures Spells([], Reservation([], screening))
  {
    assert KeysOf(Reservation([], screening)) == {};
  }

  lemma SpellOne(keys: seq<string>, body: Reservation, p: Place)
    requires Spells(keys, body)
    ensures Spells(keys + [PlaceKey(body.screening, p)], Reservation(body.places + [p], body.screening))
    ensures KeysOf(Reservation(body.places + [p], body.screening)) == KeysOf(body) + {SeatName(body.screening, p)}
  {
    hide ReadName, PlaceKey;
    var key := PlaceKey(body.screening, p);
    ReadPlaceKey(body.screening, p);
    assert Elements(keys + [key]) == Elements(keys) + {key};
    ReadSetUnion(Elements(keys), {key});
    assert ReadSet({key}) == {SeatName(body.screening, p)};
    assert KeysOf(Reservation(body.places + [p], body.screening)) == KeysOf(body) + {SeatName(body.screening, p)};
  }

  // The commands queued so far: a SET of each of these place keys.
  ghost predicate Staged(staged: Store, base: Names, body: Reservation, deadline: nat) {
    Typed(staged) == base + (map k | k in KeysOf(body) :: Text(k, deadline))
  }

  lemma StageOne(staged: Store, base: Names, keys: seq<string>, body: Reservation, deadline: nat, p: Place)
    requires Staged(staged, base, body, deadline) && Spells(keys, body)
    ensures var key := PlaceKey(body.screening, p);
            Staged(staged[key := Text(key, deadline)], base, Reservation(body.places + [p], body.screening), deadline)
  {
    hide ReadName, PlaceKey, Typed;
    var key := PlaceKey(body.screening, p);
    ReadPlaceKey(body.screening, p);
    TypedPut(staged, key, Text(key, deadline));
    SpellOne(keys, body, p);
  }

  lemma ReserveDone(c: Cache, id: Name, body: Reservation, ttl: nat, staged: Names)
    requires staged == c.names[id := Record(body, c.now + ttl)] + (map k | k in KeysOf(body) :: Text(k, c.now + ttl))
    ensures body.places == [] ==> Reserve(c, id, body, ttl) == c.(names := staged)
    ensures body.places != [] ==>
              Reserve(c, id, body, ttl) ==
              c.(names := WithIndex(staged, body.screening, Index(c, body.screening) + KeysOf(body)))
  {
    if body.places == [] {
      assert KeysOf(body) == {};
      assert staged == c.names[id := Record(body, c.now + ttl)];
    }
  }

  // The texts an MGET answers with a value.
  predicate Answered(store: Store, now: nat, key: string) {
    key in store && Fresh(store[key], now) && store[key].Text?
  }

  ghost function LiveTexts(store: Store, now: nat, texts: set<string>): set<string> {
    set k | k in texts && Answered(store, now, k)
  }

  lemma NoTexts(store: Store, now: nat)
    ensures LiveTexts(store, now, {}) == {}
  {
  }

  lemma SubsetCount<T>(a: set<T>, b: set<T>)
    requires a <= b
    ensures |a| <= |b| && (|a| == |b| ==> a == b)
  {
    assert b == a + (b - a);
    if |a| == |b| { SubsetSameSize(a, b); }
  }

  // The names to SREM. The list is made with a length and then appended to, so it
  // starts with that many empty strings.
  method Removals(keys: seq<string>, found: set<string>, length: nat) returns (toRemove: seq<string>)
    requires length > 0
    ensures Elements(toRemove) == {""} + (Elements(keys) - found)
  {
    toRemove := seq(length, _ => "");
    assert toRemove[0] == "";
    assert Elements(toRemove) == {""};
    for i := 0 to |keys|
      invariant Elements(toRemove) == {""} + (Elements(keys[..i]) - found)
    {
      assert keys[..i + 1] == keys[..i] + [keys[i]];
      if keys[i] !in found {
        assert Elements(toRemove + [keys[i]]) == Elements(toRemove) + {keys[i]};
        toRemove := toRemove + [keys[i]];
      }
    }
    assert keys[..|keys|] == keys;
  }

  // With nothing to drop, cleaning is no change.
  lemma CleanNothing(c: Cache, screening: int64)
    requires Named(c) && forall k :: k in Index(c, screening) ==> Alive(c, k)
    ensures Clean(c, screening) == c
  {
    var live := set k | k in Index(c, screening) && Alive(c, k);
    assert live == Index(c, screening);
    if SetName(screening) in c.names {
      assert WellNamed(SetName(screening), c.names[SetName(screening)]);
      assert c.names[SetName(screening) := Members(live)] == c.names;
    } else {
      assert c.names - {SetName(screening)} == c.names;
    }
  }

  lemma NothingStaged(staged: Store, base: Names, screening: int64, deadline: nat)
    requires base == Typed(staged)
    ensures Staged(staged, base, Reservation([], screening), deadline) && Spells([], Reservation([], screening))
  {
    hide Typed;
    SpellNone(screening);
    assert KeysOf(Reservation([], screening)) == {};
  }

  lemma ReadSeat(key: string)
    requires ReadName(key).SeatName?
    ensures ReadName(key).place == Place(ParseKey(key).row, ParseKey(key).seat)
  {
  }

  lemma NoPlaces(c: Cache, screening: int64)
    requires Inv(c) && (set k | k in Index(c, screening) && Alive(c, k)) == {}
    ensures ReservedPlaces(View(c), screening) == {}
  {
    var live := set k | k in Index(c, screening) && Alive(c, k);
    forall p: Place ensures p !in ReservedPlaces(View(c), screening) {
      ReservedKey(c, screening, p);
      assert SeatName(screening, p) !in live;
    }
  }

  // Keys that spell seats of one screening, and the seats they spell.
  lemma SamePlaces(keys: seq<string>, screening: int64, places: seq<Place>, expected: set<Place>)
    requires Distinct(keys) && |keys| == |places|
    requires forall j :: 0 <= j < |keys| ==> ReadName(keys[j]) == SeatName(screening, places[j])
    requires ReadSet(Elements(keys)) == set p | p in expected :: SeatName(screening, p)
    ensures Distinct(places) && Elements(places) == expected
  {
    hide ReadName;
    forall i, j | 0 <= i < j < |places| ensures places[i] != places[j] {
      if places[i] == places[j] {
        ReadNameInjective(keys[i], keys[j]);
      }
    }
    forall p | p in places ensures p in expected {
      var j :| 0 <= j < |places| && places[j] == p;
      assert keys[j] in Elements(keys);
      assert SeatName(screening, p) in ReadSet(Elements(keys));
    }
    forall p | p in expected ensures p in places {
      assert SeatName(screening, p) in ReadSet(Elements(keys));
      var k :| k in Elements(keys) && ReadName(k) == SeatName(screening, p);
      var j :| 0 <= j < |keys| && keys[j] == k;
      assert places[j] == p;
    }
  }

  // The readings of a batch that get through.
  function Reached(ids: seq<int64>, answers: seq<bool>): seq<int64>
    requires |answers| == |ids|
  {
    if ids == [] then []
    else
      var n := |ids| - 1;
      Reached(ids[..n], answers[..n]) + if answers[n] then [ids[n]] else []
  }

  // Whether a screening's last reading does.
  predicate ReachedLast(ids: seq<int64>, answers: seq<bool>, id: int64)
    requires |answers| == |ids|
  {
    ids != [] &&
    var n := |ids| - 1;
    if ids[n] == id then answers[n] else ReachedLast(ids[..n], answers[..n], id)
  }

  lemma OneMoreReached(ids: seq<int64>, answers: seq<bool>, id: int64, answer: bool)
    requires |answers| == |ids|
    ensures Reached(ids + [id], answers + [answer]) == Reached(ids, answers) + if answer then [id] else []
    ensures forall x :: ReachedLast(ids + [id], answers + [answer], x) ==
                        if x == id then answer else ReachedLast(ids, answers, x)
  {
    assert (ids + [id])[..|ids|] == ids && (answers + [answer])[..|ids|] == answers;
  }

  lemma {:induction false} ReachedAt(ids: seq<int64>, answers: seq<bool>, id: int64) returns (k: nat)
    requires |answers| == |ids| && ReachedLast(ids, answers, id)
    ensures k < |ids| && ids[k] == id && answers[k] && forall m :: k < m < |ids| ==> ids[m] != id
  {
    var n := |ids| - 1;
    if ids[n] == id {
      k := n;
    } else {
      k := ReachedAt(ids[..n], answers[..n], id);
      assert forall m :: k < m < n ==> ids[m] == ids[..n][m];
    }
  }

  lemma {:induction false} ReachedIf(ids: seq<int64>, answers: seq<bool>, id: int64, k: nat)
    requires |answers| == |ids| && k < |ids| && ids[k] == id && forall m :: k < m < |ids| ==> ids[m] != id
    ensures ReachedLast(ids, answers, id) == answers[k]
  {
    var n := |ids| - 1;
    if k < n {
      ReachedIf(ids[..n], answers[..n], id, k);
    }
  }

  // The reading that counts is the last one of the screening.
  lemma ReachedLastMeans(ids: seq<int64>, answers: seq<bool>, id: int64)
    requires |answers| == |ids|
    ensures ReachedLast(ids, answers, id) <==>
            exists k :: 0 <= k < |ids| && ids[k] == id && answers[k] && forall m :: k < m < |ids| ==> ids[m] != id
  {
    hide ReachedLast;
    if ReachedLast(ids, answers, id) {
      var k := ReachedAt(ids, answers, id);
    }
    if k :| 0 <= k < |ids| && ids[k] == id && answers[k] && forall m :: k < m < |ids| ==> ids[m] != id {
      ReachedIf(ids, answers, id, k);
    }
  }

  lemma NoneReached(c: Cache)
    ensures Reached([], []) == [] && CleanAll(c, []) == c
  {
  }

  lemma CleanOneMore(c: Cache, screenings: seq<int64>, screening: int64)
    ensures CleanAll(c, screenings + [screening]) == Clean(CleanAll(c, screenings), screening)
  {
    hide Clean;
    assert (screenings + [screening])[..|screenings|] == screenings;
  }

  class ReserveCache {
    var now: nat
    var store: Store

    ghost function State(): Cache
      reads this
    {
      Cache(now, Typed(store))
    }

    ghost predicate Valid()
      reads this
    {
      Inv(State())
    }

    constructor ()
      ensures Valid() && View(State()) == map[] && now == 0
    {
      now, store := 0, map[];
    }

    // ---------- the store's own commands ----------

    // SMEMBERS, as a set.
    function SetMembers(screening: int64): set<string>
      reads this
    {
      var name := PrintInt(screening);
      if name in store && store[name].Members? then store[name].items else {}
    }

    // Whether MGET answers with a value.
    predicate Answers(key: string)
      reads this
    {
      Answered(store, now, key)
    }

    lemma SetMembersAreIndex(screening: int64)
      ensures ReadSet(SetMembers(screening)) == Index(State(), screening)
    {
      hide ReadName;
      ReadSetName(screening);
      TypedLookup(store, PrintInt(screening));
    }

    // An index member is a place key of its screening, and its value is itself.
    lemma MemberFacts(screening: int64, key: string)
      requires Valid() && key in SetMembers(screening)
      ensures ReadName(key).SeatName? && ReadName(key).screening == screening
      ensures ReadName(key) in Index(State(), screening)
      ensures Answers(key) <==> Alive(State(), ReadName(key))
      ensures Answers(key) ==> store[key].value == key
      ensures key != ""
    {
      hide ReadName, Typed;
      var c := State();
      SetMembersAreIndex(screening);
      InReadSet(SetMembers(screening), key);
      assert WellNamed(SetName(screening), c.names[SetName(screening)]);
      TypedLookup(store, key);
      if key in store {
        assert WellNamed(ReadName(key), c.names[ReadName(key)]);
        if store[key].Text? {
          ReadNameInjective(store[key].value, key);
        }
      }
      ReadEmpty();
    }

    // ---------- reserveCache.go ----------

    method ReservePlaces(id: string, screening: int64, places: seq<Place>, ttl: nat) returns (r: Result<string>)
      requires Valid() && IsUuid(id) && id !in store && ttl > 0
      modifies this`store
      ensures State() == Reserve(old(State()), OtherName(id), Reservation(places, screening), ttl)
      ensures r == if places == [] then Err(Internal) else Ok(id)
    {
      hide ReadName, PlaceKey, IsUuid, Inv, Typed, KeysOf, SetMembers, Index, ReadSet, Reserve;
      ghost var before := State();
      SetMembersAreIndex(screening);
      var indexed := SetMembers(screening);
      ReadUuid(id);
      var body := Reservation(places, screening);
      var staged := store[id := Record(body, now + ttl)];
      TypedPut(store, id, Record(body, now + ttl));
      ghost var base := Typed(staged);
      var keys: seq<string> := [];
      NothingStaged(staged, base, screening, now + ttl);
      for i := 0 to |places|
        invariant |keys| == i && store == old(store)
        invariant Spells(keys, Reservation(places[..i], screening))
        invariant Staged(staged, base, Reservation(places[..i], screening), now + ttl)
      {
        var key := PlaceKey(screening, places[i]);
        StageOne(staged, base, keys, Reservation(places[..i], screening), now + ttl, places[i]);
        SpellOne(keys, Reservation(places[..i], screening), places[i]);
        assert places[..i + 1] == places[..i] + [places[i]];
        keys := keys + [key];
        staged := staged[key := Text(key, now + ttl)];
      }
      assert places[..|places|] == places;
      ReserveDone(before, OtherName(id), body, ttl, Typed(staged));
      if keys == [] {
        store := staged;
        return Err(Internal);
      }
      ReadSetUnion(indexed, Elements(keys));
      TypedIndex(staged, screening, indexed + Elements(keys));
      store := StoreIndex(staged, screening, indexed + Elements(keys));
      return Ok(id);
    }

    // A GET of an arbitrary name, decoded as a reservation.
    method GetReservation(id: string) returns (r: Result<Reservation>)
      ensures r.Ok? <==> ReadName(id) in View(State())
      ensures r.Ok? ==> r.value == View(State())[ReadName(id)].body
      ensures r.Err? ==> r.code == if Alive(State(), ReadName(id)) then Internal else NotFound
    {
      hide ReadName, Typed;
      TypedLookup(store, id);
      if id !in store || !Fresh(store[id], now) {
        return Err(NotFound);
      }
      match store[id] {
        case Record(body, _) => return Ok(body);
        case _ => return Err(Internal);
      }
    }

    method DeletePlacesReservation(id: string) returns (r: Result<()>)
      modifies this`store
      ensures State() == Delete(old(State()), ReadName(id))
      ensures r.Ok? <==> Deletable(old(State()), ReadName(id))
      ensures r.Err? ==> r.code == if Alive(old(State()), ReadName(id)) then Internal else NotFound
    {
      hide ReadName, PlaceKey, IsUuid, Inv, Typed, KeysOf, SetMembers, Index, ReadSet;
      ghost var before := State();
      var reply := GetReservation(id);
      if reply.Err? {
        return Err(reply.code);
      }
      var body := reply.value;
      SetMembersAreIndex(body.screening);
      var indexed := SetMembers(body.screening);
      var keys: seq<string> := [];
      SpellNone(body.screening);
      for i := 0 to |body.places|
        invariant |keys| == i && store == old(store)
        invariant Spells(keys, Reservation(body.places[..i], body.screening))
      {
        assert body.places[..i + 1] == body.places[..i] + [body.places[i]];
        SpellOne(keys, Reservation(body.places[..i], body.screening), body.places[i]);
        keys := keys + [PlaceKey(body.screening, body.places[i])];
      }
      assert body.places[..|body.places|] == body.places;
      if keys == [] {
        return Err(Internal);
      }
      ReadSetUnion(indexed, Elements(keys));
      TypedIndex(store, body.screening, indexed - Elements(keys));
      var removed := StoreIndex(store, body.screening, indexed - Elements(keys));
      TypedDrop(removed, Elements(keys) + {id});
      ReadSetUnion(Elements(keys), {id});
      ReadSetOne(id);
      store := removed - (Elements(keys) + {id});
      return Ok(());
    }

    // The values an MGET of indexed names answers with, as a set.
    method MGetValues(screening: int64, keys: seq<string>) returns (found: set<string>)
      requires Valid() && Elements(keys) <= SetMembers(screening)
      ensures found == LiveTexts(store, now, Elements(keys)) && found <= Elements(keys)
    {
      hide ReadName, Inv, SetMembers;
      found := {};
      for i := 0 to |keys|
        invariant found == set k | k in Elements(keys[..i]) && Answers(k)
      {
        assert keys[..i + 1] == keys[..i] + [keys[i]];
        assert keys[i] in Elements(keys);
        MemberFacts(screening, keys[i]);
        if Answers(keys[i]) {
          found := found + {store[keys[i]].value};
        }
      }
      assert keys[..|keys|] == keys;
    }

    lemma LiveNames(screening: int64, live: set<string>)
      requires Valid() && live == LiveTexts(store, now, SetMembers(screening))
      ensures ReadSet(live) == set k | k in Index(State(), screening) && Alive(State(), k)
    {
      hide ReadName, Typed;
      var c := State();
      SetMembersAreIndex(screening);
      forall k | k in SetMembers(screening) ensures Answers(k) <==> Alive(c, ReadName(k)) {
        MemberFacts(screening, k);
      }
    }

    // What cleaning keeps, in names and in texts.
    lemma LiveMembers(screening: int64, live: set<string>)
      requires Valid() && live == LiveTexts(store, now, SetMembers(screening))
      ensures Clean(State(), screening) ==
              Cache(now, WithIndex(Typed(store), screening, ReadSet(live)))
      ensures live == SetMembers(screening) ==> Clean(State(), screening) == State()
      ensures "" !in SetMembers(screening)
    {
      hide ReadName, Typed;
      var c := State();
      SetMembersAreIndex(screening);
      forall k | k in SetMembers(screening)
        ensures k != "" && (Answers(k) <==> Alive(c, ReadName(k)))
      {
        MemberFacts(screening, k);
      }
      LiveNames(screening, live);
      if live == SetMembers(screening) {
        CleanNothing(c, screening);
      }
    }

    // Drops the indexed names that hold no value any more; returns the ones that do.
    method RemoveNonexistantKeys(screening: int64, keys: seq<string>) returns (existing: seq<string>)
      requires Valid() && Distinct(keys) && Elements(keys) == SetMembers(screening)
      modifies this`store
      ensures State() == Clean(old(State()), screening)
      ensures Distinct(existing)
      ensures Elements(existing) == LiveTexts(old(store), now, Elements(keys))
    {
      hide ReadName, Typed, ReadSet, Inv, Clean, WithIndex, StoreIndex, PrintInt, SetMembers, LiveTexts, Distinct;
      ghost var live := LiveTexts(store, now, Elements(keys));
      LiveMembers(screening, live);
      if |keys| == 0 {
        assert Elements(keys) == {};
        NoTexts(store, now);
        return keys;
      }
      var found := MGetValues(screening, keys);
      DistinctCount(keys);
      SubsetCount(found, Elements(keys));
      var toRemoveLen := |keys| - |found|;
      if toRemoveLen == 0 {
        return keys;
      }
      var toRemove := Removals(keys, found, toRemoveLen);
      var kept := SetMembers(screening) - Elements(toRemove);
      assert kept == live;
      TypedIndex(store, screening, kept);
      store := StoreIndex(store, screening, kept);
      existing := Keys(found);
    }

    // Each place of a live reservation of the screening, once. Reading cleans the
    // index and changes nothing else.
    method GetReservedPlacesForScreening(screening: int64) returns (places: seq<Place>)
      requires Valid()
      modifies this`store
      ensures State() == Clean(old(State()), screening) && Valid() && View(State()) == View(old(State()))
      ensures Distinct(places) && Elements(places) == ReservedPlaces(View(old(State())), screening)
    {
      hide ReadName, Typed, Inv, Clean, View, ReservedPlaces, SetMembers, Answers, ParseKey, ReadSet;
      ghost var before := State();
      ghost var live := LiveTexts(store, now, SetMembers(screening));
      LiveMembers(screening, live);
      LiveNames(screening, live);
      CleanRefines(before, screening);
      LiveKeys(before, screening);
      forall k | k in live ensures ReadName(k).SeatName? && ReadName(k).screening == screening {
        MemberFacts(screening, k);
      }
      var keys := Keys(SetMembers(screening));
      if |keys| == 0 {
        assert live == {} && SetMembers(screening) == {};
        ReadSetUnion(live, live);
        NoPlaces(before, screening);
        return [];
      }
      keys := RemoveNonexistantKeys(screening, keys);
      assert Elements(keys) == live;
      places := [];
      for i := 0 to |keys|
        invariant |places| == i && State() == Clean(before, screening)
        invariant forall j :: 0 <= j < i ==> ReadName(keys[j]) == SeatName(screening, places[j])
      {
        assert keys[i] in Elements(keys);
        var parsed := ParseKey(keys[i]);
        ReadSeat(keys[i]);
        places := places + [Place(parsed.row, parsed.seat)];
      }
      SamePlaces(keys, screening, places, ReservedPlaces(View(before), screening));
    }

    // One reading after another. A reading that fails is not noticed, because the test is
    // of the batch's own error: it leaves an empty entry.
    method GetScreeningsReservedPlaces(ids: seq<int64>, answers: seq<bool>)
      returns (reserved: map<int64, seq<Place>>)
      requires Valid() && |answers| == |ids|
      modifies this`store
      ensures State() == CleanAll(old(State()), Reached(ids, answers))
      ensures Valid() && View(State()) == View(old(State()))
      ensures reserved.Keys == Elements(ids)
      ensures forall id :: id in ids ==>
                Distinct(reserved[id]) &&
                Elements(reserved[id]) ==
                if ReachedLast(ids, answers, id) then ReservedPlaces(View(old(State())), id) else {}
    {
      NoneReached(State());
      hide Typed, Inv, Clean, View, ReservedPlaces, CleanAll, Reached, ReachedLast;
      reserved := map[];
      for i := 0 to |ids|
        invariant State() == CleanAll(old(State()), Reached(ids[..i], answers[..i]))
        invariant Valid() && View(State()) == View(old(State()))
        invariant reserved.Keys == Elements(ids[..i])
        invariant forall id :: id in ids[..i] ==>
                    Distinct(reserved[id]) &&
                    Elements(reserved[id]) ==
                    if ReachedLast(ids[..i], answers[..i], id) then ReservedPlaces(View(old(State())), id) else {}
      {
        assert ids[..i + 1] == ids[..i] + [ids[i]];
        OneMoreReached(ids[..i], answers[..i], ids[i], answers[i]);
        CleanOneMore(old(State()), Reached(ids[..i], answers[..i]), ids[i]);
        assert Reached(ids[..i], answers[..i]) + [] == Reached(ids[..i], answers[..i]);
        assert answers[..i + 1] == answers[..i] + [answers[i]];
        var places: seq<Place> := [];
        if answers[i] {
          places := GetReservedPlacesForScreening(ids[i]);
        }
        reserved := reserved[ids[i] := places];
      }
      assert ids[..|ids|] == ids && answers[..|ids|] == answers;
    }
  }
}
