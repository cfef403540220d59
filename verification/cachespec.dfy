/**
  The reservation cache as a value: one flat key space in which place keys and
  reservation records expire while the per-screening index sets do not, and the
  effect of each cache operation on it. The simple thing it stands for is `View`,
  the reservations that are alive.
 */
module CacheSpec {
  import opened Strings
  import opened PlaceKeys
  import opened SliceUtils

  datatype Reservation = Reservation(places: seq<Place>, screening: int64)

  // What a name holds: a place key's text, the JSON of a reservation, or an index set.
  datatype Entry<K> =
    | Text(value: K, deadline: nat)
    | Record(body: Reservation, deadline: nat)
    | Members(items: set<K>)

  type Names = map<Name, Entry<Name>>

  datatype Cache = Cache(now: nat, names: Names)

  predicate Fresh<K>(e: Entry<K>, now: nat) {
    e.Members? || now < e.deadline
  }

  // What a GET would find.
  predicate Alive(c: Cache, name: Name) {
    name in c.names && Fresh(c.names[name], c.now)
  }

  predicate LiveRecord(c: Cache, id: Name) {
    Alive(c, id) && c.names[id].Record?
  }

  predicate LiveKey(c: Cache, k: Name) {
    k.SeatName? && Alive(c, k) && c.names[k].Text?
  }

  function Index(c: Cache, screening: int64): set<Name> {
    if SetName(screening) in c.names && c.names[SetName(screening)].Members?
    then c.names[SetName(screening)].items else {}
  }

  function KeysOf(body: Reservation): set<Name> {
    set p | p in body.places :: SeatName(body.screening, p)
  }

  // ---------- the simple view ----------

  datatype Hold = Hold(body: Reservation, until: nat)

  type Holds = map<Name, Hold>

  function View(c: Cache): Holds {
    map id | id in c.names && LiveRecord(c, id) :: Hold(c.names[id].body, c.names[id].deadline)
  }

  predicate Lists(h: Hold, screening: int64, place: Place) {
    h.body.screening == screening && place in h.body.places
  }

  predicate Reserved(v: Holds, screening: int64, place: Place) {
    exists id :: id in v && Lists(v[id], screening, place)
  }

  function ReservedPlaces(v: Holds, screening: int64): set<Place> {
    set id, p | id in v && v[id].body.screening == screening && p in v[id].body.places :: p
  }

  // A reservation is alive strictly before its deadline; its places are reserved.
  lemma ViewMeans(c: Cache, id: Name)
    ensures id in View(c) <==> id in c.names && c.names[id].Record? && c.now < c.names[id].deadline
    ensures id in View(c) ==> View(c)[id] == Hold(c.names[id].body, c.names[id].deadline)
  {
  }

  lemma ReservedMeans(c: Cache, screening: int64)
    ensures ReservedPlaces(View(c), screening) ==
            set id, p | id in c.names && c.names[id].Record? && c.now < c.names[id].deadline
                        && c.names[id].body.screening == screening && p in c.names[id].body.places :: p
    ensures forall p :: p in ReservedPlaces(View(c), screening) <==> Reserved(View(c), screening, p)
  {
    var places := set id, p | id in c.names && c.names[id].Record? && c.now < c.names[id].deadline
                              && c.names[id].body.screening == screening && p in c.names[id].body.places :: p;
    forall p ensures p in ReservedPlaces(View(c), screening) <==> p in places {
      if p in places {
        var id :| id in c.names && c.names[id].Record? && c.now < c.names[id].deadline
                  && c.names[id].body.screening == screening && p in c.names[id].body.places;
        assert id in View(c) && View(c)[id].body == c.names[id].body;
      }
      if p in ReservedPlaces(View(c), screening) {
        var id :| id in View(c) && View(c)[id].body.screening == screening && p in View(c)[id].body.places;
        assert id in c.names && c.names[id].body == View(c)[id].body;
      }
    }
    forall p ensures p in ReservedPlaces(View(c), screening) <==> Reserved(View(c), screening, p) {
      if id :| id in View(c) && View(c)[id].body.screening == screening && p in View(c)[id].body.places {
        assert Lists(View(c)[id], screening, p);
      }
    }
  }

  // ---------- the operations ----------

  function WithIndex(names: Names, screening: int64, items: set<Name>): Names {
    if items == {} then names - {SetName(screening)} else names[SetName(screening) := Members(items)]
  }

  // ReservePlaces: SET the record, SET each place key, SADD the keys. SADD of no
  // keys is an error, after the record was already set.
  function Reserve(c: Cache, id: Name, body: Reservation, ttl: nat): Cache {
    var recorded := c.names[id := Record(body, c.now + ttl)];
    var keyed := recorded + map k | k in KeysOf(body) :: Text(k, c.now + ttl);
    if body.places == [] then c.(names := recorded)
    else c.(names := WithIndex(keyed, body.screening, Index(c, body.screening) + KeysOf(body)))
  }

  // DeletePlacesReservation: SREM the place keys, DEL them and the record. Only a
  // live record can be deleted, and SREM of no keys is an error before the DEL.
  predicate Deletable(c: Cache, id: Name) {
    LiveRecord(c, id) && c.names[id].body.places != []
  }

  function Delete(c: Cache, id: Name): Cache {
    if !Deletable(c, id) then c
    else
      var body := c.names[id].body;
      c.(names := WithIndex(c.names, body.screening, Index(c, body.screening) - KeysOf(body))
                  - (KeysOf(body) + {id}))
  }

  // What a delete's DEL does, its SREM being a Remove of the same keys.
  function DropKeys(c: Cache, id: Name, body: Reservation): Cache {
    c.(names := c.names - (KeysOf(body) + {id}))
  }

  // The SREM a cleanup ends with, of names it saw without a value some time before, and
  // the one of a delete.
  function Remove(c: Cache, screening: int64, stale: set<Name>): Cache {
    c.(names := WithIndex(c.names, screening, Index(c, screening) - stale))
  }

  // The cleanup every read of a screening performs.
  function Clean(c: Cache, screening: int64): Cache {
    c.(names := WithIndex(c.names, screening, set k | k in Index(c, screening) && Alive(c, k)))
  }

  function Tick(c: Cache, elapsed: nat): Cache {
    c.(now := c.now + elapsed)
  }

  // The store may drop what has expired at any time.
  function Evict(c: Cache, names: set<Name>): Cache {
    c.(names := c.names - set k | k in names && !Alive(c, k))
  }

  // ---------- what they do to each name ----------

  // Reserving files the record, keys each place to itself, and indexes the keys, all with
  // one deadline; nothing else changes. Without places only the record is filed.
  lemma ReserveMeans(c: Cache, id: Name, body: Reservation, ttl: nat)
    requires id.OtherName?
    ensures var c' := Reserve(c, id, body, ttl);
      && c'.now == c.now && id in c'.names && c'.names[id] == Record(body, c.now + ttl)
      && (forall text :: OtherName(text) != id ==>
           (OtherName(text) in c'.names <==> OtherName(text) in c.names)
           && (OtherName(text) in c.names ==> c'.names[OtherName(text)] == c.names[OtherName(text)]))
    ensures var c' := Reserve(c, id, body, ttl);
      forall n, p ::
        if n == body.screening && p in body.places
        then SeatName(n, p) in c'.names && c'.names[SeatName(n, p)] == Text(SeatName(n, p), c.now + ttl)
        else (SeatName(n, p) in c'.names <==> SeatName(n, p) in c.names)
             && (SeatName(n, p) in c.names ==> c'.names[SeatName(n, p)] == c.names[SeatName(n, p)])
    ensures forall n :: Index(Reserve(c, id, body, ttl), n) ==
                        if n == body.screening
                        then Index(c, n) + set p | p in body.places :: SeatName(n, p)
                        else Index(c, n)
  {
  }

  // Deleting takes away the record, the keys of its places, and their entries in the index.
  lemma DeleteMeans(c: Cache, id: Name)
    requires id.OtherName?
    ensures !(id in c.names && c.names[id].Record? && c.now < c.names[id].deadline && c.names[id].body.places != []) ==>
              Delete(c, id) == c
    ensures id in c.names && c.names[id].Record? && c.now < c.names[id].deadline && c.names[id].body.places != [] ==>
              var c', body := Delete(c, id), c.names[id].body;
              && c'.now == c.now && id !in c'.names
              && (forall text :: OtherName(text) != id ==>
                   (OtherName(text) in c'.names <==> OtherName(text) in c.names)
                   && (OtherName(text) in c.names ==> c'.names[OtherName(text)] == c.names[OtherName(text)]))
              && (forall n, p ::
                   (SeatName(n, p) in c'.names <==>
                      SeatName(n, p) in c.names && !(n == body.screening && p in body.places))
                   && (SeatName(n, p) in c'.names ==> c'.names[SeatName(n, p)] == c.names[SeatName(n, p)]))
              && (forall n :: Index(c', n) ==
                              if n == body.screening
                              then Index(c, n) - set p | p in body.places :: SeatName(n, p)
                              else Index(c, n))
  {
  }

  // Cleaning leaves in one screening's index the names that are there and have not expired.
  lemma CleanMeans(c: Cache, screening: int64)
    ensures var c' := Clean(c, screening);
      && c'.now == c.now
      && (forall n :: n != SetName(screening) ==>
           (n in c'.names <==> n in c.names) && (n in c.names ==> c'.names[n] == c.names[n]))
      && (forall n :: Index(c', n) ==
                      if n != screening then Index(c, n)
                      else set k | k in Index(c, n) && k in c.names
                                   && (c.names[k].Members? || c.now < c.names[k].deadline))
  {
  }

  // ---------- the representation invariant ----------

  // What each kind of name holds, expired or not.
  ghost predicate WellNamed(name: Name, e: Entry<Name>) {
    match e
    case Text(value, _) => name.SeatName? && value == name
    case Record(body, _) => name.OtherName? && Distinct(body.places)
    case Members(items) =>
      name.SetName? && items != {} && forall k :: k in items ==> k.SeatName? && k.screening == name.screening
  }

  ghost predicate Named(c: Cache) {
    forall n :: n in c.names ==> WellNamed(n, c.names[n])
  }

  ghost predicate BackedBy(c: Cache, k: Name, id: Name)
    requires LiveKey(c, k)
  {
    id in View(c) && Lists(View(c)[id], k.screening, k.place) && View(c)[id].until == c.names[k].deadline
  }

  // A live place key is listed by a live reservation that lasts as long, and it is
  // indexed, unless it is gone from the index because a delete is on its way.
  ghost predicate KeyBacked(c: Cache, gone: set<Name>, k: Name)
    requires LiveKey(c, k)
  {
    (k in Index(c, k.screening) || k in gone) && exists id :: BackedBy(c, k, id)
  }

  ghost predicate KeysBacked(c: Cache, gone: set<Name>) {
    forall k :: LiveKey(c, k) ==> KeyBacked(c, gone, k)
  }

  // Every place of a live reservation has its key, alive for as long.
  ghost predicate PlacesKeyed(c: Cache) {
    forall id, s, p :: id in View(c) && Lists(View(c)[id], s, p) ==>
      SeatName(s, p) in c.names && c.names[SeatName(s, p)] == Text(SeatName(s, p), View(c)[id].until)
  }

  // No two live reservations list one place.
  ghost predicate Disjoint(v: Holds) {
    forall id1, id2, s, p ::
      id1 in v && id2 in v && Lists(v[id1], s, p) && Lists(v[id2], s, p) ==> id1 == id2
  }

  // The invariant while deletes are on their way that have taken `gone` off the index.
  ghost predicate InvBut(c: Cache, gone: set<Name>) {
    Named(c) && KeysBacked(c, gone) && PlacesKeyed(c) && Disjoint(View(c))
  }

  ghost predicate Inv(c: Cache) {
    InvBut(c, {})
  }

  // ---------- every operation keeps the invariant and refines the view ----------

  ghost predicate NoneReserved(v: Holds, body: Reservation) {
    forall p :: p in body.places ==> !Reserved(v, body.screening, p)
  }

  // Only reservation ids name records.
  lemma RecordsAreOther(c: Cache)
    requires Named(c)
    ensures forall n :: n in c.names && c.names[n].Record? ==> n.OtherName?
  {
    forall n | n in c.names && c.names[n].Record? ensures n.OtherName? {
      assert WellNamed(n, c.names[n]);
    }
  }

  // Of the names that are neither place keys nor sets, reserving sets exactly its own.
  lemma ReserveOthers(c: Cache, id: Name, body: Reservation, ttl: nat)
    requires id.OtherName?
    ensures forall n: Name :: n.OtherName? && n != id ==>
              (n in Reserve(c, id, body, ttl).names <==> n in c.names)
              && (n in c.names ==> Reserve(c, id, body, ttl).names[n] == c.names[n])
    ensures id in Reserve(c, id, body, ttl).names
    ensures Reserve(c, id, body, ttl).names[id] == Record(body, c.now + ttl)
    ensures Reserve(c, id, body, ttl).now == c.now
  {
  }

  // No other name becomes a record.
  lemma ReserveRecords(c: Cache, id: Name, body: Reservation, ttl: nat)
    ensures forall n :: n in Reserve(c, id, body, ttl).names && n != id
                        && Reserve(c, id, body, ttl).names[n].Record? ==>
              n in c.names && c.names[n] == Reserve(c, id, body, ttl).names[n]
  {
  }

  lemma ReserveView(c: Cache, id: Name, body: Reservation, ttl: nat)
    requires Named(c) && id.OtherName? && id !in c.names && ttl > 0
    ensures View(Reserve(c, id, body, ttl)) == View(c)[id := Hold(body, c.now + ttl)]
    ensures id !in View(c)
  {
    RecordsAreOther(c);
    ReserveOthers(c, id, body, ttl);
    ReserveRecords(c, id, body, ttl);
    hide Reserve, Named;
  }

  lemma ReserveNamed(c: Cache, id: Name, body: Reservation, ttl: nat)
    requires Named(c) && id.OtherName? && id !in c.names && Distinct(body.places)
    ensures Named(Reserve(c, id, body, ttl))
  {
  }

  lemma ReserveBacked(c: Cache, gone: set<Name>, id: Name, body: Reservation, ttl: nat)
    requires Named(c) && KeysBacked(c, gone) && id.OtherName? && id !in c.names && ttl > 0
    ensures KeysBacked(Reserve(c, id, body, ttl), gone)
  {
    ReserveView(c, id, body, ttl);
    var c' := Reserve(c, id, body, ttl);
    forall k | LiveKey(c', k) ensures KeyBacked(c', gone, k) {
      if k in KeysOf(body) {
        assert BackedBy(c', k, id);
      } else {
        assert KeyBacked(c, gone, k);
        var r :| BackedBy(c, k, r);
        assert BackedBy(c', k, r);
      }
    }
  }

  lemma ReserveKeyed(c: Cache, id: Name, body: Reservation, ttl: nat)
    requires Named(c) && PlacesKeyed(c) && id.OtherName? && id !in c.names && ttl > 0
    requires NoneReserved(View(c), body)
    ensures PlacesKeyed(Reserve(c, id, body, ttl))
  {
    ReserveView(c, id, body, ttl);
    var c' := Reserve(c, id, body, ttl);
    forall k: Name | k.SeatName?
      ensures k in KeysOf(body) ==> k in c'.names && c'.names[k] == Text(k, c.now + ttl)
      ensures k in c.names && k !in KeysOf(body) ==> k in c'.names && c'.names[k] == c.names[k]
    {
    }
    hide Reserve, View, Named;
    forall r, s, p | r in View(c') && Lists(View(c')[r], s, p)
      ensures SeatName(s, p) in c'.names && c'.names[SeatName(s, p)] == Text(SeatName(s, p), View(c')[r].until)
    {
      if r != id {
        assert Reserved(View(c), s, p);
        assert SeatName(s, p) !in KeysOf(body);
      }
    }
  }

  lemma ReserveDisjoint(v: Holds, id: Name, body: Reservation, until: nat)
    requires Disjoint(v) && id !in v
    ensures Disjoint(v[id := Hold(body, until)]) <==> NoneReserved(v, body)
  {
    var w := v[id := Hold(body, until)];
    if NoneReserved(v, body) {
      forall id1, id2, s, p | id1 in w && id2 in w && Lists(w[id1], s, p) && Lists(w[id2], s, p)
        ensures id1 == id2
      {
        assert id1 != id ==> Reserved(v, s, p);
        assert id2 != id ==> Reserved(v, s, p);
      }
    }
    if Disjoint(w) {
      forall p, r | p in body.places && r in v ensures !Lists(v[r], body.screening, p) {
        assert w[r] == v[r] && Lists(w[id], body.screening, p);
      }
    }
  }

  lemma ReserveKeepsInv(c: Cache, gone: set<Name>, id: Name, body: Reservation, ttl: nat)
    requires InvBut(c, gone) && id.OtherName? && id !in c.names && ttl > 0
    requires Distinct(body.places) && NoneReserved(View(c), body)
    ensures InvBut(Reserve(c, id, body, ttl), gone)
  {
    ReserveNamed(c, id, body, ttl);
    ReserveBacked(c, gone, id, body, ttl);
    ReserveKeyed(c, id, body, ttl);
    ReserveView(c, id, body, ttl);
    ReserveDisjoint(View(c), id, body, c.now + ttl);
  }

  lemma InvNamed(c: Cache, gone: set<Name>)
    requires InvBut(c, gone)
    ensures Named(c) && Disjoint(View(c))
  {
  }

  lemma RecordDistinct(c: Cache, id: Name)
    requires Named(c)
    ensures id in View(c) ==> Distinct(View(c)[id].body.places)
  {
  }

  // The cache itself never checks: reserving keeps the invariant exactly when the
  // places are distinct and none is reserved, which is what its callers ensure.
  lemma ReserveExact(c: Cache, gone: set<Name>, id: Name, body: Reservation, ttl: nat)
    requires InvBut(c, gone) && id.OtherName? && id !in c.names && ttl > 0
    ensures InvBut(Reserve(c, id, body, ttl), gone) <==> Distinct(body.places) && NoneReserved(View(c), body)
    ensures View(Reserve(c, id, body, ttl)) == View(c)[id := Hold(body, c.now + ttl)]
  {
    hide Reserve, View, Named, KeysBacked, PlacesKeyed, NoneReserved, Distinct, Disjoint;
    InvNamed(c, gone);
    ReserveView(c, id, body, ttl);
    ReserveDisjoint(View(c), id, body, c.now + ttl);
    if Distinct(body.places) && NoneReserved(View(c), body) {
      ReserveKeepsInv(c, gone, id, body, ttl);
    }
    if InvBut(Reserve(c, id, body, ttl), gone) {
      RecordDistinct(Reserve(c, id, body, ttl), id);
    }
  }

  lemma DeleteView(c: Cache, id: Name)
    requires Named(c)
    ensures View(Delete(c, id)) == if Deletable(c, id) then View(c) - {id} else View(c)
  {
  }

  lemma DeleteNamed(c: Cache, id: Name)
    requires Named(c)
    ensures Named(Delete(c, id))
  {
  }

  lemma DeleteRecords(c: Cache, id: Name)
    ensures forall n :: n in Delete(c, id).names && Delete(c, id).names[n].Record? ==>
              n in c.names && c.names[n] == Delete(c, id).names[n]
    ensures Delete(c, id).now == c.now
  {
  }

  lemma DeleteBacked(c: Cache, id: Name)
    requires Named(c) && KeysBacked(c, {})
    ensures KeysBacked(Delete(c, id), {})
  {
    DeleteView(c, id);
    var c' := Delete(c, id);
    if Deletable(c, id) {
      var body := c.names[id].body;
      forall k | LiveKey(c', k) ensures KeyBacked(c', {}, k) {
        assert KeyBacked(c, {}, k);
        var r :| BackedBy(c, k, r);
        assert r == id ==> k in KeysOf(body);
        assert BackedBy(c', k, r);
      }
    }
  }

  // Another reservation's keys are not touched.
  lemma DeleteSpares(c: Cache, id: Name, r: Name, s: int64, p: Place)
    requires Inv(c) && r in View(c) && r != id && Lists(View(c)[r], s, p)
    ensures SeatName(s, p) in Delete(c, id).names
    ensures Delete(c, id).names[SeatName(s, p)] == Text(SeatName(s, p), View(c)[r].until)
  {
    if Deletable(c, id) {
      assert id in View(c) && WellNamed(id, c.names[id]);
      assert !Lists(View(c)[id], s, p);
      assert SeatName(s, p) !in KeysOf(View(c)[id].body);
    }
  }

  // Deleting takes exactly the named live reservation out of the view, and keeps the
  // keys of the others. An expired, unknown or foreign name changes nothing, whatever
  // its seats are used for now.
  lemma DeleteRefines(c: Cache, id: Name)
    requires Inv(c)
    ensures Inv(Delete(c, id))
    ensures View(Delete(c, id)) == if Deletable(c, id) then View(c) - {id} else View(c)
    ensures id !in View(c) ==> Delete(c, id) == c
  {
    DeleteNamed(c, id);
    DeleteBacked(c, id);
    DeleteView(c, id);
    var c' := Delete(c, id);
    forall r, s, p | Deletable(c, id) && r in View(c') && Lists(View(c')[r], s, p)
      ensures SeatName(s, p) in c'.names && c'.names[SeatName(s, p)] == Text(SeatName(s, p), View(c')[r].until)
    {
      DeleteSpares(c, id, r, s, p);
    }
  }

  lemma ReservedIsDeletable(c: Cache, id: Name, body: Reservation, ttl: nat)
    requires id.OtherName? && body.places != [] && ttl > 0
    ensures Deletable(Reserve(c, id, body, ttl), id)
  {
    ReserveOthers(c, id, body, ttl);
    hide Reserve;
  }

  // Reserving and then deleting gives back the reservations there were.
  lemma ReserveThenDelete(c: Cache, id: Name, body: Reservation, ttl: nat)
    requires Inv(c) && id.OtherName? && id !in c.names && ttl > 0
    requires body.places != [] && Distinct(body.places) && NoneReserved(View(c), body)
    ensures View(Delete(Reserve(c, id, body, ttl), id)) == View(c)
    ensures Inv(Delete(Reserve(c, id, body, ttl), id))
  {
    InvNamed(c, {});
    hide InvBut, Named, Reserve, Delete, Deletable, NoneReserved, Distinct, View;
    ReserveKeepsInv(c, {}, id, body, ttl);
    ReserveView(c, id, body, ttl);
    ReservedIsDeletable(c, id, body, ttl);
    DeleteRefines(Reserve(c, id, body, ttl), id);
    assert View(c)[id := Hold(body, c.now + ttl)] - {id} == View(c);
  }

  lemma TickView(c: Cache, elapsed: nat)
    ensures Tick(c, elapsed).now == c.now + elapsed
    ensures View(Tick(c, elapsed)) == map id | id in View(c) && c.now + elapsed < View(c)[id].until :: View(c)[id]
  {
  }

  // Time passing only lets whole reservations lapse, each with all its keys.
  lemma TickRefines(c: Cache, gone: set<Name>, elapsed: nat)
    requires InvBut(c, gone)
    ensures InvBut(Tick(c, elapsed), gone)
    ensures View(Tick(c, elapsed)) == map id | id in View(c) && c.now + elapsed < View(c)[id].until :: View(c)[id]
  {
    var c' := Tick(c, elapsed);
    forall k | LiveKey(c', k) ensures KeyBacked(c', gone, k) {
      assert KeyBacked(c, gone, k);
      var r :| BackedBy(c, k, r);
      assert BackedBy(c', k, r);
    }
  }

  lemma EvictView(c: Cache, names: set<Name>)
    ensures View(Evict(c, names)) == View(c) && Evict(c, names).now == c.now
    ensures forall n :: n in Evict(c, names).names <==>
              n in c.names && (n !in names || c.names[n].Members? || c.now < c.names[n].deadline)
    ensures forall n :: n in Evict(c, names).names ==> Evict(c, names).names[n] == c.names[n]
  {
  }

  // Dropping names that have expired is invisible.
  lemma EvictRefines(c: Cache, gone: set<Name>, names: set<Name>)
    requires InvBut(c, gone)
    ensures InvBut(Evict(c, names), gone) && View(Evict(c, names)) == View(c)
  {
    var c' := Evict(c, names);
    EvictView(c, names);
    forall k | LiveKey(c', k) ensures KeyBacked(c', gone, k) {
      assert KeyBacked(c, gone, k);
      var r :| BackedBy(c, k, r);
      assert BackedBy(c', k, r);
    }
  }

  lemma CleanNamed(c: Cache, screening: int64)
    requires Named(c)
    ensures Named(Clean(c, screening)) && View(Clean(c, screening)) == View(c)
  {
  }

  // A place is reserved exactly when its key is alive; the index has every such key that
  // no delete has taken off it, and possibly expired ones.
  lemma ReservedKeyBut(c: Cache, gone: set<Name>, screening: int64, place: Place)
    requires InvBut(c, gone)
    ensures Reserved(View(c), screening, place) <==> Alive(c, SeatName(screening, place))
    ensures Reserved(View(c), screening, place) <==> place in ReservedPlaces(View(c), screening)
    ensures Alive(c, SeatName(screening, place)) ==>
              SeatName(screening, place) in Index(c, screening) || SeatName(screening, place) in gone
  {
    var k := SeatName(screening, place);
    if Reserved(View(c), screening, place) {
      var id :| id in View(c) && Lists(View(c)[id], screening, place);
      assert c.names[k] == Text(k, View(c)[id].until);
    }
    if Alive(c, k) {
      assert WellNamed(k, c.names[k]);
      assert KeyBacked(c, gone, k);
    }
  }

  lemma ReservedKey(c: Cache, screening: int64, place: Place)
    requires Inv(c)
    ensures Reserved(View(c), screening, place) <==> Alive(c, SeatName(screening, place))
    ensures Reserved(View(c), screening, place) <==> place in ReservedPlaces(View(c), screening)
    ensures Alive(c, SeatName(screening, place)) ==> SeatName(screening, place) in Index(c, screening)
  {
    hide Reserved, View, Index, ReservedPlaces, InvBut;
    ReservedKeyBut(c, {}, screening, place);
  }

  lemma LiveKeys(c: Cache, screening: int64)
    requires Inv(c)
    ensures (set k | k in Index(c, screening) && Alive(c, k)) ==
            set p | p in ReservedPlaces(View(c), screening) :: SeatName(screening, p)
  {
    forall k | k in Index(c, screening) && Alive(c, k)
      ensures k in set p | p in ReservedPlaces(View(c), screening) :: SeatName(screening, p)
    {
      assert WellNamed(SetName(screening), c.names[SetName(screening)]);
      ReservedKey(c, screening, k.place);
    }
    forall p | p in ReservedPlaces(View(c), screening)
      ensures SeatName(screening, p) in Index(c, screening) && Alive(c, SeatName(screening, p))
    {
      ReservedKey(c, screening, p);
    }
  }

  // Cleaning one screening's index is invisible, and leaves it exactly the live keys.
  lemma CleanRefines(c: Cache, screening: int64)
    requires Inv(c)
    ensures Inv(Clean(c, screening)) && View(Clean(c, screening)) == View(c)
    ensures Index(Clean(c, screening), screening) ==
            set p | p in ReservedPlaces(View(c), screening) :: SeatName(screening, p)
    ensures Clean(c, screening).now == c.now
  {
    CleanNamed(c, screening);
    var c' := Clean(c, screening);
    forall k: Name | k.SeatName?
      ensures (k in c'.names <==> k in c.names) && (k in c.names ==> c'.names[k] == c.names[k])
      ensures Alive(c, k) && k in Index(c, k.screening) ==> k in Index(c', k.screening)
    {
    }
    LiveKeys(c, screening);
    assert Index(c', screening) == set k | k in Index(c, screening) && Alive(c, k);
    hide View, Clean, Named, Index;
    forall k | LiveKey(c', k) ensures KeyBacked(c', {}, k) {
      assert KeyBacked(c, {}, k);
      var r :| BackedBy(c, k, r);
      assert BackedBy(c', k, r);
    }
  }

  lemma CleanKeepsNow(c: Cache, screening: int64)
    ensures Clean(c, screening).now == c.now
  {
  }

  lemma CleanRecords(c: Cache, screening: int64)
    ensures forall n :: n in Clean(c, screening).names && Clean(c, screening).names[n].Record? ==>
              n in c.names && c.names[n] == Clean(c, screening).names[n]
  {
  }

  lemma IndexedSeat(c: Cache, screening: int64, k: Name)
    requires Named(c) && k in Index(c, screening)
    ensures k.SeatName? && k.screening == screening && (Alive(c, k) ==> LiveKey(c, k))
  {
    assert WellNamed(SetName(screening), c.names[SetName(screening)]);
    if k in c.names {
      assert WellNamed(k, c.names[k]);
    }
  }

  lemma RemoveKeeps(c: Cache, screening: int64, stale: set<Name>)
    requires Named(c)
    ensures var c' := Remove(c, screening, stale);
      && Named(c') && View(c') == View(c) && c'.now == c.now
      && (forall k: Name :: k.SeatName? ==>
           (k in c'.names <==> k in c.names) && (k in c.names ==> c'.names[k] == c.names[k]))
      && (forall n: int64 :: Index(c', n) == if n == screening then Index(c, n) - stale else Index(c, n))
  {
  }

  lemma RemoveRecords(c: Cache, screening: int64, stale: set<Name>)
    ensures forall n :: n in Remove(c, screening, stale).names && Remove(c, screening, stale).names[n].Record? ==>
              n in c.names && c.names[n] == Remove(c, screening, stale).names[n]
  {
  }

  // A removal decided earlier harms the invariant exactly if a name it removes has been
  // reserved again since. Cleaning in one step removes none such.
  lemma RemoveExact(c: Cache, gone: set<Name>, screening: int64, stale: set<Name>)
    requires InvBut(c, gone)
    ensures View(Remove(c, screening, stale)) == View(c)
    ensures InvBut(Remove(c, screening, stale), gone) <==>
            forall k :: k in Index(c, screening) && k in stale && k !in gone ==> !Alive(c, k)
  {
    var c' := Remove(c, screening, stale);
    RemoveKeeps(c, screening, stale);
    hide View, Named, Index, Remove;
    if InvBut(c', gone) {
      forall k | k in Index(c, screening) && k in stale && k !in gone ensures !Alive(c, k) {
        IndexedSeat(c, screening, k);
        assert LiveKey(c', k) ==> KeyBacked(c', gone, k);
      }
    }
    if forall k :: k in Index(c, screening) && k in stale && k !in gone ==> !Alive(c, k) {
      forall k | LiveKey(c', k) ensures KeyBacked(c', gone, k) {
        assert KeyBacked(c, gone, k);
        var r :| BackedBy(c, k, r);
        assert BackedBy(c', k, r);
      }
    }
  }

  lemma CleanIsRemove(c: Cache, screening: int64)
    ensures Clean(c, screening) == Remove(c, screening, set k | k in Index(c, screening) && !Alive(c, k))
  {
    assert (set k | k in Index(c, screening) && Alive(c, k)) ==
           Index(c, screening) - set k | k in Index(c, screening) && !Alive(c, k);
  }

  lemma MoreGone(c: Cache, gone: set<Name>, more: set<Name>)
    requires InvBut(c, gone) && gone <= more
    ensures InvBut(c, more)
  {
    forall k | LiveKey(c, k) ensures KeyBacked(c, more, k) {
      assert KeyBacked(c, gone, k);
    }
  }

  // A delete's SREM is harmless while its DEL is on its way.
  lemma UnindexKeepsInv(c: Cache, gone: set<Name>, body: Reservation)
    requires InvBut(c, gone)
    ensures InvBut(Remove(c, body.screening, KeysOf(body)), gone + KeysOf(body))
    ensures View(Remove(c, body.screening, KeysOf(body))) == View(c)
  {
    hide InvBut, Remove, View, KeysOf, Index;
    MoreGone(c, gone, gone + KeysOf(body));
    RemoveExact(c, gone + KeysOf(body), body.screening, KeysOf(body));
  }

  ghost predicate Shares(a: Reservation, b: Reservation) {
    a.screening == b.screening && exists p :: p in a.places && p in b.places
  }

  lemma DropView(c: Cache, id: Name, body: Reservation)
    requires Named(c)
    ensures View(DropKeys(c, id, body)) == View(c) - {id}
    ensures Named(DropKeys(c, id, body)) && DropKeys(c, id, body).now == c.now
    ensures forall n :: n in DropKeys(c, id, body).names ==>
              n in c.names && c.names[n] == DropKeys(c, id, body).names[n]
  {
    RecordsAreOther(c);
  }

  // Of place keys it drops exactly its own, and no index changes.
  lemma DropSeats(c: Cache, id: Name, body: Reservation)
    requires id.OtherName?
    ensures forall k: Name :: k.SeatName? ==>
              (k in DropKeys(c, id, body).names <==> k in c.names && k !in KeysOf(body))
    ensures forall n: int64 :: Index(DropKeys(c, id, body), n) == Index(c, n)
  {
  }

  lemma DropBacked(c: Cache, gone: set<Name>, id: Name, body: Reservation)
    requires InvBut(c, gone + KeysOf(body)) && id.OtherName? && (id in View(c) ==> View(c)[id].body == body)
    ensures KeysBacked(DropKeys(c, id, body), gone)
  {
    var c' := DropKeys(c, id, body);
    DropView(c, id, body);
    DropSeats(c, id, body);
    hide View, Named, Index, DropKeys;
    forall k | LiveKey(c', k) ensures KeyBacked(c', gone, k) {
      assert KeyBacked(c, gone + KeysOf(body), k);
      var r :| BackedBy(c, k, r);
      assert r == id ==> k in KeysOf(body);
      assert BackedBy(c', k, r);
    }
  }

  // Another live reservation lists one of the places.
  ghost predicate SharedWith(v: Holds, id: Name, body: Reservation) {
    exists r :: r in v && r != id && Shares(v[r].body, body)
  }

  lemma DropKeyedExact(c: Cache, id: Name, body: Reservation)
    requires Named(c) && PlacesKeyed(c) && id.OtherName?
    ensures PlacesKeyed(DropKeys(c, id, body)) <==> !SharedWith(View(c), id, body)
  {
    var c' := DropKeys(c, id, body);
    DropView(c, id, body);
    DropSeats(c, id, body);
    hide View, Named, DropKeys, Index;
    if PlacesKeyed(c') {
      forall r, p | r in View(c) && r != id && Lists(View(c)[r], body.screening, p) ensures p !in body.places {
        assert Lists(View(c')[r], body.screening, p);
      }
    }
    if !SharedWith(View(c), id, body) {
      forall r, s, p | r in View(c') && Lists(View(c')[r], s, p)
        ensures SeatName(s, p) in c'.names && c'.names[SeatName(s, p)] == Text(SeatName(s, p), View(c')[r].until)
      {
        assert Lists(View(c)[r], s, p) && !Shares(View(c)[r].body, body);
      }
    }
  }

  // A delete's DEL harms the invariant exactly if another live reservation lists one of
  // the places that were read some time before.
  lemma DropExact(c: Cache, gone: set<Name>, id: Name, body: Reservation)
    requires InvBut(c, gone + KeysOf(body)) && id.OtherName? && (id in View(c) ==> View(c)[id].body == body)
    ensures View(DropKeys(c, id, body)) == View(c) - {id}
    ensures InvBut(DropKeys(c, id, body), gone) <==> !SharedWith(View(c), id, body)
  {
    DropView(c, id, body);
    DropBacked(c, gone, id, body);
    DropKeyedExact(c, id, body);
    hide View, Named, DropKeys, PlacesKeyed, KeysBacked, SharedWith;
  }

  lemma DeleteIsRemoveAndDrop(c: Cache, id: Name)
    requires Deletable(c, id)
    ensures var body := c.names[id].body;
            Delete(c, id) == DropKeys(Remove(c, body.screening, KeysOf(body)), id, body)
  {
  }

  // A batch read cleans one screening after another.
  function CleanAll(c: Cache, screenings: seq<int64>): Cache {
    if screenings == [] then c
    else Clean(CleanAll(c, screenings[..|screenings| - 1]), screenings[|screenings| - 1])
  }

  lemma {:induction false} CleanAllRefines(c: Cache, screenings: seq<int64>)
    requires Inv(c)
    ensures Inv(CleanAll(c, screenings)) && View(CleanAll(c, screenings)) == View(c)
    ensures CleanAll(c, screenings).now == c.now
  {
    if screenings != [] {
      CleanAllRefines(c, screenings[..|screenings| - 1]);
      CleanRefines(CleanAll(c, screenings[..|screenings| - 1]), screenings[|screenings| - 1]);
    }
  }

  lemma {:induction false} CleanAllNamed(c: Cache, screenings: seq<int64>)
    requires Named(c)
    ensures Named(CleanAll(c, screenings)) && View(CleanAll(c, screenings)) == View(c)
    ensures CleanAll(c, screenings).now == c.now
    ensures forall n :: n in CleanAll(c, screenings).names && CleanAll(c, screenings).names[n].Record? ==>
              n in c.names && c.names[n] == CleanAll(c, screenings).names[n]
  {
    if screenings != [] {
      var front, last := screenings[..|screenings| - 1], screenings[|screenings| - 1];
      CleanAllNamed(c, front);
      hide Named, View, Clean;
      CleanNamed(CleanAll(c, front), last);
      CleanRecords(CleanAll(c, front), last);
      CleanKeepsNow(CleanAll(c, front), last);
    }
  }
}
