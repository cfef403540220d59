/**
  The ticket status machine (internal/models/order.go) and the orders collection
  as a value: a sequence of documents in natural order, changed by guarded bulk
  updates. The class OrdersRepository is proved against these functions.
 */
module Tickets {
  import opened Strings
  import opened PlaceKeys
  import opened SliceUtils

  // OrderItemStatus is an open string type; Unlisted is any other text.
  datatype Status =
    | Paid | PaymentRequired | RefundAwaiting | Canceled | Used | Refunded
    | Unlisted(text: string)

  // GetAllowedPreviousOrderStatuses
  function AllowedPrevious(status: Status): seq<Status> {
    match status
    case Canceled => [PaymentRequired]
    case Paid => [PaymentRequired]
    case Used => [Paid]
    case RefundAwaiting => [Paid, Used]
    case Refunded => [RefundAwaiting]
    case _ => []
  }

  // One bulk update's effect on one status.
  function Move(from: Status, target: Status): Status {
    if from in AllowedPrevious(target) then target else from
  }

  // A ticket keeps its seat unless it is canceled or refunded.
  predicate Occupying(status: Status) {
    status != Canceled && status != Refunded
  }

  datatype Ticket = Ticket(id: string, orderId: string, ownerId: string, status: Status,
                           date: int, screening: int64, place: Place, price: uint32)

  type Collection = seq<Ticket>

  predicate UniqueIds(c: Collection) {
    forall i, j :: 0 <= i < j < |c| ==> c[i].id != c[j].id
  }

  function Ids(c: Collection): set<string> { set t | t in c :: t.id }
  function OrderIds(c: Collection): set<string> { set t | t in c :: t.orderId }

  predicate TakesSeat(t: Ticket, screening: int64, place: Place) {
    t.screening == screening && t.place == place && Occupying(t.status)
  }

  predicate Occupied(c: Collection, screening: int64, place: Place) {
    exists i :: 0 <= i < |c| && TakesSeat(c[i], screening, place)
  }

  function OccupiedPlaces(c: Collection, screening: int64): set<Place> {
    set t | t in c && t.screening == screening && Occupying(t.status) :: t.place
  }

  // The distinct statuses of an order's tickets, and those that the service knows.
  function StatusSet(c: Collection, orderId: string): set<Status> {
    set t | t in c && t.orderId == orderId :: t.status
  }

  function KnownStatuses(c: Collection, orderId: string): set<Status> {
    set s | s in StatusSet(c, orderId) && !s.Unlisted?
  }

  // A seat is taken by a ticket of it that is neither canceled nor refunded.
  lemma SeatTaken(c: Collection, screening: int64, place: Place)
    ensures Occupied(c, screening, place) <==>
            exists t :: t in c && t.screening == screening && t.place == place
                        && t.status != Canceled && t.status != Refunded
    ensures OccupiedPlaces(c, screening) ==
            set t | t in c && t.screening == screening && t.status != Canceled && t.status != Refunded :: t.place
  {
    if t :| t in c && t.screening == screening && t.place == place && t.status != Canceled && t.status != Refunded {
      var i :| 0 <= i < |c| && c[i] == t;
      assert TakesSeat(c[i], screening, place);
    }
  }

  // Each status some ticket of the order has, unless the service does not know it.
  lemma StatusKnown(c: Collection, orderId: string)
    ensures KnownStatuses(c, orderId) == set t | t in c && t.orderId == orderId && !t.status.Unlisted? :: t.status
  {
  }

  // The documents ProcessOrder inserts: one per place, all awaiting payment.
  function NewTickets(ids: seq<string>, orderId: string, ownerId: string, date: int, screening: int64,
                      places: seq<Place>, price: uint32): (c: Collection)
    requires |ids| == |places|
    ensures |c| == |ids|
  {
    seq(|ids|, i requires 0 <= i < |ids| =>
      Ticket(ids[i], orderId, ownerId, PaymentRequired, date, screening, places[i], price))
  }

  lemma NewTicketsAre(ids: seq<string>, orderId: string, ownerId: string, date: int, screening: int64,
                      places: seq<Place>, price: uint32, k: nat)
    requires |ids| == |places| && k < |places|
    ensures var t := NewTickets(ids, orderId, ownerId, date, screening, places, price)[k];
      && t.id == ids[k] && t.orderId == orderId && t.ownerId == ownerId && t.status == PaymentRequired
      && t.date == date && t.screening == screening && t.place == places[k] && t.price == price
  {
  }

  // ---------- bulk updates ----------

  // A change of status: of a whole order, or of the items listed.
  datatype Update =
    | WholeOrder(orderId: string, target: Status)
    | Items(orderId: string, items: seq<string>, target: Status)

  // The update's filter.
  predicate Matches(t: Ticket, u: Update) {
    t.orderId == u.orderId && t.status in AllowedPrevious(u.target) &&
    (u.Items? ==> t.id in u.items)
  }

  function SetMatching(c: Collection, u: Update): (r: Collection)
    ensures |r| == |c|
  {
    seq(|c|, i requires 0 <= i < |c| => if Matches(c[i], u) then c[i].(status := u.target) else c[i])
  }

  function ModifiedCount(c: Collection, u: Update): nat {
    if c == [] then 0
    else ModifiedCount(c[..|c| - 1], u) + (if Matches(c[|c| - 1], u) then 1 else 0)
  }

  function ModifiedIds(c: Collection, u: Update): set<string> {
    set t | t in c && Matches(t, u) :: t.id
  }

  // An update of items commits only if it modified as many tickets as were asked for.
  predicate Commits(c: Collection, u: Update) {
    u.Items? ==> ModifiedCount(c, u) == |u.items|
  }

  function Apply(c: Collection, u: Update): (r: Collection)
    ensures |r| == |c|
  {
    if Commits(c, u) then SetMatching(c, u) else c
  }

  ghost predicate Eligible(c: Collection, u: Update, item: string) {
    exists t :: t in c && t.id == item && Matches(t, u)
  }

  // Every listed item names such a ticket.
  ghost predicate AllEligible(c: Collection, u: Update)
    requires u.Items?
  {
    forall k :: 0 <= k < |u.items| ==> Eligible(c, u, u.items[k])
  }

  lemma ModifiedIdsStep(front: Collection, last: Ticket, u: Update)
    ensures ModifiedIds(front + [last], u) ==
            ModifiedIds(front, u) + (if Matches(last, u) then {last.id} else {})
  {
  }

  // Modified tickets and the ids they carry correspond one to one.
  lemma {:induction false} CountByIds(c: Collection, u: Update)
    requires UniqueIds(c)
    ensures ModifiedCount(c, u) == |ModifiedIds(c, u)|
  {
    if c == [] {
      assert ModifiedIds(c, u) == {};
    } else {
      var front, last := c[..|c| - 1], c[|c| - 1];
      CountByIds(front, u);
      assert c == front + [last];
      ModifiedIdsStep(front, last, u);
      assert last.id !in ModifiedIds(front, u);
    }
  }

  lemma EligibleIsAsked(c: Collection, u: Update)
    requires u.Items?
    ensures ModifiedIds(c, u) <= Elements(u.items)
    ensures AllEligible(c, u) <==> ModifiedIds(c, u) == Elements(u.items)
  {
    if AllEligible(c, u) {
      forall x | x in Elements(u.items) ensures x in ModifiedIds(c, u) {
        var k :| 0 <= k < |u.items| && u.items[k] == x;
        var t :| t in c && t.id == u.items[k] && Matches(t, u);
      }
    }
    if ModifiedIds(c, u) == Elements(u.items) {
      forall k | 0 <= k < |u.items| ensures Eligible(c, u, u.items[k]) {
        assert u.items[k] in Elements(u.items);
        var t :| t in c && Matches(t, u) && t.id == u.items[k];
      }
    }
  }

  lemma EligibleIdMatches(c: Collection, u: Update, i: nat)
    requires UniqueIds(c) && i < |c| && c[i].id in ModifiedIds(c, u)
    ensures Matches(c[i], u)
  {
  }

  // The item update is all or nothing, and commits exactly on distinct eligible items.
  lemma ItemsCommit(c: Collection, u: Update)
    requires UniqueIds(c) && u.Items?
    ensures Commits(c, u) <==> Distinct(u.items) && AllEligible(c, u)
    ensures Commits(c, u) ==>
              forall i :: 0 <= i < |c| ==>
                Apply(c, u)[i] == if c[i].id in u.items then c[i].(status := u.target) else c[i]
    ensures !Commits(c, u) ==> Apply(c, u) == c
  {
    CountByIds(c, u);
    DistinctCount(u.items);
    EligibleIsAsked(c, u);
    var ids, asked := ModifiedIds(c, u), Elements(u.items);
    assert asked == ids + (asked - ids);
    if Commits(c, u) {
      SubsetSameSize(ids, asked);
      forall i | 0 <= i < |c|
        ensures Apply(c, u)[i] == if c[i].id in u.items then c[i].(status := u.target) else c[i]
      {
        if c[i].id in u.items {
          EligibleIdMatches(c, u, i);
        }
      }
    }
  }

  predicate Follows(from: Status, to: Status) {
    from in AllowedPrevious(to)
  }

  // The status graph, edge by edge.
  lemma Transitions(from: Status, to: Status)
    ensures Follows(from, to) <==>
            (from, to) in {(PaymentRequired, Paid), (PaymentRequired, Canceled), (Paid, Used),
                           (Paid, RefundAwaiting), (Used, RefundAwaiting), (RefundAwaiting, Refunded)}
  {
  }

  // An update of an order moves exactly its tickets whose status the new one may follow.
  lemma OrderUpdated(c: Collection, orderId: string, target: Status, i: nat)
    requires i < |c|
    ensures Apply(c, WholeOrder(orderId, target))[i] ==
            if c[i].orderId == orderId && Follows(c[i].status, target) then c[i].(status := target) else c[i]
  {
  }

  // The ids of the order's tickets whose status the new one may follow.
  lemma EligibleMeans(c: Collection, u: Update, movable: set<string>)
    requires u.Items? && movable == set t | t in c && t.orderId == u.orderId && Follows(t.status, u.target) :: t.id
    ensures AllEligible(c, u) <==> forall k :: 0 <= k < |u.items| ==> u.items[k] in movable
  {
    forall k | 0 <= k < |u.items| ensures Eligible(c, u, u.items[k]) <==> u.items[k] in movable {
      if u.items[k] in movable {
        var t :| t in c && t.id == u.items[k] && t.orderId == u.orderId && Follows(t.status, u.target);
        assert Matches(t, u);
      }
    }
    hide Eligible;
  }

  // An update of items commits if and only if they are distinct, and each is the id of a
  // ticket of the order whose status the new one may follow. Then exactly those move.
  lemma ItemsCommitExactly(c: Collection, orderId: string, items: seq<string>, target: Status)
    requires UniqueIds(c)
    ensures var movable := set t | t in c && t.orderId == orderId && Follows(t.status, target) :: t.id;
            Commits(c, Items(orderId, items, target)) <==>
            (forall j, k :: 0 <= j < k < |items| ==> items[j] != items[k])
            && (forall k :: 0 <= k < |items| ==> items[k] in movable)
    ensures forall i :: 0 <= i < |c| ==>
              Apply(c, Items(orderId, items, target))[i] ==
              if Commits(c, Items(orderId, items, target)) && c[i].id in items then c[i].(status := target) else c[i]
  {
    var u := Items(orderId, items, target);
    ItemsCommit(c, u);
    EligibleMeans(c, u, set t | t in c && t.orderId == orderId && Follows(t.status, target) :: t.id);
    hide Commits, Apply, Follows, UniqueIds, AllEligible;
  }

  // ---------- histories ----------

  // The graph's rank: every real change climbs.
  function Rank(s: Status): nat {
    match s
    case PaymentRequired => 0
    case Paid => 1
    case Used => 2
    case RefundAwaiting => 3
    case Refunded => 4
    case Canceled => 1
    case Unlisted(_) => 0
  }

  // The collection before each update of a run, and at its end.
  function After(c: Collection, run: seq<Update>): (r: Collection)
    ensures |r| == |c|
  {
    if run == [] then c else Apply(After(c, run[..|run| - 1]), run[|run| - 1])
  }

  // The statuses ticket i goes through, one per change.
  function History(c: Collection, run: seq<Update>, i: nat): (h: seq<Status>)
    requires i < |c|
    ensures h != [] && h[0] == c[i].status && h[|h| - 1] == After(c, run)[i].status
  {
    if run == [] then [c[i].status]
    else
      var earlier := History(c, run[..|run| - 1], i);
      var now := After(c, run)[i].status;
      if now == earlier[|earlier| - 1] then earlier else earlier + [now]
  }

  // h is a path of the transition graph.
  predicate IsPath(h: seq<Status>) {
    forall k :: 0 < k < |h| ==> Follows(h[k - 1], h[k])
  }

  // Nothing of a ticket but its status ever changes, and its history is a path.
  lemma {:induction false} HistoryIsPath(c: Collection, run: seq<Update>, i: nat)
    requires i < |c|
    ensures IsPath(History(c, run, i))
    ensures After(c, run)[i] == c[i].(status := After(c, run)[i].status)
  {
    if run != [] {
      HistoryIsPath(c, run[..|run| - 1], i);
    }
  }

  lemma {:induction false} PathClimbs(h: seq<Status>, k: nat)
    requires IsPath(h) && k < |h|
    ensures Rank(h[k]) >= Rank(h[0]) + k
    ensures forall m :: 0 <= m < k ==> Rank(h[m]) < Rank(h[k])
  {
    if k > 0 {
      PathClimbs(h, k - 1);
    }
  }

  // The whole lives a ticket can lead; every history is one of them cut short.
  const UNPAID: seq<Status> := [PaymentRequired, Canceled]
  const REFUNDED: seq<Status> := [PaymentRequired, Paid, RefundAwaiting, Refunded]
  const USED_THEN_REFUNDED: seq<Status> := [PaymentRequired, Paid, Used, RefundAwaiting, Refunded]

  predicate Life(h: seq<Status>) {
    h <= UNPAID || h <= REFUNDED || h <= USED_THEN_REFUNDED
  }

  lemma LivesArePaths(h: seq<Status>)
    requires h != [] && h[0] == PaymentRequired
    ensures IsPath(h) <==> Life(h)
  {
    if IsPath(h) {
      PathClimbs(h, |h| - 1);
      assert |h| <= 5;
      if |h| > 1 {
        assert Follows(h[0], h[1]);
        if |h| > 2 {
          assert Follows(h[1], h[2]);
          if |h| > 3 {
            assert Follows(h[2], h[3]);
            if |h| > 4 { assert Follows(h[3], h[4]); }
          }
        }
      }
    }
  }

  // What the status graph promises of any ticket under any updates whatever: at most
  // four changes, each climbing; refunded only once paid for, canceled only when not.
  lemma {:induction false} StatusHistory(c: Collection, run: seq<Update>, i: nat)
    requires i < |c| && c[i].status == PaymentRequired
    ensures Life(History(c, run, i))
    ensures forall k :: 0 < k < |History(c, run, i)| ==> Rank(History(c, run, i)[k - 1]) < Rank(History(c, run, i)[k])
  {
    HistoryIsPath(c, run, i);
    LivesArePaths(History(c, run, i));
    var h := History(c, run, i);
    forall k | 0 < k < |h| ensures Rank(h[k - 1]) < Rank(h[k]) {
      PathClimbs(h, k);
    }
  }

  function WholeOrders(orderId: string, targets: seq<Status>): seq<Update> {
    seq(|targets|, k requires 0 <= k < |targets| => WholeOrder(orderId, targets[k]))
  }

  lemma {:induction false} AfterOneMore(c: Collection, run: seq<Update>, u: Update)
    ensures After(c, run + [u]) == Apply(After(c, run), u)
  {
    assert (run + [u])[..|run|] == run;
  }

  lemma {:induction false} HistoryOneMore(c: Collection, run: seq<Update>, u: Update, i: nat)
    requires i < |c| && After(c, run + [u])[i].status != After(c, run)[i].status
    ensures History(c, run + [u], i) == History(c, run, i) + [After(c, run + [u])[i].status]
  {
    hide After;
    assert (run + [u])[..|run|] == run;
  }

  // One more update that fires is one more status.
  lemma {:induction false} HistoryGoesOn(c: Collection, run: seq<Update>, i: nat, target: Status)
    requires i < |c| && Follows(After(c, run)[i].status, target)
    requires After(c, run)[i].orderId == c[i].orderId
    ensures History(c, run + [WholeOrder(c[i].orderId, target)], i) == History(c, run, i) + [target]
  {
    AfterOneMore(c, run, WholeOrder(c[i].orderId, target));
    hide After, History;
    assert Matches(After(c, run)[i], WholeOrder(c[i].orderId, target));
    assert !Follows(target, target);
    HistoryOneMore(c, run, WholeOrder(c[i].orderId, target), i);
  }

  lemma {:induction false} WholeOrdersMore(orderId: string, h: seq<Status>)
    requires |h| > 1
    ensures WholeOrders(orderId, h[1..]) ==
            WholeOrders(orderId, h[..|h| - 1][1..]) + [WholeOrder(orderId, h[|h| - 1])]
  {
  }

  lemma {:induction false} PathFront(h: seq<Status>)
    requires |h| > 1 && IsPath(h)
    ensures IsPath(h[..|h| - 1]) && Follows(h[..|h| - 1][|h| - 2], h[|h| - 1])
    ensures h == h[..|h| - 1] + [h[|h| - 1]]
  {
    assert Follows(h[|h| - 2], h[|h| - 1]);
  }

  // A history that is followed by one more update, of a status that follows its last.
  lemma {:induction false} LifeGoesOn(c: Collection, i: nat, front: seq<Status>, last: Status)
    requires i < |c| && front != [] && Follows(front[|front| - 1], last)
    requires History(c, WholeOrders(c[i].orderId, front[1..]), i) == front
    ensures History(c, WholeOrders(c[i].orderId, (front + [last])[1..]), i) == front + [last]
  {
    var run := WholeOrders(c[i].orderId, front[1..]);
    HistoryIsPath(c, run, i);
    HistoryGoesOn(c, run, i, last);
    WholeOrdersMore(c[i].orderId, front + [last]);
    hide History, After, WholeOrders, Follows;
    assert (front + [last])[..|front|] == front;
  }

  // And every such life is led: the updates of its own targets give exactly it.
  lemma {:induction false} EveryLifeIsLed(c: Collection, i: nat, h: seq<Status>)
    requires i < |c| && h != [] && h[0] == c[i].status && IsPath(h)
    ensures History(c, WholeOrders(c[i].orderId, h[1..]), i) == h
  {
    if |h| > 1 {
      PathFront(h);
      hide IsPath, History, WholeOrders, Follows, AllowedPrevious;
      EveryLifeIsLed(c, i, h[..|h| - 1]);
      LifeGoesOn(c, i, h[..|h| - 1], h[|h| - 1]);
    }
  }

  // Terminal statuses absorb, so a seat once free is never taken back by its ticket.
  lemma {:induction false} SeatOnlyFreed(c: Collection, run: seq<Update>, i: nat)
    requires i < |c|
    ensures c[i].status == Canceled || c[i].status == Refunded ==> After(c, run)[i] == c[i]
  {
    if run != [] {
      SeatOnlyFreed(c, run[..|run| - 1], i);
    }
  }

  // ---------- retries ----------

  // No status precedes itself, so a second application finds nothing to do.
  lemma WholeOrderIdempotent(c: Collection, orderId: string, target: Status)
    ensures var once := Apply(c, WholeOrder(orderId, target));
      && Apply(once, WholeOrder(orderId, target)) == once
      && forall t :: t in once ==> !Matches(t, WholeOrder(orderId, target))
  {
  }

  lemma {:induction false} NoneModified(c: Collection, u: Update)
    requires forall i :: 0 <= i < |c| ==> !Matches(c[i], u)
    ensures ModifiedCount(c, u) == 0
  {
    if c != [] {
      NoneModified(c[..|c| - 1], u);
    }
  }

  // A repeated item update is refused, unless it listed nothing.
  lemma ItemsRefusedTwice(c: Collection, u: Update)
    requires u.Items? && u.items != []
    ensures !Commits(SetMatching(c, u), u)
    ensures Commits(c, u) ==> Apply(Apply(c, u), u) == Apply(c, u)
  {
    var once := SetMatching(c, u);
    assert u.target !in AllowedPrevious(u.target);
    NoneModified(once, u);
  }

  // ---------- aggregates ----------

  function SumPrices(c: Collection, orderId: string): nat {
    if c == [] then 0
    else SumPrices(c[..|c| - 1], orderId) + (if c[|c| - 1].orderId == orderId then c[|c| - 1].price else 0)
  }

  lemma {:induction false} SumOfConcat(a: Collection, b: Collection, orderId: string)
    ensures SumPrices(a + b, orderId) == SumPrices(a, orderId) + SumPrices(b, orderId)
  {
    if b == [] {
      assert a + b == a;
    } else {
      SumOfConcat(a, b[..|b| - 1], orderId);
      assert (a + b)[..|a + b| - 1] == a + b[..|b| - 1];
    }
  }

  lemma {:induction false} SumIgnoresStatus(a: Collection, b: Collection, orderId: string)
    requires |a| == |b| && forall i :: 0 <= i < |a| ==> b[i] == a[i].(status := b[i].status)
    ensures SumPrices(a, orderId) == SumPrices(b, orderId)
  {
    if a != [] {
      SumIgnoresStatus(a[..|a| - 1], b[..|b| - 1], orderId);
      assert b[|b| - 1] == a[|a| - 1].(status := b[|b| - 1].status);
    }
  }
}
