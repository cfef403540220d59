/**
  GetOrders: tickets grouped into one preview per order, and pages of the list.
 */
module Listing {
  import opened Strings
  import opened Tickets

  datatype Preview = Preview(orderId: string, date: int, screening: int64, total: nat)

  function Find(ps: seq<Preview>, orderId: string): (k: int)
    ensures -1 <= k < |ps|
    ensures k >= 0 ==> ps[k].orderId == orderId
    ensures k < 0 ==> forall i :: 0 <= i < |ps| ==> ps[i].orderId != orderId
  {
    if ps == [] then -1
    else if ps[|ps| - 1].orderId == orderId then |ps| - 1
    else Find(ps[..|ps| - 1], orderId)
  }

  // $group by order id: the first date and screening met, the sum of the prices.
  function Group(c: Collection, account: string): seq<Preview> {
    if c == [] then []
    else
      var ps, t := Group(c[..|c| - 1], account), c[|c| - 1];
      var k := Find(ps, t.orderId);
      if t.ownerId != account then ps
      else if k >= 0 then ps[k := ps[k].(total := ps[k].total + t.price)]
      else ps + [Preview(t.orderId, t.date, t.screening, t.price)]
  }

  function Owned(c: Collection, account: string): Collection {
    if c == [] then []
    else Owned(c[..|c| - 1], account) + (if c[|c| - 1].ownerId == account then [c[|c| - 1]] else [])
  }

  function Totals(ps: seq<Preview>): nat {
    if ps == [] then 0 else Totals(ps[..|ps| - 1]) + ps[|ps| - 1].total
  }

  function AllPrices(c: Collection): nat {
    if c == [] then 0 else AllPrices(c[..|c| - 1]) + c[|c| - 1].price
  }

  lemma {:induction false} TotalsUpdate(ps: seq<Preview>, k: nat, more: nat)
    requires k < |ps|
    ensures Totals(ps[k := ps[k].(total := ps[k].total + more)]) == Totals(ps) + more
  {
    var qs := ps[k := ps[k].(total := ps[k].total + more)];
    if k == |ps| - 1 {
      assert qs[..|qs| - 1] == ps[..|ps| - 1];
    } else {
      TotalsUpdate(ps[..|ps| - 1], k, more);
      assert qs[..|qs| - 1] == ps[..|ps| - 1][k := ps[k].(total := ps[k].total + more)];
    }
  }

  ghost predicate OnePerOrder(ps: seq<Preview>) {
    forall i, j :: 0 <= i < j < |ps| ==> ps[i].orderId != ps[j].orderId
  }

  function PreviewIds(ps: seq<Preview>): set<string> { set p | p in ps :: p.orderId }

  // Each total is that of its order.
  ghost predicate TotalsRight(ps: seq<Preview>, owned: Collection) {
    forall k :: 0 <= k < |ps| ==> ps[k].total == SumPrices(owned, ps[k].orderId)
  }

  ghost predicate Grouped(ps: seq<Preview>, owned: Collection) {
    OnePerOrder(ps) && PreviewIds(ps) == OrderIds(owned) && TotalsRight(ps, owned)
    && Totals(ps) == AllPrices(owned)
  }

  lemma OwnedMore(owned: Collection, t: Ticket)
    ensures OrderIds(owned + [t]) == OrderIds(owned) + {t.orderId}
    ensures AllPrices(owned + [t]) == AllPrices(owned) + t.price
    ensures forall o :: SumPrices(owned + [t], o) == SumPrices(owned, o) + if t.orderId == o then t.price else 0
  {
  }

  lemma IdsKept(ps: seq<Preview>, k: nat, total: nat)
    requires k < |ps|
    ensures PreviewIds(ps[k := ps[k].(total := total)]) == PreviewIds(ps)
  {
    var qs := ps[k := ps[k].(total := total)];
    forall p | p in ps ensures exists q :: q in qs && q.orderId == p.orderId {
      var i :| 0 <= i < |ps| && ps[i] == p;
      assert qs[i] in qs;
    }
    forall q | q in qs ensures exists p :: p in ps && p.orderId == q.orderId {
      var i :| 0 <= i < |qs| && qs[i] == q;
      assert ps[i] in ps;
    }
  }

  lemma GroupOld(ps: seq<Preview>, owned: Collection, t: Ticket, k: nat)
    requires Grouped(ps, owned) && k < |ps| && ps[k].orderId == t.orderId
    ensures Grouped(ps[k := ps[k].(total := ps[k].total + t.price)], owned + [t])
  {
    OwnedMore(owned, t);
    TotalsUpdate(ps, k, t.price);
    IdsKept(ps, k, ps[k].total + t.price);
    assert ps[k] in ps;
    assert t.orderId in PreviewIds(ps);
    assert OrderIds(owned + [t]) == OrderIds(owned);
    hide PreviewIds, OrderIds, SumPrices, Totals, AllPrices;
    var qs := ps[k := ps[k].(total := ps[k].total + t.price)];
    forall i | 0 <= i < |qs| ensures qs[i].total == SumPrices(owned + [t], qs[i].orderId) {
      assert i != k ==> qs[i] == ps[i] && ps[i].orderId != ps[k].orderId;
    }
  }

  lemma NewKeepsOnePerOrder(ps: seq<Preview>, p: Preview)
    requires OnePerOrder(ps) && forall i :: 0 <= i < |ps| ==> ps[i].orderId != p.orderId
    ensures OnePerOrder(ps + [p])
  {
  }

  lemma {:induction false} NoSuchOrder(ps: seq<Preview>, owned: Collection, orderId: string)
    requires forall i :: 0 <= i < |ps| ==> ps[i].orderId != orderId
    requires OrderIds(owned) <= PreviewIds(ps)
    ensures SumPrices(owned, orderId) == 0
  {
    if owned != [] {
      var front, t := owned[..|owned| - 1], owned[|owned| - 1];
      assert t.orderId in OrderIds(owned);
      assert OrderIds(front) <= OrderIds(owned);
      NoSuchOrder(ps, front, orderId);
    }
  }

  lemma NewTotalsRight(ps: seq<Preview>, owned: Collection, t: Ticket, p: Preview)
    requires TotalsRight(ps, owned) && PreviewIds(ps) == OrderIds(owned)
    requires p.orderId == t.orderId && p.total == t.price
    requires forall i :: 0 <= i < |ps| ==> ps[i].orderId != t.orderId
    ensures TotalsRight(ps + [p], owned + [t])
  {
    OwnedMore(owned, t);
    NoSuchOrder(ps, owned, t.orderId);
    hide PreviewIds, OrderIds, SumPrices, AllPrices;
  }

  lemma NewIdsAndSums(ps: seq<Preview>, owned: Collection, t: Ticket, p: Preview)
    requires PreviewIds(ps) == OrderIds(owned) && Totals(ps) == AllPrices(owned)
    requires p.orderId == t.orderId && p.total == t.price
    ensures PreviewIds(ps + [p]) == OrderIds(owned + [t]) && Totals(ps + [p]) == AllPrices(owned + [t])
  {
    OwnedMore(owned, t);
    assert (ps + [p])[..|ps|] == ps;
    hide OrderIds, AllPrices;
    assert PreviewIds(ps + [p]) == PreviewIds(ps) + {p.orderId} by {
      assert forall q :: q in ps + [p] <==> q in ps || q == p;
    }
  }

  lemma GroupNew(ps: seq<Preview>, owned: Collection, t: Ticket)
    requires Grouped(ps, owned) && forall i :: 0 <= i < |ps| ==> ps[i].orderId != t.orderId
    ensures Grouped(ps + [Preview(t.orderId, t.date, t.screening, t.price)], owned + [t])
  {
    hide PreviewIds, OrderIds, SumPrices, Totals, AllPrices, OnePerOrder, TotalsRight;
    var p := Preview(t.orderId, t.date, t.screening, t.price);
    NewKeepsOnePerOrder(ps, p);
    NewTotalsRight(ps, owned, t, p);
    NewIdsAndSums(ps, owned, t, p);
  }

  // One more document: what grouping and ownership make of it.
  lemma GroupStep(front: Collection, t: Ticket, account: string)
    ensures var k, ps := Find(Group(front, account), t.orderId), Group(front, account);
            Group(front + [t], account) ==
            if t.ownerId != account then ps
            else if k >= 0 then ps[k := ps[k].(total := ps[k].total + t.price)]
            else ps + [Preview(t.orderId, t.date, t.screening, t.price)]
    ensures Owned(front + [t], account) ==
            if t.ownerId != account then Owned(front, account) else Owned(front, account) + [t]
  {
    hide Find;
    assert (front + [t])[..|front|] == front;
    assert Owned(front, account) + [] == Owned(front, account);
  }

  lemma NothingGrouped(account: string)
    ensures Grouped(Group([], account), Owned([], account))
  {
  }

  lemma GroupMore(front: Collection, t: Ticket, account: string)
    requires Grouped(Group(front, account), Owned(front, account))
    ensures Grouped(Group(front + [t], account), Owned(front + [t], account))
  {
    hide Grouped, Group, Owned, Find;
    GroupStep(front, t, account);
    var ps, owned := Group(front, account), Owned(front, account);
    if t.ownerId == account {
      if Find(ps, t.orderId) >= 0 {
        GroupOld(ps, owned, t, Find(ps, t.orderId));
      } else {
        GroupNew(ps, owned, t);
      }
    }
  }

  // One preview for each order of the account, with that order's own total; together
  // they carry exactly what the account's tickets cost.
  lemma {:induction false} GroupConserves(c: Collection, account: string)
    ensures Grouped(Group(c, account), Owned(c, account))
  {
    hide Grouped, Group, Owned;
    if c == [] {
      NothingGrouped(account);
    } else {
      GroupConserves(c[..|c| - 1], account);
      GroupMore(c[..|c| - 1], c[|c| - 1], account);
      assert c == c[..|c| - 1] + [c[|c| - 1]];
    }
  }

  // The account's tickets are those it owns, each as often as it is there.
  lemma {:induction false} OwnedIs(c: Collection, account: string, t: Ticket)
    ensures multiset(Owned(c, account))[t] == if t.ownerId == account then multiset(c)[t] else 0
  {
    if c != [] {
      var front, last := c[..|c| - 1], c[|c| - 1];
      OwnedIs(front, account, t);
      assert c == front + [last];
    }
  }

  lemma OwnedStep(c: Collection, t: Ticket, account: string)
    ensures AllPrices(Owned(c + [t], account)) ==
            AllPrices(Owned(c, account)) + if t.ownerId == account then t.price else 0
  {
    assert (c + [t])[..|c|] == c;
    var owned := Owned(c, account);
    assert (owned + [t])[..|owned|] == owned && owned + [] == owned;
  }

  lemma OneMore(price: nat, n: nat)
    ensures price * n + price == price * (n + 1)
  {
  }

  // Tickets of one owner at one price raise what that account's tickets cost, by price
  // times their number, and nobody else's.
  lemma {:induction false} AccountGrows(c: Collection, added: Collection, ownerId: string, price: uint32,
                                        account: string)
    requires forall k :: 0 <= k < |added| ==> added[k].ownerId == ownerId && added[k].price == price
    ensures AllPrices(Owned(c + added, account)) ==
            AllPrices(Owned(c, account)) + if account == ownerId then price * |added| else 0
  {
    hide Owned, AllPrices;
    if added == [] {
      assert c + added == c;
    } else {
      var n, p: nat := |added| - 1, price;
      AccountGrows(c, added[..n], ownerId, price, account);
      OwnedStep(c + added[..n], added[n], account);
      assert c + added == c + added[..n] + [added[n]];
      OneMore(p, n);
      assert |added[..n]| == n && |added| == n + 1;
    }
  }

  // The first ticket the account has of an order.
  ghost predicate FirstOf(c: Collection, account: string, orderId: string, i: nat) {
    && i < |c| && c[i].ownerId == account && c[i].orderId == orderId
    && forall m :: 0 <= m < i ==> c[m].ownerId != account || c[m].orderId != orderId
  }

  ghost predicate Shows(c: Collection, account: string, p: Preview) {
    exists i: nat :: FirstOf(c, account, p.orderId, i) && p.date == c[i].date && p.screening == c[i].screening
  }

  lemma StillShows(front: Collection, t: Ticket, account: string, p: Preview, total: nat)
    requires Shows(front, account, p)
    ensures Shows(front + [t], account, p.(total := total))
  {
    var i: nat :| FirstOf(front, account, p.orderId, i) && p.date == front[i].date && p.screening == front[i].screening;
    assert FirstOf(front + [t], account, p.orderId, i);
  }

  // An order the account has no preview of yet is one it has no ticket of yet.
  lemma NoTicketYet(c: Collection, account: string, orderId: string)
    requires Find(Group(c, account), orderId) < 0
    ensures forall m :: 0 <= m < |c| ==> c[m].ownerId != account || c[m].orderId != orderId
  {
    GroupConserves(c, account);
    forall m | 0 <= m < |c| && c[m].ownerId == account ensures c[m].orderId != orderId {
      OwnedIs(c, account, c[m]);
      assert multiset(Owned(c, account))[c[m]] > 0;
      assert c[m] in Owned(c, account);
      assert c[m].orderId in PreviewIds(Group(c, account));
    }
  }

  lemma NewShows(front: Collection, t: Ticket, account: string)
    requires t.ownerId == account
    requires forall m :: 0 <= m < |front| ==> front[m].ownerId != account || front[m].orderId != t.orderId
    ensures Shows(front + [t], account, Preview(t.orderId, t.date, t.screening, t.price))
  {
    assert FirstOf(front + [t], account, t.orderId, |front|);
  }

  lemma PreviewStep(front: Collection, t: Ticket, account: string, k: nat)
    requires k < |Group(front + [t], account)|
    requires forall j :: 0 <= j < |Group(front, account)| ==> Shows(front, account, Group(front, account)[j])
    ensures Shows(front + [t], account, Group(front + [t], account)[k])
  {
    hide Group, Find, Shows, Owned;
    GroupStep(front, t, account);
    var before, p := Group(front, account), Group(front + [t], account)[k];
    if k < |before| {
      assert p == before[k].(total := p.total);
      StillShows(front, t, account, before[k], p.total);
    } else {
      NoTicketYet(front, account, t.orderId);
      NewShows(front, t, account);
    }
  }

  lemma {:induction false} PreviewsShow(c: Collection, account: string)
    ensures forall k :: 0 <= k < |Group(c, account)| ==> Shows(c, account, Group(c, account)[k])
  {
    if c != [] {
      hide Group, Shows;
      var front, t := c[..|c| - 1], c[|c| - 1];
      PreviewsShow(front, account);
      assert c == front + [t];
      forall k | 0 <= k < |Group(c, account)| ensures Shows(c, account, Group(c, account)[k]) {
        PreviewStep(front, t, account, k);
      }
    }
  }

  lemma EveryOrderShown(c: Collection, account: string)
    ensures forall t :: t in c && t.ownerId == account ==>
              exists k :: 0 <= k < |Group(c, account)| && Group(c, account)[k].orderId == t.orderId
  {
    var ps := Group(c, account);
    GroupConserves(c, account);
    hide Group, SumPrices, Totals, AllPrices;
    forall t | t in c && t.ownerId == account ensures exists k :: 0 <= k < |ps| && ps[k].orderId == t.orderId {
      OwnedIs(c, account, t);
      assert multiset(Owned(c, account))[t] > 0;
      assert t in Owned(c, account);
      assert t.orderId in PreviewIds(ps);
      var p :| p in ps && p.orderId == t.orderId;
    }
  }

  // One preview for each order the account has a ticket of, with the sum of the prices of
  // all its tickets of that order.
  lemma PreviewsAre(c: Collection, account: string)
    ensures forall j, k :: 0 <= j < k < |Group(c, account)| ==>
              Group(c, account)[j].orderId != Group(c, account)[k].orderId
    ensures forall t :: t in c && t.ownerId == account ==>
              exists k :: 0 <= k < |Group(c, account)| && Group(c, account)[k].orderId == t.orderId
    ensures forall k :: 0 <= k < |Group(c, account)| ==>
              Group(c, account)[k].total == SumPrices(Owned(c, account), Group(c, account)[k].orderId)
  {
    GroupConserves(c, account);
    EveryOrderShown(c, account);
    hide Group, Owned, SumPrices, Find, PreviewIds, OrderIds, Totals, AllPrices;
  }

  // Each with the date and the screening of the first of them.
  lemma PreviewIsOfFirst(c: Collection, account: string, k: nat)
    requires k < |Group(c, account)|
    ensures var p := Group(c, account)[k];
            exists i :: 0 <= i < |c| && c[i].ownerId == account && c[i].orderId == p.orderId
                        && c[i].date == p.date && c[i].screening == p.screening
                        && forall m :: 0 <= m < i ==> c[m].ownerId != account || c[m].orderId != p.orderId
  {
    PreviewsShow(c, account);
    hide Group;
    var p := Group(c, account)[k];
    assert Shows(c, account, p);
    var i: nat :| FirstOf(c, account, p.orderId, i) && p.date == c[i].date && p.screening == c[i].screening;
  }

  // ---------- pages ----------

  function Slice<T>(list: seq<T>, skip: nat, limit: nat): seq<T> {
    if skip >= |list| then []
    else if skip + limit >= |list| then list[skip..]
    else list[skip..skip + limit]
  }

  const WRAP := 0x1_0000_0000

  // $skip and $limit; the product is computed on 32 bits.
  function Page<T>(list: seq<T>, page: uint32, limit: uint32): seq<T>
    requires page >= 1
  {
    Slice(list, ((page - 1) * limit) % WRAP, limit)
  }

  function IntendedPage<T>(list: seq<T>, page: uint32, limit: uint32): seq<T>
    requires page >= 1
  {
    Slice(list, (page - 1) * limit, limit)
  }

  lemma SliceIs<T>(list: seq<T>, skip: nat, limit: nat)
    ensures Slice(list, skip, limit) ==
            list[(if skip < |list| then skip else |list|)..(if skip + limit < |list| then skip + limit else |list|)]
  {
  }

  // Where a page starts and ends; in the code the product is taken modulo 2^32.
  lemma PageIs<T>(list: seq<T>, page: uint32, limit: uint32, product: nat)
    requires page >= 1 && product == (page - 1) * limit
    ensures var skip := product % 0x1_0000_0000;
      Page(list, page, limit) ==
      list[(if skip < |list| then skip else |list|)..(if skip + limit < |list| then skip + limit else |list|)]
    ensures IntendedPage(list, page, limit) ==
            list[(if product < |list| then product else |list|)
                 ..(if product + limit < |list| then product + limit else |list|)]
  {
    SliceIs(list, product % 0x1_0000_0000, limit);
    SliceIs(list, product, limit);
    hide Slice;
  }

  function Pages<T>(list: seq<T>, n: uint32, limit: uint32): seq<T> {
    if n == 0 then [] else Pages(list, n - 1, limit) + Page(list, n, limit)
  }

  function Upto<T>(list: seq<T>, n: nat): seq<T> {
    if n <= |list| then list[..n] else list
  }

  lemma SliceGoesOn<T>(list: seq<T>, skip: nat, limit: nat)
    ensures Upto(list, skip) + Slice(list, skip, limit) == Upto(list, skip + limit)
  {
  }

  lemma SmallProduct(a: nat, b: nat)
    requires a > 0
    ensures (a - 1) * b + b == a * b
    ensures a > 1 ==> 0 <= (a - 2) * b <= (a - 1) * b
  {
  }

  lemma PageFits<T>(list: seq<T>, page: uint32, limit: uint32)
    requires page >= 1 && (page - 1) * limit < WRAP
    ensures Page(list, page, limit) == Slice(list, (page - 1) * limit, limit)
  {
    SmallProduct(page, limit);
    hide Slice;
    var skip: nat := (page - 1) * limit;
    assert skip % WRAP == skip;
  }

  // Consecutive pages put together are the list from its start, each entry once.
  lemma {:induction false} PagesConcatenate<T>(list: seq<T>, n: uint32, limit: uint32)
    requires n > 0 ==> (n - 1) * limit < 0x1_0000_0000
    ensures Pages(list, n, limit) == list[..if n * limit < |list| then n * limit else |list|]
  {
    if n > 0 {
      SmallProduct(n, limit);
      PagesConcatenate(list, n - 1, limit);
      PageFits(list, n, limit);
      SliceGoesOn(list, (n - 1) * limit, limit);
      hide Upto, Slice, Page;
    }
  }

  lemma WrappedSlice(skip: nat, limit: nat)
    requires skip >= WRAP && limit >= 1
    ensures exists list: seq<int> :: Slice(list, skip % WRAP, limit) != Slice(list, skip, limit)
  {
    var list: seq<int> := seq(skip % WRAP + 1, _ => 0);
    assert |Slice(list, skip % WRAP, limit)| == 1;
    assert Slice(list, skip, limit) == [];
  }

  // The page asked for is the page returned, for every list, exactly while the product
  // fits 32 bits.
  lemma PageExact(page: uint32, limit: uint32)
    requires page >= 1 && limit >= 1
    ensures (forall list: seq<int> :: Page(list, page, limit) == IntendedPage(list, page, limit))
            <==> (page - 1) * limit < 0x1_0000_0000
  {
    SmallProduct(page, limit);
    var skip: nat := (page - 1) * limit;
    hide Slice;
    if skip >= WRAP {
      WrappedSlice(skip, limit);
      var list: seq<int> :| Slice(list, skip % WRAP, limit) != Slice(list, skip, limit);
      assert Page(list, page, limit) != IntendedPage(list, page, limit);
    } else {
      assert skip % WRAP == skip;
    }
  }

  // Asking for page 2^28 + 1 with 16 a page shows the first page again.
  lemma WrappedPage<T>(list: seq<T>)
    ensures Page(list, 268435457, 16) == Page(list, 1, 16)
  {
  }
}
