/**
  internal/paymentservice/paymentServiceStub.go: status changes tried up to three
  times against a repository that may do the work and still report a failure. What a
  goroutine does later is given as the chain of changes it starts with (see Race).
 */
module PaymentService {
  import opened Tickets
  import opened Results
  import opened OrdersRepo
  import opened Strings
  import opened SliceUtils
  import Race

  // How one try goes wrong: not at all, before doing anything, or after doing it all.
  datatype Fault = NoFault | Unreached | ReplyLost

  predicate AllUnreached(faults: seq<Fault>, n: nat)
    requires n <= |faults|
  {
    forall k :: 0 <= k < n ==> faults[k] == Unreached
  }

  // Some try does the work.
  predicate Reached(faults: seq<Fault>) {
    !AllUnreached(faults, |faults|)
  }

  // The try that first gets through is also the one whose reply arrives.
  predicate ReplyInTime(faults: seq<Fault>) {
    exists k :: 0 <= k < |faults| && faults[k] == NoFault && AllUnreached(faults, k)
  }

  predicate LostFirst(faults: seq<Fault>) {
    exists k :: 0 <= k < |faults| && faults[k] == ReplyLost && AllUnreached(faults, k)
  }

  // When a change of items reports success: a commit refused on its second try does not.
  predicate Reported(items: seq<string>, faults: seq<Fault>) {
    if items == [] then NoFault in faults else ReplyInTime(faults)
  }

  // Three tries, case by case.
  lemma FaultsMean(items: seq<string>, faults: seq<Fault>)
    requires |faults| == 3
    ensures Reached(faults) <==> faults != [Unreached, Unreached, Unreached]
    ensures ReplyInTime(faults) <==>
            || faults[0] == NoFault || (faults[0] == Unreached && faults[1] == NoFault)
            || (faults[0] == Unreached && faults[1] == Unreached && faults[2] == NoFault)
    ensures Reported(items, faults) <==>
            if items != [] then ReplyInTime(faults)
            else faults[0] == NoFault || faults[1] == NoFault || faults[2] == NoFault
  {
    assert faults[0] == NoFault ==> AllUnreached(faults, 0);
    assert faults[0] == Unreached && faults[1] == NoFault ==> AllUnreached(faults, 1);
    assert faults[0] == Unreached && faults[1] == Unreached && faults[2] == NoFault ==> AllUnreached(faults, 2);
  }

  lemma SecondTry(c: Collection, u: Update)
    requires u.Items?
    ensures Apply(Apply(c, u), u) == Apply(c, u)
    ensures u.items != [] ==> !Commits(Apply(c, u), u)
    ensures u.items == [] ==> Apply(c, u) == c && Commits(c, u)
    ensures UniqueIds(c) ==> UniqueIds(Apply(c, u))
  {
    if u.items == [] {
      assert forall t :: !Matches(t, u);
      NoneModified(c, u);
      assert SetMatching(c, u) == c;
    } else {
      ItemsRefusedTwice(c, u);
    }
  }

  // Once the items await their refund, the second change commits too, and nothing but
  // the items' status has changed.
  lemma RefundedAfterAwaiting(c: Collection, orderId: string, items: seq<string>)
    requires UniqueIds(c) && Commits(c, Items(orderId, items, RefundAwaiting))
    ensures var c' := Apply(c, Items(orderId, items, RefundAwaiting));
      && UniqueIds(c') && Commits(c', Items(orderId, items, Refunded))
      && forall i :: 0 <= i < |c| ==>
           && c'[i] == (if c[i].id in items then c[i].(status := RefundAwaiting) else c[i])
           && Apply(c', Items(orderId, items, Refunded))[i] ==
              (if c[i].id in items then c[i].(status := Refunded) else c[i])
  {
    var first, second := Items(orderId, items, RefundAwaiting), Items(orderId, items, Refunded);
    var c' := Apply(c, first);
    ItemsCommit(c, first);
    SecondTry(c, first);
    ItemsCommit(c', second);
    hide Apply, Commits, Distinct, UniqueIds;
    forall k | 0 <= k < |items| ensures Eligible(c', second, items[k]) {
      assert Eligible(c, first, items[k]);
      var t :| t in c && t.id == items[k] && Matches(t, first);
      var i :| 0 <= i < |c| && c[i] == t;
      assert c'[i] in c' && Matches(c'[i], second);
    }
  }

  class PaymentServiceStub {
    const repo: OrdersRepository
    const paymentUrl: string

    constructor (repo: OrdersRepository, paymentUrl: string)
      ensures this.repo == repo && this.paymentUrl == paymentUrl
    {
      this.repo, this.paymentUrl := repo, paymentUrl;
    }

    method ChangeOrderStatus(orderId: string, newStatus: Status, faults: seq<Fault>) returns (ok: bool)
      requires |faults| == 3
      modifies repo
      ensures repo.tickets == if faults == [Unreached, Unreached, Unreached] then old(repo.tickets)
                              else Apply(old(repo.tickets), WholeOrder(orderId, newStatus))
      ensures ok <==> NoFault in faults
    {
      WholeOrderIdempotent(repo.tickets, orderId, newStatus);
      var retry := 0;
      while retry <= 2
        invariant 0 <= retry <= 3 && NoFault !in faults[..retry]
        invariant repo.tickets == if AllUnreached(faults, retry) then old(repo.tickets)
                                  else Apply(old(repo.tickets), WholeOrder(orderId, newStatus))
      {
        if faults[retry] != Unreached {
          repo.ChangeOrderStatus(orderId, newStatus);
        }
        if faults[retry] == NoFault {
          return true;
        }
        retry := retry + 1;
      }
      assert faults[..3] == faults;
      return false;
    }

    // The item change is applied once or not at all too; but a commit whose reply was
    // lost is refused on the next try, so it ends in a failure that took effect.
    method ChangeOrderItemsStatus(orderId: string, items: seq<string>, newStatus: Status, faults: seq<Fault>)
      returns (ok: bool)
      requires |faults| == 3 && UniqueIds(repo.tickets)
      modifies repo
      ensures repo.tickets == if faults == [Unreached, Unreached, Unreached] then old(repo.tickets)
                              else Apply(old(repo.tickets), Items(orderId, items, newStatus))
      ensures ok <==> Commits(old(repo.tickets), Items(orderId, items, newStatus)) && Reported(items, faults)
    {
      hide Apply, Commits, AllEligible, UniqueIds, Distinct;
      var u := Items(orderId, items, newStatus);
      ghost var once := Apply(repo.tickets, u);
      ghost var before := repo.tickets;
      SecondTry(repo.tickets, u);
      var retry := 0;
      while retry <= 2
        invariant 0 <= retry <= 3 && UniqueIds(repo.tickets)
        invariant repo.tickets == if AllUnreached(faults, retry) then before else once
        invariant items != [] && Commits(before, u) ==> NoFault !in faults[..retry] || LostFirst(faults[..retry])
        invariant items == [] ==> NoFault !in faults[..retry]
      {
        var reply := Err(Internal);
        if faults[retry] != Unreached {
          reply := repo.ChangeOrderItemsStatus(orderId, items, newStatus);
        }
        if faults[retry] == NoFault && reply.Ok? {
          assert items != [] ==> AllUnreached(faults, retry);
          return true;
        }
        retry := retry + 1;
      }
      assert faults[..3] == faults;
      return false;
    }

    // The goroutine it starts pays; the URL is the same for every order.
    method PreparePaymentURL(email: string, total: uint32, orderId: string)
      returns (url: Result<string>, started: Race.Chain)
      ensures url == Ok(paymentUrl) && started == Race.Paying(3)
    {
      return Ok(paymentUrl), Race.Paying(3);
    }

    // The goroutine it starts refunds; but the order's total has to be read first.
    method RequestOrderRefund(percent: uint32, orderId: string) returns (r: Result<()>, started: Race.Chain)
      ensures started == if SumPrices(repo.tickets, orderId) < 0x1_0000_0000 then Race.Awaiting(3) else Race.Finished
      ensures r.Ok? <==> SumPrices(repo.tickets, orderId) < 0x1_0000_0000
    {
      var total := repo.GetOrderTotalPrice(orderId);
      if total.Err? {
        return Err(total.code), Race.Finished;
      }
      return Ok(()), Race.Awaiting(3);
    }

    // REFUND_AWAITING, then REFUNDED only once that was reported done.
    method OrderRefundRequest(orderId: string, awaiting: seq<Fault>, refunding: seq<Fault>) returns (ok: bool)
      requires |awaiting| == 3 && |refunding| == 3
      modifies repo
      ensures ok <==> NoFault in awaiting && NoFault in refunding
      ensures repo.tickets == After(old(repo.tickets),
                if awaiting == [Unreached, Unreached, Unreached] then []
                else if NoFault !in awaiting || refunding == [Unreached, Unreached, Unreached]
                  then [WholeOrder(orderId, RefundAwaiting)]
                else [WholeOrder(orderId, RefundAwaiting), WholeOrder(orderId, Refunded)])
    {
      var first, second := WholeOrder(orderId, RefundAwaiting), WholeOrder(orderId, Refunded);
      ghost var before := repo.tickets;
      assert [first][..0] == [] && [first, second][..1] == [first];
      assert After(before, []) == before && After(before, [first]) == Apply(before, first);
      assert After(before, [first, second]) == Apply(After(before, [first]), second);
      var done := ChangeOrderStatus(orderId, RefundAwaiting, awaiting);
      if !done {
        return false;
      }
      ok := ChangeOrderStatus(orderId, Refunded, refunding);
    }

    // The same for items. A reply lost on the way to REFUND_AWAITING leaves them there,
    // seats and all: they are refunded exactly if the first change's first commit is
    // reported and the second change gets through.
    method OrderItemsRefundRequest(orderId: string, items: seq<string>, awaiting: seq<Fault>, refunding: seq<Fault>)
      returns (ok: bool)
      requires |awaiting| == 3 && |refunding| == 3 && UniqueIds(repo.tickets)
      modifies repo
      ensures ok <==> Commits(old(repo.tickets), Items(orderId, items, RefundAwaiting))
                      && Reported(items, awaiting) && Reported(items, refunding)
      ensures !Commits(old(repo.tickets), Items(orderId, items, RefundAwaiting)) ==> repo.tickets == old(repo.tickets)
      ensures Commits(old(repo.tickets), Items(orderId, items, RefundAwaiting)) ==>
                |repo.tickets| == |old(repo.tickets)|
                && forall i :: 0 <= i < |repo.tickets| ==>
                     var t := old(repo.tickets)[i];
                     repo.tickets[i] == if t.id !in items || !Reached(awaiting) then t
                                        else if ReplyInTime(awaiting) && Reached(refunding)
                                          then t.(status := Refunded)
                                        else t.(status := RefundAwaiting)
    {
      hide Apply, Commits, UniqueIds, AllEligible, Distinct;
      ghost var before := repo.tickets;
      ghost var commits := Commits(before, Items(orderId, items, RefundAwaiting));
      ItemsCommit(before, Items(orderId, items, RefundAwaiting));
      if commits {
        RefundedAfterAwaiting(before, orderId, items);
      }
      var done := ChangeOrderItemsStatus(orderId, items, RefundAwaiting, awaiting);
      if !done {
        return false;
      }
      ok := ChangeOrderItemsStatus(orderId, items, Refunded, refunding);
    }
  }
}
