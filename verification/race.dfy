/**
  Paying for an order against canceling it when its notification could not be sent:
  PreparePaymentURL's goroutine, the notification path and the refund it may start,
  interleaved in every way, with every try free to take effect or not and to report
  what it likes as long as a reported success did take effect.
 */
module Race {
  import opened Tickets
  import opened Results

  // ---------- whole-order updates only ----------

  ghost predicate WholeOnly(run: seq<Update>, orderId: string) {
    forall k :: 0 <= k < |run| && run[k].orderId == orderId ==> run[k].WholeOrder?
  }

  ghost predicate AllHave(c: Collection, orderId: string, status: Status) {
    forall i :: 0 <= i < |c| && c[i].orderId == orderId ==> c[i].status == status
  }

  // What whole-order updates make of the one status an order's tickets share.
  function Shared(status: Status, run: seq<Update>, orderId: string): Status {
    if run == [] then status
    else
      var earlier := Shared(status, run[..|run| - 1], orderId);
      var last := run[|run| - 1];
      if last.orderId == orderId then Move(earlier, last.target) else earlier
  }

  // The tickets of an order go through every run in step.
  lemma {:induction false} InStep(c: Collection, run: seq<Update>, orderId: string, status: Status)
    requires AllHave(c, orderId, status) && WholeOnly(run, orderId)
    ensures AllHave(After(c, run), orderId, Shared(status, run, orderId))
    ensures forall i :: 0 <= i < |c| ==> After(c, run)[i].orderId == c[i].orderId
  {
    if run != [] {
      InStep(c, run[..|run| - 1], orderId, status);
    }
  }

  // Whichever of paying and canceling reaches the order first.
  function FirstDecision(run: seq<Update>, orderId: string): Option<Status> {
    if run == [] then None
    else
      var earlier := FirstDecision(run[..|run| - 1], orderId);
      var last := run[|run| - 1];
      if earlier.Some? then earlier
      else if last.orderId == orderId && last.target in {Paid, Canceled} then Some(last.target)
      else None
  }

  // The first of the two decides for all tickets, whatever else happens to the order.
  lemma {:induction false} FirstWins(c: Collection, run: seq<Update>, orderId: string)
    requires AllHave(c, orderId, PaymentRequired) && WholeOnly(run, orderId)
    ensures match FirstDecision(run, orderId)
            case None => Shared(PaymentRequired, run, orderId) == PaymentRequired
            case Some(first) =>
              if first == Canceled then Shared(PaymentRequired, run, orderId) == Canceled
              else first == Paid && Shared(PaymentRequired, run, orderId) in {Paid, Used, RefundAwaiting, Refunded}
    ensures AllHave(After(c, run), orderId, Shared(PaymentRequired, run, orderId))
  {
    InStep(c, run, orderId, PaymentRequired);
    if run != [] {
      FirstWins(c, run[..|run| - 1], orderId);
    }
  }

  // And then the other changes nothing at all.
  lemma LoserChangesNothing(c: Collection, run: seq<Update>, orderId: string)
    requires AllHave(c, orderId, PaymentRequired) && WholeOnly(run, orderId)
    ensures FirstDecision(run, orderId) == Some(Paid) ==>
              Apply(After(c, run), WholeOrder(orderId, Canceled)) == After(c, run)
    ensures FirstDecision(run, orderId) == Some(Canceled) ==>
              forall target :: Apply(After(c, run), WholeOrder(orderId, target)) == After(c, run)
  {
    FirstWins(c, run, orderId);
    var now := After(c, run);
    if FirstDecision(run, orderId) == Some(Paid) {
      assert forall i :: 0 <= i < |now| ==> !Matches(now[i], WholeOrder(orderId, Canceled));
    }
    if FirstDecision(run, orderId) == Some(Canceled) {
      forall target ensures Apply(now, WholeOrder(orderId, target)) == now {
        assert forall i :: 0 <= i < |now| ==> !Matches(now[i], WholeOrder(orderId, target));
      }
    }
  }

  // ---------- the goroutines ----------

  // A chain of status changes, each tried up to three times. Paying that fails for
  // good goes on to a refund; a refund is two changes with a pause between.
  datatype Chain = Paying(left: nat) | Awaiting(left: nat) | Refunding(left: nat) | Finished

  function Target(t: Chain): Status
    requires !t.Finished?
  {
    match t
    case Paying(_) => Paid
    case Awaiting(_) => RefundAwaiting
    case Refunding(_) => Refunded
  }

  function Succeed(t: Chain): Chain {
    if t.Awaiting? then Refunding(3) else Finished
  }

  function Fail(t: Chain): Chain {
    match t
    case Paying(left) => if left > 1 then Paying(left - 1) else Awaiting(3)
    case Awaiting(left) => if left > 1 then Awaiting(left - 1) else Finished
    case Refunding(left) => if left > 1 then Refunding(left - 1) else Finished
    case Finished => Finished
  }

  // The notification path: send, read the order's statuses, act on them.
  datatype Notifier = Sending | Reading | Acting(statuses: set<Status>) | Done

  datatype State = State(c: Collection, payer: Chain, notifier: Notifier, refunder: Chain)

  // Who acts next, whether its change takes effect, and whether success is reported.
  datatype Turn = PayerMoves(applied: bool, reported: bool) | RefunderMoves(applied: bool, reported: bool)
                 | NotifierMoves(delivered: bool, applied: bool)

  // RequestOrderRefund starts a refund, unless reading the order's total fails because
  // it does not fit 32 bits.
  function RefundRequested(c: Collection, orderId: string): Chain {
    if SumPrices(c, orderId) < 0x1_0000_0000 then Awaiting(3) else Finished
  }

  // The update a move makes, if any.
  function Effect(s: State, m: Turn, orderId: string): seq<Update> {
    match m
    case PayerMoves(applied, reported) =>
      if !s.payer.Finished? && (applied || reported) then [WholeOrder(orderId, Target(s.payer))] else []
    case RefunderMoves(applied, reported) =>
      if !s.refunder.Finished? && (applied || reported) then [WholeOrder(orderId, Target(s.refunder))] else []
    case NotifierMoves(_, applied) =>
      if s.notifier == Acting({PaymentRequired}) && applied then [WholeOrder(orderId, Canceled)] else []
  }

  function Next(s: State, m: Turn, orderId: string): State {
    var c := After(s.c, Effect(s, m, orderId));
    match m
    case PayerMoves(_, reported) => s.(c := c, payer := if reported then Succeed(s.payer) else Fail(s.payer))
    case RefunderMoves(_, reported) =>
      s.(c := c, refunder := if reported then Succeed(s.refunder) else Fail(s.refunder))
    case NotifierMoves(delivered, _) =>
      match s.notifier
      case Sending => s.(notifier := if delivered then Done else Reading)
      case Reading => s.(notifier := Acting(KnownStatuses(s.c, orderId)))
      case Acting(statuses) =>
        s.(c := c, notifier := Done,
           refunder := if statuses == {Paid} then RefundRequested(s.c, orderId) else s.refunder)
      case Done => s
  }

  function Play(s: State, moves: seq<Turn>, orderId: string): State {
    if moves == [] then s else Next(Play(s, moves[..|moves| - 1], orderId), moves[|moves| - 1], orderId)
  }

  function Trace(s: State, moves: seq<Turn>, orderId: string): seq<Update> {
    if moves == [] then []
    else Trace(s, moves[..|moves| - 1], orderId) +
         Effect(Play(s, moves[..|moves| - 1], orderId), moves[|moves| - 1], orderId)
  }

  lemma {:induction false} AfterConcat(c: Collection, a: seq<Update>, b: seq<Update>)
    ensures After(c, a + b) == After(After(c, a), b)
  {
    if b == [] {
      assert a + b == a;
    } else {
      AfterConcat(c, a, b[..|b| - 1]);
      assert (a + b)[..|a + b| - 1] == a + b[..|b| - 1];
    }
  }

  lemma NextIsEffect(s: State, m: Turn, orderId: string)
    ensures Next(s, m, orderId).c == After(s.c, Effect(s, m, orderId))
    ensures WholeOnly(Effect(s, m, orderId), orderId)
  {
  }

  // Every interleaving is a run of whole-order updates of the one order.
  lemma {:induction false} PlayIsRun(s: State, moves: seq<Turn>, orderId: string)
    ensures Play(s, moves, orderId).c == After(s.c, Trace(s, moves, orderId))
    ensures WholeOnly(Trace(s, moves, orderId), orderId)
  {
    if moves != [] {
      var before := Play(s, moves[..|moves| - 1], orderId);
      PlayIsRun(s, moves[..|moves| - 1], orderId);
      NextIsEffect(before, moves[|moves| - 1], orderId);
      hide Next, Effect, After;
      AfterConcat(s.c, Trace(s, moves[..|moves| - 1], orderId), Effect(before, moves[|moves| - 1], orderId));
    }
  }

  // The order just inserted, and its two goroutines about to start.
  ghost predicate Starts(s: State, orderId: string) {
    && AllHave(s.c, orderId, PaymentRequired) && (exists t :: t in s.c && t.orderId == orderId)
    && s.payer == Paying(3) && s.notifier == Sending && s.refunder == Finished
  }

  // The status the order's tickets share after some moves.
  function StatusAt(s: State, moves: seq<Turn>, orderId: string): Status {
    Shared(PaymentRequired, Trace(s, moves, orderId), orderId)
  }

  // In every interleaving the order's tickets share one status, decided by whichever of
  // paying and canceling took effect first; the notification path always reads exactly
  // one status.
  lemma OneStatusThroughout(s: State, moves: seq<Turn>, orderId: string)
    requires Starts(s, orderId)
    ensures var status := StatusAt(s, moves, orderId);
      && AllHave(Play(s, moves, orderId).c, orderId, status)
      && KnownStatuses(Play(s, moves, orderId).c, orderId) == {status}
      && (FirstDecision(Trace(s, moves, orderId), orderId) == Some(Canceled) ==> status == Canceled)
      && (FirstDecision(Trace(s, moves, orderId), orderId) == Some(Paid) ==>
            status in {Paid, Used, RefundAwaiting, Refunded})
  {
    var trace := Trace(s, moves, orderId);
    PlayIsRun(s, moves, orderId);
    FirstWins(s.c, trace, orderId);
    InStep(s.c, trace, orderId, PaymentRequired);
    var t :| t in s.c && t.orderId == orderId;
    var i :| 0 <= i < |s.c| && s.c[i] == t;
    var c := After(s.c, trace);
    assert c[i] in c && c[i].orderId == orderId;
  }

  lemma {:induction false} FirstKept(run: seq<Update>, more: seq<Update>, orderId: string)
    requires FirstDecision(run, orderId).Some?
    ensures FirstDecision(run + more, orderId) == FirstDecision(run, orderId)
  {
    if more == [] {
      assert run + more == run;
    } else {
      FirstKept(run, more[..|more| - 1], orderId);
      assert (run + more)[..|run + more| - 1] == run + more[..|more| - 1];
    }
  }

  // A decision once taken stays the first.
  lemma {:induction false} Persists(s: State, moves: seq<Turn>, orderId: string, k: nat)
    requires k <= |moves|
    ensures var d := FirstDecision(Trace(s, moves[..k], orderId), orderId);
            d.Some? ==> FirstDecision(Trace(s, moves, orderId), orderId) == d
    decreases |moves| - k
  {
    hide Play, Effect, Next, FirstDecision;
    if k == |moves| {
      assert moves[..k] == moves;
    } else {
      Persists(s, moves, orderId, k + 1);
      assert moves[..k + 1][..k] == moves[..k];
      if FirstDecision(Trace(s, moves[..k], orderId), orderId).Some? {
        FirstKept(Trace(s, moves[..k], orderId), Effect(Play(s, moves[..k], orderId), moves[k], orderId), orderId);
      }
    }
  }

  // A canceled order was not paid for at any point, and the refund chains leave it alone.
  lemma CanceledMeansUnpaid(s: State, moves: seq<Turn>, orderId: string, k: nat)
    requires Starts(s, orderId) && k <= |moves|
    requires AllHave(Play(s, moves, orderId).c, orderId, Canceled)
    ensures AllHave(Play(s, moves[..k], orderId).c, orderId, PaymentRequired)
            || AllHave(Play(s, moves[..k], orderId).c, orderId, Canceled)
  {
    OneStatusThroughout(s, moves, orderId);
    OneStatusThroughout(s, moves[..k], orderId);
    Persists(s, moves, orderId, k);
    PlayIsRun(s, moves[..k], orderId);
    FirstWins(s.c, Trace(s, moves[..k], orderId), orderId);
    hide Trace, Play, After, Shared, FirstDecision;
    var end := Shared(PaymentRequired, Trace(s, moves, orderId), orderId);
    assert end in KnownStatuses(Play(s, moves, orderId).c, orderId);
    assert end == Canceled;
  }

  // ---------- the retry loops end, and do what they are for ----------

  function Left(t: Chain): nat {
    match t
    case Paying(left) => left + 6
    case Awaiting(left) => left + 3
    case Refunding(left) => left
    case Finished => 0
  }

  predicate Bounded(t: Chain) {
    t.Finished? || 1 <= t.left <= 3
  }

  function PayerMovesIn(moves: seq<Turn>): nat {
    if moves == [] then 0
    else PayerMovesIn(moves[..|moves| - 1]) + (if moves[|moves| - 1].PayerMoves? then 1 else 0)
  }

  function PayerTurns(moves: seq<Turn>): set<nat> {
    set k: nat | k < |moves| && moves[k].PayerMoves?
  }

  lemma {:induction false} PayerMovesAre(moves: seq<Turn>)
    ensures PayerMovesIn(moves) == |PayerTurns(moves)|
  {
    if moves == [] {
      assert PayerTurns(moves) == {};
    } else {
      var n := |moves| - 1;
      PayerMovesAre(moves[..n]);
      assert PayerTurns(moves) == PayerTurns(moves[..n]) + (if moves[n].PayerMoves? then {n} else {});
    }
  }

  lemma {:induction false} PayerRunsDown(s: State, moves: seq<Turn>, orderId: string)
    requires s.payer == Paying(3)
    ensures Bounded(Play(s, moves, orderId).payer)
    ensures Play(s, moves, orderId).payer.Finished?
            || Left(Play(s, moves, orderId).payer) + PayerMovesIn(moves) <= 9
  {
    if moves != [] {
      PayerRunsDown(s, moves[..|moves| - 1], orderId);
    }
  }

  // Three tries for each of at most three changes: nine turns and the payer is done.
  lemma PayerEnds(s: State, moves: seq<Turn>, orderId: string)
    requires s.payer == Paying(3)
    ensures |set k: nat | k < |moves| && moves[k].PayerMoves?| >= 9 ==> Play(s, moves, orderId).payer.Finished?
  {
    PayerRunsDown(s, moves, orderId);
    PayerMovesAre(moves);
  }

  // ---------- what one turn does ----------

  lemma {:induction false} OneUpdate(c: Collection, orderId: string, target: Status, status: Status)
    requires AllHave(c, orderId, status)
    ensures After(c, [WholeOrder(orderId, target)]) == Apply(c, WholeOrder(orderId, target)) && After(c, []) == c
    ensures AllHave(Apply(c, WholeOrder(orderId, target)), orderId, if Follows(status, target) then target else status)
    ensures forall i :: 0 <= i < |c| && c[i].orderId != orderId ==> Apply(c, WholeOrder(orderId, target))[i] == c[i]
  {
    assert [WholeOrder(orderId, target)][..0] == [];
  }

  // A change moves the order from a status it may follow, if it takes effect; three tries,
  // then the payer goes on to a refund, and a refund gives up.
  lemma {:induction false} PayerTurn(s: State, applied: bool, reported: bool, orderId: string, status: Status)
    requires AllHave(s.c, orderId, status)
    ensures var s', took := Next(s, PayerMoves(applied, reported), orderId), applied || reported;
      && s' == s.(c := s'.c, payer := s'.payer) && |s'.c| == |s.c|
      && (forall i :: 0 <= i < |s.c| && s.c[i].orderId != orderId ==> s'.c[i] == s.c[i])
      && match s.payer
         case Paying(left) =>
           && AllHave(s'.c, orderId, if took && status == PaymentRequired then Paid else status)
           && s'.payer == if reported then Finished else if left > 1 then Paying(left - 1) else Awaiting(3)
         case Awaiting(left) =>
           && AllHave(s'.c, orderId, if took && status in {Paid, Used} then RefundAwaiting else status)
           && s'.payer == if reported then Refunding(3) else if left > 1 then Awaiting(left - 1) else Finished
         case Refunding(left) =>
           && AllHave(s'.c, orderId, if took && status == RefundAwaiting then Refunded else status)
           && s'.payer == if reported then Finished else if left > 1 then Refunding(left - 1) else Finished
         case Finished => s' == s
  {
    if !s.payer.Finished? {
      OneUpdate(s.c, orderId, Target(s.payer), status);
      Transitions(status, Target(s.payer));
    }
    hide After, Apply, Follows, AllHave;
  }

  lemma {:induction false} RefunderTurn(s: State, applied: bool, reported: bool, orderId: string, status: Status)
    requires AllHave(s.c, orderId, status) && !s.refunder.Paying?
    ensures var s', took := Next(s, RefunderMoves(applied, reported), orderId), applied || reported;
      && s' == s.(c := s'.c, refunder := s'.refunder) && |s'.c| == |s.c|
      && (forall i :: 0 <= i < |s.c| && s.c[i].orderId != orderId ==> s'.c[i] == s.c[i])
      && match s.refunder
         case Awaiting(left) =>
           && AllHave(s'.c, orderId, if took && status in {Paid, Used} then RefundAwaiting else status)
           && s'.refunder == if reported then Refunding(3) else if left > 1 then Awaiting(left - 1) else Finished
         case Refunding(left) =>
           && AllHave(s'.c, orderId, if took && status == RefundAwaiting then Refunded else status)
           && s'.refunder == if reported then Finished else if left > 1 then Refunding(left - 1) else Finished
         case Finished => s' == s
  {
    if !s.refunder.Finished? {
      OneUpdate(s.c, orderId, Target(s.refunder), status);
      Transitions(status, Target(s.refunder));
    }
    hide After, Apply, Follows, AllHave;
  }

  // A notification that is not delivered has the order's statuses read, and then acted on:
  // paid, a refund is started if the total fits 32 bits; unpaid, the order is canceled.
  lemma {:induction false} NotifierTurn(s: State, delivered: bool, applied: bool, orderId: string, status: Status)
    requires AllHave(s.c, orderId, status)
    ensures var s' := Next(s, NotifierMoves(delivered, applied), orderId);
      && s' == s.(c := s'.c, notifier := s'.notifier, refunder := s'.refunder) && |s'.c| == |s.c|
      && (forall i :: 0 <= i < |s.c| && s.c[i].orderId != orderId ==> s'.c[i] == s.c[i])
      && match s.notifier
         case Sending => s' == s.(notifier := if delivered then Done else Reading)
         case Reading =>
           s' == s.(notifier := Acting(set t | t in s.c && t.orderId == orderId && !t.status.Unlisted? :: t.status))
         case Acting(read) =>
           && AllHave(s'.c, orderId,
                      if read == {PaymentRequired} && applied && status == PaymentRequired then Canceled else status)
           && s'.notifier == Done
           && s'.refunder ==
              if read != {Paid} then s.refunder
              else if SumPrices(s.c, orderId) < 0x1_0000_0000 then Awaiting(3) else Finished
         case Done => s' == s
  {
    OneUpdate(s.c, orderId, Canceled, status);
    Transitions(status, Canceled);
    StatusKnown(s.c, orderId);
    hide After, Apply, Follows, AllHave, SumPrices, KnownStatuses;
  }

  // ---------- what the goroutines leave ----------

  // What each goroutine's place in its chain says about that status.
  ghost predicate InStepWith(s: State, status: Status) {
    && !status.Unlisted? && status != Used && !s.refunder.Paying?
    && (s.notifier == Acting({Paid}) || !s.refunder.Finished? ==>
          status in {Paid, Used, RefundAwaiting, Refunded})
    && (s.refunder.Refunding? ==> status in {RefundAwaiting, Refunded})
    && (s.payer.Refunding? ==> status != Paid)
    && (status == Canceled ==> s.notifier == Done)
  }

  lemma OneMove(status: Status, u: Update)
    ensures Shared(status, [u], u.orderId) == Move(status, u.target)
    ensures Shared(status, [], u.orderId) == status
  {
    assert [u][..0] == [];
  }

  lemma NextInStep(s: State, m: Turn, orderId: string, status: Status)
    requires InStepWith(s, status) && KnownStatuses(s.c, orderId) == {status}
    ensures InStepWith(Next(s, m, orderId), Shared(status, Effect(s, m, orderId), orderId))
  {
    hide After, KnownStatuses;
    match m
    case PayerMoves(_, _) =>
      if !s.payer.Finished? { OneMove(status, WholeOrder(orderId, Target(s.payer))); }
    case RefunderMoves(_, _) =>
      if !s.refunder.Finished? { OneMove(status, WholeOrder(orderId, Target(s.refunder))); }
    case NotifierMoves(_, _) => OneMove(status, WholeOrder(orderId, Canceled));
  }

  lemma {:induction false} SharedConcat(status: Status, a: seq<Update>, b: seq<Update>, orderId: string)
    ensures Shared(status, a + b, orderId) == Shared(Shared(status, a, orderId), b, orderId)
  {
    if b == [] {
      assert a + b == a;
    } else {
      SharedConcat(status, a, b[..|b| - 1], orderId);
      assert (a + b)[..|a + b| - 1] == a + b[..|b| - 1];
    }
  }

  lemma StatusStep(s: State, moves: seq<Turn>, orderId: string, k: nat)
    requires k < |moves|
    ensures Play(s, moves[..k + 1], orderId) == Next(Play(s, moves[..k], orderId), moves[k], orderId)
    ensures StatusAt(s, moves[..k + 1], orderId) ==
            Shared(StatusAt(s, moves[..k], orderId), Effect(Play(s, moves[..k], orderId), moves[k], orderId), orderId)
  {
    hide Next, Effect, Shared;
    assert moves[..k + 1][..k] == moves[..k];
    SharedConcat(PaymentRequired, Trace(s, moves[..k], orderId),
                 Effect(Play(s, moves[..k], orderId), moves[k], orderId), orderId);
  }

  lemma StartsInStep(s: State, orderId: string)
    requires Starts(s, orderId)
    ensures InStepWith(s, PaymentRequired) && StatusAt(s, [], orderId) == PaymentRequired && Play(s, [], orderId) == s
  {
  }

  // Every goroutine is in step with the tickets, at every point of every interleaving.
  lemma {:induction false} PlayInStep(s: State, moves: seq<Turn>, orderId: string, k: nat)
    requires Starts(s, orderId) && k <= |moves|
    ensures InStepWith(Play(s, moves[..k], orderId), StatusAt(s, moves[..k], orderId))
  {
    hide InStepWith, Play, Next, Effect, Trace, Shared, FirstDecision, StatusAt, Starts, KnownStatuses, AllHave;
    if k == 0 {
      StartsInStep(s, orderId);
      assert moves[..0] == [];
    } else {
      PlayInStep(s, moves, orderId, k - 1);
      OneStatusThroughout(s, moves[..k - 1], orderId);
      StatusStep(s, moves, orderId, k - 1);
      NextInStep(Play(s, moves[..k - 1], orderId), moves[k - 1], orderId, StatusAt(s, moves[..k - 1], orderId));
    }
  }

  // No change of an order that is refunded, canceled, or unpaid with its payer gone
  // makes it paid for again.
  predicate Settled(s: State, status: Status) {
    !s.refunder.Paying? &&
    (status in {Refunded, Canceled} || (status == PaymentRequired && (s.payer.Finished? || s.payer.Refunding?)))
  }

  lemma NextSettled(s: State, m: Turn, orderId: string, status: Status)
    requires Settled(s, status)
    ensures var now := Shared(status, Effect(s, m, orderId), orderId);
      && Settled(Next(s, m, orderId), now)
      && (status in {Refunded, Canceled} ==> now == status) && (now == Refunded ==> status == Refunded)
  {
    hide After, KnownStatuses;
    OneMove(status, WholeOrder(orderId, Canceled));
    match m
    case PayerMoves(_, _) =>
      if !s.payer.Finished? { OneMove(status, WholeOrder(orderId, Target(s.payer))); }
    case RefunderMoves(_, _) =>
      if !s.refunder.Finished? { OneMove(status, WholeOrder(orderId, Target(s.refunder))); }
    case NotifierMoves(_, _) =>
  }

  lemma {:induction false} StaysSettled(s: State, moves: seq<Turn>, orderId: string, k: nat, n: nat)
    requires k <= n <= |moves| && Settled(Play(s, moves[..k], orderId), StatusAt(s, moves[..k], orderId))
    ensures Settled(Play(s, moves[..n], orderId), StatusAt(s, moves[..n], orderId))
    ensures StatusAt(s, moves[..k], orderId) in {Refunded, Canceled} ==>
              StatusAt(s, moves[..n], orderId) == StatusAt(s, moves[..k], orderId)
  {
    hide Settled, Play, Next, Effect, StatusAt, Shared;
    if n > k {
      StaysSettled(s, moves, orderId, k, n - 1);
      StatusStep(s, moves, orderId, n - 1);
      NextSettled(Play(s, moves[..n - 1], orderId), moves[n - 1], orderId, StatusAt(s, moves[..n - 1], orderId));
    }
  }

  // The refund of a failed notification, once it has reported both of its changes, has
  // refunded the order for good, whatever the payer did before, between and after.
  lemma RefundCompletes(s: State, moves: seq<Turn>, orderId: string, k: nat)
    requires Starts(s, orderId) && k < |moves|
    requires Play(s, moves[..k], orderId).refunder.Refunding? && moves[k].RefunderMoves? && moves[k].reported
    ensures AllHave(Play(s, moves, orderId).c, orderId, Refunded)
  {
    hide Play, Trace, Shared, FirstDecision, StatusAt, Starts, KnownStatuses, AllHave, After;
    PlayInStep(s, moves, orderId, k);
    StatusStep(s, moves, orderId, k);
    OneMove(StatusAt(s, moves[..k], orderId), WholeOrder(orderId, Refunded));
    assert StatusAt(s, moves[..k + 1], orderId) == Refunded;
    StaysSettled(s, moves, orderId, k + 1, |moves|);
    assert moves[..|moves|] == moves;
    OneStatusThroughout(s, moves, orderId);
  }

  // The payer's own refund, once reported done, leaves nothing paid for and kept: the
  // order is unpaid, canceled or refunded, now and for good.
  lemma PayerRefundSettles(s: State, moves: seq<Turn>, orderId: string, k: nat)
    requires Starts(s, orderId) && k < |moves|
    requires Play(s, moves[..k], orderId).payer.Refunding? && moves[k].PayerMoves? && moves[k].reported
    ensures exists status :: status in {PaymentRequired, Canceled, Refunded}
                             && AllHave(Play(s, moves, orderId).c, orderId, status)
  {
    hide Play, Trace, Shared, FirstDecision, StatusAt, Starts, KnownStatuses, AllHave, After;
    PlayInStep(s, moves, orderId, k);
    StatusStep(s, moves, orderId, k);
    OneMove(StatusAt(s, moves[..k], orderId), WholeOrder(orderId, Refunded));
    assert Settled(Play(s, moves[..k + 1], orderId), StatusAt(s, moves[..k + 1], orderId));
    StaysSettled(s, moves, orderId, k + 1, |moves|);
    assert moves[..|moves|] == moves;
    OneStatusThroughout(s, moves, orderId);
    assert StatusAt(s, moves, orderId) in {PaymentRequired, Canceled, Refunded};
  }

  lemma TheStatus(c: Collection, orderId: string, status: Status)
    requires KnownStatuses(c, orderId) == {status} && AllHave(c, orderId, status)
    ensures forall other :: AllHave(c, orderId, other) <==> other == status
  {
    assert status in StatusSet(c, orderId);
    var t :| t in c && t.orderId == orderId;
    var i :| 0 <= i < |c| && c[i] == t;
  }

  // An order paid for stays so.
  lemma StaysPaidFor(s: State, moves: seq<Turn>, orderId: string, k: nat)
    requires Starts(s, orderId) && k <= |moves|
    requires StatusAt(s, moves[..k], orderId) in {Paid, Used, RefundAwaiting, Refunded}
    ensures StatusAt(s, moves, orderId) in {Paid, Used, RefundAwaiting, Refunded}
  {
    PlayIsRun(s, moves[..k], orderId);
    FirstWins(s.c, Trace(s, moves[..k], orderId), orderId);
    Persists(s, moves, orderId, k);
    OneStatusThroughout(s, moves, orderId);
  }

  // A cancellation decided on an order read as unpaid cancels it for good exactly if it
  // is still unpaid when the cancellation takes effect; otherwise the order stays paid for.
  lemma CancelDecides(s: State, moves: seq<Turn>, orderId: string, k: nat)
    requires Starts(s, orderId) && k < |moves|
    requires Play(s, moves[..k], orderId).notifier == Acting({PaymentRequired})
    requires moves[k].NotifierMoves? && moves[k].applied
    ensures AllHave(Play(s, moves, orderId).c, orderId, Canceled)
            <==> AllHave(Play(s, moves[..k], orderId).c, orderId, PaymentRequired)
    ensures !AllHave(Play(s, moves[..k], orderId).c, orderId, PaymentRequired) ==>
              exists status :: status in {Paid, Used, RefundAwaiting, Refunded}
                               && AllHave(Play(s, moves, orderId).c, orderId, status)
  {
    hide Play, Trace, StatusAt, Shared, FirstDecision, Next, KnownStatuses, AllHave, Starts;
    PlayInStep(s, moves, orderId, k);
    OneStatusThroughout(s, moves[..k], orderId);
    OneStatusThroughout(s, moves, orderId);
    StatusStep(s, moves, orderId, k);
    var before, end := StatusAt(s, moves[..k], orderId), StatusAt(s, moves, orderId);
    OneMove(before, WholeOrder(orderId, Canceled));
    assert moves[..|moves|] == moves;
    TheStatus(Play(s, moves[..k], orderId).c, orderId, before);
    TheStatus(Play(s, moves, orderId).c, orderId, end);
    if before == PaymentRequired {
      PlayInStep(s, moves, orderId, k + 1);
      StaysSettled(s, moves, orderId, k + 1, |moves|);
    } else {
      StaysPaidFor(s, moves, orderId, k);
    }
  }

  // A payment that takes effect on an order not canceled by then pays for it for good; a
  // canceled order stays canceled.
  lemma PayDecides(s: State, moves: seq<Turn>, orderId: string, k: nat)
    requires Starts(s, orderId) && k < |moves| && Play(s, moves[..k], orderId).payer.Paying?
    requires moves[k].PayerMoves? && (moves[k].applied || moves[k].reported)
    ensures if AllHave(Play(s, moves[..k], orderId).c, orderId, Canceled)
            then AllHave(Play(s, moves, orderId).c, orderId, Canceled)
            else exists status :: status in {Paid, Used, RefundAwaiting, Refunded}
                                  && AllHave(Play(s, moves, orderId).c, orderId, status)
  {
    hide Play, Trace, StatusAt, Shared, FirstDecision, Next, KnownStatuses, AllHave, Starts;
    PlayInStep(s, moves, orderId, k);
    OneStatusThroughout(s, moves[..k], orderId);
    OneStatusThroughout(s, moves, orderId);
    StatusStep(s, moves, orderId, k);
    var before, end := StatusAt(s, moves[..k], orderId), StatusAt(s, moves, orderId);
    OneMove(before, WholeOrder(orderId, Paid));
    assert moves[..|moves|] == moves;
    TheStatus(Play(s, moves[..k], orderId).c, orderId, before);
    if before == Canceled {
      StaysSettled(s, moves, orderId, k, |moves|);
    } else {
      StaysPaidFor(s, moves, orderId, k + 1);
    }
  }

  // ---------- the refund of a failed notification goes through ----------

  // No turn changes what an order costs.
  lemma PriceKept(s: State, moves: seq<Turn>, orderId: string)
    ensures SumPrices(Play(s, moves, orderId).c, orderId) == SumPrices(s.c, orderId)
  {
    var run := Trace(s, moves, orderId);
    PlayIsRun(s, moves, orderId);
    forall i | 0 <= i < |s.c| ensures After(s.c, run)[i] == s.c[i].(status := After(s.c, run)[i].status) {
      HistoryIsPath(s.c, run, i);
    }
    SumIgnoresStatus(s.c, After(s.c, run), orderId);
  }

  lemma StepOf(s: State, moves: seq<Turn>, orderId: string, k: nat)
    requires k < |moves|
    ensures Play(s, moves[..k + 1], orderId) == Next(Play(s, moves[..k], orderId), moves[k], orderId)
  {
    hide Next;
    assert moves[..k + 1][..k] == moves[..k];
  }

  lemma RefunderOnly(s: State, m: Turn, orderId: string)
    requires s.notifier == Done
    ensures Next(s, m, orderId).notifier == Done
    ensures Next(s, m, orderId).refunder ==
            if !m.RefunderMoves? then s.refunder else if m.reported then Succeed(s.refunder) else Fail(s.refunder)
  {
    hide After, Effect;
  }

  lemma TriesStep(moves: seq<Turn>, k: nat, a: nat)
    requires k + 1 < a <= |moves|
    ensures |set m: nat | k < m < a && moves[m].RefunderMoves?| ==
            |set m: nat | k < m < a - 1 && moves[m].RefunderMoves?| + if moves[a - 1].RefunderMoves? then 1 else 0
  {
    var fewer := set m: nat | k < m < a - 1 && moves[m].RefunderMoves?;
    assert (set m: nat | k < m < a && moves[m].RefunderMoves?) ==
           fewer + if moves[a - 1].RefunderMoves? then {a - 1} else {};
  }

  // A refund waiting for one of its changes still does after fewer than three tries that
  // were not reported, whatever the payer did.
  lemma {:induction false} RefunderWaits(s: State, moves: seq<Turn>, orderId: string, k: nat, a: nat, awaiting: bool)
    requires k < a <= |moves|
    requires Play(s, moves[..k + 1], orderId).refunder == (if awaiting then Awaiting(3) else Refunding(3))
    requires Play(s, moves[..k + 1], orderId).notifier == Done
    requires forall m :: k < m < a ==> !(moves[m].RefunderMoves? && moves[m].reported)
    requires |set m: nat | k < m < a && moves[m].RefunderMoves?| <= 2
    ensures var left := 3 - |set m: nat | k < m < a && moves[m].RefunderMoves?|;
            Play(s, moves[..a], orderId).refunder == if awaiting then Awaiting(left) else Refunding(left)
    ensures Play(s, moves[..a], orderId).notifier == Done
  {
    hide Next, Play;
    var tries := set m: nat | k < m < a && moves[m].RefunderMoves?;
    if a == k + 1 {
      assert tries == {};
    } else {
      TriesStep(moves, k, a);
      RefunderWaits(s, moves, orderId, k, a - 1, awaiting);
      StepOf(s, moves, orderId, a - 1);
      RefunderOnly(Play(s, moves[..a - 1], orderId), moves[a - 1], orderId);
    }
  }

  // From the turn in which a failed notification acts on a paid order whose total fits 32
  // bits: once each of the two changes is reported within three tries, the order is
  // REFUNDED, whatever else happens.
  lemma RefundGoesThrough(s: State, moves: seq<Turn>, orderId: string, k: nat, a: nat, b: nat)
    requires Starts(s, orderId) && k < a < b < |moves|
    requires Play(s, moves[..k], orderId).notifier == Acting({Paid}) && moves[k].NotifierMoves?
    requires SumPrices(s.c, orderId) < 0x1_0000_0000
    requires moves[a].RefunderMoves? && moves[a].reported && moves[b].RefunderMoves? && moves[b].reported
    requires forall m :: k < m < b && m != a ==> !(moves[m].RefunderMoves? && moves[m].reported)
    requires |set m: nat | k < m < a && moves[m].RefunderMoves?| <= 2
    requires |set m: nat | a < m < b && moves[m].RefunderMoves?| <= 2
    ensures AllHave(Play(s, moves, orderId).c, orderId, Refunded)
  {
    hide Starts, Trace, AllHave, SumPrices, Effect, After;
    PriceKept(s, moves[..k], orderId);
    StepOf(s, moves, orderId, k);
    RefunderWaits(s, moves, orderId, k, a, true);
    StepOf(s, moves, orderId, a);
    RefunderWaits(s, moves, orderId, a, b, false);
    RefundCompletes(s, moves, orderId, b);
  }
}
