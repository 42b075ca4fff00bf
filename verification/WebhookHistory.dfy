/**
 What the billing tables owe to the deliveries of a run (module Webhooks), calls that die included:
 which call gave a payment, a refund or an account its status, and an event its own.
 */
module WebhookHistory {
  import opened Common
  import opened Histories
  import opened Upserts
  import opened Webhooks

  /** The state before call `i`. */
  function At(s: State, calls: seq<Call>, i: nat): State
    requires i <= |calls|
  {
    After(s, calls[..i])
  }

  function One(s: State, call: Call): State {
    match call
    case Completed(e) => Process(s, e).0
    case Died(e, k) => Crash(s, e, k)
  }

  lemma NextAt(s: State, calls: seq<Call>, i: nat)
    requires i < |calls|
    ensures At(s, calls, i + 1) == One(At(s, calls, i), calls[i])
  {
    assert calls[..i + 1][..i] == calls[..i];
  }

  // ---------------------------------------------------------------------------
  // The literal strings of Stripe
  // ---------------------------------------------------------------------------

  /** The statuses Stripe sends for a refund, and what is stored for them. */
  lemma {:induction false} RefundStatuses()
    ensures StoredRefundStatus("pending") == Some(RefundPending)
    ensures StoredRefundStatus("") == Some(RefundPending)
    ensures StoredRefundStatus("succeeded") == Some(Succeeded)
    ensures StoredRefundStatus("failed") == Some(RefundFailed)
    ensures StoredRefundStatus("canceled") == Some(Canceled)
    ensures StoredRefundStatus("requires_action") == None
  {
    assert UpperCase("pending") == "PENDING";
    assert UpperCase("succeeded") == "SUCCEEDED";
    assert UpperCase("failed") == "FAILED";
    assert UpperCase("canceled") == "CANCELED";
    assert |UpperCase("requires_action")| == 15;
  }

  /** The reasons Stripe sends for a refund, and what is stored for them. */
  lemma RefundReasons()
    ensures StoredReason("fraudulent") == Some(Fraud)
    ensures StoredReason("requested_by_customer") == Some(CustomerCancelled)
    ensures StoredReason("") == None
    ensures forall r :: r !in {"", "fraudulent", "requested_by_customer"} ==> StoredReason(r) == Some(Other)
  {
  }

  /** Exactly the strings that spell one of four names, in any mixture of cases, or nothing, can be stored. */
  lemma {:induction false} StorableStatuses(status: string)
    ensures StoredRefundStatus(status).None? <==>
            UpperCase(status) !in {"", "PENDING", "SUCCEEDED", "FAILED", "CANCELED"}
    ensures |UpperCase(status)| == |status|
    ensures forall i :: 0 <= i < |status| ==>
              UpperCase(status)[i] == if 'a' <= status[i] <= 'z' then status[i] - 'a' + 'A' else status[i]
  {
  }

  // ---------------------------------------------------------------------------
  // Payments
  // ---------------------------------------------------------------------------

  /** The call is not turned away and gets at least to its first write. */
  predicate Works(s: State, call: Call) {
    && !(call.e.id in s.events && s.events[call.e.id].status == Processed)
    && (call.Died? ==> call.k >= 1)
  }

  /** A payment row can be created from these metadata. */
  predicate MayCreate(b: Billing, p: Payload)
    requires p.IntentSucceeded?
  {
    && p.sessionUid in b.sessions && p.userUid in b.users && p.partnerUid in b.partners
    && var rate := if p.commissionRate.Some? then p.commissionRate.value else 0.15; -9.99995 < rate < 9.99995
  }

  /** The status the call gives to the payment `k`, if it gives it one. */
  function PaymentStatusGiven(s: State, call: Call, k: string): Option<PaymentStatus> {
    if !Works(s, call) then None
    else match call.e.payload
      case IntentSucceeded(intent, _, _, session, user, partner, _) =>
        if intent == k && session != "" && user != "" && partner != ""
           && (k in s.billing.payments || MayCreate(s.billing, call.e.payload)) then Some(Success) else None
      case IntentFailed(intent) => if intent == k && k in s.billing.payments then Some(PaymentFailed) else None
      case ChargeRefunded(intent, _) =>
        if intent == k && k != "" && k in s.billing.payments then Some(Refunded) else None
      case DisputeCreated(intent) => if intent == k && k != "" && k in s.billing.payments then Some(Disputed) else None
      case _ => None
  }

  function PaymentStatusOf(s: State, k: string): Option<PaymentStatus> {
    if k in s.billing.payments then Some(s.billing.payments[k].status) else None
  }

  /** The writes the call gets to. */
  function WritesOf(s: State, call: Call): seq<BillingWrite> {
    var ws := PlanOf(s.billing, call.e.payload).writes;
    if AlreadyProcessed(s, call.e) then []
    else if call.Died? && call.k <= |ws| then ws[..call.k]
    else ws
  }

  lemma OneApplies(s: State, call: Call)
    ensures One(s, call).billing == ApplyWrites(s.billing, WritesOf(s, call))
  {
  }

  lemma {:induction false} NoWriteNoChange(b: Billing, ws: seq<BillingWrite>, k: string)
    requires forall i :: 0 <= i < |ws| ==> !(ws[i].PaymentWrite? && ws[i].payment.key == k)
    ensures k in ApplyWrites(b, ws).payments <==> k in b.payments
    ensures k in b.payments ==> ApplyWrites(b, ws).payments[k] == b.payments[k]
    decreases |ws|
  {
    if ws != [] {
      NoWriteNoChange(b, ws[..|ws| - 1], k);
    }
  }

  /** The first of the writes goes to the payment, and no other one does. */
  lemma {:induction false} FirstWriteDecides(b: Billing, ws: seq<BillingWrite>, k: string)
    requires ws != [] && ws[0].PaymentWrite? && ws[0].payment.key == k
    requires k in b.payments || ws[0].payment.create.Some?
    requires forall i :: 1 <= i < |ws| ==> !ws[i].PaymentWrite?
    ensures k in ApplyWrites(b, ws).payments
    ensures ApplyWrites(b, ws).payments[k].status == ws[0].payment.status
    decreases |ws|
  {
    if |ws| == 1 {
      OneWrite(b, ws[0]);
      assert ws == [ws[0]];
    } else {
      FirstWriteDecides(b, ws[..|ws| - 1], k);
    }
  }

  lemma PlanWritesPayment(b: Billing, p: Payload)
    ensures var ws := PlanOf(b, p).writes;
            forall i :: 1 <= i < |ws| ==> !ws[i].PaymentWrite?
  {
    if p.ChargeRefunded? {
      RefundPlanWritesRefunds(p.charged, p.list);
    }
  }

  /** Whether the first write goes to the payment, and with what status. */
  lemma FirstWriteIs(s: State, call: Call, k: string)
    ensures var ws := WritesOf(s, call);
            if PaymentStatusGiven(s, call, k).Some? then
              && ws != [] && ws[0].PaymentWrite? && ws[0].payment.key == k
              && Some(ws[0].payment.status) == PaymentStatusGiven(s, call, k)
              && (k in s.billing.payments || ws[0].payment.create.Some?)
            else ws == [] || !ws[0].PaymentWrite? || ws[0].payment.key != k
  {
    var p := call.e.payload;
    if p.IntentSucceeded? {
      StoredRateExactly(RateOf(p));
    }
  }

  lemma CallMovesPayment(s: State, call: Call, k: string)
    ensures PaymentStatusOf(One(s, call), k) ==
            if PaymentStatusGiven(s, call, k).Some? then PaymentStatusGiven(s, call, k) else PaymentStatusOf(s, k)
  {
    var ws := WritesOf(s, call);
    OneApplies(s, call);
    FirstWriteIs(s, call, k);
    PlanWritesPayment(s.billing, call.e.payload);
    if PaymentStatusGiven(s, call, k).Some? {
      FirstWriteDecides(s.billing, ws, k);
    } else {
      NoWriteNoChange(s.billing, ws, k);
    }
  }

  function PaymentStatusAt(s: State, calls: seq<Call>, k: string): nat -> Option<PaymentStatus> {
    (i: nat) => if i <= |calls| then PaymentStatusOf(At(s, calls, i), k) else None
  }

  function PaymentStatusWrites(s: State, calls: seq<Call>, k: string): nat -> Option<Option<PaymentStatus>> {
    (i: nat) =>
      if i < |calls| && PaymentStatusGiven(At(s, calls, i), calls[i], k).Some?
      then Some(PaymentStatusGiven(At(s, calls, i), calls[i], k)) else None
  }

  lemma PaymentNext(s: State, calls: seq<Call>, i: nat, k: string)
    requires i < |calls|
    ensures FollowsAt(PaymentStatusAt(s, calls, k), PaymentStatusWrites(s, calls, k), i)
  {
    NextAt(s, calls, i);
    CallMovesPayment(At(s, calls, i), calls[i], k);
  }

  /**
   Over every run of deliveries and crashes, a payment is there once an intent has created it, and has
   the status of the last call that reached it: SUCCESS after an intent with its metadata, FAILED after
   a failed one, REFUNDED after a refunded charge, DISPUTED after a dispute.
   */
  lemma {:induction false} PaymentStatusExactly(s: State, calls: seq<Call>, n: nat, k: string)
    requires n <= |calls|
    ensures LastWriteStands(n, PaymentStatusAt(s, calls, k), PaymentStatusWrites(s, calls, k))
  {
    forall i: nat | i < n ensures FollowsAt(PaymentStatusAt(s, calls, k), PaymentStatusWrites(s, calls, k), i) {
      PaymentNext(s, calls, i, k);
    }
    LastWriter(n, PaymentStatusAt(s, calls, k), PaymentStatusWrites(s, calls, k));
  }

  // ---------------------------------------------------------------------------
  // Refunds
  // ---------------------------------------------------------------------------

  predicate CanStore(r: StripeRefund) {
    StoredRefundStatus(r.status).Some?
  }

  /** How many entries at the head of the list have a status that can be stored. */
  function LeadingStorable(list: seq<StripeRefund>): (n: nat)
    ensures n <= |list|
    decreases |list|
  {
    if list == [] then 0
    else
      var n := |list| - 1;
      var k := LeadingStorable(list[..n]);
      if k == n && CanStore(list[n]) then n + 1 else k
  }

  /** They end where the first one stands that cannot be stored. */
  lemma {:induction false} LeadingStorableMeans(list: seq<StripeRefund>)
    ensures forall m :: 0 <= m < LeadingStorable(list) ==> CanStore(list[m])
    ensures LeadingStorable(list) < |list| ==> !CanStore(list[LeadingStorable(list)])
    decreases |list|
  {
    if list != [] {
      var n := |list| - 1;
      LeadingStorableMeans(list[..n]);
      assert forall m :: 0 <= m < n ==> list[..n][m] == list[m];
    }
  }

  /** How many refunds the call stores: those before the first that it cannot, or before it dies. */
  function RefundsStored(s: State, call: Call): nat {
    if !Works(s, call) || !call.e.payload.ChargeRefunded? then 0
    else
      var (intent, list) := (call.e.payload.charged, call.e.payload.list);
      if intent == "" || intent !in s.billing.payments then 0
      else if call.Died? && call.k - 1 < LeadingStorable(list) then call.k - 1
      else LeadingStorable(list)
  }

  /** Among the first `n` entries, the last one and the first one with this id. */
  function LastEntry(list: seq<StripeRefund>, n: nat, id: string): (r: Option<StripeRefund>)
    requires n <= |list|
    ensures r.Some? ==> exists m :: 0 <= m < n && list[m] == r.value && list[m].id == id
  {
    if n == 0 then None
    else if list[n - 1].id == id then Some(list[n - 1])
    else LastEntry(list, n - 1, id)
  }

  function FirstEntry(list: seq<StripeRefund>, n: nat, id: string): (r: Option<StripeRefund>)
    requires n <= |list|
    ensures r.Some? <==> LastEntry(list, n, id).Some?
  {
    if n == 0 then None
    else
      var before := FirstEntry(list, n - 1, id);
      if before.Some? then before else if list[n - 1].id == id then Some(list[n - 1]) else None
  }

  /** The status stored for an entry that can be stored. */
  function StatusOfEntry(r: StripeRefund): RefundStatus {
    if CanStore(r) then StoredRefundStatus(r.status).value else RefundPending
  }

  /** The row the call leaves for the refund `id`, if it stores it. */
  function RefundGiven(s: State, call: Call, id: string): Option<Row<RefundData, RefundStatus>> {
    var n := RefundsStored(s, call);
    if n == 0 then None
    else
      var (intent, list) := (call.e.payload.charged, call.e.payload.list);
      var last := LastEntry(list, n, id);
      if last.None? then None
      else
        var first := FirstEntry(list, n, id).value;
        Some(Row(if id in s.billing.refunds then s.billing.refunds[id].data
                 else RefundData(first.amount, StoredReason(first.reason), intent),
                 StatusOfEntry(last.value)))
  }

  function RefundRowOf(b: Billing, id: string): Option<Row<RefundData, RefundStatus>> {
    if id in b.refunds then Some(b.refunds[id]) else None
  }

  /** The loop writes one upsert for each of these entries, in order. */
  ghost predicate WritesUpserts(ws: seq<BillingWrite>, intent: string, list: seq<StripeRefund>, n: nat) {
    && |ws| == n <= |list|
    && forall m :: 0 <= m < n ==> CanStore(list[m]) && ws[m] == UpsertOf(intent, list[m])
  }

  function UpsertOf(intent: string, r: StripeRefund): BillingWrite
    requires CanStore(r)
  {
    UpsertRefund(intent, r, StoredRefundStatus(r.status).value)
  }

  lemma UpsertsOfPrefix(ws: seq<BillingWrite>, intent: string, list: seq<StripeRefund>, n: nat, k: nat)
    requires n <= |list| && WritesUpserts(ws, intent, list[..n], k)
    ensures WritesUpserts(ws, intent, list, k)
  {
    assert forall m :: 0 <= m < n ==> list[..n][m] == list[m];
  }

  lemma UpsertsOneMore(ws: seq<BillingWrite>, intent: string, list: seq<StripeRefund>, k: nat)
    requires WritesUpserts(ws, intent, list, k) && k < |list| && CanStore(list[k])
    ensures WritesUpserts(ws + [UpsertOf(intent, list[k])], intent, list, k + 1)
  {
  }

  lemma {:induction false} RefundWritesExactly(intent: string, list: seq<StripeRefund>)
    ensures WritesUpserts(RefundPlan(intent, list).writes, intent, list, LeadingStorable(list))
    ensures RefundPlan(intent, list).throws <==> LeadingStorable(list) < |list|
    decreases |list|
  {
    if list != [] {
      var n := |list| - 1;
      RefundWritesExactly(intent, list[..n]);
      var k, ws := LeadingStorable(list[..n]), RefundPlan(intent, list[..n]).writes;
      UpsertsOfPrefix(ws, intent, list, n, k);
      if k == n && CanStore(list[n]) {
        UpsertsOneMore(ws, intent, list, n);
      }
    }
  }

  lemma UpsertLeaves(b: Billing, intent: string, r: StripeRefund, id: string)
    requires StoredRefundStatus(r.status).Some?
    ensures var st := StoredRefundStatus(r.status).value;
            RefundRowOf(ApplyWrite(b, UpsertRefund(intent, r, st)), id) ==
            if r.id != id then RefundRowOf(b, id)
            else Some(Row(if id in b.refunds then b.refunds[id].data
                          else RefundData(r.amount, StoredReason(r.reason), intent), st))
  {
  }

  /** The first `n` of these upserts, on top of writes that go to other tables. */
  lemma {:induction false} UpsertsLeave(b: Billing, intent: string, list: seq<StripeRefund>, ws: seq<BillingWrite>,
                                        n: nat, id: string)
    requires n <= LeadingStorable(list) && |ws| == n + 1 && !ws[0].RefundWrite?
    requires forall m :: 0 <= m < n ==> CanStore(list[m]) && ws[m + 1] == UpsertOf(intent, list[m])
    ensures RefundRowOf(ApplyWrites(b, ws), id) ==
            if LastEntry(list, n, id).None? then RefundRowOf(b, id)
            else Some(Row(if id in b.refunds then b.refunds[id].data
                          else var first := FirstEntry(list, n, id).value;
                               RefundData(first.amount, StoredReason(first.reason), intent),
                          StatusOfEntry(LastEntry(list, n, id).value)))
  {
    if n == 0 {
      assert ws == [ws[0]];
      OneWrite(b, ws[0]);
    } else {
      UpsertsLeave(b, intent, list, ws[..n], n - 1, id);
      UpsertLeaves(ApplyWrites(b, ws[..n]), intent, list[n - 1], id);
    }
  }

  lemma {:induction false} NoRefundWrite(b: Billing, ws: seq<BillingWrite>)
    requires forall i :: 0 <= i < |ws| ==> !ws[i].RefundWrite?
    ensures ApplyWrites(b, ws).refunds == b.refunds
    decreases |ws|
  {
    if ws != [] {
      NoRefundWrite(b, ws[..|ws| - 1]);
    }
  }

  lemma RefundCallWrites(s: State, call: Call)
    requires call.e.payload.ChargeRefunded? && WritesOf(s, call) != []
    ensures var (ws, n) := (WritesOf(s, call), RefundsStored(s, call));
            |ws| == n + 1 && !ws[0].RefundWrite?
            && WritesUpserts(ws[1..], call.e.payload.charged, call.e.payload.list, n)
  {
    RefundWritesExactly(call.e.payload.charged, call.e.payload.list);
  }

  lemma RefundCallMoves(s: State, call: Call, id: string)
    requires call.e.payload.ChargeRefunded? && WritesOf(s, call) != []
    ensures RefundRowOf(ApplyWrites(s.billing, WritesOf(s, call)), id) ==
            if RefundGiven(s, call, id).Some? then RefundGiven(s, call, id) else RefundRowOf(s.billing, id)
  {
    var p, ws, n := call.e.payload, WritesOf(s, call), RefundsStored(s, call);
    RefundCallWrites(s, call);
    assert forall m :: 0 <= m < n ==> ws[m + 1] == ws[1..][m];
    UpsertsLeave(s.billing, p.charged, p.list, ws, n, id);
  }

  lemma CallMovesRefund(s: State, call: Call, id: string)
    ensures RefundRowOf(One(s, call).billing, id) ==
            if RefundGiven(s, call, id).Some? then RefundGiven(s, call, id) else RefundRowOf(s.billing, id)
  {
    OneApplies(s, call);
    if call.e.payload.ChargeRefunded? && WritesOf(s, call) != [] {
      RefundCallMoves(s, call, id);
    } else {
      assert RefundsStored(s, call) == 0;
      NoRefundWrite(s.billing, WritesOf(s, call));
    }
  }

  function RefundAt(s: State, calls: seq<Call>, id: string): nat -> Option<Row<RefundData, RefundStatus>> {
    (i: nat) => if i <= |calls| then RefundRowOf(At(s, calls, i).billing, id) else None
  }

  function RefundWrites(s: State, calls: seq<Call>, id: string): nat -> Option<Option<Row<RefundData, RefundStatus>>> {
    (i: nat) =>
      if i < |calls| && RefundGiven(At(s, calls, i), calls[i], id).Some?
      then Some(RefundGiven(At(s, calls, i), calls[i], id)) else None
  }

  lemma RefundNext(s: State, calls: seq<Call>, i: nat, id: string)
    requires i < |calls|
    ensures FollowsAt(RefundAt(s, calls, id), RefundWrites(s, calls, id), i)
  {
    NextAt(s, calls, i);
    CallMovesRefund(At(s, calls, i), calls[i], id);
  }

  /**
   Over every run a refund row is what the last call that stored this refund left: the status of the
   last entry with its id, and the amount, reason and payment of the first entry that ever named it.
   */
  lemma {:induction false} RefundRowExactly(s: State, calls: seq<Call>, n: nat, id: string)
    requires n <= |calls|
    ensures LastWriteStands(n, RefundAt(s, calls, id), RefundWrites(s, calls, id))
  {
    forall i: nat | i < n ensures FollowsAt(RefundAt(s, calls, id), RefundWrites(s, calls, id), i) {
      RefundNext(s, calls, i, id);
    }
    LastWriter(n, RefundAt(s, calls, id), RefundWrites(s, calls, id));
  }

  // ---------------------------------------------------------------------------
  // Accounts
  // ---------------------------------------------------------------------------

  /** The status the call gives to an account: PENDING is called Onboarding here. */
  function AccountStatusGiven(s: State, call: Call, account: string): Option<AccountStatus> {
    if !Works(s, call) || !call.e.payload.AccountUpdated? || call.e.payload.account != account then None
    else if account !in s.billing.accounts then None
    else
      var (charges, payouts, reason) :=
        (call.e.payload.chargesEnabled, call.e.payload.payoutsEnabled, call.e.payload.disabledReason);
      if charges && payouts then Some(Active)
      else if reason == "" then Some(Onboarding)
      else if |reason| >= 9 && reason[..9] == "rejected." then None
      else Some(Restricted)
  }

  function AccountStatusOf(b: Billing, account: string): Option<AccountStatus> {
    if account in b.accounts then Some(b.accounts[account].status) else None
  }

  lemma {:induction false} NoAccountWrite(b: Billing, ws: seq<BillingWrite>)
    requires forall i :: 0 <= i < |ws| ==> !ws[i].AccountWrite?
    ensures ApplyWrites(b, ws).accounts == b.accounts
    decreases |ws|
  {
    if ws != [] {
      NoAccountWrite(b, ws[..|ws| - 1]);
    }
  }

  lemma CallMovesAccount(s: State, call: Call, account: string)
    ensures AccountStatusOf(One(s, call).billing, account) ==
            if AccountStatusGiven(s, call, account).Some? then AccountStatusGiven(s, call, account)
            else AccountStatusOf(s.billing, account)
  {
    var p, ws := call.e.payload, WritesOf(s, call);
    OneApplies(s, call);
    if p.AccountUpdated? {
      assert "rejected." <= p.disabledReason <==> |p.disabledReason| >= 9 && p.disabledReason[..9] == "rejected.";
      if ws != [] {
        assert ws == [ws[0]];
        OneWrite(s.billing, ws[0]);
      }
    } else {
      if p.ChargeRefunded? {
        RefundPlanWritesRefunds(p.charged, p.list);
      }
      NoAccountWrite(s.billing, ws);
    }
  }

  function AccountStatusAt(s: State, calls: seq<Call>, account: string): nat -> Option<AccountStatus> {
    (i: nat) => if i <= |calls| then AccountStatusOf(At(s, calls, i).billing, account) else None
  }

  function AccountStatusWrites(s: State, calls: seq<Call>, account: string): nat -> Option<Option<AccountStatus>> {
    (i: nat) =>
      if i < |calls| && AccountStatusGiven(At(s, calls, i), calls[i], account).Some?
      then Some(AccountStatusGiven(At(s, calls, i), calls[i], account)) else None
  }

  lemma AccountNext(s: State, calls: seq<Call>, i: nat, account: string)
    requires i < |calls|
    ensures FollowsAt(AccountStatusAt(s, calls, account), AccountStatusWrites(s, calls, account), i)
  {
    NextAt(s, calls, i);
    CallMovesAccount(At(s, calls, i), calls[i], account);
  }

  /** Over every run an account has the status of the last update that could be stored for it. */
  lemma {:induction false} AccountStatusExactly(s: State, calls: seq<Call>, n: nat, account: string)
    requires n <= |calls|
    ensures LastWriteStands(n, AccountStatusAt(s, calls, account), AccountStatusWrites(s, calls, account))
  {
    forall i: nat | i < n
      ensures FollowsAt(AccountStatusAt(s, calls, account), AccountStatusWrites(s, calls, account), i)
    {
      AccountNext(s, calls, i, account);
    }
    LastWriter(n, AccountStatusAt(s, calls, account), AccountStatusWrites(s, calls, account));
  }

  // ---------------------------------------------------------------------------
  // Events
  // ---------------------------------------------------------------------------

  /** The handler throws: a row it needs is missing or cannot be created, or a refund cannot be stored. */
  predicate Throws(b: Billing, p: Payload) {
    match p
    case IntentSucceeded(intent, _, _, session, user, partner, _) =>
      session != "" && user != "" && partner != "" && intent !in b.payments && !MayCreate(b, p)
    case IntentFailed(intent) => intent !in b.payments
    case ChargeRefunded(intent, list) =>
      intent != "" && intent in b.payments && exists r :: r in list && StoredRefundStatus(r.status).None?
    case DisputeCreated(intent) => intent != "" && intent !in b.payments
    case _ => false
  }

  /** The row the call leaves in the event table, unless it is turned away. */
  function EventGiven(s: State, call: Call, id: string): Option<EventRow> {
    if call.e.id != id || (id in s.events && s.events[id].status == Processed) then None
    else Some(EventRow(call.e.kind,
                       if call.Died? then Processing
                       else if Throws(s.billing, call.e.payload) then EventFailed else Processed))
  }

  function EventOf(s: State, id: string): Option<EventRow> {
    if id in s.events then Some(s.events[id]) else None
  }

  lemma ThrowsExactly(b: Billing, p: Payload)
    ensures PlanOf(b, p).throws <==> Throws(b, p)
  {
    match p
    case IntentSucceeded(_, _, _, _, _, _, _) => StoredRateExactly(RateOf(p));
    case ChargeRefunded(intent, list) => RefundPlanThrows(intent, list);
    case _ =>
  }

  lemma CallMovesEvent(s: State, call: Call, id: string)
    ensures EventOf(One(s, call), id) ==
            if EventGiven(s, call, id).Some? then EventGiven(s, call, id) else EventOf(s, id)
  {
    ThrowsExactly(s.billing, call.e.payload);
  }

  function EventAt(s: State, calls: seq<Call>, id: string): nat -> Option<EventRow> {
    (i: nat) => if i <= |calls| then EventOf(At(s, calls, i), id) else None
  }

  function EventWrites(s: State, calls: seq<Call>, id: string): nat -> Option<Option<EventRow>> {
    (i: nat) =>
      if i < |calls| && EventGiven(At(s, calls, i), calls[i], id).Some?
      then Some(EventGiven(At(s, calls, i), calls[i], id)) else None
  }

  lemma EventNext(s: State, calls: seq<Call>, i: nat, id: string)
    requires i < |calls|
    ensures FollowsAt(EventAt(s, calls, id), EventWrites(s, calls, id), i)
  {
    NextAt(s, calls, i);
    CallMovesEvent(At(s, calls, i), calls[i], id);
  }

  /**
   Over every run an event is as the last call about it left it that was not turned away: PROCESSED or
   FAILED as its handler ended, PROCESSING if the call died.
   */
  lemma {:induction false} EventExactly(s: State, calls: seq<Call>, n: nat, id: string)
    requires n <= |calls|
    ensures LastWriteStands(n, EventAt(s, calls, id), EventWrites(s, calls, id))
  {
    forall i: nat | i < n ensures FollowsAt(EventAt(s, calls, id), EventWrites(s, calls, id), i) {
      EventNext(s, calls, i, id);
    }
    LastWriter(n, EventAt(s, calls, id), EventWrites(s, calls, id));
  }

  /** A delivery is answered "received" exactly if it is turned away or its handler does not throw. */
  lemma {:induction false} ReceivedExactly(s: State, calls: seq<Call>, e: Event)
    ensures var t := After(s, calls);
            Process(t, e).1 <==>
            (e.id in t.events && t.events[e.id].status == Processed) || !Throws(t.billing, e.payload)
  {
    ThrowsExactly(After(s, calls).billing, e.payload);
  }
}
