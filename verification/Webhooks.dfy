/**
 Stripe webhook processing (src/webhooks/webhooks.service.ts): at-least-once deliveries, an event
 table that makes them idempotent, and handlers that can stop after any of their writes.

 A payment is identified by its payment intent id, a refund and an account by their Stripe ids;
 the enums are those of prisma/schema/billing.prisma.
 */
module Webhooks {
  import opened Common
  import opened Upserts

  // ---------------------------------------------------------------------------
  // Tables and events
  // ---------------------------------------------------------------------------

  datatype EventStatus = Processing | Processed | EventFailed

  datatype PaymentStatus = Pending | Success | PaymentFailed | PartiallyRefunded | Refunded | Disputed

  datatype RefundStatus = RefundPending | Succeeded | RefundFailed | Canceled

  datatype RefundReason = CustomerCancelled | PartnerCancelled | TechnicalError | Fraud | Other

  datatype AccountStatus = Onboarding | Active | Restricted | Disabled

  datatype PaymentData = PaymentData(amount: int, currency: string, sessionUid: Uid, userUid: Uid, partnerUid: Uid,
                                     commissionRate: real, idempotencyKey: string, amountPlatform: int)

  datatype RefundData = RefundData(amount: int, reason: Option<RefundReason>, payment: string)

  /** `sessions`, `users` and `partners` are the rows a payment's foreign keys may point to. */
  datatype Billing = Billing(
    payments: Table<PaymentData, PaymentStatus>,
    refunds: Table<RefundData, RefundStatus>,
    accounts: Table<(), AccountStatus>,
    sessions: set<Uid>, users: set<Uid>, partners: set<Uid>)

  datatype EventRow = EventRow(kind: string, status: EventStatus)

  datatype State = State(events: map<string, EventRow>, billing: Billing)

  datatype StripeRefund = StripeRefund(id: string, amount: int, status: string, reason: string)

  /** Absent strings are empty: the code only tests them for truthiness. */
  datatype Payload =
    | IntentSucceeded(intent: string, amount: int, currency: string, sessionUid: Uid, userUid: Uid, partnerUid: Uid,
                      commissionRate: Option<real>)
    | IntentFailed(intent: string)
    | ChargeRefunded(charged: string, list: seq<StripeRefund>)
    | DisputeCreated(disputed: string)
    | AccountUpdated(account: string, chargesEnabled: bool, payoutsEnabled: bool, disabledReason: string)
    | Unhandled

  datatype Event = Event(id: string, kind: string, payload: Payload)

  // ---------------------------------------------------------------------------
  // Small decisions of the handlers
  // ---------------------------------------------------------------------------

  function UpperCase(s: string): string {
    seq(|s|, i requires 0 <= i < |s| => if 'a' <= s[i] <= 'z' then (s[i] - 'a') + 'A' else s[i])
  }

  /** `status?.toUpperCase() || 'PENDING'`, if that is a member of the RefundStatus enum. */
  function StoredRefundStatus(status: string): Option<RefundStatus> {
    var s := UpperCase(status);
    if s == "" || s == "PENDING" then Some(RefundPending)
    else if s == "SUCCEEDED" then Some(Succeeded)
    else if s == "FAILED" then Some(RefundFailed)
    else if s == "CANCELED" then Some(Canceled)
    else None
  }

  function StoredReason(reason: string): Option<RefundReason> {
    if reason == "fraudulent" then Some(Fraud)
    else if reason == "requested_by_customer" then Some(CustomerCancelled)
    else if reason == "" then None
    else Some(Other)
  }

  /** The status an account gets; REJECTED is computed but is no member of the enum, so None. */
  function StoredAccountStatus(charges: bool, payouts: bool, reason: string): Option<AccountStatus> {
    if charges && payouts then Some(Active)
    else if reason != "" then if "rejected." <= reason then None else Some(Restricted)
    else Some(Onboarding)
  }

  predicate HasMetadata(p: Payload)
    requires p.IntentSucceeded?
  {
    p.sessionUid != "" && p.userUid != "" && p.partnerUid != ""
  }

  /** The commission rate of the metadata, or the default. */
  function RateOf(p: Payload): real
    requires p.IntentSucceeded?
  {
    if p.commissionRate.Some? then p.commissionRate.value else 0.15
  }

  /** The rate in ten-thousandths, rounded half away from zero. */
  function TenThousandths(rate: real): int {
    if rate >= 0.0 then (rate * 10000.0 + 0.5).Floor else -(0.5 - rate * 10000.0).Floor
  }

  /** The column is Decimal(5, 4): four decimals, and no rate of ten or more after rounding. */
  function StoredRate(rate: real): Option<real> {
    var n := TenThousandths(rate);
    if -100000 < n < 100000 then Some(n as real / 10000.0) else None
  }

  /** A rate can be stored exactly if it is below 9.99995 either way, and then it is kept to half a ten-thousandth. */
  lemma {:induction false} StoredRateExactly(rate: real)
    ensures StoredRate(rate).Some? <==> -9.99995 < rate < 9.99995
    ensures StoredRate(rate).Some? ==> -0.00005 <= StoredRate(rate).value - rate <= 0.00005
  {
    var n := TenThousandths(rate) as real;
    assert -0.5 <= n - rate * 10000.0 <= 0.5;
  }

  /** The row created for an intent, unless its commission rate cannot be stored. */
  function PaymentOf(p: Payload): Option<PaymentData>
    requires p.IntentSucceeded?
  {
    var rate := StoredRate(RateOf(p));
    if rate.None? then None
    else Some(PaymentData(p.amount, p.currency, p.sessionUid, p.userUid, p.partnerUid, rate.value, p.intent, 0))
  }

  /** The row can be created: the rate fits and the foreign keys are there. */
  predicate CanCreate(b: Billing, p: Payload)
    requires p.IntentSucceeded?
  {
    PaymentOf(p).Some? && p.sessionUid in b.sessions && p.userUid in b.users && p.partnerUid in b.partners
  }

  // ---------------------------------------------------------------------------
  // What a handler writes
  // ---------------------------------------------------------------------------

  datatype BillingWrite =
    | PaymentWrite(payment: Write<PaymentData, PaymentStatus>)
    | RefundWrite(refund: Write<RefundData, RefundStatus>)
    | AccountWrite(update: Write<(), AccountStatus>)

  function ApplyWrite(b: Billing, w: BillingWrite): Billing {
    match w
    case PaymentWrite(p) => b.(payments := Apply(b.payments, p))
    case RefundWrite(r) => b.(refunds := Apply(b.refunds, r))
    case AccountWrite(a) => b.(accounts := Apply(b.accounts, a))
  }

  function ApplyWrites(b: Billing, ws: seq<BillingWrite>): Billing
    decreases |ws|
  {
    if ws == [] then b else ApplyWrite(ApplyWrites(b, ws[..|ws| - 1]), ws[|ws| - 1])
  }

  /** The writes a handler completes, in order, and whether it then throws. */
  datatype Plan = Plan(writes: seq<BillingWrite>, throws: bool)

  function SetPayment(intent: string, status: PaymentStatus): BillingWrite {
    PaymentWrite(Write(intent, status, None))
  }

  function UpsertRefund(intent: string, r: StripeRefund, status: RefundStatus): BillingWrite {
    RefundWrite(Write(r.id, status, Some(RefundData(r.amount, StoredReason(r.reason), intent))))
  }

  /** One upsert per refund, up to the first whose status the enum does not have. */
  function RefundPlan(intent: string, refunds: seq<StripeRefund>): Plan
    decreases |refunds|
  {
    if refunds == [] then Plan([], false)
    else
      var n := |refunds| - 1;
      var before := RefundPlan(intent, refunds[..n]);
      var status := StoredRefundStatus(refunds[n].status);
      if before.throws then before
      else if status.None? then Plan(before.writes, true)
      else Plan(before.writes + [UpsertRefund(intent, refunds[n], status.value)], false)
  }

  function PlanOf(b: Billing, p: Payload): Plan {
    match p
    case IntentSucceeded(intent, _, _, _, _, _, _) =>
      if !HasMetadata(p) then Plan([], false)
      else if intent !in b.payments && !CanCreate(b, p) then Plan([], true)
      else Plan([PaymentWrite(Write(intent, Success, PaymentOf(p)))], false)
    case IntentFailed(intent) =>
      if intent !in b.payments then Plan([], true) else Plan([SetPayment(intent, PaymentFailed)], false)
    case ChargeRefunded(intent, refunds) =>
      if intent == "" || intent !in b.payments then Plan([], false)
      else
        var rest := RefundPlan(intent, refunds);
        Plan([SetPayment(intent, Refunded)] + rest.writes, rest.throws)
    case DisputeCreated(intent) =>
      if intent == "" then Plan([], false)
      else if intent !in b.payments then Plan([], true)
      else Plan([SetPayment(intent, Disputed)], false)
    case AccountUpdated(account, charges, payouts, reason) =>
      // a missing account and a status the enum lacks both throw, and both are caught
      var status := StoredAccountStatus(charges, payouts, reason);
      if account !in b.accounts || status.None? then Plan([], false)
      else Plan([AccountWrite(Write(account, status.value, None))], false)
    case Unhandled => Plan([], false)
  }

  // ---------------------------------------------------------------------------
  // Deliveries
  // ---------------------------------------------------------------------------

  predicate AlreadyProcessed(s: State, e: Event) {
    e.id in s.events && s.events[e.id].status == Processed
  }

  /** One completed call of `processStripeEvent`; the flag tells "received" from a thrown error. */
  function Process(s: State, e: Event): (State, bool) {
    if AlreadyProcessed(s, e) then (s, true)
    else
      var plan := PlanOf(s.billing, e.payload);
      (State(s.events[e.id := EventRow(e.kind, if plan.throws then EventFailed else Processed)],
             ApplyWrites(s.billing, plan.writes)), !plan.throws)
  }

  /** A call that dies after recording the event and making the first `k` writes of its handler. */
  function Crash(s: State, e: Event, k: nat): State {
    if AlreadyProcessed(s, e) then s
    else
      var ws := PlanOf(s.billing, e.payload).writes;
      State(s.events[e.id := EventRow(e.kind, Processing)], ApplyWrites(s.billing, if k <= |ws| then ws[..k] else ws))
  }

  /** Calls that run to their end, and calls that die after `k` writes. */
  datatype Call = Completed(e: Event) | Died(e: Event, k: nat)

  function After(s: State, calls: seq<Call>): State
    decreases |calls|
  {
    if calls == [] then s
    else
      var before := After(s, calls[..|calls| - 1]);
      match calls[|calls| - 1]
      case Completed(e) => Process(before, e).0
      case Died(e, k) => Crash(before, e, k)
  }

  /** Tables before anything was delivered. */
  ghost predicate Fresh(s: State) {
    s.events == map[] && s.billing.payments == map[] && s.billing.refunds == map[]
  }

  // ---------------------------------------------------------------------------
  // The service, write by write
  // ---------------------------------------------------------------------------

  class WebhookStore {
    var events: map<string, EventRow>
    var payments: Table<PaymentData, PaymentStatus>
    var refunds: Table<RefundData, RefundStatus>
    var accounts: Table<(), AccountStatus>
    const sessions: set<Uid>
    const users: set<Uid>
    const partners: set<Uid>

    constructor (sessions: set<Uid>, users: set<Uid>, partners: set<Uid>)
      ensures Contents() == State(map[], Billing(map[], map[], map[], sessions, users, partners))
    {
      this.sessions, this.users, this.partners := sessions, users, partners;
      events, payments, refunds, accounts := map[], map[], map[], map[];
    }

    function BillingTables(): Billing
      reads this
    {
      Billing(payments, refunds, accounts, sessions, users, partners)
    }

    function Contents(): State
      reads this
    {
      State(events, BillingTables())
    }

    method ProcessStripeEvent(e: Event) returns (received: bool)
      modifies this
      ensures (Contents(), received) == Process(old(Contents()), e)
    {
      if e.id in events && events[e.id].status == Processed {
        return true;
      }
      events := events[e.id := EventRow(e.kind, Processing)];
      ghost var plan := PlanOf(BillingTables(), e.payload);
      match e.payload {
        case IntentSucceeded(_, _, _, _, _, _, _) => received := HandlePaymentIntentSucceeded(e.payload);
        case IntentFailed(intent) => received := SetPaymentStatus(intent, PaymentFailed);
        case ChargeRefunded(intent, list) => received := HandleChargeRefunded(intent, list);
        case DisputeCreated(intent) =>
          received := true;
          if intent != "" {
            received := SetPaymentStatus(intent, Disputed);
          }
        case AccountUpdated(account, charges, payouts, reason) =>
          HandleAccountUpdated(account, charges, payouts, reason);
          received := true;
        case Unhandled => received := true;
      }
      assert received == !plan.throws;
      assert BillingTables() == ApplyWrites(old(BillingTables()), plan.writes);
      events := events[e.id := EventRow(e.kind, if received then Processed else EventFailed)];
      assert events == old(events)[e.id := EventRow(e.kind, if received then Processed else EventFailed)];
    }

    method HandlePaymentIntentSucceeded(p: Payload) returns (ok: bool)
      requires p.IntentSucceeded?
      modifies this
      ensures events == old(events)
      ensures var plan := PlanOf(old(BillingTables()), p);
              ok == !plan.throws && BillingTables() == ApplyWrites(old(BillingTables()), plan.writes)
    {
      if p.sessionUid == "" || p.userUid == "" || p.partnerUid == "" {
        return true;
      }
      if p.intent in payments {
        payments := payments[p.intent := payments[p.intent].(status := Success)];
      } else if StoredRate(RateOf(p)).Some?
                && p.sessionUid in sessions && p.userUid in users && p.partnerUid in partners {
        payments := payments[p.intent := Row(PaymentOf(p).value, Success)];
      } else {
        return false;
      }
      OneWrite(old(BillingTables()), PaymentWrite(Write(p.intent, Success, PaymentOf(p))));
      return true;
    }

    /** `payments.update` of the status: throws when there is no such payment. */
    method SetPaymentStatus(intent: string, status: PaymentStatus) returns (ok: bool)
      modifies this
      ensures events == old(events)
      ensures ok == (intent in old(payments))
      ensures BillingTables() == if ok then ApplyWrites(old(BillingTables()), [SetPayment(intent, status)])
                                 else old(BillingTables())
    {
      if intent !in payments {
        return false;
      }
      payments := payments[intent := payments[intent].(status := status)];
      OneWrite(old(BillingTables()), SetPayment(intent, status));
      return true;
    }

    method HandleChargeRefunded(intent: string, list: seq<StripeRefund>) returns (ok: bool)
      modifies this
      ensures events == old(events)
      ensures var plan := PlanOf(old(BillingTables()), ChargeRefunded(intent, list));
              ok == !plan.throws && BillingTables() == ApplyWrites(old(BillingTables()), plan.writes)
    {
      if intent == "" || intent !in payments {
        return true;
      }
      ok := SetPaymentStatus(intent, Refunded);
      ghost var ws := [SetPayment(intent, Refunded)];
      for i := 0 to |list|
        invariant events == old(events)
        invariant !RefundPlan(intent, list[..i]).throws
        invariant ws == [SetPayment(intent, Refunded)] + RefundPlan(intent, list[..i]).writes
        invariant BillingTables() == ApplyWrites(old(BillingTables()), ws)
      {
        RefundPlanStep(intent, list, i);
        var status := StoredRefundStatus(list[i].status);
        if status.None? {
          return false;
        }
        var w := UpsertRefund(intent, list[i], status.value).refund;
        refunds := Apply(refunds, w);
        AppendWrite(old(BillingTables()), ws, RefundWrite(w));
        ws := ws + [RefundWrite(w)];
      }
      assert list[..|list|] == list;
      return true;
    }

    method HandleAccountUpdated(account: string, charges: bool, payouts: bool, reason: string)
      modifies this
      ensures events == old(events)
      ensures BillingTables() == ApplyWrites(old(BillingTables()),
                PlanOf(old(BillingTables()), AccountUpdated(account, charges, payouts, reason)).writes)
    {
      var status := Some(Onboarding);
      if charges && payouts {
        status := Some(Active);
      } else if reason != "" {
        if "rejected." <= reason {
          status := None;
        } else {
          status := Some(Restricted);
        }
      }
      if status.None? || account !in accounts {
        return;
      }
      accounts := accounts[account := accounts[account].(status := status.value)];
      OneWrite(old(BillingTables()), AccountWrite(Write(account, status.value, None)));
    }
  }

  lemma OneWrite(b: Billing, w: BillingWrite)
    ensures ApplyWrites(b, [w]) == ApplyWrite(b, w)
  {
    assert [w][..0] == [];
  }

  lemma AppendWrite(b: Billing, ws: seq<BillingWrite>, w: BillingWrite)
    ensures ApplyWrites(b, ws + [w]) == ApplyWrite(ApplyWrites(b, ws), w)
  {
    assert (ws + [w])[..|ws|] == ws;
  }

  /** One turn of the refund loop: a status that cannot be stored ends it, any other adds one upsert. */
  lemma RefundPlanStep(intent: string, list: seq<StripeRefund>, i: nat)
    requires i < |list| && !RefundPlan(intent, list[..i]).throws
    ensures var status := StoredRefundStatus(list[i].status);
            if status.None? then RefundPlan(intent, list) == Plan(RefundPlan(intent, list[..i]).writes, true)
            else RefundPlan(intent, list[..i + 1])
                 == Plan(RefundPlan(intent, list[..i]).writes + [UpsertRefund(intent, list[i], status.value)], false)
  {
    assert list[..i + 1][..i] == list[..i];
    if StoredRefundStatus(list[i].status).None? {
      ThrownPlanStays(intent, list, i + 1);
    }
  }

  /** Once a refund made the loop throw, the later ones add nothing. */
  lemma {:induction false} ThrownPlanStays(intent: string, list: seq<StripeRefund>, i: nat)
    requires i <= |list| && RefundPlan(intent, list[..i]).throws
    ensures RefundPlan(intent, list) == RefundPlan(intent, list[..i])
    decreases |list|
  {
    if i < |list| {
      assert list[..|list| - 1][..i] == list[..i];
      ThrownPlanStays(intent, list[..|list| - 1], i);
    } else {
      assert list[..i] == list;
    }
  }

  // ---------------------------------------------------------------------------
  // Crash convergence
  // ---------------------------------------------------------------------------

  function Collect<T>(ws: seq<BillingWrite>, f: BillingWrite -> seq<T>): seq<T> {
    if ws == [] then [] else f(ws[0]) + Collect(ws[1..], f)
  }

  lemma {:induction false} CollectAppend<T>(a: seq<BillingWrite>, b: seq<BillingWrite>, f: BillingWrite -> seq<T>)
    ensures Collect(a + b, f) == Collect(a, f) + Collect(b, f)
  {
    if a == [] {
      assert a + b == b;
    } else {
      assert (a + b)[1..] == a[1..] + b;
      CollectAppend(a[1..], b, f);
      assert f(a[0]) + (Collect(a[1..], f) + Collect(b, f)) == (f(a[0]) + Collect(a[1..], f)) + Collect(b, f);
    }
  }

  lemma CollectOne<T>(w: BillingWrite, f: BillingWrite -> seq<T>)
    ensures Collect([w], f) == f(w)
  {
    assert [w][1..] == [];
    assert f(w) + [] == f(w);
  }

  function PaymentIn(w: BillingWrite): seq<Write<PaymentData, PaymentStatus>> {
    if w.PaymentWrite? then [w.payment] else []
  }

  function PaymentsOf(ws: seq<BillingWrite>): seq<Write<PaymentData, PaymentStatus>> {
    Collect(ws, PaymentIn)
  }

  function RefundIn(w: BillingWrite): seq<Write<RefundData, RefundStatus>> {
    if w.RefundWrite? then [w.refund] else []
  }

  function RefundsOf(ws: seq<BillingWrite>): seq<Write<RefundData, RefundStatus>> {
    Collect(ws, RefundIn)
  }

  function AccountIn(w: BillingWrite): seq<Write<(), AccountStatus>> {
    if w.AccountWrite? then [w.update] else []
  }

  function AccountsOf(ws: seq<BillingWrite>): seq<Write<(), AccountStatus>> {
    Collect(ws, AccountIn)
  }

  lemma ProjectionsAppend(a: seq<BillingWrite>, b: seq<BillingWrite>)
    ensures PaymentsOf(a + b) == PaymentsOf(a) + PaymentsOf(b)
    ensures RefundsOf(a + b) == RefundsOf(a) + RefundsOf(b)
    ensures AccountsOf(a + b) == AccountsOf(a) + AccountsOf(b)
  {
    CollectAppend(a, b, PaymentIn);
    CollectAppend(a, b, RefundIn);
    CollectAppend(a, b, AccountIn);
  }

  /** A list of writes acts on each table through the writes to that table only. */
  lemma {:induction false} WritesProject(b: Billing, ws: seq<BillingWrite>)
    ensures ApplyWrites(b, ws) == b.(payments := ApplyAll(b.payments, PaymentsOf(ws)),
                                     refunds := ApplyAll(b.refunds, RefundsOf(ws)),
                                     accounts := ApplyAll(b.accounts, AccountsOf(ws)))
    decreases |ws|
  {
    if ws != [] {
      var n := |ws| - 1;
      WritesProject(b, ws[..n]);
      assert ws == ws[..n] + [ws[n]];
      ProjectionsAppend(ws[..n], [ws[n]]);
      ApplyAllAppend(b.payments, PaymentsOf(ws[..n]), PaymentsOf([ws[n]]));
      ApplyAllAppend(b.refunds, RefundsOf(ws[..n]), RefundsOf([ws[n]]));
      ApplyAllAppend(b.accounts, AccountsOf(ws[..n]), AccountsOf([ws[n]]));
      OneWriteProjects(ApplyWrites(b, ws[..n]), ws[n]);
    }
  }

  lemma OneWriteProjects(b: Billing, w: BillingWrite)
    ensures ApplyWrite(b, w) == b.(payments := ApplyAll(b.payments, PaymentsOf([w])),
                                   refunds := ApplyAll(b.refunds, RefundsOf([w])),
                                   accounts := ApplyAll(b.accounts, AccountsOf([w])))
  {
    CollectOne(w, PaymentIn);
    CollectOne(w, RefundIn);
    CollectOne(w, AccountIn);
    assert w.PaymentWrite? ==> [w.payment][..0] == [];
    assert w.RefundWrite? ==> [w.refund][..0] == [];
    assert w.AccountWrite? ==> [w.update][..0] == [];
  }

  /** Replaying a list of billing writes after any prefix of it gives what one clean pass gives. */
  lemma BillingReplay(b: Billing, ws: seq<BillingWrite>, k: nat)
    requires k <= |ws|
    ensures ApplyWrites(ApplyWrites(b, ws[..k]), ws) == ApplyWrites(b, ws)
  {
    assert ws == ws[..k] + ws[k..];
    ProjectionsAppend(ws[..k], ws[k..]);
    WritesProject(b, ws[..k]);
    WritesProject(b, ws);
    WritesProject(ApplyWrites(b, ws[..k]), ws);
    ReplayAfterPrefix(b.payments, PaymentsOf(ws[..k]), PaymentsOf(ws[k..]));
    ReplayAfterPrefix(b.refunds, RefundsOf(ws[..k]), RefundsOf(ws[k..]));
    ReplayAfterPrefix(b.accounts, AccountsOf(ws[..k]), AccountsOf(ws[k..]));
  }

  /** Writes add rows and never remove any. */
  lemma {:induction false} WritesKeepKeys(b: Billing, ws: seq<BillingWrite>)
    ensures b.payments.Keys <= ApplyWrites(b, ws).payments.Keys
    ensures b.accounts.Keys <= ApplyWrites(b, ws).accounts.Keys
    ensures ApplyWrites(b, ws).sessions == b.sessions
    ensures ApplyWrites(b, ws).users == b.users
    ensures ApplyWrites(b, ws).partners == b.partners
    ensures (forall i :: 0 <= i < |ws| && ws[i].PaymentWrite? ==> ws[i].payment.key in b.payments) ==>
              ApplyWrites(b, ws).payments.Keys == b.payments.Keys
    ensures (forall i :: 0 <= i < |ws| && ws[i].AccountWrite? ==> ws[i].update.key in b.accounts) ==>
              ApplyWrites(b, ws).accounts.Keys == b.accounts.Keys
    decreases |ws|
  {
    if ws != [] {
      WritesKeepKeys(b, ws[..|ws| - 1]);
    }
  }

  lemma {:induction false} RefundPlanWritesRefunds(intent: string, refunds: seq<StripeRefund>)
    ensures forall i :: 0 <= i < |RefundPlan(intent, refunds).writes| ==>
              RefundPlan(intent, refunds).writes[i].RefundWrite?
    decreases |refunds|
  {
    if refunds != [] {
      RefundPlanWritesRefunds(intent, refunds[..|refunds| - 1]);
    }
  }

  /** A handler plans the same writes after any prefix of them has already been made. */
  lemma PlanSurvivesCrash(b: Billing, p: Payload, k: nat)
    requires k <= |PlanOf(b, p).writes|
    ensures PlanOf(ApplyWrites(b, PlanOf(b, p).writes[..k]), p) == PlanOf(b, p)
  {
    var ws := PlanOf(b, p).writes;
    WritesKeepKeys(b, ws[..k]);
    if p.ChargeRefunded? {
      RefundPlanWritesRefunds(p.charged, p.list);
    }
  }

  /**
   Crash convergence.  If a call dies after any of its handler's writes and the same event is
   delivered next, events, payments, refunds and accounts end exactly as after one clean delivery,
   with the same answer; this covers refund lists of any length and repeated refund ids.
   */
  lemma {:induction false} CrashThenRedeliver(s: State, e: Event, k: nat)
    ensures Process(Crash(s, e, k), e) == Process(s, e)
  {
    if !AlreadyProcessed(s, e) {
      var ws := PlanOf(s.billing, e.payload).writes;
      var done := if k <= |ws| then k else |ws|;
      assert ws[..|ws|] == ws;
      PlanSurvivesCrash(s.billing, e.payload, done);
      BillingReplay(s.billing, ws, done);
      var row := Process(s, e).0.events[e.id];
      assert s.events[e.id := EventRow(e.kind, Processing)][e.id := row] == s.events[e.id := row];
    }
  }

  function Crashes(s: State, e: Event, ks: seq<nat>): State
    decreases |ks|
  {
    if ks == [] then s else Crashes(Crash(s, e, ks[0]), e, ks[1..])
  }

  /** The same after any number of crashed calls in a row, each dying at a point of its own. */
  lemma {:induction false} ManyCrashesThenRedeliver(s: State, e: Event, ks: seq<nat>)
    ensures Process(Crashes(s, e, ks), e) == Process(s, e)
    decreases |ks|
  {
    if ks != [] {
      ManyCrashesThenRedeliver(Crash(s, e, ks[0]), e, ks[1..]);
      CrashThenRedeliver(s, e, ks[0]);
    }
  }

  // ---------------------------------------------------------------------------
  // Duplicate insensitivity
  // ---------------------------------------------------------------------------

  function Deliver(s: State, es: seq<Event>): State
    decreases |es|
  {
    if es == [] then s else Deliver(Process(s, es[0]).0, es[1..])
  }

  /** The deliveries that succeed and are not answered from the event table: one per event id. */
  function FirstSuccesses(s: State, es: seq<Event>): seq<Event>
    decreases |es|
  {
    if es == [] then []
    else
      var (s', ok) := Process(s, es[0]);
      (if ok && !AlreadyProcessed(s, es[0]) then [es[0]] else []) + FirstSuccesses(s', es[1..])
  }

  /** A handler that throws leaves nothing behind unless it had refunds to write before a status it cannot store. */
  predicate FailsCleanly(p: Payload) {
    p.ChargeRefunded? && p.charged != "" ==> forall r :: r in p.list ==> StoredRefundStatus(r.status).Some?
  }

  lemma {:induction false} RefundPlanThrows(intent: string, refunds: seq<StripeRefund>)
    ensures RefundPlan(intent, refunds).throws <==> exists r :: r in refunds && StoredRefundStatus(r.status).None?
    decreases |refunds|
  {
    if refunds != [] {
      var n := |refunds| - 1;
      RefundPlanThrows(intent, refunds[..n]);
      assert refunds == refunds[..n] + [refunds[n]];
      assert refunds[n] in refunds;
    }
  }

  /** Exactly when a throwing handler has written nothing, on all tables that deliveries and crashes can lead to. */
  lemma {:induction false} FailsCleanlyExactly(p: Payload)
    ensures FailsCleanly(p) <==>
            forall s: State, calls: seq<Call> :: Fresh(s) ==>
              var b := After(s, calls).billing;
              PlanOf(b, p).throws ==> ApplyWrites(b, PlanOf(b, p).writes) == b
  {
    if FailsCleanly(p) {
      forall s: State, calls: seq<Call> | PlanOf(After(s, calls).billing, p).throws
        ensures PlanOf(After(s, calls).billing, p).writes == []
      {
        FailsWithoutWriting(After(s, calls).billing, p);
      }
    } else {
      var b := PaidBilling(p.charged);
      PaymentArrives(p.charged);
      RefundPlanThrows(p.charged, p.list);
      RefundedAfterPlan(p.charged, p.list);
      assert PlanOf(b, p).throws && ApplyWrites(b, PlanOf(b, p).writes) != b;
      assert b == After(NothingPaid(), [Completed(Paid(p.charged))]).billing;
    }
  }

  lemma FailsWithoutWriting(b: Billing, p: Payload)
    requires FailsCleanly(p) && PlanOf(b, p).throws
    ensures PlanOf(b, p).writes == []
  {
    if p.ChargeRefunded? {
      RefundPlanThrows(p.charged, p.list);
    }
  }

  /** One session, one user, one partner, and no payment yet. */
  function NothingPaid(): State {
    State(map[], Billing(map[], map[], map[], {"session"}, {"user"}, {"partner"}))
  }

  function Paid(intent: string): Event {
    Event("evt_paid", "payment_intent.succeeded",
          IntentSucceeded(intent, 2000, "eur", "session", "user", "partner", None))
  }

  /** The tables after that payment has arrived. */
  function PaidBilling(intent: string): Billing {
    NothingPaid().billing.(payments := map[intent := Row(PaymentData(2000, "eur", "session", "user", "partner", 0.15,
                                                                     intent, 0), Success)])
  }

  lemma PaymentArrives(intent: string)
    ensures Fresh(NothingPaid())
    ensures Process(NothingPaid(), Paid(intent))
            == (State(map["evt_paid" := EventRow("payment_intent.succeeded", Processed)], PaidBilling(intent)), true)
    ensures After(NothingPaid(), [Completed(Paid(intent))]) == Process(NothingPaid(), Paid(intent)).0
  {
    var s, e := NothingPaid(), Paid(intent);
    assert TenThousandths(0.15) == 1500;
    var w := PaymentWrite(Write(intent, Success, PaymentOf(e.payload)));
    assert PlanOf(s.billing, e.payload) == Plan([w], false);
    OneWrite(s.billing, w);
    assert [Completed(e)][..0] == [];
  }

  lemma RefundedAfterPlan(intent: string, list: seq<StripeRefund>)
    requires intent != ""
    ensures var b := PaidBilling(intent);
            var b' := ApplyWrites(b, PlanOf(b, ChargeRefunded(intent, list)).writes);
            intent in b'.payments && b'.payments[intent].status == Refunded
  {
    var b := PaidBilling(intent);
    var rest := RefundPlan(intent, list).writes;
    var ws := [SetPayment(intent, Refunded)] + rest;
    RefundPlanWritesRefunds(intent, list);
    NoPaymentWrites(rest);
    ProjectionsAppend([SetPayment(intent, Refunded)], rest);
    WritesProject(b, ws);
    assert PaymentsOf(ws) == [Write(intent, Refunded, None)];
    ApplyAllAt(b.payments, PaymentsOf(ws), intent);
  }

  lemma RequiresActionIsNotStored()
    ensures StoredRefundStatus("requires_action").None?
  {
    assert |UpperCase("requires_action")| == 15;
  }

  /**
   A payment arrives, and then a refund that still requires an action: its delivery fails, and yet
   the payment is REFUNDED with no refund row to show for it.
   */
  lemma {:induction false} RefundRequiringAction()
    ensures var s := Process(NothingPaid(), Paid("pi")).0;
            var refund := StripeRefund("re", 2000, "requires_action", "");
            var (t, received) := Process(s, Event("evt_refund", "charge.refunded", ChargeRefunded("pi", [refund])));
            && !received && t.billing.refunds == map[]
            && "pi" in t.billing.payments && t.billing.payments["pi"].status == Refunded
  {
    var refund := StripeRefund("re", 2000, "requires_action", "");
    PaymentArrives("pi");
    RequiresActionIsNotStored();
    RefundedAfterPlan("pi", [refund]);
    assert [refund][..0] == [];
    assert RefundPlan("pi", [refund]) == Plan([], true);
    var w := SetPayment("pi", Refunded);
    assert [w] + [] == [w];
    OneWrite(PaidBilling("pi"), w);
  }

  lemma {:induction false} NoPaymentWrites(ws: seq<BillingWrite>)
    requires forall i :: 0 <= i < |ws| ==> ws[i].RefundWrite?
    ensures PaymentsOf(ws) == []
  {
    if ws != [] {
      NoPaymentWrites(ws[1..]);
    }
  }

  /** Two states with the same billing tables and the same processed events. */
  ghost predicate SameEffects(s: State, t: State) {
    && s.billing == t.billing
    && forall id :: (id in s.events && s.events[id].status == Processed)
               <==> (id in t.events && t.events[id].status == Processed)
  }

  /** Deliveries from the `Processed` part of the event table only: duplicates and failures leave no trace. */
  lemma {:induction false} OnlyFirstSuccessesCountFrom(s: State, t: State, es: seq<Event>)
    requires SameEffects(s, t)
    requires forall e :: e in es ==> FailsCleanly(e.payload)
    ensures SameEffects(Deliver(s, es), Deliver(t, FirstSuccesses(s, es)))
    decreases |es|
  {
    if es != [] {
      var e := es[0];
      var (s', ok) := Process(s, e);
      var rest := FirstSuccesses(s', es[1..]);
      assert e in es;
      assert forall x :: x in es[1..] ==> x in es;
      if ok && !AlreadyProcessed(s, e) {
        assert ([e] + rest)[1..] == rest;
        OnlyFirstSuccessesCountFrom(s', Process(t, e).0, es[1..]);
      } else {
        assert [] + rest == rest;
        if PlanOf(s.billing, e.payload).throws {
          FailsWithoutWriting(s.billing, e.payload);
        }
        OnlyFirstSuccessesCountFrom(s', t, es[1..]);
      }
    }
  }

  /**
   Duplicate insensitivity, with its exact condition: after any history of deliveries and crashes, the
   tables after any further sequence of deliveries out of `ps` equal those after delivering only the
   first success of each event id, if and only if no payload in `ps` is a refunded charge carrying a
   refund status the database cannot store.
   */
  lemma {:induction false} DuplicatesLeaveNoTrace(ps: iset<Payload>)
    ensures (forall p :: p in ps ==> FailsCleanly(p)) <==>
            (forall s: State, calls: seq<Call>, es: seq<Event> ::
               Fresh(s) && (forall e :: e in es ==> e.payload in ps) ==>
                 var t := After(s, calls);
                 SameEffects(Deliver(t, es), Deliver(t, FirstSuccesses(t, es))))
  {
    if forall p :: p in ps ==> FailsCleanly(p) {
      forall s: State, calls: seq<Call>, es: seq<Event> | forall e :: e in es ==> e.payload in ps
        ensures var t := After(s, calls); SameEffects(Deliver(t, es), Deliver(t, FirstSuccesses(t, es)))
      {
        OnlyFirstSuccessesCountFrom(After(s, calls), After(s, calls), es);
      }
    } else {
      var p :| p in ps && !FailsCleanly(p);
      var s, calls, es := NothingPaid(), [Completed(Paid(p.charged))], [Refunding(p)];
      assert Refunding(p).payload in ps;
      UncleanLeavesTrace(p);
      assert Fresh(s);
      var t := After(s, calls);
      assert !SameEffects(Deliver(t, es), Deliver(t, FirstSuccesses(t, es)));
    }
  }

  function Refunding(p: Payload): Event {
    Event("evt_refund", "charge.refunded", p)
  }

  lemma UncleanLeavesTrace(p: Payload)
    requires !FailsCleanly(p)
    ensures Fresh(NothingPaid())
    ensures var t := After(NothingPaid(), [Completed(Paid(p.charged))]);
            !SameEffects(Deliver(t, [Refunding(p)]), Deliver(t, FirstSuccesses(t, [Refunding(p)])))
  {
    PaymentArrives(p.charged);
    RefundPlanThrows(p.charged, p.list);
    RefundedAfterPlan(p.charged, p.list);
    OneDelivery(After(NothingPaid(), [Completed(Paid(p.charged))]), Refunding(p));
  }

  lemma OneDelivery(s: State, e: Event)
    requires !AlreadyProcessed(s, e) && PlanOf(s.billing, e.payload).throws
    ensures Deliver(s, [e]) == Process(s, e).0
    ensures FirstSuccesses(s, [e]) == []
  {
    assert [e][1..] == [];
  }

  /** No event id succeeds twice: a success is final. */
  lemma {:induction false} SuccessesAreDistinct(s: State, es: seq<Event>)
    ensures forall e :: e in FirstSuccesses(s, es) ==> !AlreadyProcessed(s, e)
    ensures forall i, j :: 0 <= i < j < |FirstSuccesses(s, es)| ==>
              FirstSuccesses(s, es)[i].id != FirstSuccesses(s, es)[j].id
    decreases |es|
  {
    if es != [] {
      var e := es[0];
      var (s', ok) := Process(s, e);
      var rest := FirstSuccesses(s', es[1..]);
      SuccessesAreDistinct(s', es[1..]);
      forall x | x in rest ensures !AlreadyProcessed(s, x) {
        assert !AlreadyProcessed(s', x);
      }
      if ok && !AlreadyProcessed(s, e) {
        forall i | 0 <= i < |rest| ensures rest[i].id != e.id {
          assert rest[i] in rest;
        }
      }
    }
  }

  // ---------------------------------------------------------------------------
  // Deliveries and crashes mixed
  // ---------------------------------------------------------------------------

  /** PROCESSED is absorbing: whatever is delivered or dies later, the event stays processed. */
  lemma {:induction false} ProcessedIsAbsorbing(s: State, calls: seq<Call>, id: string)
    requires id in s.events && s.events[id].status == Processed
    ensures id in After(s, calls).events && After(s, calls).events[id] == s.events[id]
    decreases |calls|
  {
    if calls != [] {
      ProcessedIsAbsorbing(s, calls[..|calls| - 1], id);
    }
  }

  /** An event is left PROCESSING only by a call that died on it, and then by the last call about it. */
  lemma {:induction false} ProcessingMeansDied(s: State, calls: seq<Call>, id: string)
    requires forall x :: x in s.events ==> s.events[x].status != Processing
    requires id in After(s, calls).events && After(s, calls).events[id].status == Processing
    ensures exists i :: 0 <= i < |calls| && calls[i].Died? && calls[i].e.id == id
                   && forall j :: i < j < |calls| ==> calls[j].e.id != id
    decreases |calls|
  {
    if calls != [] {
      var n := |calls| - 1;
      if calls[n].e.id != id {
        ProcessingMeansDied(s, calls[..n], id);
        var i :| 0 <= i < n && calls[..n][i].Died? && calls[..n][i].e.id == id
                 && forall j :: i < j < n ==> calls[..n][j].e.id != id;
        assert calls[i].Died? && calls[i].e.id == id;
        forall j | i < j < |calls| ensures calls[j].e.id != id {
          if j < n {
            assert calls[..n][j].e.id != id;
          }
        }
      }
    }
  }

  // ---------------------------------------------------------------------------
  // Integrity of the billing tables over every run
  // ---------------------------------------------------------------------------

  /** Writes never remove a row and never change anything of it but its status. */
  ghost predicate KeepsData(b: Billing, b': Billing) {
    && (forall k :: k in b.payments ==> k in b'.payments && b'.payments[k].data == b.payments[k].data)
    && (forall k :: k in b.refunds ==> k in b'.refunds && b'.refunds[k].data == b.refunds[k].data)
    && b'.accounts.Keys == b.accounts.Keys
  }

  /** What the row of a payment or a refund may be created from. */
  predicate AllowedWrite(b: Billing, p: Payload, w: BillingWrite) {
    match w
    case PaymentWrite(x) =>
      x.create.Some? ==> p.IntentSucceeded? && HasMetadata(p) && x.key == p.intent && x.create == PaymentOf(p)
    case RefundWrite(x) =>
      x.create.Some? ==> p.ChargeRefunded? && x.create.value.payment == p.charged && p.charged in b.payments
    case AccountWrite(x) => x.create.None? && x.key in b.accounts
  }

  lemma {:induction false} RefundPlanIsAllowed(b: Billing, intent: string, list: seq<StripeRefund>,
                                               refunds: seq<StripeRefund>)
    requires intent in b.payments
    ensures forall i :: 0 <= i < |RefundPlan(intent, refunds).writes| ==>
              AllowedWrite(b, ChargeRefunded(intent, list), RefundPlan(intent, refunds).writes[i])
    decreases |refunds|
  {
    if refunds != [] {
      RefundPlanIsAllowed(b, intent, list, refunds[..|refunds| - 1]);
    }
  }

  lemma PlanIsAllowed(b: Billing, p: Payload)
    ensures forall i :: 0 <= i < |PlanOf(b, p).writes| ==> AllowedWrite(b, p, PlanOf(b, p).writes[i])
  {
    if p.ChargeRefunded? && p.charged in b.payments {
      RefundPlanIsAllowed(b, p.charged, p.list, p.list);
    }
  }

  lemma {:induction false} AllowedWritesKeepData(b: Billing, p: Payload, ws: seq<BillingWrite>)
    requires forall i :: 0 <= i < |ws| ==> AllowedWrite(b, p, ws[i])
    ensures KeepsData(b, ApplyWrites(b, ws))
    decreases |ws|
  {
    if ws != [] {
      AllowedWritesKeepData(b, p, ws[..|ws| - 1]);
    }
  }

  /** Rows that appear come from the payload of the call. */
  lemma {:induction false} AllowedWritesCreate(b: Billing, p: Payload, ws: seq<BillingWrite>)
    requires forall i :: 0 <= i < |ws| ==> AllowedWrite(b, p, ws[i])
    ensures forall k :: k in ApplyWrites(b, ws).payments && k !in b.payments ==>
              && p.IntentSucceeded? && HasMetadata(p) && k == p.intent
              && Some(ApplyWrites(b, ws).payments[k].data) == PaymentOf(p)
    ensures forall k :: k in ApplyWrites(b, ws).refunds && k !in b.refunds ==>
              ApplyWrites(b, ws).refunds[k].data.payment in b.payments
    decreases |ws|
  {
    if ws != [] {
      AllowedWritesCreate(b, p, ws[..|ws| - 1]);
    }
  }

  /** What one call does to the billing tables: some prefix of its handler's writes. */
  lemma CallMakesPrefix(s: State, call: Call) returns (ws: seq<BillingWrite>)
    ensures After(s, [call]).billing == ApplyWrites(s.billing, ws)
    ensures forall i :: 0 <= i < |ws| ==> AllowedWrite(s.billing, call.e.payload, ws[i])
  {
    assert [call][..0] == [];
    var plan := PlanOf(s.billing, call.e.payload).writes;
    PlanIsAllowed(s.billing, call.e.payload);
    if AlreadyProcessed(s, call.e) {
      ws := [];
    } else if call.Died? && call.k <= |plan| {
      ws := plan[..call.k];
    } else {
      ws := plan;
    }
  }

  lemma AfterOneMore(s: State, calls: seq<Call>)
    requires calls != []
    ensures After(s, calls) == After(After(s, calls[..|calls| - 1]), [calls[|calls| - 1]])
  {
    assert [calls[|calls| - 1]][..0] == [];
  }

  /** Over deliveries and crashes mixed in any way, no row is lost and no row's data is ever rewritten. */
  lemma {:induction false} BillingDataIsFinal(s: State, calls: seq<Call>)
    ensures KeepsData(s.billing, After(s, calls).billing)
    decreases |calls|
  {
    if calls != [] {
      var n := |calls| - 1;
      BillingDataIsFinal(s, calls[..n]);
      AfterOneMore(s, calls);
      var ws := CallMakesPrefix(After(s, calls[..n]), calls[n]);
      AllowedWritesKeepData(After(s, calls[..n]).billing, calls[n].e.payload, ws);
    }
  }

  /** Every refund belongs to a payment that is there, on every state reached from such a state. */
  lemma {:induction false} RefundsBelongToPayments(s: State, calls: seq<Call>)
    requires forall k :: k in s.billing.refunds ==> s.billing.refunds[k].data.payment in s.billing.payments
    ensures forall k :: k in After(s, calls).billing.refunds ==>
              After(s, calls).billing.refunds[k].data.payment in After(s, calls).billing.payments
    decreases |calls|
  {
    if calls != [] {
      var n := |calls| - 1;
      RefundsBelongToPayments(s, calls[..n]);
      AfterOneMore(s, calls);
      var t := After(s, calls[..n]);
      var ws := CallMakesPrefix(t, calls[n]);
      AllowedWritesKeepData(t.billing, calls[n].e.payload, ws);
      AllowedWritesCreate(t.billing, calls[n].e.payload, ws);
    }
  }

  /** Every payment that appears records the amount, parties and commission of an intent that was delivered. */
  lemma {:induction false} PaymentsRecordIntents(s: State, calls: seq<Call>, k: string)
    requires k in After(s, calls).billing.payments && k !in s.billing.payments
    ensures exists i :: 0 <= i < |calls| && calls[i].e.payload.IntentSucceeded? && calls[i].e.payload.intent == k
                        && Some(After(s, calls).billing.payments[k].data) == PaymentOf(calls[i].e.payload)
    decreases |calls|
  {
    var n := |calls| - 1;
    var t := After(s, calls[..n]);
    AfterOneMore(s, calls);
    var ws := CallMakesPrefix(t, calls[n]);
    AllowedWritesKeepData(t.billing, calls[n].e.payload, ws);
    AllowedWritesCreate(t.billing, calls[n].e.payload, ws);
    if k in t.billing.payments {
      PaymentsRecordIntents(s, calls[..n], k);
      var i :| 0 <= i < n && calls[..n][i].e.payload.IntentSucceeded? && calls[..n][i].e.payload.intent == k
               && Some(t.billing.payments[k].data) == PaymentOf(calls[..n][i].e.payload);
      assert calls[i] == calls[..n][i];
    } else {
      assert calls[n].e.payload.IntentSucceeded?;
    }
  }
}
