/**
 Deliveries that overlap (src/webhooks/webhooks.service.ts, `processStripeEvent`): the lookup of the
 event, its recording, the decisions and the writes of its handler and the final status are separate
 statements, and a sender that delivers at least once may have several calls about one event running.
 Here each statement is one step; a call that dies simply never continues.
 */
module WebhookStatements {
  import opened Common
  import opened Webhooks

  /** How far a call that was not turned away is. */
  datatype Stage = Looked | Recorded | Writing(plan: Plan, done: nat)

  datatype InFlight = InFlight(e: Event, stage: Stage)

  /** The tables, the calls in flight, and the answers given so far. */
  datatype System = System(state: State, calls: map<nat, InFlight>, answers: seq<bool>)

  datatype Statement =
    | LookUp(call: nat, e: Event)
    | Record(call: nat)
    | Decide(call: nat)
    | WriteNext(call: nat)
    | Finish(call: nat)

  function SetEvent(y: System, e: Event, status: EventStatus): State {
    y.state.(events := y.state.events[e.id := EventRow(e.kind, status)])
  }

  function FinalStatus(plan: Plan): EventStatus {
    if plan.throws then EventFailed else Processed
  }

  /** A statement of a call that is not at that point does nothing. */
  function Step(y: System, x: Statement): System {
    match x
    case LookUp(call, e) =>
      if call in y.calls then y
      else if AlreadyProcessed(y.state, e) then y.(answers := y.answers + [true])
      else y.(calls := y.calls[call := InFlight(e, Looked)])
    case Record(call) =>
      if call !in y.calls || y.calls[call].stage != Looked then y
      else
        var c := y.calls[call];
        y.(state := SetEvent(y, c.e, Processing), calls := y.calls[call := c.(stage := Recorded)])
    case Decide(call) =>
      if call !in y.calls || y.calls[call].stage != Recorded then y
      else
        var c := y.calls[call];
        y.(calls := y.calls[call := c.(stage := Writing(PlanOf(y.state.billing, c.e.payload), 0))])
    case WriteNext(call) =>
      if call !in y.calls || !HasMore(y.calls[call].stage) then y
      else
        var c := y.calls[call];
        var w := c.stage.plan.writes[c.stage.done];
        y.(state := y.state.(billing := ApplyWrite(y.state.billing, w)),
           calls := y.calls[call := c.(stage := c.stage.(done := c.stage.done + 1))])
    case Finish(call) =>
      if call !in y.calls || !y.calls[call].stage.Writing? || HasMore(y.calls[call].stage) then y
      else
        var c := y.calls[call];
        System(SetEvent(y, c.e, FinalStatus(c.stage.plan)), y.calls - {call}, y.answers + [!c.stage.plan.throws])
  }

  predicate HasMore(stage: Stage) {
    stage.Writing? && stage.done < |stage.plan.writes|
  }

  function Run(y: System, xs: seq<Statement>): System
    decreases |xs|
  {
    if xs == [] then y else Step(Run(y, xs[..|xs| - 1]), xs[|xs| - 1])
  }

  function Start(s: State): System {
    System(s, map[], [])
  }

  // ---------------------------------------------------------------------------
  // The billing tables, row by row
  // ---------------------------------------------------------------------------

  datatype RowKey = PaymentKey(key: string) | RefundKey(key: string) | AccountKey(key: string)

  datatype RowData = PaymentRow(payment: PaymentData) | RefundRow(refund: RefundData) | AccountRow

  datatype RowStatus =
    | OfPayment(payment: PaymentStatus)
    | OfRefund(refund: RefundStatus)
    | OfAccount(account: AccountStatus)

  datatype Cell = Cell(data: RowData, status: RowStatus)

  function CellAt(b: Billing, k: RowKey): Option<Cell> {
    match k
    case PaymentKey(x) =>
      if x in b.payments then Some(Cell(PaymentRow(b.payments[x].data), OfPayment(b.payments[x].status))) else None
    case RefundKey(x) =>
      if x in b.refunds then Some(Cell(RefundRow(b.refunds[x].data), OfRefund(b.refunds[x].status))) else None
    case AccountKey(x) =>
      if x in b.accounts then Some(Cell(AccountRow, OfAccount(b.accounts[x].status))) else None
  }

  function KeyOf(w: BillingWrite): RowKey {
    match w
    case PaymentWrite(x) => PaymentKey(x.key)
    case RefundWrite(x) => RefundKey(x.key)
    case AccountWrite(x) => AccountKey(x.key)
  }

  function StatusOf(w: BillingWrite): RowStatus {
    match w
    case PaymentWrite(x) => OfPayment(x.status)
    case RefundWrite(x) => OfRefund(x.status)
    case AccountWrite(x) => OfAccount(x.status)
  }

  function CreateOf(w: BillingWrite): Option<RowData> {
    match w
    case PaymentWrite(x) => if x.create.Some? then Some(PaymentRow(x.create.value)) else None
    case RefundWrite(x) => if x.create.Some? then Some(RefundRow(x.create.value)) else None
    case AccountWrite(x) => if x.create.Some? then Some(AccountRow) else None
  }

  /** What a write makes of the row it addresses. */
  function Written(c: Option<Cell>, w: BillingWrite): Option<Cell> {
    if c.Some? then Some(c.value.(status := StatusOf(w)))
    else if CreateOf(w).Some? then Some(Cell(CreateOf(w).value, StatusOf(w)))
    else None
  }

  lemma WriteAt(b: Billing, w: BillingWrite, k: RowKey)
    ensures CellAt(ApplyWrite(b, w), k) == if k == KeyOf(w) then Written(CellAt(b, k), w) else CellAt(b, k)
  {
  }

  predicate SameParties(a: Billing, b: Billing) {
    a.sessions == b.sessions && a.users == b.users && a.partners == b.partners
  }

  /** Tables are equal if they are, row by row. */
  lemma SameRows(a: Billing, b: Billing)
    requires SameParties(a, b) && forall k :: CellAt(a, k) == CellAt(b, k)
    ensures a == b
  {
    SamePayments(a, b);
    SameRefunds(a, b);
    SameAccounts(a, b);
  }

  lemma SamePayments(a: Billing, b: Billing)
    requires forall k :: CellAt(a, k) == CellAt(b, k)
    ensures a.payments == b.payments
  {
    forall x ensures x in a.payments <==> x in b.payments
             ensures x in a.payments ==> a.payments[x] == b.payments[x] {
      assert CellAt(a, PaymentKey(x)) == CellAt(b, PaymentKey(x));
    }
  }

  lemma SameRefunds(a: Billing, b: Billing)
    requires forall k :: CellAt(a, k) == CellAt(b, k)
    ensures a.refunds == b.refunds
  {
    forall x ensures x in a.refunds <==> x in b.refunds
             ensures x in a.refunds ==> a.refunds[x] == b.refunds[x] {
      assert CellAt(a, RefundKey(x)) == CellAt(b, RefundKey(x));
    }
  }

  lemma SameAccounts(a: Billing, b: Billing)
    requires forall k :: CellAt(a, k) == CellAt(b, k)
    ensures a.accounts == b.accounts
  {
    forall x ensures x in a.accounts <==> x in b.accounts
             ensures x in a.accounts ==> a.accounts[x] == b.accounts[x] {
      assert CellAt(a, AccountKey(x)) == CellAt(b, AccountKey(x));
      assert x in a.accounts ==> a.accounts[x].data == b.accounts[x].data;
    }
  }

  /** The row `k` after the first `j` writes of `ws`. */
  function At(b: Billing, ws: seq<BillingWrite>, j: nat, k: RowKey): Option<Cell>
    requires j <= |ws|
  {
    CellAt(ApplyWrites(b, ws[..j]), k)
  }

  lemma NextAt(b: Billing, ws: seq<BillingWrite>, j: nat, k: RowKey)
    requires j < |ws|
    ensures At(b, ws, j + 1, k) == if k == KeyOf(ws[j]) then Written(At(b, ws, j, k), ws[j]) else At(b, ws, j, k)
  {
    assert ws[..j + 1][..j] == ws[..j];
    WriteAt(ApplyWrites(b, ws[..j]), ws[j], k);
  }

  /** Once a row is there it stays, with its data. */
  lemma {:induction false} RowStays(b: Billing, ws: seq<BillingWrite>, i: nat, j: nat, k: RowKey)
    requires i <= j <= |ws| && At(b, ws, i, k).Some?
    ensures At(b, ws, j, k).Some? && At(b, ws, j, k).value.data == At(b, ws, i, k).value.data
    decreases j
  {
    if i < j {
      RowStays(b, ws, i, j - 1, k);
      NextAt(b, ws, j - 1, k);
    }
  }

  predicate Touches(ws: seq<BillingWrite>, n: nat, k: RowKey) {
    exists i :: 0 <= i < n && i < |ws| && KeyOf(ws[i]) == k
  }

  lemma {:induction false} UntouchedRow(b: Billing, ws: seq<BillingWrite>, n: nat, k: RowKey)
    requires n <= |ws| && !Touches(ws, n, k)
    ensures At(b, ws, n, k) == CellAt(b, k)
  {
    if n > 0 {
      UntouchedRow(b, ws, n - 1, k);
      NextAt(b, ws, n - 1, k);
    } else {
      assert ws[..0] == [];
    }
  }

  /** Every write creates its row or finds it there. */
  ghost predicate NeverMisses(b: Billing, ws: seq<BillingWrite>) {
    forall i :: 0 <= i < |ws| ==> CreateOf(ws[i]).Some? || CellAt(b, KeyOf(ws[i])).Some?
  }

  /**
   Two calls at different points of the same writes: whatever point `j` the row was left at, the
   write `q` brings it to where a lone call has it after that write.
   */
  lemma SameAfterWrite(b: Billing, ws: seq<BillingWrite>, j: nat, q: nat)
    requires NeverMisses(b, ws) && j <= |ws| && q < |ws|
    requires At(b, ws, q, KeyOf(ws[q])).Some? ==> At(b, ws, j, KeyOf(ws[q])).Some?
    ensures Written(At(b, ws, j, KeyOf(ws[q])), ws[q]) == At(b, ws, q + 1, KeyOf(ws[q]))
  {
    var k := KeyOf(ws[q]);
    NextAt(b, ws, q, k);
    if At(b, ws, j, k).Some? {
      if At(b, ws, q, k).Some? {
        RowStays(b, ws, if j <= q then j else q, if j <= q then q else j, k);
      } else {
        if j <= q {
          RowStays(b, ws, j, q, k);
        }
        if CellAt(b, k).Some? {
          assert ws[..0] == [];
          RowStays(b, ws, 0, q, k);
        }
        RowStays(b, ws, q + 1, j, k);
      }
    }
  }

  // ---------------------------------------------------------------------------
  // Plans depend on one row only
  // ---------------------------------------------------------------------------

  /** The row whose presence a handler's plan depends on. */
  function DecidingKey(p: Payload): RowKey {
    match p
    case IntentSucceeded(intent, _, _, _, _, _, _) => PaymentKey(intent)
    case IntentFailed(intent) => PaymentKey(intent)
    case ChargeRefunded(intent, _) => PaymentKey(intent)
    case DisputeCreated(intent) => PaymentKey(intent)
    case AccountUpdated(account, _, _, _) => AccountKey(account)
    case Unhandled => PaymentKey("")
  }

  lemma PlanNeedsOneRow(a: Billing, b: Billing, p: Payload)
    requires SameParties(a, b) && CellAt(a, DecidingKey(p)).Some? == CellAt(b, DecidingKey(p)).Some?
    ensures PlanOf(a, p) == PlanOf(b, p)
  {
  }

  lemma {:induction false} RefundsNeverMiss(b: Billing, intent: string, refunds: seq<StripeRefund>)
    ensures forall i :: 0 <= i < |RefundPlan(intent, refunds).writes| ==>
              CreateOf(RefundPlan(intent, refunds).writes[i]).Some?
    decreases |refunds|
  {
    if refunds != [] {
      RefundsNeverMiss(b, intent, refunds[..|refunds| - 1]);
    }
  }

  lemma PlansNeverMiss(b: Billing, p: Payload)
    ensures NeverMisses(b, PlanOf(b, p).writes)
  {
    if p.ChargeRefunded? {
      RefundsNeverMiss(b, p.charged, p.list);
    }
  }

  // ---------------------------------------------------------------------------
  // The invariant of overlapping deliveries of one event
  // ---------------------------------------------------------------------------

  predicate IsWriting(y: System, call: nat) {
    call in y.calls && y.calls[call].stage.Writing?
  }

  function Done(y: System, call: nat): nat
    requires IsWriting(y, call)
  {
    y.calls[call].stage.done
  }

  /** Every call is about `e` and works on the writes `plan`. */
  ghost predicate CallsFollow(y: System, e: Event, plan: Plan) {
    && (forall c :: c in y.calls ==> y.calls[c].e == e)
    && (forall c :: IsWriting(y, c) ==> y.calls[c].stage.plan == plan && Done(y, c) <= |plan.writes|)
  }

  /**
   A row stands where a lone call would have it after `j` writes: at the start, if nobody has touched
   it; at the end, once somebody has finished; or where one of the calls in flight is.
   */
  ghost predicate StandsAt(y: System, ws: seq<BillingWrite>, k: RowKey, j: nat) {
    && j <= |ws|
    && (|| (j == 0 && y.answers == [] && forall c :: IsWriting(y, c) ==> !Touches(ws, Done(y, c), k))
        || (j == |ws| && y.answers != [])
        || (exists c :: IsWriting(y, c) && Done(y, c) == j))
  }

  ghost predicate RowIsGood(y: System, b: Billing, ws: seq<BillingWrite>, k: RowKey) {
    && (exists j :: StandsAt(y, ws, k, j) && CellAt(y.state.billing, k) == At(b, ws, j, k))
    && (forall c :: IsWriting(y, c) && Done(y, c) <= |ws| && At(b, ws, Done(y, c), k).Some? ==>
          CellAt(y.state.billing, k).Some?)
  }

  ghost predicate RowsAreGood(y: System, b: Billing, ws: seq<BillingWrite>) {
    SameParties(y.state.billing, b) && forall k :: RowIsGood(y, b, ws, k)
  }

  predicate Acting(y: System, call: nat) {
    call in y.calls && y.calls[call].stage != Looked
  }

  /** The event table: untouched while no call has recorded the event, else it shows how far they are. */
  ghost predicate EventIsGood(y: System, s: State, e: Event, plan: Plan) {
    && (y.answers == [] && (forall c :: !Acting(y, c)) ==> y.state.events == s.events)
    && (y.answers != [] || (exists c :: Acting(y, c)) ==>
          (y.state.events == s.events[e.id := EventRow(e.kind, Processing)] && exists c :: Acting(y, c))
          || (y.state.events == s.events[e.id := EventRow(e.kind, FinalStatus(plan))] && y.answers != []))
  }

  ghost predicate AnswersAreGood(y: System, plan: Plan) {
    forall a :: a in y.answers ==> a == !plan.throws
  }

  ghost predicate Inv(y: System, s: State, e: Event) {
    var plan := PlanOf(s.billing, e.payload);
    && CallsFollow(y, e, plan) && RowsAreGood(y, s.billing, plan.writes)
    && EventIsGood(y, s, e, plan) && AnswersAreGood(y, plan)
  }

  lemma PlanIsStable(y: System, b: Billing, p: Payload)
    requires RowsAreGood(y, b, PlanOf(b, p).writes)
    ensures PlanOf(y.state.billing, p) == PlanOf(b, p)
  {
    var ws, k := PlanOf(b, p).writes, DecidingKey(p);
    assert RowIsGood(y, b, ws, k);
    var j: nat :| StandsAt(y, ws, k, j) && CellAt(y.state.billing, k) == At(b, ws, j, k);
    PlanSurvivesCrash(b, p, j);
    WritesKeepKeys(b, ws[..j]);
    PlanNeedsOneRow(y.state.billing, ApplyWrites(b, ws[..j]), p);
  }

  /** One write of one call: each row stands where it did, the written one where this call is now. */
  lemma WriteKeepsRow(y: System, b: Billing, plan: Plan, call: nat, k: RowKey)
    requires IsWriting(y, call) && y.calls[call].stage.plan == plan && HasMore(y.calls[call].stage)
    requires NeverMisses(b, plan.writes) && RowIsGood(y, b, plan.writes, k)
    ensures RowIsGood(Step(y, WriteNext(call)), b, plan.writes, k)
  {
    var ws, q, y' := plan.writes, Done(y, call), Step(y, WriteNext(call));
    var w := ws[q];
    WriteAt(y.state.billing, w, k);
    NextAt(b, ws, q, k);
    assert IsWriting(y', call) && Done(y', call) == q + 1;
    assert forall c :: c != call ==>
             IsWriting(y', c) == IsWriting(y, c) && (IsWriting(y, c) ==> Done(y', c) == Done(y, c));
    var j: nat :| StandsAt(y, ws, k, j) && CellAt(y.state.billing, k) == At(b, ws, j, k);
    if k == KeyOf(w) {
      SameAfterWrite(b, ws, j, q);
      assert StandsAt(y', ws, k, q + 1);
    } else {
      WriteKeepsStanding(y, ws, call, k, j);
    }
  }

  lemma WriteKeepsStanding(y: System, ws: seq<BillingWrite>, call: nat, k: RowKey, j: nat)
    requires IsWriting(y, call) && y.calls[call].stage.plan.writes == ws && HasMore(y.calls[call].stage)
    requires StandsAt(y, ws, k, j) && k != KeyOf(ws[Done(y, call)])
    ensures var q := Done(y, call);
            StandsAt(Step(y, WriteNext(call)), ws, k, j) || (j == q && StandsAt(Step(y, WriteNext(call)), ws, k, q + 1))
  {
    var q, y' := Done(y, call), Step(y, WriteNext(call));
    assert IsWriting(y', call) && Done(y', call) == q + 1;
    assert forall c :: c != call ==>
             IsWriting(y', c) == IsWriting(y, c) && (IsWriting(y, c) ==> Done(y', c) == Done(y, c));
    if j == 0 && y.answers == [] && forall c :: IsWriting(y, c) ==> !Touches(ws, Done(y, c), k) {
      forall c | IsWriting(y', c) ensures !Touches(ws, Done(y', c), k) {
        assert !Touches(ws, Done(y, c), k);
      }
    } else if !(j == |ws| && y.answers != []) {
      var c :| IsWriting(y, c) && Done(y, c) == j;
      if c != call {
        assert IsWriting(y', c) && Done(y', c) == j;
      }
    }
  }

  /** A call that finishes has made all writes: rows nobody touched are rows the writes do not touch. */
  lemma FinishKeepsRow(y: System, b: Billing, plan: Plan, call: nat, k: RowKey)
    requires IsWriting(y, call) && y.calls[call].stage.plan == plan && Done(y, call) == |plan.writes|
    requires RowIsGood(y, b, plan.writes, k)
    ensures RowIsGood(Step(y, Finish(call)), b, plan.writes, k)
  {
    var ws, y' := plan.writes, Step(y, Finish(call));
    assert y'.answers != [];
    assert forall c :: IsWriting(y', c) ==> IsWriting(y, c) && Done(y', c) == Done(y, c);
    var j: nat :| StandsAt(y, ws, k, j) && CellAt(y.state.billing, k) == At(b, ws, j, k);
    if j == 0 && y.answers == [] && forall c :: IsWriting(y, c) ==> !Touches(ws, Done(y, c), k) {
      UntouchedRow(b, ws, |ws|, k);
      assert ws[..0] == [];
      assert StandsAt(y', ws, k, |ws|);
    } else if j == |ws| {
      assert StandsAt(y', ws, k, |ws|);
    } else {
      var c :| IsWriting(y, c) && Done(y, c) == j;
      assert IsWriting(y', c) && Done(y', c) == j;
      assert StandsAt(y', ws, k, j);
    }
  }

  /** Steps that write nothing to the billing tables and finish no call. */
  lemma OthersKeepRow(y: System, b: Billing, ws: seq<BillingWrite>, y': System, k: RowKey)
    requires RowIsGood(y, b, ws, k) && y'.state.billing == y.state.billing && (y'.answers == [] <==> y.answers == [])
    requires forall c :: IsWriting(y, c) ==> IsWriting(y', c) && Done(y', c) == Done(y, c)
    requires forall c :: IsWriting(y', c) && !IsWriting(y, c) ==> Done(y', c) == 0
    ensures RowIsGood(y', b, ws, k)
  {
    var j: nat :| StandsAt(y, ws, k, j) && CellAt(y.state.billing, k) == At(b, ws, j, k);
    if j == 0 && y.answers == [] && forall c :: IsWriting(y, c) ==> !Touches(ws, Done(y, c), k) {
      forall c | IsWriting(y', c) ensures !Touches(ws, Done(y', c), k) {
      }
    } else if !(j == |ws| && y.answers != []) {
      var c :| IsWriting(y, c) && Done(y, c) == j;
      assert IsWriting(y', c) && Done(y', c) == j;
    }
    assert StandsAt(y', ws, k, j);
    forall c | IsWriting(y', c) && Done(y', c) <= |ws| && At(b, ws, Done(y', c), k).Some?
      ensures CellAt(y'.state.billing, k).Some?
    {
      if !IsWriting(y, c) {
        RowStays(b, ws, 0, j, k);
      }
    }
  }

  lemma StepKeepsRows(y: System, s: State, e: Event, x: Statement)
    requires Inv(y, s, e) && (x.LookUp? ==> x.e == e) && !AlreadyProcessed(s, e)
    ensures RowsAreGood(Step(y, x), s.billing, PlanOf(s.billing, e.payload).writes)
  {
    var plan, y' := PlanOf(s.billing, e.payload), Step(y, x);
    PlansNeverMiss(s.billing, e.payload);
    if y' != y {
      forall k ensures RowIsGood(y', s.billing, plan.writes, k) {
        assert RowIsGood(y, s.billing, plan.writes, k);
        match x {
          case WriteNext(call) => WriteKeepsRow(y, s.billing, plan, call, k);
          case Finish(call) => FinishKeepsRow(y, s.billing, plan, call, k);
          case LookUp(call, _) =>
            TurnedAwayAfterAnswer(y, s, e);
            OthersKeepRow(y, s.billing, plan.writes, y', k);
          case _ => OthersKeepRow(y, s.billing, plan.writes, y', k);
        }
      }
    }
  }

  /** A call is turned away only after another one has succeeded. */
  lemma TurnedAwayAfterAnswer(y: System, s: State, e: Event)
    requires EventIsGood(y, s, e, PlanOf(s.billing, e.payload)) && !AlreadyProcessed(s, e)
    ensures AlreadyProcessed(y.state, e) ==> y.answers != [] && !PlanOf(s.billing, e.payload).throws
  {
  }

  lemma StepKeepsCalls(y: System, s: State, e: Event, x: Statement)
    requires Inv(y, s, e) && (x.LookUp? ==> x.e == e)
    ensures CallsFollow(Step(y, x), e, PlanOf(s.billing, e.payload))
  {
    if x.Decide? {
      PlanIsStable(y, s.billing, e.payload);
    }
  }

  lemma StepKeepsEvent(y: System, s: State, e: Event, x: Statement)
    requires CallsFollow(y, e, PlanOf(s.billing, e.payload)) && EventIsGood(y, s, e, PlanOf(s.billing, e.payload))
    requires (x.LookUp? ==> x.e == e) && !AlreadyProcessed(s, e)
    ensures EventIsGood(Step(y, x), s, e, PlanOf(s.billing, e.payload))
  {
    var plan, y' := PlanOf(s.billing, e.payload), Step(y, x);
    TurnedAwayAfterAnswer(y, s, e);
    if y' != y {
      match x
      case Record(call) =>
        assert Acting(y', call);
        assert y'.state.events == s.events[e.id := EventRow(e.kind, Processing)];
      case Finish(call) =>
        assert Acting(y, call);
        assert y'.state.events == s.events[e.id := EventRow(e.kind, FinalStatus(plan))];
      case _ =>
        assert forall c :: Acting(y', c) == Acting(y, c);
    }
  }

  lemma StepKeepsAnswers(y: System, s: State, e: Event, x: Statement)
    requires Inv(y, s, e) && (x.LookUp? ==> x.e == e) && !AlreadyProcessed(s, e)
    ensures AnswersAreGood(Step(y, x), PlanOf(s.billing, e.payload))
  {
    TurnedAwayAfterAnswer(y, s, e);
  }

  lemma StepKeepsInv(y: System, s: State, e: Event, x: Statement)
    requires Inv(y, s, e) && (x.LookUp? ==> x.e == e) && !AlreadyProcessed(s, e)
    ensures Inv(Step(y, x), s, e)
  {
    StepKeepsRows(y, s, e, x);
    StepKeepsCalls(y, s, e, x);
    StepKeepsEvent(y, s, e, x);
    StepKeepsAnswers(y, s, e, x);
  }

  /** Only deliveries of `e` are started. */
  predicate OnlyAbout(xs: seq<Statement>, e: Event) {
    forall i :: 0 <= i < |xs| && xs[i].LookUp? ==> xs[i].e == e
  }

  lemma StartIsGood(s: State, e: Event)
    ensures Inv(Start(s), s, e)
  {
    var ws := PlanOf(s.billing, e.payload).writes;
    forall k ensures RowIsGood(Start(s), s.billing, ws, k) {
      assert ws[..0] == [];
      assert StandsAt(Start(s), ws, k, 0);
    }
  }

  lemma {:induction false} RunKeepsInv(s: State, e: Event, xs: seq<Statement>)
    requires !AlreadyProcessed(s, e) && OnlyAbout(xs, e)
    ensures Inv(Run(Start(s), xs), s, e)
  {
    if xs == [] {
      StartIsGood(s, e);
    } else {
      var n := |xs| - 1;
      RunKeepsInv(s, e, xs[..n]);
      StepKeepsInv(Run(Start(s), xs[..n]), s, e, xs[n]);
    }
  }

  // ---------------------------------------------------------------------------
  // Convergence
  // ---------------------------------------------------------------------------

  /** An event that was processed before: every delivery is turned away. */
  lemma {:induction false} AllTurnedAway(s: State, e: Event, xs: seq<Statement>)
    requires AlreadyProcessed(s, e) && OnlyAbout(xs, e)
    ensures var y := Run(Start(s), xs); y.state == s && y.calls == map[] && forall a :: a in y.answers ==> a
    decreases |xs|
  {
    if xs != [] {
      AllTurnedAway(s, e, xs[..|xs| - 1]);
    }
  }

  /**
   However the statements of several deliveries of one event interleave, once all of them have ended
   the tables are exactly those after one clean delivery, and all of them got its answer.
   */
  lemma {:induction false} OverlapsConverge(s: State, e: Event, xs: seq<Statement>)
    requires OnlyAbout(xs, e) && Run(Start(s), xs).calls == map[]
    ensures var y := Run(Start(s), xs);
            && (y.answers == [] ==> y.state == s)
            && (y.answers != [] ==> y.state == Process(s, e).0)
            && (forall a :: a in y.answers ==> a == Process(s, e).1)
  {
    if AlreadyProcessed(s, e) {
      AllTurnedAway(s, e, xs);
    } else {
      var y, plan := Run(Start(s), xs), PlanOf(s.billing, e.payload);
      RunKeepsInv(s, e, xs);
      var ws := if y.answers == [] then [] else plan.writes;
      forall k ensures CellAt(y.state.billing, k) == CellAt(ApplyWrites(s.billing, ws), k) {
        assert RowIsGood(y, s.billing, plan.writes, k);
        assert plan.writes[..|plan.writes|] == plan.writes && plan.writes[..0] == [];
      }
      WritesKeepKeys(s.billing, ws);
      SameRows(y.state.billing, ApplyWrites(s.billing, ws));
    }
  }

  /** The first write to a row, made on top of any mixture. */
  lemma FirstTouch(y: System, b: Billing, ws: seq<BillingWrite>, q: nat)
    requires NeverMisses(b, ws) && q < |ws| && !Touches(ws, q, KeyOf(ws[q])) && RowIsGood(y, b, ws, KeyOf(ws[q]))
    ensures Written(CellAt(y.state.billing, KeyOf(ws[q])), ws[q]) == At(b, ws, q + 1, KeyOf(ws[q]))
  {
    var k := KeyOf(ws[q]);
    var j: nat :| StandsAt(y, ws, k, j) && CellAt(y.state.billing, k) == At(b, ws, j, k);
    UntouchedRow(b, ws, q, k);
    if CellAt(b, k).Some? {
      assert ws[..0] == [];
      RowStays(b, ws, 0, j, k);
    }
    SameAfterWrite(b, ws, j, q);
  }

  lemma TouchesLast(ws: seq<BillingWrite>, q: nat, k: RowKey)
    requires 0 < q <= |ws|
    ensures Touches(ws, q, k) <==> Touches(ws, q - 1, k) || KeyOf(ws[q - 1]) == k
  {
  }

  /** The first `q` writes made on top of any mixture of points of the same writes. */
  lemma {:induction false} ReplayOnMixture(y: System, b: Billing, ws: seq<BillingWrite>, q: nat, k: RowKey)
    requires NeverMisses(b, ws) && RowIsGood(y, b, ws, k) && q <= |ws|
    ensures At(y.state.billing, ws, q, k) == if Touches(ws, q, k) then At(b, ws, q, k) else CellAt(y.state.billing, k)
  {
    if q == 0 {
      assert ws[..0] == [];
    } else {
      ReplayOnMixture(y, b, ws, q - 1, k);
      NextAt(y.state.billing, ws, q - 1, k);
      NextAt(b, ws, q - 1, k);
      TouchesLast(ws, q, k);
      if KeyOf(ws[q - 1]) == k && !Touches(ws, q - 1, k) {
        FirstTouch(y, b, ws, q - 1);
      }
    }
  }

  lemma TouchesMore(ws: seq<BillingWrite>, j: nat, k: RowKey)
    requires j <= |ws|
    ensures Touches(ws, j, k) ==> Touches(ws, |ws|, k)
  {
  }

  /** A row that no write touches is where it was, at whatever point it stands. */
  lemma UntouchedAnywhere(b: Billing, ws: seq<BillingWrite>, j: nat, k: RowKey)
    requires j <= |ws| && !Touches(ws, |ws|, k)
    ensures At(b, ws, j, k) == CellAt(b, k)
  {
    TouchesMore(ws, j, k);
    UntouchedRow(b, ws, j, k);
  }

  /**
   And if some of them have died on the way, wherever that was, then unless the event is already
   marked processed one more delivery brings the tables where one clean delivery would have.
   */
  lemma {:induction false} OverlapThenRedeliver(s: State, e: Event, xs: seq<Statement>)
    requires OnlyAbout(xs, e) && !AlreadyProcessed(Run(Start(s), xs).state, e)
    ensures Process(Run(Start(s), xs).state, e) == Process(s, e)
  {
    if AlreadyProcessed(s, e) {
      AllTurnedAway(s, e, xs);
    } else {
      var y, plan := Run(Start(s), xs), PlanOf(s.billing, e.payload);
      var ws := plan.writes;
      RunKeepsInv(s, e, xs);
      PlanIsStable(y, s.billing, e.payload);
      PlansNeverMiss(s.billing, e.payload);
      assert ws[..|ws|] == ws;
      forall k ensures CellAt(ApplyWrites(y.state.billing, ws), k) == CellAt(ApplyWrites(s.billing, ws), k) {
        assert RowIsGood(y, s.billing, ws, k);
        ReplayOnMixture(y, s.billing, ws, |ws|, k);
        if !Touches(ws, |ws|, k) {
          var j: nat :| StandsAt(y, ws, k, j) && CellAt(y.state.billing, k) == At(s.billing, ws, j, k);
          UntouchedAnywhere(s.billing, ws, j, k);
          UntouchedAnywhere(s.billing, ws, |ws|, k);
        }
      }
      WritesKeepKeys(s.billing, ws);
      WritesKeepKeys(y.state.billing, ws);
      SameRows(ApplyWrites(y.state.billing, ws), ApplyWrites(s.billing, ws));
      assert y.state.events[e.id := EventRow(e.kind, FinalStatus(plan))]
          == s.events[e.id := EventRow(e.kind, FinalStatus(plan))];
    }
  }

  // ---------------------------------------------------------------------------
  // PROCESSED while calls overlap
  // ---------------------------------------------------------------------------

  predicate IsProcessed(y: System, id: string) {
    id in y.state.events && y.state.events[id].status == Processed
  }

  /** No call about the event is in flight. */
  ghost predicate Quiet(y: System, id: string) {
    forall c :: c in y.calls ==> y.calls[c].e.id != id
  }

  /** A processed event with no call in flight stays processed, whatever is delivered and wherever calls die. */
  lemma {:induction false} ProcessedStaysWhenQuiet(y: System, xs: seq<Statement>, id: string)
    requires IsProcessed(y, id) && Quiet(y, id)
    ensures IsProcessed(Run(y, xs), id) && Quiet(Run(y, xs), id)
    ensures Run(y, xs).state.events[id] == y.state.events[id]
    decreases |xs|
  {
    if xs != [] {
      ProcessedStaysWhenQuiet(y, xs[..|xs| - 1], id);
    }
  }

  ghost predicate SomeLooked(y: System) {
    exists c :: c in y.calls && y.calls[c].stage == Looked
  }

  /** With no call left that has looked but not recorded, a processed event stays processed. */
  lemma StepKeepsProcessed(y: System, s: State, e: Event, x: Statement)
    requires CallsFollow(y, e, PlanOf(s.billing, e.payload)) && !PlanOf(s.billing, e.payload).throws
    requires IsProcessed(y, e.id) && !SomeLooked(y) && (x.LookUp? ==> x.e == e)
    ensures IsProcessed(Step(y, x), e.id) && !SomeLooked(Step(y, x))
  {
  }

  lemma {:induction false} RunKeepsProcessed(y: System, s: State, e: Event, zs: seq<Statement>)
    requires Inv(y, s, e) && !AlreadyProcessed(s, e) && OnlyAbout(zs, e)
    requires IsProcessed(y, e.id) && !SomeLooked(y)
    ensures Inv(Run(y, zs), s, e) && IsProcessed(Run(y, zs), e.id) && !SomeLooked(Run(y, zs))
    decreases |zs|
  {
    if zs != [] {
      var n := |zs| - 1;
      RunKeepsProcessed(y, s, e, zs[..n]);
      StepKeepsInv(Run(y, zs[..n]), s, e, zs[n]);
      TurnedAwayAfterAnswer(Run(y, zs[..n]), s, e);
      StepKeepsProcessed(Run(y, zs[..n]), s, e, zs[n]);
    }
  }

  /**
   After any interleaving of deliveries of one event that has marked it processed, the mark can still
   be lost if and only if some call looked the event up before and has not recorded it yet.
   */
  lemma {:induction false} ProcessedFallsBackExactly(s: State, e: Event, xs: seq<Statement>)
    requires !AlreadyProcessed(s, e) && OnlyAbout(xs, e) && IsProcessed(Run(Start(s), xs), e.id)
    ensures var y := Run(Start(s), xs);
            (exists zs :: OnlyAbout(zs, e) && !IsProcessed(Run(y, zs), e.id)) <==> SomeLooked(y)
  {
    var y := Run(Start(s), xs);
    RunKeepsInv(s, e, xs);
    if SomeLooked(y) {
      var c :| c in y.calls && y.calls[c].stage == Looked;
      var zs := [Record(c)];
      assert zs[..0] == [];
      assert OnlyAbout(zs, e) && !IsProcessed(Run(y, zs), e.id);
    } else {
      forall zs | OnlyAbout(zs, e) ensures IsProcessed(Run(y, zs), e.id) {
        RunKeepsProcessed(y, s, e, zs);
      }
    }
  }

  /** An event whose handler writes nothing, and two calls that have both looked it up. */
  const PING := Event("evt", "ping", Unhandled)

  lemma FirstRunsToEnd(y: System)
    requires y.calls == map[1 := InFlight(PING, Looked), 2 := InFlight(PING, Looked)]
    ensures var y' := Step(Step(Step(y, Record(1)), Decide(1)), Finish(1));
            IsProcessed(y', "evt") && y'.calls == map[2 := InFlight(PING, Looked)]
  {
    var y1 := Step(y, Record(1));
    assert y1.calls == map[1 := InFlight(PING, Recorded), 2 := InFlight(PING, Looked)];
    var y2 := Step(y1, Decide(1));
    assert y2.calls == map[1 := InFlight(PING, Writing(Plan([], false), 0)), 2 := InFlight(PING, Looked)];
  }

  /** Two calls look an event up, one of them runs to its end, and the other then marks it PROCESSING again. */
  lemma {:induction false} LateCallUndoesProcessed()
    ensures var xs := [LookUp(1, PING), LookUp(2, PING), Record(1), Decide(1), Finish(1)];
            var y := Run(Start(NothingPaid()), xs);
            IsProcessed(y, "evt") && !IsProcessed(Step(y, Record(2)), "evt")
  {
    var xs := [LookUp(1, PING), LookUp(2, PING), Record(1), Decide(1), Finish(1)];
    var start := Start(NothingPaid());
    forall i: nat | i < 5 ensures Run(start, xs[..i + 1]) == Step(Run(start, xs[..i]), xs[i]) {
      RunPrefix(start, xs, i);
    }
    assert xs[..0] == [] && xs[..5] == xs;
    var y := Run(start, xs[..2]);
    assert y == Step(Run(start, xs[..1]), xs[1]);
    assert Run(start, xs[..1]) == Step(start, xs[0]);
    FirstRunsToEnd(y);
  }

  lemma RunPrefix(y: System, xs: seq<Statement>, i: nat)
    requires i < |xs|
    ensures Run(y, xs[..i + 1]) == Step(Run(y, xs[..i]), xs[i])
  {
    assert xs[..i + 1][..i] == xs[..i];
  }
}
