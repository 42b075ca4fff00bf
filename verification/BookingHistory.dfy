/**
 What slots and sessions owe to the calls of a run (module Booking): each was asked for by a call
 that met every condition, and each such call made one.
 */
module BookingHistory {
  import opened Common
  import opened Histories
  import opened Booking

  /** The tables before call `i`. */
  function At(fields: map<Uid, Field>, ops: seq<Op>, i: nat): Tables
    requires i <= |ops|
  {
    Run(Start(fields), ops[..i])
  }

  lemma NextAt(fields: map<Uid, Field>, ops: seq<Op>, i: nat)
    requires i < |ops|
    ensures At(fields, ops, i + 1) == Step(At(fields, ops, i), ops[i]).0
  {
    assert ops[..i + 1][..i] == ops[..i];
  }

  lemma {:induction false} FieldsStay(fields: map<Uid, Field>, ops: seq<Op>)
    ensures Run(Start(fields), ops).fields == fields
    decreases |ops|
  {
    if ops != [] {
      FieldsStay(fields, ops[..|ops| - 1]);
    }
  }

  /** Not past, in order, and a whole number of weeks apart in days. */
  predicate TimesAreGood(start: int, end: int, now: int) {
    now <= start <= end && (end / 86400000 - start / 86400000) % 7 == 0
  }

  /** The partner of the field adds a slot that is not there yet. */
  predicate MayAddSlot(t: Tables, slot: Uid, field: Uid, partner: Uid, start: int, end: int, now: int) {
    && field in t.fields && t.fields[field].partner == partner && TimesAreGood(start, end, now) && slot !in t.slots
    && forall s :: s in t.slots && t.slots[s].field == field ==> !(t.slots[s].start == start && t.slots[s].end == end)
  }

  /** On a private field: a free slot at these very times, and no session of the field in the way. */
  predicate SlotIsFree(t: Tables, r: Request) {
    && r.slot.Some? && r.slot.value in t.slots && !t.slots[r.slot.value].isReserved
    && t.slots[r.slot.value].start == r.start && t.slots[r.slot.value].end == r.end
    && forall s :: s in t.sessions && t.sessions[s].field == r.field ==>
         t.sessions[s].end <= r.start || r.end <= t.sessions[s].start
  }

  /** The field offers the sport, the times are good, and what a private field asks for is there. */
  predicate MayBook(t: Tables, r: Request, now: int) {
    && r.field in t.fields && r.sport in t.fields[r.field].sports && TimesAreGood(r.start, r.end, now)
    && (t.fields[r.field].kind == Private ==> SlotIsFree(t, r)) && r.session !in t.sessions
  }

  predicate AddsSlot(t: Tables, op: Op, slot: Uid, field: Uid, start: int, end: int) {
    && op.NewSlot? && op.slot == slot && op.field == field && op.start == start && op.end == end
    && MayAddSlot(t, slot, field, op.partner, start, end, op.now)
  }

  predicate Books(t: Tables, op: Op, s: Uid, row: Session) {
    && op.NewSession? && op.request.session == s && MayBook(t, op.request, op.now)
    && row == Session(op.request.field, op.request.start, op.request.end,
                      if t.fields[op.request.field].kind == Private then op.request.slot else None)
  }

  lemma TimesExactly(start: int, end: int, now: int)
    ensures CheckTimes(start, end, now) == Ok <==> TimesAreGood(start, end, now)
  {
    SameDayExactly(start, end, now);
  }

  lemma CheckSlotExactly(t: Tables, r: Request)
    ensures CheckSlot(t, r) == Ok <==> SlotIsFree(t, r)
  {
  }

  /** Which calls are accepted. */
  lemma {:induction false} AnswersExactly(fields: map<Uid, Field>, ops: seq<Op>, op: Op)
    ensures var t := Run(Start(fields), ops);
            Step(t, op).1 == Ok <==>
            match op
            case NewSlot(slot, field, partner, start, end, now) => MayAddSlot(t, slot, field, partner, start, end, now)
            case NewSession(r, now) => MayBook(t, r, now)
  {
    Accepted(Run(Start(fields), ops), op);
  }

  lemma Accepted(t: Tables, op: Op)
    ensures Step(t, op).1 == Ok <==>
            match op
            case NewSlot(slot, field, partner, start, end, now) => MayAddSlot(t, slot, field, partner, start, end, now)
            case NewSession(r, now) => MayBook(t, r, now)
  {
    match op
    case NewSlot(_, _, _, start, end, now) => TimesExactly(start, end, now);
    case NewSession(r, now) =>
      TimesExactly(r.start, r.end, now);
      CheckSlotExactly(t, r);
  }

  /** The error names the first of the conditions that fails, in the order in which they are looked at. */
  lemma {:induction false} ErrorsInOrder(fields: map<Uid, Field>, ops: seq<Op>, r: Request, now: int)
    ensures var t := Run(Start(fields), ops);
            var result := Step(t, NewSession(r, now)).1;
            if r.field !in fields then result == Err(FieldNotFound)
            else if r.sport !in fields[r.field].sports then result == Err(SportNotAvailable)
            else if fields[r.field].kind == Private && r.slot == None then result == Err(SlotRequired)
            else if r.start < now then result == Err(InThePast)
            else if r.end < r.start then result == Err(EndsBeforeStart)
            else if (r.end / 86400000 - r.start / 86400000) % 7 != 0 then result == Err(NotSameDay)
            else if fields[r.field].kind == Private && r.slot.value !in t.slots then result == Err(SlotNotFound)
            else if fields[r.field].kind == Private && t.slots[r.slot.value].isReserved then result == Err(SlotReserved)
            else if fields[r.field].kind == Private
                    && !(t.slots[r.slot.value].start == r.start && t.slots[r.slot.value].end == r.end)
            then result == Err(SlotAtOtherTime)
            else if fields[r.field].kind == Private && !SlotIsFree(t, r) then result == Err(Conflict)
            else if r.session in t.sessions then result == Err(UidTaken)
            else result == Ok
  {
    FieldsStay(fields, ops);
    TimesExactly(r.start, r.end, now);
    CheckSlotExactly(Run(Start(fields), ops), r);
  }

  predicate IsSlot(t: Tables, slot: Uid, field: Uid, start: int, end: int) {
    slot in t.slots && t.slots[slot].field == field && t.slots[slot].start == start && t.slots[slot].end == end
  }

  lemma StepMovesSlot(t: Tables, op: Op, slot: Uid, field: Uid, start: int, end: int)
    ensures IsSlot(Step(t, op).0, slot, field, start, end) <==>
            AddsSlot(t, op, slot, field, start, end) || IsSlot(t, slot, field, start, end)
  {
    Accepted(t, op);
  }

  lemma StepMovesSession(t: Tables, op: Op, s: Uid, row: Session)
    ensures var t' := Step(t, op).0;
            (s in t'.sessions && t'.sessions[s] == row) <==>
            Books(t, op, s, row) || (s in t.sessions && t.sessions[s] == row)
  {
    Accepted(t, op);
  }

  function SlotAdded(fields: map<Uid, Field>, ops: seq<Op>, slot: Uid, field: Uid, start: int, end: int): nat -> bool {
    (i: nat) => i < |ops| && AddsSlot(At(fields, ops, i), ops[i], slot, field, start, end)
  }

  function SessionBooked(fields: map<Uid, Field>, ops: seq<Op>, s: Uid, row: Session): nat -> bool {
    (i: nat) => i < |ops| && Books(At(fields, ops, i), ops[i], s, row)
  }

  /** The slots of a field are those its partner added. */
  lemma {:induction false} SlotExactly(fields: map<Uid, Field>, ops: seq<Op>, n: nat, slot: Uid, field: Uid, start: int,
                                       end: int)
    requires n <= |ops|
    ensures IsSlot(At(fields, ops, n), slot, field, start, end)
            <==> Once(n, SlotAdded(fields, ops, slot, field, start, end))
  {
    if n > 0 {
      SlotExactly(fields, ops, n - 1, slot, field, start, end);
      NextAt(fields, ops, n - 1);
      StepMovesSlot(At(fields, ops, n - 1), ops[n - 1], slot, field, start, end);
      OnceNext(n - 1, SlotAdded(fields, ops, slot, field, start, end));
    }
  }

  /** The sessions are those that were asked for when they could be booked, with field, times and slot as asked. */
  lemma {:induction false} SessionExactly(fields: map<Uid, Field>, ops: seq<Op>, n: nat, s: Uid, row: Session)
    requires n <= |ops|
    ensures var t := At(fields, ops, n);
            (s in t.sessions && t.sessions[s] == row) <==> Once(n, SessionBooked(fields, ops, s, row))
  {
    if n > 0 {
      SessionExactly(fields, ops, n - 1, s, row);
      NextAt(fields, ops, n - 1);
      StepMovesSession(At(fields, ops, n - 1), ops[n - 1], s, row);
      OnceNext(n - 1, SessionBooked(fields, ops, s, row));
    }
  }
}
