/**
 Field slots and the sessions booked on them (src/sessions/services/sessions.service.ts, `create`,
 src/fields/services/field-slots.service.ts).  Creating a session is one step, from its checks to
 the marking of the slot.  Instants are milliseconds.
 */
module Booking {
  import opened Common

  datatype FieldType = Public | Private

  datatype Field = Field(kind: FieldType, partner: Uid, sports: set<string>)

  datatype Slot = Slot(field: Uid, start: int, end: int, isReserved: bool)

  datatype Session = Session(field: Uid, start: int, end: int, slot: Option<Uid>)

  /** Fields, which no step changes, and the slots and sessions by uid. */
  datatype Tables = Tables(fields: map<Uid, Field>, slots: map<Uid, Slot>, sessions: map<Uid, Session>)

  datatype Error =
    | FieldNotFound | SportNotAvailable | SlotRequired | InThePast | EndsBeforeStart | NotSameDay
    | SlotNotFound | SlotReserved | SlotAtOtherTime | Conflict | NotAllowed | SlotExists | UidTaken

  datatype Result = Ok | Err(error: Error)

  datatype Request = Request(session: Uid, field: Uid, sport: string, slot: Option<Uid>, start: int, end: int)

  // ---------------------------------------------------------------------------
  // Checks
  // ---------------------------------------------------------------------------

  /** `checkValidityForCreation`; "the same day" is tested by weekday. */
  function CheckTimes(start: int, end: int, now: int): Result {
    if start < now then Err(InThePast)
    else if end < start then Err(EndsBeforeStart)
    else if Weekday(start) != Weekday(end) then Err(NotSameDay)
    else Ok
  }

  predicate Overlaps(s: Session, start: int, end: int) {
    s.end > start && s.start < end
  }

  /** The extra checks on a private field. */
  function CheckSlot(t: Tables, r: Request): Result {
    if r.slot.None? || r.slot.value !in t.slots then Err(SlotNotFound)
    else
      var slot := t.slots[r.slot.value];
      if slot.isReserved then Err(SlotReserved)
      else if slot.start != r.start || slot.end != r.end then Err(SlotAtOtherTime)
      else if exists s :: s in t.sessions && t.sessions[s].field == r.field && Overlaps(t.sessions[s], r.start, r.end)
      then Err(Conflict)
      else Ok
  }

  function CheckRequest(t: Tables, r: Request, now: int): Result {
    if r.field !in t.fields then Err(FieldNotFound)
    else
      var field := t.fields[r.field];
      if r.sport !in field.sports then Err(SportNotAvailable)
      else if field.kind == Private && r.slot.None? then Err(SlotRequired)
      else if CheckTimes(r.start, r.end, now) != Ok then CheckTimes(r.start, r.end, now)
      else if field.kind == Private && CheckSlot(t, r) != Ok then CheckSlot(t, r)
      else if r.session in t.sessions then Err(UidTaken)
      else Ok
  }

  // ---------------------------------------------------------------------------
  // Steps
  // ---------------------------------------------------------------------------

  /** A session on a private field takes its slot; one on a public field keeps no slot. */
  function AfterCreate(t: Tables, r: Request): Tables
    requires r.field in t.fields
    requires t.fields[r.field].kind == Private ==> r.slot.Some? && r.slot.value in t.slots
  {
    if t.fields[r.field].kind == Private then
      var slot := t.slots[r.slot.value];
      t.(sessions := t.sessions[r.session := Session(r.field, r.start, r.end, r.slot)],
         slots := t.slots[r.slot.value := slot.(isReserved := true)])
    else t.(sessions := t.sessions[r.session := Session(r.field, r.start, r.end, None)])
  }

  function CheckNewSlot(t: Tables, field: Uid, partner: Uid, slot: Uid, start: int, end: int, now: int): Result {
    if field !in t.fields then Err(FieldNotFound)
    else if t.fields[field].partner != partner then Err(NotAllowed)
    else if CheckTimes(start, end, now) != Ok then CheckTimes(start, end, now)
    else if exists s :: s in t.slots && t.slots[s].field == field && t.slots[s].start == start && t.slots[s].end == end
    then Err(SlotExists)
    else if slot in t.slots then Err(UidTaken)
    else Ok
  }

  datatype Op =
    | NewSlot(slot: Uid, field: Uid, partner: Uid, start: int, end: int, now: int)
    | NewSession(request: Request, now: int)

  function Step(t: Tables, op: Op): (Tables, Result) {
    match op
    case NewSlot(slot, field, partner, start, end, now) =>
      var result := CheckNewSlot(t, field, partner, slot, start, end, now);
      (if result == Ok then t.(slots := t.slots[slot := Slot(field, start, end, false)]) else t, result)
    case NewSession(r, now) =>
      var result := CheckRequest(t, r, now);
      (if result == Ok then AfterCreate(t, r) else t, result)
  }

  function Run(t: Tables, ops: seq<Op>): Tables
    decreases |ops|
  {
    if ops == [] then t else Step(Run(t, ops[..|ops| - 1]), ops[|ops| - 1]).0
  }

  function Start(fields: map<Uid, Field>): Tables {
    Tables(fields, map[], map[])
  }

  // ---------------------------------------------------------------------------
  // The services
  // ---------------------------------------------------------------------------

  class BookingStore {
    const fields: map<Uid, Field>
    var slots: map<Uid, Slot>
    var sessions: map<Uid, Session>

    constructor (fields: map<Uid, Field>)
      ensures Contents() == Start(fields)
    {
      this.fields := fields;
      slots, sessions := map[], map[];
    }

    function Contents(): Tables
      reads this
    {
      Tables(fields, slots, sessions)
    }

    method CreateSlot(slot: Uid, field: Uid, partner: Uid, start: int, end: int, now: int) returns (result: Result)
      modifies this
      ensures (Contents(), result) == Step(old(Contents()), NewSlot(slot, field, partner, start, end, now))
    {
      if field !in fields {
        return Err(FieldNotFound);
      }
      if fields[field].partner != partner {
        return Err(NotAllowed);
      }
      if CheckTimes(start, end, now) != Ok {
        return CheckTimes(start, end, now);
      }
      if exists s :: s in slots && slots[s].field == field && slots[s].start == start && slots[s].end == end {
        return Err(SlotExists);
      }
      if slot in slots {
        return Err(UidTaken);
      }
      slots := slots[slot := Slot(field, start, end, false)];
      return Ok;
    }

    /** `update` of the flag; throws when there is no such slot. */
    method MarkAsReserved(slot: Uid) returns (ok: bool)
      modifies this
      ensures sessions == old(sessions)
      ensures ok == (slot in old(slots))
      ensures slots == if ok then old(slots)[slot := old(slots)[slot].(isReserved := true)] else old(slots)
    {
      if slot !in slots {
        return false;
      }
      slots := slots[slot := slots[slot].(isReserved := true)];
      return true;
    }

    method CreateSession(r: Request, now: int) returns (result: Result)
      modifies this
      ensures (Contents(), result) == Step(old(Contents()), NewSession(r, now))
    {
      if r.field !in fields {
        return Err(FieldNotFound);
      }
      var field := fields[r.field];
      if r.sport !in field.sports {
        return Err(SportNotAvailable);
      }
      if field.kind == Private && r.slot.None? {
        return Err(SlotRequired);
      }
      if CheckTimes(r.start, r.end, now) != Ok {
        return CheckTimes(r.start, r.end, now);
      }
      var existingSlot := None;
      if field.kind == Private {
        if r.slot.value !in slots {
          return Err(SlotNotFound);
        }
        existingSlot := r.slot;
        var slot := slots[r.slot.value];
        if slot.isReserved {
          return Err(SlotReserved);
        }
        if !(slot.start == r.start && slot.end == r.end) {
          return Err(SlotAtOtherTime);
        }
        if exists s :: s in sessions && sessions[s].end > r.start && sessions[s].field == r.field
                       && sessions[s].start < r.end {
          assert exists s :: s in sessions && sessions[s].field == r.field && Overlaps(sessions[s], r.start, r.end);
          return Err(Conflict);
        }
      }
      if r.session in sessions {
        return Err(UidTaken);
      }
      sessions := sessions[r.session := Session(r.field, r.start, r.end, existingSlot)];
      if field.kind == Private {
        var marked := MarkAsReserved(r.slot.value);
        assert marked;
      }
      return Ok;
    }
  }

  /**
   Times are accepted exactly if they are not in the past, in order and on days a whole number of
   weeks apart; the error message asks for the same day, which holds iff they are less than a day apart.
   */
  lemma {:induction false} SameDayExactly(start: int, end: int, now: int)
    ensures CheckTimes(start, end, now) == Ok <==> now <= start <= end && (Day(end) - Day(start)) % 7 == 0
    ensures CheckTimes(start, end, now) == Ok ==> (Day(start) == Day(end) <==> end - start < DAY_MS)
  {
    if CheckTimes(start, end, now) == Ok {
      assert Day(end) - Day(start) >= 0;
    }
  }

  /** A session that starts at noon and ends at one o'clock a week later is created. */
  lemma {:induction false} WeekLongSession()
    ensures var fields := map["f" := Field(Public, "p", {"TENNIS"})];
            var noon := 12 * 3600000;
            var op := NewSession(Request("s", "f", "TENNIS", None, noon, noon + 7 * DAY_MS + 3600000), 0);
            var t := Run(Start(fields), [op]);
            "s" in t.sessions && Day(t.sessions["s"].end) == Day(t.sessions["s"].start) + 7
  {
    var fields := map["f" := Field(Public, "p", {"TENNIS"})];
    var noon := 12 * 3600000;
    var op := NewSession(Request("s", "f", "TENNIS", None, noon, noon + 7 * DAY_MS + 3600000), 0);
    assert [op][..0] == [];
    assert CheckTimes(noon, noon + 7 * DAY_MS + 3600000, 0) == Ok;
  }

  // ---------------------------------------------------------------------------
  // Invariants of every run
  // ---------------------------------------------------------------------------

  predicate OnPrivateField(t: Tables, s: Uid)
    requires s in t.sessions
  {
    t.sessions[s].field in t.fields && t.fields[t.sessions[s].field].kind == Private
  }

  /** Sessions on the same private field never overlap. */
  ghost predicate PrivateFieldsAreExclusive(t: Tables) {
    forall a, b :: a in t.sessions && b in t.sessions && a != b
                   && t.sessions[a].field == t.sessions[b].field && OnPrivateField(t, a) ==>
                     !Overlaps(t.sessions[a], t.sessions[b].start, t.sessions[b].end)
  }

  /** A session has a slot iff it is on a private field; the slot is reserved and has its times. */
  ghost predicate SessionsHoldSlots(t: Tables) {
    && (forall s :: s in t.sessions ==> (t.sessions[s].slot.Some? <==> OnPrivateField(t, s)))
    && (forall s :: s in t.sessions && t.sessions[s].slot.Some? ==>
          var slot := t.sessions[s].slot.value;
          slot in t.slots && t.slots[slot].isReserved
          && t.slots[slot].start == t.sessions[s].start && t.slots[slot].end == t.sessions[s].end)
  }

  /** No slot backs two sessions. */
  ghost predicate SlotsAreNotShared(t: Tables) {
    forall a, b :: a in t.sessions && b in t.sessions && t.sessions[a].slot.Some? && a != b ==>
      t.sessions[a].slot != t.sessions[b].slot
  }

  /** A reserved slot backs a session. */
  ghost predicate ReservedSlotsAreUsed(t: Tables) {
    forall slot :: slot in t.slots && t.slots[slot].isReserved ==>
      exists s :: s in t.sessions && t.sessions[s].slot == Some(slot)
  }

  ghost predicate SlotsMatchSessions(t: Tables) {
    SessionsHoldSlots(t) && SlotsAreNotShared(t) && ReservedSlotsAreUsed(t)
  }

  lemma StepKeepsExclusive(t: Tables, op: Op)
    requires PrivateFieldsAreExclusive(t)
    ensures PrivateFieldsAreExclusive(Step(t, op).0)
    ensures Step(t, op).0.fields == t.fields
  {
  }

  lemma StepKeepsSlotsHeld(t: Tables, op: Op)
    requires SessionsHoldSlots(t) && SlotsAreNotShared(t)
    ensures SessionsHoldSlots(Step(t, op).0) && SlotsAreNotShared(Step(t, op).0)
  {
  }

  lemma StepKeepsReservedUsed(t: Tables, op: Op)
    requires ReservedSlotsAreUsed(t)
    ensures ReservedSlotsAreUsed(Step(t, op).0)
  {
    var t' := Step(t, op).0;
    forall slot | slot in t'.slots && t'.slots[slot].isReserved
      ensures exists s :: s in t'.sessions && t'.sessions[s].slot == Some(slot)
    {
      if slot in t.slots && t.slots[slot].isReserved {
        var s :| s in t.sessions && t.sessions[s].slot == Some(slot);
        assert t'.sessions[s].slot == Some(slot);
      } else {
        assert t'.sessions[op.request.session].slot == Some(slot);
      }
    }
  }

  lemma {:induction false} Reachable(fields: map<Uid, Field>, ops: seq<Op>)
    ensures PrivateFieldsAreExclusive(Run(Start(fields), ops))
    ensures SlotsMatchSessions(Run(Start(fields), ops))
    decreases |ops|
  {
    if ops != [] {
      var t := Run(Start(fields), ops[..|ops| - 1]);
      Reachable(fields, ops[..|ops| - 1]);
      StepKeepsExclusive(t, ops[|ops| - 1]);
      StepKeepsSlotsHeld(t, ops[|ops| - 1]);
      StepKeepsReservedUsed(t, ops[|ops| - 1]);
    }
  }

  /**
   Over every run, no instant belongs to two sessions on one private field, although its slots may
   overlap.
   */
  lemma {:induction false} NoInstantIsBookedTwice(fields: map<Uid, Field>, ops: seq<Op>, a: Uid, b: Uid, instant: int)
    requires var t := Run(Start(fields), ops);
             && a in t.sessions && b in t.sessions
             && t.sessions[a].field == t.sessions[b].field && OnPrivateField(t, a)
             && t.sessions[a].start <= instant < t.sessions[a].end
             && t.sessions[b].start <= instant < t.sessions[b].end
    ensures a == b
  {
    Reachable(fields, ops);
  }

  /**
   Over every run, a slot is reserved exactly when a session refers to it, that session is the only
   one, and it has the slot's times.
   */
  lemma {:induction false} ReservedIffOneSession(fields: map<Uid, Field>, ops: seq<Op>, slot: Uid)
    requires slot in Run(Start(fields), ops).slots
    ensures var t := Run(Start(fields), ops);
            && (t.slots[slot].isReserved <==> exists s :: s in t.sessions && t.sessions[s].slot == Some(slot))
            && (forall s :: s in t.sessions && t.sessions[s].slot == Some(slot) ==>
                  && t.sessions[s].start == t.slots[slot].start && t.sessions[s].end == t.slots[slot].end
                  && forall s' :: s' in t.sessions && t.sessions[s'].slot == Some(slot) ==> s' == s)
  {
    Reachable(fields, ops);
  }

  /** Slots of one field may overlap: only the exact same times are refused. */
  lemma SlotsMayOverlap()
    ensures exists fields: map<Uid, Field>, ops: seq<Op>, a: Uid, b: Uid ::
              var t := Run(Start(fields), ops);
              a in t.slots && b in t.slots && a != b && t.slots[a].field == t.slots[b].field
              && t.slots[a].start < t.slots[b].end && t.slots[b].start < t.slots[a].end
  {
    var fields := map["f" := Field(Private, "p", {"TENNIS"})];
    var op1, op2 := NewSlot("a", "f", "p", 0, 7200000, 0), NewSlot("b", "f", "p", 3600000, 10800000, 0);
    var t1 := Step(Start(fields), op1).0;
    TwoSteps(Start(fields), op1, op2);
    var t := Step(t1, op2).0;
    assert "a" in t.slots && "b" in t.slots;
  }

  lemma TwoSteps(t: Tables, op1: Op, op2: Op)
    ensures Run(t, [op1, op2]) == Step(Step(t, op1).0, op2).0
  {
    var ops := [op1, op2];
    assert ops[..1] == [op1] && ops[|ops| - 1] == op2;
    assert [op1][..0] == [];
    assert Run(t, [op1]) == Step(t, op1).0;
  }

  /** Every session with a slot is on the field of that slot. */
  ghost predicate SlotFieldsAgree(t: Tables) {
    forall s :: s in t.sessions && t.sessions[s].slot.Some? && t.sessions[s].slot.value in t.slots ==>
      t.slots[t.sessions[s].slot.value].field == t.sessions[s].field
  }

  /** If the step books a private field, it names a slot of that field. */
  ghost predicate NamesOwnSlot(t: Tables, op: Op) {
    op.NewSession? && Step(t, op).1 == Ok && t.fields[op.request.field].kind == Private ==>
      t.slots[op.request.slot.value].field == op.request.field
  }

  /** Every booking of the run that is accepted names a slot of its own field. */
  ghost predicate AllNameOwnSlots(t: Tables, ops: seq<Op>)
    decreases |ops|
  {
    ops == [] || (AllNameOwnSlots(t, ops[..|ops| - 1]) && NamesOwnSlot(Run(t, ops[..|ops| - 1]), ops[|ops| - 1]))
  }

  /**
   The checks never compare the slot's own field with the field of the request, so a session on one
   private field can take a slot of another.  Over a run, all sessions are on their slots' fields
   exactly when every booking that was accepted named a slot of its own field.
   */
  lemma {:induction false} SlotFieldsAgreeExactly(fields: map<Uid, Field>, ops: seq<Op>)
    ensures SlotFieldsAgree(Run(Start(fields), ops)) <==>
            AllNameOwnSlots(Start(fields), ops)
    decreases |ops|
  {
    if ops != [] {
      var n := |ops| - 1;
      var before := ops[..n];
      SlotFieldsAgreeExactly(fields, before);
      Reachable(fields, before);
      StepSlotFieldsAgree(Run(Start(fields), before), ops[n]);
    }
  }

  lemma StepSlotFieldsAgree(t: Tables, op: Op)
    requires SlotsMatchSessions(t)
    ensures SlotFieldsAgree(Step(t, op).0) <==> SlotFieldsAgree(t) && NamesOwnSlot(t, op)
  {
    var t' := Step(t, op).0;
    if Step(t, op).1 == Ok {
      forall s | s in t.sessions ensures t'.sessions[s] == t.sessions[s] {
      }
      forall slot | slot in t.slots ensures t'.slots[slot].field == t.slots[slot].field {
      }
      if op.NewSession? && t.fields[op.request.field].kind == Private {
        assert t'.sessions[op.request.session].slot == op.request.slot;
      }
    }
  }

  /** A session on a slot of another field does occur. */
  lemma SlotOfAnotherField()
    ensures exists fields: map<Uid, Field>, ops: seq<Op>, s: Uid ::
              var t := Run(Start(fields), ops);
              s in t.sessions && t.sessions[s].slot.Some? && t.sessions[s].slot.value in t.slots
              && t.slots[t.sessions[s].slot.value].field != t.sessions[s].field
  {
    var fields := map["f" := Field(Private, "p", {"TENNIS"}), "g" := Field(Private, "p", {"TENNIS"})];
    var op1 := NewSlot("a", "f", "p", 0, 7200000, 0);
    var op2 := NewSession(Request("s", "g", "TENNIS", Some("a"), 0, 7200000), 0);
    var t1 := Step(Start(fields), op1).0;
    TwoSteps(Start(fields), op1, op2);
    var t := Step(t1, op2).0;
    assert "s" in t.sessions && t.sessions["s"].slot == Some("a");
  }
}
