/**
 Hour preferences (src/user-preferences/services/hour-preferences.service.ts): normalisation of a
 submitted list, storage, the read filter, and the predicate the session ranking gives to the list
 (src/sessions/services/sessions.service.ts, src/shared/utils/date.utils.ts).

 Instants are milliseconds since 1970-01-01T00:00Z, a Thursday.
 */
module HourPreferences {
  import opened Common
  import Sieve

  datatype Kind = Recurrent | OneTime

  datatype Period = Morning | Afternoon | Evening

  /** A date that is not there, one `new Date` cannot read, or an instant. */
  datatype DateField = Absent | Invalid | At(ms: int)

  datatype Pref = Pref(kind: Kind, dayOfWeek: Option<int>, period: Period, date: DateField)

  // ---------------------------------------------------------------------------
  // Meaning: which session starts a list matches
  // ---------------------------------------------------------------------------

  const HOUR_MS: int := 3600000

  function Hour(ms: int): int {
    ms % DAY_MS / HOUR_MS
  }

  function HoursOf(p: Period): (int, int) {
    match p
    case Morning => (9, 12)
    case Afternoon => (12, 17)
    case Evening => (17, 22)
  }

  /** The condition one preference contributes to the ranking query. */
  predicate Matches(p: Pref, start: int) {
    && HoursOf(p.period).0 <= Hour(start) < HoursOf(p.period).1
    && match p.kind
       case Recurrent => p.dayOfWeek == Some(Weekday(start))
       case OneTime => p.date.At? && Day(p.date.ms) == Day(start)
  }

  predicate AnyMatches(ps: seq<Pref>, start: int) {
    exists p :: p in ps && Matches(p, start)
  }

  /** The periods are 9 to 12, 12 to 17 and 17 to 22; days of the week count from Sunday, 0. */
  lemma {:induction false} MatchesExactly(p: Pref, start: int)
    ensures var (day, hour) := (start / 86400000, start % 86400000 / 3600000);
            Matches(p, start) <==>
            && (p.period == Morning ==> 9 <= hour <= 11)
            && (p.period == Afternoon ==> 12 <= hour <= 16)
            && (p.period == Evening ==> 17 <= hour <= 21)
            && (p.kind == Recurrent ==> p.dayOfWeek == Some((day + 4) % 7))
            && (p.kind == OneTime ==> p.date.At? && p.date.ms / 86400000 == day)
  {
  }

  // ---------------------------------------------------------------------------
  // Normalisation
  // ---------------------------------------------------------------------------

  predicate SameRecurrent(v: Pref, p: Pref) {
    v.kind == p.kind == Recurrent && v.dayOfWeek == p.dayOfWeek && v.period == p.period
  }

  predicate CoveredBy(v: Pref, p: Pref) {
    && v.kind == Recurrent && p.kind == OneTime && p.date.At?
    && v.dayOfWeek == Some(Weekday(p.date.ms)) && v.period == p.period
  }

  predicate SameOneTime(v: Pref, p: Pref) {
    v.kind == p.kind == OneTime && v.date.At? && p.date.At? && v.date.ms == p.date.ms && v.period == p.period
  }

  /** `v`, already kept, makes `p` redundant. */
  predicate Covers(v: Pref, p: Pref) {
    SameRecurrent(v, p) || CoveredBy(v, p) || SameOneTime(v, p)
  }

  predicate Redundant(valid: seq<Pref>, p: Pref) {
    Sieve.Redundant(valid, p, Covers)
  }

  function OfKind(ps: seq<Pref>, k: Kind): seq<Pref>
    decreases |ps|
  {
    if ps == [] then []
    else
      var n := |ps| - 1;
      OfKind(ps[..n], k) + if ps[n].kind == k then [ps[n]] else []
  }

  /** The stable sort that puts RECURRENT first. */
  function Sorted(ps: seq<Pref>): seq<Pref> {
    OfKind(ps, Recurrent) + OfKind(ps, OneTime)
  }

  function Validate(ps: seq<Pref>): seq<Pref> {
    Sieve.Keep(Sorted(ps), Covers)
  }

  /** `validateHourPreferences`. */
  method ValidateHourPreferences(prefs: seq<Pref>) returns (valid: seq<Pref>)
    ensures valid == Validate(prefs)
  {
    valid := [];
    var sorted := Sorted(prefs);
    for i := 0 to |sorted|
      invariant valid == Sieve.Keep(sorted[..i], Covers)
    {
      var p := sorted[i];
      assert sorted[..i + 1][..i] == sorted[..i];
      if p.kind == Recurrent {
        if !exists v :: v in valid && SameRecurrent(v, p) {
          valid := valid + [p];
        }
      } else {
        if exists v :: v in valid && CoveredBy(v, p) {
          assert Redundant(valid, p);
          continue;
        }
        if !exists v :: v in valid && SameOneTime(v, p) {
          valid := valid + [p];
        }
      }
    }
    assert sorted[..|sorted|] == sorted;
  }

  // ---------------------------------------------------------------------------
  // What the loop keeps
  // ---------------------------------------------------------------------------

  /** No ONE_TIME entry stands before a RECURRENT one. */
  ghost predicate RecurrentFirst(q: seq<Pref>) {
    forall i, j :: 0 <= i < j < |q| ==> KindsInOrder(q[i], q[j])
  }

  predicate KindsInOrder(a: Pref, b: Pref) {
    b.kind == Recurrent ==> a.kind == Recurrent
  }

  lemma {:induction false} OfKindMembers(ps: seq<Pref>, k: Kind)
    ensures forall p :: p in OfKind(ps, k) <==> p in ps && p.kind == k
    decreases |ps|
  {
    if ps != [] {
      var n := |ps| - 1;
      OfKindMembers(ps[..n], k);
      assert ps == ps[..n] + [ps[n]];
    }
  }

  lemma {:induction false} OfKindAppend(a: seq<Pref>, b: seq<Pref>, k: Kind)
    ensures OfKind(a + b, k) == OfKind(a, k) + OfKind(b, k)
    decreases |b|
  {
    if b == [] {
      assert a + b == a;
    } else {
      assert (a + b)[..|a + b| - 1] == a + b[..|b| - 1];
      OfKindAppend(a, b[..|b| - 1], k);
    }
  }

  /** A list of one kind is left alone by its own filter and emptied by the other. */
  lemma {:induction false} OfKindUniform(q: seq<Pref>, k: Kind, l: Kind)
    requires forall p :: p in q ==> p.kind == l
    ensures OfKind(q, k) == if k == l then q else []
    decreases |q|
  {
    if q != [] {
      var n := |q| - 1;
      assert q == q[..n] + [q[n]];
      OfKindUniform(q[..n], k, l);
    }
  }

  /** The sort is stable: it orders by kind and leaves the entries of one kind in their order. */
  lemma SortedIsStableSort(ps: seq<Pref>)
    ensures RecurrentFirst(Sorted(ps))
    ensures forall p :: p in Sorted(ps) <==> p in ps
    ensures forall k :: OfKind(Sorted(ps), k) == OfKind(ps, k)
  {
    var a, b, s := OfKind(ps, Recurrent), OfKind(ps, OneTime), Sorted(ps);
    OfKindMembers(ps, Recurrent);
    OfKindMembers(ps, OneTime);
    forall i, j | 0 <= i < j < |s| && s[j].kind == Recurrent ensures s[i].kind == Recurrent {
      assert s[j] !in b && s[i] in a;
    }
    forall k ensures OfKind(s, k) == OfKind(ps, k) {
      OfKindAppend(a, b, k);
      OfKindUniform(a, k, Recurrent);
      OfKindUniform(b, k, OneTime);
    }
  }

  lemma {:induction false} SortedOfSorted(q: seq<Pref>)
    requires RecurrentFirst(q)
    ensures Sorted(q) == q
    decreases |q|
  {
    if q != [] {
      var n := |q| - 1;
      if q[n].kind == Recurrent {
        forall p | p in q ensures p.kind == Recurrent {
          var i :| 0 <= i < |q| && q[i] == p;
          assert i < n ==> KindsInOrder(q[i], q[n]);
        }
        OfKindUniform(q, Recurrent, Recurrent);
        OfKindUniform(q, OneTime, Recurrent);
      } else {
        SortedOfSorted(q[..n]);
        assert q == q[..n] + [q[n]];
        assert OfKind(q, OneTime) == OfKind(q[..n], OneTime) + [q[n]];
        assert Sorted(q) == Sorted(q[..n]) + [q[n]];
      }
    }
  }

  lemma ValidatedIsRecurrentFirst(ps: seq<Pref>)
    ensures RecurrentFirst(Validate(ps))
  {
    SortedIsStableSort(ps);
    Sieve.KeepKeepsOrder(Sorted(ps), Covers, KindsInOrder);
  }

  /**
   The validated list is canonical: no two recurrent entries with the same day and period, no dated
   one-time entry covered by a kept recurrent one, no two one-time entries with the same instant
   and period.
   */
  lemma {:induction false} ValidatedIsCanonical(ps: seq<Pref>)
    ensures var q := Validate(ps);
            && (forall v :: v in q ==> v in ps)
            && (forall i, j :: 0 <= i < j < |q| ==> !SameRecurrent(q[i], q[j]) && !SameOneTime(q[i], q[j]))
            && (forall v, p :: v in q && p in q ==> !CoveredBy(v, p))
  {
    SortedIsStableSort(ps);
    ValidatedIsRecurrentFirst(ps);
    Sieve.KeepIsIrredundant(Sorted(ps), Covers);
    var q := Validate(ps);
    forall i, j | 0 <= i < j < |q| ensures !Covers(q[i], q[j]) {
    }
    forall v, p | v in q && p in q && v.kind == Recurrent && p.kind == OneTime ensures !CoveredBy(v, p) {
      var i :| 0 <= i < |q| && q[i] == v;
      var j :| 0 <= j < |q| && q[j] == p;
      assert !KindsInOrder(q[j], q[i]);
      assert i < j;
      assert !Covers(q[i], q[j]);
    }
  }

  /** Every dropped entry has a kept witness that makes it redundant. */
  lemma {:induction false} DroppedHasWitness(ps: seq<Pref>, p: Pref)
    requires p in ps
    ensures p in Validate(ps) || Redundant(Validate(ps), p)
  {
    SortedIsStableSort(ps);
    Sieve.KeepHasWitness(Sorted(ps), p, Covers);
  }

  /** Validating a validated list changes nothing. */
  lemma {:induction false} ValidateIsIdempotent(ps: seq<Pref>)
    ensures Validate(Validate(ps)) == Validate(ps)
  {
    ValidatedIsRecurrentFirst(ps);
    SortedOfSorted(Validate(ps));
    Sieve.KeepIsIrredundant(Sorted(ps), Covers);
    Sieve.KeepOfIrredundant(Validate(ps), Covers);
  }

  // ---------------------------------------------------------------------------
  // Meaning is preserved, also after the read filter
  // ---------------------------------------------------------------------------

  /** `findAllByUserUid`: recurrent entries and those dated later than `now`. */
  predicate IsRead(p: Pref, now: int) {
    p.kind == Recurrent || (p.date.At? && p.date.ms > now)
  }

  function ReadFilter(ps: seq<Pref>, now: int): (r: seq<Pref>)
    ensures forall p :: p in r <==> p in ps && IsRead(p, now)
    decreases |ps|
  {
    if ps == [] then []
    else
      var n := |ps| - 1;
      ReadFilter(ps[..n], now) + if IsRead(ps[n], now) then [ps[n]] else []
  }

  /** Whatever a redundant entry matches, or lets through the read filter, its witness does too. */
  lemma CoverPreservesMeaning(v: Pref, p: Pref, start: int, now: int)
    requires Covers(v, p)
    ensures Matches(p, start) ==> Matches(v, start)
    ensures IsRead(p, now) ==> IsRead(v, now)
  {
    if CoveredBy(v, p) && Matches(p, start) {
      assert Day(start) == Day(p.date.ms);
    }
  }

  /** For every session start, the validated list matches exactly when the submitted list does. */
  lemma {:induction false} ValidatePreservesMeaning(ps: seq<Pref>, start: int)
    ensures AnyMatches(Validate(ps), start) <==> AnyMatches(ps, start)
  {
    ValidatedIsCanonical(ps);
    if AnyMatches(ps, start) {
      var p :| p in ps && Matches(p, start);
      DroppedHasWitness(ps, p);
      if p !in Validate(ps) {
        var v :| v in Validate(ps) && Covers(v, p);
        CoverPreservesMeaning(v, p, start, 0);
      }
    }
  }

  /** The same after entries in the past are filtered out at read time. */
  lemma {:induction false} ReadPreservesMeaning(ps: seq<Pref>, now: int, start: int)
    ensures AnyMatches(ReadFilter(Validate(ps), now), start) <==> AnyMatches(ReadFilter(ps, now), start)
  {
    ValidatedIsCanonical(ps);
    if AnyMatches(ReadFilter(ps, now), start) {
      var p :| p in ReadFilter(ps, now) && Matches(p, start);
      DroppedHasWitness(ps, p);
      if p !in Validate(ps) {
        var v :| v in Validate(ps) && Covers(v, p);
        CoverPreservesMeaning(v, p, start, now);
        assert v in ReadFilter(Validate(ps), now);
      } else {
        assert p in ReadFilter(Validate(ps), now);
      }
    }
  }

  /**
   When the read filter itself loses nothing, for every list the table can hold: exactly for sessions
   that start on a later day than `now`, or outside all periods.  A one-time entry for today is
   dropped once its instant has passed, even if the session it matches is still to come.
   */
  lemma {:induction false} ReadFilterIsHarmlessExactly(now: int, start: int)
    ensures (forall ps :: Storable(ps) ==> (AnyMatches(ReadFilter(ps, now), start) <==> AnyMatches(ps, start)))
            <==> Day(start) > Day(now) || !(9 <= Hour(start) < 22)
  {
    if Day(start) > Day(now) || !(9 <= Hour(start) < 22) {
      forall ps | Storable(ps) ensures AnyMatches(ReadFilter(ps, now), start) <==> AnyMatches(ps, start) {
        if p :| p in ps && Matches(p, start) {
          assert p in ReadFilter(ps, now);
        }
      }
    } else {
      var period := if Hour(start) < 12 then Morning else if Hour(start) < 17 then Afternoon else Evening;
      var p := Pref(OneTime, Some(Weekday(start)), period, At(Day(start) * DAY_MS));
      assert Matches(p, start) && !IsRead(p, now);
      assert Storable([p]);
      assert p in [p] && AnyMatches([p], start);
      assert !AnyMatches(ReadFilter([p], now), start);
    }
  }

  // ---------------------------------------------------------------------------
  // Independence of the submission order
  // ---------------------------------------------------------------------------

  datatype Key = RecurrentKey(dayOfWeek: Option<int>, period: Period) | OneTimeKey(ms: int, period: Period) | NoKey

  function KeyOf(p: Pref): Key {
    match p.kind
    case Recurrent => RecurrentKey(p.dayOfWeek, p.period)
    case OneTime => if p.date.At? then OneTimeKey(p.date.ms, p.period) else NoKey
  }

  function KeysOf(ps: seq<Pref>): set<Key> {
    set p | p in ps :: KeyOf(p)
  }

  /** A key survives iff it was submitted and, if it is one-time, no submitted recurrent entry covers it. */
  lemma {:induction false} KeptKeys(ps: seq<Pref>, p: Pref)
    requires p in ps
    ensures KeyOf(p) in KeysOf(Validate(ps)) <==> !exists r :: r in ps && CoveredBy(r, p)
  {
    var q := Validate(ps);
    ValidatedIsCanonical(ps);
    DroppedHasWitness(ps, p);
    if r :| r in ps && CoveredBy(r, p) {
      DroppedHasWitness(ps, r);
      var kept := if r in q then r else var v :| v in q && Covers(v, r); v;
      assert kept in q && CoveredBy(kept, p);
      if KeyOf(p) in KeysOf(q) {
        var p' :| p' in q && KeyOf(p') == KeyOf(p);
        assert CoveredBy(kept, p');
        assert false;
      }
    } else if p !in q {
      var v :| v in q && Covers(v, p);
      assert v in ps && KeyOf(v) == KeyOf(p);
    } else {
      assert KeyOf(p) in KeysOf(q);
    }
  }

  /** The set of kept keys depends on what was submitted only, not on the order or on repetitions. */
  lemma {:induction false} KeptKeysIgnoreOrder(ps: seq<Pref>, qs: seq<Pref>)
    requires forall p :: p in ps <==> p in qs
    ensures KeysOf(Validate(ps)) == KeysOf(Validate(qs))
  {
    KeptKeysIncluded(ps, qs);
    KeptKeysIncluded(qs, ps);
  }

  lemma KeptKeysIncluded(ps: seq<Pref>, qs: seq<Pref>)
    requires forall p :: p in ps <==> p in qs
    ensures KeysOf(Validate(ps)) <= KeysOf(Validate(qs))
  {
    ValidatedIsCanonical(ps);
    forall k | k in KeysOf(Validate(ps)) ensures k in KeysOf(Validate(qs)) {
      var p :| p in Validate(ps) && KeyOf(p) == k;
      assert p in ps;
      KeptKeys(ps, p);
      KeptKeys(qs, p);
    }
  }

  // ---------------------------------------------------------------------------
  // Storage
  // ---------------------------------------------------------------------------

  /** The row created for a preference: unreadable dates are dropped, a recurrent one's is cut to midnight. */
  function RowOf(p: Pref): Pref {
    p.(date := match p.date
               case At(ms) => if p.kind == Recurrent then At(Day(ms) * DAY_MS) else At(ms)
               case _ => Absent)
  }

  function RowsOf(ps: seq<Pref>): seq<Pref> {
    seq(|ps|, i requires 0 <= i < |ps| => RowOf(ps[i]))
  }

  /** `dayOfWeek` is a NOT NULL column, for one-time entries too. */
  predicate Storable(ps: seq<Pref>) {
    forall p :: p in ps ==> p.dayOfWeek.Some?
  }

  /** A row keeps kind, day and period; a date that cannot be read is dropped, a recurrent one is cut to midnight. */
  lemma {:induction false} RowExactly(p: Pref)
    ensures var r := RowOf(p);
            && r.kind == p.kind && r.dayOfWeek == p.dayOfWeek && r.period == p.period
            && (!p.date.At? ==> r.date == Absent)
            && (p.date.At? ==> r.date.At? && r.date.ms / 86400000 == p.date.ms / 86400000)
            && (p.date.At? && p.kind == Recurrent ==> r.date.ms % 86400000 == 0)
            && (p.date.At? && p.kind == OneTime ==> r.date.ms == p.date.ms)
  {
  }

  /** A list in which every entry has a day can be stored; one that no other makes redundant must have one. */
  lemma {:induction false} StorableWithDays(ps: seq<Pref>)
    ensures (forall p :: p in ps ==> p.dayOfWeek.Some?) ==> Storable(Validate(ps))
    ensures Storable(Validate(ps)) ==>
              forall p :: p in ps && (forall v :: v in ps && Covers(v, p) ==> v == p) ==> p.dayOfWeek.Some?
  {
    ValidatedIsCanonical(ps);
    forall p | p in ps && forall v :: v in ps && Covers(v, p) ==> v == p ensures p in Validate(ps) {
      DroppedHasWitness(ps, p);
    }
  }

  /** What is read back: everything recurrent, and what is dated later than now. */
  lemma {:induction false} ReadExactly(ps: seq<Pref>, now: int, p: Pref)
    ensures p in ReadFilter(ps, now) <==> p in ps && (p.kind == OneTime ==> p.date.At? && now < p.date.ms)
  {
  }

  class PreferenceStore {
    const users: set<Uid>
    var rows: map<Uid, seq<Pref>>

    constructor (users: set<Uid>)
      ensures rows == map[] && this.users == users
    {
      this.users := users;
      rows := map[];
    }

    /**
     The old rows are cleared first and stay cleared when the inserting transaction fails: on an entry
     without a day, or for a user who does not exist.
     */
    method CreateMany(prefs: seq<Pref>, user: Uid) returns (ok: bool)
      modifies this
      ensures ok <==> Storable(Validate(prefs)) && (user in users || Validate(prefs) == [])
      ensures rows == old(rows)[user := if ok then RowsOf(Validate(prefs)) else []]
    {
      var valid := ValidateHourPreferences(prefs);
      rows := rows[user := []];
      var created := [];
      for i := 0 to |valid|
        invariant created == RowsOf(valid[..i]) && Storable(valid[..i]) && (i > 0 ==> user in users)
      {
        var p := valid[i];
        if p.dayOfWeek.None? || user !in users {
          assert p in valid;
          return false;
        }
        var date := Absent;
        if p.date.At? {
          date := p.date;
          if p.kind == Recurrent {
            date := At(p.date.ms / DAY_MS * DAY_MS);
          }
        }
        created := created + [p.(date := date)];
        assert valid[..i + 1] == valid[..i] + [p];
      }
      assert valid[..|valid|] == valid;
      rows := rows[user := created];
      return true;
    }

    /** The rows the ranking is given; an unknown user is an error. */
    method FindAllByUserUid(user: Uid, now: int) returns (found: Option<seq<Pref>>)
      ensures found == if user !in users then None
                       else Some(if user in rows then ReadFilter(rows[user], now) else [])
    {
      if user !in users {
        return None;
      }
      if user !in rows {
        return Some([]);
      }
      var items := [];
      var mine := rows[user];
      for i := 0 to |mine|
        invariant items == ReadFilter(mine[..i], now)
      {
        assert mine[..i + 1][..i] == mine[..i];
        if mine[i].kind == Recurrent || (mine[i].date.At? && mine[i].date.ms > now) {
          items := items + [mine[i]];
        }
      }
      assert mine[..|mine|] == mine;
      return Some(items);
    }
  }

  lemma RowMeansPreference(p: Pref, now: int, start: int)
    ensures IsRead(RowOf(p), now) == IsRead(p, now)
    ensures Matches(RowOf(p), start) == Matches(p, start)
  {
  }

  lemma RowsMeanPreferences(q: seq<Pref>, now: int, start: int)
    ensures AnyMatches(ReadFilter(RowsOf(q), now), start) <==> AnyMatches(ReadFilter(q, now), start)
  {
    if AnyMatches(ReadFilter(RowsOf(q), now), start) {
      var r :| r in ReadFilter(RowsOf(q), now) && Matches(r, start);
      var i :| 0 <= i < |q| && RowsOf(q)[i] == r;
      RowMeansPreference(q[i], now, start);
      assert q[i] in ReadFilter(q, now);
    }
    if AnyMatches(ReadFilter(q, now), start) {
      var p :| p in ReadFilter(q, now) && Matches(p, start);
      var i :| 0 <= i < |q| && q[i] == p;
      RowMeansPreference(p, now, start);
      assert RowsOf(q)[i] in RowsOf(q);
      assert RowOf(p) in ReadFilter(RowsOf(q), now);
    }
  }

  /**
   From submission to ranking: the rows read back match a session start exactly when some submitted
   preference that is recurrent or still in the future matches it.
   */
  lemma {:induction false} StoredListMeansSubmittedList(ps: seq<Pref>, now: int, start: int)
    ensures AnyMatches(ReadFilter(RowsOf(Validate(ps)), now), start)
            <==> exists p :: p in ps && IsRead(p, now) && Matches(p, start)
  {
    RowsMeanPreferences(Validate(ps), now, start);
    ReadPreservesMeaning(ps, now, start);
    if AnyMatches(ReadFilter(ps, now), start) {
      var p :| p in ReadFilter(ps, now) && Matches(p, start);
    }
    if p :| p in ps && IsRead(p, now) && Matches(p, start) {
      assert p in ReadFilter(ps, now);
    }
  }
}
