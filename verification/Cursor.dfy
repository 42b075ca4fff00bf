/**
 The composite cursor of message paging, "createdAt_iso::uid"
 (src/conversations/services/messages.service.ts, lines 207-217 and 255-261): how it is printed,
 how it is parsed, and the order of the keys it stands for.
 */
module Cursor {
  import opened Common

  /** An instant in UTC with millisecond precision and a four-digit year. */
  datatype Fields = Fields(year: nat, month: nat, day: nat, hour: nat, minute: nat, second: nat, milli: nat) {
    predicate Valid() {
      && year < 10000 && 1 <= month <= 12 && 1 <= day <= 31
      && hour < 24 && minute < 60 && second < 60 && milli < 1000
    }

    /** A number that grows with time: the fields in mixed radix. */
    function Ordinal(): nat {
      (((((year * 13 + month) * 32 + day) * 24 + hour) * 60 + minute) * 60 + second) * 1000 + milli
    }
  }

  type Instant = f: Fields | f.Valid() witness Fields(1970, 1, 1, 0, 0, 0, 0)

  // ---------------------------------------------------------------------------
  // Decimal digits
  // ---------------------------------------------------------------------------

  predicate IsDigit(c: char) {
    '0' <= c <= '9'
  }

  function Power10(n: nat): nat {
    if n == 0 then 1 else 10 * Power10(n - 1)
  }

  /** The last `width` decimal digits of `n`, zero-padded. */
  function Digits(n: nat, width: nat): (s: string)
    ensures |s| == width
    ensures forall i :: 0 <= i < |s| ==> IsDigit(s[i])
  {
    if width == 0 then "" else Digits(n / 10, width - 1) + ['0' + (n % 10) as char]
  }

  function Number(s: string): nat
    requires forall i :: 0 <= i < |s| ==> IsDigit(s[i])
  {
    if s == "" then 0
    else
      assert IsDigit(s[|s| - 1]);
      10 * Number(s[..|s| - 1]) + (s[|s| - 1] - '0') as nat
  }

  lemma {:induction false} NumberOfDigits(n: nat, width: nat)
    requires n < Power10(width)
    ensures Number(Digits(n, width)) == n
  {
    if width > 0 {
      var s := Digits(n, width);
      assert s[..|s| - 1] == Digits(n / 10, width - 1);
      NumberOfDigits(n / 10, width - 1);
    }
  }

  // ---------------------------------------------------------------------------
  // ISO timestamps
  // ---------------------------------------------------------------------------

  /** `Date.prototype.toISOString` for four-digit years: YYYY-MM-DDTHH:mm:ss.sssZ. */
  function IsoString(t: Instant): (s: string)
    ensures |s| == 24
  {
    Digits(t.year, 4) + "-" + Digits(t.month, 2) + "-" + Digits(t.day, 2) + "T"
    + Digits(t.hour, 2) + ":" + Digits(t.minute, 2) + ":" + Digits(t.second, 2) + "." + Digits(t.milli, 3) + "Z"
  }

  predicate DigitsAt(s: string, from: nat, to: nat)
    requires from <= to <= |s|
  {
    forall i :: from <= i < to ==> IsDigit(s[i])
  }

  predicate IsoShape(s: string) {
    && |s| == 24
    && s[4] == '-' && s[7] == '-' && s[10] == 'T' && s[13] == ':' && s[16] == ':' && s[19] == '.' && s[23] == 'Z'
    && DigitsAt(s, 0, 4) && DigitsAt(s, 5, 7) && DigitsAt(s, 8, 10) && DigitsAt(s, 11, 13)
    && DigitsAt(s, 14, 16) && DigitsAt(s, 17, 19) && DigitsAt(s, 20, 23)
  }

  function IsoFields(s: string): Fields
    requires IsoShape(s)
  {
    Fields(Number(s[0..4]), Number(s[5..7]), Number(s[8..10]), Number(s[11..13]),
           Number(s[14..16]), Number(s[17..19]), Number(s[20..23]))
  }

  /**
   `new Date(s)`: timestamps in the printed layout are read field by field; every other string is
   left to `other`, whatever the JavaScript engine makes of it (None is an Invalid Date).
   */
  function ParseDate(s: string, other: string -> Option<Instant>): Option<Instant> {
    if IsoShape(s) && IsoFields(s).Valid() then Some(IsoFields(s)) else other(s)
  }

  /** The layout of a printed timestamp: its colons stand at 13 and 16, between digits, and it ends in Z. */
  lemma IsoLayout(t: Instant)
    ensures IsoShape(IsoString(t))
    ensures forall i :: 0 <= i < 24 ==> (IsoString(t)[i] == ':' <==> i == 13 || i == 16)
  {
  }

  lemma IsoSlices(t: Instant)
    ensures var s := IsoString(t);
            && s[0..4] == Digits(t.year, 4) && s[5..7] == Digits(t.month, 2) && s[8..10] == Digits(t.day, 2)
            && s[11..13] == Digits(t.hour, 2) && s[14..16] == Digits(t.minute, 2)
            && s[17..19] == Digits(t.second, 2) && s[20..23] == Digits(t.milli, 3)
  {
  }

  lemma {:induction false} IsoRoundTrip(t: Instant, other: string -> Option<Instant>)
    ensures ParseDate(IsoString(t), other) == Some(t)
  {
    IsoLayout(t);
    IsoSlices(t);
    assert Power10(2) == 100 && Power10(3) == 1000 && Power10(4) == 10000;
    NumberOfDigits(t.year, 4);
    NumberOfDigits(t.month, 2);
    NumberOfDigits(t.day, 2);
    NumberOfDigits(t.hour, 2);
    NumberOfDigits(t.minute, 2);
    NumberOfDigits(t.second, 2);
    NumberOfDigits(t.milli, 3);
  }

  // ---------------------------------------------------------------------------
  // The cursor
  // ---------------------------------------------------------------------------

  datatype Key = Key(createdAt: Instant, uid: Uid)

  /** What a cursor parameter means: no filter at all, rows older than a key, or a failing query. */
  datatype Position = FromStart | After(key: Key) | InvalidDate

  predicate SeparatorAt(s: string, i: nat) {
    i + 1 < |s| && s[i] == ':' && s[i + 1] == ':'
  }

  /** `s.indexOf('::')` from position `i` on. */
  function IndexOfSeparator(s: string, i: nat): (r: int)
    requires i <= |s|
    ensures r == -1 || (i <= r && SeparatorAt(s, r))
    ensures forall j :: i <= j && (r == -1 || j < r) ==> !SeparatorAt(s, j)
    decreases |s| - i
  {
    if i == |s| then -1 else if SeparatorAt(s, i) then i else IndexOfSeparator(s, i + 1)
  }

  function PrintCursor(k: Key): string {
    IsoString(k.createdAt) + "::" + k.uid
  }

  /**
   An absent or empty cursor, one without separator and one with an empty uid put no condition on
   the query; a date that cannot be read makes the query fail.
   */
  function ParseCursor(cursor: Option<string>, other: string -> Option<Instant>): Position {
    if cursor.None? || cursor.value == "" then FromStart
    else
      var at := IndexOfSeparator(cursor.value, 0);
      if at == -1 then FromStart
      else
        var uid := cursor.value[at + 2..];
        if uid == "" then FromStart
        else match ParseDate(cursor.value[..at], other)
          case Some(t) => After(Key(t, uid))
          case None => InvalidDate
  }

  /** The first separator of a printed cursor is the printed one, even if the uid contains more. */
  lemma {:induction false} SeparatorIsFirst(k: Key)
    ensures IndexOfSeparator(PrintCursor(k), 0) == 24
  {
    var s := PrintCursor(k);
    IsoLayout(k.createdAt);
    assert s[..24] == IsoString(k.createdAt);
    forall i: nat | i < 24 ensures !SeparatorAt(s, i) {
      assert s[i] == IsoString(k.createdAt)[i];
      if i == 13 || i == 16 {
        assert s[i + 1] == IsoString(k.createdAt)[i + 1];
      }
    }
    assert SeparatorAt(s, 24);
  }

  /**
   Printing then parsing gives the key back exactly when its uid is not empty; for an empty uid the
   cursor is ignored and paging would start over.
   */
  lemma {:induction false} CursorRoundTrip(k: Key, other: string -> Option<Instant>)
    ensures ParseCursor(Some(PrintCursor(k)), other) == After(k) <==> k.uid != ""
    ensures k.uid == "" ==> ParseCursor(Some(PrintCursor(k)), other) == FromStart
  {
    var s := PrintCursor(k);
    SeparatorIsFirst(k);
    assert s[..24] == IsoString(k.createdAt);
    assert s[26..] == k.uid;
    IsoRoundTrip(k.createdAt, other);
  }

  /**
   What any cursor means, printed here or not: it is cut at its first "::"; without one, or with
   nothing behind it, it is ignored; otherwise its date is read, or the query fails.
   */
  lemma {:induction false} CursorMeans(s: string, other: string -> Option<Instant>)
    ensures ParseCursor(None, other) == FromStart
    ensures (forall i: nat :: !SeparatorAt(s, i)) ==> ParseCursor(Some(s), other) == FromStart
    ensures forall i: nat :: SeparatorAt(s, i) && (forall j: nat :: j < i ==> !SeparatorAt(s, j)) ==>
              ParseCursor(Some(s), other) ==
              if |s| == i + 2 then FromStart
              else if ParseDate(s[..i], other) == None then InvalidDate
              else After(Key(ParseDate(s[..i], other).value, s[i + 2..]))
  {
    var at := IndexOfSeparator(s, 0);
    forall i: nat | SeparatorAt(s, i) && forall j: nat :: j < i ==> !SeparatorAt(s, j) ensures at == i {
      assert at == -1 || at <= i;
    }
  }

  // ---------------------------------------------------------------------------
  // The order of the keys: createdAt, then uid
  // ---------------------------------------------------------------------------

  predicate TextLess(a: string, b: string) {
    if a == "" then b != ""
    else b != "" && (a[0] < b[0] || (a[0] == b[0] && TextLess(a[1..], b[1..])))
  }

  /** `a` is strictly older than `b`: `createdAt < b.createdAt`, or equal and `uid < b.uid`. */
  predicate Older(a: Key, b: Key) {
    a.createdAt.Ordinal() < b.createdAt.Ordinal() || (a.createdAt == b.createdAt && TextLess(a.uid, b.uid))
  }

  lemma {:induction false} TextTotal(a: string, b: string)
    ensures a == b || TextLess(a, b) || TextLess(b, a)
    ensures !(TextLess(a, b) && TextLess(b, a))
    ensures !TextLess(a, a)
  {
    if a != "" {
      TextTotal(a[1..], if b == "" then "" else b[1..]);
      if b != "" && a[0] == b[0] && a[1..] == b[1..] {
        assert a == [a[0]] + a[1..] && b == [b[0]] + b[1..];
      }
    }
  }

  lemma {:induction false} TextTransitive(a: string, b: string, c: string)
    requires TextLess(a, b) && TextLess(b, c)
    ensures TextLess(a, c)
  {
    if a != "" && a[0] == b[0] && b[0] == c[0] {
      TextTransitive(a[1..], b[1..], c[1..]);
    }
  }

  /** Two numbers in radix `base` are equal only digit by digit. */
  lemma SameDigits(base: nat, q: nat, r: nat, q': nat, r': nat)
    requires r < base && r' < base && q * base + r == q' * base + r'
    ensures q == q' && r == r'
  {
    if q < q' {
      NextMultiple(base, q, q');
    } else if q' < q {
      NextMultiple(base, q', q);
    }
  }

  lemma NextMultiple(base: nat, q: nat, q': nat)
    requires q < q'
    ensures q * base + base <= q' * base
  {
    var d := q' - q - 1;
    assert q' * base == (q + 1 + d) * base == q * base + base + d * base;
  }

  lemma OrdinalInjective(s: Instant, t: Instant)
    requires s.Ordinal() == t.Ordinal()
    ensures s == t
  {
    var m, m' := s.year * 13 + s.month, t.year * 13 + t.month;
    var d, d' := m * 32 + s.day, m' * 32 + t.day;
    var h, h' := d * 24 + s.hour, d' * 24 + t.hour;
    var i, i' := h * 60 + s.minute, h' * 60 + t.minute;
    var c, c' := i * 60 + s.second, i' * 60 + t.second;
    SameDigits(1000, c, s.milli, c', t.milli);
    SameDigits(60, i, s.second, i', t.second);
    SameDigits(60, h, s.minute, h', t.minute);
    SameDigits(24, d, s.hour, d', t.hour);
    SameDigits(32, m, s.day, m', t.day);
    SameDigits(13, s.year, s.month, t.year, t.month);
  }

  /** `Older` is a strict total order on keys. */
  lemma OlderIsTotal(a: Key, b: Key)
    ensures a == b || Older(a, b) || Older(b, a)
    ensures !(Older(a, b) && Older(b, a))
    ensures !Older(a, a)
  {
    TextTotal(a.uid, b.uid);
    if a.createdAt.Ordinal() == b.createdAt.Ordinal() {
      OrdinalInjective(a.createdAt, b.createdAt);
    }
  }

  lemma OlderTransitive(a: Key, b: Key, c: Key)
    requires Older(a, b) && Older(b, c)
    ensures Older(a, c)
  {
    if a.createdAt == b.createdAt == c.createdAt {
      TextTransitive(a.uid, b.uid, c.uid);
    }
  }
}
