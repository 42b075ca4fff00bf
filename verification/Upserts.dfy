/**
 Tables that are only ever written by "create if missing, else set the status" and "set the status":
 the shape of every write the Stripe webhook makes.  Replaying such writes changes nothing.
 */
module Upserts {
  import opened Common

  datatype Row<D, S> = Row(data: D, status: S)

  type Table<D, S> = map<string, Row<D, S>>

  /** With `create`, a missing row is created with that data; without, it stays missing. */
  datatype Write<D, S> = Write(key: string, status: S, create: Option<D>)

  function Apply<D, S>(t: Table<D, S>, w: Write<D, S>): Table<D, S> {
    if w.key in t then t[w.key := t[w.key].(status := w.status)]
    else if w.create.Some? then t[w.key := Row(w.create.value, w.status)]
    else t
  }

  function ApplyAll<D, S>(t: Table<D, S>, ws: seq<Write<D, S>>): Table<D, S>
    decreases |ws|
  {
    if ws == [] then t else Apply(ApplyAll(t, ws[..|ws| - 1]), ws[|ws| - 1])
  }

  /** The status the last write to `key` carries. */
  function LastStatus<D, S>(ws: seq<Write<D, S>>, key: string): Option<S>
    decreases |ws|
  {
    if ws == [] then None
    else if ws[|ws| - 1].key == key then Some(ws[|ws| - 1].status)
    else LastStatus(ws[..|ws| - 1], key)
  }

  predicate Creates<D, S>(ws: seq<Write<D, S>>, key: string) {
    exists i :: 0 <= i < |ws| && ws[i].key == key && ws[i].create.Some?
  }

  lemma CreatesLast<D, S>(ws: seq<Write<D, S>>, key: string)
    requires ws != []
    ensures var n := |ws| - 1;
            Creates(ws, key) <==> Creates(ws[..n], key) || (ws[n].key == key && ws[n].create.Some?)
  {
    var n := |ws| - 1;
    if Creates(ws[..n], key) {
      var i :| 0 <= i < n && ws[..n][i].key == key && ws[..n][i].create.Some?;
      assert ws[i].key == key && ws[i].create.Some?;
    }
    if i :| 0 <= i < |ws| && ws[i].key == key && ws[i].create.Some? && i < n {
      assert ws[..n][i] == ws[i];
    }
  }

  /** What a list of writes leaves at one key. */
  lemma {:induction false} ApplyAllAt<D, S>(t: Table<D, S>, ws: seq<Write<D, S>>, key: string)
    ensures key in ApplyAll(t, ws) <==> key in t || Creates(ws, key)
    ensures key in t ==> ApplyAll(t, ws)[key].data == t[key].data
    ensures key in t && LastStatus(ws, key).None? ==> ApplyAll(t, ws)[key].status == t[key].status
    ensures key in ApplyAll(t, ws) && LastStatus(ws, key).Some? ==>
              ApplyAll(t, ws)[key].status == LastStatus(ws, key).value
  {
    if ws != [] {
      ApplyAllAt(t, ws[..|ws| - 1], key);
      CreatesLast(ws, key);
    }
  }

  lemma {:induction false} ApplyAllAppend<D, S>(t: Table<D, S>, a: seq<Write<D, S>>, b: seq<Write<D, S>>)
    ensures ApplyAll(t, a + b) == ApplyAll(ApplyAll(t, a), b)
    decreases |b|
  {
    if b == [] {
      assert a + b == a;
    } else {
      var n := |b| - 1;
      ApplyAllAppend(t, a, b[..n]);
      assert (a + b)[..|a + b| - 1] == a + b[..n];
    }
  }

  /** Any list of such writes is idempotent. */
  lemma {:induction false} ReplayIsIdempotent<D, S>(t: Table<D, S>, ws: seq<Write<D, S>>)
    ensures ApplyAll(ApplyAll(t, ws), ws) == ApplyAll(t, ws)
  {
    var once := ApplyAll(t, ws);
    var twice := ApplyAll(once, ws);
    forall key ensures key in twice <==> key in once {
      ApplyAllAt(t, ws, key);
      ApplyAllAt(once, ws, key);
    }
    forall key | key in once ensures twice[key] == once[key] {
      ApplyAllAt(t, ws, key);
      ApplyAllAt(once, ws, key);
    }
  }

  /** Stopping after any prefix of the writes and starting over ends where one clean pass ends. */
  lemma ReplayAfterPrefix<D, S>(t: Table<D, S>, done: seq<Write<D, S>>, rest: seq<Write<D, S>>)
    ensures ApplyAll(ApplyAll(t, done), done + rest) == ApplyAll(t, done + rest)
  {
    ReplayIsIdempotent(t, done);
    ApplyAllAppend(ApplyAll(t, done), done, rest);
    ApplyAllAppend(t, done, rest);
  }
}
