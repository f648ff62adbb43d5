/**
 * The realtime change handler of the chat screens: the updater both the admin
 * and the user screen pass to `setMessages` when a `postgres_changes` payload
 * for the `messages` table arrives. The two screens carry identical copies;
 * it is defined once here.
 *
 * An INSERT appends the new row at the end without looking for its id; an
 * UPDATE replaces, in place, every entry whose id matches and adds nothing
 * when none does; any other event type leaves the list alone.
 */
module Reconciler {
  import opened ChatTypes

  /** A change payload: its `eventType` and the row it carries. */
  datatype ChangeEvent =
    | Inserted(row: Message)
    | Updated(row: Message)
    | Deleted(oldRow: Message)

  /** `prev.map(msg => msg.id === row.id ? row : msg)` */
  function ReplaceById(prev: seq<Message>, row: Message): (r: seq<Message>)
    ensures |r| == |prev|
  {
    seq(|prev|, i requires 0 <= i < |prev| => if prev[i].id == row.id then row else prev[i])
  }

  /**
   * The state updater for one event. Entries already in the list keep their
   * position and id; only an INSERT adds an entry, its row, at the end.
   */
  function Apply(prev: seq<Message>, e: ChangeEvent): (next: seq<Message>)
    ensures |next| == |prev| + |InsertedId(e)|
    ensures forall i :: 0 <= i < |prev| ==> next[i].id == prev[i].id
    ensures e.Inserted? ==> next[|prev|] == e.row
  {
    match e
    case Inserted(row) => prev + [row]
    case Updated(row) => ReplaceById(prev, row)
    case Deleted(_) => prev
  }

  /**
   * The list after a run of events, applied in arrival order: it grows by one
   * entry per INSERT and the entries it started with keep their positions
   * and ids.
   */
  function ApplyAll(prev: seq<Message>, events: seq<ChangeEvent>): (last: seq<Message>)
    ensures |last| == |prev| + |InsertedIds(events)|
    ensures forall i :: 0 <= i < |prev| ==> last[i].id == prev[i].id
    decreases |events|
  {
    if events == [] then prev else ApplyAll(Apply(prev, events[0]), events[1..])
  }

  /** The ids of a list, position by position. */
  function Ids(s: seq<Message>): (ids: seq<string>)
    ensures |ids| == |s|
    decreases |s|
  {
    if s == [] then [] else Ids(s[..|s| - 1]) + [s[|s| - 1].id]
  }

  /** The id an event adds to the list: the row's id for an INSERT, none otherwise. */
  function InsertedId(e: ChangeEvent): seq<string> {
    if e.Inserted? then [e.row.id] else []
  }

  /** The ids of the rows a run of events inserts, in arrival order. */
  function InsertedIds(events: seq<ChangeEvent>): seq<string>
    decreases |events|
  {
    if events == [] then [] else InsertedId(events[0]) + InsertedIds(events[1..])
  }

  /** How many entries of `s` carry the id `id`. */
  function CountId(s: seq<Message>, id: string): nat
    decreases |s|
  {
    if s == [] then 0 else CountId(s[..|s| - 1], id) + (if s[|s| - 1].id == id then 1 else 0)
  }

  lemma {:induction false} IdsAt(s: seq<Message>, i: nat)
    requires i < |s|
    ensures Ids(s)[i] == s[i].id
    decreases |s|
  {
    if i < |s| - 1 {
      IdsAt(s[..|s| - 1], i);
    }
  }

  lemma {:induction false} CountIdAppend(s: seq<Message>, t: seq<Message>, id: string)
    ensures CountId(s + t, id) == CountId(s, id) + CountId(t, id)
    decreases |t|
  {
    if t != [] {
      assert (s + t)[..|s + t| - 1] == s + t[..|t| - 1];
      CountIdAppend(s, t[..|t| - 1], id);
    } else {
      assert s + t == s;
    }
  }

  /**
   * INSERT puts the row after everything already there: one entry longer,
   * earlier entries untouched, the new row last.
   */
  lemma InsertAppends(prev: seq<Message>, row: Message)
    ensures |Apply(prev, Inserted(row))| == |prev| + 1
    ensures Apply(prev, Inserted(row))[..|prev|] == prev
    ensures Apply(prev, Inserted(row))[|prev|] == row
  {
  }

  /**
   * INSERT does not de-duplicate: the row's id occurs once more than before,
   * also when it was already present.
   */
  lemma InsertAddsAnOccurrence(prev: seq<Message>, row: Message)
    ensures CountId(Apply(prev, Inserted(row)), row.id) == CountId(prev, row.id) + 1
  {
    CountIdAppend(prev, [row], row.id);
    assert CountId([row], row.id) == 1 by {
      assert [row][..0] == [];
    }
  }

  /** UPDATE keeps the length and the id found at every position. */
  lemma UpdateKeepsShape(prev: seq<Message>, row: Message)
    ensures |Apply(prev, Updated(row))| == |prev|
    ensures forall i :: 0 <= i < |prev| ==> Apply(prev, Updated(row))[i].id == prev[i].id
  {
  }

  /** UPDATE puts the row wherever its id is found and changes nothing else. */
  lemma UpdateReplacesMatches(prev: seq<Message>, row: Message)
    ensures forall i :: 0 <= i < |prev| && prev[i].id == row.id ==> Apply(prev, Updated(row))[i] == row
    ensures forall i :: 0 <= i < |prev| && prev[i].id != row.id ==> Apply(prev, Updated(row))[i] == prev[i]
  {
  }

  /** UPDATE for an id the list does not hold leaves the list as it was. */
  lemma UpdateOfAbsentIdIsNoOp(prev: seq<Message>, row: Message)
    requires forall i :: 0 <= i < |prev| ==> prev[i].id != row.id
    ensures Apply(prev, Updated(row)) == prev
  {
  }

  /** Applying the same UPDATE twice is the same as applying it once. */
  lemma UpdateIsIdempotent(prev: seq<Message>, row: Message)
    ensures Apply(Apply(prev, Updated(row)), Updated(row)) == Apply(prev, Updated(row))
  {
  }

  /** Any event type other than INSERT and UPDATE is ignored. */
  lemma OtherEventIsNoOp(prev: seq<Message>, oldRow: Message)
    ensures Apply(prev, Deleted(oldRow)) == prev
  {
  }

  lemma {:induction false} IdsOfApply(prev: seq<Message>, e: ChangeEvent)
    ensures Ids(Apply(prev, e)) == Ids(prev) + InsertedId(e)
  {
    var next := Apply(prev, e);
    match e
    case Inserted(row) =>
      assert next[..|next| - 1] == prev;
    case Updated(row) =>
      forall i | 0 <= i < |prev| ensures Ids(next)[i] == Ids(prev)[i] {
        IdsAt(next, i);
        IdsAt(prev, i);
      }
    case Deleted(_) =>
  }

  /**
   * Over any run of events the ids of the list are the ids it started with,
   * in the same positions, followed by the ids of the inserted rows in
   * arrival order. So the length grows by the number of INSERTs, an UPDATE
   * never adds an entry, and a repeated INSERT yields a repeated id.
   */
  lemma {:induction false} IdsAfterEvents(prev: seq<Message>, events: seq<ChangeEvent>)
    ensures Ids(ApplyAll(prev, events)) == Ids(prev) + InsertedIds(events)
    decreases |events|
  {
    if events != [] {
      var e := events[0];
      IdsOfApply(prev, e);
      IdsAfterEvents(Apply(prev, e), events[1..]);
    }
  }

  /** The same INSERT delivered twice leaves two entries, not one. */
  lemma RepeatedInsertIsKept(m: Message)
    ensures ApplyAll([], [Inserted(m), Inserted(m)]) == [m, m]
  {
    var events := [Inserted(m), Inserted(m)];
    assert events[1..] == [Inserted(m)] && events[1..][1..] == [];
    assert Apply([], Inserted(m)) == [m];
    assert Apply([m], Inserted(m)) == [m, m];
    assert ApplyAll([m, m], []) == [m, m];
    assert ApplyAll([m], [Inserted(m)]) == [m, m];
  }

  /** An UPDATE arriving before its row is dropped, not inserted. */
  lemma UpdateBeforeInsertIsDropped(m: Message)
    ensures ApplyAll([], [Updated(m)]) == []
  {
  }
}
