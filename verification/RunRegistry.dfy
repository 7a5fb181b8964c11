/**
 * The backtest_runs table (src/storage/sim_registry.js): one guarded SQL statement per method, and what
 * each does to a row.
 */
module RunRegistry {
  import opened Collections

  datatype Status = Running | Paused | Complete | Failed | Cancelled

  predicate Terminal(s: Status) {
    s.Complete? || s.Failed? || s.Cancelled?
  }

  /** `C` is the stored resume envelope; times and reasons are opaque values. */
  datatype Row<C> = Row(
    status: Status, cursor: Option<C>, pausedReason: Option<string>, pausedAt: Option<int>, resumeAfter: Option<int>,
    result: Option<string>, error: Option<string>, finishedAt: Option<int>, startedAt: int)

  function NewRow<C>(startedAt: int): Row<C> {
    Row(Running, None, None, None, None, None, None, None, startedAt)
  }

  function Completed<C>(r: Row<C>, result: string, at: int): Row<C> {
    r.(status := Complete, result := Some(result), finishedAt := Some(at))
  }

  function FailedWith<C>(r: Row<C>, error: string, at: int): Row<C> {
    r.(status := Failed, error := Some(error), finishedAt := Some(at))
  }

  predicate Live<C>(r: Row<C>) {
    r.status.Running? || r.status.Paused?
  }

  function CancelledBy<C>(r: Row<C>, error: string, at: int): Row<C> {
    if Live(r) then r.(status := Cancelled, error := Some(error), finishedAt := Some(at), cursor := None) else r
  }

  /** A pause keeps a paused row's reason, time and hint; a given cursor always wins over a stored one. */
  function PausedBy<C>(r: Row<C>, reason: string, cursor: Option<C>, at: int, resumeAfter: Option<int>): Row<C> {
    if !Live(r) then r
    else
      var c := if cursor.Some? then cursor else r.cursor;
      if r.status.Paused? then r.(cursor := c)
      else r.(status := Paused, cursor := c, pausedReason := Some(reason), pausedAt := Some(at),
              resumeAfter := resumeAfter)
  }

  predicate Claimable<C>(r: Row<C>) {
    r.status.Paused? && r.cursor.Some?
  }

  /** The claim of a paused run: running again, with every pause field and the stored cursor cleared. */
  function Resumed<C>(r: Row<C>): Row<C> {
    r.(status := Running, cursor := None, pausedReason := None, pausedAt := None, resumeAfter := None)
  }

  datatype ResumeReply<C> = Claimed(cursor: C, pausedReason: Option<string>, resumeAfter: Option<int>) | NotFound
                          | NotPaused | Pausing

  class Registry<C(==)> {
    var rows: map<string, Row<C>>

    constructor ()
      ensures rows == map[]
    {
      rows := map[];
    }

    /** INSERT .. ON CONFLICT DO NOTHING. */
    method Insert(id: string, startedAt: int)
      modifies this
      ensures rows == if id in old(rows) then old(rows) else old(rows)[id := NewRow(startedAt)]
      ensures id !in old(rows) ==> rows[id] == Row(Running, None, None, None, None, None, None, None, startedAt)
    {
      if id !in rows {
        rows := rows[id := NewRow(startedAt)];
      }
    }

    /** No status guard: also overwrites another terminal status. */
    method MarkComplete(id: string, result: string, at: int)
      modifies this
      ensures rows == if id in old(rows) then old(rows)[id := Completed(old(rows)[id], result, at)] else old(rows)
      ensures id in old(rows) ==>
                var r := old(rows)[id];
                rows[id] == Row(Complete, r.cursor, r.pausedReason, r.pausedAt, r.resumeAfter, Some(result), r.error,
                                Some(at), r.startedAt)
    {
      if id in rows {
        rows := rows[id := rows[id].(status := Complete, result := Some(result), finishedAt := Some(at))];
      }
    }

    method MarkFailed(id: string, error: string, at: int)
      modifies this
      ensures rows == if id in old(rows) then old(rows)[id := FailedWith(old(rows)[id], error, at)] else old(rows)
      ensures id in old(rows) ==>
                var r := old(rows)[id];
                rows[id] == Row(Failed, r.cursor, r.pausedReason, r.pausedAt, r.resumeAfter, r.result, Some(error),
                                Some(at), r.startedAt)
    {
      if id in rows {
        rows := rows[id := rows[id].(status := Failed, error := Some(error), finishedAt := Some(at))];
      }
    }

    method Cancel(id: string, error: string, at: int) returns (changed: bool)
      modifies this
      ensures changed == (id in old(rows) && old(rows)[id].status in {Running, Paused})
      ensures rows == if id in old(rows) then old(rows)[id := CancelledBy(old(rows)[id], error, at)] else old(rows)
      ensures changed ==>
                var r := old(rows)[id];
                rows[id] == Row(Cancelled, None, r.pausedReason, r.pausedAt, r.resumeAfter, r.result, Some(error),
                                Some(at), r.startedAt)
      ensures !changed ==> rows == old(rows)
    {
      changed := id in rows && (rows[id].status.Running? || rows[id].status.Paused?);
      if changed {
        rows := rows[id := rows[id].(status := Cancelled, error := Some(error), finishedAt := Some(at),
                                     cursor := None)];
      }
    }

    method Pause(id: string, reason: string, cursor: Option<C>, at: int, resumeAfter: Option<int>)
      returns (changed: bool)
      modifies this
      ensures changed == (id in old(rows) && old(rows)[id].status in {Running, Paused})
      ensures rows == if id in old(rows) then old(rows)[id := PausedBy(old(rows)[id], reason, cursor, at, resumeAfter)]
                      else old(rows)
      ensures changed ==>
                var r := old(rows)[id];
                var kept := if cursor.Some? then cursor else r.cursor;
                rows[id] == if r.status.Paused?
                            then Row(Paused, kept, r.pausedReason, r.pausedAt, r.resumeAfter, r.result, r.error,
                                     r.finishedAt, r.startedAt)
                            else Row(Paused, kept, Some(reason), Some(at), resumeAfter, r.result, r.error,
                                     r.finishedAt, r.startedAt)
      ensures !changed ==> rows == old(rows)
    {
      changed := id in rows && (rows[id].status.Running? || rows[id].status.Paused?);
      if changed {
        var r := rows[id];
        var was := r.status.Paused?;
        rows := rows[id := r.(
          cursor := if cursor.Some? then cursor else r.cursor,
          pausedReason := if was then r.pausedReason else Some(reason),
          pausedAt := if was then r.pausedAt else Some(at),
          resumeAfter := if was then r.resumeAfter else resumeAfter,
          status := Paused)];
      }
    }

    /** The claim statement of a resume: a compare-and-set on `paused` with a stored cursor. */
    method Claim(id: string) returns (changed: bool)
      modifies this
      ensures changed == (id in old(rows) && old(rows)[id].status.Paused? && old(rows)[id].cursor.Some?)
      ensures rows == if changed then old(rows)[id := Resumed(old(rows)[id])] else old(rows)
      ensures changed ==>
                var r := old(rows)[id];
                rows[id] == Row(Running, None, None, None, None, r.result, r.error, r.finishedAt, r.startedAt)
    {
      changed := id in rows && rows[id].status.Paused? && rows[id].cursor.Some?;
      if changed {
        rows := rows[id := Resumed(rows[id])];
      }
    }

    /** A resume with nothing in between its read and its claim. */
    method Resume(id: string) returns (reply: ResumeReply<C>)
      modifies this
      ensures reply.NotFound? <==> id !in old(rows)
      ensures reply.NotPaused? <==> id in old(rows) && !old(rows)[id].status.Paused?
      ensures reply.Pausing? <==> id in old(rows) && old(rows)[id].status.Paused? && old(rows)[id].cursor.None?
      ensures reply.Claimed? ==>
                && Some(reply.cursor) == old(rows)[id].cursor
                && reply.pausedReason == old(rows)[id].pausedReason && reply.resumeAfter == old(rows)[id].resumeAfter
                && rows == old(rows)[id := Resumed(old(rows)[id])]
      ensures !reply.Claimed? ==> rows == old(rows)
    {
      if id !in rows { return NotFound; }
      var row := rows[id];
      if !row.status.Paused? { return NotPaused; }
      if row.cursor.None? { return Pausing; }
      var changed := Claim(id);
      if !changed { return NotPaused; }
      reply := Claimed(row.cursor.value, row.pausedReason, row.resumeAfter);
    }

    /** DELETE guarded on failed or cancelled. */
    method DeleteFailedOrCancelled(id: string) returns (changed: bool)
      modifies this
      ensures changed == (id in old(rows) && (old(rows)[id].status.Failed? || old(rows)[id].status.Cancelled?))
      ensures rows == if changed then old(rows) - {id} else old(rows)
    {
      changed := id in rows && (rows[id].status.Failed? || rows[id].status.Cancelled?);
      if changed {
        rows := rows - {id};
      }
    }
  }

  /** Resuming and re-parking with what the claim returned restores the paused row, its new pause time aside. */
  lemma ReparkRestores<C>(r: Row<C>, at: int)
    requires Claimable(r) && r.pausedReason.Some?
    ensures PausedBy(Resumed(r), r.pausedReason.value, r.cursor, at, r.resumeAfter) == r.(pausedAt := Some(at))
  {
  }
}
