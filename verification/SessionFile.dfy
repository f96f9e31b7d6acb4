/** The per-session cursor file (crates/agora-client/src/session_state.rs) and its writers, each one critical section
    under the session lock. A write that fails leaves the file as it was (temporary file, then rename). */
module SessionFile {

  datatype Result<T> = Ok(value: T) | Err

  class Session {
    var cursor: int
    var stopBlocks: nat
    /** History: how often a hook reset the cursor. */
    ghost var resets: nat

    constructor ()
      ensures cursor == 0 && stopBlocks == 0 && resets == 0
    {
      cursor, stopBlocks, resets := 0, 0, 0;
    }

    /** `try_advance`: never waits for the lock and never moves the cursor back. */
    method TryAdvance(no: int, heldElsewhere: bool, saved: bool) returns (r: Result<bool>)
      modifies this`cursor
      ensures cursor == if r == Ok(true) then no else old(cursor)
      ensures old(cursor) <= cursor
      ensures r == if heldElsewhere || no <= old(cursor) then Ok(false) else if saved then Ok(true) else Err
    {
      if heldElsewhere {
        return Ok(false);
      }
      if no <= cursor {
        return Ok(false);
      }
      if !saved {
        return Err;
      }
      cursor := no;
      return Ok(true);
    }

    /** `commit_once`, and the hooks that deliver under the lock: the cursor becomes the larger of the two. */
    method Raise(maxSeq: int, saved: bool) returns (r: Result<bool>)
      modifies this`cursor
      ensures r == if saved then Ok(true) else Err
      ensures cursor == if saved && maxSeq > old(cursor) then maxSeq else old(cursor)
    {
      if !saved {
        return Err;
      }
      if maxSeq > cursor {
        cursor := maxSeq;
      }
      return Ok(true);
    }

    /** `session_start`: compact and clear ask for the unacked messages again. */
    method SessionStart(compactOrClear: bool, saved: bool)
      modifies this
      ensures cursor == if saved && compactOrClear then 0 else old(cursor)
      ensures stopBlocks == if saved then 0 else old(stopBlocks)
      ensures resets == old(resets) + if saved && compactOrClear then 1 else 0
    {
      if saved {
        if compactOrClear {
          cursor := 0;
          resets := resets + 1;
        }
        stopBlocks := 0;
      }
    }
  }
}
