/** The body of `run_loop` (crates/agora-bridge/src/pump.rs), cut at its awaits, and the other writers of the cursor.
    Each method is one stretch between two awaits and is proved to be the step of the transition system in `Pump`, so
    every interleaving of them is a run there. */
module PumpTask {
  import opened Inbox
  import opened Numbers
  import opened Pump
  import opened SessionFile

  class Refusals {
    var maxSeq: int
    var count: nat

    constructor ()
      ensures maxSeq == 0 && count == 0
    {
      maxSeq, count := 0, 0;
    }

    /** Counts a refusal of the batch ending at `maxSeq`; a refusal of another batch starts the count again. */
    method Refuse(maxSeq: int) returns (n: nat)
      modifies this
      ensures this.maxSeq == maxSeq && n == count
      ensures count == if old(count) != 0 && old(this.maxSeq) == maxSeq then old(count) + 1 else 1
    {
      if count == 0 || this.maxSeq != maxSeq {
        this.maxSeq := maxSeq;
        count := 0;
      }
      count := count + 1;
      n := count;
    }
  }

  /** What the loop holds between two awaits. */
  datatype Stage =
    | AtTop
    | AtPoll(after: int)
    | AtFetched(after: int, raws: seq<Raw>)
    | AtOffer(batch: seq<Message>, text: string)
    | AtCommit(batch: seq<Message>, text: string, why: Why, failures: nat)
    | Ended(ok: bool)

  class Task {
    const file: Session
    var refusals: Refusals
    var stage: Stage
    var pause: nat
    var backoff: nat
    /** History: when the offer's poll began, what it was selected above and left out, and the offers `refusals`
        counts. */
    ghost var era: nat
    ghost var floor: int
    ghost var unshown: seq<Message>
    ghost var counted: seq<Offer>

    constructor (file: Session)
      ensures this.file == file && fresh(refusals)
      ensures stage == AtTop && refusals.maxSeq == 0 && refusals.count == 0
      ensures pause == REFUSAL_FIRST && backoff == BACKOFF_FIRST && counted == []
    {
      this.file := file;
      refusals := new Refusals();
      stage, pause, backoff, counted := AtTop, REFUSAL_FIRST, BACKOFF_FIRST, [];
    }

    ghost function Place(): Pc
      reads this
    {
      match stage
      case AtTop => Top
      case AtPoll(after) => Polling(after, era)
      case AtFetched(after, raws) => Fetched(after, era, raws)
      case AtOffer(batch, text) => Offered(Offer(batch, text, floor, unshown, era))
      case AtCommit(batch, text, why, failures) => Committing(Offer(batch, text, floor, unshown, era), why, failures)
      case Ended(ok) => Stopped(ok)
    }

    /** The state of the transition system, with the inbox as it stands. */
    ghost function View(inbox: seq<Message>, top: int): State
      reads this, file, refusals
    {
      State(file.cursor, file.resets, inbox, top, Place(), refusals.maxSeq, refusals.count, pause, backoff, counted)
    }

    /** The top of the loop: read the cursor and poll above it. */
    method ReadCursor(ghost inbox: seq<Message>, ghost top: int, ghost r: Renderer)
      requires stage.AtTop?
      modifies this`stage, this`era
      ensures View(inbox, top) == Apply(old(View(inbox, top)), Event.ReadCursor, r)
    {
      stage := AtPoll(file.cursor);
      era := file.resets;
    }

    method FetchFails(ghost inbox: seq<Message>, ghost top: int, ghost r: Renderer)
      requires stage.AtPoll?
      modifies this`stage, this`backoff
      ensures View(inbox, top) == Apply(old(View(inbox, top)), Event.FetchFails, r)
    {
      backoff := Doubled(backoff, BACKOFF_MAX);
      stage := AtTop;
    }

    method FetchAnswers(raws: seq<Raw>, ghost inbox: seq<Message>, ghost top: int, ghost r: Renderer)
      requires stage.AtPoll? && IsAnswer(raws, inbox, stage.after)
      modifies this`stage, this`backoff
      ensures View(inbox, top) == Apply(old(View(inbox, top)), Event.FetchAnswers(raws), r)
    {
      backoff := BACKOFF_FIRST;
      stage := AtFetched(stage.after, raws);
    }

    /** Re-read the cursor, keep what is still above it, render, and hand the shown prefix to the driver. */
    method Select(r: Renderer, ghost inbox: seq<Message>, ghost top: int)
      requires stage.AtFetched?
      modifies this`stage, this`floor, this`unshown
      ensures View(inbox, top) == Apply(old(View(inbox, top)), Event.Select, r)
    {
      var freshAfter := if stage.after > file.cursor then stage.after else file.cursor;
      var msgs := SelectFresh(stage.raws, freshAfter);
      if msgs == [] {
        stage := AtTop;
        return;
      }
      var shown := r.shown(msgs);
      if shown == 0 || shown > |msgs| {
        stage := Ended(false);
        return;
      }
      stage := AtOffer(msgs[..shown], r.text(msgs));
      floor, unshown := freshAfter, msgs[shown..];
    }

    /** The driver's answer; a dropped reply is a refusal. */
    method Answered(accepted: bool, ghost inbox: seq<Message>, ghost top: int, ghost r: Renderer)
      requires stage.AtOffer? && stage.batch != []
      modifies this`stage, this`pause, this`refusals, this`counted, refusals
      ensures refusals == old(refusals) || fresh(refusals)
      ensures View(inbox, top) == Apply(old(View(inbox, top)), if accepted then Accept else Refuse, r)
    {
      ghost var o := Offer(stage.batch, stage.text, floor, unshown, era);
      if accepted {
        pause := REFUSAL_FIRST;
        refusals := new Refusals();
        counted := [];
        stage := AtCommit(stage.batch, stage.text, Accepted, 0);
        return;
      }
      var maxSeq := stage.batch[|stage.batch| - 1].no;
      counted := if refusals.count != 0 && refusals.maxSeq == maxSeq then counted + [o] else [o];
      var n := refusals.Refuse(maxSeq);
      if n >= REFUSAL_CAP {
        stage := AtCommit(stage.batch, stage.text, Skipped, 0);
      } else {
        pause := Doubled(pause, REFUSAL_MAX);
        stage := AtTop;
      }
    }

    /** One attempt of `commit`: the cursor file may fail to be written `COMMIT_RETRIES` times before the pump gives
        up. */
    method CommitAttempt(saved: bool, ghost inbox: seq<Message>, ghost top: int, ghost r: Renderer)
      requires stage.AtCommit? && stage.batch != []
      modifies this`stage, this`pause, this`refusals, this`counted, file`cursor
      ensures refusals == old(refusals) || fresh(refusals)
      ensures View(inbox, top) == Apply(old(View(inbox, top)), if saved then WriteOk else WriteFails, r)
    {
      var maxSeq := stage.batch[|stage.batch| - 1].no;
      var written := file.Raise(maxSeq, saved);
      if written.Err? {
        stage := if stage.failures >= COMMIT_RETRIES then Ended(false) else stage.(failures := stage.failures + 1);
        return;
      }
      if stage.why.Skipped? {
        refusals := new Refusals();
        counted := [];
        pause := REFUSAL_FIRST;
      }
      stage := AtTop;
    }
  }

  // ----- the other writers, seen from the loop

  /** A hook that delivered up to `no`. */
  method HookTryAdvance(
    task: Task, no: int, heldElsewhere: bool, saved: bool, ghost inbox: seq<Message>, ghost top: int, ghost r: Renderer)
    modifies task.file`cursor
    ensures task.View(inbox, top) == Apply(old(task.View(inbox, top)), HookAdvance(task.file.cursor), r)
    ensures task.file.cursor ==
            if heldElsewhere || !saved then old(task.file.cursor) else Max(no, old(task.file.cursor))
  {
    var moved := task.file.TryAdvance(no, heldElsewhere, saved);
  }

  /** A hook that delivers while it holds the lock. */
  method HookRaise(
    task: Task, maxSeq: int, saved: bool, ghost inbox: seq<Message>, ghost top: int, ghost r: Renderer)
    modifies task.file`cursor
    ensures task.View(inbox, top) ==
            Apply(old(task.View(inbox, top)), HookAdvance(if saved then maxSeq else old(task.file.cursor)), r)
  {
    var written := task.file.Raise(maxSeq, saved);
  }

  /** A session start: a reset on compact and clear, otherwise nothing the loop can see. */
  method HookSessionStart(
    task: Task, compactOrClear: bool, saved: bool, ghost inbox: seq<Message>, ghost top: int, ghost r: Renderer)
    modifies task.file
    ensures task.View(inbox, top) ==
            if saved && compactOrClear then Apply(old(task.View(inbox, top)), HookReset, r)
            else old(task.View(inbox, top))
  {
    task.file.SessionStart(compactOrClear, saved);
  }
}
