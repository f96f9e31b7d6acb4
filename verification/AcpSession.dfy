/** `Session` of crates/agora-bridge/src/acp.rs with its fields updated in place. Each method is proved to be the step
    of the transition system in `AcpDriver`. */
module AcpSession {
  import opened Options
  import opened AcpDriver

  class Session {
    var prompt: Option<Prompt>
    var queued: Option<Batch>
    var open: bool
    /** The number of deliveries received, which names the next reply. */
    var nextReply: nat
    ghost var history: State

    constructor (first: Option<string>)
      ensures Valid() && Init(View())
    {
      queued, open, nextReply := None, true, 0;
      prompt := if first.Some? then Some(Prompt(Initial(first.value), false)) else None;
      history := State(None, None, true, [], map[], {}, [], if first.Some? then 1 else 0, 0);
    }

    ghost predicate Valid()
      reads this
    {
      nextReply == |history.received|
    }

    ghost function View(): State
      reads this
    {
      history.(prompt := prompt, queued := queued, open := open)
    }

    /** A delivery starts a prompt when none is in flight; otherwise it joins the queued batch. */
    method Submit(d: Delivery)
      requires Valid() && open
      modifies this
      ensures Valid() && View() == Apply(old(View()), AcpDriver.Submit(d))
    {
      var reply := nextReply;
      nextReply := nextReply + 1;
      history := history.(received := history.received + [d]);
      if prompt.None? {
        Launch(FromDelivery(d, reply));
      } else if queued.Some? {
        queued := Some(Merge(queued.value, d, reply));
      } else {
        queued := Some(FromDelivery(d, reply));
      }
    }

    method Launch(b: Batch)
      requires Valid()
      modifies this
      ensures Valid() && View() == AcpDriver.Launch(old(View()), b)
    {
      prompt := Some(Prompt(b, false));
      history := history.(launched := history.launched + 1);
    }

    /** `run_prompt` in its own task: one request, then the same answer to every reply of the batch. */
    method RunPrompt(outcome: Outcome) returns (sent: map<nat, bool>)
      requires Valid() && prompt.Some? && !prompt.value.answered
      modifies this
      ensures Valid() && View() == Apply(old(View()), PromptEnds(outcome))
      ensures View().answers == old(View()).answers + sent
    {
      var accepted := outcome.TurnEnded?;
      var replies := prompt.value.batch.replies;
      sent := map[];
      var k := 0;
      while k < |replies|
        invariant 0 <= k <= |replies|
        invariant sent == map i: nat | i in replies[..k] :: accepted
      {
        sent := sent[replies[k] := accepted];
        assert replies[..k + 1] == replies[..k] + [replies[k]];
        k := k + 1;
      }
      assert replies[..|replies|] == replies;
      var turn := Turn(prompt.value.batch, outcome);
      history := history.(answers := history.answers + sent, turns := history.turns + [turn]);
      prompt := Some(prompt.value.(answered := true));
    }

    /** The prompt ended: send the queued batch, if any, as the next prompt. */
    method FinishPrompt()
      requires Valid() && open && prompt.Some? && prompt.value.answered
      modifies this
      ensures Valid() && View() == Apply(old(View()), AcpDriver.FinishPrompt)
    {
      prompt := None;
      if queued.Some? {
        var batch := queued.value;
        queued := None;
        Launch(batch);
      }
    }

    method Shutdown()
      requires Valid() && open
      modifies this
      ensures Valid() && View() == Apply(old(View()), AcpDriver.Shutdown)
    {
      ghost var before := View();
      prompt, queued, open := None, None, false;
      history := ShutdownStep(before);
    }
  }
}
