/** `ensureHooks` and `removeHooks` of legacy/src/installer.ts, editing the settings in place and counting. */
module HookInstaller {
  import opened Options
  import Seqs
  import opened HookTree
  import opened HookLaws
  import opened HookCounts

  // ----- the filters, from the front

  function CleanedOne(cmd: string, all: bool, m: Option<string>, b: Block): seq<Block> {
    var c := if all || Fits(m, b) then StripBlock(cmd, b) else b;
    if Full(c) then [c] else []
  }

  lemma CleanedHead(cmd: string, all: bool, m: Option<string>, bs: seq<Block>)
    requires bs != []
    ensures Cleaned(cmd, all, m, bs) == CleanedOne(cmd, all, m, bs[0]) + Cleaned(cmd, all, m, bs[1..])
  {
  }

  lemma {:induction false} CleanedSnoc(cmd: string, all: bool, m: Option<string>, bs: seq<Block>, b: Block)
    ensures Cleaned(cmd, all, m, bs + [b]) == Cleaned(cmd, all, m, bs) + CleanedOne(cmd, all, m, b)
  {
    if bs == [] {
      assert bs + [b] == [b];
      assert [b][1..] == [];
      CleanedHead(cmd, all, m, [b]);
    } else {
      CleanedSnoc(cmd, all, m, bs[1..], b);
      CleanedHead(cmd, all, m, bs);
      CleanedHead(cmd, all, m, bs + [b]);
      assert (bs + [b])[1..] == bs[1..] + [b] && (bs + [b])[0] == bs[0];
      Seqs.Assoc(CleanedOne(cmd, all, m, bs[0]), Cleaned(cmd, all, m, bs[1..]), CleanedOne(cmd, all, m, b));
    }
  }

  lemma {:induction false} FittingSnoc(cmd: string, all: bool, m: Option<string>, bs: seq<Block>, b: Block)
    ensures OursFitting(cmd, all, m, bs + [b]) == OursFitting(cmd, all, m, bs) + OursFitting(cmd, all, m, [b])
  {
    if bs == [] {
      assert bs + [b] == [b];
    } else {
      FittingSnoc(cmd, all, m, bs[1..], b);
      assert (bs + [b])[1..] == bs[1..] + [b];
    }
  }

  lemma OneFitting(cmd: string, all: bool, m: Option<string>, b: Block)
    ensures OursFitting(cmd, all, m, [b])
         == if b.hooks.Some? && (all || Fits(m, b)) then OursIn(cmd, b.hooks.value) else 0
  {
    assert [b][1..] == [];
  }

  lemma {:induction false} StripSnocAny(cmd: string, hs: seq<Hook>, h: Hook)
    ensures Strip(cmd, hs + [h]) == Strip(cmd, hs) + (if IsOurs(cmd, h) then [] else [h])
  {
    if hs == [] {
      assert hs + [h] == [h];
      assert [h][1..] == [];
    } else {
      StripSnocAny(cmd, hs[1..], h);
      assert (hs + [h])[1..] == hs[1..] + [h];
    }
  }

  method FilterHooks(cmd: string, hs: seq<Hook>) returns (kept: seq<Hook>)
    ensures kept == Strip(cmd, hs) && |hs| - |kept| == OursIn(cmd, hs)
  {
    kept := [];
    for i := 0 to |hs|
      invariant kept == Strip(cmd, hs[..i])
    {
      assert hs[..i + 1] == hs[..i] + [hs[i]];
      StripSnocAny(cmd, hs[..i], hs[i]);
      if !IsOurs(cmd, hs[i]) {
        kept := kept + [hs[i]];
      }
    }
    assert hs[..|hs|] == hs;
    StripCounts(cmd, hs);
  }

  /** Takes our command out of the blocks that fit, drops blocks without hooks, and counts what it took. */
  method CleanBlocks(cmd: string, all: bool, m: Option<string>, bs: seq<Block>) returns (kept: seq<Block>, removed: nat)
    ensures kept == Cleaned(cmd, all, m, bs) && removed == OursFitting(cmd, all, m, bs)
  {
    kept, removed := [], 0;
    for i := 0 to |bs|
      invariant kept == Cleaned(cmd, all, m, bs[..i]) && removed == OursFitting(cmd, all, m, bs[..i])
    {
      assert bs[..i + 1] == bs[..i] + [bs[i]];
      CleanedSnoc(cmd, all, m, bs[..i], bs[i]);
      FittingSnoc(cmd, all, m, bs[..i], bs[i]);
      OneFitting(cmd, all, m, bs[i]);
      var block := bs[i];
      if (all || Fits(m, block)) && block.hooks.Some? {
        var hooks := FilterHooks(cmd, block.hooks.value);
        removed := removed + (|block.hooks.value| - |hooks|);
        block := block.(hooks := Some(hooks));
      }
      if Full(block) {
        kept := kept + [block];
      }
    }
    assert bs[..|bs|] == bs;
  }

  /** Where `find` finds the block, or the length when it finds none. */
  function FindTarget(m: Option<string>, bs: seq<Block>): (i: nat)
    ensures i <= |bs| && (i < |bs| ==> Target(m, bs[i])) && forall j :: 0 <= j < i ==> !Target(m, bs[j])
  {
    if bs == [] || Target(m, bs[0]) then 0 else 1 + FindTarget(m, bs[1..])
  }

  lemma {:induction false} AddedAt(cmd: string, m: Option<string>, bs: seq<Block>)
    ensures var i := FindTarget(m, bs);
            && Present(cmd, m, bs) == (i < |bs| && Has(cmd, bs[i].hooks.value))
            && Added(cmd, m, bs) ==
               if i == |bs| then bs + [Block(if m.None? then Unset else Text(m.value), Some([Ours(cmd)]), "")]
               else if Has(cmd, bs[i].hooks.value) then bs
               else bs[i := bs[i].(hooks := Some(bs[i].hooks.value + [Ours(cmd)]))]
  {
    if bs != [] && !Target(m, bs[0]) {
      AddedAt(cmd, m, bs[1..]);
      assert bs == [bs[0]] + bs[1..];
    }
  }

  // ----- removal over the events in order

  lemma {:induction false} RemovedSnoc(cmd: string, t: seq<Entry>, e: Entry)
    ensures Removed(cmd, t + [e]) == Removed(cmd, t) + RemovedEntry(cmd, e)
    ensures OursInTree(cmd, t + [e]) == OursInTree(cmd, t) + OursInValue(cmd, e.value)
  {
    if t == [] {
      assert t + [e] == [e];
      assert [e][1..] == [];
    } else {
      RemovedSnoc(cmd, t[1..], e);
      assert (t + [e])[1..] == t[1..] + [e];
    }
  }

  lemma InstallStep(cmd: string, t: seq<Entry>, slots: seq<Slot>, i: nat)
    requires i < |slots| && UpsertAll(cmd, t, slots[..i]).Some?
    ensures var before := UpsertAll(cmd, t, slots[..i]).value;
            && UpsertAll(cmd, t, slots[..i + 1]) == Upserted(cmd, before, slots[i])
            && Additions(cmd, t, slots[..i + 1]) ==
               Additions(cmd, t, slots[..i]) + if Settled(cmd, before, slots[i]) then 0 else 1
  {
    assert slots[..i + 1][..i] == slots[..i];
  }

  datatype Report = Report(added: nat, existed: nat, removed: nat)

  class Settings {
    var hooks: Hooks
    const cmd: string

    constructor (hooks: Hooks, cmd: string)
      ensures this.hooks == hooks && this.cmd == cmd
    {
      this.hooks, this.cmd := hooks, cmd;
    }

    method DropOurs() returns (removed: nat)
      requires hooks.Tree?
      modifies this
      ensures hooks == Tree(Dropped(cmd, old(hooks.t)))
      ensures removed == DropCount(cmd, old(hooks.t))
    {
      removed := 0;
      var value := Get(hooks.t, POST_TOOL_USE);
      if value.Some? && value.value.Blocks? {
        var kept;
        kept, removed := CleanBlocks(cmd, false, None, value.value.bs);
        hooks := Tree(if kept == [] then Delete(hooks.t, POST_TOOL_USE) else Put(hooks.t, POST_TOOL_USE, Blocks(kept)));
      }
    }

    /** None when the search for a block throws. */
    method Upsert(s: Slot) returns (present: Option<bool>)
      requires hooks.Tree?
      modifies this
      ensures present.None? <==> Upserted(cmd, old(hooks.t), s).None?
      ensures present.Some? ==> hooks == Tree(Upserted(cmd, old(hooks.t), s).value)
      ensures present.Some? ==> present.value == Settled(cmd, old(hooks.t), s)
      ensures hooks.Tree?
    {
      var value := Get(hooks.t, s.event);
      if value.Some? && value.value.OtherValue? {
        return None;
      }
      var blocks: seq<Block> := if value.Some? && value.value.Blocks? then value.value.bs else [];
      AddedAt(cmd, s.matcher, blocks);
      var i := 0;
      while i < |blocks| && !Target(s.matcher, blocks[i])
        invariant i <= FindTarget(s.matcher, blocks)
      {
        i := i + 1;
      }
      var isNew := i == |blocks|;
      var matcher := if s.matcher.None? then Unset else Text(s.matcher.value);
      var target := if isNew then Block(matcher, Some([]), "") else blocks[i];
      var has := Has(cmd, target.hooks.value);
      if !has {
        target := target.(hooks := Some(target.hooks.value + [Ours(cmd)]));
      }
      assert isNew ==> target.hooks.value == [Ours(cmd)];
      assert !isNew && has ==> blocks[i := target] == blocks;
      blocks := if isNew then blocks + [target] else blocks[i := target];
      hooks := Tree(Put(hooks.t, s.event, Blocks(blocks)));
      return Some(has);
    }

    /** One slot after the other, counting those that were missing and those that were there. */
    method UpsertEach(slots: seq<Slot>) returns (counts: Option<(nat, nat)>)
      requires hooks.Tree?
      modifies this
      ensures counts.None? <==> UpsertAll(cmd, old(hooks.t), slots).None?
      ensures counts.Some? ==> hooks == Tree(UpsertAll(cmd, old(hooks.t), slots).value)
      ensures counts.Some? ==> counts.value.0 == Additions(cmd, old(hooks.t), slots)
      ensures counts.Some? ==> counts.value.0 + counts.value.1 == |slots|
    {
      ghost var start := hooks.t;
      var added, existed := 0, 0;
      for i := 0 to |slots|
        invariant hooks.Tree? && UpsertAll(cmd, start, slots[..i]) == Some(hooks.t)
        invariant added == Additions(cmd, start, slots[..i]) && added + existed == i
      {
        InstallStep(cmd, start, slots, i);
        var present := Upsert(slots[i]);
        if present.None? {
          ThrowsEarly(cmd, start, slots, i + 1);
          return None;
        }
        if present.value {
          existed := existed + 1;
        } else {
          added := added + 1;
        }
      }
      assert slots[..|slots|] == slots;
      return Some((added, existed));
    }

    /** None when one of the events holds neither null nor a list; then nothing is written. */
    method EnsureHooks() returns (r: Option<Report>)
      requires WellFormed(hooks)
      modifies this
      ensures r.None? <==> OddAt(Events(old(hooks)), SLOTS)
      ensures r.Some? ==> Some(hooks) == Ensure(cmd, old(hooks))
      ensures r.Some? ==> r.value.removed == DropCount(cmd, Events(old(hooks)))
      ensures r.Some? ==> r.value.added == Additions(cmd, Dropped(cmd, Events(old(hooks))), SLOTS)
      ensures r.Some? ==> r.value.added + r.value.existed == 6
    {
      EnsureThrows(cmd, hooks);
      if !hooks.Tree? {
        hooks := Tree([]);
      }
      var removed := DropOurs();
      var counts := UpsertEach(SLOTS);
      if counts.None? {
        return None;
      }
      return Some(Report(counts.value.0, counts.value.1, removed));
    }

    method RemoveHooks() returns (removed: nat)
      modifies this
      ensures hooks == Remove(cmd, old(hooks))
      ensures removed == OursInTree(cmd, Events(old(hooks)))
    {
      removed := 0;
      if !hooks.Tree? {
        return;
      }
      var t, kept := hooks.t, [];
      for i := 0 to |t|
        invariant kept == Removed(cmd, t[..i]) && removed == OursInTree(cmd, t[..i])
      {
        assert t[..i + 1] == t[..i] + [t[i]];
        RemovedSnoc(cmd, t[..i], t[i]);
        if t[i].value.Blocks? {
          var blocks, count := CleanBlocks(cmd, true, None, t[i].value.bs);
          CleanedCounts(cmd, true, None, t[i].value.bs);
          removed := removed + count;
          if blocks != [] {
            kept := kept + [Entry(t[i].event, Blocks(blocks))];
          }
        } else {
          kept := kept + [t[i]];
        }
      }
      assert t[..|t|] == t;
      hooks := if kept == [] then Missing else Tree(kept);
    }
  }

  lemma {:induction false} ThrowsEarly(cmd: string, t: seq<Entry>, slots: seq<Slot>, i: nat)
    requires i <= |slots| && UpsertAll(cmd, t, slots[..i]).None?
    ensures UpsertAll(cmd, t, slots).None?
    decreases |slots| - i
  {
    if i < |slots| {
      assert slots[..i + 1][..i] == slots[..i];
      ThrowsEarly(cmd, t, slots, i + 1);
    } else {
      assert slots[..i] == slots;
    }
  }
}
