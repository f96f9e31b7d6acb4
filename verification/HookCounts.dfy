/** Installing twice, the counters installing and removing report, and the hooks that are not ours. */
module HookCounts {
  import opened Options
  import opened HookTree
  import opened HookLaws

  // ----- a second install changes nothing

  predicate Settled(cmd: string, t: seq<Entry>, s: Slot) {
    var v := Get(t, s.event);
    v.Some? && v.value.Blocks? && Present(cmd, s.matcher, v.value.bs)
  }

  lemma {:induction false} AddedIsPresent(cmd: string, m: Option<string>, bs: seq<Block>)
    ensures Present(cmd, m, Added(cmd, m, bs))
    ensures Present(cmd, m, bs) ==> Added(cmd, m, bs) == bs
  {
    if bs == [] {
      assert IsOurs(cmd, [Ours(cmd)][0]);
    } else {
      AddedIsPresent(cmd, m, bs[1..]);
      var hs := if bs[0].hooks.Some? then bs[0].hooks.value else [];
      assert IsOurs(cmd, (hs + [Ours(cmd)])[|hs|]);
      if !Target(m, bs[0]) {
        assert Added(cmd, m, bs)[1..] == Added(cmd, m, bs[1..]);
      }
    }
  }

  function BlocksAt(t: seq<Entry>, ev: string): seq<Block> {
    var v := Get(t, ev);
    if v.Some? && v.value.Blocks? then v.value.bs else []
  }

  lemma UpsertedIs(cmd: string, t: seq<Entry>, s: Slot, ev: string)
    requires Upserted(cmd, t, s).Some?
    ensures Get(Upserted(cmd, t, s).value, ev) ==
            if ev == s.event then Some(Blocks(Added(cmd, s.matcher, BlocksAt(t, s.event)))) else Get(t, ev)
  {
    GetPut(t, s.event, Blocks(Added(cmd, s.matcher, BlocksAt(t, s.event))), ev);
  }

  lemma SettledIsFixed(cmd: string, t: seq<Entry>, s: Slot)
    requires Settled(cmd, t, s)
    ensures Upserted(cmd, t, s) == Some(t)
  {
    var bs := BlocksAt(t, s.event);
    AddedIsPresent(cmd, s.matcher, bs);
    PutSame(t, s.event, Blocks(bs));
  }

  lemma {:induction false} UpsertAllSettles(cmd: string, t: seq<Entry>, slots: seq<Slot>)
    requires DistinctSlots(slots) && UpsertAll(cmd, t, slots).Some?
    ensures forall i :: 0 <= i < |slots| ==> Settled(cmd, UpsertAll(cmd, t, slots).value, slots[i])
    decreases |slots|
  {
    if slots != [] {
      var n := |slots| - 1;
      var front := slots[..n];
      UpsertAllSettles(cmd, t, front);
      var u := UpsertAll(cmd, t, front).value;
      forall i | 0 <= i < |slots|
        ensures Settled(cmd, UpsertAll(cmd, t, slots).value, slots[i])
      {
        UpsertedIs(cmd, u, slots[n], slots[i].event);
        if i == n {
          AddedIsPresent(cmd, slots[n].matcher, BlocksAt(u, slots[n].event));
        } else {
          assert front[i] == slots[i];
        }
      }
    }
  }

  lemma {:induction false} SettledAllFixed(cmd: string, t: seq<Entry>, slots: seq<Slot>)
    requires forall i :: 0 <= i < |slots| ==> Settled(cmd, t, slots[i])
    ensures UpsertAll(cmd, t, slots) == Some(t) && Additions(cmd, t, slots) == 0
    decreases |slots|
  {
    if slots != [] {
      var n := |slots| - 1;
      SettledAllFixed(cmd, t, slots[..n]);
      SettledIsFixed(cmd, t, slots[n]);
    }
  }

  /** No block without a matcher holds our command, and no block is empty. */
  predicate DroppedForm(cmd: string, bs: seq<Block>) {
    forall i :: 0 <= i < |bs| ==> Full(bs[i]) && (Fits(None, bs[i]) ==> !Has(cmd, bs[i].hooks.value))
  }

  lemma {:induction false} StripHasNone(cmd: string, hs: seq<Hook>)
    ensures !Has(cmd, Strip(cmd, hs))
  {
    if hs != [] {
      StripHasNone(cmd, hs[1..]);
    }
  }

  lemma {:induction false} CleanedForm(cmd: string, bs: seq<Block>)
    ensures DroppedForm(cmd, Cleaned(cmd, false, None, bs))
    ensures DroppedForm(cmd, bs) ==> Cleaned(cmd, false, None, bs) == bs
  {
    if bs != [] {
      CleanedForm(cmd, bs[1..]);
      if bs[0].hooks.Some? {
        StripHasNone(cmd, bs[0].hooks.value);
      }
      if DroppedForm(cmd, bs) {
        assert DroppedForm(cmd, bs[1..]);
        if Fits(None, bs[0]) {
          StripNone(cmd, bs[0].hooks.value);
        }
        assert bs == [bs[0]] + bs[1..];
      }
    }
  }

  lemma {:induction false} AddedForm(cmd: string, m: string, bs: seq<Block>)
    requires DroppedForm(cmd, bs)
    ensures DroppedForm(cmd, Added(cmd, Some(m), bs))
  {
    if bs != [] {
      AddedForm(cmd, m, bs[1..]);
    }
  }

  /** Installing touches each event once, whatever the order of the six. */
  lemma {:induction false} UpsertAllAt(cmd: string, t: seq<Entry>, slots: seq<Slot>, k: nat)
    requires DistinctSlots(slots) && UpsertAll(cmd, t, slots).Some? && k < |slots|
    ensures Get(UpsertAll(cmd, t, slots).value, slots[k].event)
         == Some(Blocks(Added(cmd, slots[k].matcher, BlocksAt(t, slots[k].event))))
    decreases |slots|
  {
    var n := |slots| - 1;
    var front := slots[..n];
    var u := UpsertAll(cmd, t, front).value;
    UpsertedIs(cmd, u, slots[n], slots[k].event);
    if k == n {
      UpsertAllKeeps(cmd, t, front, slots[n].event);
    } else {
      assert front[k] == slots[k];
      UpsertAllAt(cmd, t, front, k);
    }
  }

  lemma EnsuredForm(cmd: string, t: seq<Entry>)
    requires Distinct(t) && Ensured(cmd, t).Some?
    ensures DroppedForm(cmd, BlocksAt(Ensured(cmd, t).value, POST_TOOL_USE))
  {
    DroppedGet(cmd, t, POST_TOOL_USE);
    CleanedForm(cmd, BlocksAt(t, POST_TOOL_USE));
    UpsertAllAt(cmd, Dropped(cmd, t), SLOTS, 2);
    AddedForm(cmd, "mcp__claudetalk__.*", BlocksAt(Dropped(cmd, t), POST_TOOL_USE));
  }

  lemma DroppedIsFixed(cmd: string, t: seq<Entry>)
    requires DroppedForm(cmd, BlocksAt(t, POST_TOOL_USE)) && BlocksAt(t, POST_TOOL_USE) != []
    ensures Dropped(cmd, t) == t
  {
    var bs := BlocksAt(t, POST_TOOL_USE);
    CleanedForm(cmd, bs);
    PutSame(t, POST_TOOL_USE, Blocks(bs));
  }

  // ----- counters

  /** How many of the slots did not hold our command when their turn came. */
  function Additions(cmd: string, t: seq<Entry>, slots: seq<Slot>): nat
    decreases |slots|
  {
    if slots == [] then 0
    else
      var front := slots[..|slots| - 1];
      var s := slots[|slots| - 1];
      var before := UpsertAll(cmd, t, front);
      Additions(cmd, t, front) + if before.Some? && !Settled(cmd, before.value, s) then 1 else 0
  }

  function OursIn(cmd: string, hs: seq<Hook>): nat {
    if hs == [] then 0 else (if IsOurs(cmd, hs[0]) then 1 else 0) + OursIn(cmd, hs[1..])
  }

  function OursInBlocks(cmd: string, bs: seq<Block>): nat {
    if bs == [] then 0
    else (if bs[0].hooks.Some? then OursIn(cmd, bs[0].hooks.value) else 0) + OursInBlocks(cmd, bs[1..])
  }

  function OursInValue(cmd: string, v: Value): nat { if v.Blocks? then OursInBlocks(cmd, v.bs) else 0 }

  /** How often our command is in the tree. */
  function OursInTree(cmd: string, t: seq<Entry>): nat {
    if t == [] then 0 else OursInValue(cmd, t[0].value) + OursInTree(cmd, t[1..])
  }

  /** Installing twice is installing once: nothing is added, nothing removed, and all six places are found. */
  lemma SecondInstall(cmd: string, h: Hooks)
    requires WellFormed(h) && Ensure(cmd, h).Some?
    ensures var once := Ensure(cmd, h).value;
            && WellFormed(once)
            && Ensure(cmd, once) == Some(once)
            && Dropped(cmd, once.t) == once.t && DropCount(cmd, once.t) == 0
            && Additions(cmd, Dropped(cmd, once.t), SLOTS) == 0
  {
    var t := Events(h);
    var once := Ensured(cmd, t).value;
    EnsuredIsDistinct(cmd, t);
    EnsuredForm(cmd, t);
    EnsuredIsSettled(cmd, t);
    DroppedIsFixed(cmd, once);
    DroppedCounts(cmd, once);
    SettledAllFixed(cmd, once, SLOTS);
  }

  lemma EnsuredIsDistinct(cmd: string, t: seq<Entry>)
    requires Distinct(t) && Ensured(cmd, t).Some?
    ensures Distinct(Ensured(cmd, t).value)
  {
    RemovedAfterDrop(cmd, t);
    RemovedAfterUpserts(cmd, Dropped(cmd, t), SLOTS);
  }

  lemma EnsuredIsSettled(cmd: string, t: seq<Entry>)
    requires Ensured(cmd, t).Some?
    ensures forall i :: 0 <= i < |SLOTS| ==> Settled(cmd, Ensured(cmd, t).value, SLOTS[i])
    ensures BlocksAt(Ensured(cmd, t).value, POST_TOOL_USE) != []
  {
    UpsertAllSettles(cmd, Dropped(cmd, t), SLOTS);
    assert Settled(cmd, Ensured(cmd, t).value, SLOTS[2]);
  }

  lemma {:induction false} StripCounts(cmd: string, hs: seq<Hook>)
    ensures |Strip(cmd, hs)| + OursIn(cmd, hs) == |hs| && OursIn(cmd, Strip(cmd, hs)) == 0
  {
    if hs != [] {
      StripCounts(cmd, hs[1..]);
      if !IsOurs(cmd, hs[0]) {
        assert Strip(cmd, hs)[1..] == Strip(cmd, hs[1..]);
      } else {
        assert Strip(cmd, hs) == Strip(cmd, hs[1..]);
      }
    }
  }

  /** How often our command is in the blocks that fit. */
  function OursFitting(cmd: string, all: bool, m: Option<string>, bs: seq<Block>): nat {
    if bs == [] then 0
    else
      var here := if bs[0].hooks.Some? && (all || Fits(m, bs[0])) then OursIn(cmd, bs[0].hooks.value) else 0;
      here + OursFitting(cmd, all, m, bs[1..])
  }

  lemma {:induction false} CleanedCounts(cmd: string, all: bool, m: Option<string>, bs: seq<Block>)
    ensures OursInBlocks(cmd, Cleaned(cmd, all, m, bs)) + OursFitting(cmd, all, m, bs) == OursInBlocks(cmd, bs)
    ensures all ==> OursInBlocks(cmd, Cleaned(cmd, all, m, bs)) == 0
  {
    if bs != [] {
      CleanedCounts(cmd, all, m, bs[1..]);
      var b := if all || Fits(m, bs[0]) then StripBlock(cmd, bs[0]) else bs[0];
      var rest := Cleaned(cmd, all, m, bs[1..]);
      if bs[0].hooks.Some? {
        StripCounts(cmd, bs[0].hooks.value);
      }
      if Full(b) {
        assert ([b] + rest)[1..] == rest;
      } else {
        assert [] + rest == rest;
      }
    }
  }

  lemma {:induction false} OursSnoc(cmd: string, hs: seq<Hook>)
    ensures OursIn(cmd, hs + [Ours(cmd)]) == OursIn(cmd, hs) + 1
  {
    if hs == [] {
      assert hs + [Ours(cmd)] == [Ours(cmd)];
      assert [Ours(cmd)][1..] == [];
    } else {
      OursSnoc(cmd, hs[1..]);
      assert (hs + [Ours(cmd)])[1..] == hs[1..] + [Ours(cmd)];
    }
  }

  lemma {:induction false} AddedCounts(cmd: string, m: Option<string>, bs: seq<Block>)
    ensures OursInBlocks(cmd, Added(cmd, m, bs)) == OursInBlocks(cmd, bs) + if Present(cmd, m, bs) then 0 else 1
  {
    if bs == [] {
      OursSnoc(cmd, []);
      assert [] + [Ours(cmd)] == [Ours(cmd)];
      assert Added(cmd, m, bs)[1..] == [];
    } else {
      AddedCounts(cmd, m, bs[1..]);
      assert Added(cmd, m, bs)[1..] == (if Target(m, bs[0]) then bs[1..] else Added(cmd, m, bs[1..]));
      if Target(m, bs[0]) {
        OursSnoc(cmd, bs[0].hooks.value);
      }
    }
  }

  function OursAt(cmd: string, t: seq<Entry>, ev: string): nat {
    var v := Get(t, ev);
    if v.Some? then OursInValue(cmd, v.value) else 0
  }

  lemma {:induction false} PutCounts(cmd: string, t: seq<Entry>, ev: string, v: Value)
    ensures OursInTree(cmd, Put(t, ev, v)) + OursAt(cmd, t, ev) == OursInTree(cmd, t) + OursInValue(cmd, v)
  {
    if t != [] && t[0].event != ev {
      PutCounts(cmd, t[1..], ev, v);
      assert Put(t, ev, v)[1..] == Put(t[1..], ev, v);
    } else if t != [] {
      assert Put(t, ev, v)[1..] == t[1..];
    }
  }

  lemma {:induction false} DeleteCounts(cmd: string, t: seq<Entry>, ev: string)
    ensures OursInTree(cmd, Delete(t, ev)) + OursAt(cmd, t, ev) == OursInTree(cmd, t)
  {
    if t != [] && t[0].event != ev {
      DeleteCounts(cmd, t[1..], ev);
      assert Delete(t, ev)[1..] == Delete(t[1..], ev);
    }
  }

  /** What `dropOurs` counts. */
  function DropCount(cmd: string, t: seq<Entry>): nat {
    OursFitting(cmd, false, None, BlocksAt(t, POST_TOOL_USE))
  }

  lemma DroppedCounts(cmd: string, t: seq<Entry>)
    ensures OursInTree(cmd, Dropped(cmd, t)) + DropCount(cmd, t) == OursInTree(cmd, t)
  {
    var v := Get(t, POST_TOOL_USE);
    if v.Some? && v.value.Blocks? {
      CleanedCounts(cmd, false, None, v.value.bs);
      PutCounts(cmd, t, POST_TOOL_USE, Blocks(Cleaned(cmd, false, None, v.value.bs)));
      DeleteCounts(cmd, t, POST_TOOL_USE);
    }
  }

  lemma {:induction false} UpsertsCount(cmd: string, t: seq<Entry>, slots: seq<Slot>)
    requires UpsertAll(cmd, t, slots).Some?
    ensures OursInTree(cmd, UpsertAll(cmd, t, slots).value) == OursInTree(cmd, t) + Additions(cmd, t, slots)
    ensures Additions(cmd, t, slots) <= |slots|
    decreases |slots|
  {
    if slots != [] {
      var n := |slots| - 1;
      UpsertsCount(cmd, t, slots[..n]);
      var u, s := UpsertAll(cmd, t, slots[..n]).value, slots[n];
      AddedCounts(cmd, s.matcher, BlocksAt(u, s.event));
      PutCounts(cmd, u, s.event, Blocks(Added(cmd, s.matcher, BlocksAt(u, s.event))));
    }
  }

  /** The counters account for every copy of our command that came or went. */
  lemma InstallBalances(cmd: string, h: Hooks)
    requires Ensure(cmd, h).Some?
    ensures OursInTree(cmd, Ensure(cmd, h).value.t) + DropCount(cmd, Events(h))
         == OursInTree(cmd, Events(h)) + Additions(cmd, Dropped(cmd, Events(h)), SLOTS)
  {
    DroppedCounts(cmd, Events(h));
    UpsertsCount(cmd, Dropped(cmd, Events(h)), SLOTS);
  }

  lemma {:induction false} RemovedHasNone(cmd: string, t: seq<Entry>)
    ensures OursInTree(cmd, Removed(cmd, t)) == 0
  {
    if t != [] {
      RemovedHasNone(cmd, t[1..]);
      if t[0].value.Blocks? {
        CleanedCounts(cmd, true, None, t[0].value.bs);
      }
      if RemovedEntry(cmd, t[0]) == [] {
        assert Removed(cmd, t) == Removed(cmd, t[1..]);
      } else {
        assert Removed(cmd, t)[1..] == Removed(cmd, t[1..]);
      }
    }
  }

  // ----- hooks that are not ours

  /** A hook together with the block it is in. */
  datatype Placed = Placed(matcher: Matcher, rest: string, hook: Hook)

  function PlacedIn(b: Block, hs: seq<Hook>): seq<Placed> {
    seq(|hs|, i requires 0 <= i < |hs| => Placed(b.matcher, b.rest, hs[i]))
  }

  /** The foreign hooks of an event, in order. */
  function Foreign(cmd: string, bs: seq<Block>): seq<Placed> {
    if bs == [] then []
    else ForeignIn(cmd, bs[0]) + Foreign(cmd, bs[1..])
  }

  function ForeignIn(cmd: string, b: Block): seq<Placed> {
    if b.hooks.Some? then PlacedIn(b, Strip(cmd, b.hooks.value)) else []
  }

  lemma ForeignHead(cmd: string, b: Block, bs: seq<Block>)
    ensures Foreign(cmd, [b] + bs) == ForeignIn(cmd, b) + Foreign(cmd, bs)
  {
    assert ([b] + bs)[1..] == bs;
  }

  lemma StripKeepsForeign(cmd: string, b: Block)
    ensures ForeignIn(cmd, StripBlock(cmd, b)) == ForeignIn(cmd, b)
  {
    if b.hooks.Some? {
      StripStrip(cmd, b.hooks.value);
    }
  }

  lemma EmptyHasNoForeign(cmd: string, b: Block)
    requires !Full(b)
    ensures ForeignIn(cmd, b) == []
  {
  }

  lemma {:induction false} CleanedKeepsForeign(cmd: string, all: bool, m: Option<string>, bs: seq<Block>)
    ensures Foreign(cmd, Cleaned(cmd, all, m, bs)) == Foreign(cmd, bs)
  {
    if bs != [] {
      CleanedKeepsForeign(cmd, all, m, bs[1..]);
      var b := if all || Fits(m, bs[0]) then StripBlock(cmd, bs[0]) else bs[0];
      var rest := Cleaned(cmd, all, m, bs[1..]);
      StripKeepsForeign(cmd, bs[0]);
      ForeignHead(cmd, bs[0], bs[1..]);
      assert bs == [bs[0]] + bs[1..];
      if Full(b) {
        ForeignHead(cmd, b, rest);
      } else {
        EmptyHasNoForeign(cmd, b);
        assert [] + rest == rest;
      }
    }
  }

  lemma {:induction false} AddedKeepsForeign(cmd: string, m: Option<string>, bs: seq<Block>)
    ensures Foreign(cmd, Added(cmd, m, bs)) == Foreign(cmd, bs)
  {
    if bs == [] {
      StripSnoc(cmd, []);
      assert [] + [Ours(cmd)] == [Ours(cmd)];
      assert Added(cmd, m, bs)[1..] == [];
    } else {
      AddedKeepsForeign(cmd, m, bs[1..]);
      assert Added(cmd, m, bs)[1..] == (if Target(m, bs[0]) then bs[1..] else Added(cmd, m, bs[1..]));
      if Target(m, bs[0]) {
        StripSnoc(cmd, bs[0].hooks.value);
      }
    }
  }

  lemma {:induction false} UpsertsKeepForeign(cmd: string, t: seq<Entry>, slots: seq<Slot>, ev: string)
    requires UpsertAll(cmd, t, slots).Some?
    ensures Foreign(cmd, BlocksAt(UpsertAll(cmd, t, slots).value, ev)) == Foreign(cmd, BlocksAt(t, ev))
    decreases |slots|
  {
    if slots != [] {
      var n := |slots| - 1;
      UpsertsKeepForeign(cmd, t, slots[..n], ev);
      var u := UpsertAll(cmd, t, slots[..n]).value;
      UpsertedIs(cmd, u, slots[n], ev);
      AddedKeepsForeign(cmd, slots[n].matcher, BlocksAt(u, slots[n].event));
    }
  }

  lemma DropKeepsForeign(cmd: string, t: seq<Entry>, ev: string)
    requires Distinct(t)
    ensures Foreign(cmd, BlocksAt(Dropped(cmd, t), ev)) == Foreign(cmd, BlocksAt(t, ev))
  {
    DroppedGet(cmd, t, ev);
    CleanedKeepsForeign(cmd, false, None, BlocksAt(t, ev));
  }

  lemma RemovedKeepsForeign(cmd: string, t: seq<Entry>, ev: string)
    requires Distinct(t)
    ensures Foreign(cmd, BlocksAt(Removed(cmd, t), ev)) == Foreign(cmd, BlocksAt(t, ev))
  {
    GetRemoved(cmd, t, ev);
    CleanedKeepsForeign(cmd, true, None, BlocksAt(t, ev));
  }

  /** Neither installing nor removing changes, moves or drops a hook that is not ours. */
  lemma ForeignHooksStay(cmd: string, h: Hooks, ev: string)
    requires WellFormed(h)
    ensures Ensure(cmd, h).Some? ==>
              Foreign(cmd, BlocksAt(Events(Ensure(cmd, h).value), ev)) == Foreign(cmd, BlocksAt(Events(h), ev))
    ensures Foreign(cmd, BlocksAt(Events(Remove(cmd, h)), ev)) == Foreign(cmd, BlocksAt(Events(h), ev))
  {
    DropKeepsForeign(cmd, Events(h), ev);
    if Ensure(cmd, h).Some? {
      UpsertsKeepForeign(cmd, Dropped(cmd, Events(h)), SLOTS, ev);
    }
    RemovedKeepsForeign(cmd, Events(h), ev);
  }
}
