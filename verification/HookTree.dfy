/** The `hooks` part of a settings file, and what installing and removing our command does to it. */
module HookTree {
  import opened Options

  // ----- the tree

  /** `rest` stands for whatever else an object holds. */
  datatype Hook = Hook(kind: Option<string>, command: Option<string>, rest: string)
  datatype Matcher = Unset | Null | Text(s: string) | Odd(repr: string)

  /** `hooks` is absent when the block has no array of hooks. */
  datatype Block = Block(matcher: Matcher, hooks: Option<seq<Hook>>, rest: string)
  datatype Value = Blocks(bs: seq<Block>) | NullValue | OtherValue(repr: string)
  datatype Entry = Entry(event: string, value: Value)

  function Get(t: seq<Entry>, ev: string): Option<Value> {
    if t == [] then None else if t[0].event == ev then Some(t[0].value) else Get(t[1..], ev)
  }

  /** An object has each key once. */
  predicate Distinct(t: seq<Entry>) {
    t == [] || (Get(t[1..], t[0].event).None? && Distinct(t[1..]))
  }

  /** Assigning keeps the key's place; a new key goes last. */
  function Put(t: seq<Entry>, ev: string, v: Value): seq<Entry> {
    if t == [] then [Entry(ev, v)]
    else if t[0].event == ev then [Entry(ev, v)] + t[1..]
    else [t[0]] + Put(t[1..], ev, v)
  }

  function Delete(t: seq<Entry>, ev: string): seq<Entry> {
    if t == [] then [] else if t[0].event == ev then t[1..] else [t[0]] + Delete(t[1..], ev)
  }

  // ----- our command

  function Ours(cmd: string): Hook { Hook(Some("command"), Some(cmd), "") }

  predicate IsOurs(cmd: string, h: Hook) { h.kind == Some("command") && h.command == Some(cmd) }

  /** A hook is ours exactly if it is the one we install, whatever else it holds. */
  lemma OursIsWhatWeInstall(cmd: string, h: Hook)
    ensures IsOurs(cmd, h) <==> h.(rest := "") == Ours(cmd)
  {
  }

  predicate Has(cmd: string, hs: seq<Hook>) { exists i :: 0 <= i < |hs| && IsOurs(cmd, hs[i]) }

  function Strip(cmd: string, hs: seq<Hook>): seq<Hook> {
    if hs == [] then [] else (if IsOurs(cmd, hs[0]) then [] else [hs[0]]) + Strip(cmd, hs[1..])
  }

  function StripBlock(cmd: string, b: Block): Block {
    if b.hooks.Some? then b.(hooks := Some(Strip(cmd, b.hooks.value))) else b
  }

  predicate Fits(m: Option<string>, b: Block) {
    if m.None? then b.matcher.Unset? || b.matcher.Null? else b.matcher == Text(m.value)
  }

  predicate Full(b: Block) { b.hooks.Some? && b.hooks.value != [] }

  // ----- the two operations on one event

  /** Our command is taken out of the blocks that fit `m` (of every block when `all`), then blocks without hooks go. */
  function Cleaned(cmd: string, all: bool, m: Option<string>, bs: seq<Block>): seq<Block> {
    if bs == [] then []
    else
      var b := if all || Fits(m, bs[0]) then StripBlock(cmd, bs[0]) else bs[0];
      (if Full(b) then [b] else []) + Cleaned(cmd, all, m, bs[1..])
  }

  predicate Target(m: Option<string>, b: Block) { Fits(m, b) && b.hooks.Some? }

  /** Our command goes last in the first block that fits, unless it is there; a new block goes last. */
  function Added(cmd: string, m: Option<string>, bs: seq<Block>): seq<Block> {
    if bs == [] then [Block(if m.None? then Unset else Text(m.value), Some([Ours(cmd)]), "")]
    else if Target(m, bs[0]) then
      if Has(cmd, bs[0].hooks.value) then bs else [bs[0].(hooks := Some(bs[0].hooks.value + [Ours(cmd)]))] + bs[1..]
    else [bs[0]] + Added(cmd, m, bs[1..])
  }

  predicate Present(cmd: string, m: Option<string>, bs: seq<Block>) {
    bs != [] && if Target(m, bs[0]) then Has(cmd, bs[0].hooks.value) else Present(cmd, m, bs[1..])
  }

  // ----- and on the tree

  const POST_TOOL_USE: string := "PostToolUse"

  datatype Slot = Slot(event: string, matcher: Option<string>)

  /** Where our command is installed, in order. */
  const SLOTS: seq<Slot> := [
    Slot("SessionStart", None), Slot("UserPromptSubmit", None), Slot(POST_TOOL_USE, Some("mcp__claudetalk__.*")),
    Slot("PostToolBatch", None), Slot("SubagentStop", None), Slot("Stop", None)
  ]

  function Dropped(cmd: string, t: seq<Entry>): seq<Entry> {
    match Get(t, POST_TOOL_USE)
    case Some(Blocks(bs)) =>
      var kept := Cleaned(cmd, false, None, bs);
      if kept == [] then Delete(t, POST_TOOL_USE) else Put(t, POST_TOOL_USE, Blocks(kept))
    case _ => t
  }

  /** None when the event holds something that is neither null nor a list: the search for a block throws. */
  function Upserted(cmd: string, t: seq<Entry>, s: Slot): Option<seq<Entry>> {
    match Get(t, s.event)
    case Some(OtherValue(_)) => None
    case Some(Blocks(bs)) => Some(Put(t, s.event, Blocks(Added(cmd, s.matcher, bs))))
    case _ => Some(Put(t, s.event, Blocks(Added(cmd, s.matcher, []))))
  }

  function UpsertAll(cmd: string, t: seq<Entry>, slots: seq<Slot>): Option<seq<Entry>>
    decreases |slots|
  {
    if slots == [] then Some(t)
    else
      var before := UpsertAll(cmd, t, slots[..|slots| - 1]);
      if before.None? then None else Upserted(cmd, before.value, slots[|slots| - 1])
  }

  function Ensured(cmd: string, t: seq<Entry>): Option<seq<Entry>> {
    UpsertAll(cmd, Dropped(cmd, t), SLOTS)
  }

  function RemovedEntry(cmd: string, e: Entry): seq<Entry> {
    if !e.value.Blocks? then [e]
    else
      var kept := Cleaned(cmd, true, None, e.value.bs);
      if kept == [] then [] else [Entry(e.event, Blocks(kept))]
  }

  function Removed(cmd: string, t: seq<Entry>): seq<Entry> {
    if t == [] then [] else RemovedEntry(cmd, t[0]) + Removed(cmd, t[1..])
  }

  // ----- get and put

  lemma {:induction false} GetPut(t: seq<Entry>, ev: string, v: Value, other: string)
    ensures Get(Put(t, ev, v), other) == if other == ev then Some(v) else Get(t, other)
  {
    if t != [] {
      GetPut(t[1..], ev, v, other);
    }
  }

  lemma {:induction false} GetDelete(t: seq<Entry>, ev: string, other: string)
    requires other != ev
    ensures Get(Delete(t, ev), other) == Get(t, other)
  {
    if t != [] {
      GetDelete(t[1..], ev, other);
    }
  }

  lemma {:induction false} PutSame(t: seq<Entry>, ev: string, v: Value)
    requires Get(t, ev) == Some(v)
    ensures Put(t, ev, v) == t
  {
    if t[0].event != ev {
      PutSame(t[1..], ev, v);
    }
  }

  // ----- removing undoes installing

  lemma StripHead(cmd: string, h: Hook, hs: seq<Hook>)
    ensures Strip(cmd, [h] + hs) == (if IsOurs(cmd, h) then [] else [h]) + Strip(cmd, hs)
  {
    assert ([h] + hs)[1..] == hs;
  }

  lemma {:induction false} StripStrip(cmd: string, hs: seq<Hook>)
    ensures Strip(cmd, Strip(cmd, hs)) == Strip(cmd, hs)
  {
    if hs != [] {
      var rest := Strip(cmd, hs[1..]);
      StripStrip(cmd, hs[1..]);
      StripHead(cmd, hs[0], rest);
      assert [] + rest == rest;
    }
  }

  lemma {:induction false} StripSnoc(cmd: string, hs: seq<Hook>)
    ensures Strip(cmd, hs + [Ours(cmd)]) == Strip(cmd, hs)
  {
    if hs == [] {
      assert hs + [Ours(cmd)] == [Ours(cmd)];
      assert [Ours(cmd)][1..] == [];
    } else {
      StripSnoc(cmd, hs[1..]);
      assert (hs + [Ours(cmd)])[1..] == hs[1..] + [Ours(cmd)];
    }
  }

  lemma {:induction false} CleanAfterDrop(cmd: string, m: Option<string>, bs: seq<Block>)
    ensures Cleaned(cmd, true, None, Cleaned(cmd, false, m, bs)) == Cleaned(cmd, true, None, bs)
  {
    if bs != [] {
      CleanAfterDrop(cmd, m, bs[1..]);
      var b := if Fits(m, bs[0]) then StripBlock(cmd, bs[0]) else bs[0];
      var rest := Cleaned(cmd, false, m, bs[1..]);
      if bs[0].hooks.Some? {
        StripStrip(cmd, bs[0].hooks.value);
      }
      if Full(b) {
        assert ([b] + rest)[1..] == rest;
      } else {
        assert [] + rest == rest;
      }
    }
  }

  lemma {:induction false} CleanAfterAdd(cmd: string, m: Option<string>, bs: seq<Block>)
    ensures Cleaned(cmd, true, None, Added(cmd, m, bs)) == Cleaned(cmd, true, None, bs)
  {
    if bs == [] {
      assert [Ours(cmd)][1..] == [];
      assert Strip(cmd, [Ours(cmd)]) == [];
      assert Added(cmd, m, bs)[1..] == [];
    } else {
      CleanAfterAdd(cmd, m, bs[1..]);
      assert Added(cmd, m, bs)[1..] == (if Target(m, bs[0]) then bs[1..] else Added(cmd, m, bs[1..]));
      if Target(m, bs[0]) {
        StripSnoc(cmd, bs[0].hooks.value);
      }
    }
  }

  lemma {:induction false} DistinctPut(t: seq<Entry>, ev: string, v: Value)
    requires Distinct(t)
    ensures Distinct(Put(t, ev, v))
  {
    if t != [] && t[0].event != ev {
      DistinctPut(t[1..], ev, v);
      GetPut(t[1..], ev, v, t[0].event);
      assert Put(t, ev, v)[1..] == Put(t[1..], ev, v);
    } else if t != [] {
      assert Put(t, ev, v)[1..] == t[1..];
    }
  }

  lemma {:induction false} DistinctDelete(t: seq<Entry>, ev: string)
    requires Distinct(t)
    ensures Distinct(Delete(t, ev)) && Get(Delete(t, ev), ev).None?
  {
    if t != [] && t[0].event != ev {
      DistinctDelete(t[1..], ev);
      GetDelete(t[1..], ev, t[0].event);
      assert Delete(t, ev)[1..] == Delete(t[1..], ev);
    }
  }

  /** Removing leaves only what is left of the same event. */
  lemma {:induction false} GetRemoved(cmd: string, t: seq<Entry>, ev: string)
    requires Distinct(t)
    ensures Get(Removed(cmd, t), ev) ==
            if Get(t, ev).None? then None
            else if RemovedEntry(cmd, Entry(ev, Get(t, ev).value)) == [] then None
            else Some(RemovedEntry(cmd, Entry(ev, Get(t, ev).value))[0].value)
  {
    if t != [] {
      GetRemoved(cmd, t[1..], ev);
      var rest := Removed(cmd, t[1..]);
      if RemovedEntry(cmd, t[0]) == [] {
        assert Removed(cmd, t) == rest;
      } else {
        assert Removed(cmd, t)[1..] == rest;
      }
    }
  }

  /** The tree without a null under `ev`. */
  function WithoutNull(t: seq<Entry>, ev: string): seq<Entry> {
    if t == [] then []
    else (if t[0] == Entry(ev, NullValue) then [] else [t[0]]) + WithoutNull(t[1..], ev)
  }

  lemma {:induction false} NoNullNoChange(t: seq<Entry>, ev: string)
    requires Distinct(t)
    ensures WithoutNull(t, ev) == t <==> Get(t, ev) != Some(NullValue)
    ensures WithoutNull(t, ev) == t || |WithoutNull(t, ev)| < |t|
  {
    if t != [] {
      NoNullNoChange(t[1..], ev);
      if t[0].event == ev {
        assert Get(t[1..], ev).None?;
      }
      assert t == [t[0]] + t[1..];
    }
  }

  lemma RemovedHead(cmd: string, e: Entry, t: seq<Entry>)
    ensures Removed(cmd, [e] + t) == RemovedEntry(cmd, e) + Removed(cmd, t)
  {
    assert ([e] + t)[1..] == t;
  }

  lemma WithoutNullJoin(t: seq<Entry>, u: seq<Entry>, ev: string)
    requires |t| <= 1
    ensures WithoutNull(t + u, ev) == WithoutNull(t, ev) + WithoutNull(u, ev)
  {
    if t == [] {
      assert t + u == u;
    } else {
      assert t[1..] == [];
      assert (t + u)[1..] == u;
    }
  }

  /** Writing a list that removing empties, or that removing makes what it made of the old one, changes nothing after
      removal. */
  lemma {:induction false} RemovedAfterPut(cmd: string, t: seq<Entry>, ev: string, bs: seq<Block>)
    requires Distinct(t)
    requires var v := Get(t, ev);
             Cleaned(cmd, true, None, bs) ==
             if v.Some? && v.value.Blocks? then Cleaned(cmd, true, None, v.value.bs) else []
    requires Get(t, ev).Some? ==> !Get(t, ev).value.OtherValue?
    ensures Removed(cmd, Put(t, ev, Blocks(bs))) == WithoutNull(Removed(cmd, t), ev)
  {
    if t == [] {
      RemovedHead(cmd, Entry(ev, Blocks(bs)), []);
    } else {
      var head, rest := RemovedEntry(cmd, t[0]), t[1..];
      RemovedHead(cmd, t[0], rest);
      assert [t[0]] + rest == t;
      WithoutNullJoin(head, Removed(cmd, rest), ev);
      assert |head| == 1 ==> head[1..] == [];
      if t[0].event == ev {
        RemovedHead(cmd, Entry(ev, Blocks(bs)), rest);
        GetRemoved(cmd, rest, ev);
        DistinctRemoved(cmd, rest);
        NoNullNoChange(Removed(cmd, rest), ev);
      } else {
        RemovedAfterPut(cmd, rest, ev, bs);
        RemovedHead(cmd, t[0], Put(rest, ev, Blocks(bs)));
      }
    }
  }

  lemma {:induction false} DistinctRemoved(cmd: string, t: seq<Entry>)
    requires Distinct(t)
    ensures Distinct(Removed(cmd, t))
  {
    if t != [] {
      DistinctRemoved(cmd, t[1..]);
      GetRemoved(cmd, t[1..], t[0].event);
      var rest := Removed(cmd, t[1..]);
      if RemovedEntry(cmd, t[0]) == [] {
        assert Removed(cmd, t) == rest;
      } else {
        assert Removed(cmd, t)[1..] == rest;
      }
    }
  }

  lemma {:induction false} RemovedAfterDelete(cmd: string, t: seq<Entry>, ev: string)
    requires Get(t, ev).Some? && RemovedEntry(cmd, Entry(ev, Get(t, ev).value)) == []
    ensures Removed(cmd, Delete(t, ev)) == Removed(cmd, t)
  {
    if t[0].event != ev {
      RemovedAfterDelete(cmd, t[1..], ev);
      RemovedHead(cmd, t[0], Delete(t[1..], ev));
    }
  }

  lemma RemovedAfterDrop(cmd: string, t: seq<Entry>)
    requires Distinct(t)
    ensures Distinct(Dropped(cmd, t)) && Removed(cmd, Dropped(cmd, t)) == Removed(cmd, t)
  {
    var v := Get(t, POST_TOOL_USE);
    if v.Some? && v.value.Blocks? {
      var kept := Cleaned(cmd, false, None, v.value.bs);
      CleanAfterDrop(cmd, None, v.value.bs);
      DistinctPut(t, POST_TOOL_USE, Blocks(kept));
      DistinctDelete(t, POST_TOOL_USE);
      if kept == [] {
        RemovedAfterDelete(cmd, t, POST_TOOL_USE);
      } else {
        RemovedAfterPut(cmd, t, POST_TOOL_USE, kept);
        DistinctRemoved(cmd, t);
        GetRemoved(cmd, t, POST_TOOL_USE);
        NoNullNoChange(Removed(cmd, t), POST_TOOL_USE);
      }
    }
  }

  lemma RemovedAfterUpsert(cmd: string, t: seq<Entry>, s: Slot)
    requires Distinct(t) && Upserted(cmd, t, s).Some?
    ensures Distinct(Upserted(cmd, t, s).value)
    ensures Removed(cmd, Upserted(cmd, t, s).value) == WithoutNull(Removed(cmd, t), s.event)
  {
    var v := Get(t, s.event);
    var bs := if v.Some? && v.value.Blocks? then v.value.bs else [];
    CleanAfterAdd(cmd, s.matcher, bs);
    RemovedAfterPut(cmd, t, s.event, Added(cmd, s.matcher, bs));
    DistinctPut(t, s.event, Blocks(Added(cmd, s.matcher, bs)));
  }

  /** The tree without a null under any of the slots' events. */
  function WithoutNulls(t: seq<Entry>, slots: seq<Slot>): seq<Entry>
    decreases |slots|
  {
    if slots == [] then t else WithoutNull(WithoutNulls(t, slots[..|slots| - 1]), slots[|slots| - 1].event)
  }

  lemma {:induction false} RemovedAfterUpserts(cmd: string, t: seq<Entry>, slots: seq<Slot>)
    requires Distinct(t) && UpsertAll(cmd, t, slots).Some?
    ensures Distinct(UpsertAll(cmd, t, slots).value)
    ensures Removed(cmd, UpsertAll(cmd, t, slots).value) == WithoutNulls(Removed(cmd, t), slots)
    decreases |slots|
  {
    if slots != [] {
      var n := |slots| - 1;
      RemovedAfterUpserts(cmd, t, slots[..n]);
      RemovedAfterUpsert(cmd, UpsertAll(cmd, t, slots[..n]).value, slots[n]);
    }
  }

  predicate NullAt(t: seq<Entry>, slots: seq<Slot>) {
    exists i :: 0 <= i < |slots| && Get(t, slots[i].event) == Some(NullValue)
  }
}
