/** What installing and removing the hooks promise about any settings file. */
module HookLaws {
  import opened Options
  import opened HookTree

  // ----- the `hooks` field

  datatype Hooks = Missing | NullHooks | Tree(t: seq<Entry>)

  predicate WellFormed(h: Hooks) { h.Tree? ==> Distinct(h.t) }

  function Events(h: Hooks): seq<Entry> { if h.Tree? then h.t else [] }

  function Ensure(cmd: string, h: Hooks): Option<Hooks> {
    var t := Ensured(cmd, Events(h));
    if t.None? then None else Some(Tree(t.value))
  }

  function Remove(cmd: string, h: Hooks): Hooks {
    if !h.Tree? then h
    else
      var t := Removed(cmd, h.t);
      if t == [] then Missing else Tree(t)
  }

  // ----- removing after installing

  lemma {:induction false} WithoutNullsSpec(t: seq<Entry>, slots: seq<Slot>)
    requires Distinct(t)
    ensures Distinct(WithoutNulls(t, slots))
    ensures WithoutNulls(t, slots) == t <==> !NullAt(t, slots)
    ensures WithoutNulls(t, slots) == t || |WithoutNulls(t, slots)| < |t|
    decreases |slots|
  {
    if slots != [] {
      var n := |slots| - 1;
      var front := slots[..n];
      WithoutNullsSpec(t, front);
      var u := WithoutNulls(t, front);
      NoNullNoChange(u, slots[n].event);
      DistinctWithoutNull(u, slots[n].event);
      NullAtFront(t, slots);
    }
  }

  lemma NullAtFront(t: seq<Entry>, slots: seq<Slot>)
    requires slots != []
    ensures NullAt(t, slots) <==> NullAt(t, slots[..|slots| - 1]) || Get(t, slots[|slots| - 1].event) == Some(NullValue)
  {
    var front := slots[..|slots| - 1];
    assert forall i :: 0 <= i < |front| ==> front[i] == slots[i];
  }

  lemma {:induction false} GetWithoutNull(t: seq<Entry>, ev: string, other: string)
    requires Get(t, other).None?
    ensures Get(WithoutNull(t, ev), other).None?
  {
    if t != [] {
      GetWithoutNull(t[1..], ev, other);
      if t[0] != Entry(ev, NullValue) {
        assert WithoutNull(t, ev)[1..] == WithoutNull(t[1..], ev);
      } else {
        assert WithoutNull(t, ev) == WithoutNull(t[1..], ev);
      }
    }
  }

  lemma {:induction false} DistinctWithoutNull(t: seq<Entry>, ev: string)
    requires Distinct(t)
    ensures Distinct(WithoutNull(t, ev))
  {
    if t != [] {
      DistinctWithoutNull(t[1..], ev);
      GetWithoutNull(t[1..], ev, t[0].event);
      if t[0] != Entry(ev, NullValue) {
        assert WithoutNull(t, ev)[1..] == WithoutNull(t[1..], ev);
      } else {
        assert WithoutNull(t, ev) == WithoutNull(t[1..], ev);
      }
    }
  }

  lemma RemovedKeepsNulls(cmd: string, t: seq<Entry>, slots: seq<Slot>)
    requires Distinct(t)
    ensures NullAt(Removed(cmd, t), slots) <==> NullAt(t, slots)
  {
    forall i | 0 <= i < |slots|
      ensures Get(Removed(cmd, t), slots[i].event) == Some(NullValue) <==> Get(t, slots[i].event) == Some(NullValue)
    {
      GetRemoved(cmd, t, slots[i].event);
    }
  }

  /** Some value that installing overwrites is null. */
  predicate Overwrites(h: Hooks) { h.NullHooks? || NullAt(Events(h), SLOTS) }

  /** Removing after installing gives what removing alone gives, exactly when installing overwrote no null. */
  lemma UninstallRestores(cmd: string, h: Hooks)
    requires WellFormed(h) && Ensure(cmd, h).Some?
    ensures Remove(cmd, Ensure(cmd, h).value) == Remove(cmd, h) <==> !Overwrites(h)
  {
    var t := Events(h);
    RemovedAfterDrop(cmd, t);
    RemovedAfterUpserts(cmd, Dropped(cmd, t), SLOTS);
    DistinctRemoved(cmd, t);
    WithoutNullsSpec(Removed(cmd, t), SLOTS);
    RemovedKeepsNulls(cmd, t, SLOTS);
  }

  // ----- a clean tree is restored as it was

  predicate CleanValue(cmd: string, v: Value) {
    v.Blocks? ==> v.bs != [] && forall i :: 0 <= i < |v.bs| ==> Full(v.bs[i]) && !Has(cmd, v.bs[i].hooks.value)
  }

  /** Our command is nowhere, and no list is empty. */
  predicate Clean(cmd: string, h: Hooks) {
    h.Tree? ==> h.t != [] && forall i :: 0 <= i < |h.t| ==> CleanValue(cmd, h.t[i].value)
  }

  lemma {:induction false} StripNone(cmd: string, hs: seq<Hook>)
    requires !Has(cmd, hs)
    ensures Strip(cmd, hs) == hs
  {
    if hs != [] {
      StripNone(cmd, hs[1..]);
    }
  }

  lemma {:induction false} CleanedNone(cmd: string, bs: seq<Block>)
    requires forall i :: 0 <= i < |bs| ==> Full(bs[i]) && !Has(cmd, bs[i].hooks.value)
    ensures Cleaned(cmd, true, None, bs) == bs
  {
    if bs != [] {
      CleanedNone(cmd, bs[1..]);
      StripNone(cmd, bs[0].hooks.value);
    }
  }

  lemma {:induction false} RemovedNone(cmd: string, t: seq<Entry>)
    requires forall i :: 0 <= i < |t| ==> CleanValue(cmd, t[i].value)
    ensures Removed(cmd, t) == t
  {
    if t != [] {
      RemovedNone(cmd, t[1..]);
      if t[0].value.Blocks? {
        CleanedNone(cmd, t[0].value.bs);
      }
    }
  }

  /** Installing into a clean file and removing again gives the file back. */
  lemma CleanIsRestored(cmd: string, h: Hooks)
    requires WellFormed(h) && Clean(cmd, h) && !Overwrites(h) && Ensure(cmd, h).Some?
    ensures Remove(cmd, Ensure(cmd, h).value) == h
  {
    UninstallRestores(cmd, h);
    if h.Tree? {
      RemovedNone(cmd, h.t);
    }
  }

  // ----- when installing throws

  predicate OddAt(t: seq<Entry>, slots: seq<Slot>) {
    exists i :: 0 <= i < |slots| && Get(t, slots[i].event).Some? && Get(t, slots[i].event).value.OtherValue?
  }

  ghost predicate DistinctSlots(slots: seq<Slot>) {
    forall i, j :: 0 <= i < j < |slots| ==> slots[i].event != slots[j].event
  }

  lemma {:induction false} UpsertAllKeeps(cmd: string, t: seq<Entry>, slots: seq<Slot>, ev: string)
    requires UpsertAll(cmd, t, slots).Some? && forall i :: 0 <= i < |slots| ==> slots[i].event != ev
    ensures Get(UpsertAll(cmd, t, slots).value, ev) == Get(t, ev)
    decreases |slots|
  {
    if slots != [] {
      var n := |slots| - 1;
      UpsertAllKeeps(cmd, t, slots[..n], ev);
      var u := UpsertAll(cmd, t, slots[..n]).value;
      var v := Get(u, slots[n].event);
      var bs := if v.Some? && v.value.Blocks? then v.value.bs else [];
      GetPut(u, slots[n].event, Blocks(Added(cmd, slots[n].matcher, bs)), ev);
    }
  }

  lemma {:induction false} UpsertAllThrows(cmd: string, t: seq<Entry>, slots: seq<Slot>)
    requires DistinctSlots(slots)
    ensures UpsertAll(cmd, t, slots).None? <==> OddAt(t, slots)
    decreases |slots|
  {
    if slots != [] {
      var n := |slots| - 1;
      var front := slots[..n];
      UpsertAllThrows(cmd, t, front);
      assert forall i :: 0 <= i < n ==> front[i] == slots[i];
      if UpsertAll(cmd, t, front).Some? {
        UpsertAllKeeps(cmd, t, front, slots[n].event);
      }
    }
  }

  lemma DroppedGet(cmd: string, t: seq<Entry>, ev: string)
    requires Distinct(t)
    ensures ev != POST_TOOL_USE ==> Get(Dropped(cmd, t), ev) == Get(t, ev)
    ensures var v := Get(t, POST_TOOL_USE);
            Get(Dropped(cmd, t), POST_TOOL_USE) ==
            if v.Some? && v.value.Blocks? then
              var kept := Cleaned(cmd, false, None, v.value.bs);
              if kept == [] then None else Some(Blocks(kept))
            else v
  {
    var v := Get(t, POST_TOOL_USE);
    if v.Some? && v.value.Blocks? {
      var kept := Cleaned(cmd, false, None, v.value.bs);
      DistinctDelete(t, POST_TOOL_USE);
      GetPut(t, POST_TOOL_USE, Blocks(kept), ev);
      GetPut(t, POST_TOOL_USE, Blocks(kept), POST_TOOL_USE);
      if ev != POST_TOOL_USE {
        GetDelete(t, POST_TOOL_USE, ev);
      }
    }
  }

  /** Installing fails exactly when one of its six events holds something that is neither null nor a list. */
  lemma EnsureThrows(cmd: string, h: Hooks)
    requires WellFormed(h)
    ensures Ensure(cmd, h).None? <==> OddAt(Events(h), SLOTS)
  {
    var t := Events(h);
    UpsertAllThrows(cmd, Dropped(cmd, t), SLOTS);
    forall i | 0 <= i < |SLOTS|
      ensures var u, v := Get(Dropped(cmd, t), SLOTS[i].event), Get(t, SLOTS[i].event);
              (u.Some? && u.value.OtherValue?) <==> (v.Some? && v.value.OtherValue?)
    {
      DroppedGet(cmd, t, SLOTS[i].event);
    }
  }
}
