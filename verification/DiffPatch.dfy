/** What a structural diff is for: applying its entries to `before` gives `after`, and when it does not. */
module DiffPatch {
  import opened JsonText
  import opened Options
  import opened StructuralDiff

  // ----- applying entries

  function WithoutKey(fields: seq<Field>, k: string): seq<Field> {
    if fields == [] then []
    else if fields[0].key == k then WithoutKey(fields[1..], k)
    else [fields[0]] + WithoutKey(fields[1..], k)
  }

  function WithKey(fields: seq<Field>, k: string, v: Json): seq<Field> {
    if fields == [] then [Field(k, v)]
    else if fields[0].key == k then [Field(k, v)] + fields[1..]
    else [fields[0]] + WithKey(fields[1..], k, v)
  }

  /** Storing what was read at a key: nothing removes the key; a function or the prototype is no JSON value. */
  function Store(fields: seq<Field>, k: string, r: Read): Option<seq<Field>> {
    match r
    case Undefined => Some(WithoutKey(fields, k))
    case Val(v) => Some(WithKey(fields, k, v))
    case _ => None
  }

  function Child(fields: seq<Field>, k: string): Read {
    var own := Own(fields, k);
    if own.Some? then Val(own.value) else Undefined
  }

  function Lift(fields: seq<Field>, k: string, child: Option<Read>): Option<Read> {
    if child.None? then None
    else
      var stored := Store(fields, k, child.value);
      if stored.None? then None else Some(Val(Obj(stored.value)))
  }

  /** One entry, with `path` counted from `r`. A path through something that is no object changes nothing. */
  function ApplyEntry(r: Read, path: seq<string>, e: Entry): Option<Read>
    decreases |path|
  {
    if path == [] then Some(if e.kind.Removed? then Undefined else e.after)
    else if r.Val? && r.v.Obj? then Lift(r.v.fields, path[0], ApplyEntry(Child(r.v.fields, path[0]), path[1..], e))
    else Some(r)
  }

  function Patch(r: Read, es: seq<Entry>): Option<Read>
    decreases |es|
  {
    if es == [] then Some(r)
    else
      var next := ApplyEntry(r, es[0].path, es[0]);
      if next.None? then None else Patch(next.value, es[1..])
  }

  // ----- what the result is compared with

  /** Equal up to the order of object keys; arrays are compared as they print. */
  ghost predicate Same(x: Json, y: Json)
    decreases Size(x)
  {
    if x.Obj? && y.Obj? then forall k :: SameAt(x, y, k) else x == y
  }

  ghost predicate SameAt(x: Json, y: Json, k: string)
    requires x.Obj? && y.Obj?
    decreases Size(x), 0
  {
    var (p, q) := (Own(x.fields, k), Own(y.fields, k));
    p.Some? == q.Some? && (p.Some? ==> Size(p.value) < Size(x) && Same(p.value, q.value))
  }

  /** The pairs of trees that the diff reads right: it sees only own keys, and an overflowed number is not compared
      with another value that prints as null. */
  ghost predicate Clean(x: Json, y: Json)
    decreases Size(x)
  {
    if x.Obj? && y.Obj? then forall k :: CleanAt(x, y, k) else Flat(x) == Flat(y) ==> x == y
  }

  /** No key that only `x` has is an inherited name, and no key that only `y` has is `__proto__` with an object. */
  ghost predicate CleanAt(x: Json, y: Json, k: string)
    requires x.Obj? && y.Obj?
    decreases Size(x), 0
  {
    match (Own(x.fields, k), Own(y.fields, k))
    case (Some(p), Some(q)) => Size(p) < Size(x) && Clean(p, q)
    case (Some(p), None) => k != PROTO && k !in METHODS
    case (None, Some(q)) => k != PROTO || !q.Obj?
    case (None, None) => true
  }

  /** A key ended up as `target` has it. */
  ghost predicate Reached(r: Read, target: Read) {
    match target
    case Val(y) => r.Val? && Same(r.v, y)
    case Undefined => r.Undefined?
    case _ => false
  }

  // ----- fields

  lemma {:induction false} OwnWithout(fields: seq<Field>, k: string, j: string)
    ensures Own(WithoutKey(fields, k), j) == if j == k then None else Own(fields, j)
  {
    if fields != [] {
      OwnWithout(fields[1..], k, j);
    }
  }

  lemma {:induction false} OwnWith(fields: seq<Field>, k: string, v: Json, j: string)
    ensures Own(WithKey(fields, k, v), j) == if j == k then Some(v) else Own(fields, j)
  {
    if fields != [] {
      OwnWith(fields[1..], k, v, j);
    }
  }

  lemma OwnStored(fields: seq<Field>, k: string, r: Read, j: string)
    requires Store(fields, k, r).Some?
    ensures Child(Store(fields, k, r).value, j) == if j == k then r else Child(fields, j)
  {
    if r.Val? {
      OwnWith(fields, k, r.v, j);
    } else {
      OwnWithout(fields, k, j);
    }
  }

  lemma {:induction false} WithoutAbsent(fields: seq<Field>, k: string)
    requires Own(fields, k).None?
    ensures WithoutKey(fields, k) == fields
  {
    if fields != [] {
      WithoutAbsent(fields[1..], k);
    }
  }

  lemma {:induction false} WithSame(fields: seq<Field>, k: string)
    requires Own(fields, k).Some?
    ensures WithKey(fields, k, Own(fields, k).value) == fields
  {
    if fields[0].key != k {
      WithSame(fields[1..], k);
    }
  }

  lemma StoreSame(fields: seq<Field>, k: string)
    ensures Lift(fields, k, Some(Child(fields, k))) == Some(Val(Obj(fields)))
  {
    if Own(fields, k).Some? {
      WithSame(fields, k);
    } else {
      WithoutAbsent(fields, k);
    }
  }

  lemma {:induction false} WithTwice(fields: seq<Field>, k: string, v: Json, w: Json)
    ensures WithKey(WithKey(fields, k, v), k, w) == WithKey(fields, k, w)
  {
    if fields != [] && fields[0].key != k {
      WithTwice(fields[1..], k, v, w);
    }
  }

  // ----- patching one key

  ghost predicate Deep(es: seq<Entry>) {
    forall i :: 0 <= i < |es| ==> es[i].path != []
  }

  /** Entries below an object keep it an object; below anything else they change nothing. */
  lemma {:induction false} DeepKeeps(r: Read, es: seq<Entry>)
    requires Deep(es)
    ensures r.Val? && r.v.Obj? ==> Patch(r, es).None? || (Patch(r, es).value.Val? && Patch(r, es).value.v.Obj?)
    ensures !(r.Val? && r.v.Obj?) ==> Patch(r, es) == Some(r)
    decreases |es|
  {
    if es != [] {
      assert es[0].path != [];
      var next := ApplyEntry(r, es[0].path, es[0]);
      if next.Some? {
        DeepKeeps(next.value, es[1..]);
      }
    }
  }

  lemma UnderFirst(k: string, es: seq<Entry>)
    requires es != []
    ensures Under(k, es)[0] == es[0].(path := [k] + es[0].path)
    ensures Under(k, es)[0].path[1..] == es[0].path
    ensures Under(k, es)[1..] == Under(k, es[1..])
  {
  }

  lemma ApplyIgnoresPathField(r: Read, path: seq<string>, e: Entry, p: seq<string>)
    ensures ApplyEntry(r, path, e.(path := p)) == ApplyEntry(r, path, e)
    decreases |path|
  {
    if path != [] && r.Val? && r.v.Obj? {
      ApplyIgnoresPathField(Child(r.v.fields, path[0]), path[1..], e, p);
    }
  }

  lemma ApplyUnder(fields: seq<Field>, k: string, e: Entry)
    ensures ApplyEntry(Val(Obj(fields)), [k] + e.path, e.(path := [k] + e.path))
         == Lift(fields, k, ApplyEntry(Child(fields, k), e.path, e))
  {
    var path := [k] + e.path;
    assert path[1..] == e.path;
    ApplyIgnoresPathField(Child(fields, k), e.path, e, path);
  }

  lemma ChildOfWith(fields: seq<Field>, k: string, v: Json)
    ensures Child(WithKey(fields, k, v), k) == Val(v)
  {
    OwnWith(fields, k, v, k);
  }

  lemma PatchOne(r: Read, es: seq<Entry>)
    requires |es| == 1
    ensures Patch(r, es) == ApplyEntry(r, es[0].path, es[0])
  {
    assert es[1..] == [];
  }

  /** Deep entries of key `k` act on the child at `k` alone. */
  lemma {:induction false} PatchUnderDeep(fields: seq<Field>, k: string, es: seq<Entry>)
    requires Deep(es)
    ensures Patch(Val(Obj(fields)), Under(k, es)) == Lift(fields, k, Patch(Child(fields, k), es))
    decreases |es|
  {
    if es == [] {
      StoreSame(fields, k);
    } else {
      var child := Child(fields, k);
      UnderFirst(k, es);
      ApplyUnder(fields, k, es[0]);
      var next := ApplyEntry(child, es[0].path, es[0]);
      if child.Val? && child.v.Obj? {
        if next.Some? {
          PatchUnderDeepObject(fields, k, es, next.value);
        }
      } else {
        StoreSame(fields, k);
        PatchUnderDeep(fields, k, es[1..]);
      }
    }
  }

  lemma {:induction false} PatchUnderDeepObject(fields: seq<Field>, k: string, es: seq<Entry>, next: Read)
    requires es != [] && Deep(es)
    requires var child := Child(fields, k); child.Val? && child.v.Obj?
    requires ApplyEntry(Child(fields, k), es[0].path, es[0]) == Some(next)
    ensures next.Val? && next.v.Obj?
    ensures Patch(Val(Obj(WithKey(fields, k, next.v))), Under(k, es[1..]))
         == Lift(fields, k, Patch(Child(fields, k), es))
    decreases |es|, 0
  {
    assert es[0].path != [];
    var fields1 := WithKey(fields, k, next.v);
    ChildOfWith(fields, k, next.v);
    PatchUnderDeep(fields1, k, es[1..]);
    DeepKeeps(next, es[1..]);
    var end := Patch(next, es[1..]);
    if end.Some? {
      WithTwice(fields, k, next.v, end.value.v);
    }
  }

  /** The entries of one key act on the child at that key alone. */
  lemma PatchUnder(fields: seq<Field>, k: string, es: seq<Entry>)
    requires Deep(es) || |es| == 1
    ensures Patch(Val(Obj(fields)), Under(k, es)) == Lift(fields, k, Patch(Child(fields, k), es))
  {
    if Deep(es) {
      PatchUnderDeep(fields, k, es);
    } else {
      UnderFirst(k, es);
      PatchOne(Child(fields, k), es);
      PatchOne(Val(Obj(fields)), Under(k, es));
      ApplyUnder(fields, k, es[0]);
    }
  }

  lemma DiffOfObjectsIsDeep(b: Read, a: Read)
    requires Descends(b, a)
    ensures Deep(Diff(b, a))
  {
    UnionKeysSpec(b, a);
    KeyPathsDistinct(b, a, UnionKeys(b, a));
    var es := DiffKeys(b, a, UnionKeys(b, a));
    forall i | 0 <= i < |es|
      ensures es[i].path != []
    {
      assert es[i] in es;
    }
  }

  lemma DiffIsDeepOrOne(b: Read, a: Read)
    ensures Deep(Diff(b, a)) || |Diff(b, a)| == 1
  {
    if Descends(b, a) {
      DiffOfObjectsIsDeep(b, a);
    }
  }

  lemma {:induction false} PatchJoin(r: Read, es: seq<Entry>, fs: seq<Entry>)
    ensures Patch(r, es + fs) == if Patch(r, es).None? then None else Patch(Patch(r, es).value, fs)
    decreases |es|
  {
    if es == [] {
      assert es + fs == fs;
    } else {
      assert (es + fs)[0] == es[0] && (es + fs)[1..] == es[1..] + fs;
      var next := ApplyEntry(r, es[0].path, es[0]);
      if next.Some? {
        PatchJoin(next.value, es[1..], fs);
      }
    }
  }

  // ----- the law, key by key

  /** The child at `k` of `fields` after the entries of that key. */
  function Patched(fields: seq<Field>, target: seq<Field>, k: string): Option<Read> {
    Patch(Child(fields, k), Diff(Get(Val(Obj(fields)), k), Get(Val(Obj(target)), k)))
  }

  ghost predicate ReachedBy(r: Option<Read>, target: Read) {
    r.Some? && Reached(r.value, target)
  }

  /** Applying the diff of `x` and `y` to `x` gives `y`. */
  ghost predicate Restores(x: Json, y: Json) {
    ReachedBy(Patch(Val(x), Diff(Val(x), Val(y))), Val(y))
  }

  lemma {:induction false} SameReflexive(x: Json)
    ensures Same(x, x)
    decreases Size(x)
  {
    if x.Obj? {
      forall k
        ensures SameAt(x, x, k)
      {
        var own := Own(x.fields, k);
        if own.Some? {
          SameReflexive(own.value);
        }
      }
    }
  }

  lemma TextOfEmptyObject(x: Json)
    requires !x.Obj?
    ensures Stringify(x) != "{}"
  {
    assert Stringify(Obj([])) == "{}";
    TextsCompareValues(x, Obj([]));
  }

  lemma OnlyBefore(x: Json, k: string)
    ensures ReachedBy(Patch(Val(x), Diff(Val(x), Inherited(k))), Undefined) <==> k != PROTO && k !in METHODS
  {
    var es := Diff(Val(x), Inherited(k));
    if k == PROTO && x.Obj? {
      DiffOfObjectsIsDeep(Val(x), Prototype);
      DeepKeeps(Val(x), es);
    } else {
      if k == PROTO {
        TextOfEmptyObject(x);
      }
      PatchOne(Val(x), es);
    }
  }

  lemma OnlyAfter(y: Json, k: string)
    ensures ReachedBy(Patch(Undefined, Diff(Inherited(k), Val(y))), Val(y)) <==> k != PROTO || !y.Obj?
  {
    var es := Diff(Inherited(k), Val(y));
    if k == PROTO && y.Obj? {
      DiffOfObjectsIsDeep(Prototype, Val(y));
      DeepKeeps(Undefined, es);
    } else {
      if k == PROTO {
        TextOfEmptyObject(y);
      }
      PatchOne(Undefined, es);
      SameReflexive(y);
    }
  }

  lemma {:induction false} KeyLaw(x: Json, y: Json, k: string)
    requires x.Obj? && y.Obj?
    requires Own(x.fields, k).Some? || Own(y.fields, k).Some?
    ensures ReachedBy(Patched(x.fields, y.fields, k), Child(y.fields, k)) <==> CleanAt(x, y, k)
    decreases Size(x), 0, 0
  {
    match (Own(x.fields, k), Own(y.fields, k))
    case (Some(p), Some(q)) => PatchLaw(p, q);
    case (Some(p), None) => OnlyBefore(p, k);
    case (None, Some(q)) => OnlyAfter(q, k);
    case (None, None) =>
  }

  // ----- the law for a list of keys

  /** `result` is `fields` with every key of `ks` patched. */
  ghost predicate AllPatched(
    fields: seq<Field>, target: seq<Field>, ks: seq<string>, start: seq<Field>, result: seq<Field>)
  {
    && (forall k :: k in ks ==> Patched(fields, target, k) == Some(Child(result, k)))
    && (forall k :: k !in ks ==> Child(result, k) == Child(start, k))
  }

  predicate Storable(r: Option<Read>) { r.Some? && (r.value.Undefined? || r.value.Val?) }

  /** The entries of the first key, then the rest. */
  lemma PatchFirstKey(fields: seq<Field>, target: seq<Field>, k: string, start: seq<Field>, rest: seq<Entry>)
    requires Child(start, k) == Child(fields, k)
    ensures var es, child := Diff(Get(Val(Obj(fields)), k), Get(Val(Obj(target)), k)), Patched(fields, target, k);
            Patch(Val(Obj(start)), Under(k, es) + rest) ==
            if Storable(child) then Patch(Val(Obj(Store(start, k, child.value).value)), rest) else None
  {
    var es := Diff(Get(Val(Obj(fields)), k), Get(Val(Obj(target)), k));
    DiffIsDeepOrOne(Get(Val(Obj(fields)), k), Get(Val(Obj(target)), k));
    PatchUnder(start, k, es);
    PatchJoin(Val(Obj(start)), Under(k, es), rest);
  }

  lemma PatchedFirst(
    fields: seq<Field>, target: seq<Field>, ks: seq<string>, start: seq<Field>, next: seq<Field>, result: seq<Field>)
    requires ks != [] && ks[0] !in ks[1..] && AllPatched(fields, target, ks[1..], next, result)
    requires Patched(fields, target, ks[0]) == Some(Child(next, ks[0]))
    requires forall j :: j != ks[0] ==> Child(next, j) == Child(start, j)
    ensures AllPatched(fields, target, ks, start, result)
  {
    assert forall j :: j in ks <==> j == ks[0] || j in ks[1..];
  }

  lemma {:induction false} PatchKeys(fields: seq<Field>, target: seq<Field>, ks: seq<string>, start: seq<Field>)
    requires Sorted(ks) && forall k :: k in ks ==> Child(start, k) == Child(fields, k)
    ensures var r := Patch(Val(Obj(start)), DiffKeys(Val(Obj(fields)), Val(Obj(target)), ks));
            if r.Some? then r.value.Val? && r.value.v.Obj? && AllPatched(fields, target, ks, start, r.value.v.fields)
            else exists k :: k in ks && !Storable(Patched(fields, target, k))
    decreases |ks|
  {
    if ks != [] {
      var b, a, k := Val(Obj(fields)), Val(Obj(target)), ks[0];
      assert k in ks;
      PatchFirstKey(fields, target, k, start, DiffKeys(b, a, ks[1..]));
      var child := Patched(fields, target, k);
      if Storable(child) {
        HeadIsNew(ks);
        var next := Store(start, k, child.value).value;
        StoreReads(start, k, child.value);
        PatchKeys(fields, target, ks[1..], next);
        var r := Patch(Val(Obj(next)), DiffKeys(b, a, ks[1..]));
        if r.Some? {
          PatchedFirst(fields, target, ks, start, next, r.value.v.fields);
        }
      }
    }
  }

  lemma HeadIsNew(ks: seq<string>)
    requires ks != [] && Sorted(ks)
    ensures ks[0] !in ks[1..]
  {
    forall i | 1 <= i < |ks|
      ensures ks[i] != ks[0]
    {
      SortedDistinct(ks, 0, i);
    }
  }

  lemma StoreReads(fields: seq<Field>, k: string, r: Read)
    requires Store(fields, k, r).Some?
    ensures forall j :: Child(Store(fields, k, r).value, j) == if j == k then r else Child(fields, j)
  {
    forall j
      ensures Child(Store(fields, k, r).value, j) == if j == k then r else Child(fields, j)
    {
      OwnStored(fields, k, r, j);
    }
  }

  // ----- the law

  lemma KeyOfUnion(x: Json, y: Json, k: string)
    requires x.Obj? && y.Obj?
    ensures k in UnionKeys(Val(x), Val(y)) <==> Own(x.fields, k).Some? || Own(y.fields, k).Some?
  {
    UnionKeysSpec(Val(x), Val(y));
    OwnIsKey(x.fields, k);
    OwnIsKey(y.fields, k);
  }

  /** Applying the diff to `before` gives `after`, up to key order, exactly when the pair is clean. */
  lemma {:induction false} PatchLaw(x: Json, y: Json)
    ensures Restores(x, y) <==> Clean(x, y)
    decreases Size(x), 1, 0
  {
    if x.Obj? && y.Obj? {
      if forall k :: CleanAt(x, y, k) {
        CleanRestores(x, y);
      } else {
        var k :| !CleanAt(x, y, k);
        UncleanLoses(x, y, k);
      }
    } else {
      SameReflexive(y);
      TextsCompareValues(x, y);
      if Flat(x) != Flat(y) {
        PatchOne(Val(x), Diff(Val(x), Val(y)));
      }
    }
  }

  lemma {:induction false} CleanRestores(x: Json, y: Json)
    requires x.Obj? && y.Obj? && Clean(x, y)
    ensures Restores(x, y)
    decreases Size(x), 0, 1
  {
    var ks := UnionKeys(Val(x), Val(y));
    UnionKeysSpec(Val(x), Val(y));
    forall k | k in ks
      ensures ReachedBy(Patched(x.fields, y.fields, k), Child(y.fields, k))
    {
      KeyOfUnion(x, y, k);
      assert CleanAt(x, y, k);
      KeyLaw(x, y, k);
    }
    PatchKeys(x.fields, y.fields, ks, x.fields);
    var r := Patch(Val(x), DiffKeys(Val(x), Val(y), ks)).value.v;
    forall k
      ensures SameAt(r, y, k)
    {
      KeyOfUnion(x, y, k);
    }
  }

  lemma {:induction false} UncleanLoses(x: Json, y: Json, k: string)
    requires x.Obj? && y.Obj? && !CleanAt(x, y, k)
    ensures !Restores(x, y)
    decreases Size(x), 0, 1
  {
    var ks := UnionKeys(Val(x), Val(y));
    UnionKeysSpec(Val(x), Val(y));
    KeyOfUnion(x, y, k);
    KeyLaw(x, y, k);
    PatchKeys(x.fields, y.fields, ks, x.fields);
    var r := Patch(Val(x), DiffKeys(Val(x), Val(y), ks));
    if r.Some? {
      assert !SameAt(r.value.v, y, k);
    }
  }
}
