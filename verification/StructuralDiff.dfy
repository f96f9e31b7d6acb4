/** `structuralDiff` of legacy/src/safe-write.ts on JSON trees, including what JavaScript reads for a missing key. */
module StructuralDiff {
  import opened JsonText
  import opened Options

  // ----- reading a property

  /** The methods every object inherits from `Object.prototype`. */
  const METHODS: set<string> := {
    "constructor", "__defineGetter__", "__defineSetter__", "hasOwnProperty", "__lookupGetter__", "__lookupSetter__",
    "isPrototypeOf", "propertyIsEnumerable", "toString", "valueOf", "toLocaleString"
  }
  const PROTO: string := "__proto__"

  /** What `o[k]` can give: nothing, an inherited function, `Object.prototype` itself, or a JSON value. */
  datatype Read = Undefined | Method(name: string) | Prototype | Val(v: Json)

  function Size(j: Json): nat
    decreases j
  {
    match j
    case Obj(fields) => 3 + SumSize(fields)
    case _ => 1
  }

  function SumSize(fields: seq<Field>): nat
    decreases fields
  {
    if fields == [] then 0 else Size(fields[0].value) + SumSize(fields[1..])
  }

  function Own(fields: seq<Field>, k: string): (r: Option<Json>)
    ensures r.Some? ==> Size(r.value) <= SumSize(fields)
  {
    if fields == [] then None
    else if fields[0].key == k then Some(fields[0].value)
    else Own(fields[1..], k)
  }

  function Inherited(k: string): Read {
    if k == PROTO then Prototype else if k in METHODS then Method(k) else Undefined
  }

  function Get(r: Read, k: string): Read {
    match r
    case Val(Obj(fields)) =>
      var own := Own(fields, k);
      if own.Some? then Val(own.value) else Inherited(k)
    case Prototype => if k == PROTO then Val(Null) else if k in METHODS then Method(k) else Undefined
    case _ => Undefined
  }

  /** An empty object reads like `Object.prototype`, which it inherits everything from, but for `__proto__`. */
  lemma PrototypeReads(k: string)
    ensures Get(Prototype, k) == if k == "__proto__" then Val(Null) else Get(Val(Obj([])), k)
    ensures Get(Val(Obj([])), "__proto__") == Prototype
  {
  }

  function KeysIn(fields: seq<Field>): seq<string> {
    if fields == [] then [] else [fields[0].key] + KeysIn(fields[1..])
  }

  function OwnKeys(r: Read): seq<string> {
    if r.Val? && r.v.Obj? then KeysIn(r.v.fields) else []
  }

  predicate IsObject(r: Read) { r.Prototype? || (r.Val? && (r.v.Obj? || r.v.Arr?)) }
  predicate IsArray(r: Read) { r.Val? && r.v.Arr? }

  /** `JSON.stringify`, undefined for a function. */
  function Text(r: Read): Option<string> {
    match r
    case Val(v) => Some(Stringify(v))
    case Prototype => Some("{}")
    case _ => None
  }

  // ----- the keys of both sides, sorted

  predicate Before(a: string, b: string) {
    if b == "" then false
    else if a == "" then true
    else a[0] < b[0] || (a[0] == b[0] && Before(a[1..], b[1..]))
  }

  function InsertKey(ks: seq<string>, k: string): seq<string> {
    if ks == [] then [k]
    else if ks[0] == k then ks
    else if Before(k, ks[0]) then [k] + ks
    else [ks[0]] + InsertKey(ks[1..], k)
  }

  function SortKeys(ks: seq<string>): seq<string> {
    if ks == [] then [] else InsertKey(SortKeys(ks[1..]), ks[0])
  }

  function UnionKeys(b: Read, a: Read): seq<string> {
    SortKeys(OwnKeys(b) + OwnKeys(a))
  }

  // ----- the diff

  datatype Kind = Added | Removed | Modified

  /** `path` is the list of keys from the root. */
  datatype Entry = Entry(path: seq<string>, kind: Kind, before: Read, after: Read)

  function Weight(r: Read): nat {
    match r
    case Val(v) => Size(v)
    case Prototype => 2
    case _ => 0
  }

  function Under(k: string, es: seq<Entry>): seq<Entry> {
    seq(|es|, i requires 0 <= i < |es| => es[i].(path := [k] + es[i].path))
  }

  predicate BothObjects(b: Read, a: Read) { IsObject(b) && IsObject(a) && IsArray(b) == IsArray(a) }

  /** Both sides are plain objects, so the diff descends. */
  predicate Descends(b: Read, a: Read) { BothObjects(b, a) && !IsArray(b) }

  function Diff(b: Read, a: Read): seq<Entry>
    decreases Weight(b) + Weight(a), 1, 0
  {
    if b.Undefined? && !a.Undefined? then [Entry([], Added, b, a)]
    else if !b.Undefined? && a.Undefined? then [Entry([], Removed, b, a)]
    else if !Descends(b, a) then if Text(b) == Text(a) then [] else [Entry([], Modified, b, a)]
    else DiffKeys(b, a, UnionKeys(b, a))
  }

  function DiffKeys(b: Read, a: Read, ks: seq<string>): seq<Entry>
    requires Descends(b, a)
    decreases Weight(b) + Weight(a), 0, |ks|
  {
    if ks == [] then []
    else Under(ks[0], Diff(Get(b, ks[0]), Get(a, ks[0]))) + DiffKeys(b, a, ks[1..])
  }

  // ----- keys

  ghost predicate Sorted(ks: seq<string>) {
    forall i, j :: 0 <= i < j < |ks| ==> Before(ks[i], ks[j])
  }

  lemma {:induction false} BeforeIsOrder(a: string, b: string, c: string)
    ensures !Before(a, a)
    ensures a == b || Before(a, b) || Before(b, a)
    ensures Before(a, b) && Before(b, c) ==> Before(a, c)
    decreases |a| + |b| + |c|
  {
    if a != "" && b != "" {
      BeforeIsOrder(a[1..], b[1..], if c == "" then "" else c[1..]);
      if a[0] == b[0] && a[1..] == b[1..] {
        assert a == [a[0]] + a[1..] && b == [b[0]] + b[1..];
      }
    } else if a != "" {
      BeforeIsOrder(a[1..], "", "");
    }
  }

  lemma {:induction false} InsertKeyMembers(ks: seq<string>, k: string)
    ensures forall x :: x in InsertKey(ks, k) <==> x in ks || x == k
  {
    if ks != [] {
      InsertKeyMembers(ks[1..], k);
      assert ks == [ks[0]] + ks[1..];
    }
  }

  lemma {:induction false} InsertKeySorted(ks: seq<string>, k: string)
    requires Sorted(ks)
    ensures Sorted(InsertKey(ks, k))
  {
    if ks != [] && ks[0] != k {
      BeforeIsOrder(k, ks[0], "");
      if Before(k, ks[0]) {
        forall i | 0 <= i < |ks|
          ensures Before(k, ks[i])
        {
          BeforeIsOrder(k, ks[0], ks[i]);
        }
      } else {
        InsertKeySorted(ks[1..], k);
        InsertKeyMembers(ks[1..], k);
        var r := InsertKey(ks[1..], k);
        forall i | 0 <= i < |r|
          ensures Before(ks[0], r[i])
        {
          assert r[i] in r;
        }
      }
    }
  }

  lemma {:induction false} SortKeysSpec(ks: seq<string>)
    ensures Sorted(SortKeys(ks)) && forall x :: x in SortKeys(ks) <==> x in ks
  {
    if ks != [] {
      SortKeysSpec(ks[1..]);
      InsertKeySorted(SortKeys(ks[1..]), ks[0]);
      InsertKeyMembers(SortKeys(ks[1..]), ks[0]);
      assert ks == [ks[0]] + ks[1..];
    }
  }

  lemma {:induction false} OwnIsKey(fields: seq<Field>, k: string)
    ensures k in KeysIn(fields) <==> Own(fields, k).Some?
  {
    if fields != [] {
      OwnIsKey(fields[1..], k);
    }
  }

  lemma UnionKeysSpec(b: Read, a: Read)
    ensures Sorted(UnionKeys(b, a))
    ensures forall k :: k in UnionKeys(b, a) <==> k in OwnKeys(b) || k in OwnKeys(a)
  {
    SortKeysSpec(OwnKeys(b) + OwnKeys(a));
  }

  lemma SortedDistinct(ks: seq<string>, i: nat, j: nat)
    requires Sorted(ks) && i < j < |ks|
    ensures ks[i] != ks[j]
  {
    BeforeIsOrder(ks[i], ks[i], "");
  }

  // ----- the paths of a diff are pairwise distinct

  ghost predicate Distinct(es: seq<Entry>) {
    forall i, j :: 0 <= i < j < |es| ==> es[i].path != es[j].path
  }

  lemma {:induction false} PathsDistinct(b: Read, a: Read)
    ensures Distinct(Diff(b, a))
    decreases Weight(b) + Weight(a), 1, 0
  {
    if Descends(b, a) {
      UnionKeysSpec(b, a);
      KeyPathsDistinct(b, a, UnionKeys(b, a));
    }
  }

  lemma {:induction false} KeyPathsDistinct(b: Read, a: Read, ks: seq<string>)
    requires Descends(b, a) && Sorted(ks)
    ensures Distinct(DiffKeys(b, a, ks))
    ensures forall e :: e in DiffKeys(b, a, ks) ==> e.path != [] && e.path[0] in ks
    decreases Weight(b) + Weight(a), 0, |ks|
  {
    if ks != [] {
      var head := Under(ks[0], Diff(Get(b, ks[0]), Get(a, ks[0])));
      var tail := DiffKeys(b, a, ks[1..]);
      PathsDistinct(Get(b, ks[0]), Get(a, ks[0]));
      KeyPathsDistinct(b, a, ks[1..]);
      assert ks[0] !in ks[1..] by {
        forall i | 1 <= i < |ks|
          ensures ks[i] != ks[0]
        {
          SortedDistinct(ks, 0, i);
        }
      }
      UnderDistinct(ks[0], Diff(Get(b, ks[0]), Get(a, ks[0])));
      forall i, j | 0 <= i < |head| && 0 <= j < |tail|
        ensures head[i].path != tail[j].path
      {
        assert head[i].path[0] == ks[0];
        assert tail[j] in tail;
      }
      assert forall e :: e in head ==> e.path != [] && e.path[0] == ks[0];
    }
  }

  lemma UnderDistinct(k: string, es: seq<Entry>)
    requires Distinct(es)
    ensures Distinct(Under(k, es))
  {
    var us := Under(k, es);
    forall i, j | 0 <= i < j < |us|
      ensures us[i].path != us[j].path
    {
      assert us[i].path[1..] == es[i].path && us[j].path[1..] == es[j].path;
    }
  }

  // ----- every entry tells what is there

  function At(r: Read, path: seq<string>): Read
    decreases |path|
  {
    if path == [] then r else At(Get(r, path[0]), path[1..])
  }

  /** The entry's two values are what both trees hold at its path, they differ, and its kind says how. */
  predicate Truthful(b: Read, a: Read, e: Entry) {
    && At(b, e.path) == e.before && At(a, e.path) == e.after
    && match e.kind
       case Added => e.before.Undefined? && !e.after.Undefined?
       case Removed => !e.before.Undefined? && e.after.Undefined?
       case Modified => !e.before.Undefined? && !e.after.Undefined? && Text(e.before) != Text(e.after)
  }

  lemma TruthfulUnder(b: Read, a: Read, k: string, e: Entry)
    requires Truthful(Get(b, k), Get(a, k), e)
    ensures Truthful(b, a, e.(path := [k] + e.path))
  {
    var path := [k] + e.path;
    assert path[1..] == e.path;
  }

  lemma {:induction false} EntriesAreTruthful(b: Read, a: Read, i: nat)
    requires i < |Diff(b, a)|
    ensures Truthful(b, a, Diff(b, a)[i])
    decreases Weight(b) + Weight(a), 1, 0
  {
    if b.Undefined? == a.Undefined? && Descends(b, a) {
      KeyEntriesAreTruthful(b, a, UnionKeys(b, a), i);
    }
  }

  lemma {:induction false} KeyEntriesAreTruthful(b: Read, a: Read, ks: seq<string>, i: nat)
    requires Descends(b, a) && i < |DiffKeys(b, a, ks)|
    ensures Truthful(b, a, DiffKeys(b, a, ks)[i])
    decreases Weight(b) + Weight(a), 0, |ks|
  {
    var es := Diff(Get(b, ks[0]), Get(a, ks[0]));
    if i < |es| {
      EntriesAreTruthful(Get(b, ks[0]), Get(a, ks[0]), i);
      TruthfulUnder(b, a, ks[0], es[i]);
    } else {
      KeyEntriesAreTruthful(b, a, ks[1..], i - |es|);
    }
  }
}
