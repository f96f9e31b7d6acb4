/** What `structuralDiff` prints: one line per entry at a rendered path, and what an empty diff means. */
module DiffOutput {
  import opened JsonText
  import opened Options
  import Seqs
  import opened StructuralDiff
  import opened DiffPatch

  // ----- rendered paths

  predicate Letter(c: char) { 'A' <= c <= 'Z' || 'a' <= c <= 'z' || c == '_' }
  predicate WordChar(c: char) { Letter(c) || '0' <= c <= '9' }

  ghost predicate Word(s: string) { forall i :: 0 <= i < |s| ==> WordChar(s[i]) }

  predicate Identifier(k: string) {
    k != "" && Letter(k[0]) && forall i :: 0 <= i < |k| ==> WordChar(k[i])
  }

  /** The ASCII letters, digits and underscore, by code. */
  predicate IsLetter(n: int) { 65 <= n < 91 || 97 <= n < 123 || n == 95 }
  predicate IsDigit(n: int) { 48 <= n < 58 }

  /** An identifier is made of letters, digits and underscores and starts with no digit. */
  lemma IdentifierIs(k: string)
    ensures Identifier(k) <==>
            && k != "" && !IsDigit(k[0] as int)
            && forall i :: 0 <= i < |k| ==> IsLetter(k[i] as int) || IsDigit(k[i] as int)
  {
  }

  function Segment(k: string): string {
    if Identifier(k) then ['.'] + k else ['['] + Quote(k) + [']']
  }

  function Render(path: seq<string>): string {
    if path == [] then "" else Segment(path[0]) + Render(path[1..])
  }

  function WordLength(s: string): (n: nat)
    ensures n <= |s| && (n < |s| ==> !WordChar(s[n])) && forall i :: 0 <= i < n ==> WordChar(s[i])
  {
    if s == "" || !WordChar(s[0]) then 0 else 1 + WordLength(s[1..])
  }

  lemma RenderStart(path: seq<string>)
    ensures Render(path) == "" <==> path == []
    ensures path != [] ==> Render(path)[0] == if Identifier(path[0]) then '.' else '['
  {
  }

  /** What can follow a segment. */
  predicate Breaks(x: string) { x == "" || !WordChar(x[0]) }

  lemma WordThenRest(a: string, x: string)
    requires Word(a) && Breaks(x)
    ensures WordLength(a + x) == |a|
  {
    var s := a + x;
    assert forall k :: 0 <= k < |a| ==> s[k] == a[k];
    assert x != "" ==> s[|a|] == x[0];
  }

  lemma WordSplits(k: string, x: string, j: string, y: string)
    requires Word(k) && Word(j) && Breaks(x) && Breaks(y) && k + x == j + y
    ensures k == j && x == y
  {
    WordThenRest(k, x);
    WordThenRest(j, y);
    assert (k + x)[..|k|] == k && (j + y)[..|k|] == j;
    assert (k + x)[|k|..] == x && (j + y)[|k|..] == y;
  }

  lemma AfterFirst(c: char, s: string, x: string, t: string, y: string)
    requires [c] + s + x == [c] + t + y
    ensures s + x == t + y
  {
    assert ([c] + s + x)[1..] == s + x && ([c] + t + y)[1..] == t + y;
  }

  lemma Bracketed(u: string, x: string)
    ensures (['['] + u + [']'] + x)[1..] == u + ([']'] + x)
  {
  }

  lemma BracketSplits(k: string, x: string, j: string, y: string)
    requires ['['] + Quote(k) + [']'] + x == ['['] + Quote(j) + [']'] + y
    ensures k == j && x == y
  {
    Bracketed(Quote(k), x);
    Bracketed(Quote(j), y);
    QuoteIsPrefixCode(k, j, [']'] + x, [']'] + y);
    assert ([']'] + x)[1..] == x && ([']'] + y)[1..] == y;
  }

  lemma SegmentSplits(k: string, x: string, j: string, y: string)
    requires Identifier(k) == Identifier(j) && Breaks(x) && Breaks(y)
    requires Segment(k) + x == Segment(j) + y
    ensures k == j && x == y
  {
    if Identifier(k) {
      AfterFirst('.', k, x, j, y);
      WordSplits(k, x, j, y);
    } else {
      BracketSplits(k, x, j, y);
    }
  }

  /** A rendered path names one place only. */
  lemma {:induction false} RenderInjective(p: seq<string>, q: seq<string>)
    requires Render(p) == Render(q)
    ensures p == q
    decreases |p|
  {
    RenderStart(p);
    RenderStart(q);
    if p != [] {
      RenderStart(p[1..]);
      RenderStart(q[1..]);
      SegmentSplits(p[0], Render(p[1..]), q[0], Render(q[1..]));
      RenderInjective(p[1..], q[1..]);
      assert p == [p[0]] + p[1..] && q == [q[0]] + q[1..];
    }
  }

  // ----- the walk

  /** An entry as the source returns it, with its path as text. */
  datatype Line = Line(path: string, kind: StructuralDiff.Kind, before: Read, after: Read)

  function Lines(path: string, es: seq<Entry>): seq<Line> {
    seq(|es|, i requires 0 <= i < |es| => LineOf(path, es[i]))
  }

  lemma OneLine(path: string, e: Entry)
    requires e.path == []
    ensures Lines(path, [e]) == [Line(path, e.kind, e.before, e.after)]
  {
    assert path + Render(e.path) == path;
  }

  function LineOf(path: string, e: Entry): Line {
    Line(path + Render(e.path), e.kind, e.before, e.after)
  }

  lemma LineUnder(path: string, k: string, e: Entry)
    ensures LineOf(path, e.(path := [k] + e.path)) == LineOf(path + Segment(k), e)
  {
    Seqs.Headed(k, e.path);
    Seqs.Assoc(path, Segment(k), Render(e.path));
  }

  lemma LinesUnder(path: string, k: string, es: seq<Entry>)
    ensures Lines(path, Under(k, es)) == Lines(path + Segment(k), es)
  {
    forall i | 0 <= i < |es|
      ensures Lines(path, Under(k, es))[i] == Lines(path + Segment(k), es)[i]
    {
      LineUnder(path, k, es[i]);
    }
  }

  lemma LinesJoin(path: string, es: seq<Entry>, fs: seq<Entry>)
    ensures Lines(path, es + fs) == Lines(path, es) + Lines(path, fs)
  {
  }

  lemma DiffKeysHead(b: Read, a: Read, k: string, ks: seq<string>)
    requires Descends(b, a)
    ensures DiffKeys(b, a, [k] + ks) == Under(k, Diff(Get(b, k), Get(a, k))) + DiffKeys(b, a, ks)
  {
    Seqs.Headed(k, ks);
  }

  lemma {:induction false} DiffKeysSnoc(b: Read, a: Read, ks: seq<string>, k: string)
    requires Descends(b, a)
    ensures DiffKeys(b, a, ks + [k]) == DiffKeys(b, a, ks) + Under(k, Diff(Get(b, k), Get(a, k)))
    decreases |ks|
  {
    var last := Under(k, Diff(Get(b, k), Get(a, k)));
    if ks == [] {
      DiffKeysHead(b, a, k, []);
      assert ks + [k] == [k] + [];
      Seqs.Unit(last);
    } else {
      var first := Under(ks[0], Diff(Get(b, ks[0]), Get(a, ks[0])));
      DiffKeysSnoc(b, a, ks[1..], k);
      DiffKeysHead(b, a, ks[0], ks[1..] + [k]);
      assert ks + [k] == [ks[0]] + (ks[1..] + [k]);
      Seqs.Assoc(first, DiffKeys(b, a, ks[1..]), last);
    }
  }

  lemma LinesSnoc(b: Read, a: Read, ks: seq<string>, k: string, path: string)
    requires Descends(b, a)
    ensures Lines(path, DiffKeys(b, a, ks + [k]))
         == Lines(path, DiffKeys(b, a, ks)) + Lines(path + Segment(k), Diff(Get(b, k), Get(a, k)))
  {
    DiffKeysSnoc(b, a, ks, k);
    LinesUnder(path, k, Diff(Get(b, k), Get(a, k)));
    LinesJoin(path, DiffKeys(b, a, ks), Under(k, Diff(Get(b, k), Get(a, k))));
  }

  lemma LinesUpTo(b: Read, a: Read, keys: seq<string>, i: nat, path: string)
    requires Descends(b, a) && i < |keys|
    ensures var k := keys[i];
            Lines(path, DiffKeys(b, a, keys[..i + 1])) ==
            Lines(path, DiffKeys(b, a, keys[..i])) + Lines(path + Segment(k), Diff(Get(b, k), Get(a, k)))
  {
    assert keys[..i + 1] == keys[..i] + [keys[i]];
    LinesSnoc(b, a, keys[..i], keys[i], path);
  }

  /** The lines of a pair the walk does not descend into. */
  lemma FlatLines(b: Read, a: Read, path: string)
    requires !Descends(b, a)
    ensures Lines(path, Diff(b, a)) ==
            if b.Undefined? && !a.Undefined? then [Line(path, Added, b, a)]
            else if !b.Undefined? && a.Undefined? then [Line(path, Removed, b, a)]
            else if Text(b) == Text(a) then [] else [Line(path, Modified, b, a)]
  {
    OneLine(path, Entry([], Added, b, a));
    OneLine(path, Entry([], Removed, b, a));
    OneLine(path, Entry([], Modified, b, a));
  }

  lemma GetIsLighter(b: Read, a: Read, k: string)
    requires Descends(b, a)
    ensures Weight(Get(b, k)) + Weight(Get(a, k)) < Weight(b) + Weight(a)
  {
  }

  method Walk(b: Read, a: Read, path: string) returns (out: seq<Line>)
    ensures out == Lines(path, Diff(b, a))
    decreases Weight(b) + Weight(a), 1
  {
    if !Descends(b, a) {
      FlatLines(b, a, path);
    }
    if b.Undefined? && !a.Undefined? {
      return [Line(path, Added, b, a)];
    }
    if !b.Undefined? && a.Undefined? {
      return [Line(path, Removed, b, a)];
    }
    if !BothObjects(b, a) || IsArray(b) {
      return if Text(b) == Text(a) then [] else [Line(path, Modified, b, a)];
    }
    out := WalkKeys(b, a, path, UnionKeys(b, a));
  }

  /** The loop over the sorted keys. */
  method WalkKeys(b: Read, a: Read, path: string, keys: seq<string>) returns (out: seq<Line>)
    requires Descends(b, a)
    ensures out == Lines(path, DiffKeys(b, a, keys))
    decreases Weight(b) + Weight(a), 0
  {
    out := [];
    for i := 0 to |keys|
      invariant out == Lines(path, DiffKeys(b, a, keys[..i]))
    {
      var k := keys[i];
      assert Weight(Get(b, k)) + Weight(Get(a, k)) < Weight(b) + Weight(a) by {
        GetIsLighter(b, a, k);
      }
      var more := Walk(Get(b, k), Get(a, k), path + Segment(k));
      out := out + more;
      LinesUpTo(b, a, keys, i, path);
    }
    assert keys[..|keys|] == keys;
  }

  /** No two lines of one diff name the same path. */
  lemma LinePathsDistinct(path: string, b: Read, a: Read, i: nat, j: nat)
    requires i < j < |Lines(path, Diff(b, a))|
    ensures Lines(path, Diff(b, a))[i].path != Lines(path, Diff(b, a))[j].path
  {
    PathsDistinct(b, a);
    var p, q := Diff(b, a)[i].path, Diff(b, a)[j].path;
    if path + Render(p) == path + Render(q) {
      assert (path + Render(p))[|path|..] == Render(p) && (path + Render(q))[|path|..] == Render(q);
      RenderInjective(p, q);
    }
  }

  // ----- when the diff is empty

  /** Reads like `Object.prototype`: only a `__proto__` key, holding what prints as null. */
  ghost predicate LikePrototype(v: Json) {
    v.Obj? && forall k :: Own(v.fields, k).Some? ==> k == PROTO && Flat(Own(v.fields, k).value) == Null
  }

  /** Equal, except that an overflowed number matches null and a missing `__proto__` a value that reads like
      `Object.prototype`. */
  ghost predicate Indistinct(x: Json, y: Json)
    decreases Size(x)
  {
    if x.Obj? && y.Obj? then forall k :: IndistinctAt(x, y, k) else Flat(x) == Flat(y)
  }

  ghost predicate IndistinctAt(x: Json, y: Json, k: string)
    requires x.Obj? && y.Obj?
    decreases Size(x), 0
  {
    match (Own(x.fields, k), Own(y.fields, k))
    case (Some(p), Some(q)) => Size(p) < Size(x) && Indistinct(p, q)
    case (Some(p), None) => k == PROTO && LikePrototype(p)
    case (None, Some(q)) => k == PROTO && LikePrototype(q)
    case (None, None) => true
  }

  lemma {:induction false} NoKeyDiffers(b: Read, a: Read, ks: seq<string>)
    requires Descends(b, a)
    ensures DiffKeys(b, a, ks) == [] <==> forall k :: k in ks ==> Diff(Get(b, k), Get(a, k)) == []
    decreases |ks|
  {
    if ks != [] {
      NoKeyDiffers(b, a, ks[1..]);
      assert ks == [ks[0]] + ks[1..];
      assert |Under(ks[0], Diff(Get(b, ks[0]), Get(a, ks[0])))| == |Diff(Get(b, ks[0]), Get(a, ks[0]))|;
    }
  }

  lemma PrototypeKey(v: Json, k: string)
    ensures Diff(Get(Prototype, k), Val(v)) == [] <==> k == PROTO && Flat(v) == Null
    ensures Diff(Val(v), Get(Prototype, k)) == [] <==> k == PROTO && Flat(v) == Null
  {
    TextsCompareValues(v, Null);
  }

  lemma PrototypeKeys(v: Json, k: string)
    requires v.Obj? && Own(v.fields, k).Some?
    ensures Diff(Get(Prototype, k), Get(Val(v), k)) == [] <==> k == PROTO && Flat(Own(v.fields, k).value) == Null
    ensures Diff(Get(Val(v), k), Get(Prototype, k)) == [] <==> k == PROTO && Flat(Own(v.fields, k).value) == Null
  {
    PrototypeKey(Own(v.fields, k).value, k);
  }

  lemma PrototypeObject(v: Json, b: Read, a: Read)
    requires v.Obj? && ((b == Prototype && a == Val(v)) || (b == Val(v) && a == Prototype))
    ensures Diff(b, a) == [] <==> LikePrototype(v)
  {
    NoKeyDiffers(b, a, UnionKeys(b, a));
    UnionKeysSpec(b, a);
    forall k
      ensures k in KeysIn(v.fields) <==> Own(v.fields, k).Some?
      ensures Own(v.fields, k).Some? ==>
                (Diff(Get(b, k), Get(a, k)) == [] <==> k == PROTO && Flat(Own(v.fields, k).value) == Null)
    {
      OwnIsKey(v.fields, k);
      if Own(v.fields, k).Some? {
        PrototypeKeys(v, k);
      }
    }
  }

  lemma PrototypeDiff(v: Json)
    ensures Diff(Prototype, Val(v)) == [] <==> LikePrototype(v)
    ensures Diff(Val(v), Prototype) == [] <==> LikePrototype(v)
  {
    if v.Obj? {
      PrototypeObject(v, Prototype, Val(v));
      PrototypeObject(v, Val(v), Prototype);
    } else {
      TextOfEmptyObject(v);
    }
  }

  lemma MissingDiff(v: Json, k: string)
    ensures Diff(Inherited(k), Val(v)) == [] <==> k == PROTO && LikePrototype(v)
    ensures Diff(Val(v), Inherited(k)) == [] <==> k == PROTO && LikePrototype(v)
  {
    if k == PROTO {
      PrototypeDiff(v);
    }
  }

  lemma {:induction false} KeyEmpty(x: Json, y: Json, k: string)
    requires x.Obj? && y.Obj?
    requires Own(x.fields, k).Some? || Own(y.fields, k).Some?
    ensures Diff(Get(Val(x), k), Get(Val(y), k)) == [] <==> IndistinctAt(x, y, k)
    decreases Size(x), 0
  {
    var b, a := Get(Val(x), k), Get(Val(y), k);
    match (Own(x.fields, k), Own(y.fields, k))
    case (Some(p), Some(q)) =>
      assert b == Val(p) && a == Val(q);
      EmptyLaw(p, q);
    case (Some(p), None) =>
      assert b == Val(p) && a == Inherited(k);
      MissingDiff(p, k);
    case (None, Some(q)) =>
      assert b == Inherited(k) && a == Val(q);
      MissingDiff(q, k);
    case (None, None) =>
  }

  /** Nothing is reported exactly when the trees are equal up to key order, overflowed numbers and a missing
      `__proto__`. */
  lemma {:induction false} EmptyLaw(x: Json, y: Json)
    ensures Diff(Val(x), Val(y)) == [] <==> Indistinct(x, y)
    decreases Size(x), 1
  {
    if x.Obj? && y.Obj? {
      NoKeyDiffers(Val(x), Val(y), UnionKeys(Val(x), Val(y)));
      forall k
        ensures k in UnionKeys(Val(x), Val(y)) ==>
                  (Diff(Get(Val(x), k), Get(Val(y), k)) == [] <==> IndistinctAt(x, y, k))
        ensures k !in UnionKeys(Val(x), Val(y)) ==> IndistinctAt(x, y, k)
      {
        KeyOfUnion(x, y, k);
        if Own(x.fields, k).Some? || Own(y.fields, k).Some? {
          KeyEmpty(x, y, k);
        }
      }
    } else {
      TextsCompareValues(x, y);
    }
  }

  lemma {:induction false} SameIsIndistinct(x: Json, y: Json)
    requires Same(x, y)
    ensures Indistinct(x, y)
    decreases Size(x)
  {
    if x.Obj? && y.Obj? {
      forall k
        ensures IndistinctAt(x, y, k)
      {
        assert SameAt(x, y, k);
        if Own(x.fields, k).Some? {
          SameIsIndistinct(Own(x.fields, k).value, Own(y.fields, k).value);
        }
      }
    }
  }

  /** Reordering keys is never reported; on a clean pair nothing else is left out. */
  lemma EmptyMeansSame(x: Json, y: Json)
    ensures Same(x, y) ==> Diff(Val(x), Val(y)) == []
    ensures Clean(x, y) ==> (Diff(Val(x), Val(y)) == [] <==> Same(x, y))
  {
    EmptyLaw(x, y);
    PatchLaw(x, y);
    if Same(x, y) {
      SameIsIndistinct(x, y);
    }
  }

  /** An added `__proto__: {}` goes unreported. */
  lemma ProtoGoesUnseen()
    ensures var x, y := Obj([]), Obj([Field(PROTO, Obj([]))]); Diff(Val(x), Val(y)) == [] && !Same(x, y)
  {
    var x, y := Obj([]), Obj([Field(PROTO, Obj([]))]);
    assert Own(y.fields, PROTO) == Some(Obj([]));
    assert forall k :: k != PROTO ==> Own(y.fields, k).None?;
    assert forall k :: Own(x.fields, k).None?;
    assert IndistinctAt(x, y, PROTO);
    EmptyLaw(x, y);
    assert !SameAt(x, y, PROTO);
  }

  /** A number that overflowed, at any path, is not told from null, nor plus from minus infinity. */
  lemma OverflowGoesUnseen(negative: bool, y: Json)
    requires y == Null || y == Overflow(!negative)
    ensures var x := Overflow(negative); Diff(Val(x), Val(y)) == [] && !Same(x, y) && !Restores(x, y)
  {
    TextsCompareValues(Overflow(negative), y);
    PatchLaw(Overflow(negative), y);
  }

  /** A removed key with an inherited method's name is reported as changed to that method, and the diff cannot restore
      it. */
  lemma InheritedNameIsNotRemoved(p: Json, k: string)
    requires k in METHODS
    ensures var x, y := Obj([Field(k, p)]), Obj([]);
            Diff(Val(x), Val(y)) == [Entry([k], Modified, Val(p), Method(k))] && !Restores(x, y)
  {
    var x, y := Obj([Field(k, p)]), Obj([]);
    assert KeysIn([Field(k, p)][1..]) == [];
    assert KeysIn(x.fields) == [k];
    assert OwnKeys(Val(x)) + OwnKeys(Val(y)) == [k];
    assert [k][1..] == [];
    assert SortKeys([k]) == [k];
    assert UnionKeys(Val(x), Val(y)) == [k];
    var es := Diff(Val(p), Method(k));
    assert es == [Entry([], Modified, Val(p), Method(k))];
    assert Under(k, es) == [Entry([k], Modified, Val(p), Method(k))];
    assert DiffKeys(Val(x), Val(y), [k][1..]) == [];
    assert Own(x.fields, k) == Some(p);
    assert !CleanAt(x, y, k);
    PatchLaw(x, y);
  }
}
