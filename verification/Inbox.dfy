/** Inbox messages as the pump selects them (crates/agora-bridge/src/pump.rs, `select_fresh`). */
module Inbox {
  import Seqs

  /** A message with an integer `seq`; `no` is that number. */
  datatype Message = Message(no: int, body: string)

  /** One element of a fetched inbox. The cursor cannot track a message without an integer `seq`. */
  datatype Raw = Numbered(msg: Message) | Unnumbered(text: string)

  ghost predicate Ascending(ms: seq<Message>) {
    forall i, j :: 0 <= i < j < |ms| ==> ms[i].no < ms[j].no
  }

  ghost predicate NonDescending(ms: seq<Message>) {
    forall i, j :: 0 <= i < j < |ms| ==> ms[i].no <= ms[j].no
  }

  /** The messages of `ms` numbered above `c`, in the order of `ms`. */
  function Above(ms: seq<Message>, c: int): seq<Message> {
    if ms == [] then []
    else
      var last := ms[|ms| - 1];
      Above(ms[..|ms| - 1], c) + if last.no > c then [last] else []
  }

  /** The numbered messages of a fetched inbox, in its order. */
  function NumberedOf(raws: seq<Raw>): seq<Message> {
    if raws == [] then []
    else
      var last := raws[|raws| - 1];
      NumberedOf(raws[..|raws| - 1]) + if last.Numbered? then [last.msg] else []
  }

  /** `m` placed in the sorted `ms`, after every message that does not exceed it. */
  function Insert(ms: seq<Message>, m: Message): (r: seq<Message>)
    ensures |r| == |ms| + 1
  {
    if ms == [] || ms[|ms| - 1].no <= m.no then ms + [m]
    else Insert(ms[..|ms| - 1], m) + [ms[|ms| - 1]]
  }

  /** A stable sort by number (`sort_by_key`). */
  function StableSort(ms: seq<Message>): seq<Message> {
    if ms == [] then [] else Insert(StableSort(ms[..|ms| - 1]), ms[|ms| - 1])
  }

  /** The messages a fetched inbox offers above `cursor`: retained, then sorted. */
  function Fresh(raws: seq<Raw>, cursor: int): seq<Message> {
    StableSort(Above(NumberedOf(raws), cursor))
  }

  /** The messages of `ms` numbered exactly `k`, in the order of `ms`. */
  function WithNo(ms: seq<Message>, k: int): seq<Message> {
    if ms == [] then []
    else
      var last := ms[|ms| - 1];
      WithNo(ms[..|ms| - 1], k) + if last.no == k then [last] else []
  }

  // ----- Above

  lemma {:induction false} AboveMembers(ms: seq<Message>, c: int)
    ensures forall m :: m in Above(ms, c) <==> m in ms && m.no > c
  {
    if ms != [] {
      var init := ms[..|ms| - 1];
      AboveMembers(init, c);
      assert ms == init + [ms[|ms| - 1]];
    }
  }

  lemma {:induction false} AboveAscending(ms: seq<Message>, c: int)
    requires Ascending(ms)
    ensures Ascending(Above(ms, c))
  {
    if ms != [] {
      var init := ms[..|ms| - 1];
      AboveAscending(init, c);
      AboveMembers(init, c);
      assert forall m :: m in init ==> m.no < ms[|ms| - 1].no;
      assert forall i :: 0 <= i < |Above(init, c)| ==> Above(init, c)[i] in init;
    }
  }

  lemma {:induction false} AboveEach(ms: seq<Message>, c: int)
    requires forall i :: 0 <= i < |ms| ==> ms[i].no > c
    ensures Above(ms, c) == ms
  {
    if ms != [] {
      AboveEach(ms[..|ms| - 1], c);
      Seqs.Snoc(ms);
    }
  }

  lemma AboveAll(ms: seq<Message>, c: int)
    requires forall m :: m in ms ==> m.no > c
    ensures Above(ms, c) == ms
  {
    AboveEach(ms, c);
  }

  lemma {:induction false} AboveNone(ms: seq<Message>, c: int)
    requires forall i :: 0 <= i < |ms| ==> ms[i].no <= c
    ensures Above(ms, c) == []
  {
    if ms != [] {
      AboveNone(ms[..|ms| - 1], c);
    }
  }

  /** Filtering twice filters by the larger bound. */
  lemma {:induction false} AboveAbove(ms: seq<Message>, a: int, b: int)
    requires a <= b
    ensures Above(Above(ms, a), b) == Above(ms, b)
  {
    if ms != [] {
      var init, last := ms[..|ms| - 1], ms[|ms| - 1];
      AboveAbove(init, a, b);
      var sub := Above(init, a);
      if last.no > a {
        assert (sub + [last])[..|sub|] == sub;
      } else {
        assert sub + [] == sub;
      }
    }
  }

  /** Raising the bound past `k` leading messages of an ascending list drops exactly those. */
  lemma {:induction false} AboveDrops(ms: seq<Message>, c: int, k: nat)
    requires Ascending(ms) && 0 < k <= |Above(ms, c)|
    ensures Above(ms, Above(ms, c)[k - 1].no) == Above(ms, c)[k..]
  {
    var up := Above(ms, c);
    AboveAscending(ms, c);
    var d := up[k - 1].no;
    assert c <= d by { AboveMembers(ms, c); assert up[k - 1] in up; }
    AboveAbove(ms, c, d);
    AscendingSplit(up, k);
  }

  lemma AscendingSplit(up: seq<Message>, k: nat)
    requires Ascending(up) && 0 < k <= |up|
    ensures Above(up, up[k - 1].no) == up[k..]
  {
    var d, lo, hi := up[k - 1].no, up[..k], up[k..];
    assert Above(lo, d) == [] by { AboveNone(lo, d); }
    assert Above(hi, d) == hi by { AboveEach(hi, d); }
    Seqs.Cut(up, k);
    AboveSplit(lo, hi, d);
    Seqs.Unit(hi);
  }

  lemma {:induction false} AboveSplit(a: seq<Message>, b: seq<Message>, c: int)
    ensures Above(a + b, c) == Above(a, c) + Above(b, c)
  {
    if b == [] {
      assert a + b == a;
    } else {
      var init := b[..|b| - 1];
      AboveSplit(a, init, c);
      assert (a + b)[..|a + b| - 1] == a + init;
    }
  }

  // ----- sorting

  lemma {:induction false} InsertBounded(ms: seq<Message>, m: Message, top: int)
    requires m.no <= top && forall i :: 0 <= i < |ms| ==> ms[i].no <= top
    ensures forall i :: 0 <= i < |Insert(ms, m)| ==> Insert(ms, m)[i].no <= top
  {
    if ms != [] && ms[|ms| - 1].no > m.no {
      InsertBounded(ms[..|ms| - 1], m, top);
    }
  }

  lemma {:induction false} InsertIsSorted(ms: seq<Message>, m: Message)
    requires NonDescending(ms)
    ensures NonDescending(Insert(ms, m))
  {
    if ms != [] && ms[|ms| - 1].no > m.no {
      var init, last := ms[..|ms| - 1], ms[|ms| - 1];
      InsertIsSorted(init, m);
      InsertBounded(init, m, last.no);
    }
  }

  lemma {:induction false} InsertContents(ms: seq<Message>, m: Message)
    ensures multiset(Insert(ms, m)) == multiset(ms) + multiset{m}
  {
    if ms != [] && ms[|ms| - 1].no > m.no {
      InsertContents(ms[..|ms| - 1], m);
      Seqs.Snoc(ms);
    }
  }

  lemma WithNoPush(ms: seq<Message>, m: Message, k: int)
    ensures WithNo(ms + [m], k) == WithNo(ms, k) + if m.no == k then [m] else []
  {
    Seqs.Pushed(ms, m);
  }

  lemma {:induction false} InsertIsStable(ms: seq<Message>, m: Message, k: int)
    requires NonDescending(ms)
    ensures WithNo(Insert(ms, m), k) == WithNo(ms + [m], k)
  {
    if ms != [] && ms[|ms| - 1].no > m.no {
      var init, last := ms[..|ms| - 1], ms[|ms| - 1];
      InsertIsStable(init, m, k);
      WithNoPush(Insert(init, m), last, k);
      WithNoPush(init, m, k);
      WithNoPush(ms, m, k);
    }
  }

  lemma {:induction false} SortIsSorted(ms: seq<Message>)
    ensures NonDescending(StableSort(ms))
  {
    if ms != [] {
      SortIsSorted(ms[..|ms| - 1]);
      InsertIsSorted(StableSort(ms[..|ms| - 1]), ms[|ms| - 1]);
    }
  }

  lemma {:induction false} SortContents(ms: seq<Message>)
    ensures multiset(StableSort(ms)) == multiset(ms)
  {
    if ms != [] {
      SortContents(ms[..|ms| - 1]);
      InsertContents(StableSort(ms[..|ms| - 1]), ms[|ms| - 1]);
      Seqs.Snoc(ms);
    }
  }

  lemma {:induction false} SortIsStable(ms: seq<Message>, k: int)
    ensures WithNo(StableSort(ms), k) == WithNo(ms, k)
  {
    if ms != [] {
      var init, last := ms[..|ms| - 1], ms[|ms| - 1];
      SortIsStable(init, k);
      SortIsSorted(init);
      InsertIsStable(StableSort(init), last, k);
      WithNoPush(StableSort(init), last, k);
    }
  }

  /** `sort_by_key`: ascending, a permutation, and messages of equal number keep their order. */
  lemma SortSpec(ms: seq<Message>, k: int)
    ensures NonDescending(StableSort(ms))
    ensures multiset(StableSort(ms)) == multiset(ms)
    ensures WithNo(StableSort(ms), k) == WithNo(ms, k)
  {
    SortIsSorted(ms);
    SortContents(ms);
    SortIsStable(ms, k);
  }

  lemma LastIsLargest(a: seq<Message>, m: Message)
    requires NonDescending(a) && m in multiset(a)
    ensures a != [] && m.no <= a[|a| - 1].no
  {
    assert m in a;
  }

  lemma InitContents(a: seq<Message>)
    requires a != []
    ensures a == a[..|a| - 1] + [a[|a| - 1]]
    ensures multiset(a[..|a| - 1]) == multiset(a) - multiset{a[|a| - 1]}
  {
  }

  lemma LastIsShared(a: seq<Message>, b: seq<Message>)
    requires a != [] && NonDescending(a) && Ascending(b) && multiset(a) == multiset(b)
    ensures b != [] && a[|a| - 1] == b[|b| - 1]
  {
    var x := a[|a| - 1];
    assert x in multiset(a);
    LastIsLargest(b, x);
    var y := b[|b| - 1];
    assert y in multiset(b);
    LastIsLargest(a, y);
    assert x in b;
    var i :| 0 <= i < |b| && b[i] == x;
  }

  /** An ascending list is determined by its contents. */
  lemma {:induction false} SortedUnique(a: seq<Message>, b: seq<Message>)
    requires NonDescending(a) && Ascending(b) && multiset(a) == multiset(b)
    ensures a == b
  {
    assert |multiset(a)| == |multiset(b)|;
    if a != [] {
      LastIsShared(a, b);
      InitContents(a);
      InitContents(b);
      SortedUnique(a[..|a| - 1], b[..|b| - 1]);
    }
  }

  lemma {:induction false} AbovePermutation(a: seq<Message>, b: seq<Message>, c: int)
    requires multiset(a) == multiset(b)
    ensures multiset(Above(a, c)) == multiset(Above(b, c))
  {
    forall m: Message
      ensures multiset(Above(a, c))[m] == multiset(Above(b, c))[m]
    {
      AboveCount(a, c, m);
      AboveCount(b, c, m);
    }
  }

  lemma {:induction false} AboveCount(a: seq<Message>, c: int, m: Message)
    ensures multiset(Above(a, c))[m] == if m.no > c then multiset(a)[m] else 0
  {
    if a != [] {
      AboveCount(a[..|a| - 1], c, m);
      assert a == a[..|a| - 1] + [a[|a| - 1]];
    }
  }

  /** Whatever order a fetch answers in, what is offered is the ascending list of what it holds above `cursor`. */
  lemma FreshOfPermutation(raws: seq<Raw>, asc: seq<Message>, cursor: int)
    requires Ascending(asc) && multiset(NumberedOf(raws)) == multiset(asc)
    ensures Fresh(raws, cursor) == Above(asc, cursor)
  {
    AbovePermutation(NumberedOf(raws), asc, cursor);
    SortSpec(Above(NumberedOf(raws), cursor), 0);
    AboveAscending(asc, cursor);
    SortedUnique(Fresh(raws, cursor), Above(asc, cursor));
  }

  lemma {:induction false} InsertAt(ms: seq<Message>, m: Message, j: nat)
    requires NonDescending(ms) && j <= |ms|
    requires forall i :: 0 <= i < j ==> ms[i].no <= m.no
    requires forall i :: j <= i < |ms| ==> ms[i].no > m.no
    ensures Insert(ms, m) == ms[..j] + [m] + ms[j..]
  {
    if j < |ms| {
      var init := ms[..|ms| - 1];
      InsertAt(init, m, j);
      assert init[j..] + [ms[|ms| - 1]] == ms[j..];
      assert init[..j] == ms[..j];
    }
  }

  lemma RetainStep(raws: seq<Raw>, cursor: int)
    requires raws != []
    ensures var last := raws[|raws| - 1];
            Above(NumberedOf(raws), cursor) == Above(NumberedOf(raws[..|raws| - 1]), cursor)
              + if last.Numbered? && last.msg.no > cursor then [last.msg] else []
  {
    var before, last := NumberedOf(raws[..|raws| - 1]), raws[|raws| - 1];
    if last.Numbered? {
      assert (before + [last.msg])[..|before|] == before;
    } else {
      assert before + [] == before;
    }
  }

  /** `retain`: the integer-numbered messages above the cursor, in their order. */
  method Retain(raws: seq<Raw>, cursor: int) returns (kept: seq<Message>)
    ensures kept == Above(NumberedOf(raws), cursor)
  {
    kept := [];
    for i := 0 to |raws|
      invariant kept == Above(NumberedOf(raws[..i]), cursor)
    {
      RetainStep(raws[..i + 1], cursor);
      assert raws[..i + 1][..i] == raws[..i];
      if raws[i].Numbered? {
        if raws[i].msg.no > cursor {
          kept := kept + [raws[i].msg];
        }
      }
    }
    assert raws[..|raws|] == raws;
  }

  /** Where `m` goes in the sorted `ms`: after every message that does not exceed it. */
  method InsertSorted(ms: seq<Message>, m: Message) returns (r: seq<Message>)
    requires NonDescending(ms)
    ensures r == Insert(ms, m)
  {
    var j := |ms|;
    while j > 0 && ms[j - 1].no > m.no
      invariant 0 <= j <= |ms|
      invariant forall n :: j <= n < |ms| ==> ms[n].no > m.no
    {
      j := j - 1;
    }
    InsertAt(ms, m, j);
    r := ms[..j] + [m] + ms[j..];
  }

  /** `sort_by_key`, as an insertion sort. */
  method SortByNumber(ms: seq<Message>) returns (r: seq<Message>)
    ensures r == StableSort(ms)
  {
    r := [];
    for i := 0 to |ms|
      invariant r == StableSort(ms[..i])
    {
      SortSpec(ms[..i], 0);
      assert ms[..i + 1][..i] == ms[..i];
      r := InsertSorted(r, ms[i]);
    }
    assert ms[..|ms|] == ms;
  }

  /** `select_fresh`: keep, then sort. */
  method SelectFresh(raws: seq<Raw>, cursor: int) returns (r: seq<Message>)
    ensures r == Fresh(raws, cursor)
  {
    var kept := Retain(raws, cursor);
    r := SortByNumber(kept);
  }

  /** What `select_fresh` keeps is exactly the numbered messages above the cursor, ascending, with messages of equal
      number in the order they came. */
  lemma FreshSpec(raws: seq<Raw>, cursor: int, m: Message, k: int)
    ensures NonDescending(Fresh(raws, cursor))
    ensures multiset(Fresh(raws, cursor))[m] == if m.no > cursor then multiset(NumberedOf(raws))[m] else 0
    ensures k > cursor ==> WithNo(Fresh(raws, cursor), k) == WithNo(NumberedOf(raws), k)
  {
    var ms := NumberedOf(raws);
    SortSpec(Above(ms, cursor), k);
    AboveCount(ms, cursor, m);
    if k > cursor {
      AboveKeepsNo(ms, cursor, k);
    }
  }

  lemma {:induction false} AboveKeepsNo(ms: seq<Message>, c: int, k: int)
    requires k > c
    ensures WithNo(Above(ms, c), k) == WithNo(ms, k)
  {
    if ms != [] {
      var init, last := ms[..|ms| - 1], ms[|ms| - 1];
      AboveKeepsNo(init, c, k);
      assert (Above(init, c) + [last])[..|Above(init, c)|] == Above(init, c);
      assert Above(init, c) + [] == Above(init, c);
    }
  }
}
