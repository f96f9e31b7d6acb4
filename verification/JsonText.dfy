/** JSON values and `JSON.stringify`, which legacy/src/safe-write.ts compares values by, and what comparing the texts
    says about the values. */
module JsonText {
  import opened Options
  import Seqs

  datatype Field = Field(key: string, value: Json)

  predicate NumberChar(c: char) {
    '0' <= c <= '9' || c == '-' || c == '+' || c == '.' || c == 'e' || c == 'E'
  }

  predicate LooksLikeNumber(s: string) {
    s != "" && ('0' <= s[0] <= '9' || s[0] == '-') && forall i :: 0 <= i < |s| ==> NumberChar(s[i])
  }

  type NumberText = s: string | LooksLikeNumber(s) witness "0"

  /** A number is kept as the text it is printed as; one too large to hold is infinite. Objects keep their key order. */
  datatype Json =
    | Null
    | Bool(b: bool)
    | Num(lit: NumberText)
    | Overflow(negative: bool)
    | Str(s: string)
    | Arr(items: seq<Json>)
    | Obj(fields: seq<Field>)

  function HexDigit(n: nat): char
    requires n < 16
  {
    "0123456789abcdef"[n]
  }

  /** One character of a JSON string literal. */
  function Esc(c: char): (e: string)
    ensures |e| > 0
  {
    if c == '"' then ['\\', '"']
    else if c == '\\' then ['\\', '\\']
    else if c as int == 8 then ['\\', 'b']
    else if c as int == 9 then ['\\', 't']
    else if c as int == 10 then ['\\', 'n']
    else if c as int == 12 then ['\\', 'f']
    else if c as int == 13 then ['\\', 'r']
    else if c as int < 32 then ['\\', 'u', '0', '0', HexDigit(c as int / 16), HexDigit(c as int % 16)]
    else [c]
  }

  function EscAll(s: string): string {
    if s == "" then "" else Esc(s[0]) + EscAll(s[1..])
  }

  function Quote(s: string): string {
    ['"'] + EscAll(s) + ['"']
  }

  /** `JSON.stringify`. */
  function Stringify(j: Json): string
    decreases j
  {
    match j
    case Null => "null"
    case Bool(b) => if b then "true" else "false"
    case Num(lit) => lit
    case Overflow(_) => "null"
    case Str(s) => Quote(s)
    case Arr(items) => ['['] + Items(items) + [']']
    case Obj(fields) => ['{'] + Fields(fields) + ['}']
  }

  function Items(items: seq<Json>): string
    decreases items, 0
  {
    if items == [] then ""
    else if |items| == 1 then Stringify(items[0])
    else Stringify(items[0]) + [','] + Items(items[1..])
  }

  function Fields(fields: seq<Field>): string
    decreases fields, 0
  {
    if fields == [] then ""
    else if |fields| == 1 then Member(fields[0])
    else Member(fields[0]) + [','] + Fields(fields[1..])
  }

  function Member(f: Field): string
    decreases f, 1
  {
    Quote(f.key) + [':'] + Stringify(f.value)
  }

  // ----- string literals are uniquely readable

  lemma HexInjective(m: nat, n: nat)
    requires m < 16 && n < 16 && HexDigit(m) == HexDigit(n)
    ensures m == n
  {
  }

  lemma EscIsPrefixCode(c: char, d: char, x: string, y: string)
    requires Esc(c) + x == Esc(d) + y
    ensures c == d && x == y
  {
    var u, v := Esc(c) + x, Esc(d) + y;
    assert u[0] == Esc(c)[0] && v[0] == Esc(d)[0];
    if |Esc(c)| > 1 && |Esc(d)| > 1 {
      assert u[1] == Esc(c)[1] && v[1] == Esc(d)[1];
      if |Esc(c)| == 6 && |Esc(d)| == 6 {
        assert u[4] == Esc(c)[4] && v[4] == Esc(d)[4] && u[5] == Esc(c)[5] && v[5] == Esc(d)[5];
        HexInjective(c as int / 16, d as int / 16);
        HexInjective(c as int % 16, d as int % 16);
      }
    }
    assert c == d;
    assert u[|Esc(c)|..] == x && v[|Esc(c)|..] == y;
  }

  lemma LiteralHead(s: string, x: string)
    ensures (EscAll(s) + ['"'] + x)[0] == '"' <==> s == ""
  {
    if s != "" {
      assert (EscAll(s) + ['"'] + x)[0] == Esc(s[0])[0];
    }
  }

  lemma {:induction false} EscAllEndsAtQuote(s: string, t: string, x: string, y: string)
    requires EscAll(s) + ['"'] + x == EscAll(t) + ['"'] + y
    ensures s == t && x == y
  {
    var u, v := EscAll(s) + ['"'] + x, EscAll(t) + ['"'] + y;
    LiteralHead(s, x);
    LiteralHead(t, y);
    if s == "" {
      assert u[1..] == x && v[1..] == y;
    } else {
      LiteralSplit(s, x);
      LiteralSplit(t, y);
      EscIsPrefixCode(s[0], t[0], EscAll(s[1..]) + ['"'] + x, EscAll(t[1..]) + ['"'] + y);
      EscAllEndsAtQuote(s[1..], t[1..], x, y);
    }
  }

  lemma LiteralSplit(s: string, x: string)
    requires s != ""
    ensures EscAll(s) + ['"'] + x == Esc(s[0]) + (EscAll(s[1..]) + ['"'] + x)
  {
  }

  lemma QuoteIsPrefixCode(s: string, t: string, x: string, y: string)
    requires Quote(s) + x == Quote(t) + y
    ensures s == t && x == y
  {
    assert (Quote(s) + x)[1..] == EscAll(s) + ['"'] + x;
    assert (Quote(t) + y)[1..] == EscAll(t) + ['"'] + y;
    EscAllEndsAtQuote(s, t, x, y);
  }

  // ----- a JSON reader gets the string back

  function HexValue(c: char): Option<nat> {
    if '0' <= c <= '9' then Some(c as int - '0' as int)
    else if 'a' <= c <= 'f' then Some(c as int - 'a' as int + 10)
    else if 'A' <= c <= 'F' then Some(c as int - 'A' as int + 10)
    else None
  }

  /** The escapes of section 7 of RFC 8259 but `\\u`. */
  function Escaped(c: char): Option<char> {
    match c
    case '"' => Some('"')
    case '\\' => Some('\\')
    case '/' => Some('/')
    case 'b' => Some(8 as char)
    case 'f' => Some(12 as char)
    case 'n' => Some(10 as char)
    case 'r' => Some(13 as char)
    case 't' => Some(9 as char)
    case _ => None
  }

  /** One character of a literal, and the rest, as section 7 of RFC 8259 reads it below U+0100. */
  function ReadChar(t: string): Option<(char, string)> {
    if t == "" || t[0] == '"' || t[0] as int < 32 then None
    else if t[0] != '\\' then Some((t[0], t[1..]))
    else if |t| >= 6 && t[1..4] == "u00" && HexValue(t[4]).Some? && HexValue(t[5]).Some? then
      Some(((16 * HexValue(t[4]).value + HexValue(t[5]).value) as char, t[6..]))
    else if |t| >= 2 && Escaped(t[1]).Some? then Some((Escaped(t[1]).value, t[2..]))
    else None
  }

  function ReadChars(t: string): Option<(string, string)>
    decreases |t|
  {
    if t == "" then None
    else if t[0] == '"' then Some(("", t[1..]))
    else
      match ReadChar(t)
      case None => None
      case Some((c, rest)) =>
        if |rest| >= |t| then None
        else
          match ReadChars(rest)
          case None => None
          case Some((s, after)) => Some(([c] + s, after))
  }

  /** An escaped character reads back, and is escaped in the shortest way: not at all, by one letter, or by number. */
  lemma EscReads(c: char, rest: string)
    ensures ReadChar(Esc(c) + rest) == Some((c, rest))
    ensures |Esc(c)| == 2 <==> exists e :: Escaped(e) == Some(c) && e != '/'
    ensures |Esc(c)| == 1 <==> c as int >= 32 && c != '"' && c != '\\'
    ensures |Esc(c)| in {1, 2, 6}
  {
    var t := Esc(c) + rest;
    assert t[|Esc(c)|..] == rest;
    if |Esc(c)| == 2 {
      assert Escaped(Esc(c)[1]) == Some(c);
      assert t[1] == Esc(c)[1];
    } else if |Esc(c)| == 6 {
      assert t[1..4] == "u00" && t[4] == HexDigit(c as int / 16) && t[5] == HexDigit(c as int % 16);
    }
  }

  /** A quoted string reads back as itself. */
  lemma {:induction false} QuoteReads(s: string, rest: string)
    ensures ReadChars(EscAll(s) + ['"'] + rest) == Some((s, rest))
  {
    var t := EscAll(s) + ['"'] + rest;
    LiteralHead(s, rest);
    if s == "" {
      assert t[1..] == rest;
    } else {
      var more := EscAll(s[1..]) + ['"'] + rest;
      LiteralSplit(s, rest);
      EscReads(s[0], more);
      QuoteReads(s[1..], rest);
      assert [s[0]] + s[1..] == s;
    }
  }

  // ----- values are uniquely readable before a delimiter

  predicate Delimiter(c: char) { c == ',' || c == ']' || c == '}' }

  /** What can follow a value: nothing, or a delimiter. */
  ghost predicate Follows(x: string) { x == "" || Delimiter(x[0]) }

  /** No number in `j` overflowed. */
  predicate Finite(j: Json)
    decreases j
  {
    match j
    case Overflow(_) => false
    case Arr(items) => forall i :: 0 <= i < |items| ==> Finite(items[i])
    case Obj(fields) => forall i :: 0 <= i < |fields| ==> Finite(fields[i].value)
    case _ => true
  }

  function UntilDelimiter(s: string): (n: nat)
    ensures n <= |s| && (n < |s| ==> Delimiter(s[n])) && forall i :: 0 <= i < n ==> !Delimiter(s[i])
  {
    if s == "" || Delimiter(s[0]) then 0 else 1 + UntilDelimiter(s[1..])
  }

  ghost predicate Plain(a: string) { forall i :: 0 <= i < |a| ==> !Delimiter(a[i]) }

  lemma UntilDelimiterIs(a: string, x: string)
    requires Plain(a) && Follows(x)
    ensures UntilDelimiter(a + x) == |a|
  {
    var s := a + x;
    assert forall k :: 0 <= k < |a| ==> s[k] == a[k];
    assert x != "" ==> s[|a|] == x[0];
  }

  /** A run of non-delimiters ends where the delimiter begins. */
  lemma Munch(a: string, b: string, x: string, y: string)
    requires a + x == b + y && Follows(x) && Follows(y) && Plain(a) && Plain(b)
    ensures a == b && x == y
  {
    UntilDelimiterIs(a, x);
    UntilDelimiterIs(b, y);
    assert (a + x)[..|a|] == a && (b + y)[..|a|] == b && (a + x)[|a|..] == x && (b + y)[|a|..] == y;
  }

  /** The first character of a value's text tells which kind of value it is. */
  datatype Kind = KNull | KTrue | KFalse | KNum | KStr | KArr | KObj

  function KindOf(j: Json): Kind {
    match j
    case Null => KNull
    case Bool(b) => if b then KTrue else KFalse
    case Num(_) => KNum
    case Overflow(_) => KNull
    case Str(_) => KStr
    case Arr(_) => KArr
    case Obj(_) => KObj
  }

  function KindAt(c: char): Kind {
    if c == 'n' then KNull else if c == 't' then KTrue else if c == 'f' then KFalse
    else if c == '"' then KStr else if c == '[' then KArr else if c == '{' then KObj else KNum
  }

  lemma HeadTellsKind(j: Json, x: string)
    requires Finite(j)
    ensures Stringify(j) != "" && KindAt((Stringify(j) + x)[0]) == KindOf(j) && !Delimiter(Stringify(j)[0])
  {
    var t := Stringify(j);
    assert t != "" && (t + x)[0] == t[0];
  }

  lemma ItemsHead(items: seq<Json>, x: string)
    requires forall i :: 0 <= i < |items| ==> Finite(items[i])
    ensures (Items(items) + [']'] + x)[0] == ']' <==> items == []
  {
    if items != [] {
      HeadTellsKind(items[0], "");
      assert (Items(items) + [']'] + x)[0] == Stringify(items[0])[0];
    }
  }

  lemma FieldsHead(fields: seq<Field>, x: string)
    ensures (Fields(fields) + ['}'] + x)[0] == '}' <==> fields == []
  {
    if fields != [] {
      assert (Fields(fields) + ['}'] + x)[0] == Member(fields[0])[0] == '"';
    }
  }

  /** What follows the first item of a list: a comma and the rest, or the closing bracket. */
  function AfterItem(items: seq<Json>, x: string): string
    requires items != []
  {
    if |items| == 1 then [']'] + x else [','] + (Items(items[1..]) + [']'] + x)
  }

  function AfterField(fields: seq<Field>, x: string): string
    requires fields != []
  {
    if |fields| == 1 then ['}'] + x else [','] + (Fields(fields[1..]) + ['}'] + x)
  }

  lemma ItemsSplit(items: seq<Json>, x: string)
    requires items != []
    ensures Items(items) + [']'] + x == Stringify(items[0]) + AfterItem(items, x)
  {
  }

  lemma FieldsSplit(fields: seq<Field>, x: string)
    requires fields != []
    ensures Fields(fields) + ['}'] + x
         == Quote(fields[0].key) + ([':'] + (Stringify(fields[0].value) + AfterField(fields, x)))
  {
    var m := Member(fields[0]);
    assert Fields(fields) + ['}'] + x == m + AfterField(fields, x) by {
      if |fields| == 1 {
        Seqs.Assoc(m, ['}'], x);
      } else {
        Regroup(m, [','], Fields(fields[1..]), ['}'], x);
      }
    }
    RegroupMember(Quote(fields[0].key), [':'], Stringify(fields[0].value), AfterField(fields, x));
  }

  lemma Regroup(a: string, b: string, c: string, d: string, e: string)
    ensures a + b + c + d + e == a + (b + (c + d + e))
  {
  }

  lemma RegroupMember(a: string, b: string, c: string, d: string)
    ensures a + b + c + d == a + (b + (c + d))
  {
  }

  /** Two values whose texts agree up to what follows them are equal. */
  lemma {:induction false} ReadsOneWay(j: Json, k: Json, x: string, y: string)
    requires Finite(j) && Finite(k) && Follows(x) && Follows(y)
    requires Stringify(j) + x == Stringify(k) + y
    ensures j == k && x == y
    decreases j, 2
  {
    HeadTellsKind(j, x);
    HeadTellsKind(k, y);
    match j
    case Str(s) => QuoteIsPrefixCode(s, k.s, x, y);
    case Arr(items) =>
      Bracketed('[', Items(items), ']', x);
      Bracketed('[', Items(k.items), ']', y);
      ItemsReadOneWay(items, k.items, x, y);
    case Obj(fields) =>
      Bracketed('{', Fields(fields), '}', x);
      Bracketed('{', Fields(k.fields), '}', y);
      FieldsReadOneWay(fields, k.fields, x, y);
    case _ =>
      ScalarIsPlain(j);
      ScalarIsPlain(k);
      Munch(Stringify(j), Stringify(k), x, y);
  }

  lemma Bracketed(open: char, inner: string, close: char, x: string)
    ensures ([open] + inner + [close] + x)[1..] == inner + [close] + x
  {
  }

  lemma ScalarIsPlain(j: Json)
    requires Finite(j) && (j.Null? || j.Bool? || j.Num?)
    ensures Plain(Stringify(j))
  {
  }

  lemma SameFirst<T>(a: seq<T>, b: seq<T>)
    requires a != [] && b != [] && a[0] == b[0] && a[1..] == b[1..]
    ensures a == b
  {
    assert a == [a[0]] + a[1..] && b == [b[0]] + b[1..];
  }

  lemma AfterItemShape(items: seq<Json>, x: string)
    requires items != []
    ensures AfterItem(items, x) != "" && AfterItem(items, x)[0] == if |items| == 1 then ']' else ','
    ensures AfterItem(items, x)[1..] == if |items| == 1 then x else Items(items[1..]) + [']'] + x
  {
  }

  lemma {:induction false} ItemsReadOneWay(a: seq<Json>, b: seq<Json>, x: string, y: string)
    requires forall i :: 0 <= i < |a| ==> Finite(a[i])
    requires forall i :: 0 <= i < |b| ==> Finite(b[i])
    requires Items(a) + [']'] + x == Items(b) + [']'] + y
    ensures a == b && x == y
    decreases a, 1
  {
    var u, v := Items(a) + [']'] + x, Items(b) + [']'] + y;
    ItemsHead(a, x);
    ItemsHead(b, y);
    if a == [] {
      assert u[1..] == x && v[1..] == y;
    } else {
      ItemsSplit(a, x);
      ItemsSplit(b, y);
      ReadsOneWay(a[0], b[0], AfterItem(a, x), AfterItem(b, y));
      AfterItemShape(a, x);
      AfterItemShape(b, y);
      if |a| > 1 {
        ItemsReadOneWay(a[1..], b[1..], x, y);
      }
      SameFirst(a, b);
    }
  }

  lemma AfterFieldShape(fields: seq<Field>, x: string)
    requires fields != []
    ensures AfterField(fields, x) != "" && AfterField(fields, x)[0] == if |fields| == 1 then '}' else ','
    ensures AfterField(fields, x)[1..] == if |fields| == 1 then x else Fields(fields[1..]) + ['}'] + x
  {
  }

  lemma {:induction false} FieldsReadOneWay(a: seq<Field>, b: seq<Field>, x: string, y: string)
    requires forall i :: 0 <= i < |a| ==> Finite(a[i].value)
    requires forall i :: 0 <= i < |b| ==> Finite(b[i].value)
    requires Fields(a) + ['}'] + x == Fields(b) + ['}'] + y
    ensures a == b && x == y
    decreases a, 1
  {
    var u, v := Fields(a) + ['}'] + x, Fields(b) + ['}'] + y;
    FieldsHead(a, x);
    FieldsHead(b, y);
    if a == [] {
      assert u[1..] == x && v[1..] == y;
    } else {
      MemberReadsOneWay(a, b, x, y);
      AfterFieldShape(a, x);
      AfterFieldShape(b, y);
      if |a| > 1 {
        FieldsReadOneWay(a[1..], b[1..], x, y);
      }
      SameFirst(a, b);
    }
  }

  lemma MemberReadsOneWay(a: seq<Field>, b: seq<Field>, x: string, y: string)
    requires a != [] && b != [] && Finite(a[0].value) && Finite(b[0].value)
    requires Fields(a) + ['}'] + x == Fields(b) + ['}'] + y
    ensures a[0] == b[0] && AfterField(a, x) == AfterField(b, y)
    decreases a, 0
  {
    FieldsSplit(a, x);
    FieldsSplit(b, y);
    var p := [':'] + (Stringify(a[0].value) + AfterField(a, x));
    var q := [':'] + (Stringify(b[0].value) + AfterField(b, y));
    QuoteIsPrefixCode(a[0].key, b[0].key, p, q);
    assert p[1..] == Stringify(a[0].value) + AfterField(a, x);
    assert q[1..] == Stringify(b[0].value) + AfterField(b, y);
    ReadsOneWay(a[0].value, b[0].value, AfterField(a, x), AfterField(b, y));
  }

  // ----- an overflowed number prints like null

  /** The value as it reads back from its text. */
  function Flat(j: Json): Json
    decreases j
  {
    match j
    case Overflow(_) => Null
    case Arr(items) => Arr(seq(|items|, i requires 0 <= i < |items| => Flat(items[i])))
    case Obj(fields) => Obj(seq(|fields|, i requires 0 <= i < |fields| => FlatField(fields[i])))
    case _ => j
  }

  function FlatField(f: Field): Field
    decreases f
  {
    Field(f.key, Flat(f.value))
  }

  function FlatItems(items: seq<Json>): seq<Json> {
    seq(|items|, i requires 0 <= i < |items| => Flat(items[i]))
  }

  function FlatFields(fields: seq<Field>): seq<Field> {
    seq(|fields|, i requires 0 <= i < |fields| => FlatField(fields[i]))
  }

  lemma {:induction false} FlatIsFinite(j: Json)
    ensures Finite(Flat(j))
    decreases j
  {
    match j
    case Arr(items) =>
      forall i | 0 <= i < |items|
        ensures Finite(Flat(items[i]))
      {
        FlatIsFinite(items[i]);
      }
    case Obj(fields) =>
      forall i | 0 <= i < |fields|
        ensures Finite(Flat(fields[i].value))
      {
        FlatIsFinite(fields[i].value);
      }
    case _ =>
  }

  lemma {:induction false} FlatPrintsAlike(j: Json)
    ensures Stringify(Flat(j)) == Stringify(j)
    decreases j, 1
  {
    match j
    case Arr(items) =>
      FlatItemsPrintAlike(items);
      assert Flat(j) == Arr(FlatItems(items));
    case Obj(fields) =>
      FlatFieldsPrintAlike(fields);
      assert Flat(j) == Obj(FlatFields(fields));
    case _ =>
  }

  lemma {:induction false} FlatItemsPrintAlike(items: seq<Json>)
    ensures Items(FlatItems(items)) == Items(items)
    decreases items, 0
  {
    if items != [] {
      FlatPrintsAlike(items[0]);
      FlatItemsPrintAlike(items[1..]);
      assert FlatItems(items)[1..] == FlatItems(items[1..]);
    }
  }

  lemma {:induction false} FlatFieldsPrintAlike(fields: seq<Field>)
    ensures Fields(FlatFields(fields)) == Fields(fields)
    decreases fields, 0
  {
    if fields != [] {
      FlatPrintsAlike(fields[0].value);
      FlatFieldsPrintAlike(fields[1..]);
      assert FlatFields(fields)[1..] == FlatFields(fields[1..]);
      assert Member(FlatField(fields[0])) == Member(fields[0]);
    }
  }

  /** `JSON.stringify(a) === JSON.stringify(b)` exactly when the values are equal, key order included, once every
      overflowed number is read as null. */
  lemma TextsCompareValues(j: Json, k: Json)
    ensures Stringify(j) == Stringify(k) <==> Flat(j) == Flat(k)
  {
    FlatPrintsAlike(j);
    FlatPrintsAlike(k);
    FlatIsFinite(j);
    FlatIsFinite(k);
    if Stringify(j) == Stringify(k) {
      assert Stringify(Flat(j)) + "" == Stringify(Flat(k)) + "";
      ReadsOneWay(Flat(j), Flat(k), "", "");
    }
  }
}
