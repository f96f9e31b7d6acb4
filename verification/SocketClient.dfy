/** The client of crates/agora-client/src/client.rs: requests and their answers over one socket, read byte by byte, with
    deadlines and dropped calls that can strike after any byte. */
module SocketClient {
  import opened Bytes
  import opened Frames
  import opened Options
  import Seqs

  const MAX_ID: nat := 0xFFFF_FFFF_FFFF_FFFF

  /** A server frame; `Other` is one the client does not act on. */
  datatype Frame = Okay(id: nat, reply: string) | Error(id: nat, error: string) | Event(event: string) | Other

  /** `serde_json::from_slice`. */
  type Parser = seq<byte> -> Option<Frame>

  datatype Result =
    | Reply(reply: string)
    | Remote(error: string)
    | NoAnswer
    | WriteFailed
    | ReadFailed
    | ConnectionClosed
    | UnexpectedReply
    | Unusable

  /** The daemon answered this very request. */
  predicate Clean(r: Result) { r.Reply? || r.Remote? }

  predicate IsAnswer(f: Option<Frame>) { f.Some? && (f.value.Okay? || f.value.Error?) }

  predicate Answers(f: Option<Frame>, id: nat) { IsAnswer(f) && f.value.id == id }

  /** The frame gives request `id` the result `r`. */
  predicate Says(f: Option<Frame>, id: nat, r: Result) {
    || (r.Reply? && f == Some(Okay(id, r.reply)))
    || (r.Remote? && f == Some(Error(id, r.error)))
  }

  /** What `exchange` returns on reading the frame, or nothing if it reads on. */
  function Outcome(f: Frame, id: nat): Option<Result> {
    match f
    case Okay(got, reply) => if got == id then Some(Reply(reply)) else None
    case Error(got, error) => if got == id then Some(Remote(error)) else None
    case Event(_) => None
    case Other => None
  }

  /** `exchange` after the write: the result for request `id`, and the bytes consumed. */
  function Await(parse: Parser, bytes: seq<byte>, id: nat, budget: nat): (r: (Result, nat))
    ensures r.1 <= |bytes| && r.1 <= budget
    decreases |bytes|
  {
    var (f, n) := NextFrame(bytes, budget);
    match f
    case Struck => (NoAnswer, n)
    case Closed => (ConnectionClosed, n)
    case Truncated => (ReadFailed, n)
    case TooLarge => (ReadFailed, n)
    case Payload(p) =>
      var frame := parse(p);
      if frame.None? then (ReadFailed, n)
      else if Outcome(frame.value, id).Some? then (Outcome(frame.value, id).value, n)
      else
        var (r, m) := Await(parse, bytes[n..], id, budget - n);
        (r, n + m)
  }

  // ----- which frame the result comes from

  /** Frame `k - 1` is the first that answers `id`, and every frame before it could be read. */
  ghost predicate FirstAnswer(parse: Parser, ps: seq<seq<byte>>, id: nat, k: nat) {
    && 1 <= k <= |ps| && Answers(parse(ps[k - 1]), id)
    && forall j :: 0 <= j < k - 1 ==> parse(ps[j]).Some? && !Answers(parse(ps[j]), id)
  }

  lemma FirstAnswerRest(parse: Parser, ps: seq<seq<byte>>, rest: seq<seq<byte>>, id: nat, k: nat)
    requires 1 < k <= |ps| && rest == ps[1..] && parse(ps[0]).Some? && !Answers(parse(ps[0]), id)
    ensures FirstAnswer(parse, ps, id, k) <==> FirstAnswer(parse, rest, id, k - 1)
  {
    if FirstAnswer(parse, rest, id, k - 1) {
      forall j | 0 <= j < k - 1
        ensures parse(ps[j]).Some? && !Answers(parse(ps[j]), id)
      {
        if j > 0 {
          assert ps[j] == rest[j - 1];
        }
      }
    }
    if FirstAnswer(parse, ps, id, k) {
      forall j | 0 <= j < k - 2
        ensures parse(rest[j]).Some? && !Answers(parse(rest[j]), id)
      {
        assert rest[j] == ps[j + 1];
      }
    }
  }

  /** The bytes of the first `k` frames. */
  ghost function Length(ps: seq<seq<byte>>, k: nat): nat
    requires AllFit(ps) && k <= |ps|
  {
    if k == 0 then 0 else 4 + |ps[0]| + Length(ps[1..], k - 1)
  }

  lemma {:induction false} LengthIs(ps: seq<seq<byte>>, k: nat)
    requires AllFit(ps) && k <= |ps|
    ensures AllFit(ps[..k]) && |EncodeAll(ps[..k])| == Length(ps, k)
  {
    if k == 0 {
      assert ps[..0] == [];
    } else {
      LengthIs(ps[1..], k - 1);
      assert ps[..k] == [ps[0]] + ps[1..][..k - 1];
      EncodeAllHead(ps[0], ps[1..][..k - 1]);
    }
  }

  lemma NextIs(ps: seq<seq<byte>>, tail: seq<byte>, bytes: seq<byte>, n: nat, rest: seq<byte>, budget: nat)
    requires ps != [] && AllFit(ps) && bytes == EncodeAll(ps) + tail
    requires n == 4 + |ps[0]| && rest == EncodeAll(ps[1..]) + tail
    ensures n <= |bytes| && bytes[n..] == rest
    ensures NextFrame(bytes, budget) == if n <= budget then (Payload(ps[0]), n) else (Struck, budget)
  {
    FirstOf(ps, tail);
  }

  lemma AwaitSkips(parse: Parser, bytes: seq<byte>, id: nat, budget: nat, p: seq<byte>, n: nat, rest: seq<byte>)
    requires n <= budget && n <= |bytes| && NextFrame(bytes, budget) == (Payload(p), n) && rest == bytes[n..]
    requires parse(p).Some? && !Answers(parse(p), id)
    ensures Await(parse, bytes, id, budget) ==
            (Await(parse, rest, id, budget - n).0, n + Await(parse, rest, id, budget - n).1)
  {
  }

  lemma AwaitHits(parse: Parser, bytes: seq<byte>, id: nat, budget: nat, p: seq<byte>, n: nat)
    requires NextFrame(bytes, budget) == (Payload(p), n) && Answers(parse(p), id)
    ensures Says(parse(p), id, Await(parse, bytes, id, budget).0) && Await(parse, bytes, id, budget).1 == n
  {
  }

  lemma CleanNeedsFrame(parse: Parser, bytes: seq<byte>, id: nat, budget: nat)
    requires Clean(Await(parse, bytes, id, budget).0)
    ensures var f := NextFrame(bytes, budget).0; f.Payload? && parse(f.p).Some?
  {
  }

  lemma AwaitTail(parse: Parser, tail: seq<byte>, id: nat, budget: nat)
    requires NoFrame(tail)
    ensures !Clean(Await(parse, tail, id, budget).0)
  {
    assert !NextFrame(tail, budget).0.Payload?;
  }

  /** The result `r` for request `id`, and the `n` bytes consumed, are those of frame `k - 1`. */
  ghost predicate IsFrom(parse: Parser, ps: seq<seq<byte>>, id: nat, k: nat, r: Result, n: nat) {
    AllFit(ps) && FirstAnswer(parse, ps, id, k) && Says(parse(ps[k - 1]), id, r) && n == Length(ps, k)
  }

  lemma FromFirst(parse: Parser, ps: seq<seq<byte>>, id: nat, r: Result, n: nat)
    requires AllFit(ps) && ps != [] && Says(parse(ps[0]), id, r) && n == 4 + |ps[0]|
    ensures IsFrom(parse, ps, id, 1, r, n)
  {
    assert Length(ps[1..], 0) == 0;
  }

  lemma FromRest(parse: Parser, ps: seq<seq<byte>>, rest: seq<seq<byte>>, id: nat, k: nat, r: Result, n: nat)
    requires AllFit(ps) && ps != [] && rest == ps[1..] && parse(ps[0]).Some? && !Answers(parse(ps[0]), id)
    requires IsFrom(parse, rest, id, k, r, n)
    ensures IsFrom(parse, ps, id, k + 1, r, 4 + |ps[0]| + n)
  {
    FirstAnswerRest(parse, ps, rest, id, k + 1);
    assert rest[k - 1] == ps[k];
  }

  /** A clean result is what the first frame with the request's id says, and exactly the frames up to it are consumed.
      */
  lemma {:induction false} CleanIsAnswered(
    parse: Parser, ps: seq<seq<byte>>, tail: seq<byte>, bytes: seq<byte>, id: nat, budget: nat)
    returns (k: nat)
    requires AllFit(ps) && NoFrame(tail) && bytes == EncodeAll(ps) + tail && Clean(Await(parse, bytes, id, budget).0)
    ensures FirstAnswer(parse, ps, id, k) && Length(ps, k) <= budget
    ensures Says(parse(ps[k - 1]), id, Await(parse, bytes, id, budget).0)
    ensures Await(parse, bytes, id, budget).1 == Length(ps, k)
  {
    var (r, n) := Await(parse, bytes, id, budget);
    k := CleanIsFrom(parse, ps, tail, bytes, id, budget, r, n);
  }

  lemma {:induction false} CleanIsFrom(
    parse: Parser, ps: seq<seq<byte>>, tail: seq<byte>, bytes: seq<byte>, id: nat, budget: nat, r: Result, n: nat)
    returns (k: nat)
    requires AllFit(ps) && NoFrame(tail) && bytes == EncodeAll(ps) + tail
    requires (r, n) == Await(parse, bytes, id, budget) && Clean(r)
    ensures IsFrom(parse, ps, id, k, r, n)
    decreases |ps|
  {
    CleanHasFrame(parse, ps, tail, bytes, id, budget, r);
    var m, more := 4 + |ps[0]|, ps[1..];
    var rest := EncodeAll(more) + tail;
    CleanStep(parse, ps, tail, bytes, id, budget, r, n, m, rest);
    k := 1;
    if Answers(parse(ps[0]), id) {
      FromFirst(parse, ps, id, r, n);
    } else {
      var left, used := budget - m, n - m;
      var j := CleanIsFrom(parse, more, tail, rest, id, left, r, used);
      FromRest(parse, ps, more, id, j, r, used);
      k := j + 1;
    }
  }

  lemma CleanHasFrame(
    parse: Parser, ps: seq<seq<byte>>, tail: seq<byte>, bytes: seq<byte>, id: nat, budget: nat, r: Result)
    requires AllFit(ps) && NoFrame(tail) && bytes == EncodeAll(ps) + tail
    requires r == Await(parse, bytes, id, budget).0 && Clean(r)
    ensures ps != []
  {
    if ps == [] {
      assert bytes == tail;
      AwaitTail(parse, tail, id, budget);
    }
  }

  /** The first frame of a clean read says the result, or the rest of the stream does. */
  lemma CleanStep(
    parse: Parser, ps: seq<seq<byte>>, tail: seq<byte>, bytes: seq<byte>, id: nat, budget: nat, r: Result, n: nat,
    m: nat, rest: seq<byte>)
    requires AllFit(ps) && ps != [] && bytes == EncodeAll(ps) + tail && (r, n) == Await(parse, bytes, id, budget)
    requires Clean(r) && m == 4 + |ps[0]| && rest == EncodeAll(ps[1..]) + tail
    ensures m <= budget && parse(ps[0]).Some?
    ensures Answers(parse(ps[0]), id) ==> Says(parse(ps[0]), id, r) && n == m
    ensures !Answers(parse(ps[0]), id) ==> n >= m && Await(parse, rest, id, budget - m) == (r, n - m)
  {
    NextIs(ps, tail, bytes, m, rest, budget);
    CleanFrame(parse, bytes, id, budget, r, n, ps[0], m, rest);
  }

  lemma CleanFrame(
    parse: Parser, bytes: seq<byte>, id: nat, budget: nat, r: Result, n: nat, p: seq<byte>, m: nat, rest: seq<byte>)
    requires NextFrame(bytes, budget) == if m <= budget then (Payload(p), m) else (Struck, budget)
    requires m <= |bytes| && rest == bytes[m..] && (r, n) == Await(parse, bytes, id, budget) && Clean(r)
    ensures m <= budget && parse(p).Some?
    ensures Answers(parse(p), id) ==> Says(parse(p), id, r) && n == m
    ensures !Answers(parse(p), id) ==> n >= m && Await(parse, rest, id, budget - m) == (r, n - m)
  {
    CleanNeedsFrame(parse, bytes, id, budget);
    if Answers(parse(p), id) {
      AwaitHits(parse, bytes, id, budget, p, m);
    } else {
      AwaitSkips(parse, bytes, id, budget, p, m, rest);
    }
  }

  /** And whenever such a frame ends within the budget, the result is clean. */
  lemma {:induction false} AnsweredIsClean(
    parse: Parser, ps: seq<seq<byte>>, tail: seq<byte>, bytes: seq<byte>, id: nat, budget: nat, k: nat)
    requires AllFit(ps) && bytes == EncodeAll(ps) + tail && FirstAnswer(parse, ps, id, k) && Length(ps, k) <= budget
    ensures Says(parse(ps[k - 1]), id, Await(parse, bytes, id, budget).0)
    ensures Await(parse, bytes, id, budget).1 == Length(ps, k)
    decreases |ps|
  {
    var n, more := 4 + |ps[0]|, ps[1..];
    var rest := EncodeAll(more) + tail;
    assert Length(ps, k) == n + Length(more, k - 1);
    NextIs(ps, tail, bytes, n, rest, budget);
    if k == 1 {
      AwaitHits(parse, bytes, id, budget, ps[0], n);
    } else {
      FirstAnswerRest(parse, ps, more, id, k);
      AnsweredIsClean(parse, more, tail, rest, id, budget - n, k - 1);
      AwaitSkips(parse, bytes, id, budget, ps[0], n, rest);
      assert more[k - 2] == ps[k - 1];
    }
  }

  /** The first `k` frames can be read and answer other requests, or none. */
  ghost predicate Skipped(parse: Parser, ps: seq<seq<byte>>, id: nat, k: nat) {
    k <= |ps| && forall j :: 0 <= j < k ==> parse(ps[j]).Some? && !Answers(parse(ps[j]), id)
  }

  lemma SkippedRest(parse: Parser, ps: seq<seq<byte>>, rest: seq<seq<byte>>, id: nat, k: nat)
    requires ps != [] && rest == ps[1..] && parse(ps[0]).Some? && !Answers(parse(ps[0]), id)
    requires Skipped(parse, rest, id, k)
    ensures Skipped(parse, ps, id, k + 1)
    ensures k < |rest| ==> rest[k] == ps[k + 1]
  {
    forall j | 0 <= j < k + 1
      ensures parse(ps[j]).Some? && !Answers(parse(ps[j]), id)
    {
      if j > 0 {
        assert ps[j] == rest[j - 1];
      }
    }
  }

  /** What the call returns when nothing answers it: reading stops after `k` frames, with `left` bytes to the deadline.
      */
  predicate Stops(parse: Parser, ps: seq<seq<byte>>, tail: seq<byte>, k: nat, left: nat, r: Result)
    requires k <= |ps|
  {
    if k == |ps| then
      r == if left > |tail| then if tail == [] then ConnectionClosed else ReadFailed
           else if left >= 4 && Declared(tail[..4]) > MAX_FRAME then ReadFailed else NoAnswer
    else if left < 4 + |ps[k]| then r == NoAnswer
    else r == ReadFailed && parse(ps[k]).None?
  }

  lemma AwaitStops(parse: Parser, ps: seq<seq<byte>>, tail: seq<byte>, bytes: seq<byte>, id: nat, budget: nat)
    requires AllFit(ps) && NoFrame(tail) && bytes == EncodeAll(ps) + tail
    requires ps == [] || budget < 4 + |ps[0]| || parse(ps[0]).None?
    ensures Stops(parse, ps, tail, 0, budget, Await(parse, bytes, id, budget).0)
  {
    if ps == [] {
      assert bytes == tail;
      NoFrameRead(tail, budget);
    } else {
      NextIs(ps, tail, bytes, 4 + |ps[0]|, EncodeAll(ps[1..]) + tail, budget);
    }
  }

  lemma UncleanSkips(
    parse: Parser, ps: seq<seq<byte>>, tail: seq<byte>, bytes: seq<byte>, id: nat, budget: nat, n: nat, rest: seq<byte>)
    requires AllFit(ps) && bytes == EncodeAll(ps) + tail && !Clean(Await(parse, bytes, id, budget).0)
    requires ps != [] && n == 4 + |ps[0]| <= budget && rest == EncodeAll(ps[1..]) + tail && parse(ps[0]).Some?
    ensures !Answers(parse(ps[0]), id)
    ensures Await(parse, bytes, id, budget).0 == Await(parse, rest, id, budget - n).0
  {
    NextIs(ps, tail, bytes, n, rest, budget);
    if Answers(parse(ps[0]), id) {
      AwaitHits(parse, bytes, id, budget, ps[0], n);
    } else {
      AwaitSkips(parse, bytes, id, budget, ps[0], n, rest);
    }
  }

  lemma {:induction false} UncleanRest(
    parse: Parser, ps: seq<seq<byte>>, more: seq<seq<byte>>, tail: seq<byte>, rest: seq<byte>, id: nat, budget: nat,
    n: nat, r: Result)
    returns (k: nat)
    requires AllFit(ps) && NoFrame(tail) && ps != [] && more == ps[1..] && rest == EncodeAll(more) + tail
    requires parse(ps[0]).Some? && !Answers(parse(ps[0]), id) && n == 4 + |ps[0]| <= budget
    requires r == Await(parse, rest, id, budget - n).0 && !Clean(r)
    ensures Skipped(parse, ps, id, k) && Length(ps, k) <= budget
    ensures Stops(parse, ps, tail, k, budget - Length(ps, k), r)
    decreases |more|, 1
  {
    var j := UncleanStops(parse, more, tail, rest, id, budget - n, r);
    SkippedRest(parse, ps, more, id, j);
    k := j + 1;
    assert Length(ps, k) == n + Length(more, j);
  }

  /** A call that is not answered returns `NoAnswer` exactly if its deadline struck first, `ConnectionClosed` if the
      stream ended between two frames, and `ReadFailed` if it ended inside one or a frame could not be read. */
  lemma {:induction false} UncleanStops(
    parse: Parser, ps: seq<seq<byte>>, tail: seq<byte>, bytes: seq<byte>, id: nat, budget: nat, r: Result)
    returns (k: nat)
    requires AllFit(ps) && NoFrame(tail) && bytes == EncodeAll(ps) + tail
    requires r == Await(parse, bytes, id, budget).0 && !Clean(r)
    ensures Skipped(parse, ps, id, k) && Length(ps, k) <= budget
    ensures Stops(parse, ps, tail, k, budget - Length(ps, k), r)
    decreases |ps|, 0
  {
    if ps == [] || budget < 4 + |ps[0]| || parse(ps[0]).None? {
      k := 0;
      AwaitStops(parse, ps, tail, bytes, id, budget);
    } else {
      var n, more := 4 + |ps[0]|, ps[1..];
      var rest := EncodeAll(more) + tail;
      UncleanSkips(parse, ps, tail, bytes, id, budget, n, rest);
      k := UncleanRest(parse, ps, more, tail, rest, id, budget, n, r);
    }
  }

  /** The stream `bytes` answers request `id` with `r`: its first frame for `id` says so. */
  ghost predicate Answered(parse: Parser, bytes: seq<byte>, id: nat, r: Result) {
    exists ps, tail, k :: IsStream(bytes, ps, tail) && FirstAnswer(parse, ps, id, k) && Says(parse(ps[k - 1]), id, r)
  }

  lemma CleanIsSaid(parse: Parser, bytes: seq<byte>, id: nat, budget: nat)
    requires Clean(Await(parse, bytes, id, budget).0)
    ensures Answered(parse, bytes, id, Await(parse, bytes, id, budget).0)
  {
    var ps, tail := StreamExists(bytes);
    var k := CleanIsAnswered(parse, ps, tail, bytes, id, budget);
  }

  /** A read that was struck consumed its whole budget, so it stopped between two frames only by chance. */
  lemma {:induction false} StruckConsumesBudget(parse: Parser, bytes: seq<byte>, id: nat, budget: nat)
    ensures Await(parse, bytes, id, budget).0 == NoAnswer ==> Await(parse, bytes, id, budget).1 == budget
    decreases |bytes|
  {
    var (f, n) := NextFrame(bytes, budget);
    if f.Payload? {
      StruckConsumesBudget(parse, bytes[n..], id, budget - n);
    }
  }

  // ----- runs of calls

  /** `saturating_add` on the request id. */
  function NextId(id: nat): nat {
    if id >= MAX_ID then MAX_ID else id + 1
  }

  datatype Entry = Entry(id: nat, result: Result)

  /** The bytes read and still to come, the next id and the flag. `log` is history: the calls that were let through. */
  datatype State = State(read: seq<byte>, unread: seq<byte>, next: nat, broken: bool, log: seq<Entry>)

  /** One `call`: whether the request could be written, and after how many bytes of the answer the deadline strikes or
      the caller drops the call. */
  datatype Call = Call(written: bool, budget: nat)

  function Apply(parse: Parser, s: State, c: Call): State {
    if s.broken then s
    else if !c.written then s.(next := NextId(s.next), broken := true, log := s.log + [Entry(s.next, WriteFailed)])
    else
      var (r, n) := Await(parse, s.unread, s.next, c.budget);
      State(s.read + s.unread[..n], s.unread[n..], NextId(s.next), !Clean(r), s.log + [Entry(s.next, r)])
  }

  ghost predicate IsRun(parse: Parser, ss: seq<State>, cs: seq<Call>) {
    |ss| == |cs| + 1 && forall i :: 0 <= i < |cs| ==> ss[i + 1] == Apply(parse, ss[i], cs[i])
  }

  /** A client after its handshake. */
  predicate Init(s: State) { s.read == [] && !s.broken && s.log == [] && s.next <= MAX_ID }

  /** The id of request number `q`. */
  function Id(first: nat, q: nat): nat {
    if first + q > MAX_ID then MAX_ID else first + q
  }

  /** A call read from frame `a` up to frame `b`, the first with its id, and returned what that frame says. */
  ghost predicate Took(parse: Parser, sent: seq<seq<byte>>, a: nat, b: nat, e: Entry) {
    && a < b <= |sent| && Says(parse(sent[b - 1]), e.id, e.result)
    && forall j :: a <= j < b - 1 ==> parse(sent[j]).Some? && !Answers(parse(sent[j]), e.id)
  }

  /** `ends[q]` frames were read before request `q`, and each request read up to its answer and no further. */
  ghost predicate Matched(parse: Parser, sent: seq<seq<byte>>, first: nat, log: seq<Entry>, ends: seq<nat>) {
    && |ends| == |log| + 1 && ends[0] == 0
    && forall q :: 0 <= q < |log| ==> log[q].id == Id(first, q) && Took(parse, sent, ends[q], ends[q + 1], log[q])
  }

  /** The client is between two frames of the stream, and has read one answer for each request it wrote. */
  ghost predicate InStep(parse: Parser, sent: seq<seq<byte>>, tail: seq<byte>, first: nat, s: State, ends: seq<nat>) {
    && AllFit(sent) && NoFrame(tail) && Matched(parse, sent, first, s.log, ends)
    && s.next == Id(first, |s.log|)
    && var k := ends[|s.log|];
       k <= |sent| && AllFit(sent[..k]) && AllFit(sent[k..])
       && s.read == EncodeAll(sent[..k]) && s.unread == EncodeAll(sent[k..]) + tail
  }

  lemma NextIdIs(first: nat, q: nat)
    requires first <= MAX_ID
    ensures NextId(Id(first, q)) == Id(first, q + 1)
  {
  }

  lemma SplitAt(sent: seq<seq<byte>>, a: nat, b: nat, tail: seq<byte>, bytes: seq<byte>, n: nat)
    requires AllFit(sent) && a <= b <= |sent| && AllFit(sent[a..]) && bytes == EncodeAll(sent[a..]) + tail
    requires AllFit(sent[a..b]) && n == |EncodeAll(sent[a..b])|
    ensures AllFit(sent[..a]) && AllFit(sent[..b]) && AllFit(sent[b..]) && n <= |bytes|
    ensures EncodeAll(sent[..b]) == EncodeAll(sent[..a]) + bytes[..n]
    ensures bytes[n..] == EncodeAll(sent[b..]) + tail
  {
    var mid, rest := sent[a..b], sent[b..];
    assert sent[..b] == sent[..a] + mid && sent[a..] == mid + rest;
    EncodeAllJoin(sent[..a], mid);
    EncodeAllJoin(mid, rest);
    Seqs.Assoc(EncodeAll(mid), EncodeAll(rest), tail);
    Seqs.Joined(EncodeAll(mid), EncodeAll(rest) + tail);
  }

  lemma MatchedMore(
    parse: Parser, sent: seq<seq<byte>>, first: nat, log: seq<Entry>, ends: seq<nat>, e: Entry, b: nat)
    requires Matched(parse, sent, first, log, ends) && e.id == Id(first, |log|)
    requires Took(parse, sent, ends[|log|], b, e)
    ensures Matched(parse, sent, first, log + [e], ends + [b])
  {
    var all, cuts := log + [e], ends + [b];
    forall q | 0 <= q < |all|
      ensures all[q].id == Id(first, q) && Took(parse, sent, cuts[q], cuts[q + 1], all[q])
    {
      if q < |log| {
        assert all[q] == log[q] && cuts[q] == ends[q] && cuts[q + 1] == ends[q + 1];
      }
    }
  }

  lemma TookFrom(parse: Parser, sent: seq<seq<byte>>, ps: seq<seq<byte>>, a: nat, k: nat, e: Entry)
    requires a <= |sent| && ps == sent[a..] && FirstAnswer(parse, ps, e.id, k)
    requires Says(parse(ps[k - 1]), e.id, e.result)
    ensures Took(parse, sent, a, a + k, e)
  {
    assert ps[k - 1] == sent[a + k - 1];
    forall j | a <= j < a + k - 1
      ensures parse(sent[j]).Some? && !Answers(parse(sent[j]), e.id)
    {
      assert sent[j] == ps[j - a];
    }
  }

  /** A clean read from frame `a` on ends at a later frame `b`. */
  lemma CleanRead(
    parse: Parser, sent: seq<seq<byte>>, tail: seq<byte>, a: nat, id: nat, budget: nat, bytes: seq<byte>, r: Result,
    n: nat)
    returns (b: nat)
    requires AllFit(sent) && NoFrame(tail) && a <= |sent| && AllFit(sent[a..]) && bytes == EncodeAll(sent[a..]) + tail
    requires (r, n) == Await(parse, bytes, id, budget) && Clean(r)
    ensures Took(parse, sent, a, b, Entry(id, r)) && AllFit(sent[a..b]) && n == |EncodeAll(sent[a..b])|
  {
    var ps := sent[a..];
    var k := CleanIsAnswered(parse, ps, tail, bytes, id, budget);
    b := a + k;
    TookFrom(parse, sent, ps, a, k, Entry(id, r));
    LengthIs(ps, k);
    assert ps[..k] == sent[a..b];
  }

  lemma CallKeepsInStep(
    parse: Parser, sent: seq<seq<byte>>, tail: seq<byte>, first: nat, s: State, ends: seq<nat>, c: Call)
    returns (more: seq<nat>)
    requires first <= MAX_ID && InStep(parse, sent, tail, first, s, ends) && !s.broken
    ensures var t := Apply(parse, s, c); !t.broken ==> InStep(parse, sent, tail, first, t, more)
  {
    more := ends;
    if !Apply(parse, s, c).broken {
      var (r, n) := Await(parse, s.unread, s.next, c.budget);
      var a := ends[|s.log|];
      var b := CleanRead(parse, sent, tail, a, s.next, c.budget, s.unread, r, n);
      SplitAt(sent, a, b, tail, s.unread, n);
      more := ends + [b];
      MatchedMore(parse, sent, first, s.log, ends, Entry(s.next, r), b);
      NextIdIs(first, |s.log|);
    }
  }

  /** Over every sequence of calls, deadlines and dropped calls: a client that still takes calls is between two frames
      of whatever the daemon sent and has read exactly one answer, under its id, for every request it wrote. */
  lemma {:induction false} UsableIsInStep(
    parse: Parser, ss: seq<State>, cs: seq<Call>, sent: seq<seq<byte>>, tail: seq<byte>, i: nat)
    returns (ends: seq<nat>)
    requires IsRun(parse, ss, cs) && Init(ss[0]) && IsStream(ss[0].unread, sent, tail) && i < |ss|
    ensures !ss[i].broken ==> InStep(parse, sent, tail, ss[0].next, ss[i], ends)
    ensures !ss[i].broken ==> Boundary(sent, |ss[i].read|)
  {
    ends := [0];
    if i == 0 {
      assert sent[..0] == [] && sent[0..] == sent;
      assert |ss[0].read| == |EncodeAll(sent[..0])|;
    } else {
      var before := UsableIsInStep(parse, ss, cs, sent, tail, i - 1);
      if !ss[i].broken {
        ends := CallKeepsInStep(parse, sent, tail, ss[0].next, ss[i - 1], before, cs[i - 1]);
        var k := ends[|ss[i].log|];
        assert |ss[i].read| == |EncodeAll(sent[..k])|;
      }
    }
  }

  /** A client that stopped never reads another byte, so no call begins inside a frame. */
  lemma {:induction false} BrokenStaysPut(parse: Parser, ss: seq<State>, cs: seq<Call>, i: nat, j: nat)
    requires IsRun(parse, ss, cs) && i <= j < |ss| && ss[i].broken
    ensures ss[j] == ss[i]
  {
    if i < j {
      BrokenStaysPut(parse, ss, cs, i, j - 1);
    }
  }

  /** Frame `k - 1` of `ps` is the first for `id`, and ends before the deadline. */
  ghost predicate InTime(parse: Parser, ps: seq<seq<byte>>, id: nat, budget: nat, k: nat) {
    AllFit(ps) && FirstAnswer(parse, ps, id, k) && Length(ps, k) <= budget
  }

  lemma CleanIff(parse: Parser, ps: seq<seq<byte>>, tail: seq<byte>, bytes: seq<byte>, id: nat, budget: nat)
    requires AllFit(ps) && NoFrame(tail) && bytes == EncodeAll(ps) + tail
    ensures Clean(Await(parse, bytes, id, budget).0) <==> exists k :: InTime(parse, ps, id, budget, k)
  {
    if Clean(Await(parse, bytes, id, budget).0) {
      var k := CleanIsAnswered(parse, ps, tail, bytes, id, budget);
      assert InTime(parse, ps, id, budget, k);
    }
    if k :| InTime(parse, ps, id, budget, k) {
      AnsweredIsClean(parse, ps, tail, bytes, id, budget, k);
    }
  }

  /** Every call on a usable client is logged under the next id, and the client stays usable exactly if the request was
      written and its answer arrived whole before the deadline. A request that was not written reads nothing. */
  lemma UsableIff(parse: Parser, ss: seq<State>, cs: seq<Call>, sent: seq<seq<byte>>, tail: seq<byte>, i: nat)
    returns (ends: seq<nat>)
    requires IsRun(parse, ss, cs) && Init(ss[0]) && IsStream(ss[0].unread, sent, tail) && i < |cs| && !ss[i].broken
    ensures InStep(parse, sent, tail, ss[0].next, ss[i], ends)
    ensures !ss[i + 1].broken <==>
            cs[i].written && exists k :: InTime(parse, sent[ends[|ss[i].log|]..], ss[i].next, cs[i].budget, k)
    ensures |ss[i + 1].log| == |ss[i].log| + 1 && ss[i + 1].log[..|ss[i].log|] == ss[i].log
    ensures ss[i + 1].log[|ss[i].log|].id == ss[i].next && ss[i + 1].next == Id(ss[0].next, |ss[i + 1].log|)
    ensures ss[i].next < 0xFFFF_FFFF_FFFF_FFFF ==> ss[i + 1].next == ss[i].next + 1
    ensures ss[i].next >= 0xFFFF_FFFF_FFFF_FFFF ==> ss[i + 1].next == 0xFFFF_FFFF_FFFF_FFFF
    ensures ss[i + 1].log[|ss[i].log|].result == WriteFailed <==> !cs[i].written
    ensures ss[i + 1].read + ss[i + 1].unread == ss[i].read + ss[i].unread
    ensures !cs[i].written ==> ss[i + 1].read == ss[i].read
  {
    ends := UsableIsInStep(parse, ss, cs, sent, tail, i);
    var s, c := ss[i], cs[i];
    CleanIff(parse, sent[ends[|s.log|]..], tail, s.unread, s.next, c.budget);
    NextIdIs(ss[0].next, |s.log|);
    ReadOrUnread(s.read, s.unread, Await(parse, s.unread, s.next, c.budget).1);
    NotAWrite(parse, s.unread, s.next, c.budget);
  }

  lemma ReadOrUnread(read: seq<byte>, unread: seq<byte>, n: nat)
    requires n <= |unread|
    ensures (read + unread[..n]) + unread[n..] == read + unread
  {
  }

  lemma {:induction false} NotAWrite(parse: Parser, bytes: seq<byte>, id: nat, budget: nat)
    ensures !Await(parse, bytes, id, budget).0.WriteFailed?
    decreases |bytes|
  {
    var (f, n) := NextFrame(bytes, budget);
    if f.Payload? {
      NotAWrite(parse, bytes[n..], id, budget - n);
    }
  }
}
