/** Whose answer a reply is: frames are matched by id alone, and ids stop at 2^64 - 1. */
module SocketReplies {
  import opened Bytes
  import opened Frames
  import opened Options
  import opened SocketClient

  /** `of[j]` names the request that frame `j` answers, if it answers one. */
  type Tags = seq<Option<nat>>

  /** The daemon answers a request under the request's own id. It may answer more than once. */
  ghost predicate Honest(parse: Parser, sent: seq<seq<byte>>, first: nat, of: Tags) {
    && |of| == |sent|
    && forall j :: 0 <= j < |sent| && IsAnswer(parse(sent[j])) ==>
                     of[j].Some? && parse(sent[j]).value.id == Id(first, of[j].value)
  }

  ghost predicate NoneLater(of: Tags, a: nat, b: nat, q: nat) {
    forall j :: a <= j < b && j < |of| && of[j].Some? ==> of[j].value <= q
  }

  /** No frame read during a call answers a request that was not yet written. */
  ghost predicate Causal(of: Tags, ends: seq<nat>, n: nat)
    requires |ends| == n + 1
  {
    forall q :: 0 <= q < n ==> NoneLater(of, ends[q], ends[q + 1], q)
  }

  ghost predicate OnceEach(of: Tags) {
    forall i, j :: 0 <= i < j < |of| && of[i].Some? ==> of[i] != of[j]
  }

  /** The reply to request `q` is the answer to request `q`. */
  ghost predicate Own(of: Tags, ends: seq<nat>, q: nat)
    requires q + 1 < |ends|
  {
    0 < ends[q + 1] <= |of| && of[ends[q + 1] - 1] == Some(q)
  }

  /** No earlier request had this id. */
  predicate FreshId(first: nat, q: nat) { q == 0 || Id(first, q - 1) < MAX_ID }

  lemma FreshIdIs(first: nat, q: nat, p: nat)
    requires FreshId(first, q) && p < q
    ensures Id(first, p) != Id(first, q)
  {
  }

  /** The frame a call returned answers some request under the call's id. */
  lemma ReplyTag(parse: Parser, sent: seq<seq<byte>>, first: nat, log: seq<Entry>, ends: seq<nat>, of: Tags, q: nat)
    requires Matched(parse, sent, first, log, ends) && q < |log|
    requires Honest(parse, sent, first, of) && Causal(of, ends, |log|)
    ensures ends[q] < ends[q + 1] <= |of|
    ensures var tag := of[ends[q + 1] - 1]; tag.Some? && tag.value <= q && Id(first, tag.value) == Id(first, q)
  {
    var a, b := ends[q], ends[q + 1];
    assert Took(parse, sent, a, b, log[q]);
    assert NoneLater(of, a, b, q);
  }

  /** A reply under an id no earlier request had is the request's own, whatever else the daemon sends. */
  lemma FreshIdsMatch(
    parse: Parser, sent: seq<seq<byte>>, first: nat, log: seq<Entry>, ends: seq<nat>, of: Tags, q: nat)
    requires Matched(parse, sent, first, log, ends) && q < |log| && FreshId(first, q)
    requires Honest(parse, sent, first, of) && Causal(of, ends, |log|)
    ensures Own(of, ends, q)
  {
    ReplyTag(parse, sent, first, log, ends, of, q);
    var tag := of[ends[q + 1] - 1].value;
    if tag < q {
      FreshIdIs(first, q, tag);
    }
  }

  lemma {:induction false} EndsGrow(
    parse: Parser, sent: seq<seq<byte>>, first: nat, log: seq<Entry>, ends: seq<nat>, p: nat, q: nat)
    requires Matched(parse, sent, first, log, ends) && p < q < |log|
    ensures ends[p + 1] < ends[q + 1]
    decreases q - p
  {
    assert Took(parse, sent, ends[q], ends[q + 1], log[q]);
    if p + 1 < q {
      EndsGrow(parse, sent, first, log, ends, p, q - 1);
    }
  }

  /** A daemon that answers no request twice is always matched right, at the last id too. */
  lemma {:induction false} OnceEachMatches(
    parse: Parser, sent: seq<seq<byte>>, first: nat, log: seq<Entry>, ends: seq<nat>, of: Tags, q: nat)
    requires Matched(parse, sent, first, log, ends) && q < |log|
    requires Honest(parse, sent, first, of) && Causal(of, ends, |log|) && OnceEach(of)
    ensures Own(of, ends, q)
    decreases q
  {
    ReplyTag(parse, sent, first, log, ends, of, q);
    var tag := of[ends[q + 1] - 1].value;
    if tag < q {
      OnceEachMatches(parse, sent, first, log, ends, of, tag);
      EndsGrow(parse, sent, first, log, ends, tag, q);
    }
  }

  /** The same bytes, with the reply to `q` an answer to the request before it. */
  lemma Retagged(parse: Parser, sent: seq<seq<byte>>, first: nat, log: seq<Entry>, ends: seq<nat>, of: Tags, q: nat)
    returns (other: Tags)
    requires Matched(parse, sent, first, log, ends) && q < |log| && !FreshId(first, q)
    requires Honest(parse, sent, first, of) && Causal(of, ends, |log|)
    ensures Honest(parse, sent, first, other) && Causal(other, ends, |log|) && !Own(other, ends, q)
  {
    ReplyTag(parse, sent, first, log, ends, of, q);
    var j := ends[q + 1] - 1;
    other := of[j := Some(q - 1)];
    forall p | 0 <= p < |log|
      ensures NoneLater(other, ends[p], ends[p + 1], p)
    {
      assert NoneLater(of, ends[p], ends[p + 1], p);
      if ends[p] <= j < ends[p + 1] && p < q {
        EndsGrow(parse, sent, first, log, ends, p, q);
      }
      if ends[p] <= j < ends[p + 1] && p > q {
        StartsAfter(parse, sent, first, log, ends, q, p);
      }
    }
  }

  lemma StartsAfter(
    parse: Parser, sent: seq<seq<byte>>, first: nat, log: seq<Entry>, ends: seq<nat>, p: nat, q: nat)
    requires Matched(parse, sent, first, log, ends) && p < q < |log|
    ensures ends[p + 1] <= ends[q]
  {
    if p + 1 < q {
      EndsGrow(parse, sent, first, log, ends, p, q - 1);
    }
  }

  /** Ids alone tell a reply from a repeated answer exactly when the id is new: whatever an honest daemon meant, the
      reply is the request's own if and only if no earlier request had its id. */
  lemma MatchedRightIffFresh(
    parse: Parser, sent: seq<seq<byte>>, first: nat, log: seq<Entry>, ends: seq<nat>, of: Tags, q: nat)
    requires Matched(parse, sent, first, log, ends) && q < |log|
    requires Honest(parse, sent, first, of) && Causal(of, ends, |log|)
    ensures FreshId(first, q) <==>
            forall o: Tags :: Honest(parse, sent, first, o) && Causal(o, ends, |log|) ==> Own(o, ends, q)
  {
    if FreshId(first, q) {
      forall o: Tags | Honest(parse, sent, first, o) && Causal(o, ends, |log|)
        ensures Own(o, ends, q)
      {
        FreshIdsMatch(parse, sent, first, log, ends, o, q);
      }
    } else {
      var other := Retagged(parse, sent, first, log, ends, of, q);
    }
  }

  /** A call with enough budget on a stream that starts with its answer. */
  lemma AnswerNext(parse: Parser, s: State, p: seq<byte>, ps: seq<seq<byte>>, budget: nat, r: Result)
    requires Fits(p) && AllFit(ps) && s.unread == EncodeAll([p] + ps) && !s.broken && budget >= 4 + |p|
    requires Says(parse(p), s.next, r)
    ensures Apply(parse, s, Call(true, budget)) ==
            State(s.read + Encode(p), EncodeAll(ps), NextId(s.next), false, s.log + [Entry(s.next, r)])
  {
    var n, rest := 4 + |p|, EncodeAll(ps);
    EncodeAllHead(p, ps);
    EncodedStart(p, rest, s.unread);
    ReadWritten(p, rest, budget);
    AwaitHits(parse, s.unread, s.next, budget, p, n);
    assert Await(parse, s.unread, s.next, budget) == (r, n);
    assert s.unread[..n] == Encode(p) && s.unread[n..] == rest;
  }

  /** At the last id a daemon that answers twice is matched wrong: the second request is given the first one's second
      answer, and its own, if it ever comes, is left unread. */
  lemma RepeatedAnswerIsTaken(parse: Parser, p: seq<byte>, again: seq<byte>, budget: nat, a: Result, b: Result)
    returns (ss: seq<State>, cs: seq<Call>, ends: seq<nat>, of: Tags)
    requires Fits(p) && Fits(again) && budget >= 4 + |p| && budget >= 4 + |again|
    requires Says(parse(p), MAX_ID, a) && Says(parse(again), MAX_ID, b)
    ensures IsRun(parse, ss, cs) && Init(ss[0]) && |cs| == 2
    ensures Matched(parse, [p, again], MAX_ID, ss[2].log, ends) && !ss[2].broken && |ss[2].log| == 2
    ensures Honest(parse, [p, again], MAX_ID, of) && Causal(of, ends, 2) && Some(1) !in of
    ensures Own(of, ends, 0) && !Own(of, ends, 1) && ss[2].log[1].result == b
  {
    var sent := [p, again];
    assert sent == [p] + [again] && [again] == [again] + [];
    var c := Call(true, budget);
    var s0 := State([], EncodeAll(sent), MAX_ID, false, []);
    AnswerNext(parse, s0, p, [again], budget, a);
    var s1 := Apply(parse, s0, c);
    AnswerNext(parse, s1, again, [], budget, b);
    var s2 := Apply(parse, s1, c);
    ss, cs, ends, of := [s0, s1, s2], [c, c], [0, 1, 2], [Some(0), Some(0)];
    assert Took(parse, sent, 0, 1, s2.log[0]) && Took(parse, sent, 1, 2, s2.log[1]);
    assert NoneLater(of, 0, 1, 0) && NoneLater(of, 1, 2, 1);
  }

  /** Over every run: a reply is the request's own if its id is new, or if the daemon answers no request twice. */
  lemma RepliesAreOwn(
    parse: Parser, ss: seq<State>, cs: seq<Call>, sent: seq<seq<byte>>, tail: seq<byte>, of: Tags, i: nat)
    returns (ends: seq<nat>)
    requires IsRun(parse, ss, cs) && Init(ss[0]) && IsStream(ss[0].unread, sent, tail) && i < |ss| && !ss[i].broken
    requires Honest(parse, sent, ss[0].next, of)
    ensures Matched(parse, sent, ss[0].next, ss[i].log, ends)
    ensures Causal(of, ends, |ss[i].log|) ==>
              forall q :: 0 <= q < |ss[i].log| && (FreshId(ss[0].next, q) || OnceEach(of)) ==> Own(of, ends, q)
  {
    ends := UsableIsInStep(parse, ss, cs, sent, tail, i);
    var first, log := ss[0].next, ss[i].log;
    if Causal(of, ends, |log|) {
      forall q | 0 <= q < |log| && (FreshId(first, q) || OnceEach(of))
        ensures Own(of, ends, q)
      {
        if FreshId(first, q) {
          FreshIdsMatch(parse, sent, first, log, ends, of, q);
        } else {
          OnceEachMatches(parse, sent, first, log, ends, of, q);
        }
      }
    }
  }
}
