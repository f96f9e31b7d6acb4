/** The client and its event stream as they read the socket in place. */
module SocketStream {
  import opened Bytes
  import opened Frames
  import opened Options
  import opened SocketClient
  import Seqs

  // ----- events

  function NoDeadline(bytes: seq<byte>): nat { |bytes| + 1 }

  function EventIn(f: Frame): seq<string> { if f.Event? then [f.event] else [] }

  /** The events of a stream up to its end or its first unreadable frame. */
  function Events(parse: Parser, bytes: seq<byte>): seq<string>
    decreases |bytes|
  {
    var (f, n) := NextFrame(bytes, NoDeadline(bytes));
    if !f.Payload? || parse(f.p).None? then [] else EventIn(parse(f.p).value) + Events(parse, bytes[n..])
  }

  /** The stream ends between two frames and every frame can be read. */
  predicate EndsClean(parse: Parser, bytes: seq<byte>)
    decreases |bytes|
  {
    var (f, n) := NextFrame(bytes, NoDeadline(bytes));
    f.Closed? || (f.Payload? && parse(f.p).Some? && EndsClean(parse, bytes[n..]))
  }

  /** The events in the first `k` frames, in order. */
  function EventsOf(parse: Parser, ps: seq<seq<byte>>, k: nat): seq<string>
    requires k <= |ps|
  {
    if k == 0 then []
    else
      EventsOf(parse, ps, k - 1) +
      match parse(ps[k - 1])
      case Some(Event(event)) => [event]
      case _ => []
  }

  lemma {:induction false} EventsOfRest(parse: Parser, ps: seq<seq<byte>>, rest: seq<seq<byte>>, k: nat)
    requires 0 < k <= |ps| && rest == ps[1..] && parse(ps[0]).Some?
    ensures EventsOf(parse, ps, k) == EventIn(parse(ps[0]).value) + EventsOf(parse, rest, k - 1)
  {
    var first := EventIn(parse(ps[0]).value);
    if k > 1 {
      EventsOfRest(parse, ps, rest, k - 1);
      assert rest[k - 2] == ps[k - 1];
      var more := if parse(ps[k - 1]).Some? then EventIn(parse(ps[k - 1]).value) else [];
      assert EventsOf(parse, rest, k - 1) == EventsOf(parse, rest, k - 2) + more;
      Seqs.Assoc(first, EventsOf(parse, rest, k - 2), more);
    }
  }

  /** The first `k` frames can be read, and the next cannot or there is none. */
  ghost predicate Readable(parse: Parser, ps: seq<seq<byte>>, k: nat) {
    && k <= |ps| && (forall j :: 0 <= j < k ==> parse(ps[j]).Some?)
    && (k < |ps| ==> parse(ps[k]).None?)
  }

  lemma ReadableRest(parse: Parser, ps: seq<seq<byte>>, rest: seq<seq<byte>>, k: nat)
    requires 0 < k && Readable(parse, ps, k) && rest == ps[1..]
    ensures Readable(parse, rest, k - 1)
  {
    assert forall j :: 0 <= j < |rest| ==> rest[j] == ps[j + 1];
  }

  /** The stream's events are those of its readable frames, and it ends clean exactly if every byte is of one. */
  lemma {:induction false} EventsAre(
    parse: Parser, ps: seq<seq<byte>>, tail: seq<byte>, bytes: seq<byte>, k: nat)
    requires IsStream(bytes, ps, tail) && Readable(parse, ps, k)
    ensures Events(parse, bytes) == EventsOf(parse, ps, k)
    ensures EndsClean(parse, bytes) <==> k == |ps| && tail == []
    decreases |ps|
  {
    var budget := NoDeadline(bytes);
    if ps == [] {
      assert bytes == tail;
      NoFrameRead(tail, budget);
    } else {
      var n, more := 4 + |ps[0]|, ps[1..];
      var rest := EncodeAll(more) + tail;
      NextIs(ps, tail, bytes, n, rest, budget);
      if k > 0 {
        ReadableRest(parse, ps, more, k);
        EventsAre(parse, more, tail, rest, k - 1);
        EventsStep(parse, bytes, budget, ps[0], n, rest);
        EventsOfRest(parse, ps, more, k);
      }
    }
  }

  /** `exchange_subscribe`: like `Await`, keeping the events that arrive before the answer. */
  function Subscribing(parse: Parser, bytes: seq<byte>, id: nat, budget: nat): (r: (Result, nat, seq<string>))
    ensures r.1 <= |bytes| && !r.0.UnexpectedReply?
    decreases |bytes|
  {
    var (f, n) := NextFrame(bytes, budget);
    match f
    case Struck => (NoAnswer, n, [])
    case Closed => (ConnectionClosed, n, [])
    case Truncated => (ReadFailed, n, [])
    case TooLarge => (ReadFailed, n, [])
    case Payload(p) =>
      var frame := parse(p);
      if frame.None? then (ReadFailed, n, [])
      else if Outcome(frame.value, id).Some? then (Outcome(frame.value, id).value, n, [])
      else
        var (r, m, early) := Subscribing(parse, bytes[n..], id, budget - n);
        (r, n + m, EventIn(frame.value) + early)
  }

  /** A frame read within a budget is read without one. */
  lemma SameWithoutDeadline(bytes: seq<byte>, budget: nat)
    requires NextFrame(bytes, budget).0.Payload?
    ensures NextFrame(bytes, NoDeadline(bytes)) == NextFrame(bytes, budget)
  {
  }

  lemma EventsStep(parse: Parser, bytes: seq<byte>, budget: nat, p: seq<byte>, n: nat, rest: seq<byte>)
    requires NextFrame(bytes, budget) == (Payload(p), n) && n <= |bytes| && rest == bytes[n..] && parse(p).Some?
    ensures Events(parse, bytes) == EventIn(parse(p).value) + Events(parse, rest)
    ensures EndsClean(parse, bytes) == EndsClean(parse, rest)
  {
    SameWithoutDeadline(bytes, budget);
  }

  lemma SubscribingSkips(parse: Parser, bytes: seq<byte>, id: nat, budget: nat, p: seq<byte>, n: nat, rest: seq<byte>)
    requires NextFrame(bytes, budget) == (Payload(p), n) && n <= |bytes| && n <= budget && rest == bytes[n..]
    requires parse(p).Some? && !Answers(parse(p), id)
    ensures var s, a := Subscribing(parse, rest, id, budget - n), Await(parse, rest, id, budget - n);
            && Subscribing(parse, bytes, id, budget) == (s.0, n + s.1, EventIn(parse(p).value) + s.2)
            && Await(parse, bytes, id, budget) == (a.0, n + a.1)
  {
  }

  lemma {:induction false} SubscribingIsAwait(parse: Parser, bytes: seq<byte>, id: nat, budget: nat)
    ensures Subscribing(parse, bytes, id, budget).0 == Await(parse, bytes, id, budget).0
    ensures Subscribing(parse, bytes, id, budget).1 == Await(parse, bytes, id, budget).1
    decreases |bytes|
  {
    var (f, n) := NextFrame(bytes, budget);
    if f.Payload? && parse(f.p).Some? && !Answers(parse(f.p), id) {
      var rest, left := bytes[n..], budget - n;
      SubscribingSkips(parse, bytes, id, budget, f.p, n, rest);
      SubscribingIsAwait(parse, rest, id, left);
    } else {
      SubscribingEnds(parse, bytes, id, budget);
    }
  }

  lemma SubscribingEnds(parse: Parser, bytes: seq<byte>, id: nat, budget: nat)
    requires var f := NextFrame(bytes, budget).0; !f.Payload? || parse(f.p).None? || Answers(parse(f.p), id)
    ensures Subscribing(parse, bytes, id, budget).0 == Await(parse, bytes, id, budget).0
    ensures Subscribing(parse, bytes, id, budget).1 == Await(parse, bytes, id, budget).1
  {
  }

  /** Every event of the stream is kept or still to come. */
  lemma {:induction false} SubscribingLosesNoEvent(
    parse: Parser, bytes: seq<byte>, id: nat, budget: nat, r: Result, n: nat, early: seq<string>)
    requires Subscribing(parse, bytes, id, budget) == (r, n, early) && n <= |bytes| && Clean(r)
    ensures Events(parse, bytes) == early + Events(parse, bytes[n..])
    ensures EndsClean(parse, bytes) == EndsClean(parse, bytes[n..])
    decreases |bytes|
  {
    var (f, k) := NextFrame(bytes, budget);
    var rest, event := bytes[k..], EventIn(parse(f.p).value);
    EventsStep(parse, bytes, budget, f.p, k, rest);
    if Answers(parse(f.p), id) {
      Seqs.Unit(Events(parse, rest));
    } else {
      SubscribingSkips(parse, bytes, id, budget, f.p, k, rest);
      var (s, m, kept) := Subscribing(parse, rest, id, budget - k);
      SubscribingLosesNoEvent(parse, rest, id, budget - k, s, m, kept);
      assert rest[m..] == bytes[n..];
      Seqs.Assoc(event, kept, Events(parse, bytes[n..]));
    }
  }

  // ----- the client

  lemma DropMore(all: seq<byte>, used: nat, n: nat)
    requires used + n <= |all|
    ensures all[used..][n..] == all[used + n..]
  {
  }

  /** `kept` are the events kept so far and those still to be kept. */
  ghost predicate Kept(early: seq<string>, later: seq<string>, kept: seq<string>) { kept == early + later }

  lemma KeptAll(kept: seq<string>)
    ensures Kept([], kept, kept)
  {
  }

  lemma KeptLast(early: seq<string>, kept: seq<string>)
    requires Kept(early, [], kept)
    ensures early == kept
  {
  }

  lemma KeptMore(early: seq<string>, more: seq<string>, next: seq<string>, kept: seq<string>)
    requires Kept(early, more + next, kept)
    ensures Kept(early + more, next, kept)
  {
  }

  lemma ReadIs(before: seq<byte>, all: seq<byte>, end: nat, read: seq<byte>, unread: seq<byte>)
    requires end <= |all| && unread == all[end..] && read + unread == before + all
    ensures read == before + all[..end]
  {
    assert (read + unread)[..|read|] == read && (before + all)[..|before| + end] == before + all[..end];
  }

  class Client {
    const parse: Parser
    const socket: Stream
    var next: nat
    var broken: bool
    ghost var log: seq<Entry>

    /** After the handshake. */
    constructor (parse: Parser, socket: Stream)
      ensures this.parse == parse && this.socket == socket && next == 1 && !broken && log == []
    {
      this.parse, this.socket, next, broken, log := parse, socket, 1, false, [];
    }

    ghost function View(): State
      reads this, socket
    {
      State(socket.read, socket.unread, next, broken, log)
    }

    /** `call`: the flag is set before the exchange, so a dropped call leaves it set. */
    method Call(written: bool, budget: nat) returns (r: Result)
      modifies this, socket
      ensures View() == Apply(parse, old(View()), SocketClient.Call(written, budget))
      ensures old(broken) ==> r == Unusable
      ensures !old(broken) ==> |log| == |old(log)| + 1 && r == log[|old(log)|].result && broken == !Clean(r)
      ensures Clean(r) ==> Answered(parse, old(socket.unread), old(next), r)
    {
      if broken {
        return Unusable;
      }
      var id := next;
      next := NextId(next);
      broken := true;
      if !written {
        r := WriteFailed;
      } else {
        r := ReadAnswer(id, budget);
        ReadIs(old(socket.read), old(socket.unread), Await(parse, old(socket.unread), id, budget).1,
               socket.read, socket.unread);
        if Clean(r) {
          CleanIsSaid(parse, old(socket.unread), id, budget);
        }
      }
      broken := !Clean(r);
      log := log + [Entry(id, r)];
    }

    /** `exchange` after the write: read frames until the one with this id. */
    method ReadAnswer(id: nat, budget: nat) returns (r: Result)
      modifies socket
      ensures var (s, n) := Await(parse, old(socket.unread), id, budget);
              && r == s && socket.unread == old(socket.unread)[n..]
              && socket.Total() == old(socket.Total())
    {
      ghost var all, total, used := socket.unread, socket.Total(), 0;
      ghost var (goal, end) := Await(parse, all, id, budget);
      var left: nat := budget;
      while true
        invariant 0 <= used <= |all| && left + used == budget
        invariant socket.unread == all[used..] && socket.Total() == total
        invariant Await(parse, socket.unread, id, left) == (goal, end - used)
        decreases |socket.unread|
      {
        ghost var n: nat;
        var got;
        got, left, n := ReadOn(id, left);
        DropMore(all, used, n);
        if got.Some? {
          return got.value;
        }
        used := used + n;
      }
    }

    /** One turn of that loop: a result, or a frame of `n` bytes to pass over. */
    method ReadOn(id: nat, left: nat) returns (r: Option<Result>, rest: nat, ghost n: nat)
      modifies socket
      ensures n <= |old(socket.unread)| && n <= left && (r.None? ==> n > 0 && rest == left - n)
      ensures socket.unread == old(socket.unread)[n..]
      ensures socket.Total() == old(socket.Total())
      ensures var (s, m) := Await(parse, socket.unread, id, left - n);
              Await(parse, old(socket.unread), id, left) == if r.Some? then (r.value, n) else (s, n + m)
    {
      n := NextFrame(socket.unread, left).1;
      FrameLength(socket.unread, left);
      rest := 0;
      ReadOrUnread(socket.read, socket.unread, n);
      var f := socket.ReadFrame(left);
      if !f.Payload? {
        r := Some(if f.Struck? then NoAnswer else if f.Closed? then ConnectionClosed else ReadFailed);
        return;
      }
      rest := left - (4 + |f.p|);
      var frame := parse(f.p);
      r := if frame.None? then Some(ReadFailed) else Outcome(frame.value, id);
    }

    /** `subscribe`: the client becomes a stream. `subscribed` says whether a reply is a `Subscribed`. */
    method Subscribe(written: bool, budget: nat, subscribed: string -> bool) returns (r: Result, events: EventStream?)
      modifies this, socket
      ensures old(broken) ==> r == Unusable && events == null && socket.unread == old(socket.unread)
      ensures !old(broken) && !written ==> r == WriteFailed && events == null
      ensures !old(broken) && written ==>
                var s := Subscribing(parse, old(socket.unread), old(next), budget).0;
                r == if s.Reply? && !subscribed(s.reply) then UnexpectedReply else s
      ensures events != null <==> r.Reply?
      ensures Clean(r) ==> Answered(parse, old(socket.unread), old(next), r)
      ensures r.Reply? ==> subscribed(r.reply)
      ensures r == UnexpectedReply ==>
                exists other :: Answered(parse, old(socket.unread), old(next), Reply(other)) && !subscribed(other)
      ensures events != null ==>
                && fresh(events) && events.parse == parse && events.socket == socket
                && events.ToCome() == Events(parse, old(socket.unread))
                && EndsClean(parse, socket.unread) == EndsClean(parse, old(socket.unread))
    {
      if broken {
        return Unusable, null;
      }
      var id := next;
      next := NextId(next);
      if !written {
        return WriteFailed, null;
      }
      ghost var bytes := socket.unread;
      var early;
      r, early := ReadSubscribed(id, budget);
      if Clean(r) {
        ghost var (s, n, kept) := Subscribing(parse, bytes, id, budget);
        SubscribingLosesNoEvent(parse, bytes, id, budget, s, n, kept);
        SubscribingIsAwait(parse, bytes, id, budget);
        CleanIsSaid(parse, bytes, id, budget);
      }
      if r.Reply? && !subscribed(r.reply) {
        return UnexpectedReply, null;
      }
      events := null;
      if r.Reply? {
        events := new EventStream(parse, socket, early);
      }
    }

    method ReadSubscribed(id: nat, budget: nat) returns (r: Result, early: seq<string>)
      modifies socket
      ensures var (s, n, kept) := Subscribing(parse, old(socket.unread), id, budget);
              r == s && (Clean(r) ==> early == kept) && socket.unread == old(socket.unread)[n..]
    {
      ghost var (goal, end, kept) := Subscribing(parse, socket.unread, id, budget);
      ghost var final, later := socket.unread[end..], kept;
      var left: nat := budget;
      early := [];
      KeptAll(kept);
      while true
        invariant Subscribing(parse, socket.unread, id, left) == (goal, end, later)
        invariant end <= |socket.unread| && socket.unread[end..] == final && Kept(early, later, kept)
        decreases |socket.unread|
      {
        ghost var bytes, n: nat := socket.unread, 0;
        var got, more;
        got, left, more, n := SubscribeOn(id, left);
        if got.Some? {
          KeptLast(early, kept);
          return got.value, early;
        }
        end := end - n;
        DropMore(bytes, n, end);
        later := Subscribing(parse, socket.unread, id, left).2;
        KeptMore(early, more, later, kept);
        early := early + more;
      }
    }

    /** One turn of that loop: a result, or a frame of `n` bytes and the event in it, if it is one. */
    method SubscribeOn(id: nat, left: nat)
      returns (r: Option<Result>, rest: nat, event: seq<string>, ghost n: nat)
      modifies socket
      ensures n <= |old(socket.unread)| && n <= left && (r.None? ==> n > 0 && rest == left - n)
      ensures socket.unread == old(socket.unread)[n..]
      ensures var (s, m, kept) := Subscribing(parse, socket.unread, id, left - n);
              Subscribing(parse, old(socket.unread), id, left) ==
              if r.Some? then (r.value, n, []) else (s, n + m, event + kept)
    {
      n := NextFrame(socket.unread, left).1;
      FrameLength(socket.unread, left);
      rest, event := 0, [];
      var f := socket.ReadFrame(left);
      if !f.Payload? {
        r := Some(if f.Struck? then NoAnswer else if f.Closed? then ConnectionClosed else ReadFailed);
        return;
      }
      rest := left - (4 + |f.p|);
      var frame := parse(f.p);
      r := if frame.None? then Some(ReadFailed) else Outcome(frame.value, id);
      if r.None? {
        event := EventIn(frame.value);
      }
    }
  }

  lemma FrameLength(bytes: seq<byte>, budget: nat)
    ensures var (f, n) := NextFrame(bytes, budget); f.Payload? ==> n == 4 + |f.p|
  {
  }

  datatype Next = Got(event: string) | End | Failed

  class EventStream {
    const parse: Parser
    const socket: Stream
    var early: seq<string>

    constructor (parse: Parser, socket: Stream, early: seq<string>)
      ensures this.parse == parse && this.socket == socket && this.early == early
    {
      this.parse, this.socket, this.early := parse, socket, early;
    }

    /** The events the caller has not seen yet. */
    ghost function ToCome(): seq<string>
      reads this, socket
    {
      early + Events(parse, socket.unread)
    }

    /** `next`: buffered events first, then the socket's, skipping every other frame. */
    method Take() returns (n: Next)
      modifies this, socket
      ensures n.Got? ==> old(ToCome()) == [n.event] + ToCome()
      ensures n.Got? ==> EndsClean(parse, socket.unread) == old(EndsClean(parse, socket.unread))
      ensures !n.Got? ==> old(ToCome()) == [] && (n.End? <==> old(EndsClean(parse, socket.unread)))
      ensures n.Got? ==> |early| + |socket.unread| < |old(early)| + |old(socket.unread)|
    {
      if early != [] {
        var event := early[0];
        assert early == [event] + early[1..];
        early := early[1..];
        Seqs.Assoc([event], early, Events(parse, socket.unread));
        return Got(event);
      }
      Seqs.Unit(Events(parse, socket.unread));
      while true
        invariant early == [] && Events(parse, socket.unread) == old(ToCome())
        invariant EndsClean(parse, socket.unread) == old(EndsClean(parse, socket.unread))
        invariant |socket.unread| <= |old(socket.unread)|
        decreases |socket.unread|
      {
        ghost var bytes := socket.unread;
        var f := socket.ReadFrame(NoDeadline(socket.unread));
        if f.Closed? {
          return End;
        }
        if !f.Payload? || parse(f.p).None? {
          return Failed;
        }
        EventsStep(parse, bytes, NoDeadline(bytes), f.p, NextFrame(bytes, NoDeadline(bytes)).1, socket.unread);
        Seqs.Unit(Events(parse, socket.unread));
        if parse(f.p).value.Event? {
          return Got(parse(f.p).value.event);
        }
      }
    }

    /** Taken to its end, the stream yields exactly the events sent since the Subscribe request, in order. */
    method TakeAll() returns (all: seq<string>, ended: bool)
      modifies this, socket
      ensures all == old(ToCome()) && ended == old(EndsClean(parse, socket.unread))
    {
      all := [];
      while true
        invariant old(ToCome()) == all + ToCome()
        invariant EndsClean(parse, socket.unread) == old(EndsClean(parse, socket.unread))
        decreases |early| + |socket.unread|
      {
        var n := Take();
        if !n.Got? {
          return all, n.End?;
        }
        Seqs.Assoc(all, [n.event], ToCome());
        all := all + [n.event];
      }
    }
  }
}
