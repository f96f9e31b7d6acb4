/** The length-prefixed frames of crates/agora-proto/src/frame.rs, read from a stream that can end or be given up on
    after any byte. */
module Frames {
  import opened Bytes
  import Seqs

  const MAX_FRAME: nat := 8 * 1024 * 1024

  // ----- the encoding

  /** Four bytes, highest first. */
  function Header(n: nat): (h: seq<byte>)
    requires n <= MAX_FRAME
    ensures |h| == 4
  {
    [(n / 0x100_0000) as byte, (n / 0x1_0000 % 0x100) as byte, (n / 0x100 % 0x100) as byte, (n % 0x100) as byte]
  }

  function Declared(h: seq<byte>): nat
    requires |h| == 4
  {
    h[0] as nat * 0x100_0000 + h[1] as nat * 0x1_0000 + h[2] as nat * 0x100 + h[3] as nat
  }

  predicate Fits(payload: seq<byte>) { |payload| <= MAX_FRAME }

  function Encode(payload: seq<byte>): seq<byte>
    requires Fits(payload)
  {
    Header(|payload|) + payload
  }

  predicate AllFit(payloads: seq<seq<byte>>) { forall i :: 0 <= i < |payloads| ==> Fits(payloads[i]) }

  function EncodeAll(payloads: seq<seq<byte>>): seq<byte>
    requires AllFit(payloads)
  {
    if payloads == [] then [] else Encode(payloads[0]) + EncodeAll(payloads[1..])
  }

  // ----- reading one frame

  datatype FrameRead = Payload(p: seq<byte>) | Closed | Truncated | TooLarge | Struck

  /** What comes of waiting for `need` bytes: all of them, the end of the stream first, or the deadline (or the caller
      dropping the read) first, which strikes after `budget` bytes. */
  datatype Filled = Full | Short | Cut

  function Wait(have: nat, budget: nat, need: nat): Filled {
    if need <= have && need <= budget then Full else if budget <= have then Cut else Short
  }

  /** `read_frame`, and how many bytes it consumed. */
  function NextFrame(bytes: seq<byte>, budget: nat): (r: (FrameRead, nat))
    ensures r.1 <= |bytes| && r.1 <= budget && (r.0.Payload? ==> r.1 >= 4)
  {
    if budget == 0 then (Struck, 0)
    else if bytes == [] then (Closed, 0)
    else
      match Wait(|bytes|, budget, 4)
      case Cut => (Struck, budget)
      case Short => (Truncated, |bytes|)
      case Full =>
        var len := Declared(bytes[..4]);
        if len > MAX_FRAME then (TooLarge, 4)
        else
          match Wait(|bytes|, budget, 4 + len)
          case Cut => (Struck, budget)
          case Short => (Truncated, |bytes|)
          case Full => (Payload(bytes[4..4 + len]), 4 + len)
  }

  // ----- reading undoes writing

  lemma HeaderRoundTrip(n: nat)
    requires n <= MAX_FRAME
    ensures Declared(Header(n)) == n
  {
    var a, b, c := n / 0x100, n / 0x1_0000, n / 0x100_0000;
    assert a / 0x100 == b && b / 0x100 == c;
    assert n == a * 0x100 + n % 0x100 && a == b * 0x100 + a % 0x100 && b == c * 0x100 + b % 0x100;
  }

  lemma EncodedStart(p: seq<byte>, rest: seq<byte>, bytes: seq<byte>)
    requires Fits(p) && bytes == Encode(p) + rest
    ensures |bytes| >= 4 + |p| && bytes[..4] == Header(|p|) && bytes[4..4 + |p|] == p && bytes[4 + |p|..] == rest
  {
  }

  /** A frame that was written is read back whole, unless the deadline strikes inside it. */
  lemma ReadWritten(p: seq<byte>, rest: seq<byte>, budget: nat)
    requires Fits(p)
    ensures NextFrame(Encode(p) + rest, budget) ==
            if 4 + |p| <= budget then (Payload(p), 4 + |p|) else (Struck, budget)
  {
    EncodedStart(p, rest, Encode(p) + rest);
    HeaderRoundTrip(|p|);
  }

  lemma {:induction false} DeclaredHeader(h: seq<byte>)
    requires |h| == 4 && Declared(h) <= MAX_FRAME
    ensures Header(Declared(h)) == h
  {
    var n := Declared(h);
    assert n % 0x100 == h[3] as nat && n / 0x100 == h[0] as nat * 0x1_0000 + h[1] as nat * 0x100 + h[2] as nat;
    assert n / 0x1_0000 == h[0] as nat * 0x100 + h[1] as nat;
    assert n / 0x100_0000 == h[0] as nat;
  }

  /** Whatever follows, a frame is refused exactly if its header announces more than eight megabytes. */
  lemma RefusedBySize(bytes: seq<byte>, budget: nat)
    ensures NextFrame(bytes, budget).0.TooLarge? <==>
            |bytes| >= 4 && budget >= 4 && Declared(bytes[..4]) > 8_388_608
  {
  }

  /** Only what was written is read: the bytes consumed are the encoding of the payload. */
  lemma ReadIsWritten(bytes: seq<byte>, budget: nat)
    ensures var (f, n) := NextFrame(bytes, budget);
            f.Payload? ==> Fits(f.p) && n == 4 + |f.p| && bytes == Encode(f.p) + bytes[n..]
  {
    var (f, n) := NextFrame(bytes, budget);
    if f.Payload? {
      DeclaredHeader(bytes[..4]);
      assert bytes == bytes[..4] + bytes[4..n] + bytes[n..];
    }
  }

  // ----- a stream is its whole frames and what is left

  lemma EncodeAllHead(p: seq<byte>, ps: seq<seq<byte>>)
    requires Fits(p) && AllFit(ps)
    ensures AllFit([p] + ps) && EncodeAll([p] + ps) == Encode(p) + EncodeAll(ps)
  {
    Seqs.Headed(p, ps);
  }

  lemma {:induction false} EncodeAllJoin(a: seq<seq<byte>>, b: seq<seq<byte>>)
    requires AllFit(a) && AllFit(b)
    ensures AllFit(a + b) && EncodeAll(a + b) == EncodeAll(a) + EncodeAll(b)
    decreases |a|
  {
    if a == [] {
      Seqs.Unit(b);
      Seqs.Unit(EncodeAll(b));
    } else {
      EncodeAllJoin(a[1..], b);
      EncodeAllHead(a[0], a[1..] + b);
      assert a + b == [a[0]] + (a[1..] + b);
      Seqs.Assoc(Encode(a[0]), EncodeAll(a[1..]), EncodeAll(b));
    }
  }

  /** No frame can be read from `tail`. */
  ghost predicate NoFrame(tail: seq<byte>) {
    forall budget: nat :: !NextFrame(tail, budget).0.Payload?
  }

  /** What is read where no frame can be: the deadline, the end of the stream, or a header over the limit. */
  lemma NoFrameRead(tail: seq<byte>, budget: nat)
    requires NoFrame(tail)
    ensures NextFrame(tail, budget).0 ==
            if budget > |tail| && tail == [] then Closed
            else if budget >= 4 && |tail| >= 4 && Declared(tail[..4]) > MAX_FRAME then TooLarge
            else if budget > |tail| then Truncated
            else Struck
  {
    assert !NextFrame(tail, |tail| + 1).0.Payload?;
  }

  /** `bytes` are the frames `ps`, then a tail that is no frame. */
  ghost predicate IsStream(bytes: seq<byte>, ps: seq<seq<byte>>, tail: seq<byte>) {
    AllFit(ps) && NoFrame(tail) && bytes == EncodeAll(ps) + tail
  }

  lemma IsStreamHead(p: seq<byte>, bytes: seq<byte>, ps: seq<seq<byte>>, tail: seq<byte>)
    requires Fits(p) && IsStream(bytes, ps, tail)
    ensures IsStream(Encode(p) + bytes, [p] + ps, tail)
  {
    EncodeAllHead(p, ps);
    Seqs.Assoc(Encode(p), EncodeAll(ps), tail);
  }

  /** Every stream is made of frames and a tail. */
  lemma {:induction false} StreamExists(bytes: seq<byte>) returns (ps: seq<seq<byte>>, tail: seq<byte>)
    ensures IsStream(bytes, ps, tail)
    decreases |bytes|
  {
    if NoFrame(bytes) {
      ps, tail := [], bytes;
      Seqs.Unit(bytes);
    } else {
      var budget: nat :| NextFrame(bytes, budget).0.Payload?;
      var (f, n) := NextFrame(bytes, budget);
      ReadIsWritten(bytes, budget);
      ps, tail := StreamExists(bytes[n..]);
      IsStreamHead(f.p, bytes[n..], ps, tail);
      ps := [f.p] + ps;
    }
  }

  /** And in one way only. */
  lemma {:induction false} StreamUnique(ps: seq<seq<byte>>, t: seq<byte>, qs: seq<seq<byte>>, u: seq<byte>)
    requires AllFit(ps) && AllFit(qs) && NoFrame(t) && NoFrame(u) && EncodeAll(ps) + t == EncodeAll(qs) + u
    ensures ps == qs && t == u
    decreases |ps|
  {
    if ps == [] {
      Seqs.Unit(t);
      if qs == [] {
        Seqs.Unit(u);
      } else {
        FirstOf(qs, u);
        assert false;
      }
    } else {
      FirstOf(ps, t);
      if qs == [] {
        Seqs.Unit(u);
        assert false;
      } else {
        FirstOf(qs, u);
        StreamUnique(ps[1..], t, qs[1..], u);
        assert ps == [ps[0]] + ps[1..] && qs == [qs[0]] + qs[1..];
      }
    }
  }

  lemma FirstOf(ps: seq<seq<byte>>, tail: seq<byte>)
    requires ps != [] && AllFit(ps)
    ensures var n, bytes := 4 + |ps[0]|, EncodeAll(ps) + tail;
            n <= |bytes| && NextFrame(bytes, n) == (Payload(ps[0]), n) && bytes[n..] == EncodeAll(ps[1..]) + tail
    ensures var n, bytes := 4 + |ps[0]|, EncodeAll(ps) + tail;
            && (forall budget: nat :: budget >= n ==> NextFrame(bytes, budget) == (Payload(ps[0]), n))
            && (forall budget: nat :: budget < n ==> NextFrame(bytes, budget) == (Struck, budget))
  {
    var rest := EncodeAll(ps[1..]) + tail;
    Seqs.Assoc(Encode(ps[0]), EncodeAll(ps[1..]), tail);
    EncodedStart(ps[0], rest, EncodeAll(ps) + tail);
    forall budget: nat {
      ReadWritten(ps[0], rest, budget);
    }
  }

  /** A position between two frames. */
  ghost predicate Boundary(ps: seq<seq<byte>>, n: nat)
    requires AllFit(ps)
  {
    exists k :: 0 <= k <= |ps| && n == |EncodeAll(ps[..k])|
  }

  lemma {:induction false} LongerPrefix(ps: seq<seq<byte>>, j: nat, k: nat)
    requires AllFit(ps) && j <= k <= |ps|
    ensures AllFit(ps[..j]) && AllFit(ps[..k]) && |EncodeAll(ps[..j])| <= |EncodeAll(ps[..k])|
    ensures j < k ==> |EncodeAll(ps[..j])| < |EncodeAll(ps[..k])|
    decreases k - j
  {
    if j < k {
      LongerPrefix(ps, j, k - 1);
      assert ps[..k] == ps[..k - 1] + [ps[k - 1]];
      EncodeAllJoin(ps[..k - 1], [ps[k - 1]]);
      assert |EncodeAll([ps[k - 1]])| >= 4;
    }
  }

  /** A read given up inside a frame leaves the stream between no two frames. */
  lemma InsideIsNoBoundary(ps: seq<seq<byte>>, k: nat, n: nat)
    requires AllFit(ps) && k < |ps| && AllFit(ps[..k]) && AllFit(ps[..k + 1])
    requires |EncodeAll(ps[..k])| < n < |EncodeAll(ps[..k + 1])|
    ensures !Boundary(ps, n)
  {
    forall j | 0 <= j <= |ps|
      ensures n != |EncodeAll(ps[..j])|
    {
      if j <= k {
        LongerPrefix(ps, j, k);
      } else {
        LongerPrefix(ps, k + 1, j);
      }
    }
  }

  // ----- the reader

  class Stream {
    var unread: seq<byte>
    ghost var read: seq<byte>

    constructor (unread: seq<byte>)
      ensures this.unread == unread && read == []
    {
      this.unread, read := unread, [];
    }

    /** Everything the peer sends. */
    ghost function Total(): seq<byte>
      reads this
    {
      read + unread
    }

    /** Consumes bytes one at a time until `need` are there, the stream ends or the deadline strikes. */
    method Fill(need: nat, budget: nat) returns (got: seq<byte>, fill: Filled)
      modifies this
      ensures fill == Wait(|old(unread)|, budget, need)
      ensures |got| == (match fill case Full => need case Cut => budget case Short => |old(unread)|)
      ensures |got| <= |old(unread)| && got == old(unread)[..|got|] && unread == old(unread)[|got|..]
      ensures read == old(read) + got
    {
      got := [];
      while |got| < need && |got| < budget && unread != []
        invariant |got| <= |old(unread)| && |got| <= need && |got| <= budget
        invariant got == old(unread)[..|got|] && unread == old(unread)[|got|..] && read == old(read) + got
        decreases need - |got|
      {
        var b := unread[0];
        assert old(unread)[..|got| + 1] == old(unread)[..|got|] + [b];
        got := got + [b];
        unread := unread[1..];
        read := read + [b];
      }
      fill := if |got| == need then Full else if |got| == budget then Cut else Short;
    }

    /** `read_frame`: the first length byte, the other three, then the payload. */
    method ReadFrame(budget: nat) returns (f: FrameRead)
      modifies this
      ensures var (g, n) := NextFrame(old(unread), budget);
              f == g && read == old(read) + old(unread)[..n] && unread == old(unread)[n..]
    {
      ghost var all, before := unread, read;
      var first, fill := Fill(1, budget);
      if !fill.Full? {
        return if fill.Cut? then Struck else Closed;
      }
      var rest;
      rest, fill := Fill(3, budget - 1);
      JoinedReads(all, before, first, rest);
      if !fill.Full? {
        return if fill.Cut? then Struck else Truncated;
      }
      var header := first + rest;
      var len := Declared(header);
      if len > MAX_FRAME {
        return TooLarge;
      }
      var payload;
      payload, fill := Fill(len, budget - 4);
      JoinedReads(all, before, header, payload);
      if !fill.Full? {
        return if fill.Cut? then Struck else Truncated;
      }
      return Payload(payload);
    }
  }

  /** Two reads in a row are one read. */
  lemma JoinedReads(all: seq<byte>, before: seq<byte>, a: seq<byte>, b: seq<byte>)
    requires |a| <= |all| && a == all[..|a|] && |b| <= |all| - |a| && b == all[|a|..][..|b|]
    ensures a + b == all[..|a| + |b|] && b == all[|a|..|a| + |b|]
    ensures all[|a|..][|b|..] == all[|a| + |b|..]
    ensures before + a + b == before + all[..|a| + |b|]
  {
    assert a + b == all[..|a| + |b|];
    Seqs.Assoc(before, a, b);
  }
}
