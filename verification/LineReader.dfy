/** The capped line reader of crates/agora-bridge/src/jsonrpc.rs: bytes arrive in chunks of any size, and lines come out
    as if the whole stream had been split at its newlines. */
module LineReader {
  import opened Bytes
  import Seqs

  const NL: byte := 10

  /** `Failed` is the read error that ends the loop. */
  datatype LineRead = Line(content: seq<byte>) | TooLong | Eof | Failed

  // ----- the reference: split at newlines

  ghost predicate NoNewline(s: seq<byte>) { forall i :: 0 <= i < |s| ==> s[i] != NL }

  function Unlines(segs: seq<seq<byte>>): seq<byte> {
    if segs == [] then [] else segs[0] + [NL] + Unlines(segs[1..])
  }

  /** `bytes` is the terminated segments `segs` followed by the unterminated `tail`. */
  ghost predicate IsSplit(bytes: seq<byte>, segs: seq<seq<byte>>, tail: seq<byte>) {
    && bytes == Unlines(segs) + tail && NoNewline(tail)
    && forall i :: 0 <= i < |segs| ==> NoNewline(segs[i])
  }

  /** Up to the first newline, or all of it. */
  function FirstLine(bytes: seq<byte>): (n: nat)
    ensures n <= |bytes|
  {
    if bytes == [] || bytes[0] == NL then 0 else 1 + FirstLine(bytes[1..])
  }

  function Segments(bytes: seq<byte>): seq<seq<byte>>
    decreases |bytes|
  {
    var n := FirstLine(bytes);
    if n == |bytes| then [] else [bytes[..n]] + Segments(bytes[n + 1..])
  }

  function Tail(bytes: seq<byte>): seq<byte>
    decreases |bytes|
  {
    var n := FirstLine(bytes);
    if n == |bytes| then bytes else Tail(bytes[n + 1..])
  }

  function Judge(seg: seq<byte>, cap: nat): LineRead {
    if |seg| > cap then TooLong else Line(seg)
  }

  function Judged(segs: seq<seq<byte>>, cap: nat): seq<LineRead> {
    if segs == [] then [] else [Judge(segs[0], cap)] + Judged(segs[1..], cap)
  }

  /** What a reader of the whole stream reports before the end: every segment, then a non-empty tail unless the stream
      failed. */
  function Reports(bytes: seq<byte>, cap: nat, fails: bool): seq<LineRead> {
    Judged(Segments(bytes), cap) + if Tail(bytes) == [] || fails then [] else [Judge(Tail(bytes), cap)]
  }

  lemma SegmentsStep(bytes: seq<byte>, n: nat, rest: seq<byte>)
    requires n == FirstLine(bytes) < |bytes| && rest == bytes[n + 1..]
    ensures Segments(bytes) == [bytes[..n]] + Segments(rest) && Tail(bytes) == Tail(rest)
  {
  }

  /** It is the first newline. */
  lemma {:induction false} FirstLineSpec(bytes: seq<byte>)
    ensures NoNewline(bytes[..FirstLine(bytes)]) && (FirstLine(bytes) < |bytes| ==> bytes[FirstLine(bytes)] == NL)
  {
    if bytes != [] && bytes[0] != NL {
      FirstLineSpec(bytes[1..]);
      var n := FirstLine(bytes[1..]);
      assert bytes[..n + 1] == [bytes[0]] + bytes[1..][..n];
    }
  }

  lemma UnlinesStep(seg: seq<byte>, segs: seq<seq<byte>>)
    ensures Unlines([seg] + segs) == seg + [NL] + Unlines(segs)
  {
    Seqs.Headed(seg, segs);
  }

  lemma IsSplitStep(seg: seq<byte>, bytes: seq<byte>, segs: seq<seq<byte>>, tail: seq<byte>)
    requires NoNewline(seg) && IsSplit(bytes, segs, tail)
    ensures IsSplit(seg + [NL] + bytes, [seg] + segs, tail)
  {
    UnlinesStep(seg, segs);
    Seqs.Assoc(seg + [NL], Unlines(segs), tail);
  }

  lemma {:induction false} SplitExists(bytes: seq<byte>)
    ensures IsSplit(bytes, Segments(bytes), Tail(bytes))
    decreases |bytes|
  {
    FirstLineSpec(bytes);
    var n := FirstLine(bytes);
    if n == |bytes| {
      assert bytes[..n] == bytes;
      Seqs.Unit(bytes);
    } else {
      var rest := bytes[n + 1..];
      SplitExists(rest);
      SegmentsStep(bytes, n, rest);
      IsSplitStep(bytes[..n], rest, Segments(rest), Tail(rest));
      Seqs.CutAround(bytes, n);
    }
  }

  lemma {:induction false} FirstLineIs(seg: seq<byte>, rest: seq<byte>)
    requires NoNewline(seg)
    ensures FirstLine(seg + [NL] + rest) == |seg|
  {
    var s := seg + [NL] + rest;
    if seg == [] {
      assert s[0] == NL;
    } else {
      FirstLineIs(seg[1..], rest);
      assert s[0] == seg[0] && s[1..] == seg[1..] + [NL] + rest;
    }
  }

  lemma FirstSegment(seg: seq<byte>, rest: seq<byte>)
    requires NoNewline(seg)
    ensures var bytes := seg + [NL] + rest;
            Segments(bytes) == [seg] + Segments(rest) && Tail(bytes) == Tail(rest)
  {
    FirstLineIs(seg, rest);
    Seqs.Around(seg, NL, rest);
    SegmentsStep(seg + [NL] + rest, |seg|, rest);
  }

  lemma NoSegment(tail: seq<byte>)
    requires NoNewline(tail)
    ensures FirstLine(tail) == |tail| && Segments(tail) == [] && Tail(tail) == tail
  {
    FirstLineSpec(tail);
  }

  /** There is only one such split. */
  lemma {:induction false} SplitUnique(segs: seq<seq<byte>>, tail: seq<byte>)
    requires NoNewline(tail) && forall i :: 0 <= i < |segs| ==> NoNewline(segs[i])
    ensures Segments(Unlines(segs) + tail) == segs && Tail(Unlines(segs) + tail) == tail
  {
    if segs == [] {
      Seqs.Unit(tail);
      NoSegment(tail);
    } else {
      SplitUnique(segs[1..], tail);
      var rest := Unlines(segs[1..]) + tail;
      Seqs.Assoc(segs[0] + [NL], Unlines(segs[1..]), tail);
      FirstSegment(segs[0], rest);
      assert segs == [segs[0]] + segs[1..];
    }
  }

  lemma {:induction false} JudgedAt(segs: seq<seq<byte>>, cap: nat, i: nat)
    requires i < |segs|
    ensures |Judged(segs, cap)| == |segs|
    ensures Judged(segs, cap)[i] == if |segs[i]| <= cap then Line(segs[i]) else TooLong
  {
    if |segs| > 1 {
      JudgedAt(segs[1..], cap, if i == 0 then 0 else i - 1);
    }
  }

  /** The reports of any stream given as its segments and its tail: one for each segment and for a non-empty tail, in
      order, each the line itself or, if it is longer than the cap, that it is too long. */
  lemma ReportsAreTheSplit(segs: seq<seq<byte>>, tail: seq<byte>, cap: nat, fails: bool)
    requires NoNewline(tail) && forall i :: 0 <= i < |segs| ==> NoNewline(segs[i])
    ensures var rs, ends := Reports(Unlines(segs) + tail, cap, fails), tail != [] && !fails;
            && |rs| == |segs| + (if ends then 1 else 0)
            && (forall i :: 0 <= i < |segs| ==> rs[i] == if |segs[i]| <= cap then Line(segs[i]) else TooLong)
            && (ends ==> rs[|segs|] == if |tail| <= cap then Line(tail) else TooLong)
  {
    SplitUnique(segs, tail);
    forall i | 0 <= i < |segs|
      ensures |Judged(segs, cap)| == |segs|
      ensures Judged(segs, cap)[i] == if |segs[i]| <= cap then Line(segs[i]) else TooLong
    {
      JudgedAt(segs, cap, i);
    }
  }

  // ----- one call

  /** What one call reports on a stream and what it leaves. */
  function ReadOne(bytes: seq<byte>, cap: nat, fails: bool): (LineRead, seq<byte>) {
    var n := FirstLine(bytes);
    if n < |bytes| then (Judge(bytes[..n], cap), bytes[n + 1..])
    else if fails then (Failed, [])
    else if bytes == [] then (Eof, [])
    else (Judge(bytes, cap), [])
  }

  function Flatten(chunks: seq<seq<byte>>): seq<byte> {
    if chunks == [] then [] else chunks[0] + Flatten(chunks[1..])
  }

  /** `BufReader`: the chunks still to come, none empty; after them end of file or an error. */
  class BufReader {
    var chunks: seq<seq<byte>>
    const fails: bool

    constructor (chunks: seq<seq<byte>>, fails: bool)
      requires forall i :: 0 <= i < |chunks| ==> chunks[i] != []
      ensures Valid() && this.chunks == chunks && this.fails == fails
    {
      this.chunks, this.fails := chunks, fails;
    }

    ghost predicate Valid()
      reads this
    {
      forall i :: 0 <= i < |chunks| ==> chunks[i] != []
    }

    ghost function Rest(): seq<byte>
      reads this
    {
      Flatten(chunks)
    }

    /** Empty at the end of the stream. */
    method FillBuf() returns (failed: bool, chunk: seq<byte>)
      requires Valid()
      ensures chunk == if chunks == [] then [] else chunks[0]
      ensures failed == (chunks == [] && fails)
    {
      failed := chunks == [] && fails;
      chunk := if chunks == [] then [] else chunks[0];
    }

    method Consume(n: nat)
      requires Valid() && chunks != [] && n <= |chunks[0]|
      modifies this`chunks
      ensures Valid() && Rest() == old(Rest())[n..] && |old(Rest())| >= n
      ensures |chunks| <= |old(chunks)| && (n == |old(chunks[0])| ==> |chunks| < |old(chunks)|)
    {
      ghost var was := chunks;
      if n == |chunks[0]| {
        chunks := chunks[1..];
        assert Flatten(was)[n..] == Flatten(chunks);
      } else {
        chunks := [chunks[0][n..]] + chunks[1..];
        assert chunks[1..] == was[1..];
        assert Flatten(was)[n..] == was[0][n..] + Flatten(was[1..]);
      }
    }
  }

  method Position(chunk: seq<byte>) returns (at: int)
    ensures at == -1 ==> NoNewline(chunk)
    ensures at != -1 ==> 0 <= at < |chunk| && chunk[at] == NL && NoNewline(chunk[..at])
  {
    at := 0;
    while at < |chunk|
      invariant 0 <= at <= |chunk| && NoNewline(chunk[..at])
    {
      if chunk[at] == NL {
        return;
      }
      assert chunk[..at + 1] == chunk[..at] + [chunk[at]];
      at := at + 1;
    }
    assert chunk[..|chunk|] == chunk;
    at := -1;
  }

  lemma AtEnd(taken: seq<byte>, cap: nat, fails: bool)
    requires NoNewline(taken)
    ensures ReadOne(taken + [], cap, fails) ==
      (if fails then Failed else if taken == [] then Eof else Judge(taken, cap), [])
  {
    assert taken + [] == taken;
    NoSegment(taken);
  }

  lemma AtNewline(taken: seq<byte>, chunk: seq<byte>, rest: seq<byte>, at: nat, cap: nat, fails: bool)
    requires NoNewline(taken) && at < |chunk| <= |rest| && chunk == rest[..|chunk|]
    requires chunk[at] == NL && NoNewline(chunk[..at])
    ensures ReadOne(taken + rest, cap, fails) == (Judge(taken + chunk[..at], cap), rest[at + 1..])
  {
    var seg := taken + chunk[..at];
    var all := taken + rest;
    assert all == seg + [NL] + rest[at + 1..];
    FirstLineIs(seg, rest[at + 1..]);
    assert all[..|seg|] == seg && all[|seg| + 1..] == rest[at + 1..];
  }

  lemma PastChunk(taken: seq<byte>, chunk: seq<byte>, rest: seq<byte>)
    requires |chunk| <= |rest| && chunk == rest[..|chunk|]
    ensures taken + rest == taken + chunk + rest[|chunk|..]
  {
  }

  /** `read_capped_line`: `buf` holds at most `cap` bytes at every moment, and the result and what is left depend on the
      bytes alone, not on how they were chunked. */
  method ReadCappedLine(reader: BufReader, cap: nat) returns (r: LineRead, buf: seq<byte>)
    requires reader.Valid()
    modifies reader`chunks
    ensures reader.Valid() && (r, reader.Rest()) == ReadOne(old(reader.Rest()), cap, reader.fails)
    ensures |buf| <= cap && (r.Line? ==> r.content == buf)
  {
    buf := [];
    var tooLong := false;
    ghost var all := reader.Rest();
    ghost var taken: seq<byte> := [];
    assert all == taken + reader.Rest();
    while true
      invariant reader.Valid() && all == taken + reader.Rest() && NoNewline(taken)
      invariant tooLong <==> |taken| > cap
      invariant buf == if tooLong then [] else taken
      decreases |reader.chunks|
    {
      ghost var rest := reader.Rest();
      var failed, chunk := reader.FillBuf();
      if failed || chunk == [] {
        AtEnd(taken, cap, reader.fails);
        r := if failed then Failed else if tooLong then TooLong else if buf == [] then Eof else Line(buf);
        return;
      }
      var newline := Position(chunk);
      var contentLen := if newline == -1 then |chunk| else newline;
      if !tooLong {
        if |buf| + contentLen > cap {
          tooLong := true;
          buf := [];
        } else {
          buf := buf + chunk[..contentLen];
        }
      }
      var consumed := if newline == -1 then contentLen else newline + 1;
      FirstChunk(reader.chunks);
      reader.Consume(consumed);
      if newline != -1 {
        AtNewline(taken, chunk, rest, newline, cap, reader.fails);
        r := if tooLong then TooLong else Line(buf);
        return;
      }
      PastChunk(taken, chunk, rest);
      assert chunk[..contentLen] == chunk;
      taken := taken + chunk;
    }
  }

  lemma FirstChunk(chunks: seq<seq<byte>>)
    requires chunks != []
    ensures |chunks[0]| <= |Flatten(chunks)| && chunks[0] == Flatten(chunks)[..|chunks[0]|]
  {
  }

  // ----- the read loop

  lemma JudgedHead(seg: seq<byte>, segs: seq<seq<byte>>, cap: nat)
    ensures Judged([seg] + segs, cap) == [Judge(seg, cap)] + Judged(segs, cap)
  {
    Seqs.Headed(seg, segs);
  }

  lemma ReportsLine(bytes: seq<byte>, n: nat, rest: seq<byte>, cap: nat, fails: bool)
    requires n == FirstLine(bytes) < |bytes| && rest == bytes[n + 1..]
    ensures Reports(bytes, cap, fails) == [Judge(bytes[..n], cap)] + Reports(rest, cap, fails)
  {
    SegmentsStep(bytes, n, rest);
    JudgedHead(bytes[..n], Segments(rest), cap);
    var end := if Tail(rest) == [] || fails then [] else [Judge(Tail(rest), cap)];
    Seqs.Assoc([Judge(bytes[..n], cap)], Judged(Segments(rest), cap), end);
  }

  lemma ReportsTail(bytes: seq<byte>, cap: nat, fails: bool)
    requires FirstLine(bytes) == |bytes|
    ensures Reports(bytes, cap, fails) == if bytes == [] || fails then [] else [Judge(bytes, cap)]
  {
    assert Segments(bytes) == [] && Tail(bytes) == bytes;
  }

  /** `read_loop` over any chunking of a stream reports exactly its newline split: over-long segments as `TooLong`, a
      non-empty unterminated tail too, then the end. */
  method ReadAll(reader: BufReader, cap: nat) returns (out: seq<LineRead>, last: LineRead)
    requires reader.Valid()
    modifies reader`chunks
    ensures out == Reports(old(reader.Rest()), cap, reader.fails)
    ensures last == if reader.fails then Failed else Eof
  {
    out := [];
    ghost var todo := Reports(reader.Rest(), cap, reader.fails);
    ghost var want := todo;
    while true
      invariant reader.Valid() && todo == Reports(reader.Rest(), cap, reader.fails) && want == out + todo
      decreases |reader.Rest()|
    {
      ghost var before := reader.Rest();
      var r, buf := ReadCappedLine(reader, cap);
      ghost var after := Step(before, r, reader.Rest(), cap, reader.fails);
      if r.Eof? || r.Failed? {
        return out, r;
      }
      todo := after;
      out := out + [r];
    }
  }

  lemma Step(bytes: seq<byte>, r: LineRead, rest: seq<byte>, cap: nat, fails: bool) returns (todo: seq<LineRead>)
    requires (r, rest) == ReadOne(bytes, cap, fails)
    ensures todo == Reports(rest, cap, fails)
    ensures Reports(bytes, cap, fails) == if r.Eof? || r.Failed? then [] else [r] + todo
    ensures if r.Eof? || r.Failed? then r == (if fails then Failed else Eof) else |rest| < |bytes|
  {
    var n := FirstLine(bytes);
    if n < |bytes| {
      ReportsLine(bytes, n, rest, cap, fails);
    } else {
      ReportsTail(bytes, cap, fails);
      ReportsTail([], cap, fails);
    }
    todo := Reports(rest, cap, fails);
  }
}
