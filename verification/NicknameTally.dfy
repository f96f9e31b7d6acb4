/** Group nickname votes: who wins, and that the tally finds it. */
module NicknameTally {
  import opened Options

  // ----- the table of votes

  /** The primary key of a vote. */
  datatype Key = Key(chat: string, target: string, voter: string)
  datatype Ballot = Ballot(nickname: string, at: int)
  datatype Cast = Cast(key: Key, ballot: Ballot)
  datatype Row = Row(voter: string, nickname: string, at: int)

  class Votes {
    var table: map<Key, Ballot>
    ghost var casts: seq<Cast>

    ghost predicate Valid()
      reads this
    {
      table == Table(casts)
    }

    constructor ()
      ensures Valid() && casts == []
    {
      table, casts := map[], [];
    }

    /** A second vote by the same voter replaces the first. */
    method CastVote(c: Cast)
      requires Valid()
      modifies this
      ensures Valid() && casts == old(casts) + [c]
    {
      table := table[c.key := c.ballot];
      casts := casts + [c];
      assert casts[..|casts| - 1] == old(casts);
    }
  }

  function Table(casts: seq<Cast>): map<Key, Ballot>
    decreases |casts|
  {
    if casts == [] then map[] else Table(casts[..|casts| - 1])[casts[|casts| - 1].key := casts[|casts| - 1].ballot]
  }

  /** The nickname `key` voted for last, if it ever voted. */
  predicate LastVote(casts: seq<Cast>, key: Key, nickname: string) {
    exists i :: 0 <= i < |casts| && LastAt(casts, key, nickname, i)
  }

  predicate LastAt(casts: seq<Cast>, key: Key, nickname: string, i: nat)
    requires i < |casts|
  {
    casts[i].key == key && casts[i].ballot.nickname == nickname && NoLater(casts, key, i)
  }

  predicate NoLater(casts: seq<Cast>, key: Key, i: nat)
    requires i < |casts|
  {
    forall j :: i < j < |casts| ==> casts[j].key != key
  }

  lemma {:induction false} TableHoldsLastVotes(casts: seq<Cast>, key: Key, nickname: string)
    ensures key in Table(casts) && Table(casts)[key].nickname == nickname <==> LastVote(casts, key, nickname)
    decreases |casts|
  {
    if casts != [] {
      var n := |casts| - 1;
      var front := casts[..n];
      TableHoldsLastVotes(front, key, nickname);
      if casts[n].key == key {
        if casts[n].ballot.nickname == nickname {
          assert LastAt(casts, key, nickname, n);
        }
        if LastVote(casts, key, nickname) {
          var i :| 0 <= i < |casts| && LastAt(casts, key, nickname, i);
          assert i == n;
        }
      } else {
        LastVoteFront(casts, key, nickname);
      }
    }
  }

  lemma LastVoteFront(casts: seq<Cast>, key: Key, nickname: string)
    requires casts != [] && casts[|casts| - 1].key != key
    ensures LastVote(casts, key, nickname) <==> LastVote(casts[..|casts| - 1], key, nickname)
  {
    var front := casts[..|casts| - 1];
    assert forall i :: 0 <= i < |front| ==> front[i] == casts[i];
    if LastVote(front, key, nickname) {
      var i :| 0 <= i < |front| && LastAt(front, key, nickname, i);
      assert casts[i] == front[i] && LastAt(casts, key, nickname, i);
    }
    if LastVote(casts, key, nickname) {
      var i :| 0 <= i < |casts| && LastAt(casts, key, nickname, i);
      assert front[i] == casts[i] && LastAt(front, key, nickname, i);
    }
  }

  // ----- the rows a query gives

  ghost predicate UniqueVoters(rows: seq<Row>) {
    forall i, j :: 0 <= i < j < |rows| ==> rows[i].voter != rows[j].voter
  }

  /** `rows` lists the votes on `target` in `chat`, in any order. */
  ghost predicate Lists(table: map<Key, Ballot>, chat: string, target: string, rows: seq<Row>) {
    && UniqueVoters(rows)
    && (forall i :: 0 <= i < |rows| ==>
          var key := Key(chat, target, rows[i].voter);
          key in table && table[key] == Ballot(rows[i].nickname, rows[i].at))
    && (forall key :: key in table && key.chat == chat && key.target == target ==>
          exists i :: 0 <= i < |rows| && rows[i].voter == key.voter)
  }

  predicate Voted(rows: seq<Row>, voter: string, n: string) {
    exists i :: 0 <= i < |rows| && rows[i].voter == voter && rows[i].nickname == n
  }

  function Count(rows: seq<Row>, n: string): nat {
    if rows == [] then 0 else Count(rows[..|rows| - 1], n) + if rows[|rows| - 1].nickname == n then 1 else 0
  }

  /** What the tally asks of a nickname. */
  predicate Qualifies(rows: seq<Row>, target: string, n: string) {
    Count(rows, n) >= 2 && Voted(rows, target, n)
  }

  // ----- the tally

  datatype Tally = Tally(count: nat, targetVoted: bool, latest: int)

  ghost predicate Tallied(rows: seq<Row>, target: string, names: seq<string>, tally: map<string, Tally>) {
    && (forall n :: n in names <==> n in tally)
    && (forall n :: n in tally <==> Count(rows, n) > 0)
    && (forall n :: n in tally ==> tally[n].count == Count(rows, n) && tally[n].targetVoted == Voted(rows, target, n))
  }

  lemma VotedSnoc(rows: seq<Row>, r: Row, voter: string, n: string)
    ensures Voted(rows + [r], voter, n) <==> Voted(rows, voter, n) || (r.voter == voter && r.nickname == n)
  {
    var all := rows + [r];
    assert all[|rows|] == r;
    assert forall i :: 0 <= i < |rows| ==> all[i] == rows[i];
  }

  lemma CountSnoc(rows: seq<Row>, r: Row, n: string)
    ensures Count(rows + [r], n) == Count(rows, n) + if r.nickname == n then 1 else 0
  {
    assert (rows + [r])[..|rows|] == rows;
  }

  /** The first loop: a tally per nickname, in the order the nicknames first appear. */
  method TallyVotes(rows: seq<Row>, target: string) returns (names: seq<string>, tally: map<string, Tally>)
    ensures Tallied(rows, target, names, tally)
  {
    names, tally := [], map[];
    for i := 0 to |rows|
      invariant Tallied(rows[..i], target, names, tally)
    {
      var v := rows[i];
      assert rows[..i + 1] == rows[..i] + [v];
      forall n
        ensures Count(rows[..i + 1], n) == Count(rows[..i], n) + if v.nickname == n then 1 else 0
        ensures Voted(rows[..i + 1], target, n) <==>
                Voted(rows[..i], target, n) || (v.voter == target && v.nickname == n)
      {
        CountSnoc(rows[..i], v, n);
        VotedSnoc(rows[..i], v, target, n);
      }
      NoVotesNotVoted(rows[..i], target, v.nickname);
      var t := if v.nickname in tally then tally[v.nickname] else Tally(0, false, 0);
      t := t.(count := t.count + 1);
      if v.voter == target {
        t := t.(targetVoted := true);
      }
      if v.at > t.latest {
        t := t.(latest := v.at);
      }
      if v.nickname !in tally {
        names := names + [v.nickname];
      }
      tally := tally[v.nickname := t];
    }
    assert rows[..|rows|] == rows;
  }

  lemma {:induction false} NoVotesNotVoted(rows: seq<Row>, voter: string, n: string)
    ensures Voted(rows, voter, n) ==> Count(rows, n) > 0
    decreases |rows|
  {
    if rows != [] {
      var front := rows[..|rows| - 1];
      NoVotesNotVoted(front, voter, n);
      assert rows == front + [rows[|rows| - 1]];
      VotedSnoc(front, rows[|rows| - 1], voter, n);
    }
  }

  /** The active nickname: one that qualifies, or none when none does. */
  method ActiveNickname(rows: seq<Row>, target: string) returns (best: Option<string>)
    ensures best.Some? ==> Qualifies(rows, target, best.value)
    ensures best.None? ==> forall n :: !Qualifies(rows, target, n)
  {
    if |rows| == 0 {
      return None;
    }
    var names, tally := TallyVotes(rows, target);
    best := None;
    var bestLatest := 0;
    for i := 0 to |names|
      invariant best.Some? ==> Qualifies(rows, target, best.value)
      invariant best.None? ==> forall j :: 0 <= j < i ==> !Qualifies(rows, target, names[j])
    {
      assert names[i] in names;
      var t := tally[names[i]];
      if t.count >= 2 && t.targetVoted {
        if best.None? || t.latest > bestLatest {
          best, bestLatest := Some(names[i]), t.latest;
        }
      }
    }
    if best.None? {
      forall n
        ensures !Qualifies(rows, target, n)
      {
        if n in tally {
          assert n in names;
        }
      }
    }
  }

  // ----- what the result means

  lemma {:induction false} TwoVotes(rows: seq<Row>, target: string, n: string)
    requires UniqueVoters(rows) && Voted(rows, target, n)
    ensures Count(rows, n) >= 2 <==> exists v :: v != target && Voted(rows, v, n)
    decreases |rows|
  {
    var last, front := rows[|rows| - 1], rows[..|rows| - 1];
    assert rows == front + [last];
    forall v
      ensures Voted(rows, v, n) <==> Voted(front, v, n) || (last.voter == v && last.nickname == n)
    {
      VotedSnoc(front, last, v, n);
    }
    if last.voter == target && last.nickname == n {
      assert !Voted(front, target, n);
      SomeVote(front, n);
    } else {
      TwoVotes(front, target, n);
      NoVotesNotVoted(front, target, n);
      if last.nickname == n {
        assert Voted(rows, last.voter, n);
      }
    }
  }

  lemma {:induction false} SomeVote(rows: seq<Row>, n: string)
    ensures Count(rows, n) >= 1 <==> exists v :: Voted(rows, v, n)
    decreases |rows|
  {
    if rows != [] {
      var last, front := rows[|rows| - 1], rows[..|rows| - 1];
      SomeVote(front, n);
      assert rows == front + [last];
      forall v
        ensures Voted(rows, v, n) <==> Voted(front, v, n) || (last.voter == v && last.nickname == n)
      {
        VotedSnoc(front, last, v, n);
      }
      if last.nickname == n {
        assert Voted(rows, last.voter, n);
      }
    }
  }

  /** The nickname in force, said of the votes alone: the target and somebody else voted for it last. */
  ghost predicate InForce(casts: seq<Cast>, chat: string, target: string, n: string) {
    && LastVote(casts, Key(chat, target, target), n)
    && exists v :: v != target && LastVote(casts, Key(chat, target, v), n)
  }

  lemma VotedIsLastVote(casts: seq<Cast>, chat: string, target: string, rows: seq<Row>, v: string, n: string)
    requires Lists(Table(casts), chat, target, rows)
    ensures Voted(rows, v, n) <==> LastVote(casts, Key(chat, target, v), n)
  {
    TableHoldsLastVotes(casts, Key(chat, target, v), n);
  }

  /** Whatever order and times the rows have, a nickname qualifies exactly when it is in force. */
  lemma QualifiesMeansInForce(casts: seq<Cast>, chat: string, target: string, rows: seq<Row>, n: string)
    requires Lists(Table(casts), chat, target, rows)
    ensures Qualifies(rows, target, n) <==> InForce(casts, chat, target, n)
  {
    forall v
      ensures Voted(rows, v, n) <==> LastVote(casts, Key(chat, target, v), n)
    {
      VotedIsLastVote(casts, chat, target, rows, v, n);
    }
    if Voted(rows, target, n) {
      TwoVotes(rows, target, n);
    }
  }

  /** At most one nickname is in force, so the latest-vote tie-break never decides. */
  lemma AtMostOneInForce(casts: seq<Cast>, chat: string, target: string, m: string, n: string)
    requires InForce(casts, chat, target, m) && InForce(casts, chat, target, n)
    ensures m == n
  {
    TableHoldsLastVotes(casts, Key(chat, target, target), m);
    TableHoldsLastVotes(casts, Key(chat, target, target), n);
  }

  /** The active nickname after any history of votes, from any listing of the table. */
  method ActiveAfter(ghost casts: seq<Cast>, ghost chat: string, target: string, rows: seq<Row>)
    returns (best: Option<string>)
    requires Lists(Table(casts), chat, target, rows)
    ensures forall n :: best == Some(n) <==> InForce(casts, chat, target, n)
  {
    best := ActiveNickname(rows, target);
    forall n
      ensures Qualifies(rows, target, n) <==> InForce(casts, chat, target, n)
    {
      QualifiesMeansInForce(casts, chat, target, rows, n);
    }
    if best.Some? {
      forall n | InForce(casts, chat, target, n)
        ensures n == best.value
      {
        AtMostOneInForce(casts, chat, target, n, best.value);
      }
    }
  }
}
