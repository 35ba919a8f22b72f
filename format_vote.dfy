/** mogi_objects.py `VoteView`: the format poll of one room. Each voter sits in at most one bucket;
    the first bucket to reach six votes decides the format, otherwise `find_winner` picks among the
    formats tied for the most votes. */
module FormatVote {
  import opened Wrappers
  import opened Common
  import opened Roster

  /** The poll's options, one per `votes` key. */
  datatype Format = FFA | V2 | V3 | V4 | V6

  /** The button `custom_id` of each option. */
  function Label(f: Format): string
  {
    match f
    case FFA => "FFA"
    case V2 => "2v2"
    case V3 => "3v3"
    case V4 => "4v4"
    case V6 => "6v6"
  }

  /** Players per team of the format: 1 for FFA, otherwise the leading digit of the label. */
  function PlayersPerTeam(f: Format): (n: nat)
    ensures n > 0 && 12 % n == 0
    ensures f != FFA ==> n == (Label(f)[0] as int) - ('0' as int)
  {
    match f
    case FFA => 1
    case V2 => 2
    case V3 => 3
    case V4 => 4
    case V6 => 6
  }

  /** The keys of `votes` in the dict's insertion order, which is the order the callback visits them. */
  const AllFormats: seq<Format> := [FFA, V2, V3, V4, V6]

  /** Position of a format in `AllFormats`. */
  function Index(f: Format): (i: nat)
    ensures i < |AllFormats| && AllFormats[i] == f
  {
    match f
    case FFA => 0
    case V2 => 1
    case V3 => 2
    case V4 => 3
    case V6 => 4
  }

  lemma IndexOfAt(i: nat)
    requires i < |AllFormats|
    ensures Index(AllFormats[i]) == i
  {
    if i == 0 {} else if i == 1 {} else if i == 2 {} else if i == 3 {} else {}
  }

  /** Whether the poll has a button for the format: 6v6 is only offered on MKW. */
  predicate Offered(f: Format, server: Server)
  {
    f != V6 || server == MKW
  }

  /** A bucket of this size ends the poll. */
  const Quorum: nat := 6

  type Tally = map<Format, seq<MemberId>>

  /** The shape the poll keeps: every option has a bucket, nobody is listed twice, nobody is in two
      buckets, and the 6v6 bucket stays empty where it has no button. */
  ghost predicate ValidTally(v: Tally, server: Server)
  {
    (forall f: Format :: f in v) &&
    (forall f, x :: f in v ==> multiset(v[f])[x] <= 1) &&
    (forall f, g, x :: f in v && g in v && x in v[f] && x in v[g] ==> f == g) &&
    (server != MKW ==> v[V6] == [])
  }

  /** No bucket has reached the quorum yet. */
  predicate Undecided(v: Tally)
  {
    forall f :: f in v ==> |v[f]| < Quorum
  }

  /** The bucket of the last option, among the first `n` visited, that lists the voter: the
      `original_vote` the callback ends up with. */
  function PreviousVote(v: Tally, voter: MemberId, n: nat): Option<Format>
    requires n <= |AllFormats|
    requires forall f: Format :: f in v
  {
    if n == 0 then None
    else if voter in v[AllFormats[n - 1]] then Some(AllFormats[n - 1])
    else PreviousVote(v, voter, n - 1)
  }

  /** The voter's current vote, if any. */
  function CurrentVote(v: Tally, voter: MemberId): Option<Format>
    requires forall f: Format :: f in v
  {
    PreviousVote(v, voter, |AllFormats|)
  }

  /** The voter taken out of every bucket. */
  function Withdraw(v: Tally, voter: MemberId): Tally
  {
    map f | f in v :: RemoveFirst(v[f], voter)
  }

  /** The tallies partway through the callback's loop: the voter removed from the first `n`
      buckets in dict order. */
  function WithdrawUpTo(v: Tally, voter: MemberId, n: nat): Tally
  {
    map f | f in v :: if Index(f) < n then RemoveFirst(v[f], voter) else v[f]
  }

  /** One iteration of the loop removes the voter from the next bucket, if it lists them. */
  lemma WithdrawUpToStep(v: Tally, voter: MemberId, i: nat)
    requires forall f: Format :: f in v
    requires i < |AllFormats|
    ensures WithdrawUpTo(v, voter, i)[AllFormats[i]] == v[AllFormats[i]]
    ensures voter in v[AllFormats[i]] ==>
              WithdrawUpTo(v, voter, i + 1) ==
              WithdrawUpTo(v, voter, i)[AllFormats[i] := RemoveFirst(v[AllFormats[i]], voter)]
    ensures voter !in v[AllFormats[i]] ==> WithdrawUpTo(v, voter, i + 1) == WithdrawUpTo(v, voter, i)
  {
    IndexOfAt(i);
    if voter !in v[AllFormats[i]] {
      RemoveFirstAbsent(v[AllFormats[i]], voter);
    }
  }

  /** After visiting every bucket the voter is withdrawn from all of them. */
  lemma WithdrawUpToAll(v: Tally, voter: MemberId)
    ensures WithdrawUpTo(v, voter, |AllFormats|) == Withdraw(v, voter)
  {
  }

  /** The tallies after a click on an undecided poll: the voter leaves every bucket and joins the
      clicked one unless it is the bucket they just left. */
  function AfterClick(v: Tally, voter: MemberId, clicked: Format): Tally
    requires forall f: Format :: f in v
  {
    var w := Withdraw(v, voter);
    if CurrentVote(v, voter) != Some(clicked) then w[clicked := w[clicked] + [voter]] else w
  }

  /** The voter has a current vote exactly when some bucket lists them, and then it is that bucket. */
  lemma {:induction false} PreviousVoteFinds(v: Tally, voter: MemberId, n: nat)
    requires n <= |AllFormats|
    requires forall f: Format :: f in v
    ensures PreviousVote(v, voter, n).None? <==> forall i :: 0 <= i < n ==> voter !in v[AllFormats[i]]
    ensures PreviousVote(v, voter, n).Some? ==>
              var f := PreviousVote(v, voter, n).value; Index(f) < n && voter in v[f]
  {
    if n > 0 {
      PreviousVoteFinds(v, voter, n - 1);
    }
  }

  /** In a valid poll, the current vote is the one bucket listing the voter. */
  lemma CurrentVoteIsBucket(v: Tally, server: Server, voter: MemberId, f: Format)
    requires ValidTally(v, server)
    ensures CurrentVote(v, voter) == Some(f) <==> voter in v[f]
  {
    PreviousVoteFinds(v, voter, |AllFormats|);
    if voter in v[f] {
      assert CurrentVote(v, voter).Some? by {
        assert voter in v[AllFormats[Index(f)]];
      }
    }
  }

  /** Membership after a click: the voter is listed only in the clicked bucket, and only when it
      was not already their vote (clicking your current choice withdraws it). */
  lemma AfterClickVoter(v: Tally, server: Server, voter: MemberId, clicked: Format, f: Format)
    requires ValidTally(v, server)
    ensures voter in AfterClick(v, voter, clicked)[f] <==> f == clicked && voter !in v[clicked]
  {
    CurrentVoteIsBucket(v, server, voter, clicked);
    forall g ensures voter !in Withdraw(v, voter)[g] {
      RemoveFirstMultiset(v[g], voter);
      assert multiset(v[g])[voter] <= 1;
    }
  }

  /** A bucket after a click is the bucket with the voter withdrawn, with the voter appended when
      it is the clicked one. */
  lemma AfterClickBucket(v: Tally, voter: MemberId, clicked: Format, f: Format)
    requires forall f: Format :: f in v
    ensures AfterClick(v, voter, clicked)[f] == RemoveFirst(v[f], voter) ||
            (f == clicked && AfterClick(v, voter, clicked)[f] == RemoveFirst(v[f], voter) + [voter])
  {
  }

  /** Other voters keep exactly the votes they had. */
  lemma AfterClickOthers(v: Tally, voter: MemberId, clicked: Format, other: MemberId, f: Format)
    requires forall f: Format :: f in v
    requires other != voter
    ensures multiset(AfterClick(v, voter, clicked)[f])[other] == multiset(v[f])[other]
  {
    var r := RemoveFirst(v[f], voter);
    RemoveFirstMultiset(v[f], voter);
    AfterClickBucket(v, voter, clicked, f);
    assert multiset(r + [voter]) == multiset(r) + multiset{voter};
  }


  /** A click keeps the poll valid, and from an undecided poll no bucket overshoots the quorum. */
  lemma AfterClickValid(v: Tally, server: Server, voter: MemberId, clicked: Format)
    requires ValidTally(v, server) && Undecided(v) && Offered(clicked, server)
    ensures ValidTally(AfterClick(v, voter, clicked), server)
    ensures forall f :: |AfterClick(v, voter, clicked)[f]| <= Quorum
    ensures forall f :: f != clicked ==> |AfterClick(v, voter, clicked)[f]| < Quorum
  {
    AfterClickNoDuplicates(v, server, voter, clicked);
    AfterClickOneBucket(v, server, voter, clicked);
    forall f ensures |AfterClick(v, voter, clicked)[f]| <= |v[f]| + (if f == clicked then 1 else 0) {
      AfterClickSize(v, voter, clicked, f);
    }
    if server != MKW {
      assert clicked != V6;
      RemoveFirstAbsent(v[V6], voter);
    }
  }

  /** After a click nobody is listed twice in a bucket. */
  lemma AfterClickNoDuplicates(v: Tally, server: Server, voter: MemberId, clicked: Format)
    requires ValidTally(v, server)
    ensures forall f, x :: multiset(AfterClick(v, voter, clicked)[f])[x] <= 1
  {
    var a := AfterClick(v, voter, clicked);
    forall f, x ensures multiset(a[f])[x] <= 1 {
      if x == voter {
        AfterClickVoter(v, server, voter, clicked, f);
        RemoveFirstMultiset(v[f], voter);
      } else {
        AfterClickOthers(v, voter, clicked, x, f);
      }
    }
  }

  /** After a click nobody is listed in two buckets. */
  lemma AfterClickOneBucket(v: Tally, server: Server, voter: MemberId, clicked: Format)
    requires ValidTally(v, server)
    ensures forall f, g, x :: x in AfterClick(v, voter, clicked)[f] && x in AfterClick(v, voter, clicked)[g] ==> f == g
  {
    var a := AfterClick(v, voter, clicked);
    forall f, g, x | x in a[f] && x in a[g] ensures f == g {
      if x == voter {
        AfterClickVoter(v, server, voter, clicked, f);
        AfterClickVoter(v, server, voter, clicked, g);
      } else {
        AfterClickOthers(v, voter, clicked, x, f);
        AfterClickOthers(v, voter, clicked, x, g);
        assert x in multiset(a[f]) && x in multiset(a[g]);
        assert x in multiset(v[f]) && x in multiset(v[g]);
        assert x in v[f] && x in v[g];
      }
    }
  }

  /** A click grows only the clicked bucket, by at most one. */
  lemma AfterClickSize(v: Tally, voter: MemberId, clicked: Format, f: Format)
    requires forall f: Format :: f in v
    ensures |AfterClick(v, voter, clicked)[f]| <= |v[f]| + (if f == clicked then 1 else 0)
  {
    var r := RemoveFirst(v[f], voter);
    RemoveFirstMultiset(v[f], voter);
    assert |r| == |multiset(r)| <= |multiset(v[f])| == |v[f]|;
    AfterClickBucket(v, voter, clicked, f);
  }

  /** Withdrawing a voter no bucket lists changes nothing. */
  lemma WithdrawAbsent(v: Tally, voter: MemberId)
    requires forall f :: f in v ==> voter !in v[f]
    ensures Withdraw(v, voter) == v
  {
    forall f | f in v ensures Withdraw(v, voter)[f] == v[f] {
      RemoveFirstAbsent(v[f], voter);
    }
  }

  /** Withdrawing a voter who was only just appended to one bucket restores the tallies. */
  lemma WithdrawAppended(v: Tally, voter: MemberId, clicked: Format)
    requires forall f: Format :: f in v
    requires forall f :: voter !in v[f]
    ensures Withdraw(v[clicked := v[clicked] + [voter]], voter) == v
  {
    var a := v[clicked := v[clicked] + [voter]];
    forall f ensures Withdraw(a, voter)[f] == v[f] {
      if f == clicked {
        RemoveFirstAppend(v[f], voter);
      } else {
        RemoveFirstAbsent(v[f], voter);
      }
    }
  }

  /** Clicking the same option twice, starting without a vote, leaves the tallies as they were. */
  lemma AfterClickTwice(v: Tally, server: Server, voter: MemberId, clicked: Format)
    requires ValidTally(v, server)
    requires forall f :: voter !in v[f]
    ensures AfterClick(AfterClick(v, voter, clicked), voter, clicked) == v
  {
    WithdrawAbsent(v, voter);
    CurrentVoteIsBucket(v, server, voter, clicked);
    var a := v[clicked := v[clicked] + [voter]];
    assert AfterClick(v, voter, clicked) == a;
    assert CurrentVote(a, voter) == Some(clicked) by {
      PreviousVoteFinds(a, voter, |AllFormats|);
      assert voter in a[AllFormats[Index(clicked)]];
      forall g | g != clicked ensures voter !in a[g] {}
    }
    WithdrawAppended(v, voter, clicked);
  }


  /** `len(max(self.votes.values(), key=len))`: the size of the largest bucket. */
  function MostVotes(v: Tally): (m: nat)
    requires forall f: Format :: f in v
    ensures |v[FFA]| <= m && |v[V2]| <= m && |v[V3]| <= m && |v[V4]| <= m && |v[V6]| <= m
    ensures |v[FFA]| == m || |v[V2]| == m || |v[V3]| == m || |v[V4]| == m || |v[V6]| == m
  {
    Max(Max(Max(Max(|v[FFA]|, |v[V2]|), |v[V3]|), |v[V4]|), |v[V6]|)
  }

  lemma MostVotesBounds(v: Tally, g: Format)
    requires forall f: Format :: f in v
    ensures |v[g]| <= MostVotes(v)
  {
    match g
    case FFA =>
    case V2 =>
    case V3 =>
    case V4 =>
    case V6 =>
  }

  function Max(a: nat, b: nat): nat
  {
    if a >= b then a else b
  }

  /** An option `find_winner` may pick: it is offered and has as many votes as the largest bucket. */
  predicate IsWinner(v: Tally, server: Server, f: Format)
    requires forall f: Format :: f in v
  {
    Offered(f, server) && |v[f]| == MostVotes(v)
  }

  /** In a valid poll some offered option is a winner, and a winner beats or ties every option. */
  lemma WinnerExists(v: Tally, server: Server)
    requires ValidTally(v, server)
    ensures exists f :: IsWinner(v, server, f)
    ensures forall f, g :: IsWinner(v, server, f) ==> |v[g]| <= |v[f]|
  {
    var f := if |v[FFA]| == MostVotes(v) then FFA else if |v[V2]| == MostVotes(v) then V2
             else if |v[V3]| == MostVotes(v) then V3 else if |v[V4]| == MostVotes(v) then V4 else V6;
    assert IsWinner(v, server, f);
    forall f, g | IsWinner(v, server, f) ensures |v[g]| <= |v[f]| {
      MostVotesBounds(v, g);
    }
  }

  /** One room's poll. `chosen` records the format `make_teams` was called with; the rest of
      `make_teams` (shuffle, team averages, messages) is not part of this model. */
  class VoteView {
    const server: Server
    var votes: Tally
    var foundWinner: bool
    var chosen: Option<Format>

    ghost predicate Valid()
      reads this
    {
      ValidTally(votes, server) &&
      (forall f :: |votes[f]| <= Quorum) &&
      (!foundWinner ==> Undecided(votes)) &&
      (foundWinner <==> chosen.Some?) &&
      (chosen.Some? ==> Offered(chosen.value, server))
    }

    /** `VoteView.__init__`: every option starts with an empty bucket and no winner. */
    constructor (server: Server)
      ensures Valid()
      ensures this.server == server && !foundWinner && chosen == None
      ensures forall f :: votes[f] == []
    {
      this.server := server;
      votes := map[FFA := [], V2 := [], V3 := [], V4 := [], V6 := []];
      foundWinner := false;
      chosen := None;
      new;
      forall f ensures f in votes && votes[f] == [] {
        match f
        case FFA =>
        case V2 =>
        case V3 =>
        case V4 =>
        case V6 =>
      }
    }

    /** `make_teams(format_)`, as far as the poll is concerned: the poll is decided on `format`. */
    method MakeTeams(format: Format)
      requires Offered(format, server)
      modifies this
      ensures votes == old(votes) && foundWinner && chosen == Some(format)
    {
      chosen := Some(format);
      foundWinner := true;
    }

    /** `find_winner`: a decided poll is left alone; otherwise the poll is settled on `w`, the
        option `random.choice` drew from the tied leaders, which beats or ties every option. */
    method FindWinner(w: Format)
      requires Valid() && (!foundWinner ==> IsWinner(votes, server, w))
      modifies this
      ensures Valid()
      ensures old(foundWinner) ==> votes == old(votes) && foundWinner && chosen == old(chosen)
      ensures !old(foundWinner) ==> foundWinner && chosen == Some(w) && votes == old(votes)
      ensures !old(foundWinner) ==> forall g :: |votes[g]| <= |votes[w]|
    {
      if !foundWinner {
        WinnerExists(votes, server);
        MakeTeams(w);
      }
    }

    /** `general_vote_callback`: a click on an option's button. A decided poll ignores it. */
    method GeneralVoteCallback(voter: MemberId, clicked: Format)
      requires Valid() && Offered(clicked, server)
      modifies this
      ensures Valid()
      ensures old(foundWinner) ==> votes == old(votes) && foundWinner && chosen == old(chosen)
      ensures !old(foundWinner) ==> votes == AfterClick(old(votes), voter, clicked)
      ensures !old(foundWinner) ==> (foundWinner <==> |votes[clicked]| == Quorum)
      ensures !old(foundWinner) && foundWinner ==> chosen == Some(clicked)
    {
      if !foundWinner {
        var original := RemoveVoter(voter);
        if original != Some(clicked) {
          votes := votes[clicked := votes[clicked] + [voter]];
        }
        AfterClickValid(old(votes), server, voter, clicked);
        if |votes[clicked]| == Quorum {
          MakeTeams(clicked);
        }
      }
    }

    /** The loop of `general_vote_callback` over the buckets in dict order: the voter is removed
        from each bucket listing them, and the last such bucket is their original vote. */
    method RemoveVoter(voter: MemberId) returns (original: Option<Format>)
      requires forall f: Format :: f in votes
      modifies this`votes
      ensures votes == Withdraw(old(votes), voter) && original == CurrentVote(old(votes), voter)
    {
      ghost var start := votes;
      original := None;
      var i := 0;
      while i < |AllFormats|
        invariant 0 <= i <= |AllFormats|
        invariant votes == WithdrawUpTo(start, voter, i)
        invariant original == PreviousVote(start, voter, i)
      {
        var option := AllFormats[i];
        WithdrawUpToStep(start, voter, i);
        if voter in votes[option] {
          original := Some(option);
          votes := votes[option := RemoveFirst(votes[option], voter)];
        }
        i := i + 1;
      }
      WithdrawUpToAll(start, voter);
    }
  }
}
