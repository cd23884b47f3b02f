/**
 Vote tallying: the recount `update_poll_results` performs from the stored
 votes, and the totals and percentages `get_poll_results` derives from it.
 */
module Tally {

  import opened Collection
  import opened Model

  /** Whether a vote was cast on the poll `pollId`. */
  function ForPoll(pollId: Id): Vote -> bool {
    (v: Vote) => v.pollId == pollId
  }

  /** The votes a recount reads: the first FetchLimit stored votes of the poll. */
  function FetchVotes(votes: seq<Vote>, pollId: Id): (r: seq<Vote>)
    ensures |r| <= FetchLimit
    ensures forall k :: 0 <= k < |r| ==> r[k].pollId == pollId && r[k] in votes
  {
    Limit(Select(votes, ForPoll(pollId)), FetchLimit)
  }

  /** A recount never reads a vote more often than it is stored, and reads every
      stored vote of the poll, as often as it is stored, while the poll has at
      most FetchLimit of them. */
  lemma FetchVotesComplete(votes: seq<Vote>, pollId: Id)
    ensures multiset(FetchVotes(votes, pollId)) <= multiset(votes)
    ensures |Select(votes, ForPoll(pollId))| <= FetchLimit ==>
      forall v :: multiset(FetchVotes(votes, pollId))[v] == if v.pollId == pollId then multiset(votes)[v] else 0
  {
    SelectCounts(votes, ForPoll(pollId));
  }

  /** A vote stored for another poll does not change what a recount fetches. */
  lemma FetchVotesAppendOther(votes: seq<Vote>, v: Vote, pollId: Id)
    requires v.pollId != pollId
    ensures FetchVotes(votes + [v], pollId) == FetchVotes(votes, pollId)
  {
    SelectAppend(votes, v, ForPoll(pollId));
    assert Select(votes, ForPoll(pollId)) + [] == Select(votes, ForPoll(pollId));
  }

  /** A vote stored for the poll is fetched when fewer than FetchLimit of its votes
      were stored before it, and is left out otherwise. */
  lemma FetchVotesAppendSame(votes: seq<Vote>, v: Vote, pollId: Id)
    requires v.pollId == pollId
    ensures |Select(votes, ForPoll(pollId))| < FetchLimit ==>
      FetchVotes(votes + [v], pollId) == FetchVotes(votes, pollId) + [v]
    ensures |Select(votes, ForPoll(pollId))| >= FetchLimit ==>
      FetchVotes(votes + [v], pollId) == FetchVotes(votes, pollId)
  {
    SelectAppend(votes, v, ForPoll(pollId));
    if |Select(votes, ForPoll(pollId))| >= FetchLimit {
      LimitAppend(Select(votes, ForPoll(pollId)), [v], FetchLimit);
    }
  }

  /** Reference count: how many of `votes` chose the option `optionId`. */
  function Occurrences(votes: seq<Vote>, optionId: Id): nat {
    if |votes| == 0 then 0
    else (if votes[0].optionId == optionId then 1 else 0) + Occurrences(votes[1..], optionId)
  }

  /** `counts.get(k, 0)` on the dictionary of counts. */
  function Get(counts: map<Id, nat>, k: Id): nat {
    if k in counts then counts[k] else 0
  }

  /** The counting loop: each vote increments the entry of its option. */
  function CountInto(votes: seq<Vote>, acc: map<Id, nat>): map<Id, nat> {
    if |votes| == 0 then acc
    else
      var o := votes[0].optionId;
      CountInto(votes[1..], acc[o := Get(acc, o) + 1])
  }

  lemma {:induction false} CountIntoAdds(votes: seq<Vote>, acc: map<Id, nat>, o: Id)
    ensures Get(CountInto(votes, acc), o) == Get(acc, o) + Occurrences(votes, o)
  {
    if |votes| > 0 {
      var o' := votes[0].optionId;
      CountIntoAdds(votes[1..], acc[o' := Get(acc, o') + 1], o);
    }
  }

  /** The dictionary of per-option counts built from the fetched votes: every
      option identifier maps to the number of votes that chose it. */
  function VoteCounts(votes: seq<Vote>): (counts: map<Id, nat>)
    ensures forall o :: Get(counts, o) == Occurrences(votes, o)
  {
    forall o ensures Get(CountInto(votes, map[]), o) == Occurrences(votes, o) {
      CountIntoAdds(votes, map[], o);
    }
    CountInto(votes, map[])
  }

  /** Each option takes the count recorded for its identifier, or 0. */
  function Recount(options: seq<PollOption>, counts: map<Id, nat>): (r: seq<PollOption>)
    ensures |r| == |options|
    ensures forall k :: 0 <= k < |r| ==>
      r[k].id == options[k].id && r[k].text == options[k].text && r[k].votes == Get(counts, options[k].id)
  {
    if |options| == 0 then []
    else [options[0].(votes := Get(counts, options[0].id))] + Recount(options[1..], counts)
  }

  /** Whether some option carries the identifier `optionId`. */
  predicate HasOption(options: seq<PollOption>, optionId: Id) {
    exists k :: 0 <= k < |options| && options[k].id == optionId
  }

  predicate DistinctIds(options: seq<PollOption>) {
    forall i, j :: 0 <= i < j < |options| ==> options[i].id != options[j].id
  }

  /** `sum(opt["votes"] for opt in options)`. */
  function SumVotes(options: seq<PollOption>): int {
    if |options| == 0 then 0 else options[0].votes + SumVotes(options[1..])
  }

  /** How many of `votes` chose one of `options`. */
  function CountOffered(votes: seq<Vote>, options: seq<PollOption>): nat {
    if |votes| == 0 then 0
    else (if HasOption(options, votes[0].optionId) then 1 else 0) + CountOffered(votes[1..], options)
  }

  lemma {:induction false} CountOfferedNone(votes: seq<Vote>)
    ensures CountOffered(votes, []) == 0
  {
    if |votes| > 0 {
      CountOfferedNone(votes[1..]);
    }
  }

  /** Counting the votes for a first option and for the remaining ones separately
      gives the count for all of them, when the first option's identifier is not repeated. */
  lemma {:induction false} CountOfferedSplit(votes: seq<Vote>, options: seq<PollOption>)
    requires |options| > 0
    requires !HasOption(options[1..], options[0].id)
    ensures Occurrences(votes, options[0].id) + CountOffered(votes, options[1..]) == CountOffered(votes, options)
  {
    if |votes| > 0 {
      var x := votes[0].optionId;
      if x == options[0].id {
        assert HasOption(options, x);
      } else if HasOption(options[1..], x) {
        var k :| 0 <= k < |options[1..]| && options[1..][k].id == x;
        assert options[k + 1].id == x;
      } else {
        assert !HasOption(options, x) by {
          if k :| 0 <= k < |options| && options[k].id == x {
            assert k != 0;
            assert options[1..][k - 1].id == x;
          }
        }
      }
      CountOfferedSplit(votes[1..], options);
    }
  }

  /** After a recount the options' counts add up to the number of fetched votes
      that chose one of the poll's options (each is counted once, as the options'
      identifiers are distinct). */
  lemma {:induction false} RecountTotal(options: seq<PollOption>, votes: seq<Vote>)
    requires DistinctIds(options)
    ensures SumVotes(Recount(options, VoteCounts(votes))) == CountOffered(votes, options)
  {
    if |options| == 0 {
      CountOfferedNone(votes);
    } else {
      RecountTotal(options[1..], votes);
      assert !HasOption(options[1..], options[0].id);
      CountOfferedSplit(votes, options);
    }
  }

  /** When every fetched vote chose one of the options, all of them are counted. */
  lemma {:induction false} CountOfferedAll(votes: seq<Vote>, options: seq<PollOption>)
    requires forall k :: 0 <= k < |votes| ==> HasOption(options, votes[k].optionId)
    ensures CountOffered(votes, options) == |votes|
  {
    if |votes| > 0 {
      CountOfferedAll(votes[1..], options);
    }
  }

  /** `option["votes"] / total_votes * 100`, or 0 when no votes were counted. */
  function Percentage(votes: int, total: int): (p: real)
    ensures total <= 0 ==> p == 0.0
    ensures 0 <= votes <= total ==> 0.0 <= p <= 100.0
    ensures 0 < total && votes == total ==> p == 100.0
  {
    if total > 0 then
      ShareBounds(votes as real, total as real);
      votes as real / total as real * 100.0
    else 0.0
  }

  /** A part of a positive whole is a share between 0 and 1, and the whole is all of it. */
  lemma ShareBounds(part: real, whole: real)
    requires whole > 0.0
    ensures 0.0 <= part <= whole ==> 0.0 <= part / whole <= 1.0
    ensures part == whole ==> part / whole == 1.0
  {
    var q := part / whole;
    assert q * whole == part;
    if 0.0 <= part <= whole && q > 1.0 {
      assert false;
    }
  }

  /** One result entry per option, in option order. */
  function Results(options: seq<PollOption>, total: int): (r: seq<OptionResult>)
    ensures |r| == |options|
    ensures forall k :: 0 <= k < |r| ==>
      && r[k].option == options[k].text && r[k].votes == options[k].votes
      && r[k].percentage == Percentage(options[k].votes, total)
  {
    if |options| == 0 then []
    else [OptionResult(options[0].text, options[0].votes, Percentage(options[0].votes, total))]
         + Results(options[1..], total)
  }

  function SumPercentages(results: seq<OptionResult>): real {
    if |results| == 0 then 0.0 else results[0].percentage + SumPercentages(results[1..])
  }

  lemma {:induction false} PercentagesScale(options: seq<PollOption>, total: int)
    requires total > 0
    ensures SumPercentages(Results(options, total)) == SumVotes(options) as real / total as real * 100.0
  {
    if |options| > 0 {
      PercentagesScale(options[1..], total);
      var a := options[0].votes as real;
      var b := SumVotes(options[1..]) as real;
      var t := total as real;
      assert a / t * 100.0 + b / t * 100.0 == (a + b) / t * 100.0;
    }
  }

  /** When some vote was counted, the percentages of a poll's results add up to 100. */
  lemma PercentagesSumTo100(options: seq<PollOption>)
    requires SumVotes(options) > 0
    ensures SumPercentages(Results(options, SumVotes(options))) == 100.0
  {
    PercentagesScale(options, SumVotes(options));
    ShareBounds(SumVotes(options) as real, SumVotes(options) as real);
  }
}
