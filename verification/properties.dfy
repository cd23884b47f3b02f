/**
 Properties of the endpoints that relate several calls, or that hold of the
 stores the server can reach: code lookup, duplicate names, vote counting,
 the recount cap, anonymity, and the gaps the server leaves open (repeated
 votes, no approval check).
 */
module Properties {

  import opened Collection
  import opened Model
  import opened Codes
  import opened Tally
  import opened Server
  import opened Invariant

  // Meeting codes

  /** A new meeting is found by its code; it is the meeting found unless an
      earlier live meeting happened to draw the same code. */
  lemma CreatedMeetingFoundByCode(s: Store, data: MeetingCreate, uuid: Uuid4, now: Time)
    ensures var (s', m) := CreateMeeting(s, data, uuid, now);
      && GetMeetingByCode(s', m.meetingCode).Ok?
      && (!HasLiveMeeting(s.meetings, m.meetingCode) ==> GetMeetingByCode(s', m.meetingCode) == Ok(m))
  {
    var (s', m) := CreateMeeting(s, data, uuid, now);
    assert s'.meetings[|s.meetings|] == m;
    if !HasLiveMeeting(s.meetings, m.meetingCode) {
      assert forall i :: 0 <= i < |s.meetings| ==> s'.meetings[i] == s.meetings[i];
    }
  }

  /** Lookup is exact: in a valid store, a string that is not of the generated
      form (a lower-case letter, a wrong length, a letter past F) finds nothing. */
  lemma MalformedCodeNotFound(s: Store, code: string)
    requires MeetingsValid(s.meetings, s.nextId)
    requires !IsMeetingCode(code)
    ensures GetMeetingByCode(s, code) == Err(NotFound(MeetingNotFound))
    ensures forall name: string, now: Time ::
      JoinMeeting(s, ParticipantJoin(name, code), now) == Err(NotFound(MeetingNotFoundOrInactive))
  {
    if HasLiveMeeting(s.meetings, code) {
      assert false;
    }
  }

  /** The code the tests use for an unknown meeting is rejected with 404. */
  lemma UnknownTestCodeNotFound(s: Store, name: string, now: Time)
    requires Valid(s)
    ensures JoinMeeting(s, ParticipantJoin(name, "INVALID123"), now) == Err(NotFound(MeetingNotFoundOrInactive))
  {
    assert !IsUpperHex("INVALID123"[0]);
    MalformedCodeNotFound(s, "INVALID123");
  }

  // Participants

  /** Joining adds one participant under an identifier no stored participant has. */
  lemma JoinAddsOneFreshParticipant(s: Store, join: ParticipantJoin, now: Time)
    requires Valid(s)
    requires JoinMeeting(s, join, now).Ok?
    ensures var (s', p) := JoinMeeting(s, join, now).value;
      && |s'.participants| == |s.participants| + 1
      && !HasParticipant(s.participants, p.id)
      && GetParticipantStatus(s', p.id) == Ok(Pending)
  {
    var (s', p) := JoinMeeting(s, join, now).value;
    assert s'.participants[|s.participants|] == p;
    assert forall j :: 0 <= j < |s.participants| ==> s'.participants[j] == s.participants[j];
  }

  /** The same name cannot join the same meeting twice: the second request gets 400. */
  lemma SecondJoinWithSameNameRejected(s: Store, join: ParticipantJoin, now: Time, later: Time)
    requires JoinMeeting(s, join, now).Ok?
    ensures JoinMeeting(JoinMeeting(s, join, now).value.0, join, later) == Err(BadRequest(NameTaken))
  {
    var (s', p) := JoinMeeting(s, join, now).value;
    assert GetMeetingByCode(s', join.meetingCode) == GetMeetingByCode(s, join.meetingCode);
    assert s'.participants[|s.participants|] == p;
  }

  /** In a valid store the status endpoint reports exactly the stored status. */
  lemma StatusIsStored(s: Store, j: nat)
    requires Valid(s) && j < |s.participants|
    ensures GetParticipantStatus(s, s.participants[j].id) == Ok(s.participants[j].approvalStatus)
  {
    var i := ParticipantIndex(s, s.participants[j].id).value;
    if i != j {
      assert false;
    }
  }

  // Polls

  /** A new poll is listed after the meeting's earlier polls, while the meeting has
      fewer than FetchLimit of them; past that the list is unchanged. The lists of
      other meetings do not change. */
  lemma CreatedPollListedLast(s: Store, meetingId: Id, data: PollCreate, now: Time)
    requires CreatePoll(s, meetingId, data, now).Ok?
    ensures var (s', poll) := CreatePoll(s, meetingId, data, now).value;
      && (|Select(s.polls, OfMeeting(meetingId))| < FetchLimit ==>
            GetMeetingPolls(s', meetingId) == GetMeetingPolls(s, meetingId) + [poll])
      && (|Select(s.polls, OfMeeting(meetingId))| >= FetchLimit ==>
            GetMeetingPolls(s', meetingId) == GetMeetingPolls(s, meetingId))
      && forall m :: m != meetingId ==> GetMeetingPolls(s', m) == GetMeetingPolls(s, m)
  {
    var (s', poll) := CreatePoll(s, meetingId, data, now).value;
    SelectAppend(s.polls, poll, OfMeeting(meetingId));
    if |Select(s.polls, OfMeeting(meetingId))| >= FetchLimit {
      LimitAppend(Select(s.polls, OfMeeting(meetingId)), [poll], FetchLimit);
    }
    forall m | m != meetingId
      ensures GetMeetingPolls(s', m) == GetMeetingPolls(s, m)
    {
      SelectAppend(s.polls, poll, OfMeeting(m));
      assert Select(s.polls, OfMeeting(m)) + [] == Select(s.polls, OfMeeting(m));
    }
  }

  /** The first poll created for a meeting is the first one listed for it. */
  lemma FirstPollListedFirst(s: Store, meetingId: Id, data: PollCreate, now: Time)
    requires CreatePoll(s, meetingId, data, now).Ok?
    requires GetMeetingPolls(s, meetingId) == []
    ensures var (s', poll) := CreatePoll(s, meetingId, data, now).value;
      GetMeetingPolls(s', meetingId)[0] == poll
  {
    CreatedPollListedLast(s, meetingId, data, now);
  }

  // Votes

  lemma {:induction false} OccurrencesAppend(votes: seq<Vote>, v: Vote, o: Id)
    ensures Occurrences(votes + [v], o) == Occurrences(votes, o) + (if v.optionId == o then 1 else 0)
  {
    if |votes| == 0 {
      assert votes + [v] == [v];
    } else {
      assert (votes + [v])[1..] == votes[1..] + [v];
      OccurrencesAppend(votes[1..], v, o);
    }
  }

  /** The votes after an accepted vote: the old ones and the new one at the end. */
  lemma VotesAfterSubmit(s: Store, vote: VoteCreate, now: Time)
    requires SubmitVote(s, vote, now).Ok?
    ensures var s' := SubmitVote(s, vote, now).value.0;
      s'.votes == s.votes + [s'.votes[|s.votes|]]
  {
    var s' := SubmitVote(s, vote, now).value.0;
    assert s'.votes == s'.votes[..|s.votes|] + [s'.votes[|s.votes|]];
  }

  /** A recount after one more vote for the poll adds that vote to its option
      when it is among the fetched votes, and changes nothing otherwise. */
  lemma RecountAfterOneVote(before: Poll, after: Poll, votes: seq<Vote>, v: Vote)
    requires Tallied(before, votes)
    requires RecountedFrom(before, after, votes + [v])
    requires v.pollId == before.id
    ensures |Select(votes, ForPoll(before.id))| < FetchLimit ==>
      forall k :: 0 <= k < |before.options| ==>
        after.options[k].votes == before.options[k].votes + (if before.options[k].id == v.optionId then 1 else 0)
    ensures |Select(votes, ForPoll(before.id))| >= FetchLimit ==>
      forall k :: 0 <= k < |before.options| ==> after.options[k].votes == before.options[k].votes
  {
    FetchVotesAppendSame(votes, v, before.id);
    if |Select(votes, ForPoll(before.id))| < FetchLimit {
      forall k | 0 <= k < |before.options|
        ensures after.options[k].votes == before.options[k].votes + (if before.options[k].id == v.optionId then 1 else 0)
      {
        OccurrencesAppend(FetchVotes(votes, before.id), v, before.options[k].id);
      }
    }
  }

  /** While a poll with up-to-date counts (as in every reachable store) has fewer
      than FetchLimit stored votes, an accepted vote adds exactly one to the chosen
      option and leaves the other options' counts alone. */
  lemma VoteCountedOnce(s: Store, vote: VoteCreate, now: Time)
    requires SubmitVote(s, vote, now).Ok?
    requires Tallied(s.polls[PollIndex(s, vote.pollId).value], s.votes)
    requires |Select(s.votes, ForPoll(vote.pollId))| < FetchLimit
    ensures var s' := SubmitVote(s, vote, now).value.0; var i := PollIndex(s, vote.pollId).value;
      forall k :: 0 <= k < |s.polls[i].options| ==>
        s'.polls[i].options[k].votes ==
          s.polls[i].options[k].votes + (if s.polls[i].options[k].id == vote.optionId then 1 else 0)
  {
    var s' := SubmitVote(s, vote, now).value.0;
    var i := PollIndex(s, vote.pollId).value;
    VotesAfterSubmit(s, vote, now);
    RecountAfterOneVote(s.polls[i], s'.polls[i], s.votes, s'.votes[|s.votes|]);
  }

  /** Once a poll has FetchLimit stored votes, a further vote is accepted and
      stored but no option's count changes. */
  lemma VoteBeyondLimitNotCounted(s: Store, vote: VoteCreate, now: Time)
    requires SubmitVote(s, vote, now).Ok?
    requires Tallied(s.polls[PollIndex(s, vote.pollId).value], s.votes)
    requires |Select(s.votes, ForPoll(vote.pollId))| >= FetchLimit
    ensures var s' := SubmitVote(s, vote, now).value.0; var i := PollIndex(s, vote.pollId).value;
      && |s'.votes| == |s.votes| + 1
      && forall k :: 0 <= k < |s.polls[i].options| ==> s'.polls[i].options[k].votes == s.polls[i].options[k].votes
  {
    var s' := SubmitVote(s, vote, now).value.0;
    var i := PollIndex(s, vote.pollId).value;
    VotesAfterSubmit(s, vote, now);
    RecountAfterOneVote(s.polls[i], s'.polls[i], s.votes, s'.votes[|s.votes|]);
  }

  /** Nothing stops a second identical vote: the poll is still active and the
      option still offered, so the same request is accepted again. */
  lemma RepeatedVoteAccepted(s: Store, vote: VoteCreate, now: Time, later: Time)
    requires SubmitVote(s, vote, now).Ok?
    ensures SubmitVote(SubmitVote(s, vote, now).value.0, vote, later).Ok?
  {
    var s' := SubmitVote(s, vote, now).value.0;
    var i := PollIndex(s, vote.pollId).value;
    assert s'.polls == s.polls[i := s'.polls[i]];
    FindFirstAfterUpdate(s.polls, i, s'.polls[i], (p: Poll) => p.id == vote.pollId);
    assert PollIndex(s', vote.pollId) == Some(i);
    var k :| 0 <= k < |s.polls[i].options| && s.polls[i].options[k].id == vote.optionId;
    assert s'.polls[i].options[k].id == vote.optionId;
  }

  /** Anonymity: whether a vote is accepted, and every collection it writes, are
      the same whatever the stored participants are; nothing about a participant
      reaches the votes, the polls or the log. */
  lemma VoteIndependentOfParticipants(s: Store, participants: seq<Participant>, vote: VoteCreate, now: Time)
    ensures var a := SubmitVote(s, vote, now);
            var b := SubmitVote(s.(participants := participants), vote, now);
      && a.Ok? == b.Ok?
      && (a.Err? ==> a.error == b.error)
      && (a.Ok? ==> b.value.0 == a.value.0.(participants := participants))
  {
  }

  /** Closing a poll makes every later vote on it fail with 400. */
  lemma VoteOnClosedPollRejected(s: Store, vote: VoteCreate, now: Time)
    requires ClosePoll(s, vote.pollId).Ok?
    ensures SubmitVote(ClosePoll(s, vote.pollId).value.0, vote, now) == Err(BadRequest(PollNotActive))
  {
    var s' := ClosePoll(s, vote.pollId).value.0;
    var i := PollIndex(s, vote.pollId).value;
    assert s'.polls == s.polls[i := s'.polls[i]];
    FindFirstAfterUpdate(s.polls, i, s'.polls[i], (p: Poll) => p.id == vote.pollId);
  }

  /** A closed poll can be started again, and then accepts a vote for any of its
      options: no transition out of Closed is refused. */
  lemma ClosedPollReopens(s: Store, vote: VoteCreate, now: Time, later: Time)
    requires ClosePoll(s, vote.pollId).Ok?
    requires HasOption(s.polls[PollIndex(s, vote.pollId).value].options, vote.optionId)
    ensures var closed := ClosePoll(s, vote.pollId).value.0;
      && StartPoll(closed, vote.pollId, later).Ok?
      && SubmitVote(StartPoll(closed, vote.pollId, later).value.0, vote, now).Ok?
  {
    var closed := ClosePoll(s, vote.pollId).value.0;
    var i := PollIndex(s, vote.pollId).value;
    assert closed.polls == s.polls[i := closed.polls[i]];
    FindFirstAfterUpdate(s.polls, i, closed.polls[i], (p: Poll) => p.id == vote.pollId);
    var started := StartPoll(closed, vote.pollId, later).value.0;
    assert started.polls == closed.polls[i := started.polls[i]];
    FindFirstAfterUpdate(closed.polls, i, started.polls[i], (p: Poll) => p.id == vote.pollId);
    assert started.polls[i].options == s.polls[i].options;
  }

  // Results

  /** In a valid store the total reported for a poll is the number of its stored
      votes the recount reads: all of them, up to FetchLimit. */
  lemma TotalIsFetchedVotes(s: Store, pollId: Id)
    requires Valid(s)
    requires GetPollResults(s, pollId).Ok?
    ensures GetPollResults(s, pollId).value.1.totalVotes == |FetchVotes(s.votes, pollId)|
    ensures GetPollResults(s, pollId).value.1.totalVotes ==
      if |Select(s.votes, ForPoll(pollId))| <= FetchLimit then |Select(s.votes, ForPoll(pollId))| else FetchLimit
  {
    var i := PollIndex(s, pollId).value;
    var fetched := FetchVotes(s.votes, pollId);
    forall k | 0 <= k < |fetched|
      ensures HasOption(s.polls[i].options, fetched[k].optionId)
    {
      var n :| 0 <= n < |s.votes| && s.votes[n] == fetched[k];
      assert VoteOnOption(s.polls, s.votes[n]);
      var j :| 0 <= j < |s.polls| && s.polls[j].id == fetched[k].pollId && HasOption(s.polls[j].options, fetched[k].optionId);
      if j != i {
        assert false;
      }
    }
    CountOfferedAll(fetched, s.polls[i].options);
  }

  /** When the poll's counts are up to date, as in every reachable store, asking
      for its results writes nothing new. */
  lemma ResultsOfTalliedPollWriteNothing(s: Store, pollId: Id)
    requires GetPollResults(s, pollId).Ok?
    requires Tallied(s.polls[PollIndex(s, pollId).value], s.votes)
    ensures GetPollResults(s, pollId).value.0 == s
  {
    var s' := GetPollResults(s, pollId).value.0;
    var i := PollIndex(s, pollId).value;
    assert s'.polls[i].options == s.polls[i].options;
    assert s'.polls == s.polls;
  }

  /** A recount repeated at once changes nothing further. */
  lemma RecountIdempotent(s: Store, pollId: Id)
    ensures UpdatePollResults(UpdatePollResults(s, pollId), pollId) == UpdatePollResults(s, pollId)
  {
    var s1 := UpdatePollResults(s, pollId);
    if PollIndex(s, pollId).Some? {
      var i := PollIndex(s, pollId).value;
      assert s1.polls == s.polls[i := s1.polls[i]];
      FindFirstAfterUpdate(s.polls, i, s1.polls[i], (p: Poll) => p.id == pollId);
      assert PollIndex(s1, pollId) == Some(i);
      var s2 := UpdatePollResults(s1, pollId);
      assert s2.polls[i].options == s1.polls[i].options;
      assert s2.polls == s1.polls;
    }
  }

  // Notifications

  /** Whether handling the request calls `send_to_meeting` when it succeeds. */
  predicate Notifies(req: Request) {
    req.JoinRequest? || req.ApproveRequest? || req.StartRequest? || req.CloseRequest? || req.VoteRequest?
  }

  /** Each request appends at most one message to the log, after its change;
      creating a meeting or a poll and reading results append none. */
  lemma OneMessagePerChange(s: Store, req: Request)
    ensures Step(s, req).log == s.log ||
      (Notifies(req) && |Step(s, req).log| == |s.log| + 1 && Step(s, req).log[..|s.log|] == s.log)
    ensures !Notifies(req) ==> Step(s, req).log == s.log
    ensures Notifies(req) && Step(s, req) != s ==> |Step(s, req).log| == |s.log| + 1
  {
  }
}
