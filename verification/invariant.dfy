/**
 The invariant every store reachable from the empty one satisfies, and its
 preservation by every request the server accepts.
 */
module Invariant {

  import opened Collection
  import opened Model
  import opened Codes
  import opened Tally
  import opened Server

  /** The vote chose an option of an existing poll. */
  predicate VoteOnOption(polls: seq<Poll>, v: Vote) {
    exists i :: 0 <= i < |polls| && polls[i].id == v.pollId && HasOption(polls[i].options, v.optionId)
  }

  /** Meeting identifiers are below the counter and increase in insertion order
      (so they are distinct); every code is a generated code. */
  predicate MeetingsValid(meetings: seq<Meeting>, next: Id) {
    && (forall i :: 0 <= i < |meetings| ==> meetings[i].id < next && IsMeetingCode(meetings[i].meetingCode))
    && (forall i, j :: 0 <= i < j < |meetings| ==> meetings[i].id < meetings[j].id)
  }

  /** Participant identifiers are below the counter and increase; every
      participant belongs to a stored meeting. */
  predicate ParticipantsValid(participants: seq<Participant>, meetings: seq<Meeting>, next: Id) {
    && (forall i :: 0 <= i < |participants| ==>
          participants[i].id < next && HasMeeting(meetings, participants[i].meetingId))
    && (forall i, j :: 0 <= i < j < |participants| ==> participants[i].id < participants[j].id)
  }

  /** Poll identifiers are below the counter and increase; every poll belongs to
      a stored meeting and its option identifiers are distinct. */
  predicate PollsValid(polls: seq<Poll>, meetings: seq<Meeting>, next: Id) {
    && (forall i :: 0 <= i < |polls| ==>
          polls[i].id < next && HasMeeting(meetings, polls[i].meetingId) && DistinctIds(polls[i].options))
    && (forall i, j :: 0 <= i < j < |polls| ==> polls[i].id < polls[j].id)
  }

  /** Vote identifiers are below the counter and increase; every vote chose an
      option of its poll. */
  predicate VotesValid(votes: seq<Vote>, polls: seq<Poll>, next: Id) {
    && (forall k :: 0 <= k < |votes| ==> votes[k].id < next && VoteOnOption(polls, votes[k]))
    && (forall k, l :: 0 <= k < l < |votes| ==> votes[k].id < votes[l].id)
  }

  predicate Valid(s: Store) {
    && MeetingsValid(s.meetings, s.nextId)
    && ParticipantsValid(s.participants, s.meetings, s.nextId)
    && PollsValid(s.polls, s.meetings, s.nextId)
    && VotesValid(s.votes, s.polls, s.nextId)
  }

  /** Every option's stored count equals the recount of the poll's fetched votes. */
  predicate Tallied(p: Poll, votes: seq<Vote>) {
    forall k :: 0 <= k < |p.options| ==> p.options[k].votes == Occurrences(FetchVotes(votes, p.id), p.options[k].id)
  }

  predicate TalliesCurrent(polls: seq<Poll>, votes: seq<Vote>) {
    forall i :: 0 <= i < |polls| ==> Tallied(polls[i], votes)
  }

  /** The invariant of every reachable store. */
  predicate Consistent(s: Store) {
    Valid(s) && TalliesCurrent(s.polls, s.votes)
  }

  // Framing: growth of the meetings or of the counter keeps the other collections valid.

  lemma MeetingsExtended(ms: seq<Meeting>, ms': seq<Meeting>, id: Id)
    requires ms <= ms' && HasMeeting(ms, id)
    ensures HasMeeting(ms', id)
  {
    var i :| 0 <= i < |ms| && ms[i].id == id;
    assert ms'[i] == ms[i];
  }

  lemma ParticipantsFramed(ps: seq<Participant>, ms: seq<Meeting>, ms': seq<Meeting>, n: Id, n': Id)
    requires ParticipantsValid(ps, ms, n) && ms <= ms' && n <= n'
    ensures ParticipantsValid(ps, ms', n')
  {
    forall i | 0 <= i < |ps|
      ensures HasMeeting(ms', ps[i].meetingId)
    {
      MeetingsExtended(ms, ms', ps[i].meetingId);
    }
  }

  lemma PollsFramed(polls: seq<Poll>, ms: seq<Meeting>, ms': seq<Meeting>, n: Id, n': Id)
    requires PollsValid(polls, ms, n) && ms <= ms' && n <= n'
    ensures PollsValid(polls, ms', n')
  {
    forall i | 0 <= i < |polls|
      ensures HasMeeting(ms', polls[i].meetingId)
    {
      MeetingsExtended(ms, ms', polls[i].meetingId);
    }
  }

  /** Two poll sequences with the same polls, meetings and option identifiers, position by position. */
  predicate SameShape(a: seq<Poll>, b: seq<Poll>) {
    && |a| == |b|
    && forall i :: 0 <= i < |a| ==>
         && b[i].id == a[i].id && b[i].meetingId == a[i].meetingId
         && |b[i].options| == |a[i].options|
         && forall k :: 0 <= k < |a[i].options| ==> b[i].options[k].id == a[i].options[k].id
  }

  lemma PollsReshaped(a: seq<Poll>, b: seq<Poll>, ms: seq<Meeting>, n: Id)
    requires PollsValid(a, ms, n) && SameShape(a, b)
    ensures PollsValid(b, ms, n)
  {
    forall i | 0 <= i < |b|
      ensures HasMeeting(ms, b[i].meetingId) && DistinctIds(b[i].options)
    {
      assert HasMeeting(ms, a[i].meetingId) && DistinctIds(a[i].options);
    }
  }

  lemma VotesReshaped(votes: seq<Vote>, a: seq<Poll>, b: seq<Poll>, n: Id, n': Id)
    requires VotesValid(votes, a, n) && SameShape(a, b) && n <= n'
    ensures VotesValid(votes, b, n')
  {
    forall k | 0 <= k < |votes|
      ensures VoteOnOption(b, votes[k])
    {
      var i :| 0 <= i < |a| && a[i].id == votes[k].pollId && HasOption(a[i].options, votes[k].optionId);
      var o :| 0 <= o < |a[i].options| && a[i].options[o].id == votes[k].optionId;
      assert b[i].options[o].id == votes[k].optionId;
    }
  }

  lemma VotesFramed(votes: seq<Vote>, polls: seq<Poll>, polls': seq<Poll>, n: Id, n': Id)
    requires VotesValid(votes, polls, n) && polls <= polls' && n <= n'
    ensures VotesValid(votes, polls', n')
  {
    forall k | 0 <= k < |votes|
      ensures VoteOnOption(polls', votes[k])
    {
      var i :| 0 <= i < |polls| && polls[i].id == votes[k].pollId && HasOption(polls[i].options, votes[k].optionId);
      assert polls'[i] == polls[i];
    }
  }

  /** No stored vote names a poll identifier that is not yet in use. */
  lemma NoVotesForFreshPoll(s: Store, id: Id)
    requires Valid(s) && id >= s.nextId
    ensures FetchVotes(s.votes, id) == []
  {
    forall k | 0 <= k < |s.votes|
      ensures s.votes[k].pollId != id
    {
      assert VoteOnOption(s.polls, s.votes[k]);
    }
    SelectNone(s.votes, ForPoll(id));
  }

  // Preservation, request by request

  lemma CreateMeetingKeepsConsistent(s: Store, data: MeetingCreate, uuid: Uuid4, now: Time)
    requires Consistent(s)
    ensures Consistent(CreateMeeting(s, data, uuid, now).0)
  {
    var (s', m) := CreateMeeting(s, data, uuid, now);
    ParticipantsFramed(s.participants, s.meetings, s'.meetings, s.nextId, s'.nextId);
    PollsFramed(s.polls, s.meetings, s'.meetings, s.nextId, s'.nextId);
    VotesFramed(s.votes, s.polls, s'.polls, s.nextId, s'.nextId);
  }

  lemma JoinKeepsConsistent(s: Store, join: ParticipantJoin, now: Time)
    requires Consistent(s)
    ensures JoinMeeting(s, join, now).Ok? ==> Consistent(JoinMeeting(s, join, now).value.0)
  {
    if JoinMeeting(s, join, now).Ok? {
      var (s', p) := JoinMeeting(s, join, now).value;
      var m := GetMeetingByCode(s, join.meetingCode).value;
      var i :| 0 <= i < |s.meetings| && s.meetings[i] == m;
      assert HasMeeting(s.meetings, p.meetingId);
      ParticipantsFramed(s.participants, s.meetings, s.meetings, s.nextId, s'.nextId);
      PollsFramed(s.polls, s.meetings, s'.meetings, s.nextId, s'.nextId);
      VotesFramed(s.votes, s.polls, s'.polls, s.nextId, s'.nextId);
    }
  }

  lemma ApproveKeepsConsistent(s: Store, participantId: Id, approval: ParticipantApproval)
    requires Consistent(s)
    ensures ApproveParticipant(s, participantId, approval).Ok? ==>
      Consistent(ApproveParticipant(s, participantId, approval).value.0)
  {
    if ApproveParticipant(s, participantId, approval).Ok? {
      var (s', _) := ApproveParticipant(s, participantId, approval).value;
      var i := ParticipantIndex(s, participantId).value;
      assert ParticipantsValid(s'.participants, s'.meetings, s'.nextId) by {
        forall j | 0 <= j < |s'.participants|
          ensures s'.participants[j].id == s.participants[j].id
          ensures s'.participants[j].meetingId == s.participants[j].meetingId
        {
        }
      }
    }
  }

  /** Appending a poll of a stored meeting, with a fresh identifier and distinct
      option identifiers, keeps the polls valid. */
  lemma PollAppended(polls: seq<Poll>, ms: seq<Meeting>, n: Id, n': Id, poll: Poll)
    requires PollsValid(polls, ms, n) && n <= poll.id < n'
    requires HasMeeting(ms, poll.meetingId) && DistinctIds(poll.options)
    ensures PollsValid(polls + [poll], ms, n')
  {
  }

  /** A poll appended with no votes on it leaves every poll's counts up to date. */
  lemma PollAppendedTallied(polls: seq<Poll>, votes: seq<Vote>, poll: Poll)
    requires TalliesCurrent(polls, votes)
    requires FetchVotes(votes, poll.id) == []
    requires forall k :: 0 <= k < |poll.options| ==> poll.options[k].votes == 0
    ensures TalliesCurrent(polls + [poll], votes)
  {
    forall i | 0 <= i < |polls + [poll]|
      ensures Tallied((polls + [poll])[i], votes)
    {
      if i < |polls| {
        assert (polls + [poll])[i] == polls[i];
      }
    }
  }

  lemma CreatePollKeepsConsistent(s: Store, meetingId: Id, data: PollCreate, now: Time)
    requires Consistent(s)
    ensures CreatePoll(s, meetingId, data, now).Ok? ==> Consistent(CreatePoll(s, meetingId, data, now).value.0)
  {
    if CreatePoll(s, meetingId, data, now).Ok? {
      var (s', poll) := CreatePoll(s, meetingId, data, now).value;
      ParticipantsFramed(s.participants, s.meetings, s'.meetings, s.nextId, s'.nextId);
      PollAppended(s.polls, s.meetings, s.nextId, s'.nextId, poll);
      VotesFramed(s.votes, s.polls, s'.polls, s.nextId, s'.nextId);
      NoVotesForFreshPoll(s, poll.id);
      PollAppendedTallied(s.polls, s.votes, poll);
    }
  }

  /** A change to one poll that keeps its shape and its options keeps the store consistent. */
  lemma StatusChangeKeepsConsistent(s: Store, s': Store, i: nat)
    requires Consistent(s) && i < |s.polls|
    requires s'.meetings == s.meetings && s'.participants == s.participants && s'.votes == s.votes
    requires s'.nextId == s.nextId
    requires OthersUnchanged(s.polls, s'.polls, i)
    requires s'.polls[i].id == s.polls[i].id && s'.polls[i].meetingId == s.polls[i].meetingId
    requires s'.polls[i].options == s.polls[i].options
    ensures Consistent(s')
  {
    assert SameShape(s.polls, s'.polls);
    PollsReshaped(s.polls, s'.polls, s.meetings, s.nextId);
    VotesReshaped(s.votes, s.polls, s'.polls, s.nextId, s.nextId);
    assert Tallied(s.polls[i], s.votes);
  }

  lemma StartKeepsConsistent(s: Store, pollId: Id, now: Time)
    requires Consistent(s)
    ensures StartPoll(s, pollId, now).Ok? ==> Consistent(StartPoll(s, pollId, now).value.0)
  {
    if StartPoll(s, pollId, now).Ok? {
      var (s', _) := StartPoll(s, pollId, now).value;
      StatusChangeKeepsConsistent(s, s', PollIndex(s, pollId).value);
    }
  }

  lemma CloseKeepsConsistent(s: Store, pollId: Id)
    requires Consistent(s)
    ensures ClosePoll(s, pollId).Ok? ==> Consistent(ClosePoll(s, pollId).value.0)
  {
    if ClosePoll(s, pollId).Ok? {
      var (s', _) := ClosePoll(s, pollId).value;
      StatusChangeKeepsConsistent(s, s', PollIndex(s, pollId).value);
    }
  }

  /** A recount in a valid store whose other polls are tallied makes it consistent:
      the recounted poll is tallied from the very votes the invariant speaks of. */
  lemma UpdateKeepsConsistent(s: Store, pollId: Id)
    requires Valid(s)
    requires forall i :: 0 <= i < |s.polls| && s.polls[i].id != pollId ==> Tallied(s.polls[i], s.votes)
    requires PollIndex(s, pollId).Some?
    ensures Consistent(UpdatePollResults(s, pollId))
  {
    var s' := UpdatePollResults(s, pollId);
    var i := PollIndex(s, pollId).value;
    assert SameShape(s.polls, s'.polls);
    PollsReshaped(s.polls, s'.polls, s.meetings, s.nextId);
    VotesReshaped(s.votes, s.polls, s'.polls, s.nextId, s.nextId);
    forall j | 0 <= j < |s'.polls|
      ensures Tallied(s'.polls[j], s'.votes)
    {
      if j != i {
        assert s.polls[j].id != s.polls[i].id by {
          if j < i {
            assert s.polls[j].id < s.polls[i].id;
          } else {
            assert s.polls[i].id < s.polls[j].id;
          }
        }
      }
    }
  }

  lemma ResultsKeepConsistent(s: Store, pollId: Id)
    requires Consistent(s)
    ensures GetPollResults(s, pollId).Ok? ==> Consistent(GetPollResults(s, pollId).value.0)
  {
    if GetPollResults(s, pollId).Ok? {
      UpdateKeepsConsistent(s, pollId);
    }
  }

  /** Storing a vote on an option of an existing poll, under a fresh identifier, keeps the store valid. */
  lemma StoredVoteKeepsValid(s: Store, v: Vote)
    requires Valid(s) && v.id == s.nextId && VoteOnOption(s.polls, v)
    ensures Valid(s.(votes := s.votes + [v], nextId := s.nextId + 1))
  {
    ParticipantsFramed(s.participants, s.meetings, s.meetings, s.nextId, s.nextId + 1);
    PollsFramed(s.polls, s.meetings, s.meetings, s.nextId, s.nextId + 1);
  }

  /** Storing a vote leaves the recount of every other poll as it was. */
  lemma StoredVoteKeepsOtherTallies(polls: seq<Poll>, votes: seq<Vote>, v: Vote)
    requires TalliesCurrent(polls, votes)
    ensures forall j :: 0 <= j < |polls| && polls[j].id != v.pollId ==> Tallied(polls[j], votes + [v])
  {
    forall j | 0 <= j < |polls| && polls[j].id != v.pollId
      ensures Tallied(polls[j], votes + [v])
    {
      FetchVotesAppendOther(votes, v, polls[j].id);
      assert Tallied(polls[j], votes);
    }
  }

  /** The store an accepted vote leaves: the vote stored, then the poll recounted. */
  lemma SubmitVoteStore(s: Store, vote: VoteCreate, now: Time)
    requires SubmitVote(s, vote, now).Ok?
    ensures var stored := s.(votes := s.votes + [Vote(s.nextId, vote.pollId, vote.optionId, now)], nextId := s.nextId + 1);
      SubmitVote(s, vote, now).value.0 == UpdatePollResults(stored, vote.pollId).(log := SubmitVote(s, vote, now).value.0.log)
  {
  }

  lemma VoteKeepsConsistent(s: Store, vote: VoteCreate, now: Time)
    requires Consistent(s)
    ensures SubmitVote(s, vote, now).Ok? ==> Consistent(SubmitVote(s, vote, now).value.0)
  {
    if SubmitVote(s, vote, now).Ok? {
      var v := Vote(s.nextId, vote.pollId, vote.optionId, now);
      var stored := s.(votes := s.votes + [v], nextId := s.nextId + 1);
      var i := PollIndex(s, vote.pollId).value;
      assert s.polls[i].id == vote.pollId && HasOption(s.polls[i].options, vote.optionId);
      assert VoteOnOption(s.polls, v);
      StoredVoteKeepsValid(s, v);
      StoredVoteKeepsOtherTallies(s.polls, s.votes, v);
      UpdateKeepsConsistent(stored, vote.pollId);
      SubmitVoteStore(s, vote, now);
    }
  }

  /** The requests that can change the store; read-only endpoints leave it as it is. */
  datatype Request =
    | CreateMeetingRequest(data: MeetingCreate, uuid: Uuid4, now: Time)
    | JoinRequest(join: ParticipantJoin, now: Time)
    | ApproveRequest(participantId: Id, approval: ParticipantApproval)
    | CreatePollRequest(meetingId: Id, poll: PollCreate, now: Time)
    | StartRequest(pollId: Id, now: Time)
    | CloseRequest(pollId: Id)
    | VoteRequest(vote: VoteCreate, now: Time)
    | ResultsRequest(pollId: Id)

  /** The store after handling one request; a request answered with an error leaves it unchanged. */
  function Step(s: Store, req: Request): Store {
    match req
    case CreateMeetingRequest(data, uuid, now) => CreateMeeting(s, data, uuid, now).0
    case JoinRequest(join, now) =>
      (match JoinMeeting(s, join, now) case Ok((s', _)) => s' case Err(_) => s)
    case ApproveRequest(id, approval) =>
      (match ApproveParticipant(s, id, approval) case Ok((s', _)) => s' case Err(_) => s)
    case CreatePollRequest(id, poll, now) =>
      (match CreatePoll(s, id, poll, now) case Ok((s', _)) => s' case Err(_) => s)
    case StartRequest(id, now) =>
      (match StartPoll(s, id, now) case Ok((s', _)) => s' case Err(_) => s)
    case CloseRequest(id) =>
      (match ClosePoll(s, id) case Ok((s', _)) => s' case Err(_) => s)
    case VoteRequest(vote, now) =>
      (match SubmitVote(s, vote, now) case Ok((s', _)) => s' case Err(_) => s)
    case ResultsRequest(id) =>
      (match GetPollResults(s, id) case Ok((s', _)) => s' case Err(_) => s)
  }

  /** The store after handling the requests in order. */
  function Run(s: Store, reqs: seq<Request>): Store
    decreases |reqs|
  {
    if |reqs| == 0 then s else Run(Step(s, reqs[0]), reqs[1..])
  }

  lemma StepKeepsConsistent(s: Store, req: Request)
    requires Consistent(s)
    ensures Consistent(Step(s, req))
  {
    match req
    case CreateMeetingRequest(data, uuid, now) => CreateMeetingKeepsConsistent(s, data, uuid, now);
    case JoinRequest(join, now) => JoinKeepsConsistent(s, join, now);
    case ApproveRequest(id, approval) => ApproveKeepsConsistent(s, id, approval);
    case CreatePollRequest(id, poll, now) => CreatePollKeepsConsistent(s, id, poll, now);
    case StartRequest(id, now) => StartKeepsConsistent(s, id, now);
    case CloseRequest(id) => CloseKeepsConsistent(s, id);
    case VoteRequest(vote, now) => VoteKeepsConsistent(s, vote, now);
    case ResultsRequest(id) => ResultsKeepConsistent(s, id);
  }

  /** Every store reachable from a consistent one by any sequence of requests is consistent. */
  lemma {:induction false} RunKeepsConsistent(s: Store, reqs: seq<Request>)
    requires Consistent(s)
    ensures Consistent(Run(s, reqs))
    decreases |reqs|
  {
    if |reqs| > 0 {
      StepKeepsConsistent(s, reqs[0]);
      RunKeepsConsistent(Step(s, reqs[0]), reqs[1..]);
    }
  }

  /** The server starts from empty collections, so every store it reaches is consistent. */
  lemma ReachableConsistent(reqs: seq<Request>)
    ensures Consistent(Run(EmptyStore, reqs))
  {
    RunKeepsConsistent(EmptyStore, reqs);
  }
}
