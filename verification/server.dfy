/**
 The HTTP endpoints of the voting server, each a pure operation on the store.
 An endpoint that changes the store returns the new store together with its
 response, or the HTTP error it raises; each call to `send_to_meeting` is
 appended to the store's log after the change it reports.
 */
module Server {

  import opened Collection
  import opened Model
  import opened Codes
  import opened Tally

  // Queries

  predicate LiveWithCode(m: Meeting, code: string) {
    m.meetingCode == code && m.status == MeetingActive
  }

  /** `find_one({"meeting_code": code, "status": "active"})` on meetings. */
  function LiveMeetingIndex(s: Store, code: string): Option<nat> {
    FindFirst(s.meetings, (m: Meeting) => LiveWithCode(m, code))
  }

  /** `find_one({"id": id})` on meetings. */
  function MeetingIndex(s: Store, id: Id): Option<nat> {
    FindFirst(s.meetings, (m: Meeting) => m.id == id)
  }

  /** `find_one({"id": id})` on participants. */
  function ParticipantIndex(s: Store, id: Id): Option<nat> {
    FindFirst(s.participants, (p: Participant) => p.id == id)
  }

  /** `find_one({"name": name, "meeting_id": meetingId})` on participants. */
  function NamesakeIndex(s: Store, meetingId: Id, name: string): Option<nat> {
    FindFirst(s.participants, (p: Participant) => p.name == name && p.meetingId == meetingId)
  }

  /** `find_one({"id": id})` on polls. */
  function PollIndex(s: Store, id: Id): Option<nat> {
    FindFirst(s.polls, (p: Poll) => p.id == id)
  }

  predicate HasLiveMeeting(meetings: seq<Meeting>, code: string) {
    exists i :: 0 <= i < |meetings| && LiveWithCode(meetings[i], code)
  }

  predicate HasMeeting(meetings: seq<Meeting>, id: Id) {
    exists i :: 0 <= i < |meetings| && meetings[i].id == id
  }

  predicate HasParticipant(participants: seq<Participant>, id: Id) {
    exists j :: 0 <= j < |participants| && participants[j].id == id
  }

  predicate NameTakenIn(participants: seq<Participant>, meetingId: Id, name: string) {
    exists j :: 0 <= j < |participants| && participants[j].name == name && participants[j].meetingId == meetingId
  }

  predicate HasPoll(polls: seq<Poll>, id: Id) {
    exists i :: 0 <= i < |polls| && polls[i].id == id
  }

  /** Python truthiness of `timer_duration`: None and 0 are false, every other integer true. */
  predicate TimerSet(duration: Option<int>) {
    duration.Some? && duration.value != 0
  }

  /** `after` is `before` with every option's count replaced by the number of
      fetched votes of `votes` that chose it; identifiers, texts and order are kept. */
  predicate RecountedFrom(before: Poll, after: Poll, votes: seq<Vote>) {
    && after == before.(options := after.options)
    && |after.options| == |before.options|
    && forall k :: 0 <= k < |after.options| ==>
         && after.options[k].id == before.options[k].id
         && after.options[k].text == before.options[k].text
         && after.options[k].votes == Occurrences(FetchVotes(votes, before.id), before.options[k].id)
  }

  /** Only the poll at index `i` may differ between the two sequences. */
  predicate OthersUnchanged(before: seq<Poll>, after: seq<Poll>, i: nat) {
    && |after| == |before|
    && forall j :: 0 <= j < |before| && j != i ==> after[j] == before[j]
  }

  // Meetings

  /** POST /meetings. `uuid` is the random uuid the meeting code is cut from. */
  function CreateMeeting(s: Store, data: MeetingCreate, uuid: Uuid4, now: Time): (r: (Store, Meeting))
    ensures var (s', m) := r;
      && m.title == data.title && m.organizerName == data.organizerName
      && m.status == MeetingActive && m.createdAt == now
      && IsMeetingCode(m.meetingCode) && Lower(m.meetingCode) == uuid[..CodeLength]
      && s.nextId <= m.id < s'.nextId
      && s'.meetings == s.meetings + [m]
      && s'.participants == s.participants && s'.polls == s.polls && s'.votes == s.votes
      && s'.log == s.log
  {
    var m := Meeting(s.nextId, data.title, data.organizerName, CodeFromUuid(uuid), MeetingActive, now);
    (s.(meetings := s.meetings + [m], nextId := s.nextId + 1), m)
  }

  /** GET /meetings/{meeting_code}: the code must match exactly and the meeting be active. */
  function GetMeetingByCode(s: Store, code: string): (r: Result<Meeting>)
    ensures r.Ok? <==> HasLiveMeeting(s.meetings, code)
    ensures r.Ok? ==> r.value in s.meetings && LiveWithCode(r.value, code)
    ensures r.Err? ==> r.error == NotFound(MeetingNotFound)
  {
    match LiveMeetingIndex(s, code)
    case None => Err(NotFound(MeetingNotFound))
    case Some(i) => Ok(s.meetings[i])
  }

  // Participants

  /** POST /participants/join. */
  function JoinMeeting(s: Store, join: ParticipantJoin, now: Time): (r: Result<(Store, Participant)>)
    ensures r == Err(NotFound(MeetingNotFoundOrInactive)) <==> !HasLiveMeeting(s.meetings, join.meetingCode)
    ensures r == Err(BadRequest(NameTaken)) <==>
      && GetMeetingByCode(s, join.meetingCode).Ok?
      && NameTakenIn(s.participants, GetMeetingByCode(s, join.meetingCode).value.id, join.name)
    ensures r.Ok? <==>
      && GetMeetingByCode(s, join.meetingCode).Ok?
      && !NameTakenIn(s.participants, GetMeetingByCode(s, join.meetingCode).value.id, join.name)
    ensures r.Err? ==> (r.error.StatusCode() == 404 <==> !HasLiveMeeting(s.meetings, join.meetingCode))
    ensures r.Ok? ==> var (s', p) := r.value;
      && p.meetingId == GetMeetingByCode(s, join.meetingCode).value.id
      && p.name == join.name && p.approvalStatus == Pending && p.joinedAt == now
      && s.nextId <= p.id < s'.nextId
      && s'.participants == s.participants + [p]
      && s'.meetings == s.meetings && s'.polls == s.polls && s'.votes == s.votes
      && s'.log == s.log + [ParticipantJoined(p.meetingId, p)]
  {
    match LiveMeetingIndex(s, join.meetingCode)
    case None => Err(NotFound(MeetingNotFoundOrInactive))
    case Some(i) =>
      var meeting := s.meetings[i];
      if NamesakeIndex(s, meeting.id, join.name).Some? then Err(BadRequest(NameTaken))
      else
        var p := Participant(s.nextId, join.name, meeting.id, Pending, now);
        var s' := s.(participants := s.participants + [p], nextId := s.nextId + 1);
        Ok((s'.(log := s'.log + [ParticipantJoined(meeting.id, p)]), p))
  }

  /** The status an approval decision sets. */
  function Decision(approved: bool): ParticipantStatus {
    if approved then Approved else Rejected
  }

  /** POST /participants/{participant_id}/approve. The participant is the one named
      in the path; the identifier inside the request body is not read. */
  function ApproveParticipant(s: Store, participantId: Id, approval: ParticipantApproval): (r: Result<(Store, Ack)>)
    ensures r.Err? <==> !HasParticipant(s.participants, participantId)
    ensures r.Err? ==> r.error == NotFound(ParticipantNotFound)
    ensures r.Ok? ==> var (s', ack) := r.value; var i := ParticipantIndex(s, participantId).value;
      && ack == Ack("success")
      && GetParticipantStatus(s', participantId) == Ok(Decision(approval.approved))
      && |s'.participants| == |s.participants|
      && s'.participants[i] == s.participants[i].(approvalStatus := Decision(approval.approved))
      && (forall j :: 0 <= j < |s.participants| && j != i ==> s'.participants[j] == s.participants[j])
      && s'.meetings == s.meetings && s'.polls == s.polls && s'.votes == s.votes && s'.nextId == s.nextId
      && s'.log == s.log + [ParticipantApproved(s.participants[i].meetingId, participantId, Decision(approval.approved))]
  {
    match ParticipantIndex(s, participantId)
    case None => Err(NotFound(ParticipantNotFound))
    case Some(i) =>
      var p := s.participants[i];
      var status := Decision(approval.approved);
      var s' := s.(participants := s.participants[i := p.(approvalStatus := status)]);
      FindFirstAfterUpdate(s.participants, i, p.(approvalStatus := status), (q: Participant) => q.id == participantId);
      Ok((s'.(log := s'.log + [ParticipantApproved(p.meetingId, participantId, status)]), Ack("success")))
  }

  /** GET /participants/{participant_id}/status. */
  function GetParticipantStatus(s: Store, participantId: Id): (r: Result<ParticipantStatus>)
    ensures r.Err? <==> !HasParticipant(s.participants, participantId)
    ensures r.Err? ==> r.error == NotFound(ParticipantNotFound)
    ensures r.Ok? ==>
      exists j :: 0 <= j < |s.participants| && s.participants[j].id == participantId && s.participants[j].approvalStatus == r.value
  {
    match ParticipantIndex(s, participantId)
    case None => Err(NotFound(ParticipantNotFound))
    case Some(i) => Ok(s.participants[i].approvalStatus)
  }

  // Polls

  /** Fresh options for the given texts, numbered from `firstId`, each with no votes. */
  function NewOptions(texts: seq<string>, firstId: Id): (r: seq<PollOption>)
    ensures |r| == |texts|
    ensures forall k :: 0 <= k < |r| ==>
      r[k].text == texts[k] && r[k].votes == 0 && firstId <= r[k].id < firstId + |texts|
    ensures DistinctIds(r)
  {
    seq(|texts|, k requires 0 <= k < |texts| => PollOption(firstId + k, texts[k], 0))
  }

  /** POST /meetings/{meeting_id}/polls. The meeting's status is not checked. */
  function CreatePoll(s: Store, meetingId: Id, data: PollCreate, now: Time): (r: Result<(Store, Poll)>)
    ensures r.Err? <==> !HasMeeting(s.meetings, meetingId)
    ensures r.Err? ==> r.error == NotFound(MeetingNotFound)
    ensures r.Ok? ==> var (s', poll) := r.value;
      && poll.meetingId == meetingId && poll.question == data.question
      && poll.status == Draft && poll.createdAt == now
      && poll.timerDuration == data.timerDuration && poll.timerStartedAt == None
      && |poll.options| == |data.options|
      && (forall k :: 0 <= k < |poll.options| ==>
            poll.options[k].text == data.options[k] && poll.options[k].votes == 0)
      && DistinctIds(poll.options)
      && s.nextId <= poll.id < s'.nextId
      && (forall k :: 0 <= k < |poll.options| ==> s.nextId <= poll.options[k].id < s'.nextId)
      && s'.polls == s.polls + [poll]
      && s'.meetings == s.meetings && s'.participants == s.participants && s'.votes == s.votes
      && s'.log == s.log
  {
    match MeetingIndex(s, meetingId)
    case None => Err(NotFound(MeetingNotFound))
    case Some(_) =>
      var options := NewOptions(data.options, s.nextId + 1);
      var poll := Poll(s.nextId, meetingId, data.question, options, Draft, data.timerDuration, None, now);
      Ok((s.(polls := s.polls + [poll], nextId := s.nextId + 1 + |options|), poll))
  }

  /** POST /polls/{poll_id}/start: the poll becomes active whatever its status was. */
  function StartPoll(s: Store, pollId: Id, now: Time): (r: Result<(Store, Ack)>)
    ensures r.Err? <==> !HasPoll(s.polls, pollId)
    ensures r.Err? ==> r.error == NotFound(PollNotFound)
    ensures r.Ok? ==> var (s', ack) := r.value; var i := PollIndex(s, pollId).value;
      && ack == Ack("started")
      && OthersUnchanged(s.polls, s'.polls, i)
      && s'.polls[i].status == Active
      && (s'.polls[i].timerStartedAt.Some? <==> TimerSet(s.polls[i].timerDuration))
      && (s'.polls[i].timerStartedAt.Some? ==> s'.polls[i].timerStartedAt.value == now)
      && s'.polls[i] == s.polls[i].(status := Active, timerStartedAt := s'.polls[i].timerStartedAt)
      && s'.meetings == s.meetings && s'.participants == s.participants && s'.votes == s.votes
      && s'.nextId == s.nextId
      && s'.log == s.log + [PollStarted(s.polls[i].meetingId, pollId)]
  {
    match PollIndex(s, pollId)
    case None => Err(NotFound(PollNotFound))
    case Some(i) =>
      var poll := s.polls[i];
      var started := if TimerSet(poll.timerDuration) then Some(now) else None;
      var s' := s.(polls := s.polls[i := poll.(status := Active, timerStartedAt := started)]);
      Ok((s'.(log := s'.log + [PollStarted(poll.meetingId, pollId)]), Ack("started")))
  }

  /** POST /polls/{poll_id}/close: the poll becomes closed whatever its status was. */
  function ClosePoll(s: Store, pollId: Id): (r: Result<(Store, Ack)>)
    ensures r.Err? <==> !HasPoll(s.polls, pollId)
    ensures r.Err? ==> r.error == NotFound(PollNotFound)
    ensures r.Ok? ==> var (s', ack) := r.value; var i := PollIndex(s, pollId).value;
      && ack == Ack("closed")
      && OthersUnchanged(s.polls, s'.polls, i)
      && s'.polls[i] == s.polls[i].(status := Closed)
      && s'.meetings == s.meetings && s'.participants == s.participants && s'.votes == s.votes
      && s'.nextId == s.nextId
      && s'.log == s.log + [PollClosed(s.polls[i].meetingId, pollId)]
  {
    match PollIndex(s, pollId)
    case None => Err(NotFound(PollNotFound))
    case Some(i) =>
      var poll := s.polls[i];
      var s' := s.(polls := s.polls[i := poll.(status := Closed)]);
      Ok((s'.(log := s'.log + [PollClosed(poll.meetingId, pollId)]), Ack("closed")))
  }

  /** Whether a poll belongs to the meeting `meetingId`. */
  function OfMeeting(meetingId: Id): Poll -> bool {
    (p: Poll) => p.meetingId == meetingId
  }

  /** GET /meetings/{meeting_id}/polls: the meeting's first FetchLimit polls, each
      as often as it is stored; an unknown meeting gives an empty list, not an error.
      Properties.CreatedPollListedLast states the order. */
  function GetMeetingPolls(s: Store, meetingId: Id): (r: seq<Poll>)
    ensures |r| <= FetchLimit
    ensures forall k :: 0 <= k < |r| ==> r[k] in s.polls && r[k].meetingId == meetingId
    ensures multiset(r) <= multiset(s.polls)
    ensures |Select(s.polls, OfMeeting(meetingId))| <= FetchLimit ==>
      forall x :: multiset(r)[x] == if x.meetingId == meetingId then multiset(s.polls)[x] else 0
  {
    SelectCounts(s.polls, OfMeeting(meetingId));
    Limit(Select(s.polls, OfMeeting(meetingId)), FetchLimit)
  }

  // Votes

  /** `update_poll_results`: recount every option of the poll from its first
      FetchLimit stored votes; an unknown poll leaves the store as it is. */
  function UpdatePollResults(s: Store, pollId: Id): (s': Store)
    ensures s'.meetings == s.meetings && s'.participants == s.participants && s'.votes == s.votes
    ensures s'.nextId == s.nextId && s'.log == s.log
    ensures PollIndex(s, pollId).None? ==> s' == s
    ensures PollIndex(s, pollId).Some? ==> var i := PollIndex(s, pollId).value;
      && OthersUnchanged(s.polls, s'.polls, i)
      && RecountedFrom(s.polls[i], s'.polls[i], s.votes)
  {
    var counts := VoteCounts(FetchVotes(s.votes, pollId));
    match PollIndex(s, pollId)
    case None => s
    case Some(i) =>
      s.(polls := s.polls[i := s.polls[i].(options := Recount(s.polls[i].options, counts))])
  }

  /** POST /votes. The request names no participant: neither approval nor an
      earlier vote by the same person is checked, and the stored vote is anonymous. */
  function SubmitVote(s: Store, vote: VoteCreate, now: Time): (r: Result<(Store, Ack)>)
    ensures r == Err(NotFound(PollNotFound)) <==> !HasPoll(s.polls, vote.pollId)
    ensures r == Err(BadRequest(PollNotActive)) <==>
      PollIndex(s, vote.pollId).Some? && s.polls[PollIndex(s, vote.pollId).value].status != Active
    ensures r == Err(BadRequest(InvalidOption)) <==>
      && PollIndex(s, vote.pollId).Some?
      && s.polls[PollIndex(s, vote.pollId).value].status == Active
      && !HasOption(s.polls[PollIndex(s, vote.pollId).value].options, vote.optionId)
    ensures r.Ok? <==>
      && PollIndex(s, vote.pollId).Some?
      && s.polls[PollIndex(s, vote.pollId).value].status == Active
      && HasOption(s.polls[PollIndex(s, vote.pollId).value].options, vote.optionId)
    ensures r.Err? ==> (r.error.StatusCode() == 404 <==> !HasPoll(s.polls, vote.pollId))
    ensures r.Ok? ==> var (s', ack) := r.value; var i := PollIndex(s, vote.pollId).value;
      && ack == Ack("vote_submitted")
      && |s'.votes| == |s.votes| + 1 && s'.votes[..|s.votes|] == s.votes
      && s'.votes[|s.votes|].pollId == vote.pollId && s'.votes[|s.votes|].optionId == vote.optionId
      && s'.votes[|s.votes|].votedAt == now
      && s.nextId <= s'.votes[|s.votes|].id < s'.nextId
      && OthersUnchanged(s.polls, s'.polls, i)
      && RecountedFrom(s.polls[i], s'.polls[i], s'.votes)
      && s'.meetings == s.meetings && s'.participants == s.participants
      && s'.log == s.log + [VoteSubmitted(s.polls[i].meetingId, s'.polls[i])]
  {
    match PollIndex(s, vote.pollId)
    case None => Err(NotFound(PollNotFound))
    case Some(i) =>
      var poll := s.polls[i];
      if poll.status != Active then Err(BadRequest(PollNotActive))
      else if !HasOption(poll.options, vote.optionId) then Err(BadRequest(InvalidOption))
      else
        var stored := s.(votes := s.votes + [Vote(s.nextId, vote.pollId, vote.optionId, now)],
                         nextId := s.nextId + 1);
        var s' := UpdatePollResults(stored, vote.pollId);
        Ok((s'.(log := s'.log + [VoteSubmitted(poll.meetingId, s'.polls[i])]), Ack("vote_submitted")))
  }

  /** GET /polls/{poll_id}/results: recounts the poll (a write), then reports each
      option's count and share in option order. */
  function GetPollResults(s: Store, pollId: Id): (r: Result<(Store, PollResults)>)
    ensures r.Err? <==> !HasPoll(s.polls, pollId)
    ensures r.Err? ==> r.error == NotFound(PollNotFound)
    ensures r.Ok? ==> var (s', res) := r.value; var i := PollIndex(s, pollId).value;
      && s' == UpdatePollResults(s, pollId)
      && res.question == s.polls[i].question
      && |res.results| == |s.polls[i].options|
      && (forall k :: 0 <= k < |res.results| ==>
            && res.results[k].option == s.polls[i].options[k].text
            && res.results[k].votes == Occurrences(FetchVotes(s.votes, pollId), s.polls[i].options[k].id))
      && (DistinctIds(s.polls[i].options) ==>
            res.totalVotes == CountOffered(FetchVotes(s.votes, pollId), s.polls[i].options))
      && (res.totalVotes == 0 ==> forall k :: 0 <= k < |res.results| ==> res.results[k].percentage == 0.0)
      && (res.totalVotes > 0 ==> forall k :: 0 <= k < |res.results| ==>
            res.results[k].percentage == res.results[k].votes as real / res.totalVotes as real * 100.0)
      && (res.totalVotes > 0 ==> SumPercentages(res.results) == 100.0)
  {
    match PollIndex(s, pollId)
    case None => Err(NotFound(PollNotFound))
    case Some(i) =>
      var s' := UpdatePollResults(s, pollId);
      var updated := s'.polls[i];
      var total := SumVotes(updated.options);
      var results := Results(updated.options, total);
      assert DistinctIds(s.polls[i].options) ==> total == CountOffered(FetchVotes(s.votes, pollId), s.polls[i].options) by {
        if DistinctIds(s.polls[i].options) {
          assert updated.options == Recount(s.polls[i].options, VoteCounts(FetchVotes(s.votes, pollId)));
          RecountTotal(s.polls[i].options, FetchVotes(s.votes, pollId));
        }
      }
      assert total > 0 ==> SumPercentages(results) == 100.0 by {
        if total > 0 {
          PercentagesSumTo100(updated.options);
        }
      }
      Ok((s', PollResults(updated.question, results, total)))
  }
}
