/**
 The entities of the voting server (its enums and its records) and the abstract
 store standing for its four document collections: meetings, participants,
 polls and votes.
 */
module Model {

  import opened Collection

  /** Identifiers: the server draws a fresh uuid for every record; here they are
      drawn from a counter kept in the store, which makes them fresh and distinct. */
  type Id = nat

  /** A point in time, as `datetime.utcnow()` would return; supplied by the caller. */
  type Time = nat

  datatype ParticipantStatus = Pending | Approved | Rejected

  datatype PollStatus = Draft | Active | Closed

  datatype MeetingStatus = MeetingActive | MeetingCompleted

  datatype Meeting = Meeting(
    id: Id,
    title: string,
    organizerName: string,
    meetingCode: string,
    status: MeetingStatus,
    createdAt: Time)

  datatype Participant = Participant(
    id: Id,
    name: string,
    meetingId: Id,
    approvalStatus: ParticipantStatus,
    joinedAt: Time)

  datatype PollOption = PollOption(id: Id, text: string, votes: int)

  datatype Poll = Poll(
    id: Id,
    meetingId: Id,
    question: string,
    options: seq<PollOption>,
    status: PollStatus,
    timerDuration: Option<int>,
    timerStartedAt: Option<Time>,
    createdAt: Time)

  /** A stored vote names the poll and the option only: it has no participant field. */
  datatype Vote = Vote(id: Id, pollId: Id, optionId: Id, votedAt: Time)

  // Request bodies

  datatype MeetingCreate = MeetingCreate(title: string, organizerName: string)

  datatype ParticipantJoin = ParticipantJoin(name: string, meetingCode: string)

  datatype ParticipantApproval = ParticipantApproval(participantId: Id, approved: bool)

  datatype PollCreate = PollCreate(question: string, options: seq<string>, timerDuration: Option<int>)

  datatype VoteCreate = VoteCreate(pollId: Id, optionId: Id)

  // Responses

  /** The `{"status": ...}` acknowledgement several endpoints answer with. */
  datatype Ack = Ack(status: string)

  datatype OptionResult = OptionResult(option: string, votes: int, percentage: real)

  datatype PollResults = PollResults(question: string, results: seq<OptionResult>, totalVotes: int)

  /** The HTTP errors the endpoints raise, with the server's detail messages. */
  datatype Error = NotFound(detail: string) | BadRequest(detail: string)
  {
    function StatusCode(): int {
      match this
      case NotFound(_) => 404
      case BadRequest(_) => 400
    }
  }

  const MeetingNotFound := "Meeting not found"
  const MeetingNotFoundOrInactive := "Meeting not found or not active"
  const NameTaken := "Name already taken in this meeting"
  const ParticipantNotFound := "Participant not found"
  const PollNotFound := "Poll not found"
  const PollNotActive := "Poll is not active"
  const InvalidOption := "Invalid option"

  datatype Result<+T> = Ok(value: T) | Err(error: Error)

  /** A call to `send_to_meeting` for a meeting, made after the state change it reports.
      It records what the handler hands over, not what reaches a client. */
  datatype Event =
    | ParticipantJoined(meetingId: Id, participant: Participant)
    | ParticipantApproved(meetingId: Id, participantId: Id, status: ParticipantStatus)
    | PollStarted(meetingId: Id, pollId: Id)
    | PollClosed(meetingId: Id, pollId: Id)
    | VoteSubmitted(meetingId: Id, poll: Poll)

  /** The four collections in insertion order, the next fresh identifier, and
      the log of `send_to_meeting` calls. */
  datatype Store = Store(
    meetings: seq<Meeting>,
    participants: seq<Participant>,
    polls: seq<Poll>,
    votes: seq<Vote>,
    nextId: Id,
    log: seq<Event>)

  const EmptyStore := Store([], [], [], [], 0, [])
}
