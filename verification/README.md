# Anonymous meeting votes — a Dafny model of the vote server

The vote server runs meetings in which an organiser creates polls and participants vote on them. It exposes these HTTP endpoints:
- An organiser creates a meeting and receives an 8-character meeting code.
- Participants join with that code and a name, then wait for the organiser to approve them.
- The organiser creates polls with a list of options, then starts and closes them.
- Anyone holding a poll id submits votes. A stored vote records the poll, the option, an id and the time, never who cast it.
- The results endpoint recounts the stored votes and reports each option's count and percentage.

This project models that server (`backend/server.py`) as an immutable store with one pure function per endpoint. It then proves properties of the functions and of every store the server can reach.

- `Collection` models the document queries the handlers use. A collection is a sequence in insertion order:
  - `find_one` returns the first match (`FindFirst`);
  - `find(...).to_list(1000)` returns the first 1000 matches (`Limit(Select(...), FetchLimit)`);
  - `update_one` rewrites the first match.
- `Model` holds:
  - the enumerations, entities and request bodies of `backend/server.py:63-134`;
  - the error details and status codes (404 and 400);
  - a `Store` holding the four collections, an identifier counter and a log of the server's calls to `send_to_meeting`, the function that pushes real-time messages to a meeting's sockets.
- `Codes` covers the meeting code: the first 8 characters of the canonical lower-case string form of a version-4 UUID (section 3 of RFC 4122), upper-cased.
- `Tally` covers the recount `update_poll_results` performs and the totals and percentages of `get_poll_results`.
- `Server` has one function per endpoint. Each contract states:
  - the error cases in the order the handler checks them, with their detail messages;
  - the change made on success;
  - that nothing else changes.
- `Invariant` defines the invariant of reachable stores:
  - identifiers are fresh and distinct;
  - participants and polls belong to stored meetings;
  - every stored vote chose an option of its poll;
  - every option's count equals the recount of its poll.
  
  It proves that every request keeps this invariant, so every sequence of requests from the empty store does too.
- `Properties` proves properties that relate several calls:
  - code lookup;
  - rejection of a repeated name;
  - exact counting and the 1000-vote cap;
  - repeated votes;
  - anonymity;
  - closing and reopening polls;
  - the idempotence of the recount.

The model follows the code as written. In particular:
- `submit_vote` receives no participant. It therefore checks neither that the voter was approved nor that they have not voted already (`Properties.RepeatedVoteAccepted`, `Properties.VoteIndependentOfParticipants`).
- `start_poll` and `close_poll` accept a poll in any status, so a closed poll can be started again (`Properties.ClosedPollReopens`).
- `create_poll` does not look at the meeting's status.
- `get_meeting_polls` answers an unknown meeting with an empty list, not a 404.
- Meeting codes are not checked for uniqueness. A lookup returns the first live meeting with the code.
- A recount reads only the first 1000 stored votes of a poll, so later votes are stored but never counted (`Properties.VoteBeyondLimitNotCounted`).

Three further facts about the handlers:
- they raise only 404 and 400 (`backend/server.py:147-298`);
- an approval decision can be overwritten (`backend/server.py:201-205`);
- a meeting code is compared exactly (`backend/server.py:145`).

Identifiers are natural numbers taken from the store's counter. They stand for the random uuids the server generates, and what the model relies on is their freshness. The clock is a parameter `now`, and the uuid a meeting code is cut from is a parameter `uuid`.

## Model

| member | source | states |
|---|---|---|
| Collection.FindFirst | backend/server.py:145 | the index returned is that of a matching document with no match before it; None exactly when no document matches |
| Collection.Select | backend/server.py:281 | every selected document is a stored one satisfying the query, and every stored document satisfying it is selected |
| Collection.SelectCounts | backend/server.py:281 | each document satisfying the query is selected exactly as often as it is stored, and no other document is |
| Collection.SelectAppend | backend/server.py:281 | the selection keeps insertion order: a document stored last is selected last when it matches, and changes nothing otherwise |
| Collection.Limit | backend/server.py:281 | `to_list(n)` keeps a prefix of the matches, of length the smaller of n and their number, so never more copies of a document than it was given |
| Collection.FindFirstAfterUpdate | backend/server.py:202-205 | rewriting the first document matching an id, keeping its id, leaves it the first match, so a later lookup finds the rewritten document |
| Codes.CodeFromUuid | backend/server.py:82 | the meeting code is 8 characters from 0-9/A-F and is, lower-cased, the first 8 characters of the uuid4 string |
| Server.CreateMeeting | backend/server.py:137-141 | a new active meeting with the given title and organiser, a generated code and a fresh id is appended; no other collection changes and nothing is sent |
| Server.GetMeetingByCode | backend/server.py:143-148 | succeeds exactly when some meeting has exactly that code and is active, returning such a meeting; otherwise 404 "Meeting not found" |
| Server.JoinMeeting | backend/server.py:169-193 | 404 exactly when no active meeting has the code (and an error has status 404 exactly then); otherwise 400 exactly when that meeting already has a participant of that name; otherwise one pending participant of that meeting with a fresh id is appended and one participant_joined `send_to_meeting` call is logged |
| Server.ApproveParticipant | backend/server.py:195-214 | 404 exactly when no participant has the path id; otherwise that participant's status becomes approved or rejected as requested, overwriting the previous one, the status endpoint then reports it, other participants are unchanged, and one participant_approved `send_to_meeting` call is logged |
| Server.GetParticipantStatus | backend/server.py:216-221 | 404 exactly when no participant has the id; otherwise the status of a participant with that id |
| Server.NewOptions | backend/server.py:231 | one option per input text, carrying that text, with no votes and distinct ids drawn from a block of fresh ids as long as the list |
| Server.CreatePoll | backend/server.py:224-240 | 404 exactly when no meeting has the id, whatever its status; otherwise a draft poll of that meeting is appended whose options carry the input texts in order, with 0 votes and distinct fresh ids; nothing is logged |
| Server.StartPoll | backend/server.py:242-261 | 404 exactly when the poll is unknown; otherwise the poll becomes active from any status, its timer start is set (to now) exactly when the duration is non-zero, no other poll changes, and one poll_started `send_to_meeting` call is logged |
| Server.ClosePoll | backend/server.py:263-277 | 404 exactly when the poll is unknown; otherwise the poll becomes closed from any status, no other poll changes, and one poll_closed `send_to_meeting` call is logged |
| Server.GetMeetingPolls | backend/server.py:279-282 | at most 1000 polls, all of the meeting and never more copies of a poll than are stored; when the meeting has at most 1000, each of its polls exactly as often as it is stored; an unknown meeting gives an empty list |
| Server.UpdatePollResults | backend/server.py:316-334 | every option of the poll gets the number of its poll's first 1000 stored votes that chose it, keeping option order, ids and texts; other polls and collections are unchanged; an unknown poll changes nothing |
| Server.SubmitVote | backend/server.py:285-314 | 404 exactly when the poll is unknown (and an error has status 404 exactly then); else 400 "Poll is not active" exactly when it is not active; else 400 "Invalid option" exactly when the option is not the poll's; otherwise exactly one vote carrying poll, option, time and a fresh id, and nothing about the voter, is appended, the poll is recounted, and one vote_submitted call with the recounted poll is logged |
| Server.GetPollResults | backend/server.py:336-360 | 404 exactly when the poll is unknown; otherwise the poll is recounted, each option reports its text and the number of fetched votes for it, in option order; the total counts the fetched votes on the poll's options; percentages are votes/total×100, all 0 when the total is 0, and add up to 100 otherwise |
| Tally.FetchVotes | backend/server.py:318 | at most 1000 votes, each a stored vote of that poll |
| Tally.FetchVotesComplete | backend/server.py:318 | a recount reads no vote more often than it is stored, and reads every stored vote of the poll, as often as it is stored, while the poll has at most 1000 |
| Tally.FetchVotesAppendSame | backend/server.py:318 | a new vote for a poll is among the votes a recount reads exactly when fewer than 1000 of the poll's votes were stored before it |
| Tally.VoteCounts | backend/server.py:319-323 | the counting loop maps every option id to the number of fetched votes that chose it, and absent ids read as 0 |
| Tally.CountIntoAdds | backend/server.py:321-323 | folding votes into a dictionary adds each option's occurrences to what the dictionary held |
| Tally.Recount | backend/server.py:327-329 | each option keeps its id and text and takes the count recorded for its id, or 0 |
| Tally.RecountTotal | backend/server.py:345 | when option ids are distinct, the recounted options' votes add up to the number of fetched votes that chose one of the options |
| Tally.Percentage | backend/server.py:349 | 0 when there are no votes; between 0 and 100 for a share of the total; 100 for all of it |
| Tally.Results | backend/server.py:347-354 | one entry per option, in option order, with its text, its count and its percentage of the total |
| Tally.PercentagesSumTo100 | backend/server.py:345-354 | when some vote was counted, the options' percentages add up to 100 |
| Invariant.CreateMeetingKeepsConsistent | backend/server.py:137-141 | creating a meeting keeps the store invariant |
| Invariant.JoinKeepsConsistent | backend/server.py:169-193 | an accepted join keeps the store invariant |
| Invariant.ApproveKeepsConsistent | backend/server.py:195-214 | an approval keeps the store invariant |
| Invariant.CreatePollKeepsConsistent | backend/server.py:224-240 | a new poll keeps the store invariant; its options start at 0, matching the recount of a poll without votes |
| Invariant.StartKeepsConsistent | backend/server.py:242-261 | starting a poll keeps the store invariant |
| Invariant.CloseKeepsConsistent | backend/server.py:263-277 | closing a poll keeps the store invariant |
| Invariant.UpdateKeepsConsistent | backend/server.py:316-334 | a recount of one poll, in a valid store whose other polls are up to date, leaves every poll's counts up to date |
| Invariant.StoredVoteKeepsOtherTallies | backend/server.py:302-318 | storing a vote leaves the recount of every other poll unchanged |
| Invariant.VoteKeepsConsistent | backend/server.py:285-314 | an accepted vote keeps the store invariant |
| Invariant.ResultsKeepConsistent | backend/server.py:336-360 | asking for results keeps the store invariant |
| Invariant.StepKeepsConsistent | backend/server.py:137-360 | every request, accepted or refused, keeps the store invariant |
| Invariant.RunKeepsConsistent | backend/server.py:137-360 | every sequence of requests keeps the store invariant |
| Invariant.ReachableConsistent | backend/server.py:137-360 | every store reached from empty collections has fresh distinct ids, votes on existing options and up-to-date counts |
| Properties.CreatedMeetingFoundByCode | backend/server.py:137-148 | a new meeting is found by its code, and is the meeting found unless an earlier live meeting drew the same code |
| Properties.MalformedCodeNotFound | backend/server.py:143-148 | when every stored code is a generated one, as in every reachable store, a string not of the generated form (wrong length, lower case, non-hex) is answered 404 by the lookup and by every join request, whatever its name and time |
| Properties.UnknownTestCodeNotFound | backend_test.py:135-147 | joining with the code "INVALID123" is answered 404 "Meeting not found or not active" |
| Properties.CreatedPollListedLast | backend/server.py:279-282 | a new poll is listed after its meeting's earlier polls while the meeting has fewer than 1000, the list is unchanged past that, and other meetings' lists do not change |
| Properties.FirstPollListedFirst | backend_test.py:252-258 | the first poll created for a meeting is the first one its poll list returns, as the test relies on |
| Properties.JoinAddsOneFreshParticipant | backend/server.py:184-193 | an accepted join adds exactly one participant, under an id no stored participant has, whose status reads pending |
| Properties.SecondJoinWithSameNameRejected | backend_test.py:117-133 | repeating an accepted join with the same name and code is answered 400 "Name already taken in this meeting" |
| Properties.StatusIsStored | backend/server.py:216-221 | in a reachable store the status endpoint reports exactly each participant's stored status |
| Properties.OccurrencesAppend | backend/server.py:321-323 | one more vote raises the count of its option by one and no other |
| Properties.RecountAfterOneVote | backend/server.py:316-334 | after one more vote for a poll, a recount raises the chosen option by one when the vote is among the first 1000, and changes no count otherwise |
| Properties.VoteCountedOnce | backend/server.py:285-334 | while a poll with up-to-date counts has fewer than 1000 stored votes, an accepted vote adds exactly one to the chosen option and leaves the other options' counts as they were |
| Properties.VoteBeyondLimitNotCounted | backend/server.py:302-318 | once a poll with up-to-date counts has 1000 stored votes, a further vote is accepted and stored but changes no option's count |
| Properties.RepeatedVoteAccepted | backend/server.py:285-302 | after a vote is accepted, the identical request is accepted again: nothing limits votes per person |
| Properties.VoteIndependentOfParticipants | backend/server.py:285-314 | whether a vote is accepted and everything it writes do not depend on the participants, approved or not: no identity reaches the votes, the polls or the `send_to_meeting` calls |
| Properties.VoteOnClosedPollRejected | backend_test.py:275-306 | after a poll is closed, a vote on it is answered 400 "Poll is not active" |
| Properties.ClosedPollReopens | backend/server.py:242-298 | a closed poll can be started again and then accepts a vote on any of its options |
| Properties.TotalIsFetchedVotes | backend/server.py:318-345 | in a reachable store the reported total is the number of the poll's stored votes, capped at 1000 |
| Properties.ResultsOfTalliedPollWriteNothing | backend/server.py:336-343 | when the poll's counts are up to date, as in every reachable store, asking for its results leaves the store exactly as it was |
| Properties.RecountIdempotent | backend/server.py:316-334 | a second recount right after a first changes nothing |
| Properties.OneMessagePerChange | backend/server.py:169-314 | each request makes at most one `send_to_meeting` call, after its write; only join, approve, start, close and vote do so, and each does when it changes the store |

## Left out

- MongoDB access, FastAPI routing, CORS, logging and start-up/shut-down (`backend/server.py:1-35, 372-392`) are replaced by the immutable store; each endpoint is a function from a store to a store and a result.
- The WebSocket `ConnectionManager` and socket endpoint (`backend/server.py:38-60, 362-370`) are transport. The store's `log` records the calls to `send_to_meeting` in the order they are made, not what reaches a socket; connections, disconnects and send failures are not modelled.
- The log does not record that two of the five messages are never delivered. `send_to_meeting` encodes each message with `json.dumps` inside a bare `try/except: pass` (`backend/server.py:52-58`). The `participant_joined` payload holds `participant.dict()`, whose `joined_at` is a `datetime` (`backend/server.py:95, 188-191`). The `vote_submitted` payload holds `Poll(...).dict()`, whose `created_at` is a `datetime` (`backend/server.py:118, 309-312`). `json.dumps` cannot encode a `datetime`, so both messages would be dropped silently, although the client waits for them (`frontend/src/App.js:707-717`). The model has no JSON encoding, so it keeps these two calls in the log like the other three.
- Concurrency: handlers are modelled as running one at a time, so the races between the check and the insert in `join_meeting` and `submit_vote` are not represented.
- Randomness and time: the uuid a meeting code is cut from and the current time are parameters; the other uuids are modelled by fresh identifiers from a counter.
- Codes.Upper: only ASCII letters are upper-cased, which covers every character of a uuid string; Python's full Unicode `str.upper` is not modelled.
- Server.GetPollResults: percentages are exact rationals; floating-point division and `round(percentage, 1)` are not modelled, so the sum of 100 holds before rounding only.
- `get_meeting_organizer_view` (`backend/server.py:150-166`) is not part of this model.
- The PDF report and data purge (reportlab imports, `backend/server.py:16-21`) have no endpoint in the server and are not modelled; neither is the `show_results_real_time` flag, which the `Poll` model does not have.
- Nothing closes a poll when its timer runs out; only `timer_duration` and `timer_started_at` are stored, as in the server.
- Response serialisation (pydantic `dict()`, JSON, the string values of the enumerations) is not modelled; enumerations are datatypes.
- The React client (`frontend/src/App.js`) and the two HTTP test drivers are not part of this model; the tests are cited only where a property matches what they expect.
