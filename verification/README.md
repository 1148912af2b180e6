# Contest client state machine

A model of the client side of a timed betting contest. A server announces that
a contest has started. The client then counts down locally from 60 seconds.
The user fills in a name, an amount and a prediction and presses Play. The
Play gate refuses incomplete forms, late submissions and repeat submissions,
and otherwise sends exactly one bet bound to the current contest.

The model is functional. An immutable `State` record holds the form fields,
the current contest id, the countdown and the submitted flag. Pure
transition functions handle the contest start, the clock tick, the Play gate
and the form edits. `Run` folds a trace of events into the final state and
the sequence of bets sent to the server.

- `contest_state.dfy` (module `ContestState`): the constants (60-second
  window, 10-second close threshold, the option labels), `Bet`, `State`,
  the effective prediction, form completeness, the derived phase, and the
  `Valid` invariant.
- `contest_client.dfy` (module `ContestClient`): `ContestStart`, `Tick`,
  `Submit` (returning the next state, `Ok` or
  `Err(MissingField | WindowTooShort | AlreadySubmitted)`, and the bet sent,
  if any), the `Event` type, `Apply` and `Run`.
- `contest_properties.dfy` (module `ContestProperties`): lemmas about
  single events and whole traces.

Modelling choices:
- The contest id is `Option<string>`. It is `None` until the first contest
  starts, matching the initial `null` (src/App.js:13). A `contestStart`
  payload's `contestId` field is stored without any check (src/App.js:21),
  so the `ContestStarted` event also carries an `Option<string>`. `None`
  stands for a payload object whose `contestId` is null or absent.
- Every form field is a string, because the inputs deliver text. This
  includes the amount, since a number input's value is a string
  (src/App.js:10,97-101). "Missing" means the empty string, which is when
  JavaScript treats a string as false (src/App.js:53).
- The source keeps no phase field. `PhaseOf` derives one from the countdown:
  `Open` while more than 10 seconds are left, `Closing` otherwise
  (src/App.js:58). There is no "resolved" state, because the winner
  announcement only triggers a history fetch (src/App.js:29-31).
- The interval timer becomes a discrete `ClockTick` event. Socket messages
  in are events, and each bet sent is appended to the trace's output.

Consequences of the code that the model makes explicit:
- The code has no idle phase. The countdown starts at 60 when the client is
  mounted (src/App.js:14) and runs from then on (src/App.js:35-42). The gate
  never reads `contestId` (src/App.js:49-66). So a complete form played
  before any contest start, within the first 50 seconds after mount, sends a
  bet whose contest id is null. `PlayBeforeAnyContest` shows this for one
  four-event trace. After 50 seconds the window check refuses such a form:
  `FiftyTicksCloseTheWindow` holds of the mount state, whose countdown is 60.
  From the mount state, the bets with no contest id number at most one, plus
  one per start whose payload's `contestId` is null or absent
  (`AtMostOneBetWithoutContest`).
- `contestStart` is an unconditional reset (src/App.js:20-27). It does not
  compare the new id with the current one. A repeated start of the same
  contest therefore clears the submitted flag, and that contest id can
  receive a second bet (`RepeatedStartReopensTheGate`). What the code does
  guarantee is `BetsPerContestBound`: the bets for a contest id never exceed
  the number of times that id was started, plus the one bet still allowed at
  the beginning of the trace. From the mount state, an id started at most
  once gets at most one bet (`AtMostOneBetPerContest`).

## Model

| member | source | states |
|---|---|---|
| ContestClient.ContestStart | src/App.js:20-27 | A start records the payload's `contestId` (`None` when it is null or absent) and refills the countdown to 60, which is the Open phase. It clears the submitted flag, the selected option, the amount and the custom text, and keeps the name. The result is a valid state whose form is incomplete. |
| ContestClient.Tick | src/App.js:35-42 | A tick changes only the countdown. It goes down by at most one second, and goes down exactly when the countdown is positive. The `Valid` invariant (countdown within 0..60) is preserved. |
| ContestClient.Submit | src/App.js:49-78 | Each outcome holds exactly when its condition holds, with the checks in order. MissingField iff the name, amount or effective prediction is empty. WindowTooShort iff the form is complete and 10 or fewer seconds are left. AlreadySubmitted iff the form is complete, the window is open and a bet was already sent. Ok iff none of these. A refusal changes nothing and sends nothing. Ok sends one bet with the name, amount, effective prediction and current contest id, and sets the submitted flag. |
| ContestClient.Apply | src/App.js:95-121 | Each form edit sets exactly its own field (name, amount, selected option or custom text) and leaves every other field, the countdown, the flag and the contest id unchanged. Only Play can send a bet or report an error. Every event other than a contest start keeps the contest id. |
| ContestClient.Run | src/App.js:68-75 | A trace sends no more bets than it has Play clicks. |
| ContestProperties.ContestStartForgetsPast | src/App.js:20-27 | Two prior states with the same name give the same state after a start, so nothing else about the past survives. Delivering the same start twice has the effect of delivering it once. |
| ContestProperties.PlayRightAfterStartIsMissingField | src/App.js:25-56 | Play directly after a start always fails with MissingField and changes nothing, because the start clears the amount. |
| ContestProperties.TickNCountsDown | src/App.js:35-42 | From a non-negative countdown, n ticks give max(0, t - n) and change nothing else. |
| ContestProperties.FiftyTicksCloseTheWindow | src/App.js:35-61 | 50 ticks after a full countdown leave 10 seconds, in the Closing phase. If the form was complete, Play then fails with WindowTooShort. |
| ContestProperties.ClockOnlyCountsDown | src/App.js:35-42 | In any trace without a contest start, the final countdown is max(0, t - number of ticks). So the countdown never goes up without a start. |
| ContestProperties.ApplyPreservesValid | src/App.js:105-109 | Every event the client can produce keeps the countdown within 0..60 and the selected option empty or one of the button labels. |
| ContestProperties.RunPreservesValid | src/App.js:14-42 | Every trace of such events, starting from a valid state, ends in a valid state. |
| ContestProperties.EmittedViewIsAChoice | src/App.js:50-53 | A sent prediction is never empty. Under "write" it is the custom text; otherwise it is the selected option, which is one of the preset labels. |
| ContestProperties.SecondPlayIsRejected | src/App.js:63-76 | A second Play directly after a successful one fails with AlreadySubmitted, changes nothing and sends nothing. |
| ContestProperties.SubmittedFlagRecordsTheBet | src/App.js:63-76 | Whenever an event sends a bet, the flag was clear, becomes set, and the bet carries the current contest id. The flag becomes set only when a bet is sent. It is cleared only by a contest start. |
| ContestProperties.AtMostOneBetBetweenStarts | src/App.js:63-76 | A trace with no contest start sends at most one bet. It sends none if a bet was already sent. Every bet carries the contest id current at the trace's start, and that id does not change. The flag at the end is set iff it was set at the start or a bet was sent. |
| ContestProperties.OneBetPerStartBoundToIt | src/App.js:20-76 | After a `contestStart` and until the next start, at most one bet is sent, and it carries the id of that start's payload. |
| ContestProperties.BetsPerContestBound | src/App.js:20-76 | Over any trace, the bets for an id plus the bet still allowed at the end are at most the number of starts of that id plus the bet still allowed at the beginning. |
| ContestProperties.AtMostOneBetPerContest | src/App.js:20-76 | From the initial state, an id that is started at most once receives at most one bet. |
| ContestProperties.AtMostOneBetWithoutContest | src/App.js:13-27 | From the mount state, the bets with no contest id number at most one plus the number of starts whose payload's `contestId` is null or absent. |
| ContestProperties.PlayBeforeAnyContest | src/App.js:13-14 | For one fixed trace from the mount state (type a name, an amount, click "20", press Play, with no tick in between), exactly one bet is sent, and its contest id is null. |
| ContestProperties.RepeatedStartReopensTheGate | src/App.js:20-27 | After a successful Play, a repeated start of the same contest and refilled fields let a second, identical bet through. |
| ContestProperties.AnnBetsOnTwenty | src/App.js:68-76 | Start "C1", fill in name "Ann", amount "10" and option "20", then wait 15 ticks to reach 45 seconds. Play succeeds and sends `{Ann, 10, 20, C1}`, and the flag is set. |

## Left out

- The socket.io connection and handler registration (src/App.js:2,6,20,29). Incoming messages are events of the trace, and `emit` appends to the trace's output.
- `winnerAnnounced` (src/App.js:29-31) and the history fetch (src/App.js:32,44-47). They change no modelled state; the fetch only replaces the history list with the server's reply. There is no history list in the model.
- `setInterval`/`clearInterval` scheduling and effect re-runs (src/App.js:35-42). They become one `ClockTick` event per second. Sub-second timing is not modelled, and neither is an interval firing between a state change and its cleanup.
- The rendering, the history table and its show/hide toggle, and the `alert` pop-ups (src/App.js:54,59,64,77,80-160). The alerts become the `Status` value.
- A `contestStart` message with no payload object makes src/App.js:21 throw before any setter runs, so nothing changes. The model assumes every start carries a payload object and always resets.
- A null and an absent `contestId` are both `None`. The code serialises them differently: the sent bet carries `"contestId": null` in the first case and omits the key in the second (src/App.js:68-75).
- The amount input has `type="number"` (src/App.js:98-101), so the browser delivers only numeric text or the empty string. The model's `BetAmountTyped` event accepts any text. This admits more traces, not fewer, and the gate only tests the amount for emptiness.
- The custom-text input is rendered only while "write" is selected (src/App.js:116-123). The model accepts a `CustomOptionTyped` event in any state. This admits more traces, not fewer, and the effective prediction ignores the custom text unless "write" is selected.
