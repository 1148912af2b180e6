/**
 The state of the contest client: the bet form, the contest it belongs to and
 the local countdown, together with the views derived from it (the effective
 prediction, whether the form is complete, the submission phase).
 */
module ContestState {

  /** Length of a contest's countdown in seconds; also the countdown's value before any contest. */
  const WindowSeconds: int := 60

  /** Submissions are refused once the countdown is at or below this many seconds. */
  const CloseThreshold: int := 10

  /** Label of the option button that switches the prediction to the free-text field. */
  const WriteOption: string := "write"

  /** Labels of the preset prediction buttons. */
  const PresetViews: set<string> := {"10", "20", "30", "40"}

  datatype Option<+T> = None | Some(value: T)

  /** The identifier a server gives a contest; opaque to the client. */
  type ContestId = string

  /** The payload of one `submitBet` message. */
  datatype Bet = Bet(name: string, betAmount: string, view: string, contestId: Option<ContestId>)

  /**
   The client's whole modelled state. Every form field is text, as the input
   elements deliver it; `contestId` is `None` until the first contest starts.
   */
  datatype State = State(
    username: string,
    betAmount: string,
    selectedOption: string,
    customOption: string,
    contestId: Option<ContestId>,
    timeLeft: int,
    hasSubmitted: bool)

  /** The state when the client is mounted: empty form, no contest, a full countdown. */
  function Initial(): State {
    State("", "", "", "", None, WindowSeconds, false)
  }

  /** True of the labels the option buttons can put into `selectedOption`. */
  predicate IsButton(opt: string) {
    opt in PresetViews || opt == WriteOption
  }

  /** The prediction a bet would carry: the free text under "write", the selected button otherwise. */
  function EffectiveView(s: State): string {
    if s.selectedOption == WriteOption then s.customOption else s.selectedOption
  }

  /** Name, amount and effective prediction are all non-empty. */
  predicate FieldsPresent(s: State) {
    s.username != "" && s.betAmount != "" && EffectiveView(s) != ""
  }

  /** Submission phase, derived from the countdown alone. */
  datatype Phase = Open | Closing

  function PhaseOf(s: State): Phase {
    if s.timeLeft > CloseThreshold then Open else Closing
  }

  /** What every state the client can reach satisfies. */
  predicate Valid(s: State) {
    && 0 <= s.timeLeft <= WindowSeconds
    && (s.selectedOption == "" || IsButton(s.selectedOption))
  }
}
