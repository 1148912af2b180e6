/**
 The transitions of the contest client: the server's `contestStart` reset,
 the one-second countdown tick, the Play gate that emits at most one bet, and
 the form edits. `Run` folds a sequence of events into the final state and the
 sequence of bets sent to the server.
 */
module ContestClient {
  import opened ContestState

  /** Why the Play gate refused a submission. */
  datatype GateError = MissingField | WindowTooShort | AlreadySubmitted

  datatype Status = Ok | Err(error: GateError)

  /** The outcome of one event: the next state, the gate's verdict, the bet sent (if any). */
  datatype Step = Step(next: State, status: Status, emitted: Option<Bet>)

  /**
   A new contest resets everything but the user's name. The id is stored as
   delivered: a payload object whose `contestId` is null or absent leaves
   the client with no contest id (`None`).
   */
  function ContestStart(s: State, id: Option<ContestId>): (r: State)
    ensures r.contestId == id && r.username == s.username
    ensures r.timeLeft == WindowSeconds && PhaseOf(r) == Open && !r.hasSubmitted
    ensures r.selectedOption == "" && r.betAmount == "" && r.customOption == ""
    ensures Valid(r) && !FieldsPresent(r)
  {
    s.(contestId := id, timeLeft := WindowSeconds, hasSubmitted := false,
       selectedOption := "", betAmount := "", customOption := "")
  }

  /** One second of the countdown: it moves down by one while positive and stops at zero. */
  function Tick(s: State): (r: State)
    ensures r == s.(timeLeft := r.timeLeft)
    ensures s.timeLeft - 1 <= r.timeLeft <= s.timeLeft
    ensures r.timeLeft < s.timeLeft <==> s.timeLeft > 0
    ensures Valid(s) ==> Valid(r)
  {
    if s.timeLeft > 0 then s.(timeLeft := s.timeLeft - 1) else s
  }

  /**
   The Play button. Three checks in order: a missing field, then the closing
   window, then a previous submission; the first failing one is reported and
   nothing changes. Otherwise one bet bound to the current contest is sent and
   the submission is recorded.
   */
  function Submit(s: State): (r: Step)
    ensures r.status == Err(MissingField) <==> !FieldsPresent(s)
    ensures r.status == Err(WindowTooShort) <==> FieldsPresent(s) && PhaseOf(s) == Closing
    ensures r.status == Err(AlreadySubmitted) <==> FieldsPresent(s) && PhaseOf(s) == Open && s.hasSubmitted
    ensures r.status == Ok <==> FieldsPresent(s) && PhaseOf(s) == Open && !s.hasSubmitted
    ensures r.status.Err? ==> r.next == s && r.emitted == None
    ensures r.status == Ok ==>
              && r.next == s.(hasSubmitted := true)
              && r.emitted == Some(Bet(s.username, s.betAmount, EffectiveView(s), s.contestId))
  {
    var view := EffectiveView(s);
    if s.username == "" || s.betAmount == "" || view == "" then
      Step(s, Err(MissingField), None)
    else if s.timeLeft <= CloseThreshold then
      Step(s, Err(WindowTooShort), None)
    else if s.hasSubmitted then
      Step(s, Err(AlreadySubmitted), None)
    else
      Step(s.(hasSubmitted := true), Ok,
           Some(Bet(s.username, s.betAmount, view, s.contestId)))
  }

  /** Everything that happens to the client, in arrival order. */
  datatype Event =
    | ContestStarted(id: Option<ContestId>)
    | ClockTick
    | PlayClicked
    | UsernameTyped(text: string)
    | BetAmountTyped(text: string)
    | OptionClicked(opt: string)
    | CustomOptionTyped(text: string)

  /** Events the client can actually produce: option clicks come from the rendered buttons. */
  predicate WellFormed(e: Event) {
    e.OptionClicked? ==> IsButton(e.opt)
  }

  /** The effect of one event. Only Play can emit a bet or report an error. */
  function Apply(s: State, e: Event): (r: Step)
    ensures !e.PlayClicked? ==> r.status == Ok && r.emitted == None
    ensures !e.ContestStarted? ==> r.next.contestId == s.contestId
    ensures e.UsernameTyped? ==> r.next == s.(username := e.text)
    ensures e.BetAmountTyped? ==> r.next == s.(betAmount := e.text)
    ensures e.OptionClicked? ==> r.next == s.(selectedOption := e.opt)
    ensures e.CustomOptionTyped? ==> r.next == s.(customOption := e.text)
  {
    match e
    case ContestStarted(id) => Step(ContestStart(s, id), Ok, None)
    case ClockTick => Step(Tick(s), Ok, None)
    case PlayClicked => Submit(s)
    case UsernameTyped(text) => Step(s.(username := text), Ok, None)
    case BetAmountTyped(text) => Step(s.(betAmount := text), Ok, None)
    case OptionClicked(opt) => Step(s.(selectedOption := opt), Ok, None)
    case CustomOptionTyped(text) => Step(s.(customOption := text), Ok, None)
  }

  function OptionToSeq<T>(o: Option<T>): seq<T> {
    match o
    case None => []
    case Some(v) => [v]
  }

  /** Number of Play clicks in a trace. */
  function PlayCount(es: seq<Event>): nat {
    if es == [] then 0 else (if es[0].PlayClicked? then 1 else 0) + PlayCount(es[1..])
  }

  /** The final state after a trace, and every bet sent during it, in order. */
  datatype Trace = Trace(final: State, bets: seq<Bet>)

  function Run(s: State, es: seq<Event>): (r: Trace)
    ensures |r.bets| <= PlayCount(es)
    decreases |es|
  {
    if es == [] then Trace(s, [])
    else
      var step := Apply(s, es[0]);
      var rest := Run(step.next, es[1..]);
      Trace(rest.final, OptionToSeq(step.emitted) + rest.bets)
  }
}
