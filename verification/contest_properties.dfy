/**
 Properties of the contest client over single events and over whole event
 traces: the reset, the bounded countdown, the ordered gate, and the
 guarantee that a contest receives at most one bet from this client, bound
 to that contest.
 */
module ContestProperties {
  import opened ContestState
  import opened ContestClient

  /** No event of the trace is a contest start. */
  predicate NoStart(es: seq<Event>) {
    forall i :: 0 <= i < |es| ==> !es[i].ContestStarted?
  }

  /** Every event of the trace is one the client can produce. */
  predicate AllWellFormed(es: seq<Event>) {
    forall i :: 0 <= i < |es| ==> WellFormed(es[i])
  }

  /** Number of clock ticks in a trace. */
  function TickCount(es: seq<Event>): nat {
    if es == [] then 0 else (if es[0].ClockTick? then 1 else 0) + TickCount(es[1..])
  }

  /** Number of contest starts in a trace whose payload id is `k` (`None` when the payload's `contestId` is null or absent). */
  function StartsOf(es: seq<Event>, k: Option<ContestId>): nat {
    if es == [] then 0
    else (if es[0].ContestStarted? && es[0].id == k then 1 else 0) + StartsOf(es[1..], k)
  }

  /** Number of bets bound to contest `k`. */
  function BetsFor(bets: seq<Bet>, k: Option<ContestId>): nat {
    if bets == [] then 0
    else (if bets[0].contestId == k then 1 else 0) + BetsFor(bets[1..], k)
  }

  /** One bet for contest `k` may still be sent from `s` without a new start. */
  function Credit(s: State, k: Option<ContestId>): nat {
    if s.contestId == k && !s.hasSubmitted then 1 else 0
  }

  function Max0(x: int): int {
    if x < 0 then 0 else x
  }

  /** `n` consecutive seconds of the countdown. */
  function TickN(s: State, n: nat): State
    decreases n
  {
    if n == 0 then s else TickN(Tick(s), n - 1)
  }

  // ---------------------------------------------------------------------
  // contestStart

  /** The reset ignores everything about the prior state except the user's name. */
  lemma ContestStartForgetsPast(s1: State, s2: State, id: Option<ContestId>)
    requires s1.username == s2.username
    ensures ContestStart(s1, id) == ContestStart(s2, id)
    ensures ContestStart(ContestStart(s1, id), id) == ContestStart(s1, id)
  {
  }

  /** Right after a reset the amount is empty, so Play is refused before any other check. */
  lemma PlayRightAfterStartIsMissingField(s: State, id: Option<ContestId>)
    ensures Submit(ContestStart(s, id)) == Step(ContestStart(s, id), Err(MissingField), None)
  {
  }

  // ---------------------------------------------------------------------
  // The countdown

  lemma {:induction false} TickNCountsDown(s: State, n: nat)
    requires 0 <= s.timeLeft
    ensures TickN(s, n) == s.(timeLeft := Max0(s.timeLeft - n))
    decreases n
  {
    if n > 0 {
      TickNCountsDown(Tick(s), n - 1);
    }
  }

  /** Fifty seconds into a contest the window is closed and a complete form is refused for it. */
  lemma FiftyTicksCloseTheWindow(s: State)
    requires s.timeLeft == WindowSeconds
    ensures TickN(s, 50).timeLeft == CloseThreshold
    ensures PhaseOf(TickN(s, 50)) == Closing
    ensures FieldsPresent(s) ==> Submit(TickN(s, 50)).status == Err(WindowTooShort)
  {
    TickNCountsDown(s, 50);
  }

  /** Between contest starts the countdown only moves down, one second per tick, and stops at zero. */
  lemma {:induction false} ClockOnlyCountsDown(s: State, es: seq<Event>)
    requires 0 <= s.timeLeft && NoStart(es)
    ensures Run(s, es).final.timeLeft == Max0(s.timeLeft - TickCount(es))
    decreases |es|
  {
    if es != [] {
      assert !es[0].ContestStarted?;
      assert NoStart(es[1..]) by {
        forall i | 0 <= i < |es[1..]| ensures !es[1..][i].ContestStarted? {
          assert es[1..][i] == es[i + 1];
        }
      }
      ClockOnlyCountsDown(Apply(s, es[0]).next, es[1..]);
    }
  }

  lemma ApplyPreservesValid(s: State, e: Event)
    requires Valid(s) && WellFormed(e)
    ensures Valid(Apply(s, e).next)
  {
  }

  /** Every state reachable through producible events keeps the countdown in 0..60 and a button label selected. */
  lemma {:induction false} RunPreservesValid(s: State, es: seq<Event>)
    requires Valid(s) && AllWellFormed(es)
    ensures Valid(Run(s, es).final)
    decreases |es|
  {
    if es != [] {
      assert WellFormed(es[0]);
      ApplyPreservesValid(s, es[0]);
      assert AllWellFormed(es[1..]) by {
        forall i | 0 <= i < |es[1..]| ensures WellFormed(es[1..][i]) {
          assert es[1..][i] == es[i + 1];
        }
      }
      RunPreservesValid(Apply(s, es[0]).next, es[1..]);
    }
  }

  // ---------------------------------------------------------------------
  // The Play gate

  /** The prediction sent is the free text under "write" and the clicked preset label otherwise; never empty. */
  lemma EmittedViewIsAChoice(s: State)
    requires Valid(s) && Submit(s).emitted.Some?
    ensures Submit(s).emitted.value.view != ""
    ensures s.selectedOption == WriteOption ==> Submit(s).emitted.value.view == s.customOption
    ensures s.selectedOption != WriteOption ==>
              Submit(s).emitted.value.view == s.selectedOption && s.selectedOption in PresetViews
  {
  }

  /** A successful Play followed at once by another one is refused as a duplicate and sends nothing. */
  lemma SecondPlayIsRejected(s: State)
    requires Submit(s).status == Ok
    ensures Submit(Submit(s).next) == Step(Submit(s).next, Err(AlreadySubmitted), None)
  {
  }

  /**
   The submitted flag is set exactly when a bet is sent, the bet is bound to the
   current contest, and only a contest start clears the flag again.
   */
  lemma SubmittedFlagRecordsTheBet(s: State, e: Event)
    ensures Apply(s, e).emitted.Some? ==>
              && !s.hasSubmitted && Apply(s, e).next.hasSubmitted
              && Apply(s, e).emitted.value.contestId == s.contestId
    ensures !s.hasSubmitted && Apply(s, e).next.hasSubmitted ==> Apply(s, e).emitted.Some?
    ensures s.hasSubmitted && !Apply(s, e).next.hasSubmitted ==> e.ContestStarted?
  {
  }

  // ---------------------------------------------------------------------
  // Traces

  lemma {:induction false} RunAppend(s: State, a: seq<Event>, b: seq<Event>)
    ensures Run(s, a + b).final == Run(Run(s, a).final, b).final
    ensures Run(s, a + b).bets == Run(s, a).bets + Run(Run(s, a).final, b).bets
    decreases |a|
  {
    if a == [] {
      assert a + b == b;
    } else {
      var next := Apply(s, a[0]).next;
      var out := OptionToSeq(Apply(s, a[0]).emitted);
      assert (a + b)[0] == a[0];
      assert (a + b)[1..] == a[1..] + b;
      RunAppend(next, a[1..], b);
      var mid := Run(next, a[1..]).final;
      assert out + (Run(next, a[1..]).bets + Run(mid, b).bets)
          == (out + Run(next, a[1..]).bets) + Run(mid, b).bets;
    }
  }

  /**
   Without a contest start, at most one bet is sent, none if one was already
   sent, each one bound to the contest current at the start of the trace.
   */
  lemma {:induction false} AtMostOneBetBetweenStarts(s: State, es: seq<Event>)
    requires NoStart(es)
    ensures |Run(s, es).bets| <= 1
    ensures s.hasSubmitted ==> Run(s, es).bets == []
    ensures forall i :: 0 <= i < |Run(s, es).bets| ==> Run(s, es).bets[i].contestId == s.contestId
    ensures Run(s, es).final.contestId == s.contestId
    ensures Run(s, es).final.hasSubmitted <==> s.hasSubmitted || Run(s, es).bets != []
    decreases |es|
  {
    if es != [] {
      var step := Apply(s, es[0]);
      assert !es[0].ContestStarted?;
      SubmittedFlagRecordsTheBet(s, es[0]);
      assert NoStart(es[1..]) by {
        forall i | 0 <= i < |es[1..]| ensures !es[1..][i].ContestStarted? {
          assert es[1..][i] == es[i + 1];
        }
      }
      AtMostOneBetBetweenStarts(step.next, es[1..]);
    }
  }

  /** After `contestStart(id)`, until the next start, at most one bet is sent and it carries `id`. */
  lemma OneBetPerStartBoundToIt(s: State, before: seq<Event>, id: Option<ContestId>, after: seq<Event>)
    requires NoStart(after)
    ensures var pre := Run(s, before + [ContestStarted(id)]);
            var segment := Run(pre.final, after).bets;
            && Run(s, before + [ContestStarted(id)] + after).bets == pre.bets + segment
            && |segment| <= 1
            && (forall i :: 0 <= i < |segment| ==> segment[i].contestId == id)
  {
    var pre := Run(s, before + [ContestStarted(id)]);
    RunAppend(s, before, [ContestStarted(id)]);
    assert pre.final == ContestStart(Run(s, before).final, id);
    RunAppend(s, before + [ContestStarted(id)], after);
    AtMostOneBetBetweenStarts(pre.final, after);
  }

  lemma {:induction false} BetsForPrepend(o: Option<Bet>, rest: seq<Bet>, k: Option<ContestId>)
    ensures BetsFor(OptionToSeq(o) + rest, k)
            == (if o.Some? && o.value.contestId == k then 1 else 0) + BetsFor(rest, k)
  {
    if o.Some? {
      assert (OptionToSeq(o) + rest)[0] == o.value;
      assert (OptionToSeq(o) + rest)[1..] == rest;
    } else {
      assert OptionToSeq(o) + rest == rest;
    }
  }

  /**
   Bets for contest `k` over a whole trace are paid for by starts of `k`: each
   start of `k` buys at most one, plus the one still open at the beginning.
   */
  lemma {:induction false} BetsPerContestBound(s: State, es: seq<Event>, k: Option<ContestId>)
    ensures BetsFor(Run(s, es).bets, k) + Credit(Run(s, es).final, k) <= StartsOf(es, k) + Credit(s, k)
    decreases |es|
  {
    if es != [] {
      var step := Apply(s, es[0]);
      var rest := Run(step.next, es[1..]);
      SubmittedFlagRecordsTheBet(s, es[0]);
      BetsForPrepend(step.emitted, rest.bets, k);
      BetsPerContestBound(step.next, es[1..], k);
    }
  }

  /** A contest id the server starts at most once receives at most one bet from this client. */
  lemma AtMostOneBetPerContest(es: seq<Event>, id: ContestId)
    requires StartsOf(es, Some(id)) <= 1
    ensures BetsFor(Run(Initial(), es).bets, Some(id)) <= 1
  {
    BetsPerContestBound(Initial(), es, Some(id));
  }

  /**
   Bets with no contest id: one before the first start, and one more after
   each start whose payload's `contestId` is null or absent.
   */
  lemma AtMostOneBetWithoutContest(es: seq<Event>)
    ensures BetsFor(Run(Initial(), es).bets, None) <= 1 + StartsOf(es, None)
  {
    BetsPerContestBound(Initial(), es, None);
  }

  /** A complete form played before the first contest start is sent with no contest id. */
  lemma PlayBeforeAnyContest()
    ensures Run(Initial(), [UsernameTyped("Ann"), BetAmountTyped("10"), OptionClicked("20"), PlayClicked]).bets
            == [Bet("Ann", "10", "20", None)]
  {
  }

  /**
   A repeated start of the same contest re-opens the gate: once the form is
   filled in again, the same bet for the same contest id is sent a second time.
   */
  lemma RepeatedStartReopensTheGate(s: State, id: Option<ContestId>)
    requires Submit(s).status == Ok && s.contestId == id
    ensures var again := ContestStart(Submit(s).next, id).(betAmount := s.betAmount,
                           selectedOption := s.selectedOption, customOption := s.customOption);
            && Submit(again).status == Ok
            && Submit(again).emitted == Submit(s).emitted
  {
  }

  /** Start "C1", fill in Ann / 10 / "20", play at 45 seconds left: the bet is sent and recorded. */
  lemma AnnBetsOnTwenty(s0: State)
    ensures var s := TickN(ContestStart(s0, Some("C1")).(username := "Ann", betAmount := "10", selectedOption := "20"), 15);
            && s.timeLeft == 45
            && Submit(s) == Step(s.(hasSubmitted := true), Ok, Some(Bet("Ann", "10", "20", Some("C1"))))
  {
    TickNCountsDown(ContestStart(s0, Some("C1")).(username := "Ann", betAmount := "10", selectedOption := "20"), 15);
  }
}
