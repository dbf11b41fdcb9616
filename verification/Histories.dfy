/** Whole streams of events: the book that the engine ends with and the reports it gives are those of the one history in
    which every event has the outcome that Outcomes.dfy describes. */
module Histories {
  import opened Book
  import opened MatchSpec
  import opened Runs
  import opened Outcomes
  import opened Determined
  import opened MatchingLoops

  /** The book after the first n outcomes. */
  function BookAfter(b: Book, outcomes: seq<MatchOutcome>, n: nat): Book
    requires n <= |outcomes|
  {
    if n == 0 then b else outcomes[n - 1].book
  }

  /** One outcome for each event, each in the book that the one before it left. */
  ghost predicate Happens(b: Book, events: seq<Event>, outcomes: seq<MatchOutcome>) {
    && |outcomes| == |events|
    && forall i :: 0 <= i < |events| ==>
         Dispatched(events[i].mode, BookAfter(b, outcomes, i), events[i].order, outcomes[i])
  }

  lemma RunNext(b: Book, events: seq<Event>, n: nat)
    requires n < |events|
    ensures Run(b, events[..n + 1]) == MatchSpec.Dispatch(events[n].mode, Run(b, events[..n]), events[n].order).book
    ensures var outcome := MatchSpec.Dispatch(events[n].mode, Run(b, events[..n]), events[n].order);
            Reports(b, events[..n + 1]) == Reports(b, events[..n]) + [(outcome.fills, outcome.stats)]
  {
    assert events[..n + 1] == events[..n] + [events[n]];
    RunSnoc(b, events[..n], events[n]);
  }

  lemma {:induction false} SoundRun(b: Book, events: seq<Event>, n: nat)
    requires Sound(b) && n <= |events|
    ensures Sound(Run(b, events[..n]))
  {
    hide Sound, MatchSpec.Dispatch;
    if n > 0 {
      SoundRun(b, events, n - 1);
      RunNext(b, events, n - 1);
      DispatchSound(events[n - 1].mode, Run(b, events[..n - 1]), events[n - 1].order);
    }
  }

  /** Up to n, history and run agree. */
  lemma {:induction false} HappensUpTo(b: Book, events: seq<Event>, outcomes: seq<MatchOutcome>, n: nat)
    requires Sound(b) && Happens(b, events, outcomes) && n <= |events|
    ensures Run(b, events[..n]) == BookAfter(b, outcomes, n)
    ensures forall i :: 0 <= i < n ==> Reports(b, events[..n])[i] == (outcomes[i].fills, outcomes[i].stats)
  {
    hide Sound, MatchSpec.Dispatch, Dispatched, Run, Reports;
    if n == 0 {
      RunsNothing(b);
    } else {
      HappensUpTo(b, events, outcomes, n - 1);
      RunNext(b, events, n - 1);
      SoundRun(b, events, n - 1);
      DispatchIsDetermined(events[n - 1].mode, Run(b, events[..n - 1]), events[n - 1].order, outcomes[n - 1]);
    }
  }

  lemma RunHappens(b: Book, events: seq<Event>, outcomes: seq<MatchOutcome>)
    requires Sound(b) && |outcomes| == |events|
    requires forall i :: 0 <= i < |events| ==>
               outcomes[i] == MatchSpec.Dispatch(events[i].mode, Run(b, events[..i]), events[i].order)
    ensures Happens(b, events, outcomes)
  {
    hide Sound, MatchSpec.Dispatch, Dispatched, Run;
    forall i | 0 <= i < |events|
      ensures Dispatched(events[i].mode, BookAfter(b, outcomes, i), events[i].order, outcomes[i])
    {
      if i > 0 {
        RunNext(b, events, i - 1);
      } else {
        RunsNothing(b);
        assert events[..0] == [];
      }
      SoundRun(b, events, i);
      DispatchIsDetermined(events[i].mode, Run(b, events[..i]), events[i].order, outcomes[i]);
    }
  }

  // ---------- Main result ----------

  /** From any sound book a stream of events has exactly one history, and the engine's book and reports are its. */
  lemma RunIsTheHistory(b: Book, events: seq<Event>)
    requires Sound(b)
    ensures exists outcomes: seq<MatchOutcome> :: Happens(b, events, outcomes)
    ensures forall outcomes: seq<MatchOutcome> {:trigger Happens(b, events, outcomes)} :: Happens(b, events, outcomes) ==>
              && Run(b, events) == BookAfter(b, outcomes, |events|)
              && forall i :: 0 <= i < |events| ==> Reports(b, events)[i] == (outcomes[i].fills, outcomes[i].stats)
  {
    hide Sound, MatchSpec.Dispatch, Dispatched, Run, Reports, Happens, BookAfter;
    var all := seq(|events|, i requires 0 <= i < |events| =>
                               MatchSpec.Dispatch(events[i].mode, Run(b, events[..i]), events[i].order));
    RunHappens(b, events, all);
    forall outcomes: seq<MatchOutcome> | Happens(b, events, outcomes)
      ensures |outcomes| == |events| && Run(b, events) == BookAfter(b, outcomes, |events|)
      ensures forall i :: 0 <= i < |events| ==> Reports(b, events)[i] == (outcomes[i].fills, outcomes[i].stats)
    {
      OneForEach(b, events, outcomes);
      HappensUpTo(b, events, outcomes, |events|);
      assert events[..|events|] == events;
    }
  }

  lemma OneForEach(b: Book, events: seq<Event>, outcomes: seq<MatchOutcome>)
    requires Happens(b, events, outcomes)
    ensures |outcomes| == |events|
  {
  }
}
