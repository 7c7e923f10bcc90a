/**
 The release preview of the open title: which answers may land, and what a render shows,
 over every interleaving of renders, effects, runs, answers and clears.
 */
module Preview {
  import opened Wrappers

  /** A stored answer: the title it was asked for, the run that asked, and the answer. */
  datatype Stored = Stored(key: string, run: nat, value: string)

  /** What a started run keeps in its closure. */
  datatype Run = Run(key: string, epoch: nat)

  datatype State = State(
    title: Option<string>,        // the key of the last render
    epoch: nat,                   // `runEpoch.current`
    stored: Option<Stored>,       // `previewState`
    clearedFor: Option<string>,   // `clearedForTitleKey`
    effectDue: bool,              // the last render changed the key and its effect has not run
    runs: seq<Run>,               // every run so far
    shown: Option<Stored>,        // what the last render shows
    reported: seq<nat>)           // the runs whose failure was shown to the operator

  datatype Event =
    | Render(title: Option<string>)
    | FlushEffects
    | StartRun(title: Option<string>)   // the title of the render whose callback is called
    | Respond(run: nat, result: Option<string>)
    | Clear

  function Mounted(title: Option<string>): State {
    State(title, 0, None, title, true, [], None, [])
  }

  function Flushed(s: State): State {
    if s.effectDue then s.(epoch := s.epoch + 1, effectDue := false) else s
  }

  function Matching(stored: Option<Stored>, title: Option<string>): Option<Stored> {
    if stored.Some? && Some(stored.value.key) == title then stored else None
  }

  /** One render, its state adjustments included. */
  function Rendered(s: State, title: Option<string>): State {
    var kept := if s.clearedFor != title then None else s.stored;
    s.(title := title, effectDue := s.effectDue || s.title != title, clearedFor := title, stored := kept,
       shown := Matching(kept, title))
  }

  function Started(s: State, key: string): State {
    s.(epoch := s.epoch + 1, runs := s.runs + [Run(key, s.epoch + 1)])
  }

  predicate Lands(s: State, run: nat) {
    run < |s.runs| && s.runs[run].epoch == s.epoch
  }

  /** Due effects run before the next render. */
  function Step(s: State, e: Event): State {
    match e
    case Render(title) => Rendered(Flushed(s), title)
    case FlushEffects => Flushed(s)
    case StartRun(title) => if title.Some? then Started(s, title.value) else s
    case Respond(run, result) =>
      if !Lands(s, run) then s
      else if result.Some? then s.(stored := Some(Stored(s.runs[run].key, run, result.value)))
      else s.(reported := s.reported + [run])
    case Clear => s.(epoch := s.epoch + 1, stored := None)
  }

  /** The hook: a ref and two states, changed in place by renders, effects and callbacks. */
  class TitlePreview {
    var title: Option<string>
    var runEpoch: nat
    var previewState: Option<Stored>
    var clearedForTitleKey: Option<string>
    var effectDue: bool
    var runs: seq<Run>
    var shown: Option<Stored>
    var reported: seq<nat>

    ghost function Now(): State
      reads this
    {
      State(title, runEpoch, previewState, clearedForTitleKey, effectDue, runs, shown, reported)
    }

    constructor (titleKey: Option<string>)
      ensures Now() == Mounted(titleKey)
    {
      title, runEpoch, previewState, clearedForTitleKey := titleKey, 0, None, titleKey;
      effectDue, runs, shown, reported := true, [], None, [];
    }

    method RunEffects()
      modifies this
      ensures Now() == Step(old(Now()), FlushEffects)
    {
      if effectDue {
        runEpoch := runEpoch + 1;
        effectDue := false;
      }
    }

    method RenderTitle(titleKey: Option<string>)
      modifies this
      ensures Now() == Step(old(Now()), Render(titleKey))
    {
      RunEffects();
      effectDue := title != titleKey;
      title := titleKey;
      if clearedForTitleKey != titleKey {
        clearedForTitleKey := titleKey;
        previewState := None;
      }
      shown := if previewState.Some? && Some(previewState.value.key) == titleKey then previewState else None;
    }

    method RunPreview(captured: Option<string>)
      modifies this
      ensures Now() == Step(old(Now()), StartRun(captured))
    {
      if captured.None? { return; }
      runEpoch := runEpoch + 1;
      runs := runs + [Run(captured.value, runEpoch)];
    }

    /** The rest of a run, once its request has an answer or has failed. */
    method Settle(run: nat, result: Option<string>)
      requires run < |runs|
      modifies this
      ensures Now() == Step(old(Now()), Respond(run, result))
    {
      if runEpoch != runs[run].epoch { return; }
      if result.Some? {
        previewState := Some(Stored(runs[run].key, run, result.value));
      } else {
        reported := reported + [run];
      }
    }

    method ClearPreview()
      modifies this
      ensures Now() == Step(old(Now()), Clear)
    {
      runEpoch := runEpoch + 1;
      previewState := None;
    }
  }

  // ----- runs of events, with the times the promise speaks of

  /**
   What has happened, told from the events alone: the title, when it last changed, whether its
   effect is still to come, when the preview was last cleared, when a clear or a title's effect
   last came, and when and for which title each run was started.
   */
  datatype History = History(now: nat, title: Option<string>, due: bool, changed: nat, cleared: nat, bumped: nat,
                             starts: seq<nat>, asked: seq<string>)

  function Noted(h: History, e: Event): History {
    var ran := h.due && (e.Render? || e.FlushEffects?);
    History(
      h.now + 1,
      if e.Render? then e.title else h.title,
      if e.Render? then e.title != h.title else h.due && !ran,
      if e.Render? && e.title != h.title then h.now else h.changed,
      if e.Clear? then h.now else h.cleared,
      if e.Clear? || ran then h.now else h.bumped,
      if e.StartRun? && e.title.Some? then h.starts + [h.now] else h.starts,
      if e.StartRun? && e.title.Some? then h.asked + [e.title.value] else h.asked)
  }

  function StateAfter(first: Option<string>, events: seq<Event>): State {
    if events == [] then Mounted(first)
    else Step(StateAfter(first, events[..|events| - 1]), events[|events| - 1])
  }

  function HistoryAfter(first: Option<string>, events: seq<Event>): History {
    if events == [] then History(1, first, true, 0, 0, 0, [], [])
    else Noted(HistoryAfter(first, events[..|events| - 1]), events[|events| - 1])
  }

  /**
   The hypothesis: a run starts from the callback of the last render, or in the gap before
   that render's effect.
   */
  predicate Current(h: History, e: Event) {
    e.StartRun? && e.title.Some? ==> e.title == h.title || h.due
  }

  predicate AllCurrent(first: Option<string>, events: seq<Event>) {
    events == []
    || (AllCurrent(first, events[..|events| - 1])
        && Current(HistoryAfter(first, events[..|events| - 1]), events[|events| - 1]))
  }

  // ----- the invariant

  /** The hook knows what has happened of title, effect and runs. */
  ghost predicate Mirrors(s: State, h: History) {
    && h.title == s.title && h.due == s.effectDue && |h.asked| == |s.runs|
    && forall i :: 0 <= i < |s.runs| ==> s.runs[i].key == h.asked[i]
  }

  /** Epochs and start times grow from run to run. */
  ghost predicate Ordered(s: State, h: History) {
    && |h.starts| == |s.runs| && h.changed < h.now && h.cleared < h.now && h.bumped < h.now
    && (forall i :: 0 <= i < |s.runs| ==> s.runs[i].epoch <= s.epoch && h.starts[i] < h.now)
    && (forall i, j :: 0 <= i < j < |s.runs| ==> s.runs[i].epoch < s.runs[j].epoch && h.starts[i] < h.starts[j])
  }

  /** A run is current when it is the newest and nothing moved the epoch since. */
  ghost predicate EpochTells(s: State, h: History) {
    && |h.starts| == |s.runs| && s.clearedFor == s.title
    && h.cleared <= h.bumped && (!s.effectDue ==> h.changed <= h.bumped)
    && forall i :: 0 <= i < |s.runs| ==>
         (s.runs[i].epoch == s.epoch <==> i == |s.runs| - 1 && h.starts[i] > h.bumped)
  }

  /** Every run the epoch may still let land that is older than the title asks for another. */
  ghost predicate KeysTell(s: State, h: History) {
    |h.starts| == |s.runs|
    && forall i :: 0 <= i < |s.runs| && h.starts[i] > h.bumped ==>
      && (!s.effectDue ==> Some(s.runs[i].key) == s.title)
      && (h.starts[i] < h.changed ==> Some(s.runs[i].key) != s.title)
      && h.starts[i] != h.changed
  }

  /** The answer is that of a run for this title, started after the title and the last clear. */
  predicate Fresh(a: Stored, s: State, h: History) {
    && a.run < |s.runs| && |h.starts| == |s.runs| && a.key == s.runs[a.run].key
    && h.starts[a.run] > h.cleared
    && (Some(a.key) == s.title ==> h.starts[a.run] > h.changed)
  }

  ghost predicate Inv(s: State, h: History) {
    && Mirrors(s, h) && Ordered(s, h) && EpochTells(s, h) && KeysTell(s, h)
    && (s.stored.Some? ==> Fresh(s.stored.value, s, h))
  }

  lemma MirrorStep(s: State, h: History, e: Event)
    requires Mirrors(s, h)
    ensures Mirrors(Step(s, e), Noted(h, e))
  {
  }

  lemma OrderedStep(s: State, h: History, e: Event)
    requires Mirrors(s, h) && Ordered(s, h) && EpochTells(s, h)
    ensures Ordered(Step(s, e), Noted(h, e))
  {
  }

  lemma EpochStep(s: State, h: History, e: Event)
    requires Mirrors(s, h) && Ordered(s, h) && EpochTells(s, h)
    ensures EpochTells(Step(s, e), Noted(h, e))
  {
  }

  lemma KeysStep(s: State, h: History, e: Event)
    requires Inv(s, h) && Current(h, e)
    ensures KeysTell(Step(s, e), Noted(h, e))
  {
  }

  lemma StoredStep(s: State, h: History, e: Event)
    requires Inv(s, h) && Current(h, e) && Step(s, e).stored.Some?
    ensures Fresh(Step(s, e).stored.value, Step(s, e), Noted(h, e))
  {
  }

  lemma {:induction false} Reached(first: Option<string>, events: seq<Event>)
    requires AllCurrent(first, events)
    ensures Inv(StateAfter(first, events), HistoryAfter(first, events))
    decreases |events|
  {
    if events != [] {
      var init, last := events[..|events| - 1], events[|events| - 1];
      Reached(first, init);
      var s, h := StateAfter(first, init), HistoryAfter(first, init);
      MirrorStep(s, h, last);
      OrderedStep(s, h, last);
      EpochStep(s, h, last);
      KeysStep(s, h, last);
      if Step(s, last).stored.Some? { StoredStep(s, h, last); }
    }
  }

  /**
   Over every interleaving: what a render shows belongs to its title and comes from a run
   started after the latest change of title and after the latest clear; a render that
   changes the title shows nothing.
   */
  lemma ShownIsFresh(first: Option<string>, events: seq<Event>, title: Option<string>)
    requires AllCurrent(first, events)
    ensures var before, all := HistoryAfter(first, events), events + [Render(title)];
            var s, h := StateAfter(first, all), HistoryAfter(first, all);
            && (s.shown.Some? ==>
                  && Some(s.shown.value.key) == title
                  && s.shown.value.run < |h.starts|
                  && h.starts[s.shown.value.run] > h.changed && h.starts[s.shown.value.run] > h.cleared)
            && (before.title != title ==> s.shown == None)
  {
    var s, h := StateAfter(first, events), HistoryAfter(first, events);
    Reached(first, events);
    LastEvent(first, events, Render(title));
    RenderShowsFresh(s, h, title);
  }

  lemma LastEvent(first: Option<string>, events: seq<Event>, e: Event)
    ensures StateAfter(first, events + [e]) == Step(StateAfter(first, events), e)
    ensures HistoryAfter(first, events + [e]) == Noted(HistoryAfter(first, events), e)
  {
    assert (events + [e])[..|events|] == events;
  }

  lemma RenderShowsFresh(s: State, h: History, title: Option<string>)
    requires Inv(s, h)
    ensures var e := Render(title);
            var s', h' := Step(s, e), Noted(h, e);
            && (s'.shown.Some? ==>
                  && Some(s'.shown.value.key) == title
                  && s'.shown.value.run < |h'.starts|
                  && h'.starts[s'.shown.value.run] > h'.changed && h'.starts[s'.shown.value.run] > h'.cleared)
            && (s.title != title ==> s'.shown == None)
  {
  }

  lemma {:induction false} OrderReached(first: Option<string>, events: seq<Event>)
    ensures Mirrors(StateAfter(first, events), HistoryAfter(first, events))
    ensures Ordered(StateAfter(first, events), HistoryAfter(first, events))
    ensures EpochTells(StateAfter(first, events), HistoryAfter(first, events))
    decreases |events|
  {
    if events != [] {
      var init, last := events[..|events| - 1], events[|events| - 1];
      OrderReached(first, init);
      MirrorStep(StateAfter(first, init), HistoryAfter(first, init), last);
      OrderedStep(StateAfter(first, init), HistoryAfter(first, init), last);
      EpochStep(StateAfter(first, init), HistoryAfter(first, init), last);
    }
  }

  /** The run is the newest, and no clear and no title's effect has come since it started. */
  predicate MayLand(h: History, run: nat) {
    run + 1 == |h.starts| && h.starts[run] > h.bumped
  }

  lemma LandsWhenItMay(first: Option<string>, events: seq<Event>, run: nat)
    ensures Lands(StateAfter(first, events), run) <==> MayLand(HistoryAfter(first, events), run)
  {
    OrderReached(first, events);
  }

  /**
   Whatever callbacks the runs were started from: an answer is stored under the title its run
   asked for, and a failure reported, exactly when the run may land, and nothing else changes.
   */
  lemma LandsExactly(first: Option<string>, events: seq<Event>, run: nat, result: Option<string>)
    requires run < |HistoryAfter(first, events).starts|
    ensures var s, h := StateAfter(first, events), HistoryAfter(first, events);
            && |h.asked| == |h.starts|
            && StateAfter(first, events + [Respond(run, result)])
               == if !MayLand(h, run) then s
                  else if result.Some? then s.(stored := Some(Stored(h.asked[run], run, result.value)))
                  else s.(reported := s.reported + [run])
  {
    OrderReached(first, events);
    LandsWhenItMay(first, events, run);
    LastEvent(first, events, Respond(run, result));
  }

  /** An event that neither clears, nor leaves the title, nor answers as late as the run. */
  predicate Keeps(e: Event, key: string, run: nat) {
    match e
    case Render(title) => title == Some(key)
    case Respond(other, result) => result.None? || other < run
    case Clear => false
    case _ => true
  }

  lemma {:induction false} StaysStored(first: Option<string>, events: seq<Event>, stretch: seq<Event>,
                                       key: string, run: nat, value: string)
    requires StateAfter(first, events).stored == Some(Stored(key, run, value))
    requires HistoryAfter(first, events).title == Some(key) && run < |HistoryAfter(first, events).starts|
    requires forall e | e in stretch :: Keeps(e, key, run)
    ensures StateAfter(first, events + stretch).stored == Some(Stored(key, run, value))
    ensures HistoryAfter(first, events + stretch).title == Some(key)
    ensures run < |HistoryAfter(first, events + stretch).starts|
    decreases |stretch|
  {
    if stretch == [] {
      assert events + stretch == events;
    } else {
      var init, e := stretch[..|stretch| - 1], stretch[|stretch| - 1];
      assert stretch == init + [e] && e in stretch;
      StaysStored(first, events, init, key, run, value);
      LastEvent(first, events + init, e);
      OrderReached(first, events + init);
      if e.Respond? { LandsWhenItMay(first, events + init, e.run); }
      assert events + stretch == (events + init) + [e];
    }
  }

  /**
   The answer of a run that may land, asked for the title that is open, is what every render of
   that title shows, until the preview is cleared, the title changes or a newer run answers.
   */
  lemma LandedIsShown(first: Option<string>, events: seq<Event>, run: nat, value: string, stretch: seq<Event>)
    requires var h := HistoryAfter(first, events);
             && MayLand(h, run) && run < |h.asked| && h.title == Some(h.asked[run])
             && forall e | e in stretch :: Keeps(e, h.asked[run], run)
    ensures var key := HistoryAfter(first, events).asked[run];
            StateAfter(first, events + [Respond(run, Some(value))] + stretch + [Render(Some(key))]).shown
            == Some(Stored(key, run, value))
  {
    var key, landed := HistoryAfter(first, events).asked[run], events + [Respond(run, Some(value))];
    LandsExactly(first, events, run, Some(value));
    LastEvent(first, events, Respond(run, Some(value)));
    StaysStored(first, landed, stretch, key, run, value);
    OrderReached(first, landed + stretch);
    LastEvent(first, landed + stretch, Render(Some(key)));
  }

  // ----- what the hypothesis and the flush are for

  /** From any state, a callback of another title's render breaks the promise unless an effect is due. */
  lemma StaleCallback(first: Option<string>, events: seq<Event>, key: string, value: string)
    requires var h := HistoryAfter(first, events); h.title != Some(key) && !h.due
    ensures var all := events + [StartRun(Some(key)), Render(Some(key)),
                                 Respond(|StateAfter(first, events).runs|, Some(value)), Render(Some(key))];
            var s, h := StateAfter(first, all), HistoryAfter(first, all);
            s.shown.Some? && |h.starts| == |s.runs| && s.shown.value.run < |h.starts|
            && h.starts[s.shown.value.run] < h.changed
  {
    var s, h := StateAfter(first, events), HistoryAfter(first, events);
    var run := |s.runs|;
    OrderReached(first, events);
    StaleSteps(s, h, key, value);
    FourEvents(first, events, StartRun(Some(key)), Render(Some(key)), Respond(run, Some(value)), Render(Some(key)));
  }

  lemma FourEvents(first: Option<string>, events: seq<Event>, a: Event, b: Event, c: Event, d: Event)
    ensures var s, h := StateAfter(first, events), HistoryAfter(first, events);
            var s1, h1 := Step(s, a), Noted(h, a);
            var s2, h2 := Step(s1, b), Noted(h1, b);
            var s3, h3 := Step(s2, c), Noted(h2, c);
            && StateAfter(first, events + [a, b, c, d]) == Step(s3, d)
            && HistoryAfter(first, events + [a, b, c, d]) == Noted(h3, d)
  {
    var half := events + [a, b];
    TwoEvents(first, events, a, b);
    TwoEvents(first, half, c, d);
    assert half + [c, d] == events + [a, b, c, d];
  }

  lemma TwoEvents(first: Option<string>, events: seq<Event>, a: Event, b: Event)
    ensures var s, h := StateAfter(first, events), HistoryAfter(first, events);
            && StateAfter(first, events + [a, b]) == Step(Step(s, a), b)
            && HistoryAfter(first, events + [a, b]) == Noted(Noted(h, a), b)
  {
    var one, two := events + [a], events + [a, b];
    assert one[..|events|] == events && one[|events|] == a;
    assert two[..|one|] == one && two[|one|] == b;
  }

  lemma StaleSteps(s: State, h: History, key: string, value: string)
    requires Mirrors(s, h) && Ordered(s, h) && EpochTells(s, h) && s.title != Some(key) && !s.effectDue
    ensures var a, b, c, d := StartRun(Some(key)), Render(Some(key)), Respond(|s.runs|, Some(value)), Render(Some(key));
            var s1, h1 := Step(s, a), Noted(h, a);
            var s2, h2 := Step(s1, b), Noted(h1, b);
            var s3, h3 := Step(s2, c), Noted(h2, c);
            var s4, h4 := Step(s3, d), Noted(h3, d);
            s4.shown == Some(Stored(key, |s.runs|, value)) && |h4.starts| == |s4.runs| == |s.runs| + 1
            && h4.starts[|s.runs|] < h4.changed
  {
    var s1 := Step(s, StartRun(Some(key)));
    var s2 := Step(s1, Render(Some(key)));
    assert s2.runs[|s.runs|] == Run(key, s.epoch + 1) && s2.epoch == s.epoch + 1;
    assert Lands(s2, |s.runs|);
  }

  /** Were renders not preceded by due effects, going away and back would revive an old run. */
  lemma WithoutFlushing(a: string, b: string, value: string)
    requires a != b
    ensures var s := Step(Flushed(Mounted(Some(a))), StartRun(Some(a)));
            var back := Rendered(Rendered(s, Some(b)), Some(a));
            Rendered(Step(back, Respond(0, Some(value))), Some(a)).shown == Some(Stored(a, 0, value))
  {
  }
}
