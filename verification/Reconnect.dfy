/** The realtime stream's life: the watchdog over one connection, the backoff over many. */
module Reconnect {
  import opened Wrappers

  datatype Config = Config(baseDelay: nat, maxDelay: nat, heartbeat: nat, watchdog: nat, stability: nat)

  // ----- one connection

  /** What happens while a stream is read: a chunk with the versions its events name, a watchdog tick, the end. */
  datatype Event =
    | Chunk(time: int, versions: seq<string>)
    | Tick(time: int)
    | End(time: int)

  datatype Watch = Watch(lastByteAt: int, endedAt: Option<int>, aborted: bool, versions: seq<string>)

  function Connected(at: int): Watch {
    Watch(at, None, false, [])
  }

  /** Once the stream has ended or was aborted nothing reads it. */
  function Watched(c: Config, w: Watch, e: Event): Watch {
    if w.endedAt.Some? then w
    else
      match e
      case Chunk(t, versions) => w.(lastByteAt := t, versions := w.versions + versions)
      case Tick(t) => if t - w.lastByteAt > c.watchdog then w.(endedAt := Some(t), aborted := true) else w
      case End(t) => w.(endedAt := Some(t))
  }

  function WatchAfter(c: Config, at: int, trace: seq<Event>): Watch {
    if trace == [] then Connected(at)
    else Watched(c, WatchAfter(c, at, trace[..|trace| - 1]), trace[|trace| - 1])
  }

  function LastByte(at: int, trace: seq<Event>): int {
    if trace == [] then at
    else
      var e := trace[|trace| - 1];
      if e.Chunk? then e.time else LastByte(at, trace[..|trace| - 1])
  }

  function Ticks(trace: seq<Event>): nat {
    if trace == [] then 0
    else Ticks(trace[..|trace| - 1]) + if trace[|trace| - 1].Tick? then 1 else 0
  }

  /** An event at its time: no tick is overdue, and a tick is exactly on its beat. */
  predicate OnTime(c: Config, at: int, before: seq<Event>, e: Event) {
    && LatestTime(at, before) <= e.time <= at + c.heartbeat * (Ticks(before) + 1)
    && (e.Tick? ==> e.time == at + c.heartbeat * (Ticks(before) + 1))
  }

  function LatestTime(at: int, trace: seq<Event>): int {
    if trace == [] then at else trace[|trace| - 1].time
  }

  /** Ideal timers: time does not run back, and the interval fires on every beat. */
  predicate Ideal(c: Config, at: int, trace: seq<Event>) {
    forall i :: 0 <= i < |trace| ==> OnTime(c, at, trace[..i], trace[i])
  }

  /** Silence before every chunk and before the end is within the watchdog's patience. */
  predicate Lively(c: Config, at: int, trace: seq<Event>) {
    forall i :: 0 <= i < |trace| && !trace[i].Tick? ==> Patient(c, at, trace, i)
  }

  predicate Patient(c: Config, at: int, trace: seq<Event>, i: nat)
    requires i < |trace|
  {
    trace[i].time - LastByte(at, trace[..i]) <= c.watchdog
  }

  lemma IdealPrefix(c: Config, at: int, trace: seq<Event>, n: nat)
    requires Ideal(c, at, trace) && n <= |trace|
    ensures Ideal(c, at, trace[..n])
  {
    forall i | 0 <= i < n ensures OnTime(c, at, trace[..n][..i], trace[..n][i]) {
      assert trace[..n][..i] == trace[..i];
    }
  }

  /** Silence before a tick is no longer than before the chunk or the end that follows it. */
  lemma {:induction false} TicksArePatient(c: Config, at: int, trace: seq<Event>, i: nat)
    requires Ideal(c, at, trace) && Lively(c, at, trace) && i < |trace| && !trace[|trace| - 1].Tick?
    ensures Patient(c, at, trace, i)
    decreases |trace| - i
  {
    if trace[i].Tick? {
      TicksArePatient(c, at, trace, i + 1);
      assert trace[..i + 1][..i] == trace[..i];
      assert OnTime(c, at, trace[..i + 1], trace[i + 1]);
    }
  }

  /** While nothing ended the stream the watchdog's byte time is that of the last chunk. */
  lemma {:induction false} ByteTimeKept(c: Config, at: int, trace: seq<Event>)
    ensures WatchAfter(c, at, trace).endedAt.None? ==> WatchAfter(c, at, trace).lastByteAt == LastByte(at, trace)
    decreases |trace|
  {
    if trace != [] { ByteTimeKept(c, at, trace[..|trace| - 1]); }
  }

  /** With ideal timers a stream whose silences stay within the watchdog's time is never aborted. */
  lemma LivelyIsNotAborted(c: Config, at: int, trace: seq<Event>)
    requires Ideal(c, at, trace) && Lively(c, at, trace) && trace != [] && !trace[|trace| - 1].Tick?
    ensures !WatchAfter(c, at, trace).aborted
  {
    LivelySoFar(c, at, trace, |trace|);
    assert trace[..|trace|] == trace;
  }

  lemma {:induction false} LivelySoFar(c: Config, at: int, trace: seq<Event>, n: nat)
    requires Ideal(c, at, trace) && Lively(c, at, trace) && trace != [] && !trace[|trace| - 1].Tick? && n <= |trace|
    ensures !WatchAfter(c, at, trace[..n]).aborted
    decreases n
  {
    if n > 0 {
      LivelySoFar(c, at, trace, n - 1);
      TicksArePatient(c, at, trace, n - 1);
      ByteTimeKept(c, at, trace[..n - 1]);
      assert trace[..n][..n - 1] == trace[..n - 1];
    }
  }

  /** The last beat that did not abort was within the watchdog's time of the last byte. */
  lemma {:induction false} LastBeat(c: Config, at: int, trace: seq<Event>)
    requires Ideal(c, at, trace) && WatchAfter(c, at, trace).endedAt.None?
    ensures at + c.heartbeat * Ticks(trace) <= LastByte(at, trace) + c.watchdog
    ensures LastByte(at, trace) <= LatestTime(at, trace) && at <= LatestTime(at, trace)
    decreases |trace|
  {
    if trace != [] {
      var init := trace[..|trace| - 1];
      IdealPrefix(c, at, trace, |init|);
      LastBeat(c, at, init);
      ByteTimeKept(c, at, init);
      assert OnTime(c, at, init, trace[|init|]);
    }
  }

  /**
   With ideal timers silence is caught: nothing happens on a live stream later than one
   watchdog time and one heartbeat after its last byte, and an abort comes in between.
   */
  lemma SilenceIsCaught(c: Config, at: int, trace: seq<Event>, e: Event)
    requires Ideal(c, at, trace + [e]) && WatchAfter(c, at, trace).endedAt.None?
    ensures e.time - LastByte(at, trace) <= c.watchdog + c.heartbeat
    ensures WatchAfter(c, at, trace + [e]).aborted <==> e.Tick? && e.time - LastByte(at, trace) > c.watchdog
  {
    var all := trace + [e];
    assert all[..|trace|] == trace && all[|trace|] == e;
    IdealPrefix(c, at, all, |trace|);
    NeverAbortedOpen(c, at, trace);
    LastBeat(c, at, trace);
    ByteTimeKept(c, at, trace);
    assert OnTime(c, at, all[..|trace|], all[|trace|]);
    assert at + c.heartbeat * (Ticks(trace) + 1) == at + c.heartbeat * Ticks(trace) + c.heartbeat;
  }

  lemma {:induction false} NeverAbortedOpen(c: Config, at: int, trace: seq<Event>)
    ensures WatchAfter(c, at, trace).endedAt.None? ==> !WatchAfter(c, at, trace).aborted
    decreases |trace|
  {
    if trace != [] { NeverAbortedOpen(c, at, trace[..|trace| - 1]); }
  }

  // ----- what a stream tells, from its events alone

  /** The event ends the stream, or is a tick too long after the last byte. */
  predicate Closes(c: Config, at: int, trace: seq<Event>, j: nat)
    requires j < |trace|
  {
    trace[j].End? || (trace[j].Tick? && trace[j].time - LastByte(at, trace[..j]) > c.watchdog)
  }

  predicate OverBefore(c: Config, at: int, trace: seq<Event>, n: nat)
    requires n <= |trace|
  {
    exists j :: 0 <= j < n && Closes(c, at, trace, j)
  }

  /** The versions of all chunks that came before the stream was over, in order. */
  function HeardOn(c: Config, at: int, trace: seq<Event>): seq<string> {
    if trace == [] then []
    else
      var init, e := trace[..|trace| - 1], trace[|trace| - 1];
      HeardOn(c, at, init) + if e.Chunk? && !OverBefore(c, at, init, |init|) then e.versions else []
  }

  /** When the stream was over: the time of what closed it, or of the last thing that happened. */
  function StreamEnd(c: Config, at: int, trace: seq<Event>): int {
    if trace == [] then at
    else
      var init, e := trace[..|trace| - 1], trace[|trace| - 1];
      if OverBefore(c, at, init, |init|) then StreamEnd(c, at, init) else e.time
  }

  lemma OverSnoc(c: Config, at: int, init: seq<Event>, e: Event)
    ensures OverBefore(c, at, init + [e], |init| + 1)
       <==> OverBefore(c, at, init, |init|) || e.End? || (e.Tick? && e.time - LastByte(at, init) > c.watchdog)
  {
    var all := init + [e];
    assert all[..|init|] == init && all[|init|] == e;
    assert Closes(c, at, all, |init|) <==> e.End? || (e.Tick? && e.time - LastByte(at, init) > c.watchdog);
    forall j | 0 <= j < |init| ensures Closes(c, at, all, j) <==> Closes(c, at, init, j) {
      assert all[..j] == init[..j];
    }
  }

  /** The watch keeps what the events tell. */
  lemma {:induction false} WatchTells(c: Config, at: int, trace: seq<Event>)
    ensures var w := WatchAfter(c, at, trace);
            && (w.endedAt.Some? <==> OverBefore(c, at, trace, |trace|))
            && w.versions == HeardOn(c, at, trace)
            && StreamEnd(c, at, trace) == if w.endedAt.Some? then w.endedAt.value else LatestTime(at, trace)
    decreases |trace|
  {
    if trace != [] {
      var init, e := trace[..|trace| - 1], trace[|trace| - 1];
      WatchTells(c, at, init);
      ByteTimeKept(c, at, init);
      OverSnoc(c, at, init, e);
      assert trace == init + [e];
    }
  }

  // ----- many connections

  datatype Stop = Never | DuringAttempt | DuringSleep

  /** One pass of the loop: how the request went, and whether the owner stops the stream meanwhile. */
  datatype Attempt =
    | Failing(stop: Stop)
    | Unauthorized(stop: Stop)
    | Forbidden(stop: Stop)
    | Streaming(at: int, trace: seq<Event>, stop: Stop)

  datatype Session = Session(attempt: nat, delays: seq<nat>, known: Option<string>, reload: bool,
                             expired: bool, done: bool)

  const STARTED := Session(0, [], None, false, false, false)

  function Min(a: nat, b: nat): nat {
    if a < b then a else b
  }

  function Power(n: nat): nat {
    if n == 0 then 1 else 2 * Power(n - 1)
  }

  function Delay(c: Config, attempt: nat): nat {
    Min(c.maxDelay, c.baseDelay * Power(Min(attempt, 4)))
  }

  /** `noteVersion` */
  function NotedOne(s: Session, version: string): Session {
    if s.known.None? then s.(known := Some(version))
    else if s.known.value != version then s.(reload := true)
    else s
  }

  function Noted(s: Session, versions: seq<string>): Session {
    if versions == [] then s else NotedOne(Noted(s, versions[..|versions| - 1]), versions[|versions| - 1])
  }

  predicate Outlives(c: Config, a: Attempt) {
    a.Streaming? && StreamEnd(c, a.at, a.trace) - a.at >= c.stability
  }

  predicate Refused(a: Attempt) {
    a.Unauthorized? || a.Forbidden?
  }

  function Heard(c: Config, a: Attempt): seq<string> {
    if a.Streaming? then HeardOn(c, a.at, a.trace) else []
  }

  function Passed(c: Config, s: Session, a: Attempt): Session {
    var t := Noted(s, Heard(c, a));
    if s.done then s
    else if Refused(a) then t.(done := true, expired := a.Unauthorized?)
    else if a.stop.DuringAttempt? then t.(done := true)
    else
      var n := (if Outlives(c, a) then 0 else t.attempt) + 1;
      t.(attempt := n, delays := t.delays + [Delay(c, n)], done := a.stop.DuringSleep?)
  }

  function SessionAfter(c: Config, attempts: seq<Attempt>): Session {
    if attempts == [] then STARTED
    else Passed(c, SessionAfter(c, attempts[..|attempts| - 1]), attempts[|attempts| - 1])
  }

  class RealtimeStream {
    const config: Config
    var stopped: bool
    var connected: bool
    var lastByteAt: int
    var knownVersion: Option<string>
    var reloadRequired: bool
    var authExpired: bool
    var delays: seq<nat>
    var aborted: bool

    constructor (c: Config)
      ensures config == c && !stopped && !connected && knownVersion == None && !reloadRequired && !authExpired
      ensures delays == []
    {
      config := c;
      stopped, connected, lastByteAt, knownVersion := false, false, 0, None;
      reloadRequired, authExpired, delays, aborted := false, false, [], false;
    }

    /** The stream has noted what the session has. */
    ghost predicate HasNoted(s: Session)
      reads this`knownVersion, this`reloadRequired
    {
      knownVersion == s.known && reloadRequired == s.reload
    }

    method NoteVersion(version: string, ghost s: Session)
      requires HasNoted(s)
      modifies this`knownVersion, this`reloadRequired
      ensures HasNoted(NotedOne(s, version))
    {
      if knownVersion.None? {
        knownVersion := Some(version);
      } else if knownVersion.value != version {
        reloadRequired := true;
      }
    }

    /** The watchdog's interval: abort when the last byte is too long ago. */
    method OnTick(now: int)
      modifies this`aborted
      ensures aborted == (old(aborted) || now - lastByteAt > config.watchdog)
    {
      if now - lastByteAt > config.watchdog { aborted := true; }
    }

    /** Reads one stream to its end or its abort; yields the time it was over. */
    method ReadStream(at: int, trace: seq<Event>, ghost s: Session) returns (over: int)
      requires connected && HasNoted(s)
      modifies this`lastByteAt, this`aborted, this`knownVersion, this`reloadRequired
      ensures over == StreamEnd(config, at, trace) && HasNoted(Noted(s, HeardOn(config, at, trace)))
      ensures aborted == WatchAfter(config, at, trace).aborted
    {
      lastByteAt, aborted, over := at, false, at;
      var ended, k := false, 0;
      while k < |trace| && !ended
        invariant 0 <= k <= |trace|
        invariant var w := WatchAfter(config, at, trace[..k]);
                  && ended == w.endedAt.Some? && aborted == w.aborted && (!ended ==> lastByteAt == w.lastByteAt)
                  && over == (if w.endedAt.Some? then w.endedAt.value else LatestTime(at, trace[..k]))
                  && HasNoted(Noted(s, w.versions))
                  && (ended ==> WatchAfter(config, at, trace) == w)
                  && (!ended ==> !aborted)
        decreases |trace| - k
      {
        assert trace[..k + 1][..k] == trace[..k] && trace[..k + 1][k] == trace[k];
        ghost var w := WatchAfter(config, at, trace[..k]);
        match trace[k] {
          case Chunk(t, versions) =>
            lastByteAt := t;
            NoteVersions(versions, s, w.versions);
          case Tick(t) =>
            OnTick(t);
            ended := aborted;
          case End(t) =>
            ended := true;
        }
        over := trace[k].time;
        k := k + 1;
        if ended { EndedStays(config, at, trace, k); }
      }
      assert trace[..|trace|] == trace;
      WatchTells(config, at, trace);
    }

    method NoteVersions(versions: seq<string>, ghost s: Session, ghost before: seq<string>)
      requires HasNoted(Noted(s, before))
      modifies this`knownVersion, this`reloadRequired
      ensures HasNoted(Noted(s, before + versions))
    {
      assert before + versions[..0] == before;
      for i := 0 to |versions|
        invariant HasNoted(Noted(s, before + versions[..i]))
      {
        NotedOneMore(s, before + versions[..i], versions[i]);
        NoteVersion(versions[i], Noted(s, before + versions[..i]));
        assert before + versions[..i + 1] == before + versions[..i] + [versions[i]];
      }
      assert versions[..|versions|] == versions;
    }

    /** The stream is where the session is. */
    ghost predicate IsAt(s: Session)
      reads this`knownVersion, this`reloadRequired, this`delays, this`authExpired
    {
      HasNoted(s) && delays == s.delays && authExpired == s.expired
    }

    /** One request, and the stream it opens; yields whether the loop ends and whether it outlived the window. */
    method Connect(a: Attempt, ghost s: Session) returns (refused: bool, outlived: bool)
      requires IsAt(s) && !s.expired
      modifies this`connected, this`authExpired, this`lastByteAt, this`aborted, this`knownVersion, this`reloadRequired
      ensures refused == Refused(a) && outlived == Outlives(config, a) && !connected
      ensures HasNoted(Noted(s, Heard(config, a))) && authExpired == a.Unauthorized?
    {
      refused, outlived := false, false;
      match a {
        case Failing(_) =>
        case Unauthorized(_) =>
          authExpired, refused := true, true;
        case Forbidden(_) =>
          refused := true;
        case Streaming(at, trace, _) =>
          connected := true;
          var over := ReadStream(at, trace, s);
          outlived := over - at >= config.stability;
      }
      connected := false;
    }

    /** The wait after an attempt, in which the owner may stop the stream. */
    method BackOff(a: Attempt, outlived: bool, attempt: nat) returns (next: nat)
      modifies this`delays, this`stopped
      ensures next == (if outlived then 0 else attempt) + 1
      ensures delays == old(delays) + [Delay(config, next)] && stopped == a.stop.DuringSleep?
    {
      next := attempt;
      if outlived { next := 0; }
      next := next + 1;
      delays := delays + [Delay(config, next)];
      stopped := a.stop.DuringSleep?;
    }

    /** One pass of the loop. */
    method Pass(a: Attempt, attempt: nat, ghost s: Session) returns (refused: bool, next: nat)
      requires !stopped && !connected && IsAt(s) && !s.done && !s.expired && attempt == s.attempt
      modifies this
      ensures !connected && IsAt(Passed(config, s, a))
      ensures var t := Passed(config, s, a);
              t.done == (stopped || refused) && (!t.done ==> next == t.attempt && !t.expired)
    {
      var outlived;
      refused, outlived := Connect(a, s);
      NotedKeepsRest(s, Heard(config, a));
      next := attempt;
      if !refused {
        if a.stop.DuringAttempt? {
          stopped := true;
        } else {
          next := BackOff(a, outlived, attempt);
        }
      }
    }

    /** `run`: connect, read, back off, again, until refused or stopped. */
    method Run(attempts: seq<Attempt>)
      requires !stopped && !connected && IsAt(STARTED)
      modifies this
      ensures IsAt(SessionAfter(config, attempts)) && !connected
    {
      var attempt, k, refused := 0, 0, false;
      ghost var s := STARTED;
      while k < |attempts| && !stopped && !refused
        invariant 0 <= k <= |attempts| && !connected && s == SessionAfter(config, attempts[..k])
        invariant IsAt(s) && s.done == (stopped || refused) && (!s.done ==> attempt == s.attempt && !s.expired)
        decreases |attempts| - k
      {
        SessionOneMore(config, attempts, k);
        refused, attempt := Pass(attempts[k], attempt, s);
        s := Passed(config, s, attempts[k]);
        k := k + 1;
      }
      if k < |attempts| {
        DoneStays(config, attempts, k);
      } else {
        assert attempts[..k] == attempts;
      }
    }
  }

  lemma SessionOneMore(c: Config, attempts: seq<Attempt>, k: nat)
    requires k < |attempts|
    ensures SessionAfter(c, attempts[..k + 1]) == Passed(c, SessionAfter(c, attempts[..k]), attempts[k])
  {
    assert attempts[..k + 1][..k] == attempts[..k];
  }

  lemma NotedOneMore(s: Session, versions: seq<string>, version: string)
    ensures Noted(s, versions + [version]) == NotedOne(Noted(s, versions), version)
  {
    assert (versions + [version])[..|versions|] == versions;
  }

  lemma {:induction false} EndedStays(c: Config, at: int, trace: seq<Event>, k: nat)
    requires k <= |trace| && WatchAfter(c, at, trace[..k]).endedAt.Some?
    ensures WatchAfter(c, at, trace) == WatchAfter(c, at, trace[..k])
    decreases |trace| - k
  {
    if k < |trace| {
      assert trace[..k + 1][..k] == trace[..k];
      EndedStays(c, at, trace, k + 1);
    } else {
      assert trace[..k] == trace;
    }
  }

  /** Once refused or stopped, no later attempt changes anything. */
  lemma {:induction false} DoneStays(c: Config, attempts: seq<Attempt>, k: nat)
    requires k <= |attempts| && SessionAfter(c, attempts[..k]).done
    ensures SessionAfter(c, attempts) == SessionAfter(c, attempts[..k])
    decreases |attempts| - k
  {
    if k < |attempts| {
      assert attempts[..k + 1][..k] == attempts[..k];
      DoneStays(c, attempts, k + 1);
    } else {
      assert attempts[..k] == attempts;
    }
  }

  // ----- delays

  lemma NotedKeepsRest(s: Session, versions: seq<string>)
    ensures Noted(s, versions) == s.(known := Noted(s, versions).known, reload := Noted(s, versions).reload)
  {
  }

  lemma PowerBounds(n: nat)
    requires 1 <= n <= 4
    ensures 2 <= Power(n) <= 16
  {
    assert Power(1) == 2 && Power(2) == 4 && Power(3) == 8 && Power(4) == 16;
  }

  lemma DelayBounds(c: Config, attempt: nat)
    requires attempt >= 1
    ensures Min(c.maxDelay, 2 * c.baseDelay) <= Delay(c, attempt) <= Min(c.maxDelay, 16 * c.baseDelay)
  {
    var p := Power(Min(attempt, 4));
    PowerBounds(Min(attempt, 4));
    assert 2 * c.baseDelay <= c.baseDelay * p <= 16 * c.baseDelay;
  }

  lemma {:induction false} PowerGrows(m: nat, n: nat)
    requires m <= n
    ensures Power(m) <= Power(n)
  {
    if m < n { PowerGrows(m, n - 1); }
  }

  lemma DelayGrows(c: Config, m: nat, n: nat)
    requires m <= n
    ensures Delay(c, m) <= Delay(c, n)
  {
    var p, q := Power(Min(m, 4)), Power(Min(n, 4));
    PowerGrows(Min(m, 4), Min(n, 4));
    assert c.baseDelay * p <= c.baseDelay * q;
  }

  /** How many attempts, the last one included, since a connection last outlived the window. */
  function Streak(c: Config, attempts: seq<Attempt>): nat {
    if attempts == [] then 0
    else if Outlives(c, attempts[|attempts| - 1]) then 1
    else Streak(c, attempts[..|attempts| - 1]) + 1
  }

  /** The waits so far, each as long as the streak of its attempt says. */
  predicate FollowStreaks(c: Config, attempts: seq<Attempt>, delays: seq<nat>) {
    && |delays| <= |attempts|
    && forall i | 0 <= i < |delays| :: delays[i] == Delay(c, Streak(c, attempts[..i + 1]))
  }

  lemma FollowOn(c: Config, init: seq<Attempt>, a: Attempt, delays: seq<nat>)
    requires FollowStreaks(c, init, delays)
    ensures FollowStreaks(c, init + [a], delays)
    ensures |delays| == |init| ==> FollowStreaks(c, init + [a], delays + [Delay(c, Streak(c, init + [a]))])
  {
    var all := init + [a];
    assert all[..|all|] == all;
    forall i | 0 <= i < |delays| ensures delays[i] == Delay(c, Streak(c, all[..i + 1])) {
      assert all[..i + 1] == init[..i + 1];
    }
  }

  lemma PassedWaits(c: Config, s: Session, a: Attempt)
    ensures var t, n := Passed(c, s, a), (if Outlives(c, a) then 0 else s.attempt) + 1;
            && (t.delays == s.delays || (!s.done && t.delays == s.delays + [Delay(c, n)]))
            && (!t.done ==> !s.done && t.attempt == n && t.delays == s.delays + [Delay(c, n)])
  {
    NotedKeepsRest(s, Heard(c, a));
  }

  /** A loop waits once for each attempt that it goes on from. */
  lemma {:induction false} DelaysAreStreaks(c: Config, attempts: seq<Attempt>)
    ensures var s := SessionAfter(c, attempts);
            && FollowStreaks(c, attempts, s.delays)
            && (!s.done ==> s.attempt == Streak(c, attempts) && |s.delays| == |attempts|)
    decreases |attempts|
  {
    if attempts != [] {
      var init, a := attempts[..|attempts| - 1], attempts[|attempts| - 1];
      var before := SessionAfter(c, init);
      DelaysAreStreaks(c, init);
      PassedWaits(c, before, a);
      FollowOn(c, init, a, before.delays);
      assert init + [a] == attempts;
    }
  }

  lemma {:induction false} StreakGrows(c: Config, attempts: seq<Attempt>, i: nat, j: nat)
    requires i <= j <= |attempts| && forall k | i <= k < j :: !Outlives(c, attempts[k])
    ensures Streak(c, attempts[..j]) == Streak(c, attempts[..i]) + j - i
    decreases j
  {
    if i < j {
      StreakGrows(c, attempts, i, j - 1);
      assert attempts[..j][..j - 1] == attempts[..j - 1];
    }
  }

  lemma StreakFrom(c: Config, attempts: seq<Attempt>, i: nat, j: nat)
    requires i <= j < |attempts| && (i > 0 ==> Outlives(c, attempts[i]))
    requires forall k | i < k <= j :: !Outlives(c, attempts[k])
    ensures Streak(c, attempts[..j + 1]) == j - i + 1
  {
    assert attempts[..i + 1][..i] == attempts[..i] && attempts[..i + 1][i] == attempts[i];
    assert attempts[..0] == [];
    StreakGrows(c, attempts, i + 1, j + 1);
  }

  /** The wait that a streak makes, spelled out. */
  lemma DelayReads(c: Config, n: nat)
    requires n >= 1
    ensures Delay(c, n)
         == Min(c.maxDelay, c.baseDelay * (if n == 1 then 2 else if n == 2 then 4 else if n == 3 then 8 else 16))
  {
    assert Power(1) == 2 && Power(2) == 4 && Power(3) == 8 && Power(4) == 16;
  }

  /**
   Every wait exactly: two, four, eight and then always sixteen times the base, up to the
   maximum, counted from the last connection that lasted for the stability window or else from
   the start; the wait after such a connection is the shortest again.
   */
  lemma BackoffExactly(c: Config, attempts: seq<Attempt>, i: nat, j: nat)
    requires i <= j < |attempts| && j < |SessionAfter(c, attempts).delays|
    requires var a := attempts[i]; i > 0 ==> a.Streaming? && StreamEnd(c, a.at, a.trace) - a.at >= c.stability
    requires forall k | i < k <= j ::
               var a := attempts[k]; a.Streaming? ==> StreamEnd(c, a.at, a.trace) - a.at < c.stability
    ensures var n := j - i + 1;
            SessionAfter(c, attempts).delays[j]
            == Min(c.maxDelay, c.baseDelay * (if n == 1 then 2 else if n == 2 then 4 else if n == 3 then 8 else 16))
  {
    DelaysAreStreaks(c, attempts);
    forall k | i < k <= j ensures !Outlives(c, attempts[k]) {
    }
    StreakFrom(c, attempts, i, j);
    DelayReads(c, j - i + 1);
  }

  /**
   Every wait lies between two and sixteen times the base, up to the maximum, and waits never
   get shorter until a connection lasts for the stability window.
   */
  lemma BackoffBounds(c: Config, attempts: seq<Attempt>, i: nat, j: nat)
    requires i <= j < |SessionAfter(c, attempts).delays|
    ensures var delays := SessionAfter(c, attempts).delays;
            && |delays| <= |attempts|
            && Min(c.maxDelay, 2 * c.baseDelay) <= delays[j] <= Min(c.maxDelay, 16 * c.baseDelay)
            && ((forall k | i < k <= j ::
                   var a := attempts[k]; a.Streaming? ==> StreamEnd(c, a.at, a.trace) - a.at < c.stability)
                ==> delays[i] <= delays[j])
  {
    DelaysAreStreaks(c, attempts);
    DelayBounds(c, Streak(c, attempts[..j + 1]));
    if forall k | i < k <= j :: !Outlives(c, attempts[k]) {
      StreakGrows(c, attempts, i + 1, j + 1);
      DelayGrows(c, Streak(c, attempts[..i + 1]), Streak(c, attempts[..j + 1]));
    }
  }

  // ----- versions

  /** The attempt is refused, or the owner stops the stream in it or in the wait after it. */
  predicate EndsLoop(a: Attempt) {
    a.Unauthorized? || a.Forbidden? || !a.stop.Never?
  }

  predicate LoopOver(attempts: seq<Attempt>) {
    exists i :: 0 <= i < |attempts| && EndsLoop(attempts[i])
  }

  lemma {:induction false} DoneWhenOver(c: Config, attempts: seq<Attempt>)
    ensures SessionAfter(c, attempts).done <==> LoopOver(attempts)
    decreases |attempts|
  {
    if attempts != [] {
      var init := attempts[..|attempts| - 1];
      DoneWhenOver(c, init);
      assert LoopOver(attempts) <==> LoopOver(init) || EndsLoop(attempts[|attempts| - 1]) by {
        assert forall i :: 0 <= i < |init| ==> init[i] == attempts[i];
      }
    }
  }

  /** Every version heard on any stream before the loop ended, in order. */
  function AllHeard(c: Config, attempts: seq<Attempt>): seq<string> {
    if attempts == [] then []
    else
      var init, a := attempts[..|attempts| - 1], attempts[|attempts| - 1];
      AllHeard(c, init) + if a.Streaming? && !LoopOver(init) then HeardOn(c, a.at, a.trace) else []
  }

  lemma {:induction false} NotedTells(versions: seq<string>)
    ensures var s := Noted(STARTED, versions);
            && (s.known == if versions == [] then None else Some(versions[0]))
            && (s.reload <==> exists i :: 0 <= i < |versions| && versions[i] != versions[0])
    decreases |versions|
  {
    if versions != [] {
      var init := versions[..|versions| - 1];
      NotedTells(init);
      assert forall i :: 0 <= i < |init| ==> init[i] == versions[i];
    }
  }

  lemma {:induction false} NotedAppend(s: Session, a: seq<string>, b: seq<string>)
    ensures Noted(s, a + b) == Noted(Noted(s, a), b)
    decreases |b|
  {
    if b == [] {
      assert a + b == a;
    } else {
      NotedAppend(s, a, b[..|b| - 1]);
      assert (a + b)[..|a + b| - 1] == a + b[..|b| - 1];
    }
  }

  lemma {:induction false} NotedIgnoresRest(s: Session, t: Session, versions: seq<string>)
    requires s.known == t.known && s.reload == t.reload
    ensures Noted(s, versions).known == Noted(t, versions).known && Noted(s, versions).reload == Noted(t, versions).reload
    decreases |versions|
  {
    if versions != [] { NotedIgnoresRest(s, t, versions[..|versions| - 1]); }
  }

  lemma PassedNotes(c: Config, s: Session, a: Attempt)
    ensures var t := if s.done then s else Noted(s, Heard(c, a));
            Passed(c, s, a).known == t.known && Passed(c, s, a).reload == t.reload
  {
  }

  lemma {:induction false} SessionNotes(c: Config, attempts: seq<Attempt>)
    ensures var s, t := SessionAfter(c, attempts), Noted(STARTED, AllHeard(c, attempts));
            s.known == t.known && s.reload == t.reload
    decreases |attempts|
  {
    if attempts != [] {
      var init, a := attempts[..|attempts| - 1], attempts[|attempts| - 1];
      var before, heard, more := SessionAfter(c, init), AllHeard(c, init), Heard(c, a);
      SessionNotes(c, init);
      DoneWhenOver(c, init);
      PassedNotes(c, before, a);
      if before.done {
        assert heard + [] == heard;
      } else {
        NotedAppend(STARTED, heard, more);
        NotedIgnoresRest(before, Noted(STARTED, heard), more);
      }
    }
  }

  /** A reload is asked for exactly when two different versions were heard, on one stream or on several. */
  lemma ReloadMeansNewVersion(c: Config, attempts: seq<Attempt>)
    ensures var heard := AllHeard(c, attempts);
            SessionAfter(c, attempts).reload
            <==> exists i, j :: 0 <= i < |heard| && 0 <= j < |heard| && heard[i] != heard[j]
  {
    var heard := AllHeard(c, attempts);
    SessionNotes(c, attempts);
    NotedTells(heard);
    if SessionAfter(c, attempts).reload {
      var i :| 0 <= i < |heard| && heard[i] != heard[0];
      assert heard[i] != heard[0];
    }
  }

  /**
   The loop ends with the first refusal or stop: no attempt after it is made, 401 alone asks for
   a sign-in, and no wait follows but the one that a stop cuts short.
   */
  lemma RefusalIsFinal(c: Config, attempts: seq<Attempt>, last: Attempt, more: seq<Attempt>)
    requires !LoopOver(attempts) && (last.Unauthorized? || last.Forbidden? || last.stop != Never)
    ensures SessionAfter(c, attempts + [last] + more) == SessionAfter(c, attempts + [last])
    ensures var s := SessionAfter(c, attempts + [last]);
            && s.expired == last.Unauthorized?
            && |s.delays| == |attempts|
                             + if !last.Unauthorized? && !last.Forbidden? && last.stop == DuringSleep then 1 else 0
  {
    var all := attempts + [last];
    assert all[..|attempts|] == attempts && all[|attempts|] == last;
    assert (all + more)[..|all|] == all;
    DoneWhenOver(c, attempts);
    DelaysAreStreaks(c, attempts);
    NotedKeepsRest(SessionAfter(c, attempts), Heard(c, last));
    NotExpired(c, attempts);
    DoneStays(c, all + more, |all|);
  }

  lemma {:induction false} NotExpired(c: Config, attempts: seq<Attempt>)
    requires !SessionAfter(c, attempts).done
    ensures !SessionAfter(c, attempts).expired
    decreases |attempts|
  {
    if attempts != [] {
      NotExpired(c, attempts[..|attempts| - 1]);
      NotedKeepsRest(SessionAfter(c, attempts[..|attempts| - 1]), Heard(c, attempts[|attempts| - 1]));
    }
  }
}
