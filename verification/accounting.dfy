/** Time accounting over whole traces of delivered events. The ledger reached from
    the start-up state is compared with a reference computed from the trace alone:
    who is present (what their last heeded voice update said), since when, and the
    completed connect/disconnect intervals of each user since the last session
    opened. */
module Accounting {
  import opened Wrappers
  import opened Ledger
  import opened Bot
  import opened Sessions

  /** The ledger after handling every input of `trace`, in order, from `l`. */
  function Run(l: Ledger, trace: seq<Input>): (r: Ledger)
    ensures Consistent(l) ==> Consistent(r)
    decreases |trace|
  {
    if |trace| == 0 then l else Step(Run(l, trace[..|trace| - 1]), trace[|trace| - 1]).ledger
  }

  /** The input is a voice update the handler does not ignore: a tracked user, with
      the guild found. */
  predicate Heeded(x: Input) {
    x.event.VoiceStateUpdate? && IsTracked(x.event.user) && x.env.guildFound
  }

  predicate HeededFor(x: Input, u: UserId) {
    Heeded(x) && x.event.user == u
  }

  /** Whether `u` is in the call after the trace: what its last heeded update said. */
  function Present(t: seq<Input>, u: UserId): bool
    decreases |t|
  {
    if |t| == 0 then false
    else if HeededFor(t[|t| - 1], u) then t[|t| - 1].event.inChannel
    else Present(t[..|t| - 1], u)
  }

  predicate AnyPresent(t: seq<Input>) {
    Present(t, MyId) || Present(t, GfId)
  }

  /** The last input opens a session: a heeded connect while nobody was present. */
  predicate OpensAt(t: seq<Input>) {
    && |t| > 0
    && Heeded(t[|t| - 1]) && t[|t| - 1].event.inChannel
    && !AnyPresent(t[..|t| - 1])
  }

  /** The last input closes a session: a heeded disconnect that leaves nobody present. */
  predicate ClosesAt(t: seq<Input>) {
    && |t| > 0
    && Heeded(t[|t| - 1]) && !t[|t| - 1].event.inChannel
    && AnyPresent(t[..|t| - 1]) && !AnyPresent(t)
  }

  /** When `u` last went from absent to present. */
  function ConnectedSince(t: seq<Input>, u: UserId): Instant
    decreases |t|
  {
    if |t| == 0 then 0
    else
      var x, p := t[|t| - 1], t[..|t| - 1];
      if HeededFor(x, u) && x.event.inChannel && !Present(p, u) then x.now
      else ConnectedSince(p, u)
  }

  datatype Interval = Interval(connect: Instant, disconnect: Instant)

  /** The completed presence intervals of `u` since the last session opened. */
  function Completed(t: seq<Input>, u: UserId): seq<Interval>
    decreases |t|
  {
    if |t| == 0 then []
    else
      var x, p := t[|t| - 1], t[..|t| - 1];
      if OpensAt(t) then []
      else if HeededFor(x, u) && !x.event.inChannel && Present(p, u) then
        Completed(p, u) + [Interval(ConnectedSince(p, u), x.now)]
      else Completed(p, u)
  }

  /** The summed lengths, `disconnect - connect`, of a list of intervals. */
  function TotalLength(s: seq<Interval>): int
    decreases |s|
  {
    if |s| == 0 then 0 else TotalLength(s[..|s| - 1]) + (s[|s| - 1].disconnect - s[|s| - 1].connect)
  }

  /** The ledger matches the reference computed from the trace. */
  ghost predicate Agrees(l: Ledger, t: seq<Input>) {
    && Consistent(l)
    && (forall u :: u in l.usersInCall <==> Present(t, u))
    && (forall u :: u in l.usersInCall ==> l.startTimes[u] == ConnectedSince(t, u))
    && (forall u :: Accumulated(l, u) == TotalLength(Completed(t, u)))
  }

  /** Under agreement, a session is active exactly when somebody is present. */
  lemma ActiveIffAnyPresent(l: Ledger, t: seq<Input>)
    requires Agrees(l, t)
    ensures l.sessionActive <==> AnyPresent(t)
  {
    ActiveIffTrackedInCall(l);
  }

  /** Inputs the handler ignores leave the reference where it was. */
  lemma IgnoredInputKeepsReference(p: seq<Input>, x: Input, u: UserId)
    requires !Heeded(x)
    ensures var t := p + [x];
      && t[..|t| - 1] == p
      && Present(t, u) == Present(p, u)
      && ConnectedSince(t, u) == ConnectedSince(p, u)
      && Completed(t, u) == Completed(p, u)
  {
  }

  /** One heeded voice update, on a ledger that agrees with the trace before it. */
  lemma HeededStepAgrees(l: Ledger, p: seq<Input>, x: Input)
    requires Agrees(l, p) && Heeded(x)
    ensures Agrees(Step(l, x).ledger, p + [x])
  {
    var t := p + [x];
    assert t[..|t| - 1] == p && t[|t| - 1] == x;
    var w, now := x.event.user, x.now;
    var r := Step(l, x).ledger;
    ActiveIffAnyPresent(l, p);
    if x.event.inChannel {
      if w in l.usersInCall {
        DuplicateConnectIgnored(l, w, now, x.env);
        assert !OpensAt(t);
      } else if l.usersInCall == {} {
        OpenEffects(l, w, now, x.env);
        assert OpensAt(t);
        forall u ensures u in r.usersInCall <==> Present(t, u) {}
        forall u ensures Accumulated(r, u) == TotalLength(Completed(t, u)) {}
      } else {
        assert !OpensAt(t);
        assert r.usersInCall == l.usersInCall + {w};
        assert r.startTimes == l.startTimes[w := now];
        assert r.individualTimes == l.individualTimes;
        forall u ensures Accumulated(r, u) == TotalLength(Completed(t, u)) {
          assert Completed(t, u) == Completed(p, u);
        }
      }
    } else {
      assert !OpensAt(t);
      if w !in l.usersInCall {
        DisconnectWithoutStartIgnored(l, w, now, x.env);
      } else {
        var rec := RecordDisconnect(l, w, now);
        assert r.usersInCall == rec.usersInCall && r.startTimes == rec.startTimes;
        assert r.individualTimes == rec.individualTimes;
        forall u ensures Accumulated(r, u) == TotalLength(Completed(t, u)) {
          if u == w {
            var c := Completed(p, w) + [Interval(ConnectedSince(p, w), now)];
            assert Completed(t, w) == c;
            assert c[..|c| - 1] == Completed(p, w);
          } else {
            assert Completed(t, u) == Completed(p, u);
          }
        }
      }
    }
  }

  /** One input of any kind keeps the ledger in agreement with the trace. */
  lemma StepAgrees(l: Ledger, p: seq<Input>, x: Input)
    requires Agrees(l, p)
    ensures Agrees(Step(l, x).ledger, p + [x])
  {
    if Heeded(x) {
      HeededStepAgrees(l, p, x);
    } else {
      var r := Step(l, x).ledger;
      assert r.usersInCall == l.usersInCall && r.startTimes == l.startTimes;
      assert r.individualTimes == l.individualTimes;
      forall u
        ensures Present(p + [x], u) == Present(p, u)
        ensures ConnectedSince(p + [x], u) == ConnectedSince(p, u)
        ensures Completed(p + [x], u) == Completed(p, u)
      {
        IgnoredInputKeepsReference(p, x, u);
      }
    }
  }

  /** From start-up, after any trace, the ledger agrees with the reference: the in-call
      set is who is present, each connect time is when that user last arrived, and each
      total is the summed length of the user's completed intervals since the session
      opened. */
  lemma {:induction false} RunAgrees(t: seq<Input>)
    ensures Agrees(Run(Initial(), t), t)
    decreases |t|
  {
    if |t| > 0 {
      var p := t[..|t| - 1];
      RunAgrees(p);
      StepAgrees(Run(Initial(), p), p, t[|t| - 1]);
      assert p + [t[|t| - 1]] == t;
    }
  }

  /** Accumulated time equals the summed length of completed intervals since the last
      session opened. */
  lemma AccumulatedIsSumOfIntervals(t: seq<Input>, u: UserId)
    ensures Accumulated(Run(Initial(), t), u) == TotalLength(Completed(t, u))
  {
    RunAgrees(t);
  }

  /** The refresher's live time is the completed intervals plus the running one. */
  lemma LiveElapsedFromTrace(t: seq<Input>, u: UserId, now: Instant)
    ensures LiveElapsed(Run(Initial(), t), u, now)
         == TotalLength(Completed(t, u)) + (if Present(t, u) then now - ConnectedSince(t, u) else 0)
  {
    RunAgrees(t);
  }

  /** A session is active exactly while somebody is present. */
  lemma ActiveIffSomebodyPresent(t: seq<Input>)
    ensures Run(Initial(), t).sessionActive <==> AnyPresent(t)
  {
    RunAgrees(t);
    ActiveIffAnyPresent(Run(Initial(), t), t);
  }

  /** Presence after one more input: what that input says if it is a heeded update
      for the user, and what it was before otherwise. */
  lemma PresentAfter(p: seq<Input>, x: Input, u: UserId)
    ensures Present(p + [x], u) == (if HeededFor(x, u) then x.event.inChannel else Present(p, u))
  {
    assert (p + [x])[..|p|] == p;
  }

  /** On the trace alone: the last input opens a session exactly when it takes
      presence from nobody to somebody. */
  lemma OpensAtIffArrival(t: seq<Input>)
    requires |t| > 0
    ensures OpensAt(t) <==> (!AnyPresent(t[..|t| - 1]) && AnyPresent(t))
  {
    var p, x := t[..|t| - 1], t[|t| - 1];
    assert p + [x] == t;
    PresentAfter(p, x, MyId);
    PresentAfter(p, x, GfId);
  }

  /** On the trace alone: the last input closes a session exactly when it takes
      presence from somebody to nobody. */
  lemma ClosesAtIffDeparture(t: seq<Input>)
    requires |t| > 0
    ensures ClosesAt(t) <==> (AnyPresent(t[..|t| - 1]) && !AnyPresent(t))
  {
    var p, x := t[..|t| - 1], t[|t| - 1];
    assert p + [x] == t;
    PresentAfter(p, x, MyId);
    PresentAfter(p, x, GfId);
  }

  /** A session opens on the last input exactly when presence went from nobody to
      somebody; arrivals while somebody is present never open another. */
  lemma OpensExactlyOnFirstArrival(t: seq<Input>)
    requires |t| > 0
    ensures var before, after := Run(Initial(), t[..|t| - 1]), Run(Initial(), t);
      (!before.sessionActive && after.sessionActive) <==> OpensAt(t)
  {
    ActiveIffSomebodyPresent(t[..|t| - 1]);
    ActiveIffSomebodyPresent(t);
    OpensAtIffArrival(t);
  }

  /** A session closes on the last input exactly when presence went from somebody to
      nobody; departures that leave somebody present never close it. */
  lemma ClosesExactlyOnLastDeparture(t: seq<Input>)
    requires |t| > 0
    ensures var before, after := Run(Initial(), t[..|t| - 1]), Run(Initial(), t);
      (before.sessionActive && !after.sessionActive) <==> ClosesAt(t)
  {
    ActiveIffSomebodyPresent(t[..|t| - 1]);
    ActiveIffSomebodyPresent(t);
    ClosesAtIffDeparture(t);
  }

  /** The instant of the last input that opened a session, if any. */
  function LastOpen(t: seq<Input>): Option<Instant>
    decreases |t|
  {
    if |t| == 0 then None
    else if OpensAt(t) then Some(t[|t| - 1].now)
    else LastOpen(t[..|t| - 1])
  }

  /** On an agreeing ledger, an input sets the session start exactly when it opens a
      session, and leaves it alone otherwise. */
  lemma StepSessionStart(l: Ledger, p: seq<Input>, x: Input)
    requires Agrees(l, p)
    ensures Step(l, x).ledger.sessionStart
         == (if OpensAt(p + [x]) then Some(x.now) else l.sessionStart)
  {
    var t := p + [x];
    assert t[..|t| - 1] == p && t[|t| - 1] == x;
    ActiveIffAnyPresent(l, p);
    if Heeded(x) {
      SessionOpensExactlyWhen(l, x.event.user, x.event.inChannel, x.now, x.env);
    }
  }

  /** From start-up, the recorded session start is the instant of the last input that
      opened a session; closing never resets it. */
  lemma {:induction false} SessionStartIsLastOpen(t: seq<Input>)
    ensures Run(Initial(), t).sessionStart == LastOpen(t)
    decreases |t|
  {
    if |t| > 0 {
      var p := t[..|t| - 1];
      SessionStartIsLastOpen(p);
      RunAgrees(p);
      StepSessionStart(Run(Initial(), p), p, t[|t| - 1]);
      assert p + [t[|t| - 1]] == t;
    }
  }
}
