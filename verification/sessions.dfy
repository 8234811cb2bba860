/** Properties of one event: idempotent connects, when exactly a session opens or
    closes and what each does, that the refresher and the summary agree, and when
    a stale message handle can survive a session. */
module Sessions {
  import opened Wrappers
  import opened Ledger
  import opened Duration
  import opened Bot

  /** A connect for a user already in the call is a no-op: its first connect time
      survives and no message operation is issued. */
  lemma DuplicateConnectIgnored(l: Ledger, user: UserId, now: Instant, env: Env)
    requires Consistent(l) && user in l.usersInCall
    ensures OnVoiceStateUpdate(l, user, true, now, env) == Outcome(l, [])
  {
  }

  /** A disconnect for a user with no recorded connect time changes nothing, totals
      included. */
  lemma DisconnectWithoutStartIgnored(l: Ledger, user: UserId, now: Instant, env: Env)
    requires Consistent(l) && user !in l.startTimes
    ensures OnVoiceStateUpdate(l, user, false, now, env) == Outcome(l, [])
  {
  }

  /** A session opens on an event exactly when a tracked user connects (with the guild
      found) while nobody is in the call. */
  lemma SessionOpensExactlyWhen(l: Ledger, user: UserId, inChannel: bool, now: Instant, env: Env)
    requires Consistent(l)
    ensures var r := OnVoiceStateUpdate(l, user, inChannel, now, env);
      (!l.sessionActive && r.ledger.sessionActive)
      <==> (IsTracked(user) && env.guildFound && inChannel && l.usersInCall == {})
  {
  }

  /** A session closes on an event exactly when a tracked user disconnects (with the
      guild found) while it is the only one in the call. */
  lemma SessionClosesExactlyWhen(l: Ledger, user: UserId, inChannel: bool, now: Instant, env: Env)
    requires Consistent(l)
    ensures var r := OnVoiceStateUpdate(l, user, inChannel, now, env);
      (l.sessionActive && !r.ledger.sessionActive)
      <==> (IsTracked(user) && env.guildFound && !inChannel && l.usersInCall == {user})
  {
  }

  /** Opening: the session starts now with every total at zero, the opener is the only
      user in the call, connected since now, and exactly one message is posted with
      both users at `0:00:00`, provided the log channel and both members are found. */
  lemma OpenEffects(l: Ledger, user: UserId, now: Instant, env: Env)
    requires Consistent(l) && IsTracked(user) && env.guildFound && l.usersInCall == {}
    ensures var r := OnVoiceStateUpdate(l, user, true, now, env);
      && r.ledger.sessionActive && r.ledger.sessionStart == Some(now)
      && (forall u :: Accumulated(r.ledger, u) == 0)
      && r.ledger.usersInCall == {user}
      && r.ledger.startTimes == map[user := now]
      && (env.channelFound && NamesResolvable(env) ==>
            r.actions == [Send(InitialContent(env, now))] && r.ledger.message == Some(env.sent))
      && (!(env.channelFound && NamesResolvable(env)) ==> r.actions == [] && r.ledger.message == l.message)
  {
  }

  /** Closing: the session becomes inactive but keeps its start instant, the leaver's
      last interval is added to its total, and with both members found the summary
      is written to the status message (when there is one) and the handle dropped. */
  lemma CloseEffects(l: Ledger, user: UserId, now: Instant, env: Env)
    requires Consistent(l) && IsTracked(user) && env.guildFound && l.usersInCall == {user}
    ensures var r := OnVoiceStateUpdate(l, user, false, now, env);
      && !r.ledger.sessionActive && r.ledger.sessionStart == l.sessionStart
      && r.ledger.usersInCall == {} && r.ledger.startTimes == map[]
      && Accumulated(r.ledger, user) == Accumulated(l, user) + (now - l.startTimes[user])
      && (forall v :: v != user ==> Accumulated(r.ledger, v) == Accumulated(l, v))
      && (NamesResolvable(env) ==> r.ledger.message == None)
      && (NamesResolvable(env) && l.message.Some? ==>
            r.actions == [Edit(l.message.value, SummaryContent(env,
              FormatDuration(Accumulated(r.ledger, MyId)), FormatDuration(Accumulated(r.ledger, GfId)),
              l.sessionStart.value, now))])
      && (!NamesResolvable(env) || l.message.None? ==> r.actions == [])
  {
  }

  /** A message is posted on an event exactly when that event opens a session and the
      log channel and both members are found; the refresher never posts. */
  lemma SendExactlyOnOpen(l: Ledger, x: Input)
    requires Consistent(l)
    ensures var r := Step(l, x);
      (|r.actions| == 1 && r.actions[0].Send?)
      <==> (!l.sessionActive && r.ledger.sessionActive && x.env.channelFound && NamesResolvable(x.env))
  {
  }

  /** A voice update edits a message exactly when it closes a session that has a
      status message and both members are found: one summary per session end, and
      no edit on any other voice update. */
  lemma VoiceEditExactlyOnClose(l: Ledger, x: Input)
    requires Consistent(l) && x.event.VoiceStateUpdate?
    ensures var r := Step(l, x);
      (|r.actions| == 1 && r.actions[0].Edit?)
      <==> (l.sessionActive && !r.ledger.sessionActive && l.message.Some? && NamesResolvable(x.env))
  {
  }

  /** The summary's lines for the two users show what the refresher would show at the
      closing instant, since nobody is left in the call; two lines follow. */
  lemma SummaryExtendsLive(l: Ledger, env: Env, start: Instant, end: Instant)
    requires NamesResolvable(env) && l.usersInCall == {}
    ensures SummaryContent(env,
              FormatDuration(Accumulated(l, MyId)), FormatDuration(Accumulated(l, GfId)), start, end)
         == LiveContent(env,
              FormatDuration(LiveElapsed(l, MyId, end)), FormatDuration(LiveElapsed(l, GfId, end)), start)
            + "\n" + "Session ended: " + env.stamp(end)
            + "\n" + "Total session duration: " + FormatDuration(end - start)
  {
  }

  /** Refreshing at the very instant a session opened renders the initial message:
      both users at `0:00:00`. */
  lemma RefreshAtOpenShowsZero(l: Ledger, user: UserId, now: Instant, env: Env)
    requires Consistent(l) && IsTracked(user) && env.guildFound && l.usersInCall == {}
    requires env.channelFound && NamesResolvable(env) && env.editResult == Edited
    ensures var started := OnVoiceStateUpdate(l, user, true, now, env).ledger;
      LiveUpdateLoop(started, now, env) == Outcome(started, [Edit(env.sent, InitialContent(env, now))])
  {
    OpenEffects(l, user, now, env);
    var started := OnVoiceStateUpdate(l, user, true, now, env).ledger;
    assert LiveElapsed(started, MyId, now) == 0 && LiveElapsed(started, GfId, now) == 0;
    FormatZeroExample();
  }

  /** No message handle outlives its session: while no session is active there is
      no handle. */
  predicate NoStaleHandle(l: Ledger) {
    !l.sessionActive ==> l.message == None
  }

  /** Every event keeps the handle from outliving its session, unless a close finds a
      tracked member missing: the close then stops before dropping the handle. */
  lemma NoStaleHandlePreserved(l: Ledger, x: Input)
    requires Consistent(l) && NoStaleHandle(l)
    requires x.event.VoiceStateUpdate? ==> NamesResolvable(x.env)
    ensures NoStaleHandle(Step(l, x).ledger)
  {
  }

  /** The exception: a close whose member lookup fails stops before writing the summary
      and leaves the old handle behind; when the next session cannot find its log
      channel, the refresher edits the previous session's last live message with the
      new session's times. */
  lemma StaleHandleReusedByNextSession()
    ensures
      var named := Env(true, false, map[MyId := "me", GfId := "her"], (t: Instant) => "t", 9, Edited);
      var unnamed := named.(members := map[]);
      var l0 := Ledger(true, Some(0), Some(5), {MyId}, map[MyId := 0], map[]);
      var s1 := Step(l0, Input(VoiceStateUpdate(MyId, false), 10, unnamed));
      var l1 := s1.ledger;
      var l2 := Step(l1, Input(VoiceStateUpdate(GfId, true), 20, named)).ledger;
      var r := Step(l2, Input(Tick, 30, named));
      && Consistent(l0) && NoStaleHandle(l0)
      && s1.actions == []
      && !l1.sessionActive && l1.message == Some(5)
      && l2.sessionActive && l2.message == Some(5) && l2.sessionStart == Some(20)
      && r.actions == [Edit(5, InitialContent(named, 20))]
  {
    FormatZeroExample();
  }
}
