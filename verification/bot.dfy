/** The event handlers of the tracker: the voice-state handler that records
    presence and opens or closes sessions, and the periodic refresher that
    re-renders the live status message. The chat platform is a collaborator:
    its answers during one event are an `Env`, and the message operations the
    handlers ask of it are returned as `Action`s. */
module Bot {
  import opened Wrappers
  import opened Ledger
  import opened Duration

  /** How `message.edit` ends: normally, or with `discord.NotFound`. */
  datatype EditResult = Edited | NotFound

  /** The platform's answers during one event. */
  datatype Env = Env(
    guildFound: bool,              // `bot.get_guild(GUILD_ID)` returned a guild
    channelFound: bool,            // `guild.get_channel(VC_LOG_CHANNEL_ID)` returned a channel
    members: map<UserId, string>,  // display names of the members `guild.get_member` finds
    stamp: Instant -> string,      // the `%d-%m-%Y %H:%M:%S UTC` rendering of an instant
    sent: MsgHandle,               // the message `channel.send` returns
    editResult: EditResult)        // how a `message.edit` ends

  /** A voice-state update for a member (in some channel afterwards or not), or a
      firing of the live-update loop. */
  datatype Event = VoiceStateUpdate(user: UserId, inChannel: bool) | Tick

  /** One delivered event, with the clock reading and the platform's answers. */
  datatype Input = Input(event: Event, now: Instant, env: Env)

  /** A message operation asked of the platform. */
  datatype Action = Send(content: string) | Edit(handle: MsgHandle, content: string)

  /** The ledger after a handler has run, and the message operations it issued. */
  datatype Outcome = Outcome(ledger: Ledger, actions: seq<Action>)

  const MyEmoji: string := "\U{1F49C}"
  const GfEmoji: string := "\U{2764}\U{FE0F}"
  const Stopwatch: string := "\U{23F1}"

  /** Both tracked users can be looked up; otherwise reading `display_name` of the
      missing member raises and the handler stops there. */
  predicate NamesResolvable(env: Env) {
    MyId in env.members && GfId in env.members
  }

  function MemberLine(emoji: string, name: string, elapsed: string): string {
    emoji + " " + name + ": " + Stopwatch + " " + elapsed
  }

  /** The live layout: one line per tracked user, then the session start. */
  function LiveContent(env: Env, myElapsed: string, gfElapsed: string, start: Instant): string
    requires NamesResolvable(env)
  {
    MemberLine(MyEmoji, env.members[MyId], myElapsed) + "\n"
    + MemberLine(GfEmoji, env.members[GfId], gfElapsed) + "\n"
    + "Session started: " + env.stamp(start)
  }

  /** The message posted when a session opens, with both times written as literals:
      the live layout with both users at `0:00:00`. */
  function InitialContent(env: Env, start: Instant): (r: string)
    requires NamesResolvable(env)
    ensures r == LiveContent(env, "0:00:00", "0:00:00", start)
  {
    MemberLine(MyEmoji, env.members[MyId], "0:00:00") + "\n"
    + MemberLine(GfEmoji, env.members[GfId], "0:00:00") + "\n"
    + "Session started: " + env.stamp(start)
  }

  /** The summary written when a session closes: the live layout with the given
      times, followed by the end instant and the session's length. */
  function SummaryContent(env: Env, myElapsed: string, gfElapsed: string, start: Instant, end: Instant): (r: string)
    requires NamesResolvable(env)
    ensures r == LiveContent(env, myElapsed, gfElapsed, start)
                 + "\n" + "Session ended: " + env.stamp(end)
                 + "\n" + "Total session duration: " + FormatDuration(end - start)
  {
    MemberLine(MyEmoji, env.members[MyId], myElapsed) + "\n"
    + MemberLine(GfEmoji, env.members[GfId], gfElapsed) + "\n"
    + "Session started: " + env.stamp(start) + "\n"
    + "Session ended: " + env.stamp(end) + "\n"
    + "Total session duration: " + FormatDuration(end - start)
  }

  /** The session-start branch: the session opens at `now` with fresh totals, and the
      initial message is posted when the log channel and both members are found. */
  function StartSession(l: Ledger, now: Instant, env: Env): (r: Outcome)
    ensures r.ledger.sessionActive && r.ledger.sessionStart == Some(now)
    ensures forall u :: Accumulated(r.ledger, u) == 0
    ensures r.ledger.usersInCall == l.usersInCall && r.ledger.startTimes == l.startTimes
    ensures env.channelFound && NamesResolvable(env) ==>
      r.actions == [Send(InitialContent(env, now))] && r.ledger.message == Some(env.sent)
    ensures !(env.channelFound && NamesResolvable(env)) ==> r.actions == [] && r.ledger.message == l.message
  {
    var started := OpenSession(l, now);
    if env.channelFound && NamesResolvable(env) then
      Outcome(started.(message := Some(env.sent)), [Send(InitialContent(env, now))])
    else
      Outcome(started, [])
  }

  /** The session-end branch: the session closes; when its start is known and both
      members are found, the summary replaces the status message, if there is one,
      and the handle is dropped whether or not the edit found the message. */
  function EndSession(l: Ledger, now: Instant, env: Env): (r: Outcome)
    ensures !r.ledger.sessionActive && r.ledger.sessionStart == l.sessionStart
    ensures r.ledger.usersInCall == l.usersInCall && r.ledger.startTimes == l.startTimes
    ensures r.ledger.individualTimes == l.individualTimes
    ensures |r.actions| <= 1
    ensures l.sessionStart.Some? && NamesResolvable(env) ==> r.ledger.message == None
    ensures l.sessionStart.Some? && NamesResolvable(env) && l.message.Some? ==>
      r.actions == [Edit(l.message.value, SummaryContent(env,
        FormatDuration(Accumulated(l, MyId)), FormatDuration(Accumulated(l, GfId)),
        l.sessionStart.value, now))]
    ensures l.message.None? || l.sessionStart.None? || !NamesResolvable(env) ==> r.actions == []
    ensures l.sessionStart.None? || !NamesResolvable(env) ==> r.ledger.message == l.message
  {
    var closed := CloseSession(l);
    match l.sessionStart
    case None => Outcome(closed, [])
    case Some(start) =>
      if !NamesResolvable(env) then Outcome(closed, [])
      else
        var summary := SummaryContent(env,
          FormatDuration(Accumulated(l, MyId)), FormatDuration(Accumulated(l, GfId)), start, now);
        match l.message
        case None => Outcome(closed, [])
        case Some(h) => Outcome(closed.(message := None), [Edit(h, summary)])
  }

  /** `on_voice_state_update`: events for untracked users, or while the guild cannot be
      found, change nothing; otherwise the presence is recorded, and a session opens
      when none is active and somebody is in the call, or else closes when one is
      active and nobody is left. */
  function OnVoiceStateUpdate(l: Ledger, user: UserId, inChannel: bool, now: Instant, env: Env): (r: Outcome)
    ensures !IsTracked(user) || !env.guildFound ==> r == Outcome(l, [])
    ensures IsTracked(user) && env.guildFound ==>
      && r.ledger.usersInCall == (if inChannel then l.usersInCall + {user} else l.usersInCall - {user})
      && r.ledger.startTimes == RecordPresence(l, user, inChannel, now).startTimes
    ensures IsTracked(user) && env.guildFound && r.ledger.sessionActive == l.sessionActive ==>
      r == Outcome(RecordPresence(l, user, inChannel, now), [])
    ensures |r.actions| <= 1
    ensures Consistent(l) ==> Consistent(r.ledger)
  {
    if !IsTracked(user) || !env.guildFound then Outcome(l, [])
    else
      var recorded := RecordPresence(l, user, inChannel, now);
      if !recorded.sessionActive && recorded.usersInCall != {} then StartSession(recorded, now, env)
      else if recorded.sessionActive && recorded.usersInCall == {} then EndSession(recorded, now, env)
      else Outcome(recorded, [])
  }

  /** `update_live_message`: with a status message present and the members and the
      session start available, the message is edited to show every tracked user's
      live time; a `NotFound` from the edit drops the handle. Nothing else of the
      ledger changes. */
  function UpdateLiveMessage(l: Ledger, now: Instant, env: Env): (r: Outcome)
    ensures r.ledger == l || r.ledger == l.(message := None)
    ensures l.message.None? ==> r == Outcome(l, [])
    ensures !NamesResolvable(env) || l.sessionStart.None? ==> r == Outcome(l, [])
    ensures |r.actions| <= 1
    ensures forall a :: a in r.actions ==> a.Edit? && l.message == Some(a.handle)
    ensures l.message.Some? && NamesResolvable(env) && l.sessionStart.Some? ==>
      && r.actions == [Edit(l.message.value, LiveContent(env,
           FormatDuration(LiveElapsed(l, MyId, now)), FormatDuration(LiveElapsed(l, GfId, now)),
           l.sessionStart.value))]
      && (r.ledger.message == None <==> env.editResult == NotFound)
  {
    match l.message
    case None => Outcome(l, [])
    case Some(h) =>
      if !NamesResolvable(env) then Outcome(l, [])
      else
        match l.sessionStart
        case None => Outcome(l, [])
        case Some(start) =>
          var content := LiveContent(env,
            FormatDuration(LiveElapsed(l, MyId, now)), FormatDuration(LiveElapsed(l, GfId, now)), start);
          if env.editResult == NotFound then Outcome(l.(message := None), [Edit(h, content)])
          else Outcome(l, [Edit(h, content)])
  }

  /** One firing of `live_update_loop`: a refresh only while a session is active and
      the guild is found. */
  function LiveUpdateLoop(l: Ledger, now: Instant, env: Env): (r: Outcome)
    ensures !l.sessionActive || !env.guildFound ==> r == Outcome(l, [])
    ensures l.sessionActive && env.guildFound ==> r == UpdateLiveMessage(l, now, env)
    ensures r.ledger == l || r.ledger == l.(message := None)
    ensures |r.actions| <= 1
  {
    if l.sessionActive && env.guildFound then UpdateLiveMessage(l, now, env) else Outcome(l, [])
  }

  /** The tracker's reaction to one delivered event. */
  function Step(l: Ledger, x: Input): (r: Outcome)
    ensures Consistent(l) ==> Consistent(r.ledger)
    ensures |r.actions| <= 1
  {
    match x.event
    case VoiceStateUpdate(user, inChannel) => OnVoiceStateUpdate(l, user, inChannel, x.now, x.env)
    case Tick => LiveUpdateLoop(l, x.now, x.env)
  }
}
