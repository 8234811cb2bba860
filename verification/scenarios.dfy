/** Worked sessions: the start-up ledger driven through short event sequences, with
    the messages the tracker posts and edits along the way. */
module Scenarios {
  import opened Wrappers
  import opened Ledger
  import opened Duration
  import opened Bot
  import opened Sessions

  /** A platform that finds everything: guild, log channel, both members. */
  function Platform(stamp: Instant -> string, sent: MsgHandle): (env: Env)
    ensures env.guildFound && env.channelFound && NamesResolvable(env)
  {
    Env(true, true, map[MyId := "me", GfId := "her"], stamp, sent, Edited)
  }

  function Seconds(n: int): int {
    n * MicrosPerSecond
  }

  /** One user in the call for 3661 seconds, the other never: the session opens with
      both at `0:00:00` and closes with `1:01:01` and `0:00:00` and a total of
      `1:01:01`. */
  lemma SoloSession(t0: Instant, stamp: Instant -> string, sent: MsgHandle)
    ensures
      var env := Platform(stamp, sent);
      var s1 := Step(Initial(), Input(VoiceStateUpdate(MyId, true), t0, env));
      var s2 := Step(s1.ledger, Input(VoiceStateUpdate(MyId, false), t0 + Seconds(3661), env));
      && s1.actions == [Send(InitialContent(env, t0))]
      && s1.ledger.sessionActive && s1.ledger.message == Some(sent)
      && s2.actions == [Edit(sent, SummaryContent(env, "1:01:01", "0:00:00", t0, t0 + Seconds(3661)))]
      && !s2.ledger.sessionActive && s2.ledger.message == None
      && Accumulated(s2.ledger, MyId) == Seconds(3661)
  {
    var env := Platform(stamp, sent);
    OpenEffects(Initial(), MyId, t0, env);
    var l1 := OnVoiceStateUpdate(Initial(), MyId, true, t0, env).ledger;
    CloseEffects(l1, MyId, t0 + Seconds(3661), env);
    var l2 := OnVoiceStateUpdate(l1, MyId, false, t0 + Seconds(3661), env).ledger;
    assert Accumulated(l2, MyId) == Seconds(3661);
    assert Accumulated(l2, GfId) == 0;
    assert (t0 + Seconds(3661)) - t0 == Seconds(3661);
    FormatZeroExample();
    FormatHourExample();
  }

  /** Overlapping presence: one user from 0 s to 40 s, the other from 10 s to 100 s.
      The session stays open throughout, the first departure adds 40 s, and the close
      shows `0:00:40` and `0:01:30`. */
  lemma OverlappingSession(t0: Instant, stamp: Instant -> string, sent: MsgHandle)
    ensures
      var env := Platform(stamp, sent);
      var l1 := Step(Initial(), Input(VoiceStateUpdate(MyId, true), t0, env)).ledger;
      var s2 := Step(l1, Input(VoiceStateUpdate(GfId, true), t0 + Seconds(10), env));
      var s3 := Step(s2.ledger, Input(VoiceStateUpdate(MyId, false), t0 + Seconds(40), env));
      var s4 := Step(s3.ledger, Input(VoiceStateUpdate(GfId, false), t0 + Seconds(100), env));
      && s2.actions == [] && s2.ledger.sessionActive
      && s3.actions == [] && s3.ledger.sessionActive
      && Accumulated(s3.ledger, MyId) == Seconds(40)
      && !s4.ledger.sessionActive
      && Accumulated(s4.ledger, MyId) == Seconds(40)
      && Accumulated(s4.ledger, GfId) == Seconds(90)
      && s4.actions == [Edit(sent, SummaryContent(env, "0:00:40", "0:01:30", t0, t0 + Seconds(100)))]
  {
    var env := Platform(stamp, sent);
    OverlapOpen(t0, env);
    OverlapSecondJoins(t0, env);
    OverlapFirstLeaves(t0, env);
    OverlapClose(t0, env);
  }

  // The steps of the overlapping session, one event each.

  lemma OverlapOpen(t0: Instant, env: Env)
    requires env.guildFound && env.channelFound && NamesResolvable(env)
    ensures Step(Initial(), Input(VoiceStateUpdate(MyId, true), t0, env)).ledger
         == Ledger(true, Some(t0), Some(env.sent), {MyId}, map[MyId := t0], map[])
  {
  }

  lemma OverlapSecondJoins(t0: Instant, env: Env)
    requires env.guildFound
    ensures Step(Ledger(true, Some(t0), Some(env.sent), {MyId}, map[MyId := t0], map[]),
                 Input(VoiceStateUpdate(GfId, true), t0 + Seconds(10), env))
         == Outcome(Ledger(true, Some(t0), Some(env.sent), {MyId, GfId},
                           map[MyId := t0, GfId := t0 + Seconds(10)], map[]), [])
  {
  }

  lemma OverlapFirstLeaves(t0: Instant, env: Env)
    requires env.guildFound
    ensures Step(Ledger(true, Some(t0), Some(env.sent), {MyId, GfId},
                        map[MyId := t0, GfId := t0 + Seconds(10)], map[]),
                 Input(VoiceStateUpdate(MyId, false), t0 + Seconds(40), env))
         == Outcome(Ledger(true, Some(t0), Some(env.sent), {GfId},
                           map[GfId := t0 + Seconds(10)], map[MyId := Seconds(40)]), [])
  {
  }

  lemma OverlapClose(t0: Instant, env: Env)
    requires env.guildFound && NamesResolvable(env)
    ensures var s := Step(Ledger(true, Some(t0), Some(env.sent), {GfId},
                                 map[GfId := t0 + Seconds(10)], map[MyId := Seconds(40)]),
                          Input(VoiceStateUpdate(GfId, false), t0 + Seconds(100), env));
      && !s.ledger.sessionActive
      && Accumulated(s.ledger, MyId) == Seconds(40)
      && Accumulated(s.ledger, GfId) == Seconds(90)
      && s.actions == [Edit(env.sent, SummaryContent(env, "0:00:40", "0:01:30", t0, t0 + Seconds(100)))]
  {
    var l := Ledger(true, Some(t0), Some(env.sent), {GfId},
                    map[GfId := t0 + Seconds(10)], map[MyId := Seconds(40)]);
    CloseEffects(l, GfId, t0 + Seconds(100), env);
    FormatForty();
    FormatNinety();
  }

  // The two totals of the overlapping session, as the summary prints them.

  lemma FormatForty()
    ensures FormatDuration(Seconds(40)) == "0:00:40"
  {
  }

  lemma FormatNinety()
    ensures FormatDuration(Seconds(90)) == "0:01:30"
  {
  }

  /** A refresh while no session is active issues no message operation and changes
      nothing. */
  lemma IdleTickDoesNothing(l: Ledger, x: Input)
    requires x.event.Tick? && !l.sessionActive
    ensures Step(l, x) == Outcome(l, [])
  {
  }
}
