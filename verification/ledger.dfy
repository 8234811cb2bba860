/** The tracking state of the voice-channel tracker and the transitions that
    change it: who is in the call and since when, the seconds each tracked user
    has accumulated in the current session, and whether a session is open. */
module Ledger {
  import opened Wrappers

  type UserId = int

  /** A UTC instant in whole microseconds, the resolution of Python's `datetime`. */
  type Instant = int

  /** The platform's opaque reference to the status message. */
  type MsgHandle = nat

  const MyId: UserId := 811267159925588010
  const GfId: UserId := 652651964722577408

  /** Only the two configured users are tracked. */
  predicate IsTracked(u: UserId) {
    u == MyId || u == GfId
  }

  /** The module-level tracking variables: `vc_session_active`, `vc_session_start`,
      `vc_message`, `vc_users_in_call`, `vc_start_times` and `individual_times`
      (elapsed times in microseconds). */
  datatype Ledger = Ledger(
    sessionActive: bool,
    sessionStart: Option<Instant>,
    message: Option<MsgHandle>,
    usersInCall: set<UserId>,
    startTimes: map<UserId, Instant>,
    individualTimes: map<UserId, int>)

  /** The invariant every reachable ledger keeps: the in-call set is exactly the set
      of users with a recorded connect time, only tracked users are in it, a session
      is open exactly while somebody is in the call, and an open session has a start. */
  predicate Consistent(l: Ledger) {
    && l.usersInCall == l.startTimes.Keys
    && (forall u :: u in l.usersInCall ==> IsTracked(u))
    && (l.sessionActive <==> l.usersInCall != {})
    && (l.sessionActive ==> l.sessionStart.Some?)
  }

  /** The state at process start: no session, nobody in the call, nothing recorded. */
  function Initial(): (l: Ledger)
    ensures Consistent(l)
    ensures !l.sessionActive && l.sessionStart == None && l.message == None
    ensures forall u :: Accumulated(l, u) == 0
  {
    Ledger(false, None, None, {}, map[], map[])
  }

  /** `individual_times.get(u, 0)`: the finished connected time of `u` this session. */
  function Accumulated(l: Ledger, u: UserId): int {
    if u in l.individualTimes then l.individualTimes[u] else 0
  }

  /** A user appears in the channel: it joins the in-call set, and its connect time is
      recorded unless one is already there, so a repeated connect keeps the first. */
  function RecordConnect(l: Ledger, u: UserId, now: Instant): (r: Ledger)
    ensures r.usersInCall == l.usersInCall + {u}
    ensures u in r.startTimes
    ensures u in l.startTimes ==> r.startTimes == l.startTimes
    ensures u !in l.startTimes ==> r.startTimes[u] == now
    ensures forall v :: v != u ==> (v in r.startTimes <==> v in l.startTimes)
    ensures forall v :: v != u && v in l.startTimes ==> r.startTimes[v] == l.startTimes[v]
    ensures r.individualTimes == l.individualTimes
    ensures r.sessionActive == l.sessionActive && r.sessionStart == l.sessionStart
    ensures r.message == l.message
  {
    var startTimes := if u in l.startTimes then l.startTimes else l.startTimes[u := now];
    l.(usersInCall := l.usersInCall + {u}, startTimes := startTimes)
  }

  /** A user leaves the channel: it leaves the in-call set, its connect time is
      removed, and if one was recorded exactly the time since then is added to its
      total. Nobody else's total moves. */
  function RecordDisconnect(l: Ledger, u: UserId, now: Instant): (r: Ledger)
    ensures r.usersInCall == l.usersInCall - {u}
    ensures r.startTimes.Keys == l.startTimes.Keys - {u}
    ensures forall v :: v in r.startTimes ==> r.startTimes[v] == l.startTimes[v]
    ensures u in l.startTimes ==> Accumulated(r, u) == Accumulated(l, u) + (now - l.startTimes[u])
    ensures u !in l.startTimes ==> r.individualTimes == l.individualTimes
    ensures forall v :: v != u ==> Accumulated(r, v) == Accumulated(l, v)
    ensures r.sessionActive == l.sessionActive && r.sessionStart == l.sessionStart
    ensures r.message == l.message
  {
    var l' := l.(usersInCall := l.usersInCall - {u}, startTimes := l.startTimes - {u});
    if u in l.startTimes then
      l'.(individualTimes := l.individualTimes[u := Accumulated(l, u) + (now - l.startTimes[u])])
    else l'
  }

  /** A presence update: a connect when the user is now in some channel, a disconnect
      otherwise. */
  function RecordPresence(l: Ledger, u: UserId, inChannel: bool, now: Instant): Ledger {
    if inChannel then RecordConnect(l, u, now) else RecordDisconnect(l, u, now)
  }

  /** Opening a session: it becomes active, starts now, and every total restarts from
      zero; who is in the call and since when is kept. */
  function OpenSession(l: Ledger, now: Instant): (r: Ledger)
    ensures r.sessionActive && r.sessionStart == Some(now)
    ensures forall u :: Accumulated(r, u) == 0
    ensures r.usersInCall == l.usersInCall && r.startTimes == l.startTimes
    ensures r.message == l.message
  {
    l.(sessionActive := true, sessionStart := Some(now), individualTimes := map[])
  }

  /** Closing a session only lowers the active flag: the start instant, the totals and
      the message handle stay as they are. */
  function CloseSession(l: Ledger): (r: Ledger)
    ensures !r.sessionActive
    ensures r.sessionStart == l.sessionStart && r.message == l.message
    ensures r.usersInCall == l.usersInCall && r.startTimes == l.startTimes
    ensures r.individualTimes == l.individualTimes
  {
    l.(sessionActive := false)
  }

  /** With only tracked users ever in the call, a session is active exactly while one
      of the two tracked users is in it. */
  lemma ActiveIffTrackedInCall(l: Ledger)
    requires Consistent(l)
    ensures l.sessionActive <==> (MyId in l.usersInCall || GfId in l.usersInCall)
  {
    if MyId !in l.usersInCall && GfId !in l.usersInCall {
      forall u ensures u !in l.usersInCall {
        assert u in l.usersInCall ==> IsTracked(u);
      }
      assert l.usersInCall == {};
    }
  }

  /** The time the refresher shows for `u`: its accumulated total, plus the running
      interval when it is in the call (a missing connect time counts as `now`). */
  function LiveElapsed(l: Ledger, u: UserId, now: Instant): (e: int)
    ensures u !in l.usersInCall ==> e == Accumulated(l, u)
    ensures Consistent(l) && u in l.usersInCall ==> e == Accumulated(l, u) + (now - l.startTimes[u])
  {
    var running :=
      if u in l.usersInCall then now - (if u in l.startTimes then l.startTimes[u] else now)
      else 0;
    Accumulated(l, u) + running
  }

  /** While a user is in the call its live time grows exactly with the clock; once it
      has left, the live time is frozen at its total. */
  lemma LiveElapsedRate(l: Ledger, u: UserId, t1: Instant, t2: Instant)
    requires Consistent(l)
    ensures u in l.usersInCall ==> LiveElapsed(l, u, t2) - LiveElapsed(l, u, t1) == t2 - t1
    ensures u !in l.usersInCall ==> LiveElapsed(l, u, t2) == LiveElapsed(l, u, t1)
  {
  }

  /** Hence the live time never goes down as the clock advances. */
  lemma LiveElapsedMonotone(l: Ledger, u: UserId, t1: Instant, t2: Instant)
    requires Consistent(l) && t1 <= t2
    ensures LiveElapsed(l, u, t1) <= LiveElapsed(l, u, t2)
  {
    LiveElapsedRate(l, u, t1, t2);
  }

  /** A second connect of a user already in the call changes nothing. */
  lemma RecordConnectIdempotent(l: Ledger, u: UserId, t1: Instant, t2: Instant)
    ensures RecordConnect(RecordConnect(l, u, t1), u, t2) == RecordConnect(l, u, t1)
  {
  }

  /** A disconnect right after a connect adds exactly the time between them. */
  lemma ConnectThenDisconnect(l: Ledger, u: UserId, t1: Instant, t2: Instant)
    requires u !in l.startTimes
    ensures Accumulated(RecordDisconnect(RecordConnect(l, u, t1), u, t2), u) == Accumulated(l, u) + (t2 - t1)
    ensures RecordDisconnect(RecordConnect(l, u, t1), u, t2).startTimes == l.startTimes
  {
  }
}
