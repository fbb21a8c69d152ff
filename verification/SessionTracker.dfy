/** The bounded session tracker of cmd/mar/remote_bridge.go, against one that forgets nothing too early. */
module SessionTracker {
  import opened FiniteSets
  import opened Options

  type Time = int

  const LIMIT: nat := 256
  const TIMEOUT: Time := 1800  // seconds

  type Sessions = map<string, Time>  // when each session was last seen

  datatype Event = Event(at: Time, session: string, delete: bool)

  function Live(s: Sessions, now: Time): Sessions {
    map id | id in s && now - s[id] <= TIMEOUT :: s[id]
  }

  datatype Tracker = Tracker(sessions: Sessions, unreliableUntil: Option<Time>, seen: bool)
  {
    function Pruned(now: Time): Tracker {
      Tracker(Live(sessions, now), if unreliableUntil.Some? && now < unreliableUntil.value then unreliableUntil else None, seen)
    }

    function Observed(e: Event): Tracker {
      var t := Pruned(e.at);
      if e.session == "" then t
      else if e.delete then t.(sessions := t.sessions - {e.session}, seen := true)
      else if e.session in t.sessions || |t.sessions| < LIMIT then t.(sessions := t.sessions[e.session := e.at], seen := true)
      else t.(unreliableUntil := Some(e.at + TIMEOUT), seen := true)
    }

    predicate Available() {
      seen && unreliableUntil.None?
    }
  }

  /** The same rules without a limit. */
  function Unlimited(s: Sessions, e: Event): Sessions {
    var t := Live(s, e.at);
    if e.session == "" then t
    else if e.delete then t - {e.session}
    else t[e.session := e.at]
  }

  function Tracked(es: seq<Event>): Tracker {
    if es == [] then Tracker(map[], None, false) else Tracked(es[..|es| - 1]).Observed(es[|es| - 1])
  }

  function Ideal(es: seq<Event>): Sessions {
    if es == [] then map[] else Unlimited(Ideal(es[..|es| - 1]), es[|es| - 1])
  }

  ghost predicate InTime(es: seq<Event>) {
    forall i, j | 0 <= i < j < |es| :: es[i].at <= es[j].at
  }

  /** The tracker knows some of the sessions, and the others expire by the time it stops being unreliable. */
  ghost predicate Agree(t: Tracker, ideal: Sessions, now: Time) {
    && |t.sessions| <= LIMIT
    && (forall id | id in t.sessions :: id in ideal && ideal[id] == t.sessions[id])
    && (forall id | id in ideal :: ideal[id] <= now)
    && (forall id | id in ideal && id !in t.sessions ::
          ideal[id] + TIMEOUT <= if t.unreliableUntil.Some? then t.unreliableUntil.value else now)
  }

  lemma PruningKeepsAgreement(t: Tracker, ideal: Sessions, before: Time, now: Time)
    requires Agree(t, ideal, before) && before <= now
    ensures Agree(t.Pruned(now), Live(ideal, now), now)
  {
    SubsetIsNoLarger(Live(t.sessions, now).Keys, t.sessions.Keys);
  }

  lemma ObservingKeepsAgreement(t: Tracker, ideal: Sessions, before: Time, e: Event)
    requires Agree(t, ideal, before) && before <= e.at
    ensures Agree(t.Observed(e), Unlimited(ideal, e), e.at)
  {
    PruningKeepsAgreement(t, ideal, before, e.at);
    var p := t.Pruned(e.at);
    SubsetIsNoLarger((p.sessions - {e.session}).Keys, p.sessions.Keys);
    if e.session in p.sessions {
      assert p.sessions[e.session := e.at].Keys == p.sessions.Keys;
    } else {
      assert p.sessions[e.session := e.at].Keys == p.sessions.Keys + {e.session};
    }
  }

  lemma {:induction false} AgreementAlways(es: seq<Event>)
    requires InTime(es)
    ensures forall now | es == [] || es[|es| - 1].at <= now :: Agree(Tracked(es), Ideal(es), now)
    decreases |es|
  {
    if es != [] {
      var n := |es| - 1;
      AgreementAlways(es[..n]);
      ObservingKeepsAgreement(Tracked(es[..n]), Ideal(es[..n]), es[n].at, es[n]);
    }
  }

  // ----- When the count is available -----

  /** Event `i` is the last one of session `id`. */
  ghost predicate LastOf(es: seq<Event>, id: string, i: nat) {
    i < |es| && es[i].session == id && forall j | i < j < |es| :: es[j].session != id
  }

  /** A session counts exactly if its last event is no DELETE and not more than half an hour ago. */
  ghost predicate SeenLately(es: seq<Event>, id: string, now: Time) {
    id != "" && exists i: nat :: LastOf(es, id, i) && !es[i].delete && now - es[i].at <= 30 * 60
  }

  lemma {:induction false} UnlimitedMeansSeenLately(es: seq<Event>, now: Time, id: string)
    requires InTime(es) && (es == [] || es[|es| - 1].at <= now)
    ensures id in Live(Ideal(es), now) <==> SeenLately(es, id, now)
    ensures id in Ideal(es) ==> exists i: nat :: LastOf(es, id, i) && es[i].at == Ideal(es)[id]
    decreases |es|
  {
    if es != [] {
      var n := |es| - 1;
      var before, e := es[..n], es[n];
      UnlimitedMeansSeenLately(before, e.at, id);
      if id == e.session {
        assert LastOf(es, id, n);
        assert forall i: nat | LastOf(es, id, i) :: i == n;
      } else {
        assert forall i: nat | i < n :: LastOf(es, id, i) <==> LastOf(before, id, i);
        assert forall i: nat | i < n :: es[i] == before[i];
      }
    }
  }

  /** Event `i` names a session for which there is no room among the 256 that are tracked and alive. */
  ghost predicate Overflows(es: seq<Event>, i: nat)
    requires i < |es|
  {
    var alive := Live(Tracked(es[..i]).sessions, es[i].at);
    es[i].session != "" && !es[i].delete && es[i].session !in alive && |alive| >= 256
  }

  /** By the last overflow so far, if it is not half an hour ago. */
  ghost predicate UnreliableByOverflow(es: seq<Event>, until: Option<Time>) {
    && (until.Some? ==> exists i: nat | i < |es| :: Overflows(es, i) && until.value == es[i].at + 30 * 60)
    && (forall i: nat | i < |es| && Overflows(es, i) :: es[i].at + 30 * 60 <= if until.Some? then until.value else es[|es| - 1].at)
  }

  lemma OverflowedBefore(es: seq<Event>, n: nat, i: nat)
    requires i < n <= |es|
    ensures Overflows(es, i) <==> Overflows(es[..n], i)
  {
    assert es[..i] == es[..n][..i];
  }

  lemma OneEventUnreliable(t: Tracker, e: Event)
    ensures var alive := Live(t.sessions, e.at);
            t.Observed(e).unreliableUntil ==
              if e.session != "" && !e.delete && e.session !in alive && |alive| >= 256 then Some(e.at + 30 * 60)
              else if t.unreliableUntil.Some? && e.at < t.unreliableUntil.value then t.unreliableUntil else None
  {}

  lemma UnreliableAfter(es: seq<Event>)
    requires es != []
    ensures var n := |es| - 1;
            var before, now := Tracked(es[..n]).unreliableUntil, es[n].at;
            Tracked(es).unreliableUntil == if Overflows(es, n) then Some(now + 30 * 60)
                                           else if before.Some? && now < before.value then before else None
  {
    var n := |es| - 1;
    OneEventUnreliable(Tracked(es[..n]), es[n]);
  }

  lemma {:induction false} UnreliableSinceOverflow(es: seq<Event>)
    requires InTime(es)
    ensures UnreliableByOverflow(es, Tracked(es).unreliableUntil)
    decreases |es|
  {
    if es != [] {
      var n := |es| - 1;
      UnreliableSinceOverflow(es[..n]);
      UnreliableAfter(es);
      forall i: nat | i < n ensures Overflows(es, i) <==> Overflows(es[..n], i) {
        OverflowedBefore(es, n, i);
      }
      LaterIsUnreliable(es, n, Tracked(es[..n]).unreliableUntil, Tracked(es).unreliableUntil);
    }
  }

  lemma LaterIsUnreliable(es: seq<Event>, n: nat, before: Option<Time>, until: Option<Time>)
    requires InTime(es) && n == |es| - 1 && UnreliableByOverflow(es[..n], before)
    requires forall i: nat | i < n :: Overflows(es, i) <==> Overflows(es[..n], i)
    requires until == if Overflows(es, n) then Some(es[n].at + 30 * 60)
                      else if before.Some? && es[n].at < before.value then before else None
    ensures UnreliableByOverflow(es, until)
  {
    if until.Some? && !Overflows(es, n) {
      var i: nat :| i < n && Overflows(es[..n], i) && before.value == es[..n][i].at + 30 * 60;
      assert Overflows(es, i) && until.value == es[i].at + 30 * 60;
    }
    forall i: nat | i < |es| && Overflows(es, i) ensures es[i].at + 30 * 60 <= if until.Some? then until.value else es[n].at {
      assert i < n ==> es[i] == es[..n][i] && es[i].at <= es[n].at;
    }
  }

  lemma {:induction false} SeenSinceNamed(es: seq<Event>)
    ensures Tracked(es).seen <==> exists i :: 0 <= i < |es| && es[i].session != ""
    decreases |es|
  {
    if es != [] {
      var n := |es| - 1;
      SeenSinceNamed(es[..n]);
      assert forall i | 0 <= i < n :: es[i] == es[..n][i];
    }
  }

  /** The count is available exactly if some session has been named and no session has overflowed within the last half hour. */
  lemma AvailableIff(es: seq<Event>, now: Time)
    requires InTime(es) && (es == [] || es[|es| - 1].at <= now)
    ensures Tracked(es).Pruned(now).Available() <==>
            && (exists i :: 0 <= i < |es| && es[i].session != "")
            && forall i: nat | i < |es| && Overflows(es, i) :: es[i].at + 30 * 60 <= now
  {
    UnreliableSinceOverflow(es);
    SeenSinceNamed(es);
  }

  lemma RoomForAll(t: Tracker, ideal: Sessions, e: Event)
    requires t.sessions == ideal && t.unreliableUntil == None && |Unlimited(ideal, e)| <= 256
    ensures t.Observed(e).sessions == Unlimited(ideal, e) && t.Observed(e).unreliableUntil == None
  {
    var alive := Live(ideal, e.at);
    assert e.session !in alive ==> alive[e.session := e.at].Keys == alive.Keys + {e.session};
  }

  /** While there are never more than 256 sessions at a time, all of them are tracked, and their number is available. */
  lemma {:induction false} FewSessionsAreAlwaysCounted(es: seq<Event>)
    requires InTime(es) && forall k: nat | k <= |es| :: |Ideal(es[..k])| <= 256
    ensures Tracked(es).sessions == Ideal(es) && Tracked(es).unreliableUntil == None
    decreases |es|
  {
    if es != [] {
      var n := |es| - 1;
      var before, e := es[..n], es[n];
      forall k: nat | k <= n ensures |Ideal(before[..k])| <= 256 {
        assert before[..k] == es[..k];
      }
      FewSessionsAreAlwaysCounted(before);
      assert es[..n + 1] == es;
      RoomForAll(Tracked(before), Ideal(before), e);
    }
  }

  /** Sessions that were dropped for want of room and expire at this very moment. */
  function Expiring(t: Tracker, ideal: Sessions, now: Time): set<string> {
    set id | id in ideal && id !in t.sessions && ideal[id] + TIMEOUT == now
  }

  /**
   * Whenever the count is published as available, the sessions it misses are exactly the dropped
   * ones that expire at this very moment; so it equals the unlimited count if and only if there
   * is none.
   */
  lemma AvailableCountIsExact(es: seq<Event>, now: Time)
    requires InTime(es) && (es == [] || es[|es| - 1].at <= now)
    requires Tracked(es).Pruned(now).Available()
    ensures var t, ideal := Tracked(es).Pruned(now), Live(Ideal(es), now);
            && ideal.Keys == t.sessions.Keys + Expiring(t, ideal, now)
            && (|t.sessions| == |ideal| <==> Expiring(t, ideal, now) == {})
  {
    AgreementAlways(es);
    var t, ideal := Tracked(es).Pruned(now), Live(Ideal(es), now);
    PruningKeepsAgreement(Tracked(es), Ideal(es), now, now);
    assert Agree(t, ideal, now);
    forall id | id in ideal ensures id in t.sessions || id in Expiring(t, ideal, now) {}
    assert ideal.Keys == t.sessions.Keys + Expiring(t, ideal, now);
    assert t.sessions.Keys !! Expiring(t, ideal, now);
    assert |ideal.Keys| == |t.sessions.Keys| + |Expiring(t, ideal, now)|;
  }

  /** The limit holds after any events, in whatever order their times come. */
  lemma {:induction false} LimitHolds(es: seq<Event>)
    ensures |Tracked(es).sessions| <= LIMIT
    decreases |es|
  {
    if es != [] {
      var n := |es| - 1;
      var t, e := Tracked(es[..n]), es[n];
      LimitHolds(es[..n]);
      SubsetIsNoLarger(Live(t.sessions, e.at).Keys, t.sessions.Keys);
      var p := t.Pruned(e.at);
      SubsetIsNoLarger((p.sessions - {e.session}).Keys, p.sessions.Keys);
      if e.session in p.sessions {
        assert p.sessions[e.session := e.at].Keys == p.sessions.Keys;
      } else {
        assert p.sessions[e.session := e.at].Keys == p.sessions.Keys + {e.session};
      }
    }
  }

  class RemoteConnectorTelemetry {
    var sessions: Sessions
    var unreliableUntil: Option<Time>
    var seen: bool

    constructor ()
      ensures Value() == Tracked([])
    {
      sessions, unreliableUntil, seen := map[], None, false;
    }

    function Value(): Tracker
      reads this
    {
      Tracker(sessions, unreliableUntil, seen)
    }

    method Prune(now: Time)
      modifies this
      ensures Value() == old(Value()).Pruned(now)
    {
      var rest := sessions.Keys;
      while rest != {}
        invariant rest <= old(sessions).Keys && seen == old(seen) && unreliableUntil == old(unreliableUntil)
        invariant forall id :: id in sessions <==> id in old(sessions) && (id in rest || now - old(sessions)[id] <= TIMEOUT)
        invariant forall id | id in sessions :: sessions[id] == old(sessions)[id]
        decreases |rest|
      {
        var id :| id in rest;
        if now - sessions[id] > TIMEOUT { sessions := sessions - {id}; }
        rest := rest - {id};
      }
      assert sessions == Live(old(sessions), now);
      if unreliableUntil.Some? && now >= unreliableUntil.value { unreliableUntil := None; }
    }

    method Observe(e: Event)
      modifies this
      ensures Value() == old(Value()).Observed(e)
    {
      Prune(e.at);
      if e.session != "" {
        seen := true;
        if e.delete {
          sessions := sessions - {e.session};
        } else if e.session in sessions {
          sessions := sessions[e.session := e.at];
        } else if |sessions| < LIMIT {
          sessions := sessions[e.session := e.at];
        } else {
          unreliableUntil := Some(e.at + TIMEOUT);
        }
      }
    }

    /** What connectorStateLocked publishes. */
    method Publish(now: Time) returns (available: bool, count: nat)
      modifies this
      ensures Value() == old(Value()).Pruned(now)
      ensures available == Value().Available() && count == if available then |sessions| else 0
    {
      Prune(now);
      available := seen && unreliableUntil.None?;
      count := if available then |sessions| else 0;
    }
  }
}
