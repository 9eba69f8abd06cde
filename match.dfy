/** The server-authoritative match lifecycle (server/match.py).

    A match is `active` until a vote brings a team to WinScore; the manager
    then records the winner, passes through `victory` into `countdown`, and
    when the countdown timer fires it clears the scores and starts the next
    match. The clock is an integer count of milliseconds handed in by the
    caller; the timer firing is the explicit CountdownExpired event. */
module Match {
  import opened Wrappers
  import opened Config
  import opened Store

  datatype Phase = Active | Victory | Countdown {
    /** The value of `_state` as sent to clients. */
    function Name(): string {
      match this
      case Active => "active"
      case Victory => "victory"
      case Countdown => "countdown"
    }
  }

  const CountdownMillis: int := CountdownSeconds * 1000

  /** The dictionary sent to every client: scores plus match information. */
  datatype FullState = FullState(
    team1: int,
    team2: int,
    matchState: string,
    winner: Option<string>,
    matchesPlayed: int,
    countdown: int,
    winScore: int)

  /** The manager's fields together with the store's counters. */
  datatype MatchView = MatchView(
    scores: Scores,
    phase: Phase,
    winner: Option<string>,
    matchesPlayed: nat,
    countdownEnd: Option<int>,
    timerPending: bool)

  /** The match that a fresh server starts with. */
  function Initial(): (v: MatchView)
    ensures Inv(v)
  {
    MatchView(Zero(), Active, None, 0, None, false)
  }

  /** `w` reached WinScore with the other team still below it. */
  predicate WonBy(s: Scores, w: string)
    requires WellFormed(s)
  {
    (w == Team1 && s[Team1] == WinScore && s[Team2] < WinScore)
    || (w == Team2 && s[Team2] == WinScore && s[Team1] < WinScore)
  }

  /** What the manager keeps true between operations: the transient
      `victory` state is never observable, the winner is unset exactly while
      the match is active, an active match has no countdown and both scores
      below WinScore, and a match in countdown has a pending reset timer and
      a winner who reached WinScore exactly. */
  predicate Inv(v: MatchView) {
    WellFormed(v.scores)
    && v.phase != Victory
    && (v.phase == Active <==> v.winner.None?)
    && (v.phase == Active ==>
          v.countdownEnd.None? && !v.timerPending
          && v.scores[Team1] < WinScore && v.scores[Team2] < WinScore)
    && (v.phase == Countdown ==>
          v.countdownEnd.Some? && v.timerPending && WonBy(v.scores, v.winner.value))
  }

  // ── Transitions as functions ─────────────────────────────────────────────

  /** `_start_countdown` at time `now`. */
  function StartCountdownStep(v: MatchView, now: int): MatchView {
    v.(phase := Countdown, countdownEnd := Some(now + CountdownMillis), timerPending := true)
  }

  /** `handle_vote(team)` at time `now`. */
  function VoteStep(v: MatchView, team: string, now: int): Result<MatchView, StoreError>
    requires WellFormed(v.scores)
  {
    if v.phase != Active then Ok(v)
    else
      match IncrementSpec(v.scores, team)
      case Err(e) => Err(e)
      case Ok(s) =>
        if GetOr(s, Team1, 0) >= WinScore || GetOr(s, Team2, 0) >= WinScore then
          var won := v.(scores := s, phase := Victory,
                        winner := Some(if s[Team1] >= WinScore then Team1 else Team2));
          Ok(StartCountdownStep(won, now))
        else
          Ok(v.(scores := s))
  }

  /** `_reset_match`. */
  function ResetStep(v: MatchView): MatchView {
    MatchView(Zero(), Active, None, v.matchesPlayed + 1, None, false)
  }

  /** The countdown timer firing: it exists only while a reset is pending. */
  function ExpireStep(v: MatchView): MatchView {
    if v.timerPending then ResetStep(v) else v
  }

  /** `int(x)` of a float, x = a / b: truncation toward zero. */
  function TruncDiv(a: int, b: int): (r: int)
    requires b > 0
    ensures a >= 0 ==> r >= 0 && r * b <= a < r * b + b
    ensures a < 0 ==> r <= 0 && r * b - b < a <= r * b
  {
    if a >= 0 then a / b else -((-a) / b)
  }

  /** `_get_countdown_remaining`: whole seconds left, rounded to the nearest
      second (halves up), never negative, and 0 when no countdown runs. */
  function CountdownRemaining(countdownEnd: Option<int>, now: int): (r: int)
    ensures r >= 0
    ensures countdownEnd.None? ==> r == 0
    ensures countdownEnd.Some? && countdownEnd.value <= now ==> r == 0
    ensures countdownEnd.Some? && countdownEnd.value >= now ==>
              r * 1000 - 500 <= countdownEnd.value - now < r * 1000 + 500
    ensures countdownEnd.Some? && countdownEnd.value - now <= CountdownMillis ==> r <= CountdownSeconds
  {
    match countdownEnd
    case None => 0
    case Some(end) =>
      var q := TruncDiv(end - now + 500, 1000);
      if q < 0 then 0 else q
  }

  /** The full match state as clients see it at time `now`. */
  function Snapshot(v: MatchView, now: int): FullState
    requires WellFormed(v.scores)
  {
    FullState(v.scores[Team1], v.scores[Team2], v.phase.Name(), v.winner,
              v.matchesPlayed, CountdownRemaining(v.countdownEnd, now), WinScore)
  }

  // ── Properties of the transitions ────────────────────────────────────────

  /** Every vote, accepted, ignored or rejected, keeps the invariant. */
  lemma VotePreservesInv(v: MatchView, team: string, now: int)
    requires Inv(v)
    ensures VoteStep(v, team, now).Ok? ==> Inv(VoteStep(v, team, now).value)
  {
  }

  /** A vote outside an active match changes nothing, even for an unknown
      team: the state is checked before the team is validated. */
  lemma VoteWhenNotActiveIsIgnored(v: MatchView, team: string, now: int)
    requires WellFormed(v.scores) && v.phase != Active
    ensures VoteStep(v, team, now) == Ok(v)
  {
  }

  /** While active, an unknown team is refused and nothing changes; a known
      team gains exactly one vote, the other team's count and the match
      counter stay as they were. */
  lemma VoteCountsOnce(v: MatchView, team: string, now: int)
    requires Inv(v) && v.phase == Active
    ensures VoteStep(v, team, now).Err? <==> !IsTeam(team)
    ensures VoteStep(v, team, now).Err? ==> VoteStep(v, team, now).error == InvalidTeam(team)
    ensures VoteStep(v, team, now).Ok? ==>
              var w := VoteStep(v, team, now).value;
              w.scores[team] == v.scores[team] + 1
              && (forall t :: IsTeam(t) && t != team ==> w.scores[t] == v.scores[t])
              && w.matchesPlayed == v.matchesPlayed
  {
  }

  /** A vote ends the match exactly when it brings the voted team to
      WinScore; the winner is then that team, the state is `countdown` (never
      `victory`) and the reset is due CountdownSeconds after `now`. */
  lemma VoteWinsExactlyAtThreshold(v: MatchView, team: string, now: int)
    requires Inv(v) && v.phase == Active && IsTeam(team)
    ensures var w := VoteStep(v, team, now).value;
            (w.phase != Active <==> v.scores[team] + 1 == WinScore)
            && (w.phase != Active ==>
                  w.phase == Countdown && w.winner == Some(team)
                  && w.countdownEnd == Some(now + CountdownMillis) && w.timerPending)
            && (w.phase == Active ==> w.winner == None && w.countdownEnd == None)
  {
  }

  /** The reset clears both scores, starts an active match with no winner
      and no countdown, and counts one more match played. */
  lemma ResetStartsNextMatch(v: MatchView)
    ensures var w := ResetStep(v);
            Inv(w) && w.scores[Team1] == 0 && w.scores[Team2] == 0
            && w.phase == Active && w.winner == None && w.countdownEnd == None
            && w.matchesPlayed == v.matchesPlayed + 1
  {
  }

  /** Under the invariant no score is negative or above WinScore. */
  lemma ScoresWithinBounds(v: MatchView)
    requires Inv(v)
    ensures 0 <= v.scores[Team1] <= WinScore && 0 <= v.scores[Team2] <= WinScore
  {
  }

  /** What a client can rely on in every snapshot of a consistent match:
      the state is `active` or `countdown`, a winner is named exactly when
      it is not `active`, the winner's score is WinScore, an active match
      shows no countdown and both scores below WinScore. */
  lemma SnapshotConsistent(v: MatchView, now: int)
    requires Inv(v)
    ensures var s := Snapshot(v, now);
            (s.matchState == "active" || s.matchState == "countdown")
            && (s.matchState == "active" <==> s.winner.None?)
            && (s.matchState == "active" ==> s.countdown == 0 && s.team1 < s.winScore && s.team2 < s.winScore)
            && (s.winner == Some(Team1) ==> s.team1 == s.winScore && s.team2 < s.winScore)
            && (s.winner == Some(Team2) ==> s.team2 == s.winScore && s.team1 < s.winScore)
            && 0 <= s.team1 <= s.winScore && 0 <= s.team2 <= s.winScore
            && s.countdown >= 0 && s.winScore == WinScore
  {
  }

  // ── Runs of events ───────────────────────────────────────────────────────

  /** The events the server handles one at a time. */
  datatype Event = VoteCast(team: string, now: int) | CountdownElapsed

  /** One event; a refused vote leaves the match as it was. */
  function Apply(v: MatchView, e: Event): (r: MatchView)
    requires Inv(v)
    ensures Inv(r) && r.matchesPlayed >= v.matchesPlayed
  {
    match e
    case VoteCast(team, now) =>
      VotePreservesInv(v, team, now);
      var res := VoteStep(v, team, now);
      if res.Ok? then res.value else v
    case CountdownElapsed => ExpireStep(v)
  }

  /** A sequence of events from `v`: the invariant holds after every run and
      the match counter never goes down. */
  function Run(v: MatchView, events: seq<Event>): (r: MatchView)
    requires Inv(v)
    ensures Inv(r) && r.matchesPlayed >= v.matchesPlayed
    decreases |events|
  {
    if events == [] then v else Run(Apply(v, events[0]), events[1..])
  }

  /** From server start, whatever the events, no score ever exceeds
      WinScore. */
  lemma NoOvershoot(events: seq<Event>)
    ensures var v := Run(Initial(), events);
            0 <= v.scores[Team1] <= WinScore && 0 <= v.scores[Team2] <= WinScore
  {
    ScoresWithinBounds(Run(Initial(), events));
  }

  // ── The manager ──────────────────────────────────────────────────────────

  /** `MatchManager`: one per server, over the process-wide score store. */
  class MatchManager {
    const store: LocalStore
    var phase: Phase
    var winner: Option<string>
    var matchesPlayed: nat
    /** Clock reading (milliseconds) at which the countdown ends. */
    var countdownEnd: Option<int>
    /** Whether the reset timer task is scheduled. */
    var timerPending: bool

    ghost function View(): MatchView
      reads this, store
    {
      MatchView(store.scores, phase, winner, matchesPlayed, countdownEnd, timerPending)
    }

    ghost predicate Valid()
      reads this, store
    {
      Inv(View())
    }

    constructor (store: LocalStore)
      requires store.Valid() && store.scores[Team1] < WinScore && store.scores[Team2] < WinScore
      ensures this.store == store && Valid()
      ensures phase == Active && winner == None && matchesPlayed == 0
      ensures countdownEnd == None && !timerPending
    {
      this.store := store;
      phase := Active;
      winner := None;
      matchesPlayed := 0;
      countdownEnd := None;
      timerPending := false;
    }

    /** `get_full_state` (and `_unlocked_full_state`, the same read made
        while the lock is already held). */
    method GetFullState(now: int) returns (s: FullState)
      requires store.Valid()
      ensures s == Snapshot(View(), now)
    {
      var scores := store.GetScores();
      s := FullState(scores[Team1], scores[Team2], phase.Name(), winner,
                     matchesPlayed, CountdownRemaining(countdownEnd, now), WinScore);
    }

    /** `handle_vote`: ignored unless active; otherwise one more vote for
        `team` and, at WinScore, the win and the countdown. Returns the full
        state afterwards, or the store's error for an unknown team. */
    method HandleVote(team: string, now: int) returns (r: Result<FullState, StoreError>)
      requires Valid()
      modifies this, store
      ensures Valid()
      ensures match VoteStep(old(View()), team, now)
              case Ok(w) => View() == w && r == Ok(Snapshot(w, now))
              case Err(e) => View() == old(View()) && r == Err(e)
      ensures old(phase) != Active ==> View() == old(View()) && r.Ok?
      ensures matchesPlayed == old(matchesPlayed)
    {
      if phase != Active {
        var s := GetFullState(now);
        return Ok(s);
      }
      var res := store.Increment(team);
      if res.Err? {
        return Err(res.error);
      }
      var scores := res.value;
      if GetOr(scores, Team1, 0) >= WinScore || GetOr(scores, Team2, 0) >= WinScore {
        phase := Victory;
        winner := Some(if scores[Team1] >= WinScore then Team1 else Team2);
        StartCountdown(now);
      }
      VotePreservesInv(old(View()), team, now);
      var s := GetFullState(now);
      r := Ok(s);
    }

    /** `_start_countdown`: enter `countdown`, due CountdownSeconds from now,
        with the reset timer scheduled. */
    method StartCountdown(now: int)
      modifies this
      ensures phase == Countdown && countdownEnd == Some(now + CountdownMillis) && timerPending
      ensures winner == old(winner) && matchesPlayed == old(matchesPlayed)
    {
      phase := Countdown;
      countdownEnd := Some(now + CountdownMillis);
      timerPending := true;
    }

    /** `_reset_match`: zero the scores, count the match, start a new one. */
    method ResetMatch()
      requires store.Valid()
      modifies this, store
      ensures Valid() && View() == ResetStep(old(View()))
      ensures store.scores == Zero() && matchesPlayed == old(matchesPlayed) + 1
      ensures phase == Active && winner == None && countdownEnd == None && !timerPending
    {
      var zeros := store.Reset();
      matchesPlayed := matchesPlayed + 1;
      phase := Active;
      winner := None;
      countdownEnd := None;
      timerPending := false;
    }

    /** The countdown timer firing (`_countdown_loop` after its sleep):
        resets the match when a countdown is pending. */
    method CountdownExpired()
      requires Valid()
      modifies this, store
      ensures Valid() && View() == ExpireStep(old(View()))
      ensures matchesPlayed >= old(matchesPlayed)
    {
      if timerPending {
        ResetMatch();
      }
    }
  }
}
