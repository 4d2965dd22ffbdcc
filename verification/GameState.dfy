/**
 The match: players, combat, the match status and the capped event log.

 `Match` and `Step` say what one call does; the class at the end does it in place.  Scores are
 mathematical integers.
 */
module GameState {
  import opened Decimal

  const MAP_MIN: int := 0
  const MAP_MAX: int := 1000
  const MAX_HEALTH: int := 100
  const ATTACK_DAMAGE: int := 25
  const MAX_EVENTS: nat := 1000

  datatype Player = Player(id: int, x: int, y: int, health: int, score: int, kills: int)

  datatype Status = WAITING | ACTIVE | FINISHED

  datatype Match = Match(players: map<int, Player>, status: Status, totalKills: int)

  datatype Error =
    | AlreadyInGame(id: int)
    | NotInGame(id: int)
    | AttackYourself
    | AttackerNotInGame(id: int)
    | TargetNotInGame(id: int)

  datatype Action =
    | Join(id: int)
    | Leave(id: int)
    | Move(id: int, x: int, y: int)
    | Attack(id: int, target: int)
    | SetScore(id: int, score: int)

  const EMPTY: Match := Match(map[], WAITING, 0)

  function NewPlayer(id: int): Player {
    Player(id, 500, 500, MAX_HEALTH, 0, 0)
  }

  function Clamp(v: int, lo: int, hi: int): int {
    if v < lo then lo else if hi < v then hi else v
  }

  function Max(a: int, b: int): int {
    if a < b then b else a
  }

  /** The error a call reports, if any. */
  function Refusal(m: Match, a: Action): Option<Error> {
    match a
    case Join(id) => if id in m.players then Some(AlreadyInGame(id)) else None
    case Attack(id, target) =>
      if id == target then Some(AttackYourself)
      else if id !in m.players then Some(AttackerNotInGame(id))
      else if target !in m.players then Some(TargetNotInGame(target))
      else None
    case _ => if a.id !in m.players then Some(NotInGame(a.id)) else None
  }

  function HealthAfter(m: Match, target: int): int
    requires target in m.players
  {
    Max(0, m.players[target].health - ATTACK_DAMAGE)
  }

  /** ACTIVE becomes FINISHED when nobody is left. */
  function Closed(m: Match): Match {
    if m.status == ACTIVE && m.players == map[] then m.(status := FINISHED) else m
  }

  function Strike(m: Match, id: int, target: int): Match
    requires Refusal(m, Attack(id, target)).None?
  {
    var health := HealthAfter(m, target);
    var a := m.players[id];
    if health == 0 then
      Closed(m.(players := m.players[id := a.(score := a.score + 100, kills := a.kills + 1)] - {target},
                totalKills := m.totalKills + 1))
    else
      m.(players := m.players[target := m.players[target].(health := health)][id := a.(score := a.score + 10)])
  }

  datatype AttackResult = AttackResult(damage: int, targetHealthAfter: int, attackerScore: int, targetEliminated: bool)

  /** What a successful attack reports. */
  function StrikeResult(m: Match, id: int, target: int): AttackResult
    requires Refusal(m, Attack(id, target)).None?
  {
    var health := HealthAfter(m, target);
    AttackResult(ATTACK_DAMAGE, health, Strike(m, id, target).players[id].score, health == 0)
  }

  function Do(m: Match, a: Action): Match
    requires Refusal(m, a).None?
  {
    match a
    case Join(id) =>
      m.(players := m.players[id := NewPlayer(id)], status := if m.status == WAITING then ACTIVE else m.status)
    case Leave(id) => Closed(m.(players := m.players - {id}))
    case Move(id, x, y) =>
      m.(players := m.players[id := m.players[id].(x := Clamp(x, MAP_MIN, MAP_MAX), y := Clamp(y, MAP_MIN, MAP_MAX))])
    case Attack(id, target) => Strike(m, id, target)
    case SetScore(id, score) => m.(players := m.players[id := m.players[id].(score := score)])
  }

  /** One call; a refused one changes nothing. */
  function Step(m: Match, a: Action): Match {
    if Refusal(m, a).Some? then m else Do(m, a)
  }

  // ---- The match invariant ----

  predicate PlayerInv(id: int, p: Player) {
    && p.id == id
    && MAP_MIN <= p.x <= MAP_MAX && MAP_MIN <= p.y <= MAP_MAX
    && (p.health == 25 || p.health == 50 || p.health == 75 || p.health == 100)
    && p.kills >= 0
  }

  ghost predicate MatchInv(m: Match) {
    && (forall id :: id in m.players ==> PlayerInv(id, m.players[id]))
    && (m.status == WAITING ==> m.players == map[])
    && (m.status == ACTIVE ==> m.players != map[])
  }

  lemma MatchStep(m: Match, a: Action)
    requires MatchInv(m)
    ensures MatchInv(Step(m, a))
    ensures m.status == FINISHED ==> Step(m, a).status == FINISHED
    ensures m.status != WAITING ==> Step(m, a).status != WAITING
  {
    if Refusal(m, a).None? {
      var t := Do(m, a);
      match a {
        case Join(id) => assert id in t.players;
        case Leave(id) =>
        case Move(id, _, _) => assert id in t.players;
        case Attack(id, _) => assert id in t.players;
        case SetScore(id, _) => assert id in t.players;
      }
    }
  }

  /** The attacker survives its victim: an elimination never empties the arena nor ends the match. */
  lemma EliminationNeverEmptiesTheArena(m: Match, id: int, target: int)
    requires Refusal(m, Attack(id, target)).None?
    ensures id in Step(m, Attack(id, target)).players
    ensures Step(m, Attack(id, target)).status == m.status
  {
  }

  // ---- The books ----

  /** One stay in the arena: landed hits, and whether the score was ever overwritten. */
  datatype Session = Session(hits: int, overwritten: bool)

  datatype Ledger = Ledger(
    joins: int,
    leaves: int,
    hits: int,              // successful attacks
    leaveDamage: int,       // what players had lost when they left
    departedKills: int,     // kills of players that left or were eliminated
    sessions: map<int, Session>)

  const BLANK: Ledger := Ledger(0, 0, 0, 0, 0, map[])

  function Book(l: Ledger, m: Match, a: Action): Ledger
    requires l.sessions.Keys == m.players.Keys
  {
    if Refusal(m, a).Some? then l
    else
      match a
      case Join(id) => l.(joins := l.joins + 1, sessions := l.sessions[id := Session(0, false)])
      case Leave(id) =>
        l.(leaves := l.leaves + 1, leaveDamage := l.leaveDamage + Damage(m.players[id]),
           departedKills := l.departedKills + m.players[id].kills, sessions := l.sessions - {id})
      case Move(_, _, _) => l
      case Attack(id, target) =>
        var s := l.sessions[id];
        var hit := l.(hits := l.hits + 1, sessions := l.sessions[id := s.(hits := s.hits + 1)]);
        if HealthAfter(m, target) == 0 then
          hit.(departedKills := l.departedKills + m.players[target].kills, sessions := hit.sessions - {target})
        else hit
      case SetScore(id, _) => l.(sessions := l.sessions[id := l.sessions[id].(overwritten := true)])
  }

  function Damage(p: Player): int { MAX_HEALTH - p.health }
  function Kills(p: Player): int { p.kills }

  ghost function SumOf(m: map<int, Player>, f: Player -> int): int {
    if !exists k :: k in m then 0 else var k :| k in m; f(m[k]) + SumOf(m - {k}, f)
  }

  lemma {:induction false} SumRemove(m: map<int, Player>, k: int, f: Player -> int)
    requires k in m
    ensures SumOf(m, f) == f(m[k]) + SumOf(m - {k}, f)
  {
    var j :| j in m && SumOf(m, f) == f(m[j]) + SumOf(m - {j}, f);
    if j != k {
      SumRemove(m - {j}, k, f);
      SumRemove(m - {k}, j, f);
      assert m - {j} - {k} == m - {k} - {j};
    }
  }

  lemma SumPut(m: map<int, Player>, k: int, p: Player, f: Player -> int)
    ensures SumOf(m[k := p], f) == f(p) + SumOf(m - {k}, f)
    ensures k !in m ==> m - {k} == m
  {
    SumRemove(m[k := p], k, f);
    assert m[k := p] - {k} == m - {k};
  }

  /** Replacing a player that is there. */
  lemma SumReplace(m: map<int, Player>, k: int, p: Player, f: Player -> int)
    requires k in m
    ensures SumOf(m[k := p], f) == SumOf(m, f) - f(m[k]) + f(p)
  {
    SumPut(m, k, p, f);
    SumRemove(m, k, f);
  }

  predicate ScoreInv(p: Player, s: Session) {
    !s.overwritten ==> p.score == 10 * s.hits + 90 * p.kills
  }

  /** Conservation of players, damage, kills and points. */
  ghost predicate LedgerInv(m: Match, l: Ledger) {
    && l.sessions.Keys == m.players.Keys
    && l.joins >= 0
    && (m.status == WAITING <==> l.joins == 0)
    && l.joins == |m.players| + l.leaves + m.totalKills
    && ATTACK_DAMAGE * l.hits == MAX_HEALTH * m.totalKills + SumOf(m.players, Damage) + l.leaveDamage
    && m.totalKills == SumOf(m.players, Kills) + l.departedKills
    && (forall id :: id in m.players ==> ScoreInv(m.players[id], l.sessions[id]))
  }

  lemma LedgerJoin(m: Match, l: Ledger, id: int)
    requires MatchInv(m) && LedgerInv(m, l) && Refusal(m, Join(id)).None?
    ensures LedgerInv(Do(m, Join(id)), Book(l, m, Join(id)))
  {
    SumPut(m.players, id, NewPlayer(id), Damage);
    SumPut(m.players, id, NewPlayer(id), Kills);
  }

  lemma LedgerLeave(m: Match, l: Ledger, id: int)
    requires MatchInv(m) && LedgerInv(m, l) && Refusal(m, Leave(id)).None?
    ensures LedgerInv(Do(m, Leave(id)), Book(l, m, Leave(id)))
  {
    SumRemove(m.players, id, Damage);
    SumRemove(m.players, id, Kills);
    assert |(m.players - {id}).Keys| == |m.players.Keys - {id}| == |m.players| - 1;
  }

  /** Moving a player or overwriting a score touches neither health nor kills. */
  lemma LedgerReplace(m: Match, l: Ledger, a: Action)
    requires a.Move? || a.SetScore?
    requires MatchInv(m) && LedgerInv(m, l) && Refusal(m, a).None?
    ensures LedgerInv(Do(m, a), Book(l, m, a))
  {
    var p := Do(m, a).players[a.id];
    SumReplace(m.players, a.id, p, Damage);
    SumReplace(m.players, a.id, p, Kills);
    assert m.players[a.id := p].Keys == m.players.Keys;
  }

  lemma LedgerHit(m: Match, l: Ledger, id: int, target: int)
    requires MatchInv(m) && LedgerInv(m, l) && Refusal(m, Attack(id, target)).None?
    requires HealthAfter(m, target) != 0
    ensures LedgerInv(Do(m, Attack(id, target)), Book(l, m, Attack(id, target)))
  {
    var t := Do(m, Attack(id, target));
    var wounded := m.players[target := t.players[target]];
    assert PlayerInv(target, m.players[target]);
    assert t.players == wounded[id := t.players[id]];
    assert wounded.Keys == m.players.Keys && t.players.Keys == m.players.Keys;
    SumReplace(m.players, target, t.players[target], Damage);
    SumReplace(m.players, target, t.players[target], Kills);
    SumReplace(wounded, id, t.players[id], Damage);
    SumReplace(wounded, id, t.players[id], Kills);
  }

  lemma LedgerKill(m: Match, l: Ledger, id: int, target: int)
    requires MatchInv(m) && LedgerInv(m, l) && Refusal(m, Attack(id, target)).None?
    requires HealthAfter(m, target) == 0
    ensures LedgerInv(Do(m, Attack(id, target)), Book(l, m, Attack(id, target)))
  {
    var t := Do(m, Attack(id, target));
    var rewarded := m.players[id := t.players[id]];
    assert PlayerInv(target, m.players[target]);
    assert t.players == rewarded - {target};
    assert rewarded.Keys == m.players.Keys;
    assert |t.players.Keys| == |rewarded.Keys - {target}| == |m.players| - 1;
    SumReplace(m.players, id, t.players[id], Damage);
    SumReplace(m.players, id, t.players[id], Kills);
    SumRemove(rewarded, target, Damage);
    SumRemove(rewarded, target, Kills);
  }

  lemma LedgerStep(m: Match, l: Ledger, a: Action)
    requires MatchInv(m) && LedgerInv(m, l)
    ensures LedgerInv(Step(m, a), Book(l, m, a))
  {
    if Refusal(m, a).None? {
      match a {
        case Join(id) => LedgerJoin(m, l, id);
        case Leave(id) => LedgerLeave(m, l, id);
        case Attack(id, target) =>
          if HealthAfter(m, target) == 0 {
            LedgerKill(m, l, id, target);
          } else {
            LedgerHit(m, l, id, target);
          }
        case _ => LedgerReplace(m, l, a);
      }
    }
  }

  // ---- Whole matches ----

  /** The match after any sequence of calls, refused ones included. */
  function MatchAfter(actions: seq<Action>): Match {
    if actions == [] then EMPTY else Step(MatchAfter(actions[..|actions| - 1]), actions[|actions| - 1])
  }

  /** The books kept along the way. */
  function Books(actions: seq<Action>): (l: Ledger)
    ensures l.sessions.Keys == MatchAfter(actions).players.Keys
  {
    if actions == [] then BLANK
    else
      var before := actions[..|actions| - 1];
      BookedKeys(Books(before), MatchAfter(before), actions[|actions| - 1]);
      Book(Books(before), MatchAfter(before), actions[|actions| - 1])
  }

  lemma BookedKeys(l: Ledger, m: Match, a: Action)
    requires l.sessions.Keys == m.players.Keys
    ensures Book(l, m, a).sessions.Keys == Step(m, a).players.Keys
  {
  }

  lemma {:induction false} InvariantOfRuns(actions: seq<Action>)
    ensures MatchInv(MatchAfter(actions)) && LedgerInv(MatchAfter(actions), Books(actions))
  {
    if actions != [] {
      var before := actions[..|actions| - 1];
      InvariantOfRuns(before);
      MatchStep(MatchAfter(before), actions[|actions| - 1]);
      LedgerStep(MatchAfter(before), Books(before), actions[|actions| - 1]);
    }
  }

  /** Every join is a player in the arena, a leave or a kill. */
  lemma PlayersAreConserved(actions: seq<Action>)
    ensures Books(actions).joins ==
            |MatchAfter(actions).players| + Books(actions).leaves + MatchAfter(actions).totalKills
  {
    InvariantOfRuns(actions);
  }

  /** Every landed hit is 25 points of health that some player lost. */
  lemma DamageIsConserved(actions: seq<Action>)
    ensures 25 * Books(actions).hits ==
            100 * MatchAfter(actions).totalKills + SumOf(MatchAfter(actions).players, Damage)
            + Books(actions).leaveDamage
  {
    InvariantOfRuns(actions);
  }

  /** The kill counter is the kills of the players in the arena and of those that departed. */
  lemma KillsAreConserved(actions: seq<Action>)
    ensures MatchAfter(actions).totalKills ==
            SumOf(MatchAfter(actions).players, Kills) + Books(actions).departedKills
  {
    InvariantOfRuns(actions);
  }

  /** A score nobody overwrote is 10 points a hit and 90 more a kill. */
  lemma ScoreIsEarned(actions: seq<Action>, id: int)
    requires id in MatchAfter(actions).players && !Books(actions).sessions[id].overwritten
    ensures MatchAfter(actions).players[id].score ==
            10 * Books(actions).sessions[id].hits + 90 * MatchAfter(actions).players[id].kills
  {
    InvariantOfRuns(actions);
    assert ScoreInv(MatchAfter(actions).players[id], Books(actions).sessions[id]);
  }

  /** Every player is stored under its own id, on the map, with 25, 50, 75 or 100 health. */
  lemma PlayersAreWellFormed(actions: seq<Action>, id: int)
    requires id in MatchAfter(actions).players
    ensures PlayerInv(id, MatchAfter(actions).players[id])
  {
    InvariantOfRuns(actions);
  }

  /** The call of index k was the departure that left an empty arena. */
  ghost predicate EmptiedBy(actions: seq<Action>, k: int) {
    && 0 <= k < |actions|
    && actions[k].Leave?
    && Refusal(MatchAfter(actions[..k]), actions[k]).None?
    && MatchAfter(actions[..k + 1]).players == map[]
  }

  ghost predicate JoinedBy(actions: seq<Action>, k: int) {
    0 <= k < |actions| && actions[k].Join? && Refusal(MatchAfter(actions[..k]), actions[k]).None?
  }

  lemma StatusStep(m: Match, a: Action)
    requires MatchInv(m)
    ensures Step(m, a).status == WAITING <==> m.status == WAITING && !(Refusal(m, a).None? && a.Join?)
    ensures Step(m, a).status == FINISHED <==>
            m.status == FINISHED || (Refusal(m, a).None? && a.Leave? && Step(m, a).players == map[])
  {
    MatchStep(m, a);
    if Refusal(m, a).None? && a.Attack? {
      EliminationNeverEmptiesTheArena(m, a.id, a.target);
    }
  }

  /** What the call of index k did to the status. */
  lemma StatusAt(actions: seq<Action>, k: nat)
    requires k < |actions|
    ensures MatchAfter(actions[..k + 1]).status == WAITING <==>
            MatchAfter(actions[..k]).status == WAITING && !JoinedBy(actions, k)
    ensures MatchAfter(actions[..k + 1]).status == FINISHED <==>
            MatchAfter(actions[..k]).status == FINISHED || EmptiedBy(actions, k)
  {
    assert actions[..k + 1][..k] == actions[..k];
    InvariantOfRuns(actions[..k]);
    StatusStep(MatchAfter(actions[..k]), actions[k]);
  }

  /** A flag that is raised by events and never lowered is up exactly when some event happened. */
  lemma {:induction false} FlagIsHistory(flag: nat -> bool, event: nat -> bool, n: nat)
    requires !flag(0)
    requires forall k: nat :: k < n ==> (flag(k + 1) <==> flag(k) || event(k))
    ensures flag(n) <==> exists k: nat :: k < n && event(k)
  {
    if n > 0 {
      FlagIsHistory(flag, event, n - 1);
    }
  }

  ghost predicate StartedAfter(actions: seq<Action>, k: nat) {
    k <= |actions| && MatchAfter(actions[..k]).status != WAITING
  }

  ghost predicate FinishedAfter(actions: seq<Action>, k: nat) {
    k <= |actions| && MatchAfter(actions[..k]).status == FINISHED
  }

  /** A match waits exactly until somebody joins. */
  lemma WaitsUntilSomebodyJoins(actions: seq<Action>)
    ensures MatchAfter(actions).status == WAITING <==> !exists k: nat :: k < |actions| && JoinedBy(actions, k)
  {
    var n := |actions|;
    var started, joined := (k: nat) => StartedAfter(actions, k), (k: nat) => JoinedBy(actions, k);
    forall k: nat | k < n ensures started(k + 1) <==> started(k) || joined(k) {
      StatusAt(actions, k);
    }
    FlagIsHistory(started, joined, n);
    assert actions[..n] == actions;
    assert started(n) <==> MatchAfter(actions).status != WAITING;
    assert forall k: nat :: joined(k) <==> JoinedBy(actions, k);
  }

  /** A match is over exactly once some departure has left nobody behind, and then for ever. */
  lemma FinishedOnceEverybodyLeft(actions: seq<Action>)
    ensures MatchAfter(actions).status == FINISHED <==> exists k: nat :: k < |actions| && EmptiedBy(actions, k)
  {
    var n := |actions|;
    var finished, emptied := (k: nat) => FinishedAfter(actions, k), (k: nat) => EmptiedBy(actions, k);
    forall k: nat | k < n ensures finished(k + 1) <==> finished(k) || emptied(k) {
      StatusAt(actions, k);
    }
    FlagIsHistory(finished, emptied, n);
    assert actions[..n] == actions;
    assert finished(n) <==> MatchAfter(actions).status == FINISHED;
    assert forall k: nat :: emptied(k) <==> EmptiedBy(actions, k);
  }

  /** Between the two the match is ACTIVE, and somebody is in the arena. */
  lemma ActiveMeansSomebodyThere(actions: seq<Action>)
    ensures MatchAfter(actions).status == ACTIVE ==> MatchAfter(actions).players != map[]
  {
    InvariantOfRuns(actions);
  }

  // ---- The object ----

  datatype Event = Event(eventId: nat, playerId: int, eventType: string, data: string)

  datatype Snapshot = Snapshot(
    status: Status, playerCount: nat, totalKills: int, totalEvents: nat,
    players: map<int, Player>, recentEvents: seq<Event>)

  function Min(a: nat, b: nat): nat {
    if a < b then a else b
  }

  /** The n newest. */
  function LastN<T>(s: seq<T>, n: nat): seq<T> {
    s[|s| - Min(n, |s|)..]
  }

  lemma LastNIs<T>(s: seq<T>, n: nat)
    ensures LastN(s, n) == if |s| > n then s[|s| - n..] else s
  {
  }

  /** Keeping the newest n while appending one. */
  lemma NewestOf<T>(log: seq<T>, x: T, n: nat)
    requires n > 0
    ensures var more := LastN(log, n) + [x];
            LastN(log + [x], n) == if |more| > n then more[1..] else more
  {
  }

  class GameState {
    var players: map<int, Player>
    var status: Status
    var totalKills: int
    var events: seq<Event>
    var nextEventId: nat
    ghost var log: seq<Event>     // every event ever recorded

    function View(): Match
      reads this
    {
      Match(players, status, totalKills)
    }

    /** The capped log is the newest part of the whole log, whose ids count up from 1. */
    ghost predicate Valid()
      reads this
    {
      && MatchInv(View())
      && nextEventId == |log| + 1
      && (forall i :: 0 <= i < |log| ==> log[i].eventId == i + 1)
      && events == LastN(log, MAX_EVENTS)
    }

    constructor ()
      ensures Valid() && View() == EMPTY && log == []
    {
      players, status, totalKills := map[], WAITING, 0;
      events, nextEventId, log := [], 1, [];
    }

    method AddPlayer(id: int) returns (err: Option<Error>)
      requires Valid()
      modifies this`players, this`status
      ensures Valid()
      ensures err == Refusal(old(View()), Join(id)) && View() == Step(old(View()), Join(id))
      ensures err == if id in old(players) then Some(AlreadyInGame(id)) else None
      ensures players == if err.Some? then old(players) else old(players)[id := Player(id, 500, 500, 100, 0, 0)]
      ensures status == if err.None? && old(status) == WAITING then ACTIVE else old(status)
    {
      MatchStep(View(), Join(id));
      if id in players {
        return Some(AlreadyInGame(id));
      }
      players := players[id := Player(id, 500, 500, MAX_HEALTH, 0, 0)];
      if status == WAITING {
        status := ACTIVE;
      }
      return None;
    }

    method RemovePlayer(id: int) returns (err: Option<Error>, finalScore: int)
      requires Valid()
      modifies this`players, this`status
      ensures Valid()
      ensures err == Refusal(old(View()), Leave(id)) && View() == Step(old(View()), Leave(id))
      ensures err == if id !in old(players) then Some(NotInGame(id)) else None
      ensures players == old(players) - {id}
      ensures err.None? ==> finalScore == old(players)[id].score
      ensures status == if err.None? && old(status) == ACTIVE && players == map[] then FINISHED else old(status)
    {
      MatchStep(View(), Leave(id));
      if id !in players {
        return Some(NotInGame(id)), 0;
      }
      finalScore := players[id].score;
      players := players - {id};
      if status == ACTIVE && players == map[] {
        status := FINISHED;
      }
      err := None;
    }

    method MovePlayer(id: int, x: int, y: int) returns (err: Option<Error>)
      requires Valid()
      modifies this`players
      ensures Valid()
      ensures err == Refusal(old(View()), Move(id, x, y)) && View() == Step(old(View()), Move(id, x, y))
      ensures err == if id !in old(players) then Some(NotInGame(id)) else None
      ensures err.Some? ==> players == old(players)
      ensures err.None? ==>
        && players == old(players)[id := old(players)[id].(x := players[id].x, y := players[id].y)]
        && players[id].x == (if x < 0 then 0 else if x > 1000 then 1000 else x)
        && players[id].y == (if y < 0 then 0 else if y > 1000 then 1000 else y)
    {
      MatchStep(View(), Move(id, x, y));
      if id !in players {
        return Some(NotInGame(id));
      }
      players := players[id := players[id].(x := Clamp(x, MAP_MIN, MAP_MAX), y := Clamp(y, MAP_MIN, MAP_MAX))];
      return None;
    }

    method AttackPlayer(attacker: int, target: int) returns (err: Option<Error>, result: AttackResult)
      requires Valid()
      modifies this`players, this`status, this`totalKills
      ensures Valid()
      ensures err == Refusal(old(View()), Attack(attacker, target))
      ensures View() == Step(old(View()), Attack(attacker, target))
      ensures err.None? ==> result == StrikeResult(old(View()), attacker, target)
      ensures err == if attacker == target then Some(AttackYourself)
                     else if attacker !in old(players) then Some(AttackerNotInGame(attacker))
                     else if target !in old(players) then Some(TargetNotInGame(target))
                     else None
      ensures err.Some? ==> players == old(players) && totalKills == old(totalKills)
      ensures err.None? && old(players)[target].health > 25 ==>
        var hit, wounded := old(players)[attacker], old(players)[target];
        && players == old(players)[attacker := hit.(score := hit.score + 10)]
                                  [target := wounded.(health := wounded.health - 25)]
        && totalKills == old(totalKills)
        && result == AttackResult(25, wounded.health - 25, hit.score + 10, false)
      ensures err.None? && old(players)[target].health <= 25 ==>
        var hit := old(players)[attacker];
        && players == old(players)[attacker := hit.(score := hit.score + 100, kills := hit.kills + 1)] - {target}
        && totalKills == old(totalKills) + 1
        && result == AttackResult(25, 0, hit.score + 100, true)
      ensures status == old(status)
    {
      MatchStep(View(), Attack(attacker, target));
      result := AttackResult(0, 0, 0, false);
      if attacker == target {
        return Some(AttackYourself), result;
      }
      if attacker !in players {
        return Some(AttackerNotInGame(attacker)), result;
      }
      if target !in players {
        return Some(TargetNotInGame(target)), result;
      }
      assert PlayerInv(target, players[target]);
      var health := Max(0, players[target].health - ATTACK_DAMAGE);
      players := players[target := players[target].(health := health)];
      var eliminated := health == 0;
      var points := if eliminated then 100 else 10;
      var a := players[attacker];
      players := players[attacker := a.(score := a.score + points)];
      result := AttackResult(ATTACK_DAMAGE, health, a.score + points, eliminated);
      if eliminated {
        players := players[attacker := players[attacker].(kills := a.kills + 1)];
        totalKills := totalKills + 1;
        players := players - {target};
        assert attacker in players;
        if status == ACTIVE && players == map[] {
          assert false; // the match would be finished here, but the attacker is still in the arena
        }
        assert players == Step(old(View()), Attack(attacker, target)).players;
      }
      err := None;
    }

    method SetPlayerScore(id: int, score: int) returns (err: Option<Error>)
      requires Valid()
      modifies this`players
      ensures Valid()
      ensures err == Refusal(old(View()), SetScore(id, score)) && View() == Step(old(View()), SetScore(id, score))
      ensures err == if id !in old(players) then Some(NotInGame(id)) else None
      ensures players == if err.Some? then old(players) else old(players)[id := old(players)[id].(score := score)]
    {
      MatchStep(View(), SetScore(id, score));
      if id !in players {
        return Some(NotInGame(id));
      }
      players := players[id := players[id].(score := score)];
      return None;
    }

    /** Whatever the cap drops, `Valid` still makes `events` the newest part of the whole log. */
    method RecordEvent(playerId: int, eventType: string, data: string)
      requires Valid()
      modifies this`events, this`nextEventId, this`log
      ensures Valid()
      ensures log == old(log) + [Event(old(nextEventId), playerId, eventType, data)]
      ensures events == if |log| > 1000 then log[|log| - 1000..] else log
    {
      var ev := Event(nextEventId, playerId, eventType, data);
      nextEventId := nextEventId + 1;
      Append(ev);
      LastNIs(log, MAX_EVENTS);
    }

    /** The locked part: push, and pop the oldest beyond the cap. */
    method Append(ev: Event)
      requires events == LastN(log, MAX_EVENTS)
      modifies this`events, this`log
      ensures log == old(log) + [ev] && events == LastN(log, MAX_EVENTS)
    {
      NewestOf(log, ev, MAX_EVENTS);
      log := log + [ev];
      events := events + [ev];
      if |events| > MAX_EVENTS {
        events := events[1..];
      }
    }

    /** The n newest events of the whole log, as far as the cap remembers them. */
    method RecentEvents(n: nat) returns (r: seq<Event>)
      requires Valid()
      ensures r == LastN(log, Min(n, MAX_EVENTS))
      ensures var kept := if n < 1000 then n else 1000;
              r == if |log| > kept then log[|log| - kept..] else log
    {
      var start := if |events| > n then |events| - n else 0;
      r := events[start..];
    }

    method TakeSnapshot() returns (s: Snapshot)
      requires Valid()
      ensures s == Snapshot(status, |players|, totalKills, |log|, players, LastN(log, 5))
      ensures s.recentEvents == if |log| > 5 then log[|log| - 5..] else log
    {
      var start := if |events| > 5 then |events| - 5 else 0;
      s := Snapshot(status, |players|, totalKills, nextEventId - 1, players, events[start..]);
    }
  }
}
