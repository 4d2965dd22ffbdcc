/**
 What a request does to the match, the cache and the counters, and what follows for every sequential run.

 A request arrives already parsed: which fields are there and of which type.  `Respond` and `Next` say
 what one happening does to the whole `World`; everything outside the handler's control is part of the
 happening.  The lemmas below are about every script of requests and expiries.
 */
module Requests {
  import opened Decimal
  import opened GameState
  import opened CacheManager

  const MAX_CHAT_LEN: int := 256

  datatype IntField = NoInt | NotInteger | IntOf(value: int)
  datatype StringField = NoString | NotString | StringOf(text: string)

  datatype Request =
    | InvalidJson
    | NoAction
    | Unknown(action: string)
    | JoinReq(player: IntField)
    | MoveReq(player: IntField, x: IntField, y: IntField)
    | AttackReq(player: IntField, target: IntField)
    | ChatReq(player: IntField, message: StringField)
    | GetStateReq(player: IntField)
    | UpdateScoreReq(player: IntField, score: IntField)
    | LeaveReq(player: IntField)
    | GetMetricsReq

  datatype Why =
    | BadJson | MissingAction | UnknownAction(action: string)
    | MissingField(key: string) | NotAnInteger(key: string) | NotAString(key: string)
    | EmptyMessage | MessageTooLong | NegativeScore
    | Refused(error: Error)
    | InternalError

  datatype Response =
    | ErrorResponse(why: Why)
    | Joined(id: int)
    | Moved(id: int, x: int, y: int)
    | Attacked(id: int, target: int, result: AttackResult)
    | Chatted(id: int, message: string)
    | StateIs(snapshot: Snapshot)
    | ScoreSet(id: int, score: int)
    | LeftGame(id: int, finalScore: int)
    | MetricsAre(requestsTotal: nat, successful: nat, failed: nat, activePlayers: int, hits: nat, misses: nat)

  /**
   What the handler does not decide: the text of a session, the clock, how its cache commands fare, and what
   unread bytes would spell to a lookup.
   */
  datatype Weather = Weather(
    stamp: string, seconds: real, spuriousFailures: nat, session: Fate, position: Fate, garbled: Lookup)

  datatype World = World(
    enabled: bool,
    game: Match,
    log: seq<Event>,                 // every event ever recorded
    entries: map<string, string>,    // the cache
    tainted: bool,                   // a cache connection may hold bytes that nobody asked for
    requestsTotal: nat, successful: nat, failed: nat,
    activePlayers: int,
    hits: nat, misses: nat,
    samples: seq<real>)

  datatype Happening = Call(req: Request, weather: Weather) | Expiry(keys: set<string>)

  // ---- Responses ----

  /** The six actions that record an event when they succeed. */
  predicate Recorded(r: Response) {
    r.Joined? || r.Moved? || r.Attacked? || r.Chatted? || r.ScoreSet? || r.LeftGame?
  }

  function RequireInt(f: IntField, key: string): Option<Why> {
    match f
    case NoInt => Some(MissingField(key))
    case NotInteger => Some(NotAnInteger(key))
    case IntOf(_) => None
  }

  function RequireString(f: StringField, key: string): Option<Why> {
    match f
    case NoString => Some(MissingField(key))
    case NotString => Some(NotAString(key))
    case StringOf(_) => None
  }

  function OrElse(first: Option<Why>, second: Option<Why>): Option<Why> {
    if first.Some? then first else second
  }

  function BadMessage(m: StringField): Option<Why> {
    if !m.StringOf? then RequireString(m, "message")
    else if m.text == "" then Some(EmptyMessage)
    else if |m.text| > MAX_CHAT_LEN then Some(MessageTooLong)
    else None
  }

  function BadScore(s: IntField): Option<Why> {
    if s.IntOf? && s.value < 0 then Some(NegativeScore) else RequireInt(s, "score")
  }

  /** The first thing wrong with the fields of a request. */
  function FieldError(req: Request): Option<Why> {
    match req
    case InvalidJson => Some(BadJson)
    case NoAction => Some(MissingAction)
    case Unknown(a) => Some(UnknownAction(a))
    case JoinReq(p) => RequireInt(p, "player_id")
    case MoveReq(p, x, y) => OrElse(RequireInt(p, "player_id"), OrElse(RequireInt(x, "x"), RequireInt(y, "y")))
    case AttackReq(p, t) => OrElse(RequireInt(p, "player_id"), RequireInt(t, "target_id"))
    case ChatReq(p, m) => OrElse(RequireInt(p, "player_id"), BadMessage(m))
    case UpdateScoreReq(p, s) => OrElse(RequireInt(p, "player_id"), BadScore(s))
    case LeaveReq(p) => RequireInt(p, "player_id")
    case GetStateReq(_) => None
    case GetMetricsReq => None
  }

  /** The call on the match a request stands for, if its fields are there and acceptable. */
  function ActionOf(req: Request): Option<Action> {
    if FieldError(req).Some? then None
    else
      match req
      case JoinReq(p) => Some(Join(p.value))
      case MoveReq(p, x, y) => Some(Move(p.value, x.value, y.value))
      case AttackReq(p, t) => Some(Attack(p.value, t.value))
      case UpdateScoreReq(p, s) => Some(SetScore(p.value, s.value))
      case LeaveReq(p) => Some(Leave(p.value))
      case _ => None
  }

  function After(m: Match, req: Request): Match {
    match ActionOf(req)
    case Some(a) => Step(m, a)
    case None => m
  }

  function Success(m: Match, a: Action): Response
    requires Refusal(m, a).None?
  {
    match a
    case Join(id) => Joined(id)
    case Leave(id) => LeftGame(id, m.players[id].score)
    case Move(id, x, y) => Moved(id, Clamp(x, MAP_MIN, MAP_MAX), Clamp(y, MAP_MIN, MAP_MAX))
    case Attack(id, target) => Attacked(id, target, StrikeResult(m, id, target))
    case SetScore(id, score) => ScoreSet(id, score)
  }

  function ActResponse(m: Match, a: Action): Response {
    match Refusal(m, a)
    case Some(e) => ErrorResponse(Refused(e))
    case None => Success(m, a)
  }

  function SnapshotOf(w: World): Snapshot {
    Snapshot(w.game.status, |w.game.players|, w.game.totalKills, |w.log|, w.game.players, LastN(w.log, 5))
  }

  /** A state request that names a player looks up that player's session. */
  function Looked(w: World, req: Request, weather: Weather): Option<Lookup> {
    if w.enabled && req.GetStateReq? && req.player.IntOf? && req.player.value in w.game.players then
      Some(LookUp(w.entries, w.tainted, req.player.value, weather.session, weather.garbled))
    else None
  }

  function Respond(w: World, req: Request, weather: Weather): Response {
    if FieldError(req).Some? then ErrorResponse(FieldError(req).value)
    else if req.ChatReq? then
      if req.player.value in w.game.players then Chatted(req.player.value, req.message.text)
      else ErrorResponse(Refused(NotInGame(req.player.value)))
    else if req.GetStateReq? then
      if req.player.IntOf? && req.player.value !in w.game.players then
        ErrorResponse(Refused(NotInGame(req.player.value)))
      else if Looked(w, req, weather) == Some(LookupThrew) then ErrorResponse(InternalError)
      else StateIs(SnapshotOf(w))
    else
      match ActionOf(req)
      case Some(a) => ActResponse(w.game, a)
      case None => MetricsAre(w.requestsTotal, w.successful, w.failed, w.activePlayers, w.hits, w.misses)
  }

  // ---- Effects ----

  function EventOf(r: Response, eventId: nat): Option<Event> {
    match r
    case Joined(id) => Some(Event(eventId, id, "JOIN", "{}"))
    case Moved(id, x, y) =>
      Some(Event(eventId, id, "MOVE", "{\"x\":" + PrintInt(x) + ",\"y\":" + PrintInt(y) + "}"))
    case Attacked(id, target, result) =>
      Some(Event(eventId, id, "ATTACK",
        "{\"target_id\":" + PrintInt(target) + ",\"damage\":" + PrintInt(result.damage)
        + ",\"eliminated\":" + (if result.targetEliminated then "true" else "false") + "}"))
    case Chatted(id, message) => Some(Event(eventId, id, "CHAT", "{\"len\":" + PrintNat(|message|) + "}"))
    case ScoreSet(id, score) => Some(Event(eventId, id, "UPDATE_SCORE", "{\"score\":" + PrintInt(score) + "}"))
    case LeftGame(id, score) => Some(Event(eventId, id, "LEAVE", "{\"final_score\":" + PrintInt(score) + "}"))
    case _ => None
  }

  function Logged(log: seq<Event>, r: Response): seq<Event> {
    match EventOf(r, |log| + 1)
    case Some(e) => log + [e]
    case None => log
  }

  /** The cache after a response; a departure leaves the position behind. */
  function Stored(w: World, r: Response, weather: Weather): map<string, string> {
    if !w.enabled then w.entries
    else
      match r
      case Joined(id) =>
        Put(Put(w.entries, SessionKey(id), weather.stamp, weather.session),
            PositionKey(id), EncodePosition(500, 500), weather.position)
      case Moved(id, x, y) => Put(w.entries, PositionKey(id), EncodePosition(x, y), weather.position)
      case LeftGame(id, _) => Remove(w.entries, SessionKey(id), weather.session)
      case _ => w.entries
  }

  /** The gauge is set on joins and departures only: an elimination does not touch it. */
  function Gauge(w: World, r: Response, after: Match): int {
    if r.Joined? || r.LeftGame? then |after.players| else w.activePlayers
  }

  /** A call on the match, with all that goes with it. */
  function ActEffect(w: World, a: Action, weather: Weather): World {
    var r, after := ActResponse(w.game, a), Step(w.game, a);
    w.(game := after, log := Logged(w.log, r), entries := Stored(w, r, weather), activePlayers := Gauge(w, r, after))
  }

  /** What dispatching a request does; the request counters and the clock are left to `Next`. */
  function Effect(w: World, req: Request, weather: Weather): World {
    match ActionOf(req)
    case Some(a) => ActEffect(w, a, weather)
    case None =>
      var looked := Looked(w, req, weather);
      w.(log := Logged(w.log, Respond(w, req, weather)),
         tainted := w.tainted || looked == Some(LookupThrew),
         hits := w.hits + if looked == Some(LookupHit) then 1 else 0,
         misses := w.misses + if looked == Some(LookupMiss) then 1 else 0)
  }

  function Arrived(w: World): World {
    w.(requestsTotal := w.requestsTotal + 1)
  }

  function Answered(w: World, r: Response, seconds: real): World {
    w.(successful := w.successful + if r.ErrorResponse? then 0 else 1,
       failed := w.failed + if r.ErrorResponse? then 1 else 0,
       samples := w.samples + [seconds])
  }

  function ResponseTo(w: World, h: Happening): Response
    requires h.Call?
  {
    Respond(Arrived(w), h.req, h.weather)
  }

  function Next(w: World, h: Happening): World {
    match h
    case Expiry(keys) => w.(entries := w.entries - keys)
    case Call(req, weather) => Answered(Effect(Arrived(w), req, weather), ResponseTo(w, h), weather.seconds)
  }

  // ---- One request ----

  /** An error response leaves match, log, cache and gauge as they were. */
  lemma ErrorsChangeNothing(w: World, h: Happening)
    requires h.Call? && ResponseTo(w, h).ErrorResponse?
    ensures Next(w, h).game == w.game && Next(w, h).log == w.log
    ensures Next(w, h).entries == w.entries && Next(w, h).activePlayers == w.activePlayers
  {
  }

  /** Whether what a response says is so, and nothing else changed: `m` is the match before it, `t` after it. */
  predicate IsSo(m: Match, r: Response, t: Match) {
    var ps := m.players;
    match r
    case Joined(id) => id !in ps && t.players == ps[id := Player(id, 500, 500, 100, 0, 0)]
    case Moved(id, x, y) =>
      && id in ps && t.players == ps[id := ps[id].(x := x, y := y)]
      && 0 <= x <= 1000 && 0 <= y <= 1000
    case Attacked(id, target, result) =>
      && id != target && id in ps && target in ps
      && (if ps[target].health <= 25 then
            && result == AttackResult(25, 0, ps[id].score + 100, true)
            && t.players == ps[id := ps[id].(score := ps[id].score + 100, kills := ps[id].kills + 1)] - {target}
          else
            && result == AttackResult(25, ps[target].health - 25, ps[id].score + 10, false)
            && t.players == ps[id := ps[id].(score := ps[id].score + 10)]
                              [target := ps[target].(health := ps[target].health - 25)])
    case ScoreSet(id, score) => id in ps && score >= 0 && t.players == ps[id := ps[id].(score := score)]
    case LeftGame(id, score) => id in ps && score == ps[id].score && t.players == ps - {id}
    case Chatted(id, message) => id in ps && t == m && 0 < |message| <= 256
    case _ => t == m
  }

  /** Whether a snapshot or the metrics report the world as it is; a metrics response counts its own arrival. */
  predicate Reports(w: World, r: Response) {
    match r
    case StateIs(s) =>
      && s.players == w.game.players && s.playerCount == |w.game.players|
      && s.status == w.game.status && s.totalKills == w.game.totalKills
      && s.totalEvents == |w.log|
      && s.recentEvents == (if |w.log| > 5 then w.log[|w.log| - 5..] else w.log)
    case MetricsAre(total, successful, failed, activePlayers, hits, misses) =>
      && total == w.requestsTotal + 1 && successful == w.successful && failed == w.failed
      && activePlayers == w.activePlayers && hits == w.hits && misses == w.misses
    case _ => true
  }

  lemma SuccessIsSo(m: Match, a: Action)
    requires MatchInv(m) && Refusal(m, a).None? && (a.SetScore? ==> a.score >= 0)
    ensures IsSo(m, Success(m, a), Do(m, a))
  {
    if a.Attack? {
      assert PlayerInv(a.target, m.players[a.target]);
    }
  }

  /** What a call leaves of match and log. */
  lemma GameAndLogAfter(w: World, h: Happening)
    requires h.Call?
    ensures Next(w, h).game == After(w.game, h.req) && Next(w, h).log == Logged(w.log, ResponseTo(w, h))
    ensures ActionOf(h.req).Some? ==> ResponseTo(w, h) == ActResponse(w.game, ActionOf(h.req).value)
  {
  }

  /** What a response says is so once it is given. */
  lemma ResponsesAreTrue(w: World, h: Happening)
    requires h.Call? && MatchInv(w.game)
    ensures IsSo(w.game, ResponseTo(w, h), Next(w, h).game) && Reports(w, ResponseTo(w, h))
  {
    GameAndLogAfter(w, h);
    if h.req.GetStateReq? || h.req.GetMetricsReq? {
      ReportsAreTrue(w, h.req, h.weather);
    }
    var a := ActionOf(h.req);
    if a.Some? && Refusal(w.game, a.value).None? {
      SuccessIsSo(w.game, a.value);
    }
  }

  lemma ReportsAreTrue(w: World, req: Request, weather: Weather)
    requires req.GetStateReq? || req.GetMetricsReq?
    ensures Reports(w, Respond(Arrived(w), req, weather))
  {
  }

  // ---- Which response is due ----

  /** The error for a field that is missing or of the wrong type. */
  predicate FieldFails(f: IntField, key: string, r: Response) {
    (f.NoInt? && r == ErrorResponse(MissingField(key))) || (f.NotInteger? && r == ErrorResponse(NotAnInteger(key)))
  }

  function Clamped(v: int): int {
    if v < 0 then 0 else if v > 1000 then 1000 else v
  }

  /** The response a request is due, by its fields in their order and by who is in the game. */
  predicate Due(players: map<int, Player>, req: Request, r: Response) {
    match req
    case InvalidJson => r == ErrorResponse(BadJson)
    case NoAction => r == ErrorResponse(MissingAction)
    case Unknown(a) => r == ErrorResponse(UnknownAction(a))
    case JoinReq(p) =>
      if !p.IntOf? then FieldFails(p, "player_id", r)
      else if p.value in players then r == ErrorResponse(Refused(AlreadyInGame(p.value)))
      else r == Joined(p.value)
    case MoveReq(p, x, y) =>
      if !p.IntOf? then FieldFails(p, "player_id", r)
      else if !x.IntOf? then FieldFails(x, "x", r)
      else if !y.IntOf? then FieldFails(y, "y", r)
      else if p.value !in players then r == ErrorResponse(Refused(NotInGame(p.value)))
      else r == Moved(p.value, Clamped(x.value), Clamped(y.value))
    case AttackReq(p, t) =>
      if !p.IntOf? then FieldFails(p, "player_id", r)
      else if !t.IntOf? then FieldFails(t, "target_id", r)
      else if p.value == t.value then r == ErrorResponse(Refused(AttackYourself))
      else if p.value !in players then r == ErrorResponse(Refused(AttackerNotInGame(p.value)))
      else if t.value !in players then r == ErrorResponse(Refused(TargetNotInGame(t.value)))
      else r.Attacked? && r.id == p.value && r.target == t.value
    case ChatReq(p, m) =>
      if !p.IntOf? then FieldFails(p, "player_id", r)
      else if m.NoString? then r == ErrorResponse(MissingField("message"))
      else if m.NotString? then r == ErrorResponse(NotAString("message"))
      else if m.text == "" then r == ErrorResponse(EmptyMessage)
      else if |m.text| > 256 then r == ErrorResponse(MessageTooLong)
      else if p.value !in players then r == ErrorResponse(Refused(NotInGame(p.value)))
      else r == Chatted(p.value, m.text)
    case GetStateReq(p) =>
      if p.IntOf? && p.value !in players then r == ErrorResponse(Refused(NotInGame(p.value)))
      else r.StateIs? || r == ErrorResponse(InternalError)
    case UpdateScoreReq(p, s) =>
      if !p.IntOf? then FieldFails(p, "player_id", r)
      else if !s.IntOf? then FieldFails(s, "score", r)
      else if s.value < 0 then r == ErrorResponse(NegativeScore)
      else if p.value !in players then r == ErrorResponse(Refused(NotInGame(p.value)))
      else r == ScoreSet(p.value, s.value)
    case LeaveReq(p) =>
      if !p.IntOf? then FieldFails(p, "player_id", r)
      else if p.value !in players then r == ErrorResponse(Refused(NotInGame(p.value)))
      else r.LeftGame? && r.id == p.value
    case GetMetricsReq => r.MetricsAre?
  }

  /** Every request gets the response it is due: refused exactly for these reasons, in this order. */
  lemma ResponsesAreDue(w: World, h: Happening)
    requires h.Call?
    ensures Due(w.game.players, h.req, ResponseTo(w, h))
  {
    DueAct(w.game, h.req);
    if ActionOf(h.req).Some? {
      GameAndLogAfter(w, h);
    } else {
      DueOther(Arrived(w), h.req, h.weather);
    }
  }

  lemma DueAct(m: Match, req: Request)
    ensures ActionOf(req).Some? ==> Due(m.players, req, ActResponse(m, ActionOf(req).value))
  {
  }

  lemma DueOther(w: World, req: Request, weather: Weather)
    requires ActionOf(req).None?
    ensures Due(w.game.players, req, Respond(w, req, weather))
  {
  }

  /** The name by which a request asks for its action. */
  function ActionName(req: Request): string {
    match req
    case JoinReq(_) => "JOIN"
    case MoveReq(_, _, _) => "MOVE"
    case AttackReq(_, _) => "ATTACK"
    case ChatReq(_, _) => "CHAT"
    case GetStateReq(_) => "GET_STATE"
    case UpdateScoreReq(_, _) => "UPDATE_SCORE"
    case LeaveReq(_) => "LEAVE"
    case GetMetricsReq => "GET_METRICS"
    case Unknown(a) => a
    case _ => ""
  }

  /** Whether this event says who asked for what, and what came of it. */
  predicate TellsOf(e: Event, req: Request, r: Response) {
    && (req.JoinReq? || req.MoveReq? || req.AttackReq? || req.ChatReq? || req.UpdateScoreReq? || req.LeaveReq?)
    && req.player == IntOf(e.playerId) && e.eventType == ActionName(req)
    && match r
       case Joined(_) => e.data == "{}"
       case Moved(_, x, y) => e.data == "{\"x\":" + PrintInt(x) + ",\"y\":" + PrintInt(y) + "}"
       case Attacked(_, target, result) =>
         e.data == "{\"target_id\":" + PrintInt(target) + ",\"damage\":" + PrintInt(result.damage)
                   + ",\"eliminated\":" + (if result.targetEliminated then "true" else "false") + "}"
       case Chatted(_, message) => e.data == "{\"len\":" + PrintNat(|message|) + "}"
       case ScoreSet(_, score) => e.data == "{\"score\":" + PrintInt(score) + "}"
       case LeftGame(_, score) => e.data == "{\"final_score\":" + PrintInt(score) + "}"
       case _ => false
  }

  /** A recorded success adds one event, under the name of its action and the id of who asked; others add none. */
  lemma EventsTellOfRequests(w: World, h: Happening)
    requires h.Call?
    ensures if Recorded(ResponseTo(w, h)) then
              && Next(w, h).log != [] && Next(w, h).log[..|w.log|] == w.log && |Next(w, h).log| == |w.log| + 1
              && TellsOf(Next(w, h).log[|w.log|], h.req, ResponseTo(w, h))
              && Next(w, h).log[|w.log|].eventId == |w.log| + 1
            else Next(w, h).log == w.log
  {
    GameAndLogAfter(w, h);
    LogGrows(w.log, ResponseTo(w, h));
    if Recorded(ResponseTo(w, h)) {
      RecordedRequest(Arrived(w), h.req, h.weather, |w.log| + 1);
    }
  }

  lemma LogGrows(log: seq<Event>, r: Response)
    ensures Recorded(r) <==> EventOf(r, |log| + 1).Some?
    ensures Recorded(r) ==> Logged(log, r) == log + [EventOf(r, |log| + 1).value]
    ensures !Recorded(r) ==> Logged(log, r) == log
  {
  }

  lemma RecordedRequest(w: World, req: Request, weather: Weather, eventId: nat)
    requires Recorded(Respond(w, req, weather))
    ensures EventOf(Respond(w, req, weather), eventId).Some?
    ensures var e := EventOf(Respond(w, req, weather), eventId).value;
            TellsOf(e, req, Respond(w, req, weather)) && e.eventId == eventId
  {
  }

  // ---- Whole runs ----

  function WorldAfter(start: World, script: seq<Happening>): World {
    if script == [] then start else Next(WorldAfter(start, script[..|script| - 1]), script[|script| - 1])
  }

  /** The responses of a run, in order. */
  function Answers(start: World, script: seq<Happening>): seq<Response> {
    if script == [] then []
    else
      var before, h := script[..|script| - 1], script[|script| - 1];
      if h.Call? then Answers(start, before) + [ResponseTo(WorldAfter(start, before), h)] else Answers(start, before)
  }

  /** A fresh server, over a store with any leftovers in it. */
  function Start(enabled: bool, entries: map<string, string>): World {
    World(enabled, EMPTY, [], entries, false, 0, 0, 0, 0, 0, 0, [])
  }

  /** The calls on the match made by a run, in order. */
  function Actions(script: seq<Happening>): seq<Action> {
    if script == [] then []
    else
      var h := script[|script| - 1];
      Actions(script[..|script| - 1])
      + if h.Call? && ActionOf(h.req).Some? then [ActionOf(h.req).value] else []
  }

  /** The match of a run is that of its calls, so that all the laws of GameState hold of it. */
  lemma {:induction false} GameOfRun(start: World, script: seq<Happening>)
    requires start.game == EMPTY
    ensures WorldAfter(start, script).game == MatchAfter(Actions(script))
    ensures MatchInv(WorldAfter(start, script).game)
    ensures WorldAfter(start, script).enabled == start.enabled
  {
    if script != [] {
      var before, h := script[..|script| - 1], script[|script| - 1];
      GameOfRun(start, before);
      if h.Call? {
        ActOn(Actions(before), h.req);
      } else {
        assert Actions(before) + [] == Actions(before);
      }
    }
    InvariantOfRuns(Actions(script));
  }

  lemma ActOn(actions: seq<Action>, req: Request)
    ensures MatchAfter(actions + if ActionOf(req).Some? then [ActionOf(req).value] else [])
         == After(MatchAfter(actions), req)
  {
    if ActionOf(req).Some? {
      var a := ActionOf(req).value;
      assert (actions + [a])[..|actions|] == actions;
    } else {
      assert actions + [] == actions;
    }
  }

  function CountRecorded(responses: seq<Response>): nat {
    if responses == [] then 0
    else CountRecorded(responses[..|responses| - 1]) + if Recorded(responses[|responses| - 1]) then 1 else 0
  }

  function CountErrors(responses: seq<Response>): nat {
    if responses == [] then 0
    else CountErrors(responses[..|responses| - 1]) + if responses[|responses| - 1].ErrorResponse? then 1 else 0
  }

  /** Eliminations after the last successful join or departure. */
  function EliminationsSince(responses: seq<Response>): nat {
    if responses == [] then 0
    else
      var r := responses[|responses| - 1];
      if r.Joined? || r.LeftGame? then 0
      else EliminationsSince(responses[..|responses| - 1])
           + if r.Attacked? && r.result.targetEliminated then 1 else 0
  }

  lemma AfterResponse(responses: seq<Response>, r: Response)
    ensures CountRecorded(responses + [r]) == CountRecorded(responses) + if Recorded(r) then 1 else 0
    ensures CountErrors(responses + [r]) == CountErrors(responses) + if r.ErrorResponse? then 1 else 0
    ensures EliminationsSince(responses + [r]) ==
            if r.Joined? || r.LeftGame? then 0
            else EliminationsSince(responses) + if r.Attacked? && r.result.targetEliminated then 1 else 0
  {
    assert (responses + [r])[..|responses|] == responses;
  }

  /** The counters and the log against the responses given so far. */
  predicate Accounted(w: World, answers: seq<Response>) {
    && w.requestsTotal == |answers| == |w.samples| == w.successful + w.failed
    && w.failed == CountErrors(answers)
    && |w.log| == CountRecorded(answers)
  }

  lemma AccountedStep(w: World, answers: seq<Response>, h: Happening)
    requires h.Call? && Accounted(w, answers)
    ensures Accounted(Next(w, h), answers + [ResponseTo(w, h)])
  {
    AfterResponse(answers, ResponseTo(w, h));
    OneEventEach(w.log, ResponseTo(w, h));
  }

  /**
   Every request is counted once, as a success or as a failure, and timed once; there is one event per
   successful response of the six recording actions.
   */
  lemma {:induction false} RequestsAreAccounted(enabled: bool, entries: map<string, string>, script: seq<Happening>)
    ensures Accounted(WorldAfter(Start(enabled, entries), script), Answers(Start(enabled, entries), script))
  {
    var start := Start(enabled, entries);
    if script != [] {
      var before, h := script[..|script| - 1], script[|script| - 1];
      RequestsAreAccounted(enabled, entries, before);
      if h.Call? {
        AccountedStep(WorldAfter(start, before), Answers(start, before), h);
      }
    }
  }

  /** A metrics response counts its own request among the arrivals, not yet among the outcomes. */
  lemma MetricsCountThemselves(enabled: bool, entries: map<string, string>, script: seq<Happening>, weather: Weather)
    ensures var r := Respond(Arrived(WorldAfter(Start(enabled, entries), script)), GetMetricsReq, weather);
            r.MetricsAre? && r.requestsTotal == r.successful + r.failed + 1
  {
    RequestsAreAccounted(enabled, entries, script);
    RespondWithMetrics(Arrived(WorldAfter(Start(enabled, entries), script)), weather);
  }

  lemma RespondWithMetrics(w: World, weather: Weather)
    ensures Respond(w, GetMetricsReq, weather)
         == MetricsAre(w.requestsTotal, w.successful, w.failed, w.activePlayers, w.hits, w.misses)
  {
  }

  lemma OneEventEach(log: seq<Event>, r: Response)
    ensures |Logged(log, r)| == |log| + if Recorded(r) then 1 else 0
  {
  }

  lemma SameCount(a: map<int, Player>, b: map<int, Player>)
    requires a.Keys == b.Keys
    ensures |a| == |b|
  {
    assert |a.Keys| == |b.Keys|;
  }

  /** How an attack changes the number of players. */
  lemma AttackCount(m: Match, id: int, target: int)
    requires MatchInv(m) && Refusal(m, Attack(id, target)).None?
    ensures |Strike(m, id, target).players| == |m.players| - if HealthAfter(m, target) == 0 then 1 else 0
  {
    var t := Strike(m, id, target).players;
    if HealthAfter(m, target) == 0 {
      assert t.Keys == m.players.Keys - {target};
      assert |t.Keys| == |m.players.Keys| - 1;
    } else {
      SameCount(t, m.players);
    }
  }

  /** The gauge is the number of players and the eliminations since it was last set. */
  predicate Gauged(w: World, answers: seq<Response>) {
    w.activePlayers == |w.game.players| + EliminationsSince(answers)
  }

  /** What a call does to gauge and number of players. */
  lemma PlayersStep(w: World, h: Happening)
    requires h.Call? && MatchInv(w.game)
    ensures var r, t := ResponseTo(w, h), Next(w, h);
      if r.Joined? || r.LeftGame? then t.activePlayers == |t.game.players|
      else t.activePlayers == w.activePlayers
           && |t.game.players| == |w.game.players| - if r.Attacked? && r.result.targetEliminated then 1 else 0
  {
    if ActionOf(h.req).Some? {
      PlayersAct(Arrived(w), ActionOf(h.req).value, h.weather);
    } else {
      OtherRequests(Arrived(w), h.req, h.weather);
    }
  }

  lemma OtherRequests(w: World, req: Request, weather: Weather)
    requires ActionOf(req).None?
    ensures var r, t := Respond(w, req, weather), Effect(w, req, weather);
      && (r.ErrorResponse? || r.Chatted? || r.StateIs? || r.MetricsAre?)
      && t.game == w.game && t.entries == w.entries && t.activePlayers == w.activePlayers
  {
  }

  lemma PlayersAct(w: World, a: Action, weather: Weather)
    requires MatchInv(w.game)
    ensures var r, t := ActResponse(w.game, a), ActEffect(w, a, weather);
      if r.Joined? || r.LeftGame? then t.activePlayers == |t.game.players|
      else t.activePlayers == w.activePlayers
           && |t.game.players| == |w.game.players| - if r.Attacked? && r.result.targetEliminated then 1 else 0
  {
    if Refusal(w.game, a).None? {
      match a {
        case Attack(id, target) => AttackCount(w.game, id, target);
        case Move(_, _, _) => SameCount(Do(w.game, a).players, w.game.players);
        case SetScore(_, _) => SameCount(Do(w.game, a).players, w.game.players);
        case _ =>
      }
    }
  }

  lemma GaugeStep(w: World, answers: seq<Response>, h: Happening)
    requires h.Call? && MatchInv(w.game) && Gauged(w, answers)
    ensures Gauged(Next(w, h), answers + [ResponseTo(w, h)])
  {
    AfterResponse(answers, ResponseTo(w, h));
    PlayersStep(w, h);
  }

  lemma {:induction false} GaugeIsPlayersAndEliminations(enabled: bool, entries: map<string, string>,
                                                         script: seq<Happening>)
    ensures Gauged(WorldAfter(Start(enabled, entries), script), Answers(Start(enabled, entries), script))
  {
    var start := Start(enabled, entries);
    if script != [] {
      var before, h := script[..|script| - 1], script[|script| - 1];
      GaugeIsPlayersAndEliminations(enabled, entries, before);
      GameOfRun(start, before);
      if h.Call? {
        GaugeStep(WorldAfter(start, before), Answers(start, before), h);
      }
    }
  }

  // ---- Tainted connections ----

  /** A request is answered as an internal error exactly when its lookup throws, and that taints the cache. */
  lemma TaintStep(w: World, h: Happening)
    requires h.Call?
    ensures Next(w, h).tainted <==> w.tainted || ResponseTo(w, h) == ErrorResponse(InternalError)
  {
  }

  /** In every run the cache is tainted exactly if some response so far was an internal error. */
  lemma {:induction false} TaintedIff(enabled: bool, entries: map<string, string>, script: seq<Happening>)
    ensures WorldAfter(Start(enabled, entries), script).tainted <==>
            ErrorResponse(InternalError) in Answers(Start(enabled, entries), script)
  {
    if script != [] {
      var before, h := script[..|script| - 1], script[|script| - 1];
      TaintedIff(enabled, entries, before);
      if h.Call? {
        TaintStep(WorldAfter(Start(enabled, entries), before), h);
      }
    }
  }

  /** No session in the store is too long to be read. */
  ghost predicate ShortSessions(entries: map<string, string>) {
    forall id :: SessionKey(id) in entries ==> |entries[SessionKey(id)]| <= INT_MAX
  }

  predicate ShortStamps(script: seq<Happening>) {
    forall i :: 0 <= i < |script| && script[i].Call? ==> |script[i].weather.stamp| <= INT_MAX
  }

  lemma ShortPut(entries: map<string, string>, key: string, value: string, fate: Fate)
    requires ShortSessions(entries) && (|value| <= INT_MAX || forall id :: SessionKey(id) != key)
    ensures ShortSessions(Put(entries, key, value, fate))
  {
  }

  lemma ShortStored(w: World, r: Response, weather: Weather)
    requires ShortSessions(w.entries) && |weather.stamp| <= INT_MAX
    ensures ShortSessions(Stored(w, r, weather))
  {
    if r.Joined? || r.Moved? {
      forall id: int ensures SessionKey(id) != PositionKey(r.id) {
        KeysAreDistinct(r.id, id);
      }
      var sessions := if r.Joined? then Put(w.entries, SessionKey(r.id), weather.stamp, weather.session) else w.entries;
      ShortPut(w.entries, SessionKey(r.id), weather.stamp, weather.session);
      ShortPut(sessions, PositionKey(r.id),
               if r.Joined? then EncodePosition(500, 500) else EncodePosition(r.x, r.y), weather.position);
    }
  }

  lemma UntaintedStep(w: World, h: Happening)
    requires h.Call? && ShortSessions(w.entries) && !w.tainted && |h.weather.stamp| <= INT_MAX
    ensures ShortSessions(Next(w, h).entries) && !Next(w, h).tainted
  {
    var r := ResponseTo(w, h);
    ShortStored(Arrived(w), r, h.weather);
    if ActionOf(h.req).None? {
      OtherRequests(Arrived(w), h.req, h.weather);
    }
  }

  /** A store and sessions of readable length never taint the cache, whatever else happens. */
  lemma {:induction false} ShortTextsNeverTaint(enabled: bool, entries: map<string, string>, script: seq<Happening>)
    requires ShortSessions(entries) && ShortStamps(script)
    ensures !WorldAfter(Start(enabled, entries), script).tainted
    ensures ShortSessions(WorldAfter(Start(enabled, entries), script).entries)
  {
    if script != [] {
      var before, h := script[..|script| - 1], script[|script| - 1];
      assert forall i :: 0 <= i < |before| ==> before[i] == script[i];
      ShortTextsNeverTaint(enabled, entries, before);
      if h.Call? {
        assert |script[|script| - 1].weather.stamp| <= INT_MAX;
        UntaintedStep(WorldAfter(Start(enabled, entries), before), h);
      }
    }
  }
}
