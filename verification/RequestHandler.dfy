/**
 The request handler: the object that drives the match, the cache and the counters, proved against
 `Requests`.
 */
module RequestHandler {
  import opened Decimal
  import opened GameState
  import opened CacheManager
  import opened Registry
  import opened Requests
  import opened CacheCoherence

  class RequestHandler {
    const state: GameState
    const cache: CacheManager
    const metrics: MetricsRegistry

    ghost predicate Valid()
      reads this, state, cache, metrics, metrics.latencyBucketCounts
    {
      cache.metrics == metrics && state.Valid() && metrics.Valid()
    }

    ghost function View(): World
      reads this, state, cache, metrics
    {
      World(cache.enabled, state.View(), state.log, cache.entries, cache.tainted,
            metrics.requestsTotal, metrics.successfulRequests, metrics.failedRequests,
            metrics.activePlayers, metrics.cacheHits, metrics.cacheMisses, metrics.samples)
    }

    constructor (enabled: bool, entries: map<string, string>)
      ensures Valid() && fresh(state) && fresh(cache) && fresh(metrics) && fresh(metrics.latencyBucketCounts)
      ensures View() == Start(enabled, entries) && cache.enabled == enabled && cache.entries == entries
    {
      var s := new GameState();
      var m := new MetricsRegistry();
      var c := new CacheManager(enabled, entries, m);
      state, metrics, cache := s, m, c;
    }

    /** The event behind a response to one of the six recording actions. */
    method Record(ghost r: Response, id: int, eventType: string, data: string)
      requires Valid() && EventOf(r, |state.log| + 1) == Some(Event(|state.log| + 1, id, eventType, data))
      modifies state`events, state`nextEventId, state`log
      ensures Valid()
      ensures View() == old(View()).(log := Logged(old(state.log), r))
    {
      state.RecordEvent(id, eventType, data);
    }

    method CacheSession(id: int, stamp: string, fate: Fate)
      requires Valid()
      modifies cache`entries
      ensures Valid()
      ensures View() == old(View()).(entries := if cache.enabled
                                                then Put(old(cache.entries), SessionKey(id), stamp, fate)
                                                else old(cache.entries))
    {
      if cache.enabled {
        var _ := cache.SetPlayerSession(id, stamp, fate);
      }
    }

    method CachePosition(id: int, x: int, y: int, fate: Fate)
      requires Valid()
      modifies cache`entries
      ensures Valid()
      ensures View() == old(View()).(entries := if cache.enabled
                                                then Put(old(cache.entries), PositionKey(id),
                                                         EncodePosition(x, y), fate)
                                                else old(cache.entries))
    {
      if cache.enabled {
        var _ := cache.SetPlayerPosition(id, x, y, fate);
      }
    }

    method DropSession(id: int, fate: Fate)
      requires Valid()
      modifies cache`entries
      ensures Valid()
      ensures View() == old(View()).(entries := if cache.enabled then Remove(old(cache.entries), SessionKey(id), fate)
                                                else old(cache.entries))
    {
      if cache.enabled {
        var _ := cache.DeletePlayerSession(id, fate);
      }
    }

    method JoinAs(id: int, weather: Weather) returns (r: Response)
      requires Valid()
      modifies state, cache`entries, metrics`activePlayers
      ensures Valid() && r == ActResponse(old(state.View()), Join(id))
      ensures View() == ActEffect(old(View()), Join(id), weather)
    {
      var err := state.AddPlayer(id);
      if err.Some? {
        return ErrorResponse(Refused(err.value));
      }
      metrics.SetActivePlayers(|state.players|);
      CacheSession(id, weather.stamp, weather.session);
      CachePosition(id, 500, 500, weather.position);
      r := Joined(id);
      Record(r, id, "JOIN", "{}");
    }

    method HandleJoin(player: IntField, weather: Weather) returns (r: Response)
      requires Valid()
      modifies state, cache`entries, metrics`activePlayers
      ensures Valid()
      ensures r == Respond(old(View()), JoinReq(player), weather)
      ensures View() == Effect(old(View()), JoinReq(player), weather)
    {
      var bad := RequireInt(player, "player_id");
      if bad.Some? {
        return ErrorResponse(bad.value);
      }
      r := JoinAs(player.value, weather);
    }

    method MoveAs(id: int, x: int, y: int, weather: Weather) returns (r: Response)
      requires Valid()
      modifies state, cache`entries
      ensures Valid() && r == ActResponse(old(state.View()), Move(id, x, y))
      ensures View() == ActEffect(old(View()), Move(id, x, y), weather)
    {
      var cx, cy := Clamp(x, MAP_MIN, MAP_MAX), Clamp(y, MAP_MIN, MAP_MAX);
      ClampingTwice(state.View(), id, x, y);
      var err := state.MovePlayer(id, cx, cy);
      if err.Some? {
        return ErrorResponse(Refused(err.value));
      }
      CachePosition(id, cx, cy, weather.position);
      r := Moved(id, cx, cy);
      Record(r, id, "MOVE", "{\"x\":" + PrintInt(cx) + ",\"y\":" + PrintInt(cy) + "}");
    }

    method HandleMove(player: IntField, x: IntField, y: IntField, weather: Weather) returns (r: Response)
      requires Valid()
      modifies state, cache`entries
      ensures Valid()
      ensures r == Respond(old(View()), MoveReq(player, x, y), weather)
      ensures View() == Effect(old(View()), MoveReq(player, x, y), weather)
    {
      var bad := OrElse(RequireInt(player, "player_id"), OrElse(RequireInt(x, "x"), RequireInt(y, "y")));
      if bad.Some? {
        return ErrorResponse(bad.value);
      }
      r := MoveAs(player.value, x.value, y.value, weather);
    }

    method AttackAs(id: int, target: int, weather: Weather) returns (r: Response)
      requires Valid()
      modifies state
      ensures Valid() && r == ActResponse(old(state.View()), Attack(id, target))
      ensures View() == ActEffect(old(View()), Attack(id, target), weather)
    {
      var err, result := state.AttackPlayer(id, target);
      if err.Some? {
        return ErrorResponse(Refused(err.value));
      }
      r := Attacked(id, target, result);
      Record(r, id, "ATTACK",
        "{\"target_id\":" + PrintInt(target) + ",\"damage\":" + PrintInt(result.damage)
        + ",\"eliminated\":" + (if result.targetEliminated then "true" else "false") + "}");
    }

    method HandleAttack(player: IntField, target: IntField, weather: Weather) returns (r: Response)
      requires Valid()
      modifies state
      ensures Valid()
      ensures r == Respond(old(View()), AttackReq(player, target), weather)
      ensures View() == Effect(old(View()), AttackReq(player, target), weather)
    {
      var bad := OrElse(RequireInt(player, "player_id"), RequireInt(target, "target_id"));
      if bad.Some? {
        return ErrorResponse(bad.value);
      }
      r := AttackAs(player.value, target.value, weather);
    }

    method HandleChat(player: IntField, message: StringField, weather: Weather) returns (r: Response)
      requires Valid()
      modifies state
      ensures Valid()
      ensures r == Respond(old(View()), ChatReq(player, message), weather)
      ensures View() == Effect(old(View()), ChatReq(player, message), weather)
    {
      var bad := OrElse(RequireInt(player, "player_id"), RequireString(message, "message"));
      if bad.Some? {
        return ErrorResponse(bad.value);
      }
      if message.text == "" {
        return ErrorResponse(EmptyMessage);
      }
      if |message.text| > MAX_CHAT_LEN {
        return ErrorResponse(MessageTooLong);
      }
      if player.value !in state.players {
        return ErrorResponse(Refused(NotInGame(player.value)));
      }
      r := Chatted(player.value, message.text);
      Record(r, player.value, "CHAT", "{\"len\":" + PrintNat(|message.text|) + "}");
    }

    method LookUpSession(id: int, fate: Fate, garbled: Lookup) returns (found: Option<Lookup>)
      requires Valid()
      modifies cache`tainted, metrics`cacheHits, metrics`cacheMisses
      ensures Valid()
      ensures found == if cache.enabled then Some(LookUp(cache.entries, old(cache.tainted), id, fate, garbled))
                       else None
      ensures View() == old(View()).(tainted := old(cache.tainted) || found == Some(LookupThrew),
                                     hits := old(metrics.cacheHits) + (if found == Some(LookupHit) then 1 else 0),
                                     misses := old(metrics.cacheMisses) + (if found == Some(LookupMiss) then 1 else 0))
    {
      if !cache.enabled {
        return None;
      }
      var r := cache.GetPlayerSession(id, fate, garbled);
      return Some(r);
    }

    method HandleGetState(player: IntField, weather: Weather) returns (r: Response)
      requires Valid()
      modifies cache`tainted, metrics`cacheHits, metrics`cacheMisses
      ensures Valid()
      ensures r == Respond(old(View()), GetStateReq(player), weather)
      ensures View() == Effect(old(View()), GetStateReq(player), weather)
    {
      if player.IntOf? {
        if player.value !in state.players {
          return ErrorResponse(Refused(NotInGame(player.value)));
        }
        var found := LookUpSession(player.value, weather.session, weather.garbled);
        if found == Some(LookupThrew) {
          return ErrorResponse(InternalError);
        }
      }
      var snapshot := state.TakeSnapshot();
      return StateIs(snapshot);
    }

    method ScoreAs(id: int, score: int, weather: Weather) returns (r: Response)
      requires Valid()
      modifies state
      ensures Valid() && r == ActResponse(old(state.View()), SetScore(id, score))
      ensures View() == ActEffect(old(View()), SetScore(id, score), weather)
    {
      var err := state.SetPlayerScore(id, score);
      if err.Some? {
        return ErrorResponse(Refused(err.value));
      }
      r := ScoreSet(id, score);
      Record(r, id, "UPDATE_SCORE", "{\"score\":" + PrintInt(score) + "}");
    }

    method HandleUpdateScore(player: IntField, score: IntField, weather: Weather) returns (r: Response)
      requires Valid()
      modifies state
      ensures Valid()
      ensures r == Respond(old(View()), UpdateScoreReq(player, score), weather)
      ensures View() == Effect(old(View()), UpdateScoreReq(player, score), weather)
    {
      var bad := OrElse(RequireInt(player, "player_id"), RequireInt(score, "score"));
      if bad.Some? {
        return ErrorResponse(bad.value);
      }
      if score.value < 0 {
        return ErrorResponse(NegativeScore);
      }
      r := ScoreAs(player.value, score.value, weather);
    }

    /** Match and gauge let a player go. */
    method TakeOut(id: int) returns (err: Option<Error>, finalScore: int)
      requires Valid()
      modifies state`players, state`status, metrics`activePlayers
      ensures Valid() && err == Refusal(old(state.View()), Leave(id))
      ensures err.None? ==> finalScore == old(state.players)[id].score
      ensures View() == old(View()).(game := Step(old(state.View()), Leave(id)),
                                     activePlayers := if err.None? then |state.players| else old(metrics.activePlayers))
    {
      err, finalScore := state.RemovePlayer(id);
      if err.None? {
        metrics.SetActivePlayers(|state.players|);
      }
    }

    method LeaveAs(id: int, weather: Weather) returns (r: Response)
      requires Valid()
      modifies state, cache`entries, metrics`activePlayers
      ensures Valid() && r == ActResponse(old(state.View()), Leave(id))
      ensures View() == ActEffect(old(View()), Leave(id), weather)
    {
      var err, finalScore := TakeOut(id);
      if err.Some? {
        return ErrorResponse(Refused(err.value));
      }
      DropSession(id, weather.session);
      r := LeftGame(id, finalScore);
      Record(r, id, "LEAVE", "{\"final_score\":" + PrintInt(finalScore) + "}");
    }

    method HandleLeave(player: IntField, weather: Weather) returns (r: Response)
      requires Valid()
      modifies state, cache`entries, metrics`activePlayers
      ensures Valid()
      ensures r == Respond(old(View()), LeaveReq(player), weather)
      ensures View() == Effect(old(View()), LeaveReq(player), weather)
    {
      var bad := RequireInt(player, "player_id");
      if bad.Some? {
        return ErrorResponse(bad.value);
      }
      r := LeaveAs(player.value, weather);
    }

    method Dispatch(req: Request, weather: Weather) returns (r: Response)
      requires Valid()
      modifies state, cache`entries, cache`tainted
      modifies metrics`activePlayers, metrics`cacheHits, metrics`cacheMisses
      ensures Valid()
      ensures r == Respond(old(View()), req, weather)
      ensures View() == Effect(old(View()), req, weather)
    {
      match req
      case JoinReq(p) => r := HandleJoin(p, weather);
      case MoveReq(p, x, y) => r := HandleMove(p, x, y, weather);
      case AttackReq(p, t) => r := HandleAttack(p, t, weather);
      case ChatReq(p, m) => r := HandleChat(p, m, weather);
      case GetStateReq(p) => r := HandleGetState(p, weather);
      case UpdateScoreReq(p, s) => r := HandleUpdateScore(p, s, weather);
      case LeaveReq(p) => r := HandleLeave(p, weather);
      case GetMetricsReq =>
        r := MetricsAre(metrics.requestsTotal, metrics.successfulRequests, metrics.failedRequests,
                        metrics.activePlayers, metrics.cacheHits, metrics.cacheMisses);
      case InvalidJson => r := ErrorResponse(BadJson);
      case NoAction => r := ErrorResponse(MissingAction);
      case Unknown(a) => r := ErrorResponse(UnknownAction(a));
    }

    method StopTimer(weather: Weather)
      requires Valid()
      modifies metrics`latencyCount, metrics`latencySum, metrics`samples, metrics.latencyBucketCounts
      ensures Valid() && View() == old(View()).(samples := old(metrics.samples) + [weather.seconds])
    {
      metrics.RecordRequestLatency(weather.seconds, weather.spuriousFailures);
    }

    method CountOutcome(r: Response)
      requires Valid()
      modifies metrics`successfulRequests, metrics`failedRequests
      ensures Valid()
      ensures View() == old(View()).(
        successful := old(metrics.successfulRequests) + (if r.ErrorResponse? then 0 else 1),
        failed := old(metrics.failedRequests) + (if r.ErrorResponse? then 1 else 0))
    {
      if r.ErrorResponse? {
        metrics.IncrementFailedRequests();
      } else {
        metrics.IncrementSuccessfulRequests();
      }
    }

    /** The response is counted as a success or as a failure, and the timer stops. */
    method Finish(r: Response, weather: Weather)
      requires Valid()
      modifies metrics`successfulRequests, metrics`failedRequests
      modifies metrics`latencyCount, metrics`latencySum, metrics`samples, metrics.latencyBucketCounts
      ensures Valid() && View() == Answered(old(View()), r, weather.seconds)
    {
      CountOutcome(r);
      StopTimer(weather);
    }

    method Arrive()
      requires Valid()
      modifies metrics`requestsTotal
      ensures Valid() && View() == Arrived(old(View()))
    {
      metrics.IncrementRequestsTotal();
    }

    /** One request, from its arrival to the timer's last word. */
    method Handle(req: Request, weather: Weather) returns (r: Response)
      requires Valid()
      modifies state, cache`entries, cache`tainted, metrics, metrics.latencyBucketCounts
      ensures Valid()
      ensures r == ResponseTo(old(View()), Call(req, weather))
      ensures View() == Next(old(View()), Call(req, weather))
    {
      Arrive();
      r := Dispatch(req, weather);
      Finish(r, weather);
    }

    /** What a reader of the cache is told. */
    method ReadPosition(id: int, fate: Fate, garbled: Option<string>) returns (r: Cached)
      requires Valid() && cache.enabled
      modifies cache`tainted, metrics`cacheHits, metrics`cacheMisses
      ensures state.View() == old(state.View())
      ensures !old(cache.tainted) && id in state.players && CachedRight(old(View()), id) ==>
                r == if fate.Acknowledged? && PositionKey(id) in cache.entries
                     then Hit(state.players[id].x, state.players[id].y) else NotCached
    {
      r := cache.GetPlayerPosition(id, fate, garbled);
    }

    /** The store drops entries. */
    method ExpireEntries(keys: set<string>)
      requires Valid()
      modifies cache`entries
      ensures Valid() && View() == Next(old(View()), Expiry(keys))
    {
      cache.Expire(keys);
    }
  }

  lemma ClampingTwice(m: Match, id: int, x: int, y: int)
    ensures Step(m, Move(id, Clamp(x, MAP_MIN, MAP_MAX), Clamp(y, MAP_MIN, MAP_MAX))) == Step(m, Move(id, x, y))
  {
  }

  /** Any run of requests and expiries from a fresh handler is the run of `Requests`. */
  method RunHandler(enabled: bool, entries: map<string, string>, script: seq<Happening>)
    returns (h: RequestHandler, responses: seq<Response>)
    ensures fresh(h) && fresh(h.state) && fresh(h.cache) && fresh(h.metrics) && fresh(h.metrics.latencyBucketCounts)
    ensures h.Valid()
    ensures h.View() == WorldAfter(Start(enabled, entries), script)
    ensures responses == Answers(Start(enabled, entries), script)
  {
    h := new RequestHandler(enabled, entries);
    responses := [];
    ghost var start := Start(enabled, entries);
    for i := 0 to |script|
      invariant h.Valid() && fresh(h) && fresh(h.state) && fresh(h.cache) && fresh(h.metrics)
      invariant fresh(h.metrics.latencyBucketCounts)
      invariant h.View() == WorldAfter(start, script[..i]) && responses == Answers(start, script[..i])
    {
      assert script[..i + 1][..i] == script[..i];
      match script[i]
      case Expiry(keys) =>
        h.ExpireEntries(keys);
      case Call(req, weather) =>
        var r := h.Handle(req, weather);
        responses := responses + [r];
    }
    assert script[..|script|] == script;
  }

  /**
   What a reader of the cache is told about an active player after any run.  Without a lost position write
   and without an internal error, nothing or the truth, and never an exception; and there is no internal
   error when the store and the sessions are of readable length.
   */
  method ReadPositionAfter(entries: map<string, string>, script: seq<Happening>, id: int, fate: Fate,
                           garbled: Option<string>)
    returns (h: RequestHandler, responses: seq<Response>, r: Cached)
    ensures h.state.View() == MatchAfter(Actions(script)) && responses == Answers(Start(true, entries), script)
    ensures NothingLost(script) && ErrorResponse(InternalError) !in responses && id in h.state.players ==>
              r == if fate.Acknowledged? && PositionKey(id) in h.cache.entries
                   then Hit(h.state.players[id].x, h.state.players[id].y) else NotCached
    ensures ShortSessions(entries) && ShortStamps(script) ==> ErrorResponse(InternalError) !in responses
  {
    h, responses := RunHandler(true, entries, script);
    GameOfRun(Start(true, entries), script);
    TaintedIff(true, entries, script);
    if ShortSessions(entries) && ShortStamps(script) {
      ShortTextsNeverTaint(true, entries, script);
    }
    if id in h.state.players && NothingLost(script) {
      CacheIsRight(entries, script, id);
    }
    r := h.ReadPosition(id, fate, garbled);
  }
}
