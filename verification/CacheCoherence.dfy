/**
 Where the cache says the players stand, against where they stand, over every sequential run.

 A join and a move write the position of the player; a departure leaves it behind, and any entry may
 expire.  A player stands where it was last placed, an entry says where the last write that was not lost
 put it, and the cache is right exactly when these two are the same place.
 */
module CacheCoherence {
  import opened Decimal
  import opened GameState
  import opened CacheManager
  import opened Requests

  datatype Place = Place(x: int, y: int)

  /** Whether a response comes with a write of this player's position. */
  predicate Places(r: Response, id: int) {
    (r.Joined? || r.Moved?) && r.id == id
  }

  function PlaceOf(r: Response): Place
    requires r.Joined? || r.Moved?
  {
    if r.Joined? then Place(500, 500) else Place(r.x, r.y)
  }

  predicate StandsAt(w: World, id: int, p: Place) {
    id in w.game.players && w.game.players[id].x == p.x && w.game.players[id].y == p.y
  }

  predicate OnMap(p: Place) {
    MAP_MIN <= p.x <= MAP_MAX && MAP_MIN <= p.y <= MAP_MAX
  }

  /** If the position of this player is cached, it is where the player stands. */
  predicate CachedRight(w: World, id: int)
    requires id in w.game.players
  {
    PositionKey(id) in w.entries ==>
      DecodePosition(w.entries[PositionKey(id)]) == Hit(w.game.players[id].x, w.game.players[id].y)
  }

  /** Where the latest join or move of a run put the player. */
  function LastPlaced(start: World, script: seq<Happening>, id: int): Option<Place> {
    if script == [] then None
    else
      var before, h := script[..|script| - 1], script[|script| - 1];
      if h.Call? && Places(ResponseTo(WorldAfter(start, before), h), id) then
        Some(PlaceOf(ResponseTo(WorldAfter(start, before), h)))
      else LastPlaced(start, before, id)
  }

  /** Where the latest one put it whose write took effect in the store, whether or not the store said so. */
  function LastTaken(start: World, script: seq<Happening>, id: int): Option<Place> {
    if script == [] then None
    else
      var before, h := script[..|script| - 1], script[|script| - 1];
      if h.Call? && !h.weather.position.Lost? && Places(ResponseTo(WorldAfter(start, before), h), id) then
        Some(PlaceOf(ResponseTo(WorldAfter(start, before), h)))
      else LastTaken(start, before, id)
  }

  // ---- One call ----

  predicate PlacesBy(a: Action, id: int) {
    (a.Join? || a.Move?) && a.id == id
  }

  /** Only a join or a move of this very player changes where it stands. */
  lemma OthersStandStill(m: Match, a: Action, id: int)
    requires id in Step(m, a).players && !(PlacesBy(a, id) && Refusal(m, a).None?)
    ensures id in m.players
    ensures Step(m, a).players[id].x == m.players[id].x && Step(m, a).players[id].y == m.players[id].y
  {
  }

  /** A join or a move puts the player where its response says, on the map. */
  lemma PlacedPlayer(w: World, h: Happening, id: int)
    requires h.Call? && MatchInv(w.game) && Places(ResponseTo(w, h), id)
    ensures StandsAt(Next(w, h), id, PlaceOf(ResponseTo(w, h))) && OnMap(PlaceOf(ResponseTo(w, h)))
  {
    ResponsesAreTrue(w, h);
  }

  lemma OtherPlayer(w: World, h: Happening, id: int)
    requires h.Call? && !Places(ResponseTo(w, h), id) && id in Next(w, h).game.players
    ensures id in w.game.players
    ensures forall p :: StandsAt(w, id, p) ==> StandsAt(Next(w, h), id, p)
  {
    if ActionOf(h.req).Some? {
      OthersStandStill(w.game, ActionOf(h.req).value, id);
    }
  }

  predicate SameEntry(before: map<string, string>, after: map<string, string>, key: string) {
    (key in before <==> key in after) && (key in before ==> before[key] == after[key])
  }

  /** The entry of a player after a response: the new place if it was written, or what was there. */
  lemma EntryAfter(w: World, r: Response, weather: Weather, id: int)
    requires w.enabled
    ensures if Places(r, id) && !weather.position.Lost? then
              PositionKey(id) in Stored(w, r, weather)
              && Stored(w, r, weather)[PositionKey(id)] == EncodePosition(PlaceOf(r).x, PlaceOf(r).y)
            else SameEntry(w.entries, Stored(w, r, weather), PositionKey(id))
  {
    if r.Joined? || r.Moved? || r.LeftGame? {
      KeysAreDistinct(id, r.id);
    }
  }

  lemma EntriesAfter(w: World, h: Happening)
    requires h.Call?
    ensures Next(w, h).entries == Stored(Arrived(w), ResponseTo(w, h), h.weather)
  {
    if ActionOf(h.req).None? {
      OtherRequests(Arrived(w), h.req, h.weather);
    }
  }

  // ---- Whole runs ----

  /** A player stands where its latest join or move put it. */
  lemma {:induction false} StandsWhereLastPlaced(start: World, script: seq<Happening>, id: int)
    requires start.game == EMPTY && id in WorldAfter(start, script).game.players
    ensures LastPlaced(start, script, id).Some?
    ensures StandsAt(WorldAfter(start, script), id, LastPlaced(start, script, id).value)
  {
    var before, h := script[..|script| - 1], script[|script| - 1];
    var w := WorldAfter(start, before);
    GameOfRun(start, before);
    if h.Call? && Places(ResponseTo(w, h), id) {
      PlacedPlayer(w, h, id);
    } else {
      if h.Call? {
        OtherPlayer(w, h, id);
      }
      StandsWhereLastPlaced(start, before, id);
    }
  }

  /** Every place is on the map. */
  lemma {:induction false} TakenOnMap(start: World, script: seq<Happening>, id: int)
    requires start.game == EMPTY && LastTaken(start, script, id).Some?
    ensures OnMap(LastTaken(start, script, id).value)
  {
    var before, h := script[..|script| - 1], script[|script| - 1];
    var w := WorldAfter(start, before);
    GameOfRun(start, before);
    if h.Call? && !h.weather.position.Lost? && Places(ResponseTo(w, h), id) {
      PlacedPlayer(w, h, id);
    } else {
      TakenOnMap(start, before, id);
    }
  }

  /** What an entry says: where the latest write put the player, or what was left over when there was none. */
  predicate EntryTells(leftover: map<string, string>, entries: map<string, string>, key: string, taken: Option<Place>) {
    key in entries ==>
      match taken
      case Some(p) => entries[key] == EncodePosition(p.x, p.y)
      case None => key in leftover && entries[key] == leftover[key]
  }

  lemma {:induction false} EntryIsLastTaken(start: World, script: seq<Happening>, id: int)
    requires start.game == EMPTY && start.enabled
    ensures EntryTells(start.entries, WorldAfter(start, script).entries, PositionKey(id), LastTaken(start, script, id))
  {
    if script != [] {
      var before, h := script[..|script| - 1], script[|script| - 1];
      var w := WorldAfter(start, before);
      EntryIsLastTaken(start, before, id);
      if h.Call? {
        GameOfRun(start, before);
        EntriesAfter(w, h);
        EntryAfter(Arrived(w), ResponseTo(w, h), h.weather, id);
      }
    }
  }

  /**
   In every run, whatever expires: a cached position of an active player is right if and only if the latest
   write that took effect put it where its latest join or move did; and if none took effect, if and only if
   the leftover entry happens to say so.
   */
  lemma CachedRightIff(entries: map<string, string>, script: seq<Happening>, id: int)
    requires id in WorldAfter(Start(true, entries), script).game.players
    requires PositionKey(id) in WorldAfter(Start(true, entries), script).entries
    ensures var start := Start(true, entries);
      var placed := LastPlaced(start, script, id);
      && placed.Some?
      && (CachedRight(WorldAfter(start, script), id) <==>
          match LastTaken(start, script, id)
          case Some(p) => placed == Some(p)
          case None => PositionKey(id) in entries
                       && DecodePosition(entries[PositionKey(id)]) == Hit(placed.value.x, placed.value.y))
  {
    var start := Start(true, entries);
    StandsWhereLastPlaced(start, script, id);
    EntryIsLastTaken(start, script, id);
    if LastTaken(start, script, id).Some? {
      TakenOnMap(start, script, id);
      var p := LastTaken(start, script, id).value;
      PositionRoundTrip(p.x, p.y);
    }
  }

  /** The latest write of this player's position took effect in the store. */
  predicate LatestWriteTook(start: World, script: seq<Happening>, id: int) {
    script != [] &&
    var before, h := script[..|script| - 1], script[|script| - 1];
    if h.Call? && Places(ResponseTo(WorldAfter(start, before), h), id) then !h.weather.position.Lost?
    else LatestWriteTook(start, before, id)
  }

  lemma {:induction false} TookIsTaken(start: World, script: seq<Happening>, id: int)
    requires LatestWriteTook(start, script, id)
    ensures LastTaken(start, script, id).Some? && LastTaken(start, script, id) == LastPlaced(start, script, id)
  {
    var before, h := script[..|script| - 1], script[|script| - 1];
    if !(h.Call? && Places(ResponseTo(WorldAfter(start, before), h), id)) {
      TookIsTaken(start, before, id);
    }
  }

  /**
   So the cached position is right in every run in which the latest write of it took effect: through moves,
   re-joins and eliminations, and whatever expires when.
   */
  lemma CacheIsCoherent(entries: map<string, string>, script: seq<Happening>, id: int)
    requires id in WorldAfter(Start(true, entries), script).game.players
    requires LatestWriteTook(Start(true, entries), script, id)
    ensures CachedRight(WorldAfter(Start(true, entries), script), id)
  {
    TookIsTaken(Start(true, entries), script, id);
    if PositionKey(id) in WorldAfter(Start(true, entries), script).entries {
      CachedRightIff(entries, script, id);
    }
  }

  /** No position write of the run was lost. */
  predicate NothingLost(script: seq<Happening>) {
    forall i :: 0 <= i < |script| && script[i].Call? ==> !script[i].weather.position.Lost?
  }

  /** With no write lost, this covers every active player: each was placed by its join at least. */
  lemma {:induction false} ActivePlayersWereWritten(entries: map<string, string>, script: seq<Happening>, id: int)
    requires NothingLost(script) && id in WorldAfter(Start(true, entries), script).game.players
    ensures LatestWriteTook(Start(true, entries), script, id)
  {
    var start := Start(true, entries);
    var before, h := script[..|script| - 1], script[|script| - 1];
    var w := WorldAfter(start, before);
    if h.Call? && Places(ResponseTo(w, h), id) {
      assert !script[|script| - 1].weather.position.Lost?;
    } else {
      if h.Call? {
        OtherPlayer(w, h, id);
      }
      assert forall i :: 0 <= i < |before| ==> before[i] == script[i];
      ActivePlayersWereWritten(entries, before, id);
    }
  }

  /** A join or move whose write is lost leaves the entry as it was: right exactly if it names the new place. */
  lemma LostWriteIff(w: World, h: Happening, id: int)
    requires w.enabled && MatchInv(w.game) && PositionKey(id) in w.entries
    requires h.Call? && Places(ResponseTo(w, h), id) && h.weather.position.Lost?
    ensures id in Next(w, h).game.players && PositionKey(id) in Next(w, h).entries
    ensures CachedRight(Next(w, h), id) <==>
            DecodePosition(w.entries[PositionKey(id)]) == Hit(PlaceOf(ResponseTo(w, h)).x, PlaceOf(ResponseTo(w, h)).y)
  {
    PlacedPlayer(w, h, id);
    EntriesAfter(w, h);
    EntryAfter(Arrived(w), ResponseTo(w, h), h.weather, id);
  }

  /** With no write lost the cache is right about everybody. */
  lemma CacheIsRight(entries: map<string, string>, script: seq<Happening>, id: int)
    requires NothingLost(script) && id in WorldAfter(Start(true, entries), script).game.players
    ensures CachedRight(WorldAfter(Start(true, entries), script), id)
  {
    ActivePlayersWereWritten(entries, script, id);
    CacheIsCoherent(entries, script, id);
  }

  // ---- Sessions ----

  /**
   Whether a run leaves a session of this player in the store: one was there, or a join wrote it, and
   neither an expiry nor a departure that took effect removed it since.
   */
  predicate SessionLeft(start: World, script: seq<Happening>, id: int) {
    if script == [] then "session:player:" + PrintInt(id) in start.entries
    else
      var before, h := script[..|script| - 1], script[|script| - 1];
      match h
      case Expiry(keys) => SessionLeft(start, before, id) && "session:player:" + PrintInt(id) !in keys
      case Call(_, weather) =>
        var r := ResponseTo(WorldAfter(start, before), h);
        if r == Joined(id) && !weather.session.Lost? then true
        else if r.LeftGame? && r.id == id && !weather.session.Lost? then false
        else SessionLeft(start, before, id)
  }

  /** The session entry of a player after a response. */
  lemma SessionAfter(w: World, r: Response, weather: Weather, id: int)
    requires w.enabled
    ensures SessionKey(id) in Stored(w, r, weather) <==>
            if r == Joined(id) && !weather.session.Lost? then true
            else if r.LeftGame? && r.id == id && !weather.session.Lost? then false
            else SessionKey(id) in w.entries
  {
    if r.Joined? || r.Moved? || r.LeftGame? {
      KeysAreDistinct(id, r.id);
      KeysAreDistinct(r.id, id);
    }
  }

  /** In every run a session is in the store exactly if the run left it there. */
  lemma {:induction false} SessionIsLeft(start: World, script: seq<Happening>, id: int)
    requires start.game == EMPTY && start.enabled
    ensures SessionKey(id) in WorldAfter(start, script).entries <==> SessionLeft(start, script, id)
  {
    if script != [] {
      var before, h := script[..|script| - 1], script[|script| - 1];
      var w := WorldAfter(start, before);
      SessionIsLeft(start, before, id);
      if h.Call? {
        GameOfRun(start, before);
        EntriesAfter(w, h);
        SessionAfter(Arrived(w), ResponseTo(w, h), h.weather, id);
      }
    }
  }

  /**
   A state request of an active player whose lookup is answered counts a hit exactly if the run left a
   session, else a miss; and answers with the snapshot either way.
   */
  lemma SessionIsFound(entries: map<string, string>, script: seq<Happening>, id: int, weather: Weather)
    requires id in WorldAfter(Start(true, entries), script).game.players && weather.session.Acknowledged?
    requires ShortSessions(entries) && ShortStamps(script)
    ensures var start := Start(true, entries);
      var w, h := WorldAfter(start, script), Call(GetStateReq(IntOf(id)), weather);
      && ResponseTo(w, h).StateIs?
      && Next(w, h).hits == w.hits + (if SessionLeft(start, script, id) then 1 else 0)
      && Next(w, h).misses == w.misses + (if SessionLeft(start, script, id) then 0 else 1)
  {
    var start := Start(true, entries);
    GameOfRun(start, script);
    ShortTextsNeverTaint(true, entries, script);
    SessionIsLeft(start, script, id);
    LookupOf(WorldAfter(start, script), id, weather);
  }

  lemma LookupOf(w: World, id: int, weather: Weather)
    requires w.enabled && !w.tainted && id in w.game.players && weather.session.Acknowledged?
    requires ShortSessions(w.entries)
    ensures var h := Call(GetStateReq(IntOf(id)), weather);
      && ResponseTo(w, h).StateIs?
      && Next(w, h).hits == w.hits + (if SessionKey(id) in w.entries then 1 else 0)
      && Next(w, h).misses == w.misses + (if SessionKey(id) in w.entries then 0 else 1)
  {
  }

  // ---- A stale run ----

  /** Join, move and leave with all writes taken, then a re-join whose position write is lost. */
  function Rejoin(id: int, x: int, y: int, fine: Weather, lost: Weather): seq<Happening> {
    [Call(JoinReq(IntOf(id)), fine), Call(MoveReq(IntOf(id), IntOf(x), IntOf(y)), fine),
     Call(LeaveReq(IntOf(id)), fine), Call(JoinReq(IntOf(id)), lost)]
  }

  /** Placing a player, by a call that the match accepts. */
  lemma PlacingStep(w: World, a: Action, req: Request, weather: Weather)
    requires w.enabled && ActionOf(req) == Some(a) && (a.Join? || a.Move?) && Refusal(w.game, a).None?
    ensures var t, p := Next(w, Call(req, weather)), if a.Join? then Place(500, 500) else
                          Place(Clamp(a.x, MAP_MIN, MAP_MAX), Clamp(a.y, MAP_MIN, MAP_MAX));
      && t.enabled && StandsAt(t, a.id, p)
      && (if weather.position.Lost? then SameEntry(w.entries, t.entries, PositionKey(a.id))
          else PositionKey(a.id) in t.entries && t.entries[PositionKey(a.id)] == EncodePosition(p.x, p.y))
  {
    EntriesAfter(w, Call(req, weather));
    EntryAfter(Arrived(w), Success(w.game, a), weather, a.id);
  }

  /** A departure takes the player away and leaves its position in the cache. */
  lemma LeavingStep(w: World, id: int, weather: Weather)
    requires w.enabled && id in w.game.players
    ensures var t := Next(w, Call(LeaveReq(IntOf(id)), weather));
      t.enabled && id !in t.game.players && SameEntry(w.entries, t.entries, PositionKey(id))
  {
    EntriesAfter(w, Call(LeaveReq(IntOf(id)), weather));
    EntryAfter(Arrived(w), Success(w.game, Leave(id)), weather, id);
  }

  lemma NextCall(start: World, script: seq<Happening>, i: nat)
    requires i < |script|
    ensures WorldAfter(start, script[..i + 1]) == Next(WorldAfter(start, script[..i]), script[i])
  {
    assert script[..i + 1][..i] == script[..i];
  }

  lemma FourCalls(start: World, script: seq<Happening>)
    requires |script| == 4
    ensures WorldAfter(start, script) == Next(Next(Next(Next(start, script[0]), script[1]), script[2]), script[3])
  {
    NextCall(start, script, 0);
    NextCall(start, script, 1);
    NextCall(start, script, 2);
    NextCall(start, script, 3);
    assert script[..0] == [] && script[..4] == script;
  }

  /** The cache then says where the player stood when it left; that is right only of a player at (500, 500). */
  lemma RejoinCanBeStale(id: int, x: int, y: int, fine: Weather, lost: Weather)
    requires !fine.position.Lost? && lost.position.Lost?
    ensures var w := WorldAfter(Start(true, map[]), Rejoin(id, x, y, fine, lost));
      && StandsAt(w, id, Place(500, 500)) && PositionKey(id) in w.entries
      && DecodePosition(w.entries[PositionKey(id)]) == Hit(Clamp(x, MAP_MIN, MAP_MAX), Clamp(y, MAP_MIN, MAP_MAX))
      && (CachedRight(w, id) <==> x == 500 && y == 500)
  {
    var start, script := Start(true, map[]), Rejoin(id, x, y, fine, lost);
    var w1 := Next(start, script[0]);
    var w2 := Next(w1, script[1]);
    var w3 := Next(w2, script[2]);
    PlacingStep(start, Join(id), script[0].req, fine);
    PlacingStep(w1, Move(id, x, y), script[1].req, fine);
    LeavingStep(w2, id, fine);
    PlacingStep(w3, Join(id), script[3].req, lost);
    FourCalls(start, script);
    PositionRoundTrip(Clamp(x, MAP_MIN, MAP_MAX), Clamp(y, MAP_MIN, MAP_MAX));
  }
}
