/**
 Whole sessions: any sequence of calls, across lost connections, behaves like a map from keys to their
 latest value.
 */
module RedisSession {
  import opened Decimal
  import opened RedisServer
  import opened RedisClient

  datatype Result = Done(ok: bool) | Got(answer: Answer)

  /** What a call answers on the dictionaries `db` while the connection holds. */
  function Expected(db: Db, op: Op): Result {
    match op
    case OpGet(k) => Got(AnswerOf(Lookup(db, k)))
    case OpHGet(k, f) => Got(AnswerOf(Field(db, k, f)))
    case _ => Done(true)
  }

  function Replay(db: Db, ops: seq<Op>): Db {
    if ops == [] then db else Effect(Replay(db, ops[..|ops| - 1]), ops[|ops| - 1])
  }

  /** What a call answers when its connection is lost. */
  function Failure(op: Op): Result {
    if op.OpGet? || op.OpHGet? then Got(Miss) else Done(false)
  }

  method PerformLookup(conn: Connection, op: Op) returns (r: Result)
    requires conn.Synced() && (op.OpGet? || op.OpHGet?)
    modifies conn, conn.server
    ensures conn.server.Contents() == old(conn.server.Contents())
    ensures r == if conn.connected then Expected(conn.server.Contents(), op) else Failure(op)
    ensures r != Got(Threw) <==> conn.Synced()
  {
    var a;
    if op.OpGet? {
      a := conn.Get(op.key);
    } else {
      a := conn.HGet(op.key, op.field);
    }
    r := Got(a);
  }

  method PerformUpdate(conn: Connection, op: Op) returns (ok: bool)
    requires conn.Synced() && !op.OpGet? && !op.OpHGet?
    modifies conn, conn.server
    ensures conn.Synced() && ok == conn.connected
    ensures ok ==> conn.server.Contents() == Effect(old(conn.server.Contents()), op)
    ensures conn.server.Contents() == old(conn.server.Contents())
         || conn.server.Contents() == Effect(old(conn.server.Contents()), op)
  {
    match op
    case OpPing => ok := conn.Ping();
    case OpSet(k, v, e) => ok := conn.Set(k, v, e);
    case OpDel(k) => ok := conn.Del(k);
    case OpHSet(k, f, v) => ok := conn.HSet(k, f, v);
  }

  method Perform(conn: Connection, op: Op) returns (r: Result)
    requires conn.Synced()
    modifies conn, conn.server
    ensures conn.connected ==> r == Expected(old(conn.server.Contents()), op)
    ensures conn.connected ==> conn.server.Contents() == Effect(old(conn.server.Contents()), op)
    ensures !conn.connected ==> r == Failure(op)
    ensures conn.server.Contents() == old(conn.server.Contents())
         || conn.server.Contents() == Effect(old(conn.server.Contents()), op)
    ensures r != Got(Threw) <==> conn.Synced()
  {
    if op.OpGet? || op.OpHGet? {
      r := PerformLookup(conn, op);
    } else {
      var ok := PerformUpdate(conn, op);
      r := Done(ok);
    }
  }

  // ---- The latest write wins ----

  predicate Touches(op: Op, key: string) {
    (op.OpSet? || op.OpDel?) && op.key == key
  }

  /** The i-th call set `key` to `v`, and nothing later set or deleted it. */
  predicate LatestSet(ops: seq<Op>, i: int, key: string, v: string) {
    && 0 <= i < |ops|
    && ops[i].OpSet? && ops[i].key == key && ops[i].value == v
    && forall j :: i < j < |ops| ==> !Touches(ops[j], key)
  }

  /** `get` finds v exactly when the latest set of the key, not followed by a del, wrote v. */
  lemma {:induction false} GetFindsTheLatestSet(ops: seq<Op>, key: string, v: string)
    ensures Lookup(Replay(EMPTY, ops), key) == Some(v) <==> exists i :: LatestSet(ops, i, key, v)
  {
    if ops != [] {
      var n := |ops| - 1;
      var before := ops[..n];
      GetFindsTheLatestSet(before, key, v);
      if Touches(ops[n], key) {
        assert LatestSet(ops, n, key, v) <==> (ops[n].OpSet? && ops[n].value == v);
        forall i | LatestSet(ops, i, key, v) ensures i == n {
        }
      } else {
        assert Lookup(Replay(EMPTY, ops), key) == Lookup(Replay(EMPTY, before), key);
        forall i | LatestSet(before, i, key, v) ensures LatestSet(ops, i, key, v) {
          assert forall j :: i < j < n ==> ops[j] == before[j];
        }
        forall i | LatestSet(ops, i, key, v) ensures LatestSet(before, i, key, v) {
          assert forall j :: i < j < n ==> ops[j] == before[j];
        }
      }
    }
  }

  predicate SetsField(op: Op, key: string, field: string) {
    op.OpHSet? && op.key == key && op.field == field
  }

  predicate LatestHSet(ops: seq<Op>, i: int, key: string, field: string, v: string) {
    && 0 <= i < |ops|
    && SetsField(ops[i], key, field) && ops[i].value == v
    && forall j :: i < j < |ops| ==> !SetsField(ops[j], key, field)
  }

  /** DEL does not reach hashes, so a field holds what was last written to it. */
  lemma {:induction false} HGetFindsTheLatestHSet(ops: seq<Op>, key: string, field: string, v: string)
    ensures Field(Replay(EMPTY, ops), key, field) == Some(v) <==> exists i :: LatestHSet(ops, i, key, field, v)
  {
    if ops != [] {
      var n := |ops| - 1;
      var before := ops[..n];
      HGetFindsTheLatestHSet(before, key, field, v);
      if SetsField(ops[n], key, field) {
        assert LatestHSet(ops, n, key, field, v) <==> ops[n].value == v;
        forall i | LatestHSet(ops, i, key, field, v) ensures i == n {
        }
      } else {
        assert Field(Replay(EMPTY, ops), key, field) == Field(Replay(EMPTY, before), key, field);
        forall i | LatestHSet(before, i, key, field, v) ensures LatestHSet(ops, i, key, field, v) {
          assert forall j :: i < j < n ==> ops[j] == before[j];
        }
        forall i | LatestHSet(ops, i, key, field, v) ensures LatestHSet(before, i, key, field, v) {
          assert forall j :: i < j < n ==> ops[j] == before[j];
        }
      }
    }
  }

  // ---- Sessions ----

  /** The calls the server carried out, in order. */
  function Executed(ops: seq<Op>, done: seq<bool>): seq<Op>
    requires |ops| == |done|
  {
    if ops == [] then []
    else
      var n := |ops| - 1;
      Executed(ops[..n], done[..n]) + if done[n] then [ops[n]] else []
  }

  /** The dictionaries in front of the call of index i. */
  function Before(db: Db, ops: seq<Op>, done: seq<bool>, i: nat): Db
    requires i <= |ops| && i <= |done|
  {
    Replay(db, Executed(ops[..i], done[..i]))
  }

  /**
   What happened to the call of index i: carried out and answered for what it found, or failed with its
   connection, carried out or not.
   */
  ghost predicate Explained(db: Db, ops: seq<Op>, done: seq<bool>, held: seq<bool>, results: seq<Result>, i: nat)
    requires i < |results| == |held| == |done| <= |ops|
  {
    if held[i] then done[i] && results[i] == Expected(Before(db, ops, done, i), ops[i])
    else results[i] == Failure(ops[i])
  }

  lemma BeforeNext(db: Db, ops: seq<Op>, done: seq<bool>, more: bool)
    requires |done| < |ops|
    ensures Before(db, ops, done + [more], |done| + 1) ==
            if more then Effect(Before(db, ops, done, |done|), ops[|done|]) else Before(db, ops, done, |done|)
  {
    var n := |done|;
    assert ops[..n + 1][..n] == ops[..n] && (done + [more])[..n + 1][..n] == done[..n];
    var e := Executed(ops[..n], done[..n]);
    if more {
      assert (e + [ops[n]])[..|e|] == e;
    } else {
      assert e + [] == e;
    }
  }

  /** Later calls change nothing in front of this one. */
  lemma BeforeKept(db: Db, ops: seq<Op>, done: seq<bool>, more: bool, i: nat)
    requires i <= |done| && i <= |ops|
    ensures Before(db, ops, done + [more], i) == Before(db, ops, done, i)
  {
    assert (done + [more])[..i] == done[..i];
  }

  ghost predicate AllExplained(db: Db, ops: seq<Op>, done: seq<bool>, held: seq<bool>, results: seq<Result>) {
    && |results| == |held| == |done| <= |ops|
    && forall i :: 0 <= i < |results| ==> Explained(db, ops, done, held, results, i)
  }

  /** The next call joins the explained ones. */
  lemma ExplainNext(db: Db, ops: seq<Op>, done: seq<bool>, held: seq<bool>, results: seq<Result>,
                    carried: bool, up: bool, r: Result)
    requires AllExplained(db, ops, done, held, results) && |done| < |ops|
    requires if up then carried && r == Expected(Before(db, ops, done, |done|), ops[|done|])
             else r == Failure(ops[|done|])
    ensures AllExplained(db, ops, done + [carried], held + [up], results + [r])
  {
    var done', held', results' := done + [carried], held + [up], results + [r];
    forall i | 0 <= i < |results'| ensures Explained(db, ops, done', held', results', i) {
      BeforeKept(db, ops, done, carried, i);
      assert i < |results| ==> Explained(db, ops, done, held, results, i);
    }
  }

  /**
   Calls one after the other, reconnecting after every lost connection, until a length does not fit an
   int.  `held` says after which calls the connection stood, `done` which calls the server carried out.
   Every answer given while the connection stood is that of the calls carried out before it, so no reply
   is ever read by another call than its own.
   */
  method RunSession(conn: Connection, ops: seq<Op>)
    returns (results: seq<Result>, held: seq<bool>, ghost done: seq<bool>)
    requires conn.Synced()
    modifies conn, conn.server
    ensures AllExplained(old(conn.server.Contents()), ops, done, held, results)
    ensures conn.server.Contents() == Before(old(conn.server.Contents()), ops, done, |done|)
    ensures if |results| == |ops| && (results == [] || results[|results| - 1] != Got(Threw)) then conn.Synced()
            else results != [] && results[|results| - 1] == Got(Threw)
  {
    ghost var db := conn.server.Contents();
    results, held, done := [], [], [];
    for i := 0 to |ops|
      invariant |done| == i && conn.Synced() && AllExplained(db, ops, done, held, results)
      invariant conn.server.Contents() == Before(db, ops, done, i)
      invariant results == [] || results[i - 1] != Got(Threw)
    {
      ghost var was := conn.server.Contents();
      var r := Perform(conn, ops[i]);
      ghost var carried := conn.connected || conn.server.Contents() != was;
      BeforeNext(db, ops, done, carried);
      ExplainNext(db, ops, done, held, results, carried, conn.connected, r);
      results, held, done := results + [r], held + [conn.connected], done + [carried];
      if r == Got(Threw) {
        return;
      }
    }
  }

  /** On an empty server, whether a `get` that was answered found v. */
  ghost predicate FoundIff(ops: seq<Op>, done: seq<bool>, results: seq<Result>, i: nat, v: string)
    requires i < |results| == |done| <= |ops| && ops[i].OpGet?
  {
    results[i] == Got(Found(v)) <==>
      |v| <= INT_MAX && exists j :: LatestSet(Executed(ops[..i], done[..i]), j, ops[i].key, v)
  }

  ghost predicate FieldFoundIff(ops: seq<Op>, done: seq<bool>, results: seq<Result>, i: nat, v: string)
    requires i < |results| == |done| <= |ops| && ops[i].OpHGet?
  {
    results[i] == Got(Found(v)) <==>
      |v| <= INT_MAX && exists j :: LatestHSet(Executed(ops[..i], done[..i]), j, ops[i].key, ops[i].field, v)
  }

  /**
   A session on an empty server: every answered `get` finds v exactly if v fits an int and the latest set
   of its key that was carried out, not followed by a del, wrote v; likewise `hget` and hset.
   */
  method SessionIsAMap(conn: Connection, ops: seq<Op>)
    returns (results: seq<Result>, held: seq<bool>, ghost done: seq<bool>)
    requires conn.Synced() && conn.server.Contents() == EMPTY
    modifies conn, conn.server
    ensures |results| == |held| == |done| <= |ops|
    ensures forall i :: 0 <= i < |held| && held[i] ==> done[i]
    ensures forall i, v :: 0 <= i < |held| && held[i] && ops[i].OpGet? ==> FoundIff(ops, done, results, i, v)
    ensures forall i, v :: 0 <= i < |held| && held[i] && ops[i].OpHGet? ==> FieldFoundIff(ops, done, results, i, v)
  {
    results, held, done := RunSession(conn, ops);
    forall i | 0 <= i < |held| && held[i] ensures done[i] {
      assert Explained(EMPTY, ops, done, held, results, i);
    }
    forall i, v | 0 <= i < |held| && held[i] && ops[i].OpGet? ensures FoundIff(ops, done, results, i, v) {
      assert Explained(EMPTY, ops, done, held, results, i);
      GetFindsTheLatestSet(Executed(ops[..i], done[..i]), ops[i].key, v);
    }
    forall i, v | 0 <= i < |held| && held[i] && ops[i].OpHGet? ensures FieldFoundIff(ops, done, results, i, v) {
      assert Explained(EMPTY, ops, done, held, results, i);
      HGetFindsTheLatestHSet(Executed(ops[..i], done[..i]), ops[i].key, ops[i].field, v);
    }
  }
}
