/** The RESP server of the repository: its two dictionaries and the commands on them. */
module RedisServer {
  import opened Decimal
  import opened Resp

  datatype Db = Db(kv: map<string, string>, hashes: map<string, map<string, string>>)

  const EMPTY: Db := Db(map[], map[])

  function Upper(s: string): string {
    seq(|s|, i requires 0 <= i < |s| => if 'a' <= s[i] <= 'z' then s[i] - 'a' + 'A' else s[i])
  }

  function Bulk(v: string): string {
    "$" + PrintNat(|v|) + "\r\n" + v + "\r\n"
  }

  const NULL_BULK: string := "$-1\r\n"

  function Field(db: Db, key: string, field: string): Option<string> {
    if key in db.hashes && field in db.hashes[key] then Some(db.hashes[key][field]) else None
  }

  function Lookup(db: Db, key: string): Option<string> {
    if key in db.kv then Some(db.kv[key]) else None
  }

  function BulkReply(v: Option<string>): string {
    match v
    case None => NULL_BULK
    case Some(x) => Bulk(x)
  }

  function SetField(db: Db, key: string, field: string, v: string): Db {
    var hash := if key in db.hashes then db.hashes[key] else map[];
    db.(hashes := db.hashes[key := hash[field := v]])
  }

  /** Keys popped one after the other; a key given twice counts once. */
  function DelCount(kv: map<string, string>, keys: seq<string>): nat {
    if keys == [] then 0
    else (if keys[0] in kv then 1 else 0) + DelCount(kv - {keys[0]}, keys[1..])
  }

  function Keys(keys: seq<string>): set<string> {
    set k | k in keys
  }

  /** What a command does to the dictionaries and what is answered. */
  function Execute(db: Db, args: seq<string>): (Db, string) {
    if args == [] then (db, "-ERR empty command\r\n")
    else
      var cmd := Upper(args[0]);
      if cmd == "PING" then (db, "+PONG\r\n")
      else if cmd == "SET" then
        if |args| < 3 then (db, "-ERR wrong number of arguments for 'set' command\r\n")
        else (db.(kv := db.kv[args[1] := args[2]]), "+OK\r\n")
      else if cmd == "GET" then
        if |args| < 2 then (db, "-ERR wrong number of arguments for 'get' command\r\n")
        else (db, BulkReply(Lookup(db, args[1])))
      else if cmd == "DEL" then
        (db.(kv := db.kv - Keys(args[1..])), ":" + PrintNat(DelCount(db.kv, args[1..])) + "\r\n")
      else if cmd == "HSET" then
        if |args| < 4 then (db, "-ERR wrong number of arguments for 'hset' command\r\n")
        else (SetField(db, args[1], args[2], args[3]), ":1\r\n")
      else if cmd == "HGET" then
        if |args| < 3 then (db, "-ERR wrong number of arguments for 'hget' command\r\n")
        else (db, BulkReply(Field(db, args[1], args[2])))
      else if cmd == "FLUSHALL" then (EMPTY, "+OK\r\n")
      else (db, "+OK\r\n")
  }

  lemma KeysCons(keys: seq<string>)
    requires keys != []
    ensures Keys(keys) == {keys[0]} + Keys(keys[1..])
  {
    assert keys == [keys[0]] + keys[1..];
  }

  /** DEL answers how many distinct given keys were present. */
  lemma {:induction false} DelCountsPresentKeys(kv: map<string, string>, keys: seq<string>)
    ensures DelCount(kv, keys) == |kv.Keys * Keys(keys)|
  {
    if keys == [] {
      assert kv.Keys * Keys(keys) == {};
    } else {
      var k, less := keys[0], kv - {keys[0]};
      KeysCons(keys);
      DelCountsPresentKeys(less, keys[1..]);
      var rest := less.Keys * Keys(keys[1..]);
      if k in kv {
        assert kv.Keys * Keys(keys) == rest + {k};
      } else {
        assert kv.Keys * Keys(keys) == rest;
      }
    }
  }

  /** What the commands on strings leave, in `t`, and answer. */
  ghost predicate StringsCarriedOut(db: Db, cmd: string, args: seq<string>, t: Db, resp: string)
    requires args != []
  {
    && (cmd == "PING" ==> t == db && resp == "+PONG\r\n")
    && (cmd == "SET" ==>
          if |args| >= 3 then t == Db(db.kv[args[1] := args[2]], db.hashes) && resp == "+OK\r\n"
          else t == db && resp == "-ERR wrong number of arguments for 'set' command\r\n")
    && (cmd == "GET" ==>
          t == db && resp ==
          if |args| < 2 then "-ERR wrong number of arguments for 'get' command\r\n"
          else if args[1] in db.kv then "$" + PrintNat(|db.kv[args[1]]|) + "\r\n" + db.kv[args[1]] + "\r\n"
          else "$-1\r\n")
    && (cmd == "DEL" ==>
          && t.hashes == db.hashes && (forall k :: k in t.kv <==> k in db.kv && k !in args[1..])
          && (forall k :: k in t.kv ==> t.kv[k] == db.kv[k])
          && resp == ":" + PrintNat(|set k | k in db.kv && k in args[1..]|) + "\r\n")
  }

  /** What the commands on hashes leave and answer, and all the others. */
  ghost predicate HashesCarriedOut(db: Db, cmd: string, args: seq<string>, t: Db, resp: string)
    requires args != []
  {
    && (cmd == "HSET" ==>
          if |args| >= 4 then
            var hash := if args[1] in db.hashes then db.hashes[args[1]] else map[];
            t == Db(db.kv, db.hashes[args[1] := hash[args[2] := args[3]]]) && resp == ":1\r\n"
          else t == db && resp == "-ERR wrong number of arguments for 'hset' command\r\n")
    && (cmd == "HGET" ==>
          t == db && resp ==
          if |args| < 3 then "-ERR wrong number of arguments for 'hget' command\r\n"
          else if args[1] in db.hashes && args[2] in db.hashes[args[1]] then
            var v := db.hashes[args[1]][args[2]]; "$" + PrintNat(|v|) + "\r\n" + v + "\r\n"
          else "$-1\r\n")
    && (cmd == "FLUSHALL" ==> t == Db(map[], map[]) && resp == "+OK\r\n")
    && (cmd !in ["PING", "SET", "GET", "DEL", "HSET", "HGET", "FLUSHALL"] ==> t == db && resp == "+OK\r\n")
  }

  lemma DelCarriedOut(db: Db, keys: seq<string>)
    ensures DelCount(db.kv, keys) == |set k | k in db.kv && k in keys|
    ensures forall k :: k in db.kv - Keys(keys) <==> k in db.kv && k !in keys
  {
    DelCountsPresentKeys(db.kv, keys);
    assert (set k | k in db.kv && k in keys) == db.kv.Keys * Keys(keys);
  }

  lemma StringsAreCarriedOut(db: Db, args: seq<string>)
    requires args != []
    ensures StringsCarriedOut(db, Upper(args[0]), args, Execute(db, args).0, Execute(db, args).1)
  {
    DelCarriedOut(db, args[1..]);
  }

  lemma HashesAreCarriedOut(db: Db, args: seq<string>)
    requires args != []
    ensures HashesCarriedOut(db, Upper(args[0]), args, Execute(db, args).0, Execute(db, args).1)
  {
  }

  /** Every command, in any case of letters and with any number of arguments. */
  lemma CommandsAreCarriedOut(db: Db, args: seq<string>)
    ensures var (t, resp) := Execute(db, args);
      if args == [] then t == db && resp == "-ERR empty command\r\n"
      else StringsCarriedOut(db, Upper(args[0]), args, t, resp) && HashesCarriedOut(db, Upper(args[0]), args, t, resp)
  {
    if args != [] {
      StringsAreCarriedOut(db, args);
      HashesAreCarriedOut(db, args);
    }
  }

  class Server {
    var kv: map<string, string>
    var hashes: map<string, map<string, string>>

    function Contents(): Db
      reads this
    {
      Db(kv, hashes)
    }

    constructor ()
      ensures Contents() == EMPTY
    {
      kv, hashes := map[], map[];
    }

    method HandleCommand(args: seq<string>) returns (resp: string)
      modifies this
      ensures (Contents(), resp) == Execute(old(Contents()), args)
    {
      if args == [] {
        return "-ERR empty command\r\n";
      }
      var cmd := Upper(args[0]);
      if cmd == "PING" {
        return "+PONG\r\n";
      } else if cmd == "SET" {
        if |args| < 3 {
          return "-ERR wrong number of arguments for 'set' command\r\n";
        }
        kv := kv[args[1] := args[2]];
        return "+OK\r\n";
      } else if cmd == "GET" {
        if |args| < 2 {
          return "-ERR wrong number of arguments for 'get' command\r\n";
        }
        if args[1] !in kv {
          return "$-1\r\n";
        }
        return "$" + PrintNat(|kv[args[1]]|) + "\r\n" + kv[args[1]] + "\r\n";
      } else if cmd == "DEL" {
        var count := Pop(args[1..]);
        return ":" + PrintNat(count) + "\r\n";
      } else if cmd == "HSET" {
        if |args| < 4 {
          return "-ERR wrong number of arguments for 'hset' command\r\n";
        }
        var key := args[1];
        if key !in hashes {
          hashes := hashes[key := map[]];
        }
        hashes := hashes[key := hashes[key][args[2] := args[3]]];
        assert hashes == SetField(old(Contents()), args[1], args[2], args[3]).hashes;
        return ":1\r\n";
      } else if cmd == "HGET" {
        if |args| < 3 {
          return "-ERR wrong number of arguments for 'hget' command\r\n";
        }
        if args[1] !in hashes || args[2] !in hashes[args[1]] {
          return "$-1\r\n";
        }
        var val := hashes[args[1]][args[2]];
        return "$" + PrintNat(|val|) + "\r\n" + val + "\r\n";
      } else if cmd == "FLUSHALL" {
        kv, hashes := map[], map[];
        return "+OK\r\n";
      }
      return "+OK\r\n";
    }

    /** The loop of DEL. */
    method Pop(keys: seq<string>) returns (count: nat)
      modifies this`kv
      ensures kv == old(kv) - Keys(keys)
      ensures count == DelCount(old(kv), keys)
    {
      count := 0;
      assert keys[0..] == keys;
      for i := 0 to |keys|
        invariant kv == old(kv) - Keys(keys[..i])
        invariant count + DelCount(kv, keys[i..]) == DelCount(old(kv), keys)
      {
        assert keys[..i + 1] == keys[..i] + [keys[i]];
        assert keys[i..][1..] == keys[i + 1..];
        if keys[i] in kv {
          count := count + 1;
        }
        kv := kv - {keys[i]};
      }
      assert keys[..|keys|] == keys;
    }

    /** One round of `handle_client`: what parses is executed and answered, on anything else the server hangs up. */
    method Serve(input: string) returns (reply: string)
      modifies this
      ensures ParseRequest(input).0.Args? ==>
                (Contents(), reply) == Execute(old(Contents()), ParseRequest(input).0.args)
      ensures NotExecuted(ParseRequest(input).0) ==> Contents() == old(Contents()) && reply == ""
    {
      var reader := new Reader(input);
      var r := ParseResp(reader);
      if !r.Args? {
        return "";
      }
      reply := HandleCommand(r.args);
    }
  }
}
