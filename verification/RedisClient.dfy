/**
 The RESP client composed with the server over one byte stream.

 Every receive may fail and may deliver any part of what is there; a failed send delivers a proper
 prefix.  After each failure the client drops its socket and, with it, the replies not yet read.
 */
module RedisClient {
  import opened Decimal
  import opened Resp
  import opened RedisServer

  /** What `get` found: the two ways of returning, and the exception of `std::stoi`. */
  datatype Answer = Found(value: string) | Miss | Threw

  /** The answer to a value looked up while the connection holds. */
  function AnswerOf(v: Option<string>): Answer {
    if v.None? then Miss else if |v.value| > INT_MAX then Threw else Found(v.value)
  }

  function LengthText(v: Option<string>): string {
    if v.None? then "-1" else PrintNat(|v.value|)
  }

  function Body(v: Option<string>): string {
    if v.None? then "" else v.value + "\r\n"
  }

  /** Both bulk replies of the server have this shape. */
  lemma WireOfBulk(v: Option<string>)
    ensures BulkReply(v) == "$" + (LengthText(v) + "\r\n" + Body(v))
  {
    if v.Some? {
      var n, b := PrintNat(|v.value|), v.value + "\r\n";
      assert "$" + n + "\r\n" + v.value + "\r\n" == "$" + n + "\r\n" + b;
      assert "$" + n + "\r\n" + b == "$" + (n + "\r\n" + b);
    } else {
      assert "$-1\r\n" == "$" + ("-1" + "\r\n" + "");
    }
  }

  /** `std::stoi` on the length line: -1 for the null bulk string, the length, or out of range. */
  lemma LengthLine(v: Option<string>)
    ensures v.None? ==> Stoi(LengthText(v)) == Some(-1)
    ensures v.Some? ==> Stoi(LengthText(v)) == if |v.value| > INT_MAX then None else Some(|v.value|)
  {
    StoiOfPrint(-1);
    assert PrintInt(-1) == "-" + PrintNat(1) == "-1";
    if v.Some? {
      if |v.value| > INT_MAX {
        StoiTooBig(|v.value|);
      } else {
        StoiOfPrint(|v.value|);
      }
    }
  }

  // ---- Reading replies off a stream ----

  /** The position of the first carriage return, or the end. */
  function FirstCR(s: string): (n: nat)
    ensures n <= |s|
  {
    if s == "" || s[0] == '\r' then 0 else 1 + FirstCR(s[1..])
  }

  /** The line in front of a stream and what follows it, if a line feed follows the first carriage return. */
  function LineAt(s: string): Option<(string, string)> {
    var n := FirstCR(s);
    if n + 1 < |s| && s[n + 1] == '\n' then Some((s[..n], s[n + 2..])) else None
  }

  /** What is read behind the type byte of a bulk string, and what is left; None ends the connection. */
  function BulkAt(s: string): Option<(Answer, string)> {
    match LineAt(s)
    case None => None
    case Some((line, rest)) =>
      match Stoi(line)
      case None => Some((Threw, rest))
      case Some(len) =>
        if len < 0 then Some((Miss, rest))
        else if |rest| < len + 2 then None
        else Some((Found(rest[..len]), rest[len + 2..]))
  }

  /** What `get` and `hget` read, whatever the stream holds. */
  function AnswerAt(s: string): Option<(Answer, string)> {
    if s == "" then None
    else if s[0] == '$' then BulkAt(s[1..])
    else
      match LineAt(s[1..])
      case None => None
      case Some((_, rest)) => Some((Miss, rest))
  }

  lemma {:induction false} FirstCROf(line: string, rest: string)
    requires '\r' !in line
    ensures FirstCR(line + "\r\n" + rest) == |line|
  {
    var s := line + "\r\n" + rest;
    if line == "" {
      assert s[0] == '\r';
    } else {
      assert s[1..] == line[1..] + "\r\n" + rest;
      FirstCROf(line[1..], rest);
    }
  }

  lemma LineOf(line: string, rest: string)
    requires '\r' !in line
    ensures LineAt(line + "\r\n" + rest) == Some((line, rest))
  {
    var s := line + "\r\n" + rest;
    FirstCROf(line, rest);
    assert s[..|line|] == line && s[|line| + 2..] == rest && s[|line| + 1] == '\n';
  }

  lemma LineAlone(line: string)
    requires '\r' !in line
    ensures LineAt(line + "\r\n") == Some((line, ""))
  {
    LineOf(line, "");
    assert line + "\r\n" + "" == line + "\r\n";
  }

  /** What a reply leaves unread: nothing, unless its length threw. */
  function Leftover(v: Option<string>): string {
    if AnswerOf(v) == Threw then Body(v) else ""
  }

  lemma NullBulk()
    ensures BulkAt("-1\r\n") == Some((Miss, ""))
  {
    LineAlone("-1");
    assert "-1" + "\r\n" == "-1\r\n";
    LengthLine(None);
  }

  lemma ShortBulk(x: string, rest: string)
    requires |x| <= INT_MAX
    ensures BulkAt(PrintNat(|x|) + "\r\n" + (x + "\r\n" + rest)) == Some((Found(x), rest))
  {
    var body := x + "\r\n" + rest;
    LineOf(PrintNat(|x|), body);
    StoiOfPrint(|x|);
    assert body[..|x|] == x && body[|x| + 2..] == rest;
  }

  lemma LongBulk(x: string)
    requires |x| > INT_MAX
    ensures BulkAt(PrintNat(|x|) + "\r\n" + (x + "\r\n")) == Some((Threw, x + "\r\n"))
  {
    LineOf(PrintNat(|x|), x + "\r\n");
    StoiTooBig(|x|);
  }

  lemma BehindTheType(s: string)
    ensures AnswerAt("$" + s) == BulkAt(s)
  {
    assert ("$" + s)[1..] == s;
  }

  /** A reply to GET or HGET, alone on the stream, is read for what it says. */
  lemma AnswerToBulk(v: Option<string>)
    ensures AnswerAt(BulkReply(v)) == Some((AnswerOf(v), Leftover(v)))
  {
    WireOfBulk(v);
    BehindTheType(LengthText(v) + "\r\n" + Body(v));
    if v.None? {
      NullBulk();
      assert "-1" + "\r\n" + "" == "-1\r\n";
    } else if |v.value| <= INT_MAX {
      ShortBulk(v.value, "");
      assert v.value + "\r\n" + "" == v.value + "\r\n";
    } else {
      LongBulk(v.value);
    }
  }

  /**
   After a length that threw, the value itself is next on the stream: a value that begins like a reply
   decides the answer of the next `get`, whatever that key holds.
   */
  lemma LeftoverIsRead(x: string, padding: string, reply: string)
    requires |x| <= INT_MAX
    ensures AnswerAt(ReplyShaped(x, padding) + "\r\n" + reply) == Some((Found(x), padding + "\r\n" + reply))
  {
    var rest := padding + "\r\n" + reply;
    ReplyShapedIs(x, padding, reply);
    BehindTheType(PrintNat(|x|) + "\r\n" + (x + "\r\n" + rest));
    ShortBulk(x, rest);
  }

  /** A value that begins with a whole bulk reply. */
  function ReplyShaped(x: string, padding: string): string {
    Bulk(x) + padding
  }

  lemma ReplyShapedIs(x: string, padding: string, reply: string)
    ensures ReplyShaped(x, padding) + "\r\n" + reply ==
            "$" + (PrintNat(|x|) + "\r\n" + (x + "\r\n" + (padding + "\r\n" + reply)))
  {
    var n, p := PrintNat(|x|), padding + "\r\n" + reply;
    Regroup(Bulk(x), padding, "\r\n");
    Regroup(Bulk(x), padding + "\r\n", reply);
    Regroup("$" + n + "\r\n", x, "\r\n");
    Regroup("$" + n + "\r\n", x + "\r\n", p);
    Regroup("$", n, "\r\n");
    Regroup("$", n + "\r\n", x + "\r\n" + p);
  }

  /** The server finds a command in what was sent exactly when all of it was sent. */
  lemma Transmitted(args: seq<string>, sent: nat)
    requires args != [] && sent <= |Format(args)|
    ensures var r := ParseRequest(Format(args)[..sent]).0;
            r.Args? == (sent == |Format(args)|) && (r.Args? ==> r.args == args)
  {
    var wire := Format(args);
    if sent == |wire| {
      assert wire[..sent] == wire == wire + "";
      RequestRoundTrip(args, "");
    } else {
      CutRequest(args, wire[..sent]);
    }
  }

  class Connection {
    var connected: bool
    var inbox: string      // replies written by the server on this socket and not yet received
    const server: Server
    ghost var sent: seq<string>   // the latest command that was sent whole

    constructor (server: Server)
      ensures this.server == server && !connected && inbox == ""
    {
      this.server := server;
      connected, inbox, sent := false, "", [];
    }

    /** The bytes the next read would see first. */
    function Pending(): string
      reads this
    {
      if connected then inbox else ""
    }

    /** No reply is waiting: the next reply read belongs to the next command. */
    predicate Synced()
      reads this
    {
      Pending() == ""
    }

    method Connect() returns (ok: bool)
      modifies this
      ensures ok == connected
      ensures old(connected) ==> connected
      ensures Pending() == old(Pending()) && sent == old(sent)
    {
      if !connected {
        connected, inbox := *, "";
      }
      return connected;
    }

    method Disconnect()
      modifies this
      ensures !connected && sent == old(sent)
    {
      connected, inbox := false, "";
    }

    /** One `recv`: nothing on failure, timeout or an empty stream, else some of the bytes, at most `max`. */
    method Recv(max: nat) returns (bytes: string)
      requires max > 0
      modifies this`inbox
      ensures |bytes| <= max && old(inbox) == bytes + inbox
    {
      var r: nat :| r <= max && r <= |inbox|;
      bytes := inbox[..r];
      inbox := inbox[r..];
    }

    /** The server's side of a send: the command is executed and answered if all of it was taken. */
    method Deliver(args: seq<string>, wire: string, sent: nat)
      requires args != [] && wire == Format(args) && sent <= |wire|
      modifies this`inbox, server
      ensures sent == |wire| ==> server.Contents() == Execute(old(server.Contents()), args).0
      ensures sent == |wire| ==> inbox == old(inbox) + Execute(old(server.Contents()), args).1
      ensures sent < |wire| ==> server.Contents() == old(server.Contents())
    {
      Transmitted(args, sent);
      var reply := server.Serve(wire[..sent]);
      inbox := inbox + reply;
    }

    /** True exactly when the whole command was taken by the socket; then it was executed and answered. */
    method SendCommand(args: seq<string>) returns (ok: bool)
      requires args != []
      modifies this, server
      ensures ok == connected
      ensures ok ==> server.Contents() == Execute(old(server.Contents()), args).0
      ensures ok ==> inbox == old(Pending()) + Execute(old(server.Contents()), args).1
      ensures sent == if ok then args else old(sent)
      ensures !ok ==> server.Contents() == old(server.Contents())
    {
      var up := Connect();
      if !up {
        return false;
      }
      var wire := BuildCommand(args);
      var taken: nat :| taken <= |wire|;
      Deliver(args, wire, taken);
      if taken != |wire| {
        Disconnect();
        return false;
      }
      sent := args;
      return true;
    }

    /** Up to a carriage return and line feed; anything else ends the connection. */
    method ReadLine() returns (ok: bool, line: string)
      requires connected
      modifies this
      ensures ok == connected
      ensures ok ==> LineAt(old(inbox)) == Some((line, inbox))
      ensures sent == old(sent)
    {
      line := "";
      while true
        invariant connected && old(inbox) == line + inbox
        invariant FirstCR(old(inbox)) == |line| + FirstCR(inbox) && sent == old(sent)
        decreases |inbox|
      {
        ghost var before := inbox;
        var c := Recv(1);
        if c == "" {
          Disconnect();
          return false, line;
        }
        assert before[0] == c[0] && before[1..] == inbox;
        if c == "\r" {
          var next := Recv(1);
          if next != "\n" {
            Disconnect();
            return false, line;
          }
          assert old(inbox) == line + "\r\n" + inbox;
          return true, line;
        }
        line := line + c;
      }
    }

    /** The bulk string behind the type byte, whatever is there. */
    method ReadBulkString() returns (r: Answer)
      requires connected
      modifies this
      ensures connected ==> BulkAt(old(inbox)) == Some((r, inbox))
      ensures sent == old(sent)
      ensures !connected ==> r == Miss
    {
      var ok, lenStr := ReadLine();
      if !ok {
        return Miss;
      }
      var len := Stoi(lenStr);
      if len == None {
        return Threw;
      }
      if len.value < 0 {
        return Miss;
      }
      r := ReadBody(len.value);
    }

    method ReadBody(len: nat) returns (r: Answer)
      requires connected
      modifies this
      ensures connected ==> |old(inbox)| >= len + 2
      ensures sent == old(sent)
      ensures connected ==> r == Found(old(inbox)[..len]) && inbox == old(inbox)[len + 2..]
      ensures !connected ==> r == Miss
    {
      var out := "";
      while |out| < len
        invariant connected && |out| <= len && out + inbox == old(inbox) && sent == old(sent)
        decreases |inbox|
      {
        var bytes := Recv(len - |out|);
        if bytes == "" {
          Disconnect();
          return Miss;
        }
        out := out + bytes;
      }
      var crlf := Recv(2);
      if |crlf| != 2 {
        Disconnect();
        return Miss;
      }
      return Found(out);
    }

    /** The reply to GET and HGET, whatever its type. */
    method ReadAnswer() returns (r: Answer)
      requires connected
      modifies this
      ensures connected ==> AnswerAt(old(inbox)) == Some((r, inbox))
      ensures sent == old(sent)
      ensures !connected ==> r == Miss
    {
      var t := Recv(1);
      if t == "" {
        Disconnect();
        return Miss;
      }
      assert old(inbox)[0] == t[0] && old(inbox)[1..] == inbox;
      if t == "$" {
        r := ReadBulkString();
        return;
      }
      var ok, line := ReadLine();
      return Miss;
    }

    /** The reply for `v`, behind what was unread before. */
    method ReadReply(ghost pending: string, ghost v: Option<string>) returns (r: Answer)
      requires connected && inbox == pending + BulkReply(v)
      modifies this
      ensures connected ==> AnswerAt(pending + BulkReply(v)) == Some((r, inbox))
      ensures sent == old(sent)
      ensures !connected ==> r == Miss
      ensures pending == "" && connected ==> r == AnswerOf(v) && inbox == Leftover(v)
      ensures pending == "" ==> (r != Threw <==> Synced())
    {
      AnswerToBulk(v);
      assert pending == "" ==> inbox == BulkReply(v);
      r := ReadAnswer();
    }

    // ---- The calls ----

    method Ping() returns (ok: bool)
      modifies this, server
      ensures connected ==> sent == ["PING"]
      ensures server.Contents() == old(server.Contents())
      ensures connected ==> LineAt(old(Pending()) + "+PONG\r\n").Some?
      ensures connected ==> ok == (LineAt(old(Pending()) + "+PONG\r\n").value.0 in ["+PONG", "PONG"])
      ensures connected ==> inbox == LineAt(old(Pending()) + "+PONG\r\n").value.1
      ensures !connected ==> !ok
      ensures old(Synced()) ==> Synced() && ok == connected
    {
      ok := SendCommand(["PING"]);
      if !ok {
        return;
      }
      ExecuteOp(old(server.Contents()), OpPing);
      SimpleReply(OpPing, old(server.Contents()));
      var read, line := ReadLine();
      return read && (line == "+PONG" || line == "PONG");
    }

    /** On failure the write may or may not have happened. */
    method Set(key: string, value: string, expireSeconds: int) returns (ok: bool)
      modifies this, server
      ensures connected ==>
        sent == ["SET", key, value] + if expireSeconds > 0 then ["EX", PrintInt(expireSeconds)] else []
      ensures connected ==> server.kv == old(server.kv)[key := value]
      ensures server.kv == old(server.kv) || server.kv == old(server.kv)[key := value]
      ensures server.hashes == old(server.hashes)
      ensures connected ==> LineAt(old(Pending()) + "+OK\r\n").Some?
      ensures connected ==> ok == (LineAt(old(Pending()) + "+OK\r\n").value.0 in ["+OK", "OK"])
      ensures connected ==> inbox == LineAt(old(Pending()) + "+OK\r\n").value.1
      ensures !connected ==> !ok
      ensures old(Synced()) ==> Synced() && ok == connected
    {
      var args := ["SET", key, value];
      if expireSeconds > 0 {
        args := args + ["EX"] + [PrintNat(expireSeconds)];
      }
      assert args == ArgsOf(OpSet(key, value, expireSeconds));
      ok := SendCommand(args);
      if !ok {
        return;
      }
      ExecuteOp(old(server.Contents()), OpSet(key, value, expireSeconds));
      SimpleReply(OpSet(key, value, expireSeconds), old(server.Contents()));
      var read, line := ReadLine();
      return read && (line == "+OK" || line == "OK");
    }

    method Get(key: string) returns (r: Answer)
      modifies this, server
      ensures connected ==> sent == ["GET", key]
      ensures old(Synced()) && connected ==>
        (r == Threw <==> key in server.kv && |server.kv[key]| > 0x7FFF_FFFF)
      ensures server.Contents() == old(server.Contents())
      ensures connected ==> AnswerAt(old(Pending()) + BulkReply(Lookup(server.Contents(), key))) == Some((r, inbox))
      ensures !connected ==> r == Miss
      ensures old(Synced()) && connected ==> r == AnswerOf(Lookup(server.Contents(), key))
      ensures old(Synced()) && connected ==> inbox == Leftover(Lookup(server.Contents(), key))
      ensures old(Synced()) ==> (r != Threw <==> Synced())
    {
      var ok := SendCommand(["GET", key]);
      if !ok {
        return Miss;
      }
      ExecuteOp(old(server.Contents()), OpGet(key));
      r := ReadReply(old(Pending()), Lookup(old(server.Contents()), key));
    }

    method Del(key: string) returns (ok: bool)
      modifies this, server
      ensures connected ==> sent == ["DEL", key]
      ensures connected ==> server.kv == old(server.kv) - {key}
      ensures server.kv == old(server.kv) || server.kv == old(server.kv) - {key}
      ensures server.hashes == old(server.hashes)
      ensures ok == connected
      ensures ok ==> var reply := ReplyOf(old(server.Contents()), OpDel(key));
        LineAt(old(Pending()) + reply).Some? && inbox == LineAt(old(Pending()) + reply).value.1
      ensures old(Synced()) ==> Synced()
    {
      ok := SendCommand(["DEL", key]);
      if !ok {
        return;
      }
      ExecuteOp(old(server.Contents()), OpDel(key));
      SimpleReply(OpDel(key), old(server.Contents()));
      var line;
      ok, line := ReadLine();
    }

    method HSet(key: string, field: string, value: string) returns (ok: bool)
      modifies this, server
      ensures connected ==> sent == ["HSET", key, field, value]
      ensures connected ==> server.Contents() == SetField(old(server.Contents()), key, field, value)
      ensures server.Contents() == old(server.Contents())
           || server.Contents() == SetField(old(server.Contents()), key, field, value)
      ensures ok == connected
      ensures ok ==> LineAt(old(Pending()) + ":1\r\n").Some? && inbox == LineAt(old(Pending()) + ":1\r\n").value.1
      ensures old(Synced()) ==> Synced()
    {
      ok := SendCommand(["HSET", key, field, value]);
      if !ok {
        return;
      }
      ExecuteOp(old(server.Contents()), OpHSet(key, field, value));
      SimpleReply(OpHSet(key, field, value), old(server.Contents()));
      var line;
      ok, line := ReadLine();
    }

    method HGet(key: string, field: string) returns (r: Answer)
      modifies this, server
      ensures connected ==> sent == ["HGET", key, field]
      ensures server.Contents() == old(server.Contents())
      ensures connected ==>
        AnswerAt(old(Pending()) + BulkReply(Field(server.Contents(), key, field))) == Some((r, inbox))
      ensures !connected ==> r == Miss
      ensures old(Synced()) && connected ==> r == AnswerOf(Field(server.Contents(), key, field))
      ensures old(Synced()) && connected ==> inbox == Leftover(Field(server.Contents(), key, field))
      ensures old(Synced()) ==> (r != Threw <==> Synced())
    {
      var ok := SendCommand(["HGET", key, field]);
      if !ok {
        return Miss;
      }
      ExecuteOp(old(server.Contents()), OpHGet(key, field));
      r := ReadReply(old(Pending()), Field(old(server.Contents()), key, field));
    }
  }

  /**
   A `get` that threw leaves the connection up with the value still to be read, and the next `get` reads
   that: of a value that begins with a bulk reply, it finds what that says, under any key.
   */
  method GetAfterThrow(conn: Connection, key: string, other: string, x: string, padding: string)
    returns (first: Answer, second: Answer)
    requires conn.Synced() && Lookup(conn.server.Contents(), key) == Some(ReplyShaped(x, padding))
    requires |x| <= INT_MAX < |ReplyShaped(x, padding)|
    modifies conn, conn.server
    ensures conn.server.Contents() == old(conn.server.Contents())
    ensures first == Threw || first == Miss
    ensures first == Threw && conn.connected ==> second == Found(x)
  {
    first := conn.Get(key);
    ghost var reply := BulkReply(Lookup(conn.server.Contents(), other));
    LeftoverIsRead(x, padding, reply);
    second := conn.Get(other);
  }

  // ---- What the calls mean ----

  datatype Op =
    | OpPing
    | OpSet(key: string, value: string, expire: int)
    | OpGet(key: string)
    | OpDel(key: string)
    | OpHSet(key: string, field: string, value: string)
    | OpHGet(key: string, field: string)

  /** The arguments a call sends. */
  function ArgsOf(op: Op): (args: seq<string>)
    ensures args != []
  {
    match op
    case OpPing => ["PING"]
    case OpSet(k, v, e) => ["SET", k, v] + if e > 0 then ["EX", PrintNat(e)] else []
    case OpGet(k) => ["GET", k]
    case OpDel(k) => ["DEL", k]
    case OpHSet(k, f, v) => ["HSET", k, f, v]
    case OpHGet(k, f) => ["HGET", k, f]
  }

  /** What a call does to the dictionaries. */
  function Effect(db: Db, op: Op): Db {
    match op
    case OpSet(k, v, _) => db.(kv := db.kv[k := v])
    case OpDel(k) => db.(kv := db.kv - {k})
    case OpHSet(k, f, v) => SetField(db, k, f, v)
    case _ => db
  }

  function ReplyOf(db: Db, op: Op): string {
    match op
    case OpPing => "+PONG\r\n"
    case OpSet(_, _, _) => "+OK\r\n"
    case OpGet(k) => BulkReply(Lookup(db, k))
    case OpDel(k) => ":" + PrintNat(DelCount(db.kv, [k])) + "\r\n"
    case OpHSet(_, _, _) => ":1\r\n"
    case OpHGet(k, f) => BulkReply(Field(db, k, f))
  }

  /** The reply of every call but GET and HGET is one line. */
  lemma SimpleReply(op: Op, db: Db)
    requires !op.OpGet? && !op.OpHGet?
    ensures LineAt(ReplyOf(db, op)).Some? && LineAt(ReplyOf(db, op)).value.1 == ""
    ensures "" + ReplyOf(db, op) == ReplyOf(db, op)
    ensures op.OpPing? ==> LineAt(ReplyOf(db, op)).value.0 == "+PONG"
    ensures op.OpSet? ==> LineAt(ReplyOf(db, op)).value.0 == "+OK"
  {
    match op {
      case OpPing =>
        LineAlone("+PONG");
        assert "+PONG" + "\r\n" == "+PONG\r\n";
      case OpSet(_, _, _) =>
        LineAlone("+OK");
        assert "+OK" + "\r\n" == "+OK\r\n";
      case OpDel(k) => LineAlone(":" + PrintNat(DelCount(db.kv, [k])));
      case OpHSet(_, _, _) =>
        LineAlone(":1");
        assert ":1" + "\r\n" == ":1\r\n";
    }
  }

  lemma Commands()
    ensures Upper("PING") == "PING" && Upper("SET") == "SET" && Upper("GET") == "GET"
    ensures Upper("DEL") == "DEL" && Upper("HSET") == "HSET" && Upper("HGET") == "HGET"
    ensures Upper("set") == "SET" && Upper("Get") == "GET"
  {
  }

  /** The server carries out what the client meant, whatever bytes the keys and values hold. */
  lemma ExecuteOp(db: Db, op: Op)
    ensures Execute(db, ArgsOf(op)) == (Effect(db, op), ReplyOf(db, op))
  {
    Commands();
    if op.OpDel? {
      assert ArgsOf(op)[1..] == [op.key];
      assert Keys([op.key]) == {op.key};
    }
  }
}
