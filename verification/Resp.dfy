/**
 RESP requests: how the client prints a command and how the server parses it (RESP2, sections
 "Arrays" and "Bulk strings").  Bytes are characters here, so that the protocol's constants can be
 written as strings; nothing depends on how many characters there are.
 */
module Resp {
  import opened Decimal

  // ---- Printing a command ----

  function FormatArg(a: string): string {
    "$" + PrintNat(|a|) + "\r\n" + a + "\r\n"
  }

  function FormatArgs(args: seq<string>): string {
    if args == [] then "" else FormatArg(args[0]) + FormatArgs(args[1..])
  }

  function Format(args: seq<string>): string {
    "*" + PrintNat(|args|) + "\r\n" + FormatArgs(args)
  }

  /** `ss << ...` argument by argument. */
  method BuildCommand(args: seq<string>) returns (wire: string)
    ensures wire == Format(args)
  {
    wire := "*" + PrintNat(|args|) + "\r\n";
    for i := 0 to |args|
      invariant wire + FormatArgs(args[i..]) == Format(args)
    {
      assert args[i..][1..] == args[i + 1..];
      Regroup(wire, FormatArg(args[i]), FormatArgs(args[i + 1..]));
      RegroupArg(wire, args[i]);
      wire := wire + "$" + PrintNat(|args[i]|) + "\r\n" + args[i] + "\r\n";
    }
    assert wire + "" == wire;
  }

  lemma Regroup(x: string, y: string, z: string)
    ensures x + (y + z) == x + y + z
  {
  }

  lemma RegroupArg(wire: string, a: string)
    ensures wire + FormatArg(a) == wire + "$" + PrintNat(|a|) + "\r\n" + a + "\r\n"
  {
    var n := PrintNat(|a|);
    Regroup(wire, "$", n);
    Regroup(wire, "$" + n, "\r\n");
    Regroup(wire, "$" + n + "\r\n", a);
    Regroup(wire, "$" + n + "\r\n" + a, "\r\n");
  }

  /** The wire text of a command, spelled out: the number of arguments, then each behind its length. */
  lemma WireText(a: string, b: string)
    ensures Format([a, b]) ==
      "*2\r\n" + ("$" + PrintNat(|a|) + "\r\n" + a + "\r\n") + ("$" + PrintNat(|b|) + "\r\n" + b + "\r\n")
  {
    LastArg(b);
    assert [a, b][1..] == [b];
    assert PrintNat(2) == "2";
    assert "*" + "2" + "\r\n" == "*2\r\n";
    Regroup("*2\r\n", FormatArg(a), FormatArg(b));
  }

  lemma LastArg(b: string)
    ensures FormatArgs([b]) == FormatArg(b)
  {
    assert [b][1..] == [];
    assert FormatArg(b) + "" == FormatArg(b);
  }

  // ---- Parsing a command ----

  /** The position behind the first line feed, or the end. */
  function LineEnd(s: string): (n: nat)
    ensures n <= |s|
  {
    if s == "" then 0 else if s[0] == '\n' then 1 else 1 + LineEnd(s[1..])
  }

  datatype Request =
    | Args(args: seq<string>)
    | Closed               // the parser returned None
    | Broken               // a value error or an incomplete read

  /** What `data[:-2]` keeps. */
  function DropTwo(data: string): string {
    data[..if |data| < 2 then 0 else |data| - 2]
  }

  /** The next argument, and the stream behind it. */
  function ParseArg(s: string): (Request, string) {
    var line, rest := s[..LineEnd(s)], s[LineEnd(s)..];
    if line == "" || line[0] != '$' then (Closed, rest)
    else
      match PyInt(line[1..])
      case None => (Broken, rest)
      case Some(n) =>
        if n + 2 < 0 || n + 2 > |rest| then (Broken, rest)
        else (Args([DropTwo(rest[..n + 2])]), rest[n + 2..])
  }

  function Prepend(args: seq<string>, r: (Request, string)): (Request, string) {
    if r.0.Args? then (Args(args + r.0.args), r.1) else r
  }

  function ParseArgs(s: string, count: nat): (Request, string)
    decreases count
  {
    if count == 0 then (Args([]), s)
    else
      var (first, rest) := ParseArg(s);
      if first.Args? then Prepend(first.args, ParseArgs(rest, count - 1)) else (first, rest)
  }

  function WordEnd(s: string): (n: nat)
    ensures n <= |s|
  {
    if s == "" || IsSpace(s[0]) then 0 else 1 + WordEnd(s[1..])
  }

  /** Python's `line.strip().split()`. */
  function Words(s: string): seq<string>
    decreases |s|
  {
    if s == "" then []
    else if IsSpace(s[0]) then Words(s[1..])
    else [s[..WordEnd(s)]] + Words(s[WordEnd(s)..])
  }

  function ParseRequest(s: string): (Request, string) {
    var header, rest := s[..LineEnd(s)], s[LineEnd(s)..];
    if header == "" then (Closed, rest)
    else if header[0] != '*' then (Args(Words(header)), rest)
    else
      match PyInt(header[1..])
      case None => (Broken, rest)
      case Some(n) => ParseArgs(rest, if n < 0 then 0 else n)
  }

  // ---- The parser itself ----

  /** An asyncio stream that has reached its end, with the bytes not yet read. */
  class Reader {
    var data: string

    constructor (data: string)
      ensures this.data == data
    {
      this.data := data;
    }

    method ReadLine() returns (line: string)
      modifies this
      ensures line == old(data)[..LineEnd(old(data))] && data == old(data)[LineEnd(old(data))..]
    {
      var n := 0;
      while n < |data| && (n == 0 || data[n - 1] != '\n')
        invariant 0 <= n <= |data| && data == old(data)
        invariant n == 0 || data[n - 1] != '\n' ==> LineEnd(data) == n + LineEnd(data[n..])
        invariant n > 0 && data[n - 1] == '\n' ==> LineEnd(data) == n
      {
        assert data[n..][1..] == data[n + 1..];
        n := n + 1;
      }
      line := data[..n];
      data := data[n..];
    }

    /** None is the exception: a negative size or an incomplete read. */
    method ReadExactly(n: int) returns (r: Option<string>)
      modifies this
      ensures r == if 0 <= n <= |old(data)| then Some(old(data)[..n]) else None
      ensures data == if r.Some? then old(data)[n..] else old(data)
    {
      if n < 0 || n > |data| {
        return None;
      }
      r := Some(data[..n]);
      data := data[n..];
    }
  }

  /** One round of the parser's loop. */
  method ReadArg(reader: Reader) returns (r: Request)
    modifies reader
    ensures (r, reader.data) == ParseArg(old(reader.data))
  {
    var lenLine := reader.ReadLine();
    if lenLine == "" || lenLine[0] != '$' {
      return Closed;
    }
    var len := PyInt(lenLine[1..]);
    if len == None {
      return Broken;
    }
    var data := reader.ReadExactly(len.value + 2);
    if data == None {
      return Broken;
    }
    return Args([DropTwo(data.value)]);
  }

  method ReadArgs(reader: Reader, n: nat) returns (r: Request)
    modifies reader
    ensures (r, reader.data) == ParseArgs(old(reader.data), n)
  {
    var args: seq<string> := [];
    PrependNothing(ParseArgs(reader.data, n));
    for i := 0 to n
      invariant ParseArgs(old(reader.data), n) == Prepend(args, ParseArgs(reader.data, n - i))
    {
      ghost var before := reader.data;
      var arg := ReadArg(reader);
      if !arg.Args? {
        return arg;
      }
      PrependTwice(args, arg.args, ParseArgs(reader.data, n - i - 1));
      args := args + arg.args;
    }
    assert args + [] == args;
    return Args(args);
  }

  method ParseResp(reader: Reader) returns (r: Request)
    modifies reader
    ensures (r, reader.data) == ParseRequest(old(reader.data))
  {
    var header := reader.ReadLine();
    if header == "" {
      return Closed;
    }
    if header[0] != '*' {
      return Args(Words(header));
    }
    var count := PyInt(header[1..]);
    if count == None {
      return Broken;
    }
    r := ReadArgs(reader, if count.value < 0 then 0 else count.value);
  }

  lemma PrependNothing(r: (Request, string))
    ensures Prepend([], r) == r
  {
    if r.0.Args? {
      assert [] + r.0.args == r.0.args;
    }
  }

  lemma PrependTwice(a: seq<string>, b: seq<string>, r: (Request, string))
    ensures Prepend(a, Prepend(b, r)) == Prepend(a + b, r)
  {
    if r.0.Args? {
      assert a + (b + r.0.args) == a + b + r.0.args;
    }
  }

  // ---- Round trip ----

  /** A number line: digits, carriage return, line feed. */
  lemma {:induction false} LineEndOf(p: string, rest: string)
    requires forall i :: 0 <= i < |p| ==> p[i] != '\n'
    ensures LineEnd(p + "\n" + rest) == |p| + 1
  {
    if p == "" {
      assert p + "\n" + rest == "\n" + rest;
    } else {
      assert (p + "\n" + rest)[1..] == p[1..] + "\n" + rest;
      LineEndOf(p[1..], rest);
    }
  }

  /** A line `c<n>\r\n` is read whole, and its number is n. */
  lemma NumberLine(c: char, n: nat, rest: string)
    requires c != '\n'
    ensures var s := [c] + PrintNat(n) + "\r\n" + rest;
            && LineEnd(s) == |PrintNat(n)| + 3
            && s[..LineEnd(s)] == [c] + PrintNat(n) + "\r\n"
            && s[LineEnd(s)..] == rest
            && s[..LineEnd(s)][1..] == PrintNat(n) + "\r\n"
            && PyInt(s[..LineEnd(s)][1..]) == Some(n)
  {
    var s := [c] + PrintNat(n) + "\r\n" + rest;
    var p := [c] + PrintNat(n) + "\r";
    assert s == p + "\n" + rest;
    LineEndOf(p, rest);
    assert s[..|p| + 1] == [c] + PrintNat(n) + "\r\n";
    assert s[..|p| + 1][1..] == PrintNat(n) + "\r\n";
    PyIntOfPrint(n);
  }

  lemma ParseOfFormatArg(a: string, rest: string)
    ensures ParseArg(FormatArg(a) + rest) == (Args([a]), rest)
  {
    var body := a + "\r\n" + rest;
    assert FormatArg(a) + rest == "$" + PrintNat(|a|) + "\r\n" + body;
    NumberLine('$', |a|, body);
    assert body[..|a| + 2] == a + "\r\n" && DropTwo(a + "\r\n") == a;
    assert body[|a| + 2..] == rest;
  }

  lemma ParseArgsCons(a: string, tail: string, count: nat)
    ensures ParseArgs(FormatArg(a) + tail, count + 1) == Prepend([a], ParseArgs(tail, count))
  {
    ParseOfFormatArg(a, tail);
  }

  lemma FormatArgsCons(args: seq<string>, rest: string)
    requires args != []
    ensures FormatArgs(args) + rest == FormatArg(args[0]) + (FormatArgs(args[1..]) + rest)
  {
  }

  lemma {:induction false} ParseOfFormatArgs(args: seq<string>, rest: string)
    ensures ParseArgs(FormatArgs(args) + rest, |args|) == (Args(args), rest)
  {
    if args == [] {
      assert FormatArgs(args) + rest == rest;
    } else {
      FormatArgsCons(args, rest);
      ParseArgsCons(args[0], FormatArgs(args[1..]) + rest, |args| - 1);
      ParseOfFormatArgs(args[1..], rest);
      assert [args[0]] + args[1..] == args;
    }
  }

  /** Whatever the arguments hold, the server reads exactly them and leaves exactly what follows. */
  lemma RequestRoundTrip(args: seq<string>, rest: string)
    ensures ParseRequest(Format(args) + rest) == (Args(args), rest)
  {
    var tail := FormatArgs(args) + rest;
    assert Format(args) + rest == "*" + PrintNat(|args|) + "\r\n" + tail;
    NumberLine('*', |args|, tail);
    ParseOfFormatArgs(args, rest);
  }

  // ---- Inline commands ----

  predicate IsWord(w: string) {
    w != "" && forall i :: 0 <= i < |w| ==> !IsSpace(w[i])
  }

  /** Words with one space between them. */
  function Join(ws: seq<string>): string
    requires ws != []
  {
    if |ws| == 1 then ws[0] else ws[0] + " " + Join(ws[1..])
  }

  lemma {:induction false} WordEndOf(w: string, tail: string)
    requires forall i :: 0 <= i < |w| ==> !IsSpace(w[i])
    requires tail != "" && IsSpace(tail[0])
    ensures WordEnd(w + tail) == |w|
  {
    if w == "" {
      assert w + tail == tail;
    } else {
      assert (w + tail)[1..] == w[1..] + tail;
      WordEndOf(w[1..], tail);
    }
  }

  lemma WordsCons(w: string, tail: string)
    requires IsWord(w) && tail != "" && IsSpace(tail[0])
    ensures Words(w + tail) == [w] + Words(tail[1..])
  {
    WordEndOf(w, tail);
    assert (w + tail)[..|w|] == w && (w + tail)[|w|..] == tail;
    assert !IsSpace((w + tail)[0]);
  }

  lemma {:induction false} WordsOfJoin(ws: seq<string>)
    requires ws != [] && forall w :: w in ws ==> IsWord(w)
    ensures Words(Join(ws) + "\r\n") == ws
  {
    assert IsWord(ws[0]);
    if |ws| == 1 {
      WordsCons(ws[0], "\r\n");
      assert Words("\n") == [];
    } else {
      var tail := " " + (Join(ws[1..]) + "\r\n");
      assert Join(ws) + "\r\n" == ws[0] + tail;
      assert tail[1..] == Join(ws[1..]) + "\r\n";
      WordsCons(ws[0], tail);
      WordsOfJoin(ws[1..]);
      assert [ws[0]] + ws[1..] == ws;
    }
  }

  lemma {:induction false} OneLine(ws: seq<string>)
    requires ws != [] && IsWord(ws[0]) && forall w :: w in ws ==> IsWord(w)
    ensures Join(ws) != "" && Join(ws)[0] == ws[0][0]
    ensures forall i :: 0 <= i < |Join(ws)| ==> Join(ws)[i] != '\n'
  {
    if |ws| > 1 {
      assert IsWord(ws[1]);
      OneLine(ws[1..]);
    }
  }

  /** A line of words is read as a command, and exactly that line is consumed. */
  lemma InlineRoundTrip(ws: seq<string>, rest: string)
    requires ws != [] && (forall w :: w in ws ==> IsWord(w)) && IsWord(ws[0]) && ws[0][0] != '*'
    ensures ParseRequest(Join(ws) + "\r\n" + rest) == (Args(ws), rest)
  {
    var line := Join(ws) + "\r";
    var s := Join(ws) + "\r\n" + rest;
    OneLine(ws);
    assert s == line + "\n" + rest;
    LineEndOf(line, rest);
    assert s[..|line| + 1] == Join(ws) + "\r\n";
    assert s[|line| + 1..] == rest;
    WordsOfJoin(ws);
  }

  // ---- A command cut short ----

  lemma {:induction false} ValuePositive(s: string)
    requires s != "" && AllDigits(s) && s[0] != '0'
    ensures Value(s) > 0
  {
    if |s| == 1 {
      assert DigitValue(s[0]) > 0;
    } else {
      ValuePositive(s[..|s| - 1]);
    }
  }

  /** Digits, with or without the carriage return, strip to the digits. */
  lemma StripDigits(d: string, q: string)
    requires d != "" && AllDigits(d) && (q == d || q == d + "\r")
    ensures PyInt(q) == Some(Value(d))
  {
    assert IsDigit(d[0]) && IsDigit(d[|d| - 1]) && q[0] == d[0];
    assert LStrip(q) == q;
    assert RStrip(d) == d;
    if q != d {
      assert q[..|q| - 1] == d;
    }
    assert RStrip(q) == d;
  }

  /** A number line cut before its line feed reads as no number, or as a shorter one that is still positive. */
  lemma CutNumber(n: nat, k: nat)
    requires k <= |PrintNat(n)| + 1
    ensures var r := PyInt((PrintNat(n) + "\r")[..k]);
            r.Some? ==> r.value >= 0 && (n > 0 ==> r.value > 0)
  {
    var q := (PrintNat(n) + "\r")[..k];
    if k > 0 {
      var d := PrintNat(n)[..if k <= |PrintNat(n)| then k else |PrintNat(n)|];
      assert q == d || q == d + "\r";
      StripDigits(d, q);
      if n > 0 {
        PrintLead(n);
        ValuePositive(d);
      }
    }
  }

  /** A prefix of a number line that ends before the line feed is one line, whatever is in it. */
  lemma CutLineIsLine(line: string, p: string)
    requires p <= line && forall i :: 0 <= i < |line| ==> line[i] != '\n'
    ensures p[..LineEnd(p)] == p && p[LineEnd(p)..] == ""
  {
    NoLineFeed(p);
  }

  lemma CutLine(c: char, n: nat, p: string)
    requires c != '\n' && p <= [c] + PrintNat(n) + "\r"
    ensures p[..LineEnd(p)] == p && p[LineEnd(p)..] == ""
    ensures p != "" ==> p[0] == c
    ensures p != "" && PyInt(p[1..]).Some? ==> PyInt(p[1..]).value >= 0 && (n > 0 ==> PyInt(p[1..]).value > 0)
  {
    CutLineIsLine([c] + PrintNat(n) + "\r", p);
    if p != "" {
      CutTail(c, PrintNat(n) + "\r", p);
      CutNumber(n, |p| - 1);
    }
  }

  lemma CutTail(c: char, line: string, p: string)
    requires p != "" && p <= [c] + line
    ensures |p| - 1 <= |line| && p[0] == c && p[1..] == line[..|p| - 1]
  {
    assert p == ([c] + line)[..|p|];
  }

  lemma {:induction false} NoLineFeed(p: string)
    requires forall i :: 0 <= i < |p| ==> p[i] != '\n'
    ensures LineEnd(p) == |p|
  {
    if p != "" {
      NoLineFeed(p[1..]);
    }
  }

  predicate NotExecuted(r: Request) {
    r.Closed? || r.Broken?
  }

  lemma CutArgLine(a: string, p: string)
    requires p <= "$" + PrintNat(|a|) + "\r"
    ensures NotExecuted(ParseArg(p).0)
  {
    CutLine('$', |a|, p);
  }

  lemma CutArgBody(a: string, body: string)
    requires |body| < |a| + 2
    ensures NotExecuted(ParseArg("$" + PrintNat(|a|) + "\r\n" + body).0)
  {
    NumberLine('$', |a|, body);
  }

  /** A prefix of `line + "\n" + body` ends in the line or in the body. */
  lemma SplitPrefix(line: string, body: string, p: string) returns (q: string)
    requires p < line + "\n" + body
    ensures |p| <= |line| ==> p <= line
    ensures |p| > |line| ==> p == line + "\n" + q && q < body
  {
    q := "";
    var whole := line + "\n" + body;
    assert p == whole[..|p|];
    if |p| <= |line| {
      assert p == line[..|p|];
    } else {
      q := body[..|p| - |line| - 1];
    }
  }

  lemma LineThenRest(line: string, rest: string)
    ensures line + "\r\n" + rest == line + "\r" + "\n" + rest
  {
    Regroup(line, "\r", "\n");
    assert "\r" + "\n" == "\r\n";
  }

  lemma CutArg(a: string, p: string)
    requires p < FormatArg(a)
    ensures NotExecuted(ParseArg(p).0)
  {
    var line := "$" + PrintNat(|a|) + "\r";
    LineThenRest("$" + PrintNat(|a|), a + "\r\n");
    Regroup("$" + PrintNat(|a|) + "\r\n", a, "\r\n");
    var q := SplitPrefix(line, a + "\r\n", p);
    if |p| <= |line| {
      CutArgLine(a, p);
    } else {
      LineThenRest("$" + PrintNat(|a|), q);
      CutArgBody(a, q);
    }
  }

  lemma {:induction false} CutArgs(args: seq<string>, p: string)
    requires p < FormatArgs(args)
    ensures NotExecuted(ParseArgs(p, |args|).0)
  {
    var f, tail := FormatArg(args[0]), FormatArgs(args[1..]);
    assert p == (f + tail)[..|p|];
    if |p| < |f| {
      assert p == f[..|p|];
      CutArg(args[0], p);
    } else {
      var q := tail[..|p| - |f|];
      assert p == f + q;
      ParseOfFormatArg(args[0], q);
      CutArgs(args[1..], q);
    }
  }

  lemma CutHeader(args: seq<string>, p: string)
    requires args != [] && p <= "*" + PrintNat(|args|) + "\r"
    ensures NotExecuted(ParseRequest(p).0)
  {
    CutLine('*', |args|, p);
    assert ParseArg("").0.Closed?;
  }

  lemma CutBody(args: seq<string>, q: string)
    requires args != [] && q < FormatArgs(args)
    ensures NotExecuted(ParseRequest("*" + PrintNat(|args|) + "\r\n" + q).0)
  {
    NumberLine('*', |args|, q);
    CutArgs(args, q);
  }

  /**
   A command of which only a part was sent before the connection closed is never executed: the parser
   ends in None or an exception, on every proper prefix of every command.
   */
  lemma CutRequest(args: seq<string>, p: string)
    requires args != [] && p < Format(args)
    ensures NotExecuted(ParseRequest(p).0)
  {
    var line := "*" + PrintNat(|args|) + "\r";
    LineThenRest("*" + PrintNat(|args|), FormatArgs(args));
    var q := SplitPrefix(line, FormatArgs(args), p);
    if |p| <= |line| {
      CutHeader(args, p);
    } else {
      LineThenRest("*" + PrintNat(|args|), q);
      CutBody(args, q);
    }
  }
}
