/**
 The position and session cache: its keys, its "x,y" codec, and a store whose commands may fail and whose
 entries may expire.
 */
module CacheManager {
  import opened Decimal
  import opened Registry

  function SessionKey(id: int): string {
    "session:player:" + PrintInt(id)
  }

  function PositionKey(id: int): string {
    "pos:player:" + PrintInt(id)
  }

  function EncodePosition(x: int, y: int): string {
    PrintInt(x) + "," + PrintInt(y)
  }

  /** The position of the first comma, or the end. */
  function FirstComma(s: string): (n: nat)
    ensures n <= |s|
  {
    if s == "" || s[0] == ',' then 0 else 1 + FirstComma(s[1..])
  }

  datatype Cached = Hit(x: int, y: int) | NotCached | Threw

  /** What a reader makes of an entry; a length beyond INT_MAX throws before the text is looked at. */
  function DecodePosition(s: string): Cached {
    var c := FirstComma(s);
    if |s| > INT_MAX then Threw
    else if c == |s| then NotCached
    else
      var x, y := Stoi(s[..c]), Stoi(s[c + 1..]);
      if x.None? || y.None? then Threw else Hit(x.value, y.value)
  }

  /** A text without a comma is no position. */
  lemma {:induction false} NoComma(s: string)
    requires ',' !in s
    ensures FirstComma(s) == |s|
    ensures |s| <= INT_MAX ==> DecodePosition(s) == NotCached
  {
    if s != "" {
      NoComma(s[1..]);
    }
  }

  lemma {:induction false} FirstCommaOf(a: string, b: string)
    requires ',' !in a
    ensures FirstComma(a + "," + b) == |a|
  {
    if a == "" {
      assert a + "," + b == "," + b;
    } else {
      assert (a + "," + b)[1..] == a[1..] + "," + b;
      FirstCommaOf(a[1..], b);
    }
  }

  /** Every position two ints can hold is read back. */
  lemma PositionRoundTrip(x: int, y: int)
    requires INT_MIN <= x <= INT_MAX && INT_MIN <= y <= INT_MAX
    ensures DecodePosition(EncodePosition(x, y)) == Hit(x, y)
  {
    var a, b := PrintInt(x), PrintInt(y);
    assert ',' !in a;
    FirstCommaOf(a, b);
    assert (a + "," + b)[..|a|] == a && (a + "," + b)[|a| + 1..] == b;
    StoiOfPrint(x);
    StoiOfPrint(y);
    PrintShort(if x < 0 then -x else x);
    PrintShort(if y < 0 then -y else y);
  }

  /** No two players share a key, and sessions and positions never collide. */
  lemma KeysAreDistinct(i: int, j: int)
    ensures PositionKey(i) == PositionKey(j) ==> i == j
    ensures SessionKey(i) == SessionKey(j) ==> i == j
    ensures PositionKey(i) != SessionKey(j)
  {
    assert PositionKey(i)[0] == 'p' && SessionKey(j)[0] == 's';
    assert PositionKey(i)[|"pos:player:"|..] == PrintInt(i) && PositionKey(j)[|"pos:player:"|..] == PrintInt(j);
    assert SessionKey(i)[|"session:player:"|..] == PrintInt(i) && SessionKey(j)[|"session:player:"|..] == PrintInt(j);
    if PrintInt(i) == PrintInt(j) {
      PrintIntInjective(i, j);
    }
  }

  // ---- The store ----

  /** How a command fares: answered, carried out without the answer arriving, or never carried out. */
  datatype Fate = Acknowledged | Unacknowledged | Lost

  function Put(entries: map<string, string>, key: string, value: string, fate: Fate): map<string, string> {
    if fate.Lost? then entries else entries[key := value]
  }

  function Remove(entries: map<string, string>, key: string, fate: Fate): map<string, string> {
    if fate.Lost? then entries else entries - {key}
  }

  datatype Lookup = LookupHit | LookupMiss | LookupThrew

  /** Looking up a session; an answer that is no JSON text counts as not acknowledged. */
  function ReadSession(entries: map<string, string>, id: int, fate: Fate): Lookup {
    if !fate.Acknowledged? || SessionKey(id) !in entries then LookupMiss
    else if |entries[SessionKey(id)]| > INT_MAX then LookupThrew
    else LookupHit
  }

  /**
   A lookup through the pool.  One that threw left a value unread on a pooled connection, and from then on
   what a lookup is told can be any bytes of that value: `garbled` is what they spell.
   */
  function LookUp(entries: map<string, string>, tainted: bool, id: int, fate: Fate, garbled: Lookup): Lookup {
    if tainted then garbled else ReadSession(entries, id, fate)
  }

  /** Looking for the comma, then reading the two numbers; `std::stoi` may throw on either. */
  method ReadText(val: string) returns (r: Cached)
    ensures r == DecodePosition(val)
  {
    if |val| > INT_MAX {
      return Threw;
    }
    var comma := FirstComma(val);
    if comma == |val| {
      return NotCached;
    }
    var x := Stoi(val[..comma]);
    if x.None? {
      return Threw;
    }
    var y := Stoi(val[comma + 1..]);
    if y.None? {
      return Threw;
    }
    return Hit(x.value, y.value);
  }

  class CacheManager {
    const enabled: bool
    var entries: map<string, string>
    var tainted: bool      // a pooled connection may hold bytes that nobody asked for
    const metrics: MetricsRegistry

    constructor (enabled: bool, entries: map<string, string>, metrics: MetricsRegistry)
      ensures this.enabled == enabled && this.entries == entries && this.metrics == metrics && !tainted
    {
      this.enabled, this.entries, this.metrics, tainted := enabled, entries, metrics, false;
    }

    /** A write that reports failure may still have reached the store. */
    method Write(key: string, value: string, fate: Fate) returns (ok: bool)
      modifies this`entries
      ensures ok <==> fate.Acknowledged?
      ensures entries == Put(old(entries), key, value, fate)
    {
      if fate.Lost? {
        return false;
      }
      entries := entries[key := value];
      return fate.Acknowledged?;
    }

    method SetPlayerSession(id: int, data: string, fate: Fate) returns (ok: bool)
      modifies this`entries
      ensures ok <==> enabled && fate.Acknowledged?
      ensures entries == if enabled then Put(old(entries), SessionKey(id), data, fate) else old(entries)
      ensures enabled && !fate.Lost? ==> entries == old(entries)["session:player:" + PrintInt(id) := data]
    {
      if !enabled {
        return false;
      }
      ok := Write(SessionKey(id), data, fate);
    }

    /** Every lookup counts as a hit or as a miss, unless it throws. */
    method GetPlayerSession(id: int, fate: Fate, garbled: Lookup) returns (r: Lookup)
      modifies this`tainted, metrics`cacheHits, metrics`cacheMisses
      ensures r == if enabled then LookUp(entries, old(tainted), id, fate, garbled) else LookupMiss
      ensures tainted == (old(tainted) || r.LookupThrew?)
      ensures metrics.cacheHits == old(metrics.cacheHits) + if r.LookupHit? then 1 else 0
      ensures metrics.cacheMisses == old(metrics.cacheMisses) + if r.LookupMiss? then 1 else 0
    {
      r := LookupMiss;
      if enabled && tainted {
        r := garbled;
      } else if enabled && fate.Acknowledged? && SessionKey(id) in entries {
        r := if |entries[SessionKey(id)]| > INT_MAX then LookupThrew else LookupHit;
      }
      match r
      case LookupThrew => tainted := true;
      case LookupHit => metrics.IncrementCacheHits();
      case LookupMiss => metrics.IncrementCacheMisses();
    }

    method DeletePlayerSession(id: int, fate: Fate) returns (ok: bool)
      modifies this`entries
      ensures ok <==> enabled && fate.Acknowledged?
      ensures entries == if enabled then Remove(old(entries), SessionKey(id), fate) else old(entries)
      ensures enabled && !fate.Lost? ==> entries == old(entries) - {"session:player:" + PrintInt(id)}
    {
      if !enabled || fate.Lost? {
        return false;
      }
      entries := entries - {SessionKey(id)};
      return fate.Acknowledged?;
    }

    method SetPlayerPosition(id: int, x: int, y: int, fate: Fate) returns (ok: bool)
      modifies this`entries
      ensures ok <==> enabled && fate.Acknowledged?
      ensures entries == if enabled then Put(old(entries), PositionKey(id), EncodePosition(x, y), fate)
                         else old(entries)
      ensures enabled && !fate.Lost? ==>
        entries == old(entries)["pos:player:" + PrintInt(id) := PrintInt(x) + "," + PrintInt(y)]
    {
      if !enabled {
        return false;
      }
      ok := Write(PositionKey(id), EncodePosition(x, y), fate);
    }

    /** What the connection hands over for a key: the entry if it arrives, or what unread bytes spell. */
    function Fetched(key: string, fate: Fate, garbled: Option<string>): Option<string>
      reads this
    {
      if tainted then garbled
      else if fate.Acknowledged? && key in entries then Some(entries[key])
      else None
    }

    /** A hit is the decoded text; every other call counts as a miss, unless the text throws. */
    method GetPlayerPosition(id: int, fate: Fate, garbled: Option<string>) returns (r: Cached)
      modifies this`tainted, metrics`cacheHits, metrics`cacheMisses
      ensures r == var text := if enabled then old(Fetched(PositionKey(id), fate, garbled)) else None;
                   if text.None? then NotCached else DecodePosition(text.value)
      ensures enabled && !old(tainted) && fate.Acknowledged? && "pos:player:" + PrintInt(id) in entries ==>
                r == DecodePosition(entries["pos:player:" + PrintInt(id)])
      ensures old(tainted) ==> tainted
      ensures metrics.cacheHits == old(metrics.cacheHits) + if r.Hit? then 1 else 0
      ensures metrics.cacheMisses == old(metrics.cacheMisses) + if r.NotCached? then 1 else 0
    {
      var text := Fetched(PositionKey(id), fate, garbled);
      if !enabled || text.None? {
        metrics.IncrementCacheMisses();
        return NotCached;
      }
      r := ReadText(text.value);
      match r
      case Hit(_, _) => metrics.IncrementCacheHits();
      case NotCached => metrics.IncrementCacheMisses();
      case Threw => tainted := tainted || |text.value| > INT_MAX;
    }

    /** The store drops entries whenever it likes. */
    method Expire(keys: set<string>)
      modifies this`entries
      ensures entries == old(entries) - keys
    {
      entries := entries - keys;
    }
  }
}
