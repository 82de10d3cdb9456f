/**
 * The transactional outbox and one drain of its relay: rows committed with the business change,
 * published in batches, with the marks made in a transaction that a failure rolls back while the
 * messages already sent stay sent.
 */
module Outbox {
  import opened Events

  datatype Row = Row(eventType: string, topic: string, key: string, payload: Payload)

  // ---------------------------------------------------------------------------------------------
  // Event ids
  // ---------------------------------------------------------------------------------------------

  function Digit(d: nat): char
    requires d < 10
  {
    ['0', '1', '2', '3', '4', '5', '6', '7', '8', '9'][d]
  }

  function Decimal(n: nat): (s: string)
    ensures |s| > 0 && ':' !in s
    ensures |s| == 1 <==> n < 10
  {
    if n < 10 then [Digit(n)] else Decimal(n / 10) + [Digit(n % 10)]
  }

  function EventId(source: string, id: nat): string {
    if source != "" then source + ":" + Decimal(id) else Decimal(id)
  }

  lemma DigitInjective(a: nat, b: nat)
    requires a < 10 && b < 10 && Digit(a) == Digit(b)
    ensures a == b
  {
  }

  lemma {:induction false} DecimalInjective(m: nat, n: nat)
    requires Decimal(m) == Decimal(n)
    ensures m == n
  {
    var s, t := Decimal(m), Decimal(n);
    assert s[|s| - 1] == Digit(m % 10) && t[|t| - 1] == Digit(n % 10);
    DigitInjective(m % 10, n % 10);
    if m >= 10 {
      assert s[..|s| - 1] == Decimal(m / 10) && t[..|t| - 1] == Decimal(n / 10);
      DecimalInjective(m / 10, n / 10);
    }
  }

  lemma ColonInside(a: string, x: string, b: string, y: string)
    requires a + ":" + x == b + ":" + y && |a| < |b|
    ensures ':' in x
  {
    var s := a + ":" + x;
    assert s[|b|] == ':' && s[|b|] == x[|b| - |a| - 1];
  }

  /** Whatever precedes the last colon and whatever follows it can both be read off. */
  lemma LastColonSplits(a: string, x: string, b: string, y: string)
    requires a + ":" + x == b + ":" + y && ':' !in x && ':' !in y
    ensures a == b && x == y
  {
    if |a| < |b| {
      ColonInside(a, x, b, y);
    } else if |b| < |a| {
      ColonInside(b, y, a, x);
    } else {
      var s := a + ":" + x;
      assert a == s[..|a|] && b == s[..|b|] && x == s[|a| + 1..] && y == s[|b| + 1..];
    }
  }

  lemma ColonIffSource(source: string, id: nat)
    ensures ':' in EventId(source, id) <==> source != ""
  {
    if source != "" {
      assert EventId(source, id)[|source|] == ':';
    }
  }

  /** Rows of different databases, and different rows of one database, never share an event id. */
  lemma EventIdsNeverCollide(source: string, id: nat, source': string, id': nat)
    requires EventId(source, id) == EventId(source', id')
    ensures source == source' && id == id'
  {
    ColonIffSource(source, id);
    ColonIffSource(source', id');
    if source != "" {
      LastColonSplits(source, Decimal(id), source', Decimal(id'));
    }
    DecimalInjective(id, id');
  }

  /** What the relay puts on the bus for a row: its content, its event id and its type. */
  function MessageOf(source: string, id: nat, row: Row): Message {
    Message(row.topic, row.key, row.payload, EventId(source, id), row.eventType)
  }

  // ---------------------------------------------------------------------------------------------
  // Choosing a batch
  // ---------------------------------------------------------------------------------------------

  lemma MinExists(s: set<nat>) returns (m: nat)
    requires s != {}
    ensures m in s && forall k :: k in s ==> m <= k
    decreases |s|
  {
    var x :| x in s;
    m := x;
    if k :| k in s && k < x {
      m := MinExists(s - {x});
      assert forall j :: j in s ==> j == x || j in s - {x};
    }
  }

  function Min(s: set<nat>): (m: nat)
    requires s != {}
    ensures m in s && forall k :: k in s ==> m <= k
  {
    assert exists m :: m in s && forall k :: k in s ==> m <= k by { var m := MinExists(s); }
    var m :| m in s && forall k :: k in s ==> m <= k;
    m
  }

  /** ORDER BY id … LIMIT n. */
  function Lowest(s: set<nat>, limit: nat): (b: seq<nat>)
    decreases limit
  {
    if limit == 0 || s == {} then [] else [Min(s)] + Lowest(s - {Min(s)}, limit - 1)
  }

  ghost predicate Ascending(b: seq<nat>) { forall i, j :: 0 <= i < j < |b| ==> b[i] < b[j] }

  /** A batch holds the lowest candidates, each once and in id order, and as many as fit. */
  lemma {:induction false} LowestAscends(s: set<nat>, limit: nat)
    ensures var b := Lowest(s, limit);
      && Ascending(b)
      && (forall k :: k in b ==> k in s)
      && |b| == (if |s| <= limit then |s| else limit)
    decreases limit
  {
    if limit > 0 && s != {} {
      var b, rest := Lowest(s, limit), s - {Min(s)};
      LowestAscends(rest, limit - 1);
      assert forall i :: 1 <= i < |b| ==> b[i] in rest;
      assert |rest| == |s| - 1;
    }
  }

  lemma {:induction false} LowestSkipsNothing(s: set<nat>, limit: nat, i: nat, k: nat)
    requires i < |Lowest(s, limit)| && k in s && k < Lowest(s, limit)[i]
    ensures k in Lowest(s, limit)[..i]
    decreases limit
  {
    var b := Lowest(s, limit);
    var m := Min(s);
    assert b[0] == m && b[0] in b[..i];
    if k != m {
      var tail := Lowest(s - {m}, limit - 1);
      LowestSkipsNothing(s - {m}, limit - 1, i - 1, k);
      assert b[..i] == [m] + tail[..i - 1];
    }
  }

  function Elements(b: seq<nat>): set<nat> { set k | k in b }

  lemma {:induction false} ElementsCount(b: seq<nat>)
    requires Ascending(b)
    ensures |Elements(b)| == |b|
  {
    if b != [] {
      var init := b[..|b| - 1];
      ElementsCount(init);
      assert Elements(b) == Elements(init) + {b[|b| - 1]};
    }
  }

  /** A batch with room for everything takes everything. */
  lemma LowestTakesAll(s: set<nat>, limit: nat)
    requires |s| <= limit
    ensures Elements(Lowest(s, limit)) == s
  {
    LowestAscends(s, limit);
    ElementsCount(Lowest(s, limit));
    SubsetOfSameSize(Elements(Lowest(s, limit)), s);
  }

  lemma SubsetOfSameSize(a: set<nat>, b: set<nat>)
    requires a <= b && |a| == |b|
    ensures a == b
  {
    assert |b - a| == |b| - |a|;
  }

  function Below(s: set<nat>, j: nat): set<nat> { set k | k in s && k < j }

  lemma ElementsFront(x: nat, b: seq<nat>)
    ensures Elements([x] + b) == {x} + Elements(b)
  {
    assert forall k :: k in [x] + b <==> k == x || k in b;
  }

  lemma BelowWithoutMin(s: set<nat>, j: nat)
    requires j in s && Below(s, j) != {}
    ensures var m := Min(s);
      && m in Below(s, j) && m != j && Below(s - {m}, j) == Below(s, j) - {m}
      && |Below(s - {m}, j)| == |Below(s, j)| - 1 && s - Below(s, j) == s - {m} - Below(s - {m}, j)
  {
    var k :| k in Below(s, j);
    assert Min(s) <= k < j;
  }

  /** A batch of the right size takes exactly the candidates below j, and the next one starts with j. */
  lemma {:induction false} LowestBelow(s: set<nat>, j: nat)
    requires j in s
    ensures Elements(Lowest(s, |Below(s, j)|)) == Below(s, j)
    ensures Lowest(s - Below(s, j), 1) == [j]
    decreases |s|
  {
    var n := |Below(s, j)|;
    if n == 0 {
      assert s - Below(s, j) == s && forall k :: k in s ==> k in Below(s, j) || j <= k;
      assert Lowest(s, 1) == [Min(s)] + Lowest(s - {Min(s)}, 0);
    } else {
      var m := Min(s);
      BelowWithoutMin(s, j);
      hide Below;
      LowestBelow(s - {m}, j);
      assert Lowest(s, n) == [m] + Lowest(s - {m}, n - 1);
      ElementsFront(m, Lowest(s - {m}, n - 1));
    }
  }

  // ---------------------------------------------------------------------------------------------
  // What an id and a message are
  // ---------------------------------------------------------------------------------------------

  predicate IsDigit(c: char) { '0' <= c <= '9' }

  /** The number that a string of digits denotes. */
  function Denoted(s: string): int {
    if s == "" then 0 else 10 * Denoted(s[..|s| - 1]) + (s[|s| - 1] as int - '0' as int)
  }

  /** A row id is written in decimal digits, without a leading zero. */
  lemma {:induction false} DecimalDenotes(n: nat)
    ensures Denoted(Decimal(n)) == n && (forall i :: 0 <= i < |Decimal(n)| ==> IsDigit(Decimal(n)[i]))
    ensures n > 0 ==> Decimal(n)[0] != '0'
  {
    if n < 10 {
      assert Decimal(n)[..0] == "" && Denoted("") == 0;
    } else {
      var s := Decimal(n);
      DecimalDenotes(n / 10);
      assert s[..|s| - 1] == Decimal(n / 10) && s[0] == Decimal(n / 10)[0];
    }
  }

  /** The relay sends a row's topic, key, payload and type, under an id that names its database and its number. */
  lemma MessagesCarryRows(source: string, id: nat, row: Row)
    ensures var m := MessageOf(source, id, row);
      && m.topic == row.topic && m.key == row.key && m.payload == row.payload && m.eventType == row.eventType
      && m.eventId == (if source == "" then "" else source + ":") + Decimal(id)
  {
    hide Decimal;
  }
}
