/** Xray's cumulative byte counters and what can be added up from them. */
module Counters {
  import opened Common

  datatype Direction = Uplink | Downlink

  /** What one user counter measures. */
  datatype Stat = Stat(user: int, proxy: int, direction: Direction)

  const INT64_MAX: int := 0x7FFF_FFFF_FFFF_FFFF

  predicate IsDigit(c: char) { '0' <= c <= '9' }

  function StripPrefix(prefix: string, s: string): Option<string> {
    if prefix <= s then Some(s[|prefix|..]) else None
  }

  function DigitCount(s: string): (n: nat)
    ensures n <= |s|
  {
    if s != [] && IsDigit(s[0]) then 1 + DigitCount(s[1..]) else 0
  }

  function DecimalValue(s: string): int {
    if s == [] then 0 else 10 * DecimalValue(s[..|s| - 1]) + (s[|s| - 1] as int - '0' as int)
  }

  /** A decimal number that fits a signed 64-bit integer, and the text after it. */
  function ParseId(s: string): Option<(int, string)> {
    var n := DigitCount(s);
    if n == 0 || DecimalValue(s[..n]) > INT64_MAX then None else Some((DecimalValue(s[..n]), s[n..]))
  }

  /** Which user, proxy and direction a counter name belongs to, if any. Two spellings of one
      user ("7" and "07") belong to the same user. */
  function StatOf(name: string): Option<Stat> {
    match StripPrefix("user>>>user-", Trim(name))
    case None => None
    case Some(afterUser) =>
      match ParseId(afterUser)
      case None => None
      case Some((user, rest)) =>
        match StripPrefix("-proxy-", rest)
        case None => None
        case Some(afterProxy) =>
          match ParseId(afterProxy)
          case None => None
          case Some((proxy, tail)) =>
            if tail == ">>>traffic>>>uplink" then Some(Stat(user, proxy, Uplink))
            else if tail == ">>>traffic>>>downlink" then Some(Stat(user, proxy, Downlink))
            else None
  }

  type Counters = map<string, int>

  ghost predicate NonNegative(c: Counters) {
    forall n | n in c :: c[n] >= 0
  }

  /** Bytes gained since `previous`; a counter below its previous value was reset and counts in full. */
  function Delta(previous: int, current: int): int {
    if current - previous < 0 then current else current - previous
  }

  function Deltas(previous: Counters, current: Counters): Counters {
    map n | n in current :: Delta(Get(previous, n), current[n])
  }

  ghost predicate Measures(name: string, stat: Stat) {
    StatOf(name) == Some(stat)
  }

  ghost function Share(c: Counters, name: string, stat: Stat): int {
    if Measures(name, stat) then Get(c, name) else 0
  }

  ghost function Sum(names: set<string>, c: Counters, stat: Stat): int {
    if names == {} then 0
    else
      var n :| n in names;
      Share(c, n, stat) + Sum(names - {n}, c, stat)
  }

  /** The sum of the counters of `c` that measure `stat`. */
  ghost function Total(c: Counters, stat: Stat): int {
    Sum(c.Keys, c, stat)
  }

  lemma NothingTotals(stat: Stat)
    ensures Total(map[], stat) == 0
  {
    var none: Counters := map[];
    assert none.Keys == {};
  }

  /** The sum may be taken in any order. */
  lemma {:induction false} SumPick(names: set<string>, n: string, c: Counters, stat: Stat)
    requires n in names
    ensures Sum(names, c, stat) == Share(c, n, stat) + Sum(names - {n}, c, stat)
  {
    var m :| m in names && Sum(names, c, stat) == Share(c, m, stat) + Sum(names - {m}, c, stat);
    if m != n {
      SumPick(names - {m}, n, c, stat);
      SumPick(names - {n}, m, c, stat);
      assert names - {m} - {n} == names - {n} - {m};
    }
  }

  lemma {:induction false} SumAgree(names: set<string>, a: Counters, b: Counters, stat: Stat)
    requires forall n | n in names :: Share(a, n, stat) <= Share(b, n, stat)
    ensures Sum(names, a, stat) <= Sum(names, b, stat)
  {
    if names != {} {
      var n :| n in names;
      SumPick(names, n, a, stat);
      SumPick(names, n, b, stat);
      SumAgree(names - {n}, a, b, stat);
    }
  }

  /** Names a map does not hold add nothing. */
  lemma {:induction false} SumWiden(names: set<string>, c: Counters, stat: Stat)
    requires c.Keys <= names
    ensures Sum(names, c, stat) == Total(c, stat)
  {
    if names != c.Keys {
      var n :| n in names && n !in c.Keys;
      SumPick(names, n, c, stat);
      SumWiden(names - {n}, c, stat);
    }
  }

  lemma TotalSet(c: Counters, n: string, v: int, stat: Stat)
    ensures Total(c[n := v], stat) ==
            Total(c, stat) + (if Measures(n, stat) then v - Get(c, n) else 0)
  {
    var d := c[n := v];
    var rest := d.Keys - {n};
    SumWiden(d.Keys, c, stat);
    SumPick(d.Keys, n, c, stat);
    SumPick(d.Keys, n, d, stat);
    SumAgree(rest, c, d, stat);
    SumAgree(rest, d, c, stat);
  }

  /** Reading absent counters as zero, `a` is nowhere above `b` on counters that measure something. */
  ghost predicate Below(a: Counters, b: Counters) {
    forall n | StatOf(n).Some? :: Get(a, n) <= Get(b, n)
  }

  lemma TotalMonotone(a: Counters, b: Counters, stat: Stat)
    requires Below(a, b)
    ensures Total(a, stat) <= Total(b, stat)
  {
    var names := a.Keys + b.Keys;
    SumWiden(names, a, stat);
    SumWiden(names, b, stat);
    SumAgree(names, a, b, stat);
  }

  lemma {:induction false} SumSplit(names: set<string>, a: Counters, b: Counters, c: Counters, stat: Stat)
    requires forall n | n in names :: Share(c, n, stat) == Share(a, n, stat) + Share(b, n, stat)
    ensures Sum(names, c, stat) == Sum(names, a, stat) + Sum(names, b, stat)
  {
    if names != {} {
      var n :| n in names;
      SumPick(names, n, a, stat);
      SumPick(names, n, b, stat);
      SumPick(names, n, c, stat);
      SumSplit(names - {n}, a, b, c, stat);
    }
  }

  /** When no counter fell below its previous value, the deltas are exactly the growth. */
  lemma TotalOfGrowth(before: Counters, after: Counters, stat: Stat)
    requires NonNegative(before) && Below(before, after)
    ensures Total(Deltas(before, after), stat) == Total(after, stat) - Total(before, stat)
  {
    var names := before.Keys + after.Keys;
    var d := Deltas(before, after);
    SumWiden(names, before, stat);
    SumWiden(names, after, stat);
    SumWiden(names, d, stat);
    SumSplit(names, before, d, after, stat);
  }
}
