/** Which names of Xray counters belong to which user, proxy and direction (internal/agent/traffic_reporter.go). */
module CounterNames {
  import opened Common
  import opened Counters

  ghost predicate Digits(s: string) {
    s != "" && forall i | 0 <= i < |s| :: '0' <= s[i] <= '9'
  }

  /** The number in decimal digits, without leading zeros. */
  function Decimal(n: nat): (s: string)
    ensures s != "" && forall i | 0 <= i < |s| :: '0' <= s[i] <= '9'
  {
    if n < 10 then [('0' as int + n) as char] else Decimal(n / 10) + [('0' as int + n % 10) as char]
  }

  /** Reading a number in digits gives it back; zeros in front change nothing. */
  lemma {:induction false} DecimalReadsBack(n: nat)
    ensures DecimalValue(Decimal(n)) == n
  {
    var s := Decimal(n);
    if n >= 10 {
      DecimalReadsBack(n / 10);
      assert s[..|s| - 1] == Decimal(n / 10);
    } else {
      assert s[..0] == "";
    }
  }

  lemma {:induction false} LeadingZero(s: string)
    ensures DecimalValue("0" + s) == DecimalValue(s)
  {
    var t := "0" + s;
    if s == "" {
      assert t[..0] == "";
    } else {
      LeadingZero(s[..|s| - 1]);
      assert t[..|t| - 1] == "0" + s[..|s| - 1];
    }
  }

  /** Digits and then something else, or the end. */
  lemma {:induction false} DigitCountIs(digits: string, rest: string)
    requires forall i | 0 <= i < |digits| :: '0' <= digits[i] <= '9'
    requires rest == "" || !('0' <= rest[0] <= '9')
    ensures DigitCount(digits + rest) == |digits|
  {
    var s := digits + rest;
    if digits != "" {
      assert s[1..] == digits[1..] + rest;
      DigitCountIs(digits[1..], rest);
    } else {
      assert s == rest;
    }
  }

  lemma {:induction false} DigitCountTakes(s: string)
    ensures forall i | 0 <= i < DigitCount(s) :: '0' <= s[i] <= '9'
    ensures DigitCount(s) < |s| ==> !('0' <= s[DigitCount(s)] <= '9')
  {
    if s != "" && IsDigit(s[0]) {
      DigitCountTakes(s[1..]);
    }
  }

  ghost predicate NoDigitFirst(s: string) {
    s == "" || !('0' <= s[0] <= '9')
  }

  /** A number that fits 64 bits, and what follows its digits. */
  lemma ParseIdExactly(s: string, value: int, rest: string)
    ensures ParseId(s) == Some((value, rest)) <==>
            exists digits: string ::
              Digits(digits) && DecimalValue(digits) == value <= INT64_MAX && s == digits + rest && NoDigitFirst(rest)
  {
    DigitCountTakes(s);
    if ParseId(s) == Some((value, rest)) {
      var digits := s[..DigitCount(s)];
      assert Digits(digits) && s == digits + rest;
    }
    if digits: string :| Digits(digits) && DecimalValue(digits) == value <= INT64_MAX && s == digits + rest
                         && NoDigitFirst(rest) {
      DigitCountIs(digits, rest);
      assert s[..|digits|] == digits && s[|digits|..] == rest;
    }
  }

  function TailOf(direction: Direction): string {
    if direction.Uplink? then ">>>traffic>>>uplink" else ">>>traffic>>>downlink"
  }

  /** The form of a user counter's name: digits of a user, digits of a proxy, and the direction, between blanks. */
  ghost predicate Names(name: string, stat: Stat, user: string, proxy: string) {
    && Digits(user) && DecimalValue(user) == stat.user < 0x8000_0000_0000_0000
    && Digits(proxy) && DecimalValue(proxy) == stat.proxy < 0x8000_0000_0000_0000
    && Trim(name) == "user>>>user-" + (user + ("-proxy-" + (proxy + TailOf(stat.direction))))
  }

  lemma PrefixStripped(prefix: string, s: string, rest: string)
    ensures StripPrefix(prefix, s) == Some(rest) <==> s == prefix + rest
  {
    if prefix <= s {
      assert s == prefix + s[|prefix|..];
    }
    assert s == prefix + rest ==> s[|prefix|..] == rest;
  }

  lemma TailsDiffer(tail: string)
    ensures TailOf(Uplink) != TailOf(Downlink) && TailOf(Uplink)[0] == '>' == TailOf(Downlink)[0]
  {
    assert |TailOf(Uplink)| == 19 && |TailOf(Downlink)| == 21;
  }

  /** A counter measures a user's traffic exactly when its name has that form. */
  lemma StatOfExactly(name: string, stat: Stat)
    ensures StatOf(name) == Some(stat) <==> exists user: string, proxy: string :: Names(name, stat, user, proxy)
  {
    TailsDiffer("");
    if StatOf(name) == Some(stat) {
      var user, proxy := PartsOf(name, stat);
    }
    if user: string, proxy: string :| Names(name, stat, user, proxy) {
      FromParts(name, stat, user, proxy);
    }
  }

  lemma PartsOf(name: string, stat: Stat) returns (user: string, proxy: string)
    requires StatOf(name) == Some(stat)
    ensures Names(name, stat, user, proxy)
  {
    hide Trim, ParseId, StripPrefix, DecimalValue, Digits, NoDigitFirst;
    var afterUser := StripPrefix("user>>>user-", Trim(name)).value;
    var (u, rest) := ParseId(afterUser).value;
    var afterProxy := StripPrefix("-proxy-", rest).value;
    var (p, tail) := ParseId(afterProxy).value;
    PrefixStripped("user>>>user-", Trim(name), afterUser);
    PrefixStripped("-proxy-", rest, afterProxy);
    ParseIdExactly(afterUser, u, rest);
    ParseIdExactly(afterProxy, p, tail);
    user :| Digits(user) && DecimalValue(user) == u <= INT64_MAX && afterUser == user + rest && NoDigitFirst(rest);
    proxy :| Digits(proxy) && DecimalValue(proxy) == p <= INT64_MAX && afterProxy == proxy + tail && NoDigitFirst(tail);
  }

  lemma FromParts(name: string, stat: Stat, user: string, proxy: string)
    requires Names(name, stat, user, proxy)
    ensures StatOf(name) == Some(stat)
  {
    hide Trim, ParseId, StripPrefix, DecimalValue, Digits;
    var tail := TailOf(stat.direction);
    var afterProxy := proxy + tail;
    var rest := "-proxy-" + afterProxy;
    var afterUser := user + rest;
    TailsDiffer(tail);
    PrefixStripped("user>>>user-", Trim(name), afterUser);
    assert rest[0] == '-';
    ParseIdExactly(afterUser, stat.user, rest);
    PrefixStripped("-proxy-", rest, afterProxy);
    ParseIdExactly(afterProxy, stat.proxy, tail);
  }

  function NameOf(user: string, proxy: string, direction: Direction): string {
    "user>>>user-" + (user + ("-proxy-" + (proxy + TailOf(direction))))
  }

  /** So every user and proxy has a counter for each direction. */
  lemma EveryStatHasName(stat: Stat)
    requires 0 <= stat.user <= INT64_MAX && 0 <= stat.proxy <= INT64_MAX
    ensures StatOf(NameOf(Decimal(stat.user), Decimal(stat.proxy), stat.direction)) == Some(stat)
  {
    hide StatOf, DecimalValue, Trim, TailOf;
    var user, proxy := Decimal(stat.user), Decimal(stat.proxy);
    var name := NameOf(user, proxy, stat.direction);
    DecimalReadsBack(stat.user);
    DecimalReadsBack(stat.proxy);
    NameEnds(user, proxy, stat.direction);
    Untrimmed(name);
    StatOfExactly(name, stat);
    assert Names(name, stat, user, proxy);
  }

  lemma NameEnds(user: string, proxy: string, direction: Direction)
    ensures var name := NameOf(user, proxy, direction); name != "" && name[0] == 'u' && name[|name| - 1] == 'k'
  {
    var tail := TailOf(direction);
    EndsWithTail(proxy, tail);
    EndsWithTail("-proxy-", proxy + tail);
    EndsWithTail(user, "-proxy-" + (proxy + tail));
    EndsWithTail("user>>>user-", user + ("-proxy-" + (proxy + tail)));
  }

  lemma EndsWithTail(s: string, t: string)
    requires t != ""
    ensures (s + t)[|s + t| - 1] == t[|t| - 1]
  {
  }

  lemma Untrimmed(name: string)
    requires name != "" && name[0] == 'u' && name[|name| - 1] == 'k'
    ensures Trim(name) == name
  {
    assert Blank(name[..0]) && Blank(name[|name|..]);
    TrimIs(name, 0, |name|);
    assert name[0..|name|] == name;
  }
}
