/** Small vocabulary shared by the modules of the model. */
module Common {

  datatype Option<+T> = None | Some(value: T)

  datatype Result<+T, +E> = Ok(value: T) | Err(error: E)

  function Min(a: int, b: int): int {
    if a <= b then a else b
  }

  /** An absent key reads as zero, as in a Go map of numbers. */
  function Get<K>(m: map<K, int>, k: K): int {
    if k in m then m[k] else 0
  }

  /** unicode.IsSpace */
  predicate IsSpace(c: char) {
    c == ' ' || '\t' <= c <= '\r' || c == '\U{85}' || c == '\U{A0}' || c == '\U{1680}' || '\U{2000}' <= c <= '\U{200A}'
    || c == '\U{2028}' || c == '\U{2029}' || c == '\U{202F}' || c == '\U{205F}' || c == '\U{3000}'
  }

  function TrimLeft(s: string): string {
    if s != [] && IsSpace(s[0]) then TrimLeft(s[1..]) else s
  }

  function TrimRight(s: string): string {
    if s != [] && IsSpace(s[|s| - 1]) then TrimRight(s[..|s| - 1]) else s
  }

  /** strings.TrimSpace */
  function Trim(s: string): string {
    TrimRight(TrimLeft(s))
  }

  ghost predicate Blank(s: string) {
    forall i | 0 <= i < |s| :: IsSpace(s[i])
  }

  /** What is between blanks, beginning and ending with something else, is what trimming leaves. */
  lemma TrimIs(s: string, i: nat, j: nat)
    requires i < j <= |s| && Blank(s[..i]) && Blank(s[j..]) && !IsSpace(s[i]) && !IsSpace(s[j - 1])
    ensures Trim(s) == s[i..j]
  {
    TrimLeftIs(s, i);
    assert s[i..][..j - i] == s[i..j] && s[i..][j - i..] == s[j..];
    TrimRightIs(s[i..], j - i);
  }

  lemma {:induction false} TrimLeftIs(s: string, i: nat)
    requires i < |s| && Blank(s[..i]) && !IsSpace(s[i])
    ensures TrimLeft(s) == s[i..]
  {
    if i > 0 {
      assert IsSpace(s[..i][0]);
      assert s[1..][..i - 1] == s[..i][1..];
      TrimLeftIs(s[1..], i - 1);
    }
  }

  lemma {:induction false} TrimRightIs(s: string, j: nat)
    requires 0 < j <= |s| && Blank(s[j..]) && !IsSpace(s[j - 1])
    ensures TrimRight(s) == s[..j]
  {
    var n := |s| - 1;
    if j <= n {
      assert IsSpace(s[j..][n - j]);
      assert s[..n][j..] == s[j..][..n - j];
      TrimRightIs(s[..n], j);
      assert s[..n][..j] == s[..j];
    } else {
      assert s[..j] == s;
    }
  }

  /** Trimming leaves nothing of blanks, and of anything else the part from the first to the last that is not blank. */
  lemma {:induction false} TrimParts(s: string) returns (i: nat, j: nat)
    ensures i <= j <= |s| && Trim(s) == s[i..j] && Blank(s[..i]) && Blank(s[j..])
    ensures i < j ==> !IsSpace(s[i]) && !IsSpace(s[j - 1])
  {
    i := 0;
    while i < |s| && IsSpace(s[i])
      invariant i <= |s| && Blank(s[..i])
    {
      i := i + 1;
    }
    j := |s|;
    while j > i && IsSpace(s[j - 1])
      invariant i <= j <= |s| && Blank(s[j..])
    {
      j := j - 1;
    }
    if i < j {
      TrimIs(s, i, j);
    } else {
      assert s[..j] + s[j..] == s;
      BlankTrims(s);
    }
  }

  lemma BlankExactlyWhen(s: string)
    ensures Blank(s) <==> Trim(s) == ""
  {
    if Blank(s) {
      BlankTrims(s);
    } else {
      var i, j := TrimParts(s);
      assert s == s[..i] + s[i..j] + s[j..];
    }
  }

  lemma {:induction false} BlankTrims(s: string)
    requires Blank(s)
    ensures Trim(s) == ""
  {
    if s != "" {
      BlankTrims(s[1..]);
    }
  }

  /** Every element of `s` occurs once. */
  ghost predicate Distinct<T(!new)>(s: seq<T>) {
    forall i, j | 0 <= i < j < |s| :: s[i] != s[j]
  }

  ghost function Range(n: nat): (r: set<int>)
    ensures |r| == n
    ensures forall i :: i in r <==> 0 <= i < n
  {
    if n == 0 then {} else
      assert n - 1 !in Range(n - 1);
      Range(n - 1) + {n - 1}
  }

  /** A subset of a finite set is no larger. */
  lemma SubsetSize<T>(a: set<T>, b: set<T>)
    requires a <= b
    ensures |a| <= |b|
    ensures |a| == |b| ==> a == b
  {
    assert b == a + (b - a);
    if |a| == |b| {
      assert |b - a| == 0;
    }
  }

  /** Distinct positions hold distinct values, so the value set is as large as the sequence. */
  lemma {:induction false} DistinctSize<T(!new)>(s: seq<T>)
    requires Distinct(s)
    ensures |set x | x in s| == |s|
  {
    if s != [] {
      var rest := s[..|s| - 1];
      var last := s[|s| - 1];
      DistinctSize(rest);
      assert (set x | x in s) == (set x | x in rest) + {last} by {
        forall x | x in s ensures x in rest || x == last {
          var i :| 0 <= i < |s| && s[i] == x;
          if i < |s| - 1 { assert rest[i] == x; }
        }
      }
      assert last !in rest;
    }
  }

  /** Quotient and remainder are unique. */
  lemma DivModIs(x: int, n: int, q: int, r: int)
    requires n > 0 && x == q * n + r && 0 <= r < n
    ensures x / n == q && x % n == r
  {
    var d := x / n - q;
    assert x == n * (x / n) + x % n;
    assert d * n == n * (x / n) - q * n;
    MultipleAtLeast(d, n);
    MultipleAtLeast(-d, n);
    assert (-d) * n == -(d * n);
  }

  lemma MultipleAtLeast(d: int, n: int)
    requires n > 0
    ensures d >= 1 ==> d * n >= n
    ensures d == 0 ==> d * n == 0
  {
  }

  /** Equal elements at two positions are counted twice. */
  lemma CountedTwice<T>(s: seq<T>, i: nat, j: nat)
    requires i < j < |s|
    ensures s[i] == s[j] ==> multiset(s)[s[j]] >= 2
  {
    assert s == s[..j] + s[j..];
    assert s[i] in s[..j] && s[j] in s[j..];
  }

  // ---- Positions on a circle of n ----

  lemma ModAdd(a: int, b: int, t: int, n: int)
    requires n > 0 && a % n == b % n
    ensures (a + t) % n == (b + t) % n
  {
    var q := a / n - b / n;
    var r := (b + t) % n;
    assert (q + (b + t) / n) * n == q * n + (b + t) / n * n;
    assert q * n == a / n * n - b / n * n;
    DivModIs(a + t, n, q + (b + t) / n, r);
  }

  lemma ModDifferent(c: int, s: int, t: int, n: int)
    requires 0 <= s < t < n
    ensures (c + s) % n != (c + t) % n
  {
    if (c + s) % n == (c + t) % n {
      ModAdd(c + s, c + t, -(c + s), n);
      DivModIs(t - s, n, 0, t - s);
      DivModIs(0, n, 0, 0);
    }
  }

  /** Every position is reached within one turn of the circle. */
  lemma ModReaches(c: int, i: int, n: int) returns (t: int)
    requires 0 <= i < n
    ensures 0 <= t < n && (c + t) % n == i
  {
    t := (i - c) % n;
    DivModIs(t, n, 0, t);
    ModAdd(t, i - c, c, n);
    DivModIs(i, n, 0, i);
  }
}
