/** Strings as the converter uses them: Go's byte order, separator-joined keys, decimal rule
    numbers, and the two character classes its regular expressions speak about. */
module Text {

  datatype Option<+T> = None | Some(value: T)

  /** Go's `<` on strings: lexicographic by code unit. */
  predicate Less(a: string, b: string) {
    |b| > 0 && (|a| == 0 || a[0] < b[0] || (a[0] == b[0] && Less(a[1..], b[1..])))
  }

  lemma {:induction false} LessIsTotal(a: string, b: string)
    ensures Less(a, b) || Less(b, a) || a == b
    ensures !(Less(a, b) && Less(b, a))
    ensures !Less(a, a)
  {
    if |a| > 0 {
      LessIsTotal(a[1..], a[1..]);
      if |b| > 0 && a[0] == b[0] {
        LessIsTotal(a[1..], b[1..]);
        if a[1..] == b[1..] {
          assert a == [a[0]] + a[1..] && b == [b[0]] + b[1..];
        }
      }
    }
  }

  lemma {:induction false} LessIsTransitive(a: string, b: string, c: string)
    requires !Less(b, a) && !Less(c, b)
    ensures !Less(c, a)
  {
    if |a| > 0 && |b| > 0 && |c| > 0 && a[0] == b[0] == c[0] {
      LessIsTransitive(a[1..], b[1..], c[1..]);
    }
  }

  /** strings.Contains */
  predicate Contains(s: string, sub: string) {
    exists i | 0 <= i <= |s| :: sub <= s[i..]
  }

  lemma {:induction false} ContainsAsPart(s: string, sub: string, rest: string)
    ensures Contains(s + sub + rest, sub)
  {
    assert (s + sub + rest)[|s|..] == sub + rest;
  }

  /** A separator-joined key splits back in one way when the left part holds no separator. */
  lemma {:induction false} JoinIsInjective(a: string, b: string, c: string, d: string, sep: char)
    requires sep !in a && sep !in c
    requires a + [sep] + b == c + [sep] + d
    ensures a == c && b == d
  {
    var s := a + [sep] + b;
    assert s == c + [sep] + d;
    assert s[|a|] == sep && s[|c|] == sep;
    assert |a| == |c| by {
      assert forall i | 0 <= i < |a| :: s[i] == a[i];
      assert forall i | 0 <= i < |c| :: s[i] == c[i];
    }
    assert s[..|a|] == a && s[..|c|] == c;
    assert s[|a| + 1..] == b && s[|c| + 1..] == d;
  }

  /** And when the right parts hold none. */
  lemma {:induction false} LastDashSplits(a: string, x: string, b: string, y: string)
    requires '-' !in x && '-' !in y && a + "-" + x == b + "-" + y
    ensures a == b && x == y
  {
    var s := a + "-" + x;
    assert s == b + "-" + y;
    assert forall k | |a| < k < |s| :: s[k] == x[k - |a| - 1];
    assert forall k | |b| < k < |s| :: s[k] == y[k - |b| - 1];
    assert s[|a|] == '-' && s[|b|] == '-';
    assert |a| == |b|;
    assert s[..|a|] == a && s[..|b|] == b;
    assert s[|a| + 1..] == x && s[|b| + 1..] == y;
  }

  /** strings.Split with a one-character separator. */
  function Split(s: string, sep: char): (parts: seq<string>)
    ensures |parts| >= 1
  {
    if s == [] then [[]]
    else
      var rest := Split(s[1..], sep);
      if s[0] == sep then [[]] + rest else [[s[0]] + rest[0]] + rest[1..]
  }

  lemma {:induction false} SplitWithoutSeparator(s: string, sep: char)
    ensures |Split(s, sep)| == 1 <==> sep !in s
    ensures sep !in s ==> Split(s, sep) == [s]
  {
    if s != [] {
      SplitWithoutSeparator(s[1..], sep);
      assert s == [s[0]] + s[1..];
    }
  }

  /** Splitting `a<sep>b` gives exactly two parts, `a` and `b`, iff `b` holds no separator. */
  lemma {:induction false} SplitOfJoin(a: string, b: string, sep: char)
    requires sep !in a
    ensures |Split(a + [sep] + b, sep)| == 2 <==> sep !in b
    ensures sep !in b ==> Split(a + [sep] + b, sep) == [a, b]
  {
    var s := a + [sep] + b;
    if a == [] {
      assert s[1..] == b;
      SplitWithoutSeparator(b, sep);
    } else {
      assert s[1..] == a[1..] + [sep] + b;
      SplitOfJoin(a[1..], b, sep);
      assert a == [a[0]] + a[1..];
    }
  }

  /** strings.Join with a one-character separator. */
  function Joined(parts: seq<string>, sep: char): string
    requires parts != []
  {
    if |parts| == 1 then parts[0] else parts[0] + [sep] + Joined(parts[1..], sep)
  }

  lemma {:induction false} SplitPrefix(a: string, b: string, sep: char)
    requires sep !in a
    ensures Split(a + [sep] + b, sep) == [a] + Split(b, sep)
  {
    var s := a + [sep] + b;
    if a == [] {
      assert s[1..] == b;
    } else {
      assert s[1..] == a[1..] + [sep] + b;
      SplitPrefix(a[1..], b, sep);
      assert a == [a[0]] + a[1..];
    }
  }

  /** Splitting takes a joined text apart again, when no part holds the separator. */
  lemma {:induction false} SplitOfJoined(parts: seq<string>, sep: char)
    requires parts != [] && forall i | 0 <= i < |parts| :: sep !in parts[i]
    ensures Split(Joined(parts, sep), sep) == parts
  {
    if |parts| == 1 {
      SplitWithoutSeparator(parts[0], sep);
    } else {
      SplitOfJoined(parts[1..], sep);
      SplitPrefix(parts[0], Joined(parts[1..], sep), sep);
      assert parts == [parts[0]] + parts[1..];
    }
  }

  /** And joining puts it together. */
  lemma {:induction false} JoinedOfSplit(s: string, sep: char)
    ensures Joined(Split(s, sep), sep) == s
  {
    if s != [] {
      JoinedOfSplit(s[1..], sep);
      var rest := Split(s[1..], sep);
      assert s == [s[0]] + s[1..];
      if s[0] == sep {
        assert ([[]] + rest)[1..] == rest;
      } else {
        HeadGrows(s[0], rest, sep);
      }
    }
  }

  lemma {:induction false} HeadGrows(c: char, parts: seq<string>, sep: char)
    requires parts != []
    ensures Joined([[c] + parts[0]] + parts[1..], sep) == [c] + Joined(parts, sep)
  {
    var more := [[c] + parts[0]] + parts[1..];
    assert more[1..] == parts[1..];
    if |parts| > 1 {
      assert [c] + parts[0] + [sep] + Joined(parts[1..], sep) == [c] + (parts[0] + [sep] + Joined(parts[1..], sep));
    }
  }

  // ---- decimal numbers ----

  predicate IsDigit(c: char) { '0' <= c <= '9' }
  predicate IsLower(c: char) { 'a' <= c <= 'z' }
  predicate IsUpper(c: char) { 'A' <= c <= 'Z' }
  predicate IsAlnum(c: char) { IsDigit(c) || IsLower(c) || IsUpper(c) }
  predicate IsLowerAlnum(c: char) { IsDigit(c) || IsLower(c) }

  function DigitChar(d: nat): char
    requires d < 10
  {
    '0' + d as char
  }

  function DigitValue(c: char): nat
    requires IsDigit(c)
  {
    (c - '0') as nat
  }

  /** fmt's `%d` for a non-negative number. */
  function Decimal(n: nat): (s: string)
    ensures |s| > 0 && forall c | c in s :: IsDigit(c)
  {
    if n < 10 then [DigitChar(n)] else Decimal(n / 10) + [DigitChar(n % 10)]
  }

  function DecimalValue(s: string): nat
    requires forall c | c in s :: IsDigit(c)
  {
    if s == [] then 0 else DecimalValue(s[..|s| - 1]) * 10 + DigitValue(s[|s| - 1])
  }

  lemma {:induction false} DecimalRoundTrip(n: nat)
    ensures DecimalValue(Decimal(n)) == n
  {
    if n >= 10 {
      DecimalRoundTrip(n / 10);
      assert Decimal(n)[..|Decimal(n)| - 1] == Decimal(n / 10);
    }
  }

  /** fmt's `%d` for any integer. */
  function DecimalInt(n: int): string {
    if n < 0 then "-" + Decimal(-n) else Decimal(n)
  }
}
