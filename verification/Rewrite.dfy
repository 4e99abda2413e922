/** convertNginxSubstitutionToEnvoy: the rewrite of `\$(\d+)` to a backslash and the digits, and what both templates
    expand to. */
module Rewrite {
  import opened Text

  /** The leading digits of a text: what `\d+` takes. */
  function DigitRun(s: string): nat {
    if s != "" && IsDigit(s[0]) then 1 + DigitRun(s[1..]) else 0
  }

  lemma {:induction false} DigitRunBound(s: string)
    ensures DigitRun(s) <= |s| && forall i | 0 <= i < DigitRun(s) :: IsDigit(s[i])
  {
    if s != "" && IsDigit(s[0]) {
      DigitRunBound(s[1..]);
      assert forall i | 1 <= i < DigitRun(s) :: s[i] == s[1..][i - 1];
    }
  }

  /** ReplaceAllString with the pattern's leftmost, longest matches: a whole `$` and digit run is replaced at once. */
  function Convert(s: string): string
    decreases |s|
  {
    if s == "" then ""
    else
      var n := DigitRun(s[1..]);
      DigitRunBound(s[1..]);
      if s[0] == '$' && n > 0 then "\\" + s[1..1 + n] + Convert(s[1 + n..])
      else [s[0]] + Convert(s[1..])
  }

  /** The same, character by character: every `$` before a digit becomes a backslash. */
  function Pointwise(s: string): string {
    if s == "" then ""
    else (if s[0] == '$' && |s| > 1 && IsDigit(s[1]) then "\\" else [s[0]]) + Pointwise(s[1..])
  }

  lemma {:induction false} PointwiseOnDigits(digits: string, rest: string)
    requires forall i | 0 <= i < |digits| :: IsDigit(digits[i])
    ensures Pointwise(digits + rest) == digits + Pointwise(rest)
  {
    if digits == "" {
      assert digits + rest == rest;
    } else {
      assert (digits + rest)[1..] == digits[1..] + rest;
      PointwiseOnDigits(digits[1..], rest);
    }
  }

  lemma {:induction false} ConvertIsPointwise(s: string)
    ensures Convert(s) == Pointwise(s)
    decreases |s|
  {
    if s != "" {
      var n := DigitRun(s[1..]);
      DigitRunBound(s[1..]);
      if s[0] == '$' && n > 0 {
        ConvertIsPointwise(s[1 + n..]);
        PointwiseReference(s, n);
      } else {
        ConvertIsPointwise(s[1..]);
        assert |s| > 1 ==> s[1] == s[1..][0];
      }
    }
  }

  lemma {:induction false} PointwiseReference(s: string, n: nat)
    requires 0 < n < |s| && s[0] == '$' && forall i | 0 <= i < n :: IsDigit(s[1..][i])
    ensures Pointwise(s) == "\\" + s[1..1 + n] + Pointwise(s[1 + n..])
  {
    var t := s[1..];
    var digits, rest := t[..n], t[n..];
    CutTail(s, n);
    assert s[1] == t[0];
    PointwiseOnDigits(digits, rest);
    Associate("\\", digits, Pointwise(rest));
  }

  lemma {:induction false} CutTail(s: string, n: nat)
    requires n < |s|
    ensures s[1..1 + n] == s[1..][..n] && s[1 + n..] == s[1..][n..] && s[1..] == s[1..][..n] + s[1..][n..]
  {
  }

  lemma {:induction false} Associate(a: string, b: string, c: string)
    ensures a + (b + c) == a + b + c
  {
  }

  /** A `$` that starts a reference. */
  predicate Refers(s: string, i: nat)
    requires i < |s|
  {
    s[i] == '$' && i + 1 < |s| && IsDigit(s[i + 1])
  }

  lemma {:induction false} PointwiseAt(s: string)
    ensures |Pointwise(s)| == |s|
    ensures forall i | 0 <= i < |s| :: Pointwise(s)[i] == if Refers(s, i) then '\\' else s[i]
  {
    if s != "" {
      var t, p := s[1..], Pointwise(s[1..]);
      PointwiseAt(t);
      assert Pointwise(s) == [if Refers(s, 0) then '\\' else s[0]] + p;
      forall i | 1 <= i < |s| ensures Pointwise(s)[i] == if Refers(s, i) then '\\' else s[i] {
        assert t[i - 1] == s[i] && Refers(t, i - 1) == Refers(s, i);
        assert Pointwise(s)[i] == p[i - 1];
      }
    }
  }

  /** Conversion keeps the length and, on text without backslashes, can be undone. */
  lemma {:induction false} ConvertInjective(a: string, b: string)
    requires '\\' !in a && '\\' !in b && Convert(a) == Convert(b)
    ensures a == b
  {
    ConvertIsPointwise(a);
    ConvertIsPointwise(b);
    PointwiseAt(a);
    PointwiseAt(b);
    assert |a| == |b|;
    forall i | 0 <= i < |a| ensures a[i] == b[i] {
      assert a[i] in a && b[i] in b;
      assert Refers(a, i) <==> Pointwise(a)[i] == '\\';
      assert Refers(b, i) <==> Pointwise(b)[i] == '\\';
    }
  }

  // ---- what the templates mean ----

  /** One capture per digit; both engines read single-digit references. */
  type Captures = c: seq<string> | |c| == 10 witness ["", "", "", "", "", "", "", "", "", ""]

  /** An nginx template: `$` and a digit is a capture, everything else stands for itself. */
  function NginxExpand(s: string, c: Captures): string
    decreases |s|
  {
    if s == "" then ""
    else if s[0] == '$' && |s| > 1 && IsDigit(s[1]) then c[DigitValue(s[1])] + NginxExpand(s[2..], c)
    else [s[0]] + NginxExpand(s[1..], c)
  }

  /** An Envoy (RE2) template: backslash and a digit is a capture, a doubled backslash is one, any other use is
      invalid. */
  function EnvoyExpand(s: string, c: Captures): Option<string>
    decreases |s|
  {
    if s == "" then Some("")
    else if s[0] == '\\' then
      if |s| == 1 then None
      else
        var rest := EnvoyExpand(s[2..], c);
        if rest.None? then None
        else if IsDigit(s[1]) then Some(c[DigitValue(s[1])] + rest.value)
        else if s[1] == '\\' then Some("\\" + rest.value)
        else None
    else
      var rest := EnvoyExpand(s[1..], c);
      if rest.None? then None else Some([s[0]] + rest.value)
  }

  lemma {:induction false} ExpandAgrees(s: string, c: Captures)
    requires '\\' !in s
    ensures EnvoyExpand(Pointwise(s), c) == Some(NginxExpand(s, c))
    decreases |s|
  {
    if s != "" {
      assert s[0] in s;
      if s[0] == '$' && |s| > 1 && IsDigit(s[1]) {
        ExpandAgrees(s[2..], c);
        AtReference(s, c);
      } else {
        ExpandAgrees(s[1..], c);
        assert Pointwise(s)[1..] == Pointwise(s[1..]);
      }
    }
  }

  lemma {:induction false} AtReference(s: string, c: Captures)
    requires |s| > 1 && s[0] == '$' && IsDigit(s[1])
    requires EnvoyExpand(Pointwise(s[2..]), c) == Some(NginxExpand(s[2..], c))
    ensures EnvoyExpand(Pointwise(s), c) == Some(NginxExpand(s, c))
  {
    var p := Pointwise(s);
    assert s[1..][1..] == s[2..];
    assert Pointwise(s[1..]) == [s[1]] + Pointwise(s[2..]);
    assert p == ['\\', s[1]] + Pointwise(s[2..]);
    assert p[2..] == Pointwise(s[2..]);
  }

  const NO_CAPTURES: Captures := ["", "", "", "", "", "", "", "", "", ""]

  function Count(s: string, ch: char): nat {
    if s == "" then 0 else (if s[0] == ch then 1 else 0) + Count(s[1..], ch)
  }

  lemma {:induction false} CountZero(s: string, ch: char)
    ensures Count(s, ch) == 0 <==> ch !in s
  {
    if s != "" {
      CountZero(s[1..], ch);
      assert s == [s[0]] + s[1..];
    }
  }

  /** The references of an nginx template. */
  function References(s: string): nat
    decreases |s|
  {
    if s == "" then 0
    else if s[0] == '$' && |s| > 1 && IsDigit(s[1]) then 1 + References(s[2..])
    else References(s[1..])
  }

  lemma {:induction false} NginxMeasures(s: string)
    ensures |NginxExpand(s, NO_CAPTURES)| + 2 * References(s) == |s|
    ensures Count(NginxExpand(s, NO_CAPTURES), '\\') == Count(s, '\\')
    ensures Count(Pointwise(s), '\\') == Count(s, '\\') + References(s)
    decreases |s|
  {
    if s != "" {
      if s[0] == '$' && |s| > 1 && IsDigit(s[1]) {
        ReferenceMeasures(s);
        NginxMeasures(s[2..]);
      } else {
        NginxMeasures(s[1..]);
        CountCons(s[0], s[1..], '\\');
        CountCons(s[0], NginxExpand(s[1..], NO_CAPTURES), '\\');
        CountCons(s[0], Pointwise(s[1..]), '\\');
        assert s == [s[0]] + s[1..];
      }
    }
  }

  lemma {:induction false} CountCons(c: char, s: string, ch: char)
    ensures Count([c] + s, ch) == (if c == ch then 1 else 0) + Count(s, ch)
  {
    assert ([c] + s)[1..] == s;
  }

  /** A reference at the front: gone from the expansion, a backslash and a digit in the converted text. */
  lemma {:induction false} ReferenceMeasures(s: string)
    requires |s| > 1 && s[0] == '$' && IsDigit(s[1])
    ensures NginxExpand(s, NO_CAPTURES) == NginxExpand(s[2..], NO_CAPTURES)
    ensures Count(s, '\\') == Count(s[2..], '\\')
    ensures Count(Pointwise(s), '\\') == 1 + Count(Pointwise(s[2..]), '\\')
  {
    var t := s[2..];
    assert s[1..][1..] == t;
    assert NO_CAPTURES[DigitValue(s[1])] == "";
    assert "" + NginxExpand(t, NO_CAPTURES) == NginxExpand(t, NO_CAPTURES);
    PointwiseReference(s, 1);
    assert s[1..2] == [s[1]];
    Associate("\\", [s[1]], Pointwise(t));
    CountCons(s[1], Pointwise(t), '\\');
    CountCons('\\', [s[1]] + Pointwise(t), '\\');
  }

  /** In a valid Envoy template expanded without captures, `d` references and `p` doubled backslashes account for all
      lengths. */
  lemma {:induction false} EnvoyMeasures(t: string) returns (d: nat, p: nat)
    requires EnvoyExpand(t, NO_CAPTURES).Some?
    ensures var r := EnvoyExpand(t, NO_CAPTURES).value;
            |r| + 2 * d + p == |t| && Count(r, '\\') == p && Count(t, '\\') == d + 2 * p
    decreases |t|
  {
    if t == "" {
      return 0, 0;
    }
    var r := EnvoyExpand(t, NO_CAPTURES).value;
    if t[0] == '\\' {
      d, p := EnvoyMeasures(t[2..]);
      assert t[1..][1..] == t[2..];
      var rest := EnvoyExpand(t[2..], NO_CAPTURES).value;
      if IsDigit(t[1]) {
        assert r == rest;
        d := d + 1;
      } else {
        assert r == "\\" + rest && r[1..] == rest;
        p := p + 1;
      }
    } else {
      d, p := EnvoyMeasures(t[1..]);
      assert r[1..] == EnvoyExpand(t[1..], NO_CAPTURES).value;
    }
  }

  ghost predicate SameExpansion(s: string, c: Captures) {
    EnvoyExpand(Convert(s), c) == Some(NginxExpand(s, c))
  }

  /** Converting keeps the template's meaning, for every assignment of captures, exactly when it holds no backslash. */
  lemma {:induction false} ConversionKeepsMeaningIff(s: string)
    ensures (forall c: Captures :: SameExpansion(s, c)) <==> '\\' !in s
  {
    ConvertIsPointwise(s);
    if '\\' !in s {
      forall c: Captures ensures SameExpansion(s, c) {
        ExpandAgrees(s, c);
      }
    } else {
      var none: Captures := NO_CAPTURES;
      assert !SameExpansion(s, none) by {
        if SameExpansion(s, none) {
          NginxMeasures(s);
          var d, p := EnvoyMeasures(Convert(s));
          PointwiseAt(s);
          CountZero(s, '\\');
          assert false;
        }
      }
    }
  }
}
