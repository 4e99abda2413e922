/** What an Ingress asks for, in the terms of its own fields and annotations: which requests a path accepts, which
    backend it names, and how a canary shares its traffic. The other modules are proved against this one. */
module IngressSpec {
  import opened Text
  import opened Names
  import opened Kube
  import opened Dedup
  import opened Resolution

  // ---- numbers in annotations ----

  ghost predicate AllZeros(s: string) { forall c | c in s :: c == '0' }

  /** `s` is the decimal form of `n`, possibly after some zeros. */
  ghost predicate Digits(s: string, n: nat) { exists z: string :: AllZeros(z) && s == z + Decimal(n) }

  /** `s` writes the number `n`: digits, or digits after a sign. */
  ghost predicate Numeral(s: string, n: int) {
    || (n >= 0 && Digits(s, n))
    || (n >= 0 && s != "" && s[0] == '+' && Digits(s[1..], n))
    || (n <= 0 && s != "" && s[0] == '-' && Digits(s[1..], -n))
  }

  /** An annotation sets a number that fits an int32; without it `default` holds. */
  ghost predicate Sets(annotation: string, default: int, n: int) {
    if annotation == "" then n == default else Numeral(annotation, n) && InInt32(n)
  }

  // ---- the traffic of a canary ----

  /** The weight annotations give the canary `w` out of `t` requests: none and 100 when they are absent. */
  ghost predicate WeightsSay(ing: Ingress, w: int, t: int) {
    && Sets(Annotation(ing, CanaryWeightKey), 0, w) && Sets(Annotation(ing, CanaryWeightTotalKey), 100, t)
    && 0 <= w <= t && 0 < t
  }

  ghost predicate SaneWeights(ing: Ingress) { exists w, t :: WeightsSay(ing, w, t) }

  /** The header annotations send the request to the canary, or away from it. A value given must match and means the
      canary; without one `always` means the canary and `never` the other backend. */
  predicate HeaderSays(ing: Ingress, req: Request, canary: bool) {
    var name, value := Annotation(ing, CanaryHeaderKey), Annotation(ing, CanaryHeaderValueKey);
    && name != "" && ToLower(name) in req.headers
    && if value != "" then canary && req.headers[ToLower(name)] == value
       else req.headers[ToLower(name)] == if canary then "always" else "never"
  }

  /** The part of a request's traffic that the annotations give the canary. */
  ghost function CanaryPart(ing: Ingress, req: Request): real
    requires SaneWeights(ing)
  {
    if HeaderSays(ing, req, true) then 1.0
    else if HeaderSays(ing, req, false) then 0.0
    else
      var w, t :| WeightsSay(ing, w, t);
      w as real / t as real
  }

  /** The annotations leave no doubt about the request: a header decides it, or a weight is given. */
  predicate AnnotationsDecide(ing: Ingress, req: Request) {
    HeaderSays(ing, req, true) || HeaderSays(ing, req, false) || Annotation(ing, CanaryWeightKey) != ""
  }

  /** What a backend gets of a canary's traffic. */
  ghost function PartFor(part: real, isCanary: bool, isOther: bool): real {
    (if isCanary then part else 0.0) + (if isOther then 1.0 - part else 0.0)
  }

  lemma {:induction false} ZerosAreNothing(z: string, n: nat)
    requires AllZeros(z)
    ensures (forall c | c in z + Decimal(n) :: IsDigit(c)) && DecimalValue(z + Decimal(n)) == n
  {
    ZerosBefore(z, Decimal(n));
    DecimalRoundTrip(n);
  }

  lemma {:induction false} ZerosBefore(z: string, s: string)
    requires AllZeros(z) && forall c | c in s :: IsDigit(c)
    ensures (forall c | c in z + s :: IsDigit(c)) && DecimalValue(z + s) == DecimalValue(s)
  {
    if s == "" {
      ZerosAreZero(z);
      assert z + s == z;
    } else {
      var t := s[..|s| - 1];
      assert (z + s)[..|z + s| - 1] == z + t;
      ZerosBefore(z, t);
    }
  }

  lemma {:induction false} ZerosAreZero(z: string)
    requires AllZeros(z)
    ensures (forall c | c in z :: IsDigit(c)) && DecimalValue(z) == 0
  {
    if z != "" {
      var t := z[..|z| - 1];
      assert forall c | c in t :: c in z;
      ZerosAreZero(t);
      assert z[|z| - 1] in z;
    }
  }

  /** Every string of digits is the decimal form of its value after some zeros. */
  lemma {:induction false} DigitsOfValue(s: string)
    requires s != "" && forall c | c in s :: IsDigit(c)
    ensures Digits(s, DecimalValue(s))
  {
    var t, c := s[..|s| - 1], s[|s| - 1];
    assert c in s && s == t + [c];
    if t == "" {
      assert s == "" + Decimal(DecimalValue(s));
    } else {
      DigitsOfValue(t);
      var z: string :| AllZeros(z) && t == z + Decimal(DecimalValue(t));
      OneMoreDigit(z, t, c, s);
    }
  }

  lemma {:induction false} OneMoreDigit(z: string, t: string, c: char, s: string)
    requires IsDigit(c) && (forall d | d in t :: IsDigit(d)) && s == t + [c]
    requires AllZeros(z) && t == z + Decimal(DecimalValue(t))
    ensures (forall d | d in s :: IsDigit(d)) && Digits(s, DecimalValue(s))
  {
    var v := DecimalValue(t);
    assert s[..|s| - 1] == t && s[|s| - 1] == c;
    if v == 0 {
      assert AllZeros(t) && s == t + Decimal(DecimalValue(s));
    } else {
      assert Decimal(10 * v + DigitValue(c)) == Decimal(v) + [c];
      assert s == z + Decimal(DecimalValue(s));
    }
  }

  lemma {:induction false} DigitsIff(s: string, n: nat)
    ensures Digits(s, n) <==> s != "" && (forall c | c in s :: IsDigit(c)) && DecimalValue(s) == n
  {
    if Digits(s, n) {
      var z: string :| AllZeros(z) && s == z + Decimal(n);
      ZerosAreNothing(z, n);
    }
    if s != "" && (forall c | c in s :: IsDigit(c)) && DecimalValue(s) == n {
      DigitsOfValue(s);
    }
  }

  /** A text writes one number at most, so an annotation sets one value. */
  lemma {:induction false} NumeralIsOne(s: string, m: int, n: int)
    requires Numeral(s, m) && Numeral(s, n)
    ensures m == n
  {
    assert !IsDigit('+') && !IsDigit('-');
    forall k: nat { DigitsIff(s, k); }
    if s != "" {
      forall k: nat { DigitsIff(s[1..], k); }
    }
  }

  lemma {:induction false} DecimalIsNumeral(n: nat)
    ensures Numeral(Decimal(n), n)
  {
    assert Decimal(n) == "" + Decimal(n);
    assert AllZeros("");
  }

  /** With weights that say `w` out of `t`, a request that no header decides goes to the canary with that share. */
  lemma {:induction false} WeightShare(ing: Ingress, req: Request, w: int, t: int)
    requires WeightsSay(ing, w, t) && !HeaderSays(ing, req, true) && !HeaderSays(ing, req, false)
    ensures CanaryPart(ing, req) == w as real / t as real
  {
    forall v, u | WeightsSay(ing, v, u) ensures v == w && u == t {
      var a, b := Annotation(ing, CanaryWeightKey), Annotation(ing, CanaryWeightTotalKey);
      if a != "" {
        NumeralIsOne(a, v, w);
      }
      if b != "" {
        NumeralIsOne(b, u, t);
      }
    }
  }

  /** So with the annotation `w` in decimal, and `t` or nothing for the total, the share is w of t or of 100. */
  lemma {:induction false} DecimalWeightShare(ing: Ingress, req: Request, w: nat, t: nat)
    requires Annotation(ing, CanaryWeightKey) == Decimal(w) && 0 < t && w <= t && InInt32(t)
    requires || Annotation(ing, CanaryWeightTotalKey) == Decimal(t)
             || (Annotation(ing, CanaryWeightTotalKey) == "" && t == 100)
    requires !HeaderSays(ing, req, true) && !HeaderSays(ing, req, false)
    ensures SaneWeights(ing) && CanaryPart(ing, req) == w as real / t as real
  {
    DecimalIsNumeral(w);
    DecimalIsNumeral(t);
    assert WeightsSay(ing, w, t);
    WeightShare(ing, req, w, t);
  }

  // ---- the requests a path accepts ----

  /** `path` is `prefix` or lies below it, element by element; one trailing slash of the prefix does not count. */
  predicate Below(prefix: string, path: string) {
    var body := if prefix != "" && prefix[|prefix| - 1] == '/' then prefix[..|prefix| - 1] else prefix;
    Split(body, '/') <= Split(path, '/')
  }

  lemma {:induction false} BelowIff(body: string, path: string)
    ensures Split(body, '/') <= Split(path, '/') <==> path == body || body + "/" <= path
  {
    if body == "" {
      PrefixIff(Split(body, '/'), Split(path, '/'));
      PrefixIff("/", path);
      assert Split(path, '/')[0] == "" <==> path == "" || path[0] == '/';
      assert body + "/" == "/";
    } else if path == "" {
      PrefixIff(Split(body, '/'), Split(path, '/'));
      BodyNeedsPath(body);
    } else {
      var a, b := Split(body[1..], '/'), Split(path[1..], '/');
      assert body == [body[0]] + body[1..] && path == [path[0]] + path[1..];
      assert body + "/" == [body[0]] + (body[1..] + "/");
      PrefixCons(body[0], body[1..] + "/", path[0], path[1..]);
      if body[0] == path[0] {
        BelowIff(body[1..], path[1..]);
        if body[0] == '/' {
          PrefixCons([], a, [], b);
        } else {
          HeadsDecide(body[0], a, b);
        }
      } else {
        PrefixIff(Split(body, '/'), Split(path, '/'));
        FirstPartDiffers(body, path);
      }
    }
  }

  lemma {:induction false} BodyNeedsPath(body: string)
    requires body != ""
    ensures !(Split(body, '/') <= Split("", '/'))
  {
    if body[0] == '/' {
      assert |Split(body, '/')| >= 2;
    } else {
      assert Split(body, '/')[0] != "";
    }
  }

  lemma {:induction false} FirstPartDiffers(body: string, path: string)
    requires body != "" && path != "" && body[0] != path[0]
    ensures Split(body, '/')[0] != Split(path, '/')[0]
  {
    var x, y := Split(body, '/')[0], Split(path, '/')[0];
    assert body[0] != '/' ==> x != "" && x[0] == body[0];
    assert path[0] != '/' ==> y != "" && y[0] == path[0];
    assert body[0] == '/' ==> x == "";
    assert path[0] == '/' ==> y == "";
  }

  lemma {:induction false} PrefixIff<T>(a: seq<T>, b: seq<T>)
    ensures a <= b <==> |a| <= |b| && forall i | 0 <= i < |a| :: a[i] == b[i]
  {
    if |a| <= |b| && forall i | 0 <= i < |a| :: a[i] == b[i] {
      assert a == b[..|a|];
    }
  }

  lemma {:induction false} PrefixCons<T>(x: T, a: seq<T>, y: T, b: seq<T>)
    ensures [x] + a <= [y] + b <==> x == y && a <= b
  {
    var s, t := [x] + a, [y] + b;
    PrefixIff(s, t);
    PrefixIff(a, b);
    assert s[1..] == a && t[1..] == b && s[0] == x && t[0] == y;
    if s <= t {
      forall i | 0 <= i < |a| ensures a[i] == b[i] {
        assert a[i] == s[i + 1] && b[i] == t[i + 1];
      }
    }
    if x == y && a <= b {
      forall i | 0 <= i < |s| ensures s[i] == t[i] {
        assert i > 0 ==> s[i] == a[i - 1] && t[i] == b[i - 1];
      }
    }
  }

  lemma {:induction false} HeadsDecide(c: char, a: seq<string>, b: seq<string>)
    requires |a| >= 1 && |b| >= 1
    ensures [[c] + a[0]] + a[1..] <= [[c] + b[0]] + b[1..] <==> a <= b
  {
    assert a == [a[0]] + a[1..] && b == [b[0]] + b[1..];
    PrefixCons([c] + a[0], a[1..], [c] + b[0], b[1..]);
    PrefixCons(a[0], a[1..], b[0], b[1..]);
    assert [c] + a[0] == [c] + b[0] ==> a[0] == ([c] + a[0])[1..] == ([c] + b[0])[1..] == b[0];
  }

  /** The path has a type, and the provider has a translation of its own if it needs one. */
  predicate Understood(p: IngressPath, own: Option<string -> PathMatch>) {
    p.pathType.Some? && (p.pathType == Some(ImplementationSpecificPath) ==> own.Some?)
  }

  /** The path stands for itself only. ImplementationSpecific means what the provider's translation says. */
  predicate ForItself(p: IngressPath, own: Option<string -> PathMatch>) {
    || p.pathType == Some(ExactPath)
    || (p.pathType == Some(ImplementationSpecificPath) && own.Some? && own.value(p.path).typ == Exact)
  }

  function PathText(p: IngressPath, own: Option<string -> PathMatch>): string {
    if p.pathType == Some(ImplementationSpecificPath) && own.Some? then own.value(p.path).value else p.path
  }

  /** The match the path stands for. */
  function MatchAsked(p: IngressPath, own: Option<string -> PathMatch>): PathMatch {
    PathMatch(if ForItself(p, own) then Exact else PathPrefix, PathText(p, own))
  }

  /** An Exact path accepts only itself, a Prefix path everything below it. */
  predicate AcceptsPath(p: IngressPath, own: Option<string -> PathMatch>, path: string) {
    Understood(p, own) && if ForItself(p, own) then path == PathText(p, own) else Below(PathText(p, own), path)
  }

  /** Exact before Prefix, then the longer path. */
  predicate Precedes(q: IngressPath, p: IngressPath, own: Option<string -> PathMatch>) {
    || (ForItself(q, own) && !ForItself(p, own))
    || ((ForItself(q, own) <==> ForItself(p, own)) && |PathText(q, own)| > |PathText(p, own)|)
  }

  // ---- the backend a path names ----

  /** A named port must be known. */
  predicate Resolvable(namespace: string, ib: IngressBackend, ports: ServicePorts) {
    match ib
    case ServiceBackend(service, port) =>
      port.name == "" || (NN(namespace, service) in ports && port.name in ports[NN(namespace, service)])
    case ResourceBackend(_, _, _) => true
  }

  /** The reference that names it, without namespace and weight. */
  function RefAsked(namespace: string, ib: IngressBackend, ports: ServicePorts): BackendRef
    requires Resolvable(namespace, ib, ports)
  {
    match ib
    case ServiceBackend(service, _) =>
      BackendRef(None, None, service, None, Some(BackendAsked(namespace, ib, ports).port), None)
    case ResourceBackend(apiGroup, kind, name) => BackendRef(apiGroup, Some(kind), name, None, None, None)
  }

  /** A Service under its port number, or an object of some group and kind. */
  function BackendAsked(namespace: string, ib: IngressBackend, ports: ServicePorts): RefKey
    requires Resolvable(namespace, ib, ports)
  {
    match ib
    case ServiceBackend(service, port) =>
      RefKey(service, if port.name == "" then port.number else ports[NN(namespace, service)][port.name], "", "Service")
    case ResourceBackend(apiGroup, kind, name) =>
      RefKey(name, 0, if apiGroup == None || apiGroup == Some("core") then "" else apiGroup.value, kind)
  }

  // ---- the class of an Ingress ----

  /** The class in the spec counts, and the annotation only without one. */
  ghost predicate HasClass(ing: Ingress, c: string) {
    if ing.className == None || ing.className == Some("") then c == Annotation(ing, ClassKey)
    else ing.className == Some(c)
  }
}
