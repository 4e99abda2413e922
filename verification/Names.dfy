/** The name sanitisers. Each regular expression of the source is a one-pass scanner here; its meaning is
    given independently, as the list of alphanumeric words of the text joined by dashes. */
module Names {
  import opened Text

  datatype PathType = PrefixPath | ExactPath | ImplementationSpecificPath

  function PathTypeName(t: PathType): (s: string)
    ensures s != [] && forall c | c in s :: IsAlnum(c)
  {
    match t
    case PrefixPath => "Prefix"
    case ExactPath => "Exact"
    case ImplementationSpecificPath => "ImplementationSpecific"
  }

  function LowerChar(c: char): char {
    if IsUpper(c) then 'a' + (c - 'A') else c
  }

  function ToLower(s: string): (r: string)
    ensures |r| == |s|
    ensures forall i | 0 <= i < |s| :: r[i] == LowerChar(s[i])
  {
    if s == [] then [] else [LowerChar(s[0])] + ToLower(s[1..])
  }

  /** Replace every maximal run of `[^a-zA-Z0-9]` by one dash: a run emits its dash at its last character. */
  function Collapse(s: string): string {
    if s == [] then []
    else if IsAlnum(s[0]) then [s[0]] + Collapse(s[1..])
    else if |s| > 1 && !IsAlnum(s[1]) then Collapse(s[1..])
    else "-" + Collapse(s[1..])
  }

  function TrimLeft(s: string): string {
    if s != [] && !IsAlnum(s[0]) then TrimLeft(s[1..]) else s
  }

  function TrimDashesLeft(s: string): string {
    if s != [] && s[0] == '-' then TrimDashesLeft(s[1..]) else s
  }

  function TrimDashesRight(s: string): string {
    if s != [] && s[|s| - 1] == '-' then TrimDashesRight(s[..|s| - 1]) else s
  }

  /** NameFromHost */
  function NameFromHost(host: string): string {
    var step1 := Collapse(host);
    var step2 := TrimLeft(step1);
    if |host| == 0 || host == "*" then "all-hosts" else step2
  }

  /** RouteName */
  function RouteName(ingressName: string, host: string): string {
    ingressName + "-" + NameFromHost(host)
  }

  /** The default case of RuleNameFromPathMatch, before the `path-` fallback. */
  function SanitizePath(path: string): string {
    TrimDashesRight(TrimDashesLeft(ToLower(Collapse(path))))
  }

  function RuleNamePathPart(path: string): string {
    if path == "" then "empty"
    else if path == "/" then "root"
    else
      var p := SanitizePath(path);
      if p != "" && !IsLowerAlnum(p[0]) then "path-" + p else p
  }

  function NumberPrefix(ruleIdx: nat): string { "rule-" + Decimal(ruleIdx) + "-" }

  function RuleLabel(t: PathType, path: string): string {
    if t.ImplementationSpecificPath? then "impl-specific"
    else ToLower(PathTypeName(t)) + "-" + RuleNamePathPart(path)
  }

  /** RuleNameFromPathMatch for a path type the converter accepts. */
  function RuleName(t: PathType, path: string, ruleIdx: nat): string {
    NumberPrefix(ruleIdx) + RuleLabel(t, path)
  }

  // ---- what the scanners mean ----

  predicate IsWord(w: string) { w != [] && forall i | 0 <= i < |w| :: IsAlnum(w[i]) }
  predicate AllWords(ws: seq<string>) { forall i | 0 <= i < |ws| :: IsWord(ws[i]) }

  /** The maximal alphanumeric runs of a text, in order. */
  function Words(s: string): (ws: seq<string>)
    ensures AllWords(ws)
    ensures s != [] && IsAlnum(s[0]) ==> ws != []
  {
    if s == [] then []
    else if !IsAlnum(s[0]) then Words(s[1..])
    else if |s| > 1 && IsAlnum(s[1]) then
      var ws := Words(s[1..]);
      [[s[0]] + ws[0]] + ws[1..]
    else [[s[0]]] + Words(s[1..])
  }

  function Join(ws: seq<string>): string {
    if ws == [] then [] else if |ws| == 1 then ws[0] else ws[0] + "-" + Join(ws[1..])
  }

  function LowerWords(ws: seq<string>): (r: seq<string>)
    ensures |r| == |ws|
    ensures forall i | 0 <= i < |ws| :: r[i] == ToLower(ws[i])
  {
    if ws == [] then [] else [ToLower(ws[0])] + LowerWords(ws[1..])
  }

  predicate StartsOutside(s: string) { s != [] && !IsAlnum(s[0]) }
  predicate EndsOutside(s: string) { s != [] && !IsAlnum(s[|s| - 1]) }

  function Edge(outside: bool): string { if outside then "-" else "" }

  lemma {:induction false} WordsAreFound(s: string)
    ensures Words(s) == [] <==> forall c | c in s :: !IsAlnum(c)
  {
    if s != [] {
      WordsAreFound(s[1..]);
      assert s == [s[0]] + s[1..];
    }
  }

  /** What collapsing leaves: the words, with a dash at each end that is not alphanumeric. */
  function Dashed(s: string): string {
    if Words(s) == [] then Edge(s != [])
    else Edge(StartsOutside(s)) + Join(Words(s)) + Edge(EndsOutside(s))
  }

  lemma {:induction false} CollapseMeaning(s: string)
    ensures Collapse(s) == Dashed(s)
  {
    if s != [] {
      CollapseMeaning(s[1..]);
      if IsAlnum(s[0]) {
        DashedAfterAlnum(s);
      } else {
        DashedAfterOutside(s);
      }
    }
  }

  lemma {:induction false} DashedAfterAlnum(s: string)
    requires s != [] && IsAlnum(s[0])
    ensures Dashed(s) == [s[0]] + Dashed(s[1..])
  {
    if |s| > 1 {
      assert s[1..][|s| - 2] == s[|s| - 1];
      if IsAlnum(s[1]) {
        DashedInsideWord(s);
      } else {
        DashedAtWordEnd(s);
      }
    }
  }

  lemma {:induction false} DashedInsideWord(s: string)
    requires |s| > 1 && IsAlnum(s[0]) && IsAlnum(s[1])
    ensures Dashed(s) == [s[0]] + Dashed(s[1..])
  {
    var t := s[1..];
    var ws := Words(t);
    assert t[|t| - 1] == s[|s| - 1];
    assert t[0] == s[1] && ws != [];
    assert Words(s) == [[s[0]] + ws[0]] + ws[1..];
    JoinLonger(s[0], ws);
    LongerInside(s[0], Join(ws), Edge(EndsOutside(s)));
  }

  lemma {:induction false} JoinLonger(c: char, ws: seq<string>)
    requires ws != []
    ensures Join([[c] + ws[0]] + ws[1..]) == [c] + Join(ws)
  {
    assert ([[c] + ws[0]] + ws[1..])[1..] == ws[1..];
    if |ws| > 1 {
      assert ([c] + ws[0]) + "-" + Join(ws[1..]) == [c] + (ws[0] + "-" + Join(ws[1..]));
    }
  }

  lemma {:induction false} LongerInside(c: char, joined: string, end: string)
    ensures "" + ([c] + joined) + end == [c] + ("" + joined + end)
  {
  }

  lemma {:induction false} DashedAtWordEnd(s: string)
    requires |s| > 1 && IsAlnum(s[0]) && !IsAlnum(s[1])
    ensures Dashed(s) == [s[0]] + Dashed(s[1..])
  {
    var t := s[1..];
    var ws := Words(t);
    assert t[|t| - 1] == s[|s| - 1] && t[0] == s[1];
    assert Words(s) == [[s[0]]] + ws;
    if ws == [] {
      WordsAreFound(t);
      assert t[|t| - 1] in t;
      assert Join(Words(s)) == [s[0]];
    } else {
      JoinBefore([s[0]], ws);
      DashedParts(s[0], Join(ws), Edge(EndsOutside(s)));
    }
  }

  lemma {:induction false} JoinBefore(w: string, ws: seq<string>)
    requires ws != []
    ensures Join([w] + ws) == w + "-" + Join(ws)
  {
    assert ([w] + ws)[1..] == ws;
  }

  lemma {:induction false} DashedParts(c: char, joined: string, end: string)
    ensures "" + ([c] + "-" + joined) + end == [c] + ("-" + joined + end)
  {
  }

  lemma {:induction false} DashedAfterOutside(s: string)
    requires s != [] && !IsAlnum(s[0])
    ensures Dashed(s) == if |s| > 1 && !IsAlnum(s[1]) then Dashed(s[1..]) else "-" + Dashed(s[1..])
  {
    var t := s[1..];
    assert Words(s) == Words(t);
    assert t != [] ==> t[|t| - 1] == s[|s| - 1];
  }

  lemma {:induction false} JoinEnds(ws: seq<string>)
    requires ws != [] && AllWords(ws)
    ensures Join(ws) != [] && IsAlnum(Join(ws)[0]) && IsAlnum(Join(ws)[|Join(ws)| - 1])
  {
    assert IsWord(ws[0]);
    if |ws| > 1 {
      JoinEnds(ws[1..]);
    }
  }

  lemma {:induction false} WordsOfJoin(ws: seq<string>, tail: string)
    requires AllWords(ws) && ws != []
    requires tail == "" || tail == "-"
    ensures Words(Join(ws) + tail) == ws
    decreases |ws|, |ws[0]|
  {
    assert IsWord(ws[0]);
    if |ws[0]| > 1 {
      var shorter := [ws[0][1..]] + ws[1..];
      FirstLetter(ws, shorter, tail);
      WordsOfJoin(shorter, tail);
      WordsLonger(ws, shorter, Join(ws) + tail, Join(shorter) + tail);
    } else if |ws| > 1 {
      WordsOfJoin(ws[1..], tail);
      WordsAfterDash(ws, tail);
    } else {
      LastLetter(ws[0], tail);
    }
  }

  lemma {:induction false} FirstLetter(ws: seq<string>, shorter: seq<string>, tail: string)
    requires AllWords(ws) && ws != [] && |ws[0]| > 1 && shorter == [ws[0][1..]] + ws[1..]
    ensures AllWords(shorter) && Join(ws) + tail == [ws[0][0]] + (Join(shorter) + tail)
    ensures Join(shorter) + tail != [] && (Join(shorter) + tail)[0] == ws[0][1] && IsAlnum(ws[0][0])
    ensures IsAlnum(ws[0][1])
  {
    assert IsWord(ws[0]);
    assert ws[0] == [ws[0][0]] + shorter[0];
    assert ws == [[ws[0][0]] + shorter[0]] + shorter[1..];
    JoinLonger(ws[0][0], shorter);
    assert IsWord(shorter[0]) by {
      assert forall i | 0 <= i < |shorter[0]| :: shorter[0][i] == ws[0][i + 1];
    }
    assert Join(shorter)[0] == shorter[0][0];
  }

  lemma {:induction false} WordsLonger(ws: seq<string>, shorter: seq<string>, s: string, t: string)
    requires ws != [] && |ws[0]| > 1 && shorter == [ws[0][1..]] + ws[1..]
    requires s == [ws[0][0]] + t && t != [] && IsAlnum(ws[0][0]) && IsAlnum(t[0]) && Words(t) == shorter
    ensures Words(s) == ws
  {
    assert s[1..] == t && s[1] == t[0];
    assert ws[0] == [ws[0][0]] + shorter[0] && shorter[1..] == ws[1..];
    assert ws == [[ws[0][0]] + shorter[0]] + shorter[1..];
  }

  lemma {:induction false} WordsAfterDash(ws: seq<string>, tail: string)
    requires AllWords(ws) && |ws| > 1 && |ws[0]| == 1 && Words(Join(ws[1..]) + tail) == ws[1..]
    ensures Words(Join(ws) + tail) == ws
  {
    var s, rest := Join(ws) + tail, Join(ws[1..]) + tail;
    assert IsWord(ws[0]);
    assert ws[0] == [ws[0][0]];
    assert s == [ws[0][0]] + ("-" + rest);
    assert s[1..] == "-" + rest && ("-" + rest)[1..] == rest;
    assert ws == [[s[0]]] + ws[1..];
  }

  lemma {:induction false} LastLetter(w: string, tail: string)
    requires IsWord(w) && |w| == 1 && (tail == "" || tail == "-")
    ensures Words(w + tail) == [w]
  {
    var s := w + tail;
    assert s[1..] == tail && Words(tail) == [] && w == [s[0]];
    assert [w] + [] == [w];
  }

  lemma {:induction false} TrimLeftMeaning(s: string)
    ensures Words(s) == [] ==> TrimLeft(Collapse(s)) == []
    ensures Words(s) != [] ==> TrimLeft(Collapse(s)) == Join(Words(s)) + Edge(EndsOutside(s))
  {
    CollapseMeaning(s);
    if Words(s) == [] {
      assert TrimLeft("-") == TrimLeft("") == "";
    } else {
      JoinEnds(Words(s));
      TrimEdge(StartsOutside(s), Join(Words(s)) + Edge(EndsOutside(s)));
      EdgeFirst(Edge(StartsOutside(s)), Join(Words(s)), Edge(EndsOutside(s)));
    }
  }

  lemma {:induction false} EdgeFirst(l: string, joined: string, r: string)
    ensures l + joined + r == l + (joined + r)
  {
  }

  lemma {:induction false} TrimEdge(outside: bool, rest: string)
    requires rest != [] && IsAlnum(rest[0])
    ensures TrimLeft(Edge(outside) + rest) == rest
  {
    assert TrimLeft(rest) == rest;
    if outside {
      assert ("-" + rest)[1..] == rest;
    } else {
      assert "" + rest == rest;
    }
  }

  /** A host's name is its alphanumeric words joined by dashes, with one dash kept if the host ends in other
      characters. */
  lemma {:induction false} NameFromHostMeaning(host: string)
    ensures host == "" || host == "*" ==> NameFromHost(host) == "all-hosts"
    ensures host != "" && host != "*" && Words(host) == [] ==> NameFromHost(host) == ""
    ensures host != "" && host != "*" && Words(host) != [] ==>
              NameFromHost(host) == Join(Words(host)) + Edge(EndsOutside(host))
  {
    TrimLeftMeaning(host);
  }

  /** Naming a host name again changes nothing, exactly when the first naming left something. */
  lemma {:induction false} NameFromHostIdempotent(host: string)
    ensures NameFromHost(NameFromHost(host)) == NameFromHost(host) <==> NameFromHost(host) != ""
  {
    var name := NameFromHost(host);
    NameFromHostMeaning(host);
    if host == "" || host == "*" {
      NamesOfAllHosts();
    } else if Words(host) != [] {
      JoinEnds(Words(host));
      NameFromHostMeaning(name);
      WordsOfJoin(Words(host), Edge(EndsOutside(host)));
      assert EndsOutside(name) <==> EndsOutside(host);
    }
  }

  lemma {:induction false} NamesOfAllHosts()
    ensures NameFromHost("all-hosts") == "all-hosts"
  {
    var ws := ["all", "hosts"];
    assert Join(ws[1..]) == "hosts";
    assert Join(ws) + "" == "all-hosts";
    WordsOfJoin(ws, "");
    NameFromHostMeaning("all-hosts");
  }

  /** Different hosts can share a name: `a.b` and `a-b` do. */
  lemma {:induction false} HostNamesCollide()
    ensures NameFromHost("a.b") == NameFromHost("a-b")
  {
    assert "a.b"[1..] == ".b" && "a-b"[1..] == "-b" && ".b"[1..] == "b" && "-b"[1..] == "b";
    assert Collapse(".b") == "-" + Collapse("b") == Collapse("-b");
    assert Collapse("a.b") == Collapse("a-b");
  }

  // ---- rule names ----

  lemma {:induction false} ToLowerOfConcat(a: string, b: string)
    ensures ToLower(a + b) == ToLower(a) + ToLower(b)
  {
  }

  lemma {:induction false} ToLowerOfJoin(ws: seq<string>)
    ensures ToLower(Join(ws)) == Join(LowerWords(ws))
  {
    if |ws| == 1 {
    } else if ws != [] {
      ToLowerOfJoin(ws[1..]);
      LowerAfterDash(ws[0], Join(ws[1..]));
      assert LowerWords(ws)[1..] == LowerWords(ws[1..]);
    }
  }

  lemma {:induction false} LowerAfterDash(w: string, rest: string)
    ensures ToLower(w + "-" + rest) == ToLower(w) + "-" + ToLower(rest)
  {
  }

  predicate LowerWord(w: string) { w != [] && forall i | 0 <= i < |w| :: IsLowerAlnum(w[i]) }

  lemma {:induction false} LowerWordsAreWords(ws: seq<string>)
    requires AllWords(ws)
    ensures AllWords(LowerWords(ws))
    ensures forall i | 0 <= i < |ws| :: LowerWord(LowerWords(ws)[i])
  {
    forall i | 0 <= i < |ws| ensures LowerWord(LowerWords(ws)[i]) && IsWord(LowerWords(ws)[i]) {
      assert IsWord(ws[i]);
      LowerOfWord(ws[i]);
    }
  }

  lemma {:induction false} LowerOfWord(w: string)
    requires IsWord(w)
    ensures LowerWord(ToLower(w)) && IsWord(ToLower(w))
  {
  }

  lemma {:induction false} TrimBoth(core: string, left: bool, right: bool)
    requires core != [] && core[0] != '-' && core[|core| - 1] != '-'
    ensures TrimDashesRight(TrimDashesLeft(Edge(left) + core + Edge(right))) == core
  {
    var rest := core + Edge(right);
    assert Edge(left) + core + Edge(right) == Edge(left) + rest;
    if left {
      assert ("-" + rest)[1..] == rest;
    } else {
      assert Edge(left) + rest == rest;
    }
    assert TrimDashesLeft(Edge(left) + rest) == rest;
    if right {
      assert rest[..|rest| - 1] == core;
    } else {
      assert rest == core;
    }
  }

  /** The path part is exactly the path's alphanumeric words, in lower case, joined by single dashes. */
  lemma {:induction false} SanitizePathMeaning(path: string)
    ensures SanitizePath(path) == Join(LowerWords(Words(path)))
  {
    var ws := Words(path);
    CollapseMeaning(path);
    ToLowerOfJoin(ws);
    LowerWordsAreWords(ws);
    if ws == [] {
      assert ToLower(Edge(path != [])) == Edge(path != []);
      assert TrimDashesLeft("-") == TrimDashesLeft("") == "";
    } else {
      JoinEnds(LowerWords(ws));
      var l, r := StartsOutside(path), EndsOutside(path);
      ToLowerOfConcat(Edge(l) + Join(ws), Edge(r));
      ToLowerOfConcat(Edge(l), Join(ws));
      assert ToLower(Edge(l)) == Edge(l) && ToLower(Edge(r)) == Edge(r);
      TrimBoth(Join(LowerWords(ws)), l, r);
    }
  }

  lemma {:induction false} JoinOfLowerWords(ws: seq<string>)
    requires ws != [] && forall i | 0 <= i < |ws| :: LowerWord(ws[i])
    ensures var j := Join(ws);
            j != [] && IsLowerAlnum(j[0]) && IsLowerAlnum(j[|j| - 1])
            && forall i | 0 <= i < |j| :: IsLowerAlnum(j[i]) || j[i] == '-'
  {
    assert LowerWord(ws[0]);
    if |ws| > 1 {
      JoinOfLowerWords(ws[1..]);
    }
  }

  /** Canonical form: sanitising again is the identity, and the `path-` fallback is never taken. */
  lemma {:induction false} SanitizePathCanonical(path: string)
    ensures SanitizePath(SanitizePath(path)) == SanitizePath(path)
    ensures SanitizePath(path) != "" ==> IsLowerAlnum(SanitizePath(path)[0])
    ensures SanitizePath(path) == "" <==> forall c | c in path :: !IsAlnum(c)
  {
    var ws := LowerWords(Words(path));
    SanitizePathMeaning(path);
    WordsAreFound(path);
    LowerWordsAreWords(Words(path));
    if ws != [] {
      JoinOfLowerWords(ws);
      JoinEnds(ws);
      SanitizePathMeaning(Join(ws));
      WordsOfJoin(ws, "");
      assert Join(ws) + "" == Join(ws);
      LowerAgain(Words(path));
    }
  }

  lemma {:induction false} LowerAgain(ws: seq<string>)
    ensures LowerWords(LowerWords(ws)) == LowerWords(ws)
  {
    forall i | 0 <= i < |ws| ensures ToLower(ToLower(ws[i])) == ToLower(ws[i]) {
    }
  }

  /** A rule name, spelled out: its number, its path type, and the words of its path. */
  lemma {:induction false} RuleNameReads(t: PathType, path: string, n: nat)
    ensures var name := RuleName(t, path, n);
            var part := if path == "" then "empty" else if path == "/" then "root" else SanitizePath(path);
            match t
            case ImplementationSpecificPath => name == "rule-" + Decimal(n) + "-" + "impl-specific"
            case PrefixPath => name == "rule-" + Decimal(n) + "-" + ("prefix-" + part)
            case ExactPath => name == "rule-" + Decimal(n) + "-" + ("exact-" + part)
  {
    assert ToLower("Prefix") == "prefix" && ToLower("Exact") == "exact";
    assert "prefix" + "-" == "prefix-" && "exact" + "-" == "exact-";
    SanitizePathCanonical(path);
  }

  /** A DNS-1123 label: at most 63 of `[a-z0-9-]`, alphanumeric at both ends. */
  predicate DnsLabel(s: string) {
    && 0 < |s| <= 63
    && IsLowerAlnum(s[0]) && IsLowerAlnum(s[|s| - 1])
    && forall i | 0 <= i < |s| :: IsLowerAlnum(s[i]) || s[i] == '-'
  }

  predicate DnsChars(s: string) { forall i | 0 <= i < |s| :: IsLowerAlnum(s[i]) || s[i] == '-' }

  /** The label of a rule is made of DNS characters; it ends in a dash when the path leaves no word, and only then. */
  lemma {:induction false} RuleLabelChars(t: PathType, path: string)
    ensures var text := RuleLabel(t, path);
            text != "" && DnsChars(text)
            && (IsLowerAlnum(text[|text| - 1]) <==>
                t.ImplementationSpecificPath? || path == "" || path == "/" || exists c | c in path :: IsAlnum(c))
  {
    if !t.ImplementationSpecificPath? {
      PathPartChars(path);
      LabelParts(ToLower(PathTypeName(t)), RuleNamePathPart(path));
    }
  }

  lemma {:induction false} LabelParts(typ: string, part: string)
    requires DnsChars(typ) && DnsChars(part) && (part != "" ==> IsLowerAlnum(part[|part| - 1]))
    ensures var text := typ + "-" + part;
            DnsChars(text) && (IsLowerAlnum(text[|text| - 1]) <==> part != "")
  {
  }

  /** The path part is empty exactly when the path leaves no word; otherwise it ends in a letter or digit. */
  lemma {:induction false} PathPartChars(path: string)
    ensures var part := RuleNamePathPart(path);
            && DnsChars(part) && (part != "" ==> IsLowerAlnum(part[|part| - 1]))
            && (part != "" <==> path == "" || path == "/" || exists c | c in path :: IsAlnum(c))
  {
    SanitizePathCanonical(path);
    SanitizePathMeaning(path);
    LowerWordsAreWords(Words(path));
    if LowerWords(Words(path)) != [] {
      JoinOfLowerWords(LowerWords(Words(path)));
    }
  }

  lemma {:induction false} NumberPrefixChars(n: nat)
    ensures DnsChars(NumberPrefix(n)) && IsLowerAlnum(NumberPrefix(n)[0])
  {
    assert forall i | 0 <= i < |Decimal(n)| :: Decimal(n)[i] in Decimal(n);
  }

  /** The comment promises "a valid DNS label name". That holds exactly when index, path type and sanitised
      path are short enough together and the path is empty, is `/`, or has an alphanumeric character. */
  lemma {:induction false} RuleNameIsDnsLabel(t: PathType, path: string, ruleIdx: nat)
    ensures DnsLabel(RuleName(t, path, ruleIdx)) <==>
            |Decimal(ruleIdx)| + LabelLength(t, path) <= 57
            && (t.ImplementationSpecificPath? || path == "" || path == "/" || exists c | c in path :: IsAlnum(c))
  {
    NumberPrefixChars(ruleIdx);
    RuleLabelChars(t, path);
    RuleNameLength(t, path, ruleIdx);
    var prefix, text := NumberPrefix(ruleIdx), RuleLabel(t, path);
    assert (prefix + text)[|prefix| + |text| - 1] == text[|text| - 1];
    assert DnsChars(prefix + text);
  }

  /** So the paths slash-dash and slash-star, which Kubernetes accepts, give names that are no labels. */
  lemma {:induction false} SymbolPathsGiveNoLabel(ruleIdx: nat)
    ensures !DnsLabel(RuleName(ExactPath, "/-", ruleIdx)) && !DnsLabel(RuleName(PrefixPath, "/*", ruleIdx))
  {
    TwoSymbolsGiveNoLabel(ExactPath, '/', '-', ruleIdx);
    TwoSymbolsGiveNoLabel(PrefixPath, '/', '*', ruleIdx);
  }

  lemma {:induction false} TwoSymbolsGiveNoLabel(t: PathType, a: char, b: char, ruleIdx: nat)
    requires !t.ImplementationSpecificPath? && !IsAlnum(a) && !IsAlnum(b)
    ensures !DnsLabel(RuleName(t, [a, b], ruleIdx))
  {
    var path := [a, b];
    RuleNameIsDnsLabel(t, path, ruleIdx);
    assert |path| == 2 && forall c | c in path :: c == a || c == b;
  }

  /** The length of what follows the number: a fixed text, or the path type, a dash and the path part. */
  function LabelLength(t: PathType, path: string): nat {
    if t.ImplementationSpecificPath? then 13
    else (if t.ExactPath? then 5 else 6) + 1
         + if path == "" then 5 else if path == "/" then 4 else |SanitizePath(path)|
  }

  lemma {:induction false} RuleNameLength(t: PathType, path: string, ruleIdx: nat)
    ensures |RuleName(t, path, ruleIdx)| == 5 + |Decimal(ruleIdx)| + 1 + LabelLength(t, path)
  {
    SanitizePathCanonical(path);
    assert |ToLower(PathTypeName(t))| == |PathTypeName(t)|;
  }

  /** A name generated for rule number `n`, with or without a canary suffix. */
  predicate NumberedName(name: string, n: nat) { NumberPrefix(n) <= name }

  /** The decimal prefix pins the rule number down. */
  lemma {:induction false} NumberIsUnique(name: string, m: nat, n: nat)
    requires NumberedName(name, m) && NumberedName(name, n)
    ensures m == n
  {
    AfterPrefix(name, m);
    AfterPrefix(name, n);
    JoinIsInjective(Decimal(m), name[|NumberPrefix(m)|..], Decimal(n), name[|NumberPrefix(n)|..], '-');
    DecimalRoundTrip(m);
    DecimalRoundTrip(n);
  }

  lemma {:induction false} AfterPrefix(name: string, n: nat)
    requires NumberedName(name, n)
    ensures |name| >= 5 && name[5..] == Decimal(n) + "-" + name[|NumberPrefix(n)|..]
  {
    assert name == NumberPrefix(n) + name[|NumberPrefix(n)|..];
  }

  const APP_ROOT_RULE := "rule-for-app-root-redirect"

  lemma {:induction false} AppRootIsNotNumbered(n: nat)
    ensures !NumberedName(APP_ROOT_RULE, n)
  {
    assert NumberPrefix(n)[5] == Decimal(n)[0];
    assert Decimal(n)[0] in Decimal(n);
  }
}
