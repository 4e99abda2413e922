/** Which listeners a converted Gateway has for a hostname, whether their names tell them apart, and which routes find
    a Gateway at all. */
module Listeners {
  import opened Text
  import opened Names
  import opened Kube
  import opened Collect
  import opened Grouping
  import opened Paths
  import opened Converter
  import opened Sorting
  import opened Correctness
  import opened Determinism
  import Pass = Passthrough

  predicate SameGateway(a: RuleGroup, b: RuleGroup) { a.namespace == b.namespace && a.ingressClass == b.ingressClass }

  ghost predicate PlainGroups(order: seq<RuleGroup>) {
    forall i | 0 <= i < |order| :: '/' !in order[i].namespace && '/' !in order[i].ingressClass
  }

  lemma {:induction false} KeysSplitUniquely(a: string, b: string, c: string, d: string)
    requires '/' !in a && '/' !in c
    ensures a + "/" + b == c + "/" + d <==> a == c && b == d
  {
    if a + "/" + b == c + "/" + d {
      JoinIsInjective(a, b, c, d, '/');
    }
  }

  lemma {:induction false} GroupsArePlain(ings: seq<Ingress>)
    requires SlashFree(ings) && ClassesSlashFree(ings)
    ensures PlainGroups(InOrder(Groups(AllRules(ings))))
  {
    var groups := Groups(AllRules(ings));
    var order := InOrder(groups);
    AllRulesPlain(ings);
    forall i | 0 <= i < |order| ensures '/' !in order[i].namespace && '/' !in order[i].ingressClass {
      GroupIsHomogeneous(AllRules(ings), SortedStrings(groups.Keys)[i]);
    }
  }

  lemma {:induction false} KeyOfPosition(groups: map<string, RuleGroup>, i: nat) returns (k: string)
    requires i < |InOrder(groups)|
    ensures k in groups && groups[k] == InOrder(groups)[i]
  {
    k := SortedStrings(groups.Keys)[i];
  }

  // ---- HTTPS listeners of a hostname ----

  /** Some TLS group of the Gateway's key wants the hostname. */
  ghost predicate WantedWithTls(order: seq<RuleGroup>, key: string, hostname: Option<string>) {
    exists i | 0 <= i < |order| :: GatewayKey(order[i]) == key && WantsTls(order[i], hostname)
  }

  predicate WantsTls(rg: RuleGroup, hostname: Option<string>) { rg.tls != [] && WantedBy(rg).hostname == hostname }

  lemma {:induction false} WantedInIff(order: seq<RuleGroup>, key: string, w: Wanted)
    ensures w in WantedIn(order, key) <==>
            exists i | 0 <= i < |order| :: GatewayKey(order[i]) == key && WantedBy(order[i]) == w
  {
    if order != [] {
      var n := |order| - 1;
      WantedInIff(order[..n], key, w);
      if i :| 0 <= i < |order| && GatewayKey(order[i]) == key && WantedBy(order[i]) == w {
        assert i < n ==> order[..n][i] == order[i];
      }
    }
  }

  /** Some TLS listener is wanted for the hostname. */
  ghost predicate TlsWanted(ws: seq<Wanted>, hostname: Option<string>) {
    exists w | w in ws :: w.certs.Some? && w.hostname == hostname
  }

  lemma {:induction false} HttpsOf(ws: seq<Wanted>, hostname: Option<string>)
    ensures Pass.HasHttps(ListenersOf(ws), hostname) <==> TlsWanted(ws, hostname)
  {
    var ls := ListenersOf(ws);
    ListenersMembers(ws);
    Pass.InIndex(ls, hostname);
    if Pass.HasHttps(ls, hostname) {
      var l :| l in ls && l.protocol == HTTPS && l.hostname == hostname;
      var w :| w in ws && (l == HttpListener(w) || (w.certs.Some? && l == HttpsListener(w)));
    }
    if w :| w in ws && w.certs.Some? && w.hostname == hostname {
      assert HttpsListener(w) in ls;
    }
  }

  lemma {:induction false} TlsWantedIff(order: seq<RuleGroup>, key: string, hostname: Option<string>)
    ensures TlsWanted(WantedIn(order, key), hostname) <==> WantedWithTls(order, key, hostname)
  {
    var ws := WantedIn(order, key);
    if w :| w in ws && w.certs.Some? && w.hostname == hostname {
      WantedInIff(order, key, w);
      var i :| 0 <= i < |order| && GatewayKey(order[i]) == key && WantedBy(order[i]) == w;
      assert WantsTls(order[i], hostname);
    }
    if i :| 0 <= i < |order| && GatewayKey(order[i]) == key && WantsTls(order[i], hostname) {
      WantedInIff(order, key, WantedBy(order[i]));
    }
  }

  lemma {:induction false} HttpsIff(order: seq<RuleGroup>, ir: ProviderIR, nn: NamespacedName, hostname: Option<string>)
    requires ByName(GatewaysByKey(order, GatewayKeys(order)), ir.gateways) && nn in ir.gateways
    ensures Pass.HasHttps(ir.gateways[nn].listeners, hostname) <==>
            WantedWithTls(order, nn.namespace + "/" + nn.name, hostname)
  {
    var key := nn.namespace + "/" + nn.name;
    GatewayListenersAre(order, ir, nn);
    HttpsOf(WantedIn(order, key), hostname);
    TlsWantedIff(order, key, hostname);
  }

  /** A group's Gateway terminates TLS for the group's hostname iff some group with TLS on that Gateway, not necessarily
      this one, wants that hostname. */
  lemma {:induction false} HttpsListenerIff(ings: seq<Ingress>, env: Env, ir: ProviderIR, k: string)
    requires SlashFree(ings) && ClassesSlashFree(ings)
    requires IsConversion(Groups(AllRules(ings)), AllDefaults(ings), env, ir)
    requires k in Groups(AllRules(ings))
    ensures var groups := Groups(AllRules(ings));
            var rg, nn := groups[k], NN(groups[k].namespace, groups[k].ingressClass);
            nn in ir.gateways &&
            (Pass.HasHttps(ir.gateways[nn].listeners, WantedBy(rg).hostname) <==>
             exists j | j in groups :: SameGateway(groups[j], rg) && WantsTls(groups[j], WantedBy(rg).hostname))
  {
    var groups := Groups(AllRules(ings));
    var order, rg, nn := InOrder(groups), groups[k], NN(groups[k].namespace, groups[k].ingressClass);
    GatewayFitsGroup(ings, env, ir, k);
    GroupsArePlain(ings);
    HttpsIff(order, ir, nn, WantedBy(rg).hostname);
    var p := PositionOf(groups, k);
    forall i | 0 <= i < |order|
      ensures GatewayKey(order[i]) == nn.namespace + "/" + nn.name <==> SameGateway(order[i], rg)
    {
      KeysSplitUniquely(order[i].namespace, order[i].ingressClass, nn.namespace, nn.name);
    }
    if WantedWithTls(order, nn.namespace + "/" + nn.name, WantedBy(rg).hostname) {
      var i :| 0 <= i < |order| && GatewayKey(order[i]) == nn.namespace + "/" + nn.name
               && WantsTls(order[i], WantedBy(rg).hostname);
      var j := KeyOfPosition(groups, i);
      assert SameGateway(groups[j], rg);
    }
    if j :| j in groups && SameGateway(groups[j], rg) && WantsTls(groups[j], WantedBy(rg).hostname) {
      var i := PositionOf(groups, j);
      assert GatewayKey(order[i]) == nn.namespace + "/" + nn.name;
    }
  }

  // ---- listener names ----

  ghost predicate NamesUnique(ls: seq<Listener>) { forall i, j | 0 <= i < j < |ls| :: ls[i].name != ls[j].name }

  ghost predicate NameIn(ls: seq<Listener>, name: string) { exists i | 0 <= i < |ls| :: ls[i].name == name }

  ghost predicate PrefixIn(ws: seq<Wanted>, prefix: string) {
    exists i | 0 <= i < |ws| :: ListenerPrefix(ws[i].hostname) == prefix
  }

  ghost predicate PrefixesApart(ws: seq<Wanted>) {
    forall i, j | 0 <= i < j < |ws| :: ListenerPrefix(ws[i].hostname) != ListenerPrefix(ws[j].hostname)
  }

  lemma {:induction false} NamesSnoc(ls: seq<Listener>, l: Listener, name: string)
    ensures NameIn(ls + [l], name) <==> NameIn(ls, name) || l.name == name
    ensures NamesUnique(ls + [l]) <==> NamesUnique(ls) && !NameIn(ls, l.name)
  {
    var all := ls + [l];
    assert all[|ls|] == l;
    assert forall i | 0 <= i < |ls| :: all[i] == ls[i];
  }

  lemma {:induction false} PrefixSnoc(t: seq<Wanted>, w: Wanted, prefix: string)
    ensures PrefixIn(t + [w], prefix) <==> PrefixIn(t, prefix) || ListenerPrefix(w.hostname) == prefix
    ensures PrefixesApart(t + [w]) <==> PrefixesApart(t) && !PrefixIn(t, ListenerPrefix(w.hostname))
  {
    var all := t + [w];
    assert all[|t|] == w;
    assert forall i | 0 <= i < |t| :: all[i] == t[i];
  }

  lemma {:induction false} SuffixesTellApart(p: string, q: string)
    ensures p + "http" == q + "http" <==> p == q
    ensures p + "https" == q + "https" <==> p == q
    ensures p + "http" != q + "https"
  {
    assert (p + "http")[..|p|] == p && (q + "http")[..|q|] == q;
    assert (p + "https")[..|p|] == p && (q + "https")[..|q|] == q;
    assert (p + "http")[|p| + 3] == 'p' && (q + "https")[|q| + 4] == 's';
  }

  lemma {:induction false} ListenersSnoc(t: seq<Wanted>, w: Wanted)
    ensures w.certs.None? ==> ListenersOf(t + [w]) == ListenersOf(t) + [HttpListener(w)]
    ensures w.certs.Some? ==> ListenersOf(t + [w]) == ListenersOf(t) + [HttpListener(w)] + [HttpsListener(w)]
  {
    assert (t + [w])[..|t|] == t;
  }

  lemma {:induction false} AddedNames(ls: seq<Listener>, w: Wanted, all: seq<Listener>, prefix: string)
    requires all == if w.certs.Some? then ls + [HttpListener(w)] + [HttpsListener(w)] else ls + [HttpListener(w)]
    ensures NameIn(all, prefix + "http") <==> NameIn(ls, prefix + "http") || ListenerPrefix(w.hostname) == prefix
    ensures NameIn(all, prefix + "https") ==> NameIn(ls, prefix + "https") || ListenerPrefix(w.hostname) == prefix
    ensures NamesUnique(all) <==>
            NamesUnique(ls) && !NameIn(ls, HttpListener(w).name)
            && (w.certs.Some? ==> !NameIn(ls, ListenerPrefix(w.hostname) + "https"))
  {
    var p := ListenerPrefix(w.hostname);
    SuffixesTellApart(p, prefix);
    SuffixesTellApart(prefix, p);
    SuffixesTellApart(p, p);
    NamesSnoc(ls, HttpListener(w), prefix + "http");
    NamesSnoc(ls, HttpListener(w), prefix + "https");
    NamesSnoc(ls, HttpListener(w), p + "https");
    if w.certs.Some? {
      NamesSnoc(ls + [HttpListener(w)], HttpsListener(w), prefix + "http");
      NamesSnoc(ls + [HttpListener(w)], HttpsListener(w), prefix + "https");
    }
  }

  lemma {:induction false} ListenerNames(ws: seq<Wanted>, prefix: string)
    ensures NameIn(ListenersOf(ws), prefix + "http") <==> PrefixIn(ws, prefix)
    ensures NameIn(ListenersOf(ws), prefix + "https") ==> PrefixIn(ws, prefix)
  {
    if ws != [] {
      var t, w := ws[..|ws| - 1], ws[|ws| - 1];
      assert ws == t + [w];
      ListenerNames(t, prefix);
      ListenersSnoc(t, w);
      PrefixSnoc(t, w, prefix);
      AddedNames(ListenersOf(t), w, ListenersOf(ws), prefix);
    }
  }

  lemma {:induction false} NamesUniqueIff(ws: seq<Wanted>)
    ensures NamesUnique(ListenersOf(ws)) <==> PrefixesApart(ws)
  {
    if ws != [] {
      var t, w := ws[..|ws| - 1], ws[|ws| - 1];
      var p := ListenerPrefix(w.hostname);
      assert ws == t + [w];
      NamesUniqueIff(t);
      ListenerNames(t, p);
      ListenersSnoc(t, w);
      PrefixSnoc(t, w, p);
      AddedNames(ListenersOf(t), w, ListenersOf(ws), p);
    }
  }

  // ---- the same, on the groups ----

  /** The hostnames give one listener name prefix: both absent or empty, or with one sanitised form. */
  predicate SameForm(a: Option<string>, b: Option<string>) {
    var x, y := a.Some? && a.value != "", b.Some? && b.value != "";
    x == y && (x ==> NameFromHost(a.value) == NameFromHost(b.value))
  }

  lemma {:induction false} SameFormIff(a: Option<string>, b: Option<string>)
    ensures ListenerPrefix(a) == ListenerPrefix(b) <==> SameForm(a, b)
  {
    var p, q := ListenerPrefix(a), ListenerPrefix(b);
    if a.Some? && a.value != "" && b.Some? && b.value != "" {
      assert p[..|p| - 1] == NameFromHost(a.value) && q[..|q| - 1] == NameFromHost(b.value);
    }
  }

  /** No two groups of the key want hostnames of one form. */
  ghost predicate FormsApart(order: seq<RuleGroup>, key: string) {
    forall i, j | 0 <= i < j < |order| && GatewayKey(order[i]) == key && GatewayKey(order[j]) == key ::
      !SameForm(WantedBy(order[i]).hostname, WantedBy(order[j]).hostname)
  }

  ghost predicate FormIn(order: seq<RuleGroup>, key: string, hostname: Option<string>) {
    exists i | 0 <= i < |order| :: GatewayKey(order[i]) == key && SameForm(WantedBy(order[i]).hostname, hostname)
  }

  lemma {:induction false} FormSnoc(t: seq<RuleGroup>, rg: RuleGroup, key: string, hostname: Option<string>)
    ensures FormIn(t + [rg], key, hostname) <==>
            FormIn(t, key, hostname) || (GatewayKey(rg) == key && SameForm(WantedBy(rg).hostname, hostname))
    ensures FormsApart(t + [rg], key) <==>
            FormsApart(t, key) && (GatewayKey(rg) == key ==> !FormIn(t, key, WantedBy(rg).hostname))
  {
    var all := t + [rg];
    assert all[|t|] == rg;
    assert forall i | 0 <= i < |t| :: all[i] == t[i];
  }

  lemma {:induction false} WantedSnoc(t: seq<RuleGroup>, rg: RuleGroup, key: string)
    ensures GatewayKey(rg) == key ==> WantedIn(t + [rg], key) == WantedIn(t, key) + [WantedBy(rg)]
    ensures GatewayKey(rg) != key ==> WantedIn(t + [rg], key) == WantedIn(t, key)
  {
    assert (t + [rg])[..|t|] == t;
    assert WantedIn(t, key) + [] == WantedIn(t, key);
  }

  lemma {:induction false} FormInIff(order: seq<RuleGroup>, key: string, hostname: Option<string>)
    ensures PrefixIn(WantedIn(order, key), ListenerPrefix(hostname)) <==> FormIn(order, key, hostname)
  {
    if order != [] {
      var t, rg := order[..|order| - 1], order[|order| - 1];
      assert order == t + [rg];
      FormInIff(t, key, hostname);
      FormSnoc(t, rg, key, hostname);
      WantedSnoc(t, rg, key);
      PrefixSnoc(WantedIn(t, key), WantedBy(rg), ListenerPrefix(hostname));
      SameFormIff(WantedBy(rg).hostname, hostname);
    }
  }

  lemma {:induction false} FormsApartIff(order: seq<RuleGroup>, key: string)
    ensures PrefixesApart(WantedIn(order, key)) <==> FormsApart(order, key)
  {
    if order != [] {
      var t, rg := order[..|order| - 1], order[|order| - 1];
      assert order == t + [rg];
      FormsApartIff(t, key);
      FormSnoc(t, rg, key, WantedBy(rg).hostname);
      WantedSnoc(t, rg, key);
      PrefixSnoc(WantedIn(t, key), WantedBy(rg), ListenerPrefix(WantedBy(rg).hostname));
      FormInIff(t, key, WantedBy(rg).hostname);
    }
  }

  /** The listener names of a converted Gateway are distinct, as the Gateway API demands, iff no two rule groups of its
      namespace and class want hostnames of one sanitised form. */
  lemma {:induction false} ListenerNamesUniqueIff(order: seq<RuleGroup>, ir: ProviderIR, nn: NamespacedName)
    requires ByName(GatewaysByKey(order, GatewayKeys(order)), ir.gateways) && nn in ir.gateways
    ensures NamesUnique(ir.gateways[nn].listeners) <==> FormsApart(order, nn.namespace + "/" + nn.name)
  {
    var key := nn.namespace + "/" + nn.name;
    GatewayListenersAre(order, ir, nn);
    NamesUniqueIff(WantedIn(order, key));
    FormsApartIff(order, key);
  }

  /** A group for every host with one TLS entry for host `x`, beside a group for `x` without TLS: `x` gets an HTTPS
      listener all the same, and two listeners have one name. */
  lemma {:induction false} TlsHostMeetsPlainHost(ings: seq<Ingress>, env: Env, ir: ProviderIR, a: string, b: string,
          x: string, secret: string)
    requires SlashFree(ings) && ClassesSlashFree(ings)
    requires IsConversion(Groups(AllRules(ings)), AllDefaults(ings), env, ir)
    requires a in Groups(AllRules(ings)) && b in Groups(AllRules(ings)) && x != ""
    requires TlsBesidePlain(Groups(AllRules(ings))[a], Groups(AllRules(ings))[b], x, secret)
    ensures var nn := NN(Groups(AllRules(ings))[b].namespace, Groups(AllRules(ings))[b].ingressClass);
            nn in ir.gateways
            && Pass.HasHttps(ir.gateways[nn].listeners, Some(x)) && !NamesUnique(ir.gateways[nn].listeners)
  {
    var groups := Groups(AllRules(ings));
    GatewayFitsGroup(ings, env, ir, b);
    var i := PositionOf(groups, a);
    var j := PositionOf(groups, b);
    TlsBesidePlainAt(InOrder(groups), ir, i, j, x, secret);
  }

  predicate TlsBesidePlain(a: RuleGroup, b: RuleGroup, x: string, secret: string) {
    && SameGateway(a, b) && a.host == "" && a.tls == [IngressTLS([x], secret)]
    && b.host == x && b.tls == []
  }

  lemma {:induction false} TlsBesidePlainAt(order: seq<RuleGroup>, ir: ProviderIR, i: nat, j: nat, x: string,
          secret: string)
    requires ByName(GatewaysByKey(order, GatewayKeys(order)), ir.gateways) && i < |order| && j < |order|
    requires TlsBesidePlain(order[i], order[j], x, secret) && x != ""
    requires NN(order[j].namespace, order[j].ingressClass) in ir.gateways
    ensures var nn := NN(order[j].namespace, order[j].ingressClass);
            Pass.HasHttps(ir.gateways[nn].listeners, Some(x)) && !NamesUnique(ir.gateways[nn].listeners)
  {
    var nn := NN(order[j].namespace, order[j].ingressClass);
    HttpsIff(order, ir, nn, Some(x));
    ListenerNamesUniqueIff(order, ir, nn);
    BothWanted(order, nn.namespace + "/" + nn.name, i, j, x, secret);
  }

  lemma {:induction false} BothWanted(order: seq<RuleGroup>, key: string, i: nat, j: nat, x: string, secret: string)
    requires i < |order| && j < |order| && GatewayKey(order[i]) == key && GatewayKey(order[j]) == key
    requires TlsBesidePlain(order[i], order[j], x, secret) && x != ""
    ensures WantedWithTls(order, key, Some(x)) && !FormsApart(order, key)
  {
    assert WantsTls(order[i], Some(x));
    SameHostTwice(order, key, i, j);
  }

  lemma {:induction false} SameHostTwice(order: seq<RuleGroup>, key: string, i: nat, j: nat)
    requires i < |order| && j < |order| && i != j && GatewayKey(order[i]) == key && GatewayKey(order[j]) == key
    requires WantedBy(order[i]).hostname == WantedBy(order[j]).hostname
    ensures !FormsApart(order, key)
  {
    var lo, hi := if i < j then i else j, if i < j then j else i;
    assert SameForm(WantedBy(order[lo]).hostname, WantedBy(order[hi]).hostname);
  }

  // ---- parents of default-backend routes ----

  lemma {:induction false} DefaultIsPlain(ings: seq<Ingress>, d: nat)
    requires SlashFree(ings) && ClassesSlashFree(ings) && d < |AllDefaults(ings)|
    ensures '/' !in AllDefaults(ings)[d].namespace && '/' !in AllDefaults(ings)[d].ingressClass
  {
    var n := |ings| - 1;
    assert '/' !in ings[n].namespace && '/' !in IngressClass(ings[n]);
    if d < |AllDefaults(ings[..n])| {
      DefaultIsPlain(ings[..n], d);
    }
  }

  lemma {:induction false} GatewayExistsIff(order: seq<RuleGroup>, ir: ProviderIR, nn: NamespacedName)
    requires ByName(GatewaysByKey(order, GatewayKeys(order)), ir.gateways) && PlainGroups(order)
    requires '/' !in nn.namespace && '/' !in nn.name
    ensures nn in ir.gateways <==> SomeGroupIn(order, nn.namespace, nn.name)
  {
    if nn in ir.gateways {
      GatewayListenersAre(order, ir, nn);
      var i :| 0 <= i < |order| && GatewayKey(order[i]) == nn.namespace + "/" + nn.name;
      KeysSplitUniquely(order[i].namespace, order[i].ingressClass, nn.namespace, nn.name);
    }
    if i :| 0 <= i < |order| && order[i].namespace == nn.namespace && order[i].ingressClass == nn.name {
      GatewayServes(order, ir, i);
    }
  }

  /** Only rule groups make Gateways: the Gateway that a default-backend route names as its parent exists iff some rule
      group has its namespace and class. An Ingress with nothing but a default backend has none. */
  lemma {:induction false} DefaultParentIff(ings: seq<Ingress>, env: Env, ir: ProviderIR, d: nat)
    requires SlashFree(ings) && ClassesSlashFree(ings)
    requires IsConversion(Groups(AllRules(ings)), AllDefaults(ings), env, ir)
    requires d < |AllDefaults(ings)|
    ensures var db := AllDefaults(ings)[d];
            && DefaultRoute(db, env).route.parents == [db.ingressClass]
            && (NN(db.namespace, db.ingressClass) in ir.gateways <==>
                SomeGroupOf(Groups(AllRules(ings)), db.namespace, db.ingressClass))
  {
    var db := AllDefaults(ings)[d];
    DefaultIsPlain(ings, d);
    GroupsArePlain(ings);
    GatewayExistsIff(InOrder(Groups(AllRules(ings))), ir, NN(db.namespace, db.ingressClass));
    SomeGroupIff(Groups(AllRules(ings)), db.namespace, db.ingressClass);
  }

  /** Some group has the namespace and class. */
  ghost predicate SomeGroupOf(groups: map<string, RuleGroup>, namespace: string, ingressClass: string) {
    exists k | k in groups :: groups[k].namespace == namespace && groups[k].ingressClass == ingressClass
  }

  lemma {:induction false} SomeGroupIff(groups: map<string, RuleGroup>, namespace: string, ingressClass: string)
    ensures SomeGroupOf(groups, namespace, ingressClass) <==>
            SomeGroupIn(InOrder(groups), namespace, ingressClass)
  {
    var order := InOrder(groups);
    if k :| k in groups && groups[k].namespace == namespace && groups[k].ingressClass == ingressClass {
      var i := PositionOf(groups, k);
    }
    if i :| 0 <= i < |order| && order[i].namespace == namespace && order[i].ingressClass == ingressClass {
      var k := KeyOfPosition(groups, i);
    }
  }

  ghost predicate SomeGroupIn(order: seq<RuleGroup>, namespace: string, ingressClass: string) {
    exists i | 0 <= i < |order| :: order[i].namespace == namespace && order[i].ingressClass == ingressClass
  }
}
