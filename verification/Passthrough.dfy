/** TLS passthrough turns HTTPS listeners of a Gateway into TLS listeners, one hostname at a time. */
module Passthrough {
  import opened Text
  import opened Names
  import opened Kube
  import opened Collect

  function ListenerNameFor(hostname: Option<string>): string {
    if hostname.None? then "tls" else NameFromHost(hostname.value) + "-tls"
  }

  /** Only TLSRoutes of the Gateway's namespace may attach. */
  const TLS_ROUTES_ONLY := AllowedRoutes("Same", [RouteKind("gateway.networking.k8s.io", "TLSRoute")])

  function TlsListener(hostname: Option<string>): Listener {
    Listener(ListenerNameFor(hostname), hostname, 443, TLS, Some(ListenerTLS.Passthrough), Some(TLS_ROUTES_ONLY))
  }

  /** The listeners kept when `hostname` moves to TLS. */
  function WithoutHttps(ls: seq<Listener>, hostname: Option<string>): seq<Listener> {
    if ls == [] then []
    else
      var l := ls[|ls| - 1];
      WithoutHttps(ls[..|ls| - 1], hostname) + (if l.protocol == HTTPS && l.hostname == hostname then [] else [l])
  }

  predicate IsTlsFor(l: Listener, hostname: Option<string>) { l.protocol == TLS && l.hostname == hostname }

  ghost predicate HasTls(ls: seq<Listener>, hostname: Option<string>) {
    exists i | 0 <= i < |ls| :: IsTlsFor(ls[i], hostname)
  }

  ghost predicate HasHttps(ls: seq<Listener>, hostname: Option<string>) {
    exists i | 0 <= i < |ls| :: ls[i].protocol == HTTPS && ls[i].hostname == hostname
  }

  /** The first TLS listener for the hostname has this name. */
  ghost predicate FirstTlsNamed(ls: seq<Listener>, hostname: Option<string>, name: string) {
    exists i | 0 <= i < |ls| :: IsFirstTls(ls, hostname, i) && ls[i].name == name
  }

  ghost predicate IsFirstTls(ls: seq<Listener>, hostname: Option<string>, i: nat)
    requires i < |ls|
  {
    IsTlsFor(ls[i], hostname) && forall j | 0 <= j < i :: !IsTlsFor(ls[j], hostname)
  }

  lemma {:induction false} FirstTlsAt(ls: seq<Listener>, hostname: Option<string>, i: nat)
    requires i < |ls| && IsFirstTls(ls, hostname, i)
    ensures HasTls(ls, hostname) && Ensured(ls, hostname) == ls && FirstTlsNamed(ls, hostname, ls[i].name)
  {
  }

  lemma {:induction false} TlsAppended(ls: seq<Listener>, hostname: Option<string>)
    requires forall i | 0 <= i < |ls| :: !IsTlsFor(ls[i], hostname)
    ensures Ensured(ls, hostname) == WithoutHttps(ls, hostname) + [TlsListener(hostname)]
    ensures FirstTlsNamed(Ensured(ls, hostname), hostname, ListenerNameFor(hostname))
  {
    var kept := WithoutHttps(ls, hostname);
    var all := kept + [TlsListener(hostname)];
    WithoutHttpsMembers(ls, hostname);
    forall j | 0 <= j < |kept| ensures !IsTlsFor(all[j], hostname) {
      assert all[j] == kept[j] && kept[j] in kept;
    }
    assert IsFirstTls(all, hostname, |kept|);
  }

  /** One call on an existing Gateway: its listeners afterwards. */
  ghost function Ensured(ls: seq<Listener>, hostname: Option<string>): seq<Listener> {
    if HasTls(ls, hostname) then ls else WithoutHttps(ls, hostname) + [TlsListener(hostname)]
  }

  /** The Gateways of the emitter's representation. */
  class GatewayTable {
    var gateways: map<NamespacedName, Gateway>

    constructor (gateways: map<NamespacedName, Gateway>)
      ensures this.gateways == gateways
    {
      this.gateways := gateways;
    }

    /** ensureTLSListenerForPassthrough */
    method EnsureTLSListener(gwNN: NamespacedName, hostname: Option<string>) returns (name: string)
      modifies this
      ensures gwNN !in old(gateways) ==> gateways == old(gateways) && name == ""
      ensures gwNN in old(gateways) ==>
                && gateways == old(gateways)[gwNN :=
                     old(gateways[gwNN]).(listeners := Ensured(old(gateways[gwNN].listeners), hostname))]
                && FirstTlsNamed(gateways[gwNN].listeners, hostname, name)
    {
      if gwNN !in gateways {
        return "";
      }
      var gw := gateways[gwNN];
      var newListeners: seq<Listener> := [];
      for i := 0 to |gw.listeners|
        invariant newListeners == WithoutHttps(gw.listeners[..i], hostname)
        invariant forall j | 0 <= j < i :: !IsTlsFor(gw.listeners[j], hostname)
      {
        assert gw.listeners[..i + 1][..i] == gw.listeners[..i];
        var listener := gw.listeners[i];
        var hostnameMatches := hostname.None? == listener.hostname.None?
                               && (hostname.None? || hostname.value == listener.hostname.value);
        if listener.protocol == HTTPS && hostnameMatches {
          continue;
        }
        if listener.protocol == TLS && hostnameMatches {
          FirstTlsAt(gw.listeners, hostname, i);
          assert gateways == gateways[gwNN := gw.(listeners := gw.listeners)];
          return listener.name;
        }
        newListeners := newListeners + [listener];
      }
      assert gw.listeners[..|gw.listeners|] == gw.listeners;
      newListeners := newListeners +
        [Listener(ListenerNameFor(hostname), hostname, 443, TLS, Some(ListenerTLS.Passthrough), Some(TLS_ROUTES_ONLY))];
      TlsAppended(gw.listeners, hostname);
      gateways := gateways[gwNN := gw.(listeners := newListeners)];
      return ListenerNameFor(hostname);
    }

    /** The passthrough feature on one Gateway: a run of calls, one per passthrough route in the order met. */
    method EnsureAll(gwNN: NamespacedName, hostnames: seq<Option<string>>)
      requires gwNN in gateways
      modifies this
      ensures gateways == old(gateways)[gwNN :=
                old(gateways[gwNN]).(listeners := Run(old(gateways[gwNN].listeners), hostnames))]
    {
      ghost var gw := gateways[gwNN];
      assert gateways == gateways[gwNN := gw.(listeners := gw.listeners)];
      for i := 0 to |hostnames|
        invariant gateways == old(gateways)[gwNN := gw.(listeners := Run(gw.listeners, hostnames[..i]))]
      {
        RunOneMore(gw.listeners, hostnames, i);
        var _ := EnsureTLSListener(gwNN, hostnames[i]);
      }
      assert hostnames[..|hostnames|] == hostnames;
    }
  }

  ghost function Run(ls: seq<Listener>, hostnames: seq<Option<string>>): seq<Listener> {
    if hostnames == [] then ls
    else Ensured(Run(ls, hostnames[..|hostnames| - 1]), hostnames[|hostnames| - 1])
  }

  // ---- what a run keeps ----

  predicate NoTlsYet(ls: seq<Listener>) { forall i | 0 <= i < |ls| :: ls[i].protocol != TLS }

  lemma {:induction false} WithoutHttpsMembers(ls: seq<Listener>, h: Option<string>)
    ensures forall l :: l in WithoutHttps(ls, h) <==> l in ls && !(l.protocol == HTTPS && l.hostname == h)
  {
    if ls != [] {
      WithoutHttpsMembers(ls[..|ls| - 1], h);
      assert ls == ls[..|ls| - 1] + [ls[|ls| - 1]];
    }
  }

  lemma {:induction false} InIndex(ls: seq<Listener>, h: Option<string>)
    ensures HasTls(ls, h) <==> exists l :: l in ls && IsTlsFor(l, h)
    ensures HasHttps(ls, h) <==> exists l :: l in ls && l.protocol == HTTPS && l.hostname == h
  {
    if l :| l in ls && IsTlsFor(l, h) {
      var i :| 0 <= i < |ls| && ls[i] == l;
      assert IsTlsFor(ls[i], h);
    }
    if l :| l in ls && l.protocol == HTTPS && l.hostname == h {
      var i :| 0 <= i < |ls| && ls[i] == l;
      assert ls[i].protocol == HTTPS && ls[i].hostname == h;
    }
  }

  /** How one call changes which hostnames have HTTPS and TLS listeners. */
  lemma {:induction false} EnsuredHas(ls: seq<Listener>, h: Option<string>, other: Option<string>)
    ensures HasTls(Ensured(ls, h), other) <==> HasTls(ls, other) || other == h
    ensures HasHttps(Ensured(ls, h), other) <==> HasHttps(ls, other) && (other != h || HasTls(ls, h))
  {
    if !HasTls(ls, h) {
      var kept := WithoutHttps(ls, h);
      WithoutHttpsMembers(ls, h);
      InIndex(ls, other);
      InIndex(kept + [TlsListener(h)], other);
      assert TlsListener(h) in kept + [TlsListener(h)];
      assert forall l :: l in kept + [TlsListener(h)] <==> l in kept || l == TlsListener(h);
    }
  }

  function TlsCount(ls: seq<Listener>, h: Option<string>): nat {
    if ls == [] then 0
    else TlsCount(ls[..|ls| - 1], h) + (if IsTlsFor(ls[|ls| - 1], h) then 1 else 0)
  }

  lemma {:induction false} TlsCountSnoc(ls: seq<Listener>, l: Listener, h: Option<string>)
    ensures TlsCount(ls + [l], h) == TlsCount(ls, h) + if IsTlsFor(l, h) then 1 else 0
  {
    assert (ls + [l])[..|ls|] == ls;
  }

  lemma {:induction false} WithoutLast(ls: seq<Listener>, h: Option<string>)
    requires ls != []
    ensures var t, l := ls[..|ls| - 1], ls[|ls| - 1];
            WithoutHttps(ls, h) ==
              if l.protocol == HTTPS && l.hostname == h then WithoutHttps(t, h) else WithoutHttps(t, h) + [l]
  {
  }

  lemma {:induction false} TlsCountWithout(ls: seq<Listener>, h: Option<string>, other: Option<string>)
    ensures TlsCount(WithoutHttps(ls, h), other) == TlsCount(ls, other)
  {
    if ls != [] {
      var t, l := ls[..|ls| - 1], ls[|ls| - 1];
      TlsCountWithout(t, h, other);
      TlsCountSnoc(WithoutHttps(t, h), l, other);
      WithoutLast(ls, h);
    }
  }

  lemma {:induction false} NoTlsCountsZero(ls: seq<Listener>, h: Option<string>)
    requires NoTlsYet(ls)
    ensures TlsCount(ls, h) == 0 && !HasTls(ls, h)
  {
    if ls != [] {
      NoTlsCountsZero(ls[..|ls| - 1], h);
    }
  }

  lemma {:induction false} EnsuredCount(ls: seq<Listener>, h: Option<string>, other: Option<string>)
    ensures TlsCount(Ensured(ls, h), other) == TlsCount(ls, other) + (if other == h && !HasTls(ls, h) then 1 else 0)
  {
    TlsCountWithout(ls, h, other);
    var kept := WithoutHttps(ls, h);
    assert (kept + [TlsListener(h)])[..|kept|] == kept;
  }

  /** The listeners that are not HTTPS or TLS, or belong to hostnames never passed, in order. */
  function Others(ls: seq<Listener>, hostnames: seq<Option<string>>): seq<Listener> {
    if ls == [] then []
    else
      var l := ls[|ls| - 1];
      Others(ls[..|ls| - 1], hostnames) + (if l.protocol != HTTP && l.hostname in hostnames then [] else [l])
  }

  lemma {:induction false} OthersWithout(ls: seq<Listener>, h: Option<string>, hostnames: seq<Option<string>>)
    requires h in hostnames
    ensures Others(WithoutHttps(ls, h), hostnames) == Others(ls, hostnames)
  {
    if ls != [] {
      var t, l := ls[..|ls| - 1], ls[|ls| - 1];
      OthersWithout(t, h, hostnames);
      var kept := WithoutHttps(t, h);
      assert (kept + [l])[..|kept|] == kept;
      assert kept + [] == kept;
      assert Others(t, hostnames) + [] == Others(t, hostnames);
    }
  }

  lemma {:induction false} EnsuredKeepsOthers(ls: seq<Listener>, h: Option<string>, hostnames: seq<Option<string>>)
    requires h in hostnames
    ensures Others(Ensured(ls, h), hostnames) == Others(ls, hostnames)
  {
    OthersWithout(ls, h, hostnames);
    var kept := WithoutHttps(ls, h);
    assert (kept + [TlsListener(h)])[..|kept|] == kept;
    assert Others(kept, hostnames) + [] == Others(kept, hostnames);
  }

  lemma {:induction false} RunKeepsOthers(ls: seq<Listener>, done: seq<Option<string>>, hostnames: seq<Option<string>>)
    requires forall i | 0 <= i < |done| :: done[i] in hostnames
    ensures Others(Run(ls, done), hostnames) == Others(ls, hostnames)
  {
    if done != [] {
      RunKeepsOthers(ls, done[..|done| - 1], hostnames);
      EnsuredKeepsOthers(Run(ls, done[..|done| - 1]), done[|done| - 1], hostnames);
    }
  }

  /** Over any run of calls on a Gateway that started with HTTP and HTTPS listeners only: no hostname has both an HTTPS
      and a TLS listener, each hostname passed has exactly one TLS listener and no other hostname has any, and hostnames
      not passed keep their HTTPS listeners. */
  lemma {:induction false} RunInvariant(ls: seq<Listener>, hostnames: seq<Option<string>>, h: Option<string>)
    requires NoTlsYet(ls)
    ensures !(HasHttps(Run(ls, hostnames), h) && HasTls(Run(ls, hostnames), h))
    ensures TlsCount(Run(ls, hostnames), h) == (if h in hostnames then 1 else 0)
    ensures HasTls(Run(ls, hostnames), h) <==> h in hostnames
    ensures HasHttps(Run(ls, hostnames), h) <==> HasHttps(ls, h) && h !in hostnames
  {
    if hostnames == [] {
      NoTlsCountsZero(ls, h);
    } else {
      var n := |hostnames| - 1;
      var before, x := Run(ls, hostnames[..n]), hostnames[n];
      assert hostnames == hostnames[..n] + [x];
      RunInvariant(ls, hostnames[..n], h);
      RunInvariant(ls, hostnames[..n], x);
      EnsuredHas(before, x, h);
      EnsuredCount(before, x, h);
    }
  }

  /** All other listeners keep their place and order. */
  lemma {:induction false} RunOrder(ls: seq<Listener>, hostnames: seq<Option<string>>)
    ensures Others(Run(ls, hostnames), hostnames) == Others(ls, hostnames)
  {
    RunKeepsOthers(ls, hostnames, hostnames);
  }

  /** Repeating a call changes nothing. */
  lemma {:induction false} RepeatIsNoOp(ls: seq<Listener>, h: Option<string>)
    ensures Ensured(Ensured(ls, h), h) == Ensured(ls, h)
  {
    EnsuredHas(ls, h, h);
  }

  /** A TLS listener once there stays, so a returned name stays the name of a TLS listener. */
  lemma {:induction false} TlsListenersStay(ls: seq<Listener>, h: Option<string>, l: Listener)
    requires l in ls && l.protocol == TLS
    ensures l in Ensured(ls, h)
  {
    WithoutHttpsMembers(ls, h);
  }

  lemma {:induction false} TlsListenersStayInRun(ls: seq<Listener>, hostnames: seq<Option<string>>, l: Listener)
    requires l in ls && l.protocol == TLS
    ensures l in Run(ls, hostnames)
  {
    if hostnames != [] {
      TlsListenersStayInRun(ls, hostnames[..|hostnames| - 1], l);
      TlsListenersStay(Run(ls, hostnames[..|hostnames| - 1]), hostnames[|hostnames| - 1], l);
    }
  }

  /** The TLS listeners after a run are the ones made for the hostnames passed. */
  lemma {:induction false} RunTlsListeners(ls: seq<Listener>, hostnames: seq<Option<string>>, l: Listener)
    requires NoTlsYet(ls)
    ensures l in Run(ls, hostnames) && l.protocol == TLS <==> exists h | h in hostnames :: l == TlsListener(h)
  {
    if hostnames != [] {
      var n := |hostnames| - 1;
      var before, x := Run(ls, hostnames[..n]), hostnames[n];
      assert hostnames == hostnames[..n] + [x];
      RunTlsListeners(ls, hostnames[..n], l);
      RunInvariant(ls, hostnames[..n], x);
      WithoutHttpsMembers(before, x);
      if h :| h in hostnames && l == TlsListener(h) {
        assert h in hostnames[..n] || h == x;
      }
    }
  }

  /** A listener that hands the TLS connections of its hostname through to TLSRoutes of the Gateway's namespace. */
  ghost predicate HandsThrough(l: Listener) {
    && l.protocol == TLS && l.port == 443 && l.tls == Some(ListenerTLS.Passthrough)
    && l.allowedRoutes == Some(AllowedRoutes("Same", [RouteKind("gateway.networking.k8s.io", "TLSRoute")]))
    && if l.hostname.None? then l.name == "tls" else l.name == NameFromHost(l.hostname.value) + "-tls"
  }

  /** And so it is for every TLS listener after a run, each for a hostname passed. */
  lemma {:induction false} TlsListenersHandThrough(ls: seq<Listener>, hostnames: seq<Option<string>>, l: Listener)
    requires NoTlsYet(ls) && l in Run(ls, hostnames) && l.protocol == TLS
    ensures HandsThrough(l) && l.hostname in hostnames
  {
    RunTlsListeners(ls, hostnames, l);
  }

  /** A TLSRoute attaches by listener name. After a run the name identifies the TLS listener exactly when no two
      hostnames passed have the same sanitised form; `a.b` and `a-b` share one. */
  lemma {:induction false} NamesIdentifyListenersIff(ls: seq<Listener>, hostnames: seq<Option<string>>)
    requires NoTlsYet(ls)
    ensures (forall l, m | l in Run(ls, hostnames) && m in Run(ls, hostnames) && l.protocol == TLS && m.protocol == TLS
                           && l.name == m.name :: l == m)
            <==> forall g, h | g in hostnames && h in hostnames && ListenerNameFor(g) == ListenerNameFor(h) :: g == h
  {
    var after := Run(ls, hostnames);
    forall l ensures l in after && l.protocol == TLS <==> exists h | h in hostnames :: l == TlsListener(h) {
      RunTlsListeners(ls, hostnames, l);
    }
    if forall l, m | l in after && m in after && l.protocol == TLS && m.protocol == TLS && l.name == m.name :: l == m {
      forall g, h | g in hostnames && h in hostnames && ListenerNameFor(g) == ListenerNameFor(h) ensures g == h {
        assert TlsListener(g) in after && TlsListener(h) in after;
      }
    }
  }

  // ---- the result, whatever the order of the routes ----

  /** The listeners a run leaves: all but the HTTPS ones of the hostnames passed. */
  function Kept(ls: seq<Listener>, hostnames: seq<Option<string>>): seq<Listener> {
    if ls == [] then []
    else
      var l := ls[|ls| - 1];
      Kept(ls[..|ls| - 1], hostnames) + (if l.protocol == HTTPS && l.hostname in hostnames then [] else [l])
  }

  function TlsListeners(hostnames: seq<Option<string>>): (r: seq<Listener>)
    ensures |r| == |hostnames| && forall i | 0 <= i < |r| :: r[i] == TlsListener(hostnames[i])
  {
    seq(|hostnames|, i requires 0 <= i < |hostnames| => TlsListener(hostnames[i]))
  }

  function Same(h: Option<string>): Option<string> { h }

  lemma {:induction false} KeptAgree(ls: seq<Listener>, a: seq<Option<string>>, b: seq<Option<string>>)
    requires forall h :: h in a <==> h in b
    ensures Kept(ls, a) == Kept(ls, b)
  {
    if ls != [] {
      KeptAgree(ls[..|ls| - 1], a, b);
    }
  }

  lemma {:induction false} KeptOfNone(ls: seq<Listener>)
    ensures Kept(ls, []) == ls
  {
    if ls != [] {
      KeptOfNone(ls[..|ls| - 1]);
    }
  }

  lemma {:induction false} WithoutSnoc(ls: seq<Listener>, l: Listener, h: Option<string>)
    ensures WithoutHttps(ls + [l], h)
            == if l.protocol == HTTPS && l.hostname == h then WithoutHttps(ls, h) else WithoutHttps(ls, h) + [l]
  {
    assert (ls + [l])[..|ls|] == ls;
    assert WithoutHttps(ls, h) + [] == WithoutHttps(ls, h);
  }

  lemma {:induction false} KeptSnoc(ls: seq<Listener>, l: Listener, hostnames: seq<Option<string>>)
    ensures Kept(ls + [l], hostnames)
            == if l.protocol == HTTPS && l.hostname in hostnames then Kept(ls, hostnames) else Kept(ls, hostnames) + [l]
  {
    assert (ls + [l])[..|ls|] == ls;
    assert Kept(ls, hostnames) + [] == Kept(ls, hostnames);
  }

  lemma {:induction false} KeptOneMore(ls: seq<Listener>, t: seq<Option<string>>, h: Option<string>)
    ensures WithoutHttps(Kept(ls, t), h) == Kept(ls, t + [h])
  {
    if ls != [] {
      var before, l := ls[..|ls| - 1], ls[|ls| - 1];
      assert ls == before + [l];
      KeptOneMore(before, t, h);
      KeptSnoc(before, l, t);
      KeptSnoc(before, l, t + [h]);
      WithoutSnoc(Kept(before, t), l, h);
    }
  }

  lemma {:induction false} WithoutTlsStep(a: seq<Listener>, hostnames: seq<Option<string>>, h: Option<string>)
    requires hostnames != []
    requires var t := hostnames[..|hostnames| - 1];
             WithoutHttps(a + TlsListeners(t), h) == WithoutHttps(a, h) + TlsListeners(t)
    ensures WithoutHttps(a + TlsListeners(hostnames), h) == WithoutHttps(a, h) + TlsListeners(hostnames)
  {
    var t, x := hostnames[..|hostnames| - 1], hostnames[|hostnames| - 1];
    assert hostnames == t + [x];
    TlsSnoc(a, t, x);
    TlsSnoc(WithoutHttps(a, h), t, x);
    WithoutSnoc(a + TlsListeners(t), TlsListener(x), h);
  }

  lemma {:induction false} WithoutTls(a: seq<Listener>, hostnames: seq<Option<string>>, h: Option<string>)
    ensures WithoutHttps(a + TlsListeners(hostnames), h) == WithoutHttps(a, h) + TlsListeners(hostnames)
  {
    if hostnames == [] {
      NoTlsListeners(a);
      NoTlsListeners(WithoutHttps(a, h));
    } else {
      WithoutTls(a, hostnames[..|hostnames| - 1], h);
      WithoutTlsStep(a, hostnames, h);
    }
  }

  lemma {:induction false} NoTlsListeners(a: seq<Listener>)
    ensures a + TlsListeners([]) == a
  {
  }

  lemma {:induction false} TlsSnoc(a: seq<Listener>, t: seq<Option<string>>, x: Option<string>)
    ensures a + TlsListeners(t + [x]) == a + TlsListeners(t) + [TlsListener(x)]
  {
    assert TlsListeners(t + [x]) == TlsListeners(t) + [TlsListener(x)];
  }

  lemma {:induction false} RunOneMore(ls: seq<Listener>, hostnames: seq<Option<string>>, i: nat)
    requires i < |hostnames|
    ensures Run(ls, hostnames[..i + 1]) == Ensured(Run(ls, hostnames[..i]), hostnames[i])
  {
    assert hostnames[..i + 1][..i] == hostnames[..i];
  }

  lemma {:induction false} RunSnoc(ls: seq<Listener>, t: seq<Option<string>>, x: Option<string>)
    ensures Run(ls, t + [x]) == Ensured(Run(ls, t), x)
  {
    assert (t + [x])[..|t|] == t;
  }

  /** A run's result, outright: the listeners kept, in order, then one TLS listener per hostname, in order of first
      calls. */
  lemma {:induction false} RunExact(ls: seq<Listener>, hostnames: seq<Option<string>>)
    requires NoTlsYet(ls)
    ensures Run(ls, hostnames) == Kept(ls, hostnames) + TlsListeners(Firsts(hostnames, Same))
  {
    if hostnames == [] {
      KeptOfNone(ls);
    } else {
      var t, x := hostnames[..|hostnames| - 1], hostnames[|hostnames| - 1];
      assert hostnames == t + [x];
      RunExact(ls, t);
      RunInvariant(ls, t, x);
      RunSnoc(ls, t, x);
      FirstsFacts(t, Same);
      FirstsSnoc(t, x, Same);
      RunExactStep(ls, t, x);
    }
  }

  lemma {:induction false} RunExactStep(ls: seq<Listener>, t: seq<Option<string>>, x: Option<string>)
    requires Run(ls, t) == Kept(ls, t) + TlsListeners(Firsts(t, Same))
    requires HasTls(Run(ls, t), x) <==> x in t
    ensures Ensured(Run(ls, t), x) == Kept(ls, t + [x]) + TlsListeners(Firsts(t + [x], Same))
  {
    var fs := Firsts(t, Same);
    FirstsFacts(t, Same);
    FirstsSnoc(t, x, Same);
    if x in t {
      var i :| 0 <= i < |t| && t[i] == x;
      assert Same(t[i]) == x;
      KeptAgree(ls, t, t + [x]);
    } else {
      KeptOneMore(ls, t, x);
      WithoutTls(Kept(ls, t), fs, x);
      TlsSnoc(Kept(ls, t + [x]), fs, x);
    }
  }

  /** So the order in which routes are met, a map's, does not matter: the listeners kept are the same in the same order,
      and the TLS listeners the same up to order, for any two runs over the same hostnames. */
  lemma {:induction false} RunOrderIrrelevant(ls: seq<Listener>, a: seq<Option<string>>, b: seq<Option<string>>)
    requires NoTlsYet(ls) && forall h :: h in a <==> h in b
    ensures multiset(Run(ls, a)) == multiset(Run(ls, b))
    ensures Kept(ls, a) == Kept(ls, b) && Kept(ls, a) <= Run(ls, a) && Kept(ls, b) <= Run(ls, b)
  {
    RunExact(ls, a);
    RunExact(ls, b);
    KeptAgree(ls, a, b);
    TlsSameMultiset(a, b);
  }

  lemma {:induction false} TlsSameMultiset(a: seq<Option<string>>, b: seq<Option<string>>)
    requires forall h :: h in a <==> h in b
    ensures multiset(TlsListeners(Firsts(a, Same))) == multiset(TlsListeners(Firsts(b, Same)))
  {
    var fa, fb := Firsts(a, Same), Firsts(b, Same);
    FirstsOf(a);
    FirstsOf(b);
    DistinctSameMembers(fa, fb);
    ImagesPermute(fa, TlsListeners(fa), fb, TlsListeners(fb));
  }

  lemma {:induction false} FirstsOf(s: seq<Option<string>>)
    ensures Distinct(Firsts(s, Same)) && forall h :: h in Firsts(s, Same) <==> h in s
  {
    FirstsFacts(s, Same);
    forall h ensures h in Firsts(s, Same) <==> h in s {
      if h in s {
        var i :| 0 <= i < |s| && s[i] == h;
        assert Same(s[i]) == h;
      }
    }
  }

  lemma {:induction false} DistinctSameMembers<T(!new)>(a: seq<T>, b: seq<T>)
    requires Distinct(a) && Distinct(b) && forall x :: x in a <==> x in b
    ensures multiset(a) == multiset(b)
  {
    forall x ensures multiset(a)[x] == multiset(b)[x] {
      DistinctCount(a, x);
      DistinctCount(b, x);
    }
  }

  lemma {:induction false} DistinctCount<T(!new)>(s: seq<T>, x: T)
    requires Distinct(s)
    ensures multiset(s)[x] == if x in s then 1 else 0
  {
    if s != [] {
      var n := |s| - 1;
      assert Distinct(s[..n]);
      DistinctCount(s[..n], x);
      assert s == s[..n] + [s[n]];
    }
  }

  // ---- the route that uses the listener ----

  datatype TLSRule = TLSRule(name: Option<string>, backendRefs: seq<BackendRef>)

  /** convertHTTPBackendRefToTLSBackendRef: the object reference without the weight. */
  function ToTlsRefs(refs: seq<BackendRef>): seq<BackendRef> {
    seq(|refs|, i requires 0 <= i < |refs| => refs[i].(weight := None))
  }

  /** The same names and refs in the same order, without weights. */
  ghost predicate WithoutWeights(rules: seq<RouteRule>, tls: seq<TLSRule>) {
    && |tls| == |rules|
    && forall i | 0 <= i < |rules| ::
         tls[i].name == rules[i].name && |tls[i].backendRefs| == |rules[i].backendRefs|
         && forall j | 0 <= j < |rules[i].backendRefs| ::
              tls[i].backendRefs[j].weight.None?
              && tls[i].backendRefs[j].(weight := rules[i].backendRefs[j].weight) == rules[i].backendRefs[j]
  }

  /** The rules of convertHTTPRulesToTLSRoute. */
  method ToTlsRules(rules: seq<RouteRule>) returns (tls: seq<TLSRule>)
    ensures WithoutWeights(rules, tls)
  {
    tls := [];
    for i := 0 to |rules|
      invariant |tls| == i
      invariant forall k | 0 <= k < i :: tls[k] == TLSRule(rules[k].name, ToTlsRefs(rules[k].backendRefs))
    {
      tls := tls + [TLSRule(rules[i].name, ToTlsRefs(rules[i].backendRefs))];
    }
  }
}
