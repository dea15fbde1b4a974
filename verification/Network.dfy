// The connectivity of a hierarchical network: nets, the pins on them, the terms
// that connect a pin to a net below it, and nets merged into others.
module Network {
  import opened Sequences
  import opened NetLists

  class Network {
    ghost var nets: set<Net>
    ghost var pinObjs: set<Pin>
    ghost var terms: set<Term>
    ghost var pinsOf: map<Net, seq<Pin>>
    ghost var termsOf: map<Net, seq<Term>>
    ghost var mergedAt: map<Net, nat>   // when a net was merged
    ghost var clock: nat

    constructor ()
      ensures Valid() && nets == {} && pinObjs == {} && terms == {}
    {
      nets, pinObjs, terms, pinsOf, termsOf, mergedAt, clock := {}, {}, {}, map[], map[], map[], 0;
    }

    // The lists of a net are those of the network, and hold what says it is on them.
    ghost predicate NetOk(n: Net)
      reads this, n, pinObjs, terms
    {
      && n in pinsOf && n in termsOf
      && (forall p :: p in pinsOf[n] ==> p in pinObjs && p.net == n)
      && (forall t :: t in termsOf[n] ==> t in terms && t.net == n)
      && n.PinList(pinsOf[n]) && n.TermList(termsOf[n])
    }

    // A pin with a net is on that net's list; its term refers back to it; a pin of
    // the top instance has no net.
    ghost predicate PinOk(p: Pin)
      reads this, p, terms
    {
      && (p.net != null ==> p.net in nets && p.net in pinsOf && p in pinsOf[p.net])
      && (p.term != null ==> p.term in terms && p.term.pin == p)
      && (p.inTop ==> p.net == null)
    }

    ghost predicate TermOk(t: Term)
      reads this, t, pinObjs
    {
      && (t.net != null ==> t.net in nets && t.net in termsOf && t in termsOf[t.net])
      && t.pin in pinObjs && t.pin.term == t
    }

    // The merge pointers lead forward in time.
    ghost predicate MergeOk(n: Net)
      reads this, n, nets
    {
      n.mergedInto != null ==>
        && n.mergedInto in nets && n in mergedAt && mergedAt[n] < clock
        && (n.mergedInto.mergedInto != null ==> n.mergedInto in mergedAt && mergedAt[n] < mergedAt[n.mergedInto])
    }

    ghost predicate Valid()
      reads this, nets, pinObjs, terms
    {
      && pinsOf.Keys == termsOf.Keys == nets
      && (forall n :: n in nets ==> NetOk(n)) && (forall n :: n in nets ==> MergeOk(n))
      && (forall p :: p in pinObjs ==> PinOk(p)) && forall t :: t in terms ==> TermOk(t)
    }

    // ---- What a change leaves alone --------------------------------------------------------

    // Nets, pins and terms other than those named have kept their fields, and the
    // links of their lists.
    twostate predicate OnlyTouched(new ns: set<Net>, new ps: set<Pin>, new ts: set<Term>)
      reads this, nets, pinObjs, terms
    {
      && (forall n :: n in nets && n !in ns ==> n in old(nets) && n.pins == old(n.pins) && n.terms == old(n.terms))
      && (forall n :: n in nets && n !in ns ==> n in pinsOf && n in termsOf && n in old(pinsOf) && n in old(termsOf))
      && (forall n :: n in nets && n !in ns ==> pinsOf[n] == old(pinsOf)[n] && termsOf[n] == old(termsOf)[n])
      && (forall p :: p in pinObjs && p !in ps ==> p in old(pinObjs) && p.net == old(p.net) && p.term == old(p.term))
      && (forall t :: t in terms && t !in ts ==> t in old(terms) && t.net == old(t.net))
      && (forall p :: p in pinObjs && p !in ps && (p.net == null || p.net !in ns) ==>
            p in old(pinObjs) && p.netNext == old(p.netNext) && p.netPrev == old(p.netPrev))
      && (forall t :: t in terms && t !in ts && (t.net == null || t.net !in ns) ==>
            t in old(terms) && t.netNext == old(t.netNext))
    }

    twostate predicate SamePlace(new p: Pin)
      reads this, pinObjs
    {
      p in pinObjs && p in old(pinObjs) && p.netNext == old(p.netNext) && p.netPrev == old(p.netPrev)
    }

    // What is left alone stays right if what it refers to still refers to it.
    twostate predicate StillReferred(new ns: set<Net>, new ps: set<Pin>, new ts: set<Term>)
      reads this, nets, pinObjs, terms
    {
      ListedStill(ns, ps, ts) && PinsReferred(ns, ps, ts) && TermsReferred(ns, ps, ts)
    }

    twostate predicate ListedStill(new ns: set<Net>, new ps: set<Pin>, new ts: set<Term>)
      reads this, nets, pinObjs, terms
    {
      && old(nets) <= nets && (forall p :: p in old(pinObjs) ==> p in pinObjs || p in ps)
      && (forall t :: t in old(terms) ==> t in terms || t in ts)
      && (forall n :: n in ns && n in nets ==> n in pinsOf && n in termsOf)
      && (forall n, p :: n in nets && n !in ns && n in pinsOf && p in ps && p in pinsOf[n] ==>
            SamePlace(p) && p.net == n)
      && (forall n, t :: n in nets && n !in ns && n in termsOf && t in ts ==> t !in termsOf[n])
    }

    twostate predicate PinsReferred(new ns: set<Net>, new ps: set<Pin>, new ts: set<Term>)
      reads this, nets, pinObjs, terms
    {
      && (forall p, n :: p in pinObjs && p !in ps && n in ns && n in nets && p.net == n ==>
            n in pinsOf && p in pinsOf[n])
      && (forall p :: p in pinObjs && p !in ps && p.term != null ==> p.term !in ts || p.term in terms)
    }

    twostate predicate TermsReferred(new ns: set<Net>, new ps: set<Pin>, new ts: set<Term>)
      reads this, nets, pinObjs, terms
    {
      && (forall t, n :: t in terms && t !in ts && n in ns && n in nets && t.net == n ==>
            n in termsOf && t in termsOf[n])
      && (forall t :: t in terms && t !in ts ==> t.pin in pinObjs && t.pin.term == t)
    }

    twostate lemma PinsKept(new n: Net, s: seq<Pin>)
      requires n in old(nets) && old(n.PinList(s)) && n.pins == old(n.pins)
      requires forall p :: p in s ==> p.netNext == old(p.netNext) && p.netPrev == old(p.netPrev)
      ensures n.PinList(s)
    {
      forall k | 0 <= k < |s| ensures PinAt(s, k) { assert s[k] in s && old(PinAt(s, k)); }
    }

    twostate lemma TermsKept(new n: Net, s: seq<Term>)
      requires n in old(nets) && old(n.TermList(s)) && n.terms == old(n.terms)
      requires forall t :: t in s ==> t.netNext == old(t.netNext)
      ensures n.TermList(s)
    {
      forall k | 0 <= k < |s| ensures TermAt(s, k) { assert s[k] in s && old(TermAt(s, k)); }
    }

    twostate lemma NetKept(new n: Net, new ns: set<Net>, new ps: set<Pin>, new ts: set<Term>)
      requires old(Valid()) && OnlyTouched(ns, ps, ts) && StillReferred(ns, ps, ts) && n in nets && n !in ns
      ensures NetOk(n)
    {
      NetMembersKept(n, ns, ps, ts);
      assert n in old(nets) && old(NetOk(n));
      hide OnlyTouched, StillReferred, Distinct, NetLists.PinAt, NetLists.TermAt;
      PinsKept(n, pinsOf[n]);
      TermsKept(n, termsOf[n]);
    }

    twostate lemma NetMembersKept(new n: Net, new ns: set<Net>, new ps: set<Pin>, new ts: set<Term>)
      requires old(Valid()) && OnlyTouched(ns, ps, ts) && StillReferred(ns, ps, ts) && n in nets && n !in ns
      ensures n in old(nets) && n.pins == old(n.pins) && n.terms == old(n.terms)
      ensures n in pinsOf && n in termsOf && n in old(pinsOf) && n in old(termsOf) && pinsOf[n] == old(pinsOf)[n]
      ensures termsOf[n] == old(termsOf)[n]
      ensures forall p :: p in pinsOf[n] ==> p.net == n && SamePlace(p)
      ensures forall t :: t in termsOf[n] ==> t in terms && t in old(terms) && t.net == n && t.netNext == old(t.netNext)
    {
      assert old(NetOk(n));
    }

    twostate lemma PinKept(new p: Pin, new ns: set<Net>, new ps: set<Pin>, new ts: set<Term>)
      requires old(Valid()) && OnlyTouched(ns, ps, ts) && StillReferred(ns, ps, ts) && p in pinObjs && p !in ps
      ensures PinOk(p)
    {
      assert old(PinOk(p));
    }

    twostate lemma TermKept(new t: Term, new ns: set<Net>, new ps: set<Pin>, new ts: set<Term>)
      requires old(Valid()) && OnlyTouched(ns, ps, ts) && StillReferred(ns, ps, ts) && t in terms && t !in ts
      ensures TermOk(t)
    {
      assert old(TermOk(t));
    }

    twostate lemma Rest(new ns: set<Net>, new ps: set<Pin>, new ts: set<Term>)
      requires old(Valid()) && OnlyTouched(ns, ps, ts) && StillReferred(ns, ps, ts)
      requires pinsOf.Keys == termsOf.Keys == nets
      requires (forall n :: n in ns && n in nets ==> NetOk(n)) && (forall n :: n in nets ==> MergeOk(n))
      requires (forall p :: p in ps && p in pinObjs ==> PinOk(p)) && forall t :: t in ts && t in terms ==> TermOk(t)
      ensures Valid()
    {
      hide NetOk, PinOk, TermOk, MergeOk, OnlyTouched, StillReferred;
      forall n | n in nets ensures NetOk(n) { if n !in ns { NetKept(n, ns, ps, ts); } }
      forall p | p in pinObjs ensures PinOk(p) { if p !in ps { PinKept(p, ns, ps, ts); } }
      forall t | t in terms ensures TermOk(t) { if t !in ts { TermKept(t, ns, ps, ts); } }
    }

    twostate lemma MergesKept()
      requires old(Valid()) && old(nets) <= nets && mergedAt == old(mergedAt) && clock == old(clock)
      requires forall n :: n in nets ==> n.mergedInto == if n in old(nets) then old(n.mergedInto) else null
      ensures forall n :: n in nets ==> MergeOk(n)
    {
      forall n | n in nets ensures MergeOk(n) { assert n in old(nets) ==> old(MergeOk(n)); }
    }

    method MakeNet() returns (net: Net)
      requires Valid()
      modifies this`nets, this`pinsOf, this`termsOf
      ensures Valid() && fresh(net) && nets == old(nets) + {net} && net.mergedInto == null
      ensures pinsOf == old(pinsOf)[net := []] && termsOf == old(termsOf)[net := []]
    {
      hide Valid, NetOk, PinOk, TermOk, MergeOk, OnlyTouched, StillReferred;
      net := new Net();
      nets := nets + {net};
      pinsOf, termsOf := pinsOf[net := []], termsOf[net := []];
      AfterMakeNet(net);
    }

    twostate lemma AfterMakeNet(new net: Net)
      requires old(Valid()) && net !in old(nets) && net.pins == null && net.terms == null && net.mergedInto == null
      requires nets == old(nets) + {net} && pinObjs == old(pinObjs) && terms == old(terms) && mergedAt == old(mergedAt)
      requires clock == old(clock)
      requires pinsOf == old(pinsOf)[net := []] && termsOf == old(termsOf)[net := []]
      requires forall n :: n in old(nets) ==>
        n.pins == old(n.pins) && n.terms == old(n.terms) && n.mergedInto == old(n.mergedInto)
      requires forall p :: p in pinObjs ==>
        p.net == old(p.net) && p.term == old(p.term) && p.netNext == old(p.netNext) && p.netPrev == old(p.netPrev)
      requires forall t :: t in terms ==> t.net == old(t.net) && t.netNext == old(t.netNext)
      ensures Valid()
    {
      MergesKept();
      MakeNetReferred(net);
      forall n | n in old(nets) ensures n in pinsOf && n in termsOf { assert old(NetOk(n)); }
      Rest({net}, {}, {});
    }

    twostate lemma MakeNetReferred(new net: Net)
      requires old(Valid()) && net !in old(nets) && nets == old(nets) + {net} && pinObjs == old(pinObjs)
      requires terms == old(terms)
      requires pinsOf == old(pinsOf)[net := []] && termsOf == old(termsOf)[net := []]
      requires forall p :: p in pinObjs ==> p.net == old(p.net) && p.term == old(p.term)
      requires forall t :: t in terms ==> t.net == old(t.net)
      ensures StillReferred({net}, {}, {})
    {
      forall p | p in pinObjs ensures p.net != net { assert old(PinOk(p)); }
      forall t | t in terms ensures t.net != net && t.pin in pinObjs && t.pin.term == t { assert old(TermOk(t)); }
    }

    // ---- Taking a pin off its net ----------------------------------------------------------

    method DisconnectNetPin(net: Net, pin: Pin) returns (ghost k: nat)
      requires Valid() && pin in pinObjs && pin.net == net
      modifies this`pinsOf, net`pins, pinObjs`netNext, pinObjs`netPrev, pin`net
      ensures Valid() && pin.net == null && net in nets && net in old(pinsOf)
      ensures k < |old(pinsOf)[net]| && old(pinsOf)[net][k] == pin
      ensures pinsOf == old(pinsOf)[net := Without(old(pinsOf)[net], k)]
    {
      hide Valid, NetOk, PinOk, TermOk, MergeOk, OnlyTouched, StillReferred;
      k := PlaceOf(net, pin);
      ghost var s := pinsOf[net];
      ListsOf(net);
      net.DeletePin(pin, s, k);
      pin.net := null;
      pinsOf := pinsOf[net := Without(s, k)];
      AfterDisconnect(net, pin, k);
    }

    lemma PlaceOf(net: Net, pin: Pin) returns (k: nat)
      requires Valid() && pin in pinObjs && pin.net == net
      ensures net in nets && net in pinsOf && k < |pinsOf[net]| && pinsOf[net][k] == pin
    {
      assert PinOk(pin);
      k :| 0 <= k < |pinsOf[net]| && pinsOf[net][k] == pin;
    }

    lemma ListsOf(net: Net)
      requires Valid() && net in nets
      ensures net in pinsOf && net in termsOf && net.PinList(pinsOf[net]) && net.TermList(termsOf[net])
      ensures forall p :: p in pinsOf[net] ==> p in pinObjs && p.net == net
      ensures forall t :: t in termsOf[net] ==> t in terms && t.net == net
    {
      assert NetOk(net);
    }

    twostate lemma AfterDisconnect(new net: Net, new pin: Pin, k: nat)
      requires old(Valid()) && pin in old(pinObjs) && net in old(nets) && net in old(pinsOf) && k < |old(pinsOf)[net]|
      requires old(pinsOf)[net][k] == pin
      requires nets == old(nets) && pinObjs == old(pinObjs) && terms == old(terms) && termsOf == old(termsOf)
      requires mergedAt == old(mergedAt) && clock == old(clock)
      requires pinsOf == old(pinsOf)[net := Without(old(pinsOf)[net], k)] && net.PinList(pinsOf[net])
      requires net.TermList(termsOf[net])
      requires forall p :: p in pinObjs ==> p.term == old(p.term) && p.net == if p == pin then null else old(p.net)
      requires forall p :: p in pinObjs && p !in old(pinsOf)[net] ==>
        p.netNext == old(p.netNext) && p.netPrev == old(p.netPrev)
      requires forall t :: t in terms ==> t.net == old(t.net) && t.netNext == old(t.netNext)
      requires forall n :: n in nets ==>
        n.terms == old(n.terms) && n.mergedInto == old(n.mergedInto) && (n == net || n.pins == old(n.pins))
      ensures Valid()
    {
      WithoutMembers(old(pinsOf)[net], k) by { assert old(NetOk(net)); }
      DisconnectTouches(net, pin, k);
      MergesKept();
      assert old(NetOk(net)) && old(PinOk(pin));
      assert NetOk(net) && PinOk(pin);
      Rest({net}, {pin}, {});
    }

    twostate lemma DisconnectTouches(new net: Net, new pin: Pin, k: nat)
      requires old(Valid()) && pin in old(pinObjs) && net in old(nets) && net in old(pinsOf) && k < |old(pinsOf)[net]|
      requires old(pinsOf)[net][k] == pin
      requires nets == old(nets) && pinObjs == old(pinObjs) && terms == old(terms) && termsOf == old(termsOf)
      requires pinsOf == old(pinsOf)[net := Without(old(pinsOf)[net], k)]
      requires forall p :: p in pinObjs ==> p.term == old(p.term) && p.net == if p == pin then null else old(p.net)
      requires forall p :: p in pinObjs && p !in old(pinsOf)[net] ==>
        p.netNext == old(p.netNext) && p.netPrev == old(p.netPrev)
      requires forall t :: t in terms ==> t.net == old(t.net) && t.netNext == old(t.netNext)
      requires forall n :: n in nets ==> n.terms == old(n.terms) && (n == net || n.pins == old(n.pins))
      ensures OnlyTouched({net}, {pin}, {}) && StillReferred({net}, {pin}, {})
    {
      forall n | n in nets ensures old(NetOk(n)) {}
      forall p | p in pinObjs ensures old(PinOk(p)) {}
      WithoutMembers(old(pinsOf)[net], k);
    }

    // ---- Putting a pin on a net ------------------------------------------------------------

    method ConnectNetPin(net: Net, pin: Pin)
      requires Valid() && net in nets && !pin.inTop
      requires if pin in pinObjs then pin.net == null else pin.term == null
      modifies this`pinsOf, this`pinObjs, net`pins, pin`net, pin`netNext, pin`netPrev, pinObjs`netPrev
      ensures Valid() && pin.net == net && pinObjs == old(pinObjs) + {pin} && net in old(pinsOf)
      ensures pinsOf == old(pinsOf)[net := [pin] + old(pinsOf)[net]]
    {
      hide Valid, NetOk, PinOk, TermOk, MergeOk, OnlyTouched, StillReferred;
      ListsOf(net);
      ghost var s := pinsOf[net];
      pin.net := net;
      net.AddPin(pin, s);
      pinsOf := pinsOf[net := [pin] + s];
      pinObjs := pinObjs + {pin};
      AfterConnect(net, pin);
    }

    twostate predicate PinPut(new net: Net, new pin: Pin)
      reads this, nets, pinObjs, terms
    {
      && net in old(nets) && net in old(pinsOf) && pin in pinObjs && !pin.inTop && pin.net == net
      && nets == old(nets) && pinObjs == old(pinObjs) + {pin} && terms == old(terms) && termsOf == old(termsOf)
      && mergedAt == old(mergedAt) && clock == old(clock) && pinsOf == old(pinsOf)[net := [pin] + old(pinsOf)[net]]
      && (forall p :: p in pinObjs && p != pin ==> p.term == old(p.term) && p.net == old(p.net))
      && (forall p :: p in pinObjs && p != pin && p !in old(pinsOf)[net] ==>
            p.netNext == old(p.netNext) && p.netPrev == old(p.netPrev))
      && (forall t :: t in terms ==> t.net == old(t.net) && t.netNext == old(t.netNext))
      && forall n :: n in nets ==>
           n.terms == old(n.terms) && n.mergedInto == old(n.mergedInto) && (n == net || n.pins == old(n.pins))
    }

    twostate lemma AfterConnect(new net: Net, new pin: Pin)
      requires old(Valid()) && PinPut(net, pin) && net.PinList(pinsOf[net])
      requires pin in old(pinObjs) ==> old(pin.net) == null && pin.term == old(pin.term)
      requires pin !in old(pinObjs) ==> pin.term == null
      ensures Valid()
    {
      ConnectTouches(net, pin);
      MergesKept();
      assert old(NetOk(net)) && (pin in old(pinObjs) ==> old(PinOk(pin)));
      TermsKept(net, termsOf[net]);
      assert NetOk(net) && PinOk(pin);
      Rest({net}, {pin}, {});
    }

    twostate lemma ConnectTouches(new net: Net, new pin: Pin)
      requires old(Valid()) && PinPut(net, pin)
      requires (pin in old(pinObjs) ==> old(pin.net) == null && pin.term == old(pin.term))
      ensures OnlyTouched({net}, {pin}, {}) && StillReferred({net}, {pin}, {})
    {
      forall n | n in nets ensures old(NetOk(n)) {}
      forall p | p in old(pinObjs) ensures old(PinOk(p)) {}
      forall t | t in terms ensures old(TermOk(t)) {}
    }

    // ---- Terms -----------------------------------------------------------------------------

    method LinkTerm(pin: Pin, net: Net?) returns (term: Term)
      requires Valid() && (net == null || net in nets)
      modifies this`termsOf, nets`terms
      ensures fresh(term) && term.pin == pin && term.net == net && (net != null ==> net in old(termsOf))
      ensures termsOf == if net == null then old(termsOf) else old(termsOf)[net := [term] + old(termsOf)[net]]
      ensures net != null ==> net.TermList([term] + old(termsOf)[net])
      ensures forall n :: n in nets && n != net ==> n.terms == old(n.terms)
    {
      hide Valid, NetOk, PinOk, TermOk, MergeOk;
      term := new Term(pin, net);
      if net != null {
        ListsOf(net);
        ghost var s := termsOf[net];
        net.AddTerm(term, s);
        termsOf := termsOf[net := [term] + s];
      }
    }

    // A new term connects the pin to the net, if there is one. A pin of the top
    // instance has only the term.
    method AttachTerm(pin: Pin, net: Net?, top: bool) returns (term: Term)
      requires Valid() && (net == null || net in nets) && pin.term == null
      requires (if pin in pinObjs then top || pin.inTop ==> pin.net == null else top)
      modifies this`terms, this`termsOf, this`pinObjs, pin`term, pin`net, nets`terms
      ensures Valid() && pin.term == term && term.pin == pin && term.net == net && fresh(term)
      ensures pinObjs == old(pinObjs) + {pin} && terms == old(terms) + {term} && (net != null ==> net in old(termsOf))
      ensures termsOf == if net == null then old(termsOf) else old(termsOf)[net := [term] + old(termsOf)[net]]
      ensures pin.net == if top then null else old(pin.net)
    {
      hide Valid, NetOk, PinOk, TermOk, MergeOk, OnlyTouched, StillReferred, Net.PinList, Net.TermList;
      term := LinkTerm(pin, net);
      pin.term := term;
      if top {
        pin.net := null;
      }
      terms := terms + {term};
      pinObjs := pinObjs + {pin};
      AfterAttach(pin, net, term);
    }

    twostate predicate TermPut(new pin: Pin, new net: Net?, new term: Term)
      reads this, nets, pinObjs, terms
    {
      && (net != null ==> net in old(nets) && net in old(termsOf)) && term !in old(terms) && term in terms
      && pin in pinObjs
      && pin.term == term && term.pin == pin && term.net == net
      && nets == old(nets) && pinObjs == old(pinObjs) + {pin} && terms == old(terms) + {term} && pinsOf == old(pinsOf)
      && mergedAt == old(mergedAt) && clock == old(clock)
      && termsOf == (if net == null then old(termsOf) else old(termsOf)[net := [term] + old(termsOf)[net]])
      && (forall p :: p in old(pinObjs) ==>
            p.net == old(p.net) && p.netNext == old(p.netNext) && p.netPrev == old(p.netPrev))
      && (forall p :: p in old(pinObjs) && p != pin ==> p.term == old(p.term))
      && (forall t :: t in old(terms) ==> t.net == old(t.net) && t.netNext == old(t.netNext))
      && forall n :: n in nets ==>
           n.pins == old(n.pins) && n.mergedInto == old(n.mergedInto) && (n == net || n.terms == old(n.terms))
    }

    ghost function Just(n: Net?): set<Net> {
      if n == null then {} else {n}
    }

    twostate lemma AfterAttach(new pin: Pin, new net: Net?, new term: Term)
      requires old(Valid()) && TermPut(pin, net, term)
      requires net != null ==> net.TermList([term] + old(termsOf)[net])
      requires pin in old(pinObjs) ==> old(pin.term) == null
      requires (pin.inTop || pin !in old(pinObjs)) ==> pin.net == null
      ensures Valid()
    {
      AttachTouches(pin, net, term);
      MergesKept();
      assert net != null ==> old(NetOk(net));
      assert pin in old(pinObjs) ==> old(PinOk(pin));
      if net != null { PinsKept(net, pinsOf[net]); }
      assert net != null ==> NetOk(net);
      assert PinOk(pin) && TermOk(term);
      Rest(Just(net), {pin}, {term});
    }

    twostate lemma AttachTouches(new pin: Pin, new net: Net?, new term: Term)
      requires old(Valid()) && TermPut(pin, net, term)
      requires pin in old(pinObjs) ==> old(pin.term) == null
      requires pin !in old(pinObjs) ==> pin.net == null
      ensures OnlyTouched(Just(net), {pin}, {term}) && StillReferred(Just(net), {pin}, {term})
    {
      hide StillReferred;
      AttachReferred(pin, net, term);
    }

    twostate lemma AttachReferred(new pin: Pin, new net: Net?, new term: Term)
      requires old(Valid()) && TermPut(pin, net, term)
      requires pin in old(pinObjs) ==> old(pin.term) == null
      requires pin !in old(pinObjs) ==> pin.net == null
      ensures StillReferred(Just(net), {pin}, {term})
    {
      forall n | n in nets
        ensures forall p :: p in pinsOf[n] ==> p in old(pinObjs) && p.net == n
      {
        assert old(NetOk(n));
      }
      forall n | n in nets ensures forall t :: t in old(termsOf)[n] ==> t in old(terms) { assert old(NetOk(n)); }
      forall p | p in old(pinObjs)
        ensures p.net != null ==> p.net in nets && p in pinsOf[p.net]
      {
        assert old(PinOk(p));
      }
      forall p | p in old(pinObjs) && p != pin && p.term != null ensures p.term in old(terms) { assert old(PinOk(p)); }
      forall t | t in old(terms) ensures t.pin in pinObjs && t.pin.term == t { assert old(TermOk(t)); }
      forall t | t in old(terms)
        ensures t.net != null ==> t.net in nets && t in old(termsOf)[t.net]
      {
        assert old(TermOk(t));
      }
    }

    // found is the pin of the port, if the instance has one.
    method Connect(found: Pin?, inTop: bool, net: Net) returns (pin: Pin)
      requires Valid() && net in nets
      requires found != null ==> found in pinObjs && found.inTop == inTop && (inTop ==> found.term == null)
      modifies this`pinsOf, this`pinObjs, this`terms, this`termsOf, nets`pins
      modifies nets`terms, pinObjs`net, pinObjs`term, pinObjs`netNext, pinObjs`netPrev
      ensures Valid() && pin in pinObjs && pin.inTop == inTop && (if found != null then pin == found else fresh(pin))
      ensures pinObjs == old(pinObjs) + {pin} && nets == old(nets)
      ensures if inTop then pin.net == null && pin.term != null && pin.term.net == net else pin.net == net
      ensures forall p :: p in old(pinObjs) && p != pin ==> p.net == old(p.net) && p.term == old(p.term)
      ensures if inTop then fresh(pin.term) && pin.term.pin == pin && terms == old(terms) + {pin.term}
              else terms == old(terms) && pin.term == if found != null then old(found.term) else null
    {
      hide Valid, NetOk, PinOk, TermOk, MergeOk;
      if found != null {
        pin := found;
        PinNet(pin);
        var prevNet := pin.net;
        if prevNet != null {
          ghost var k := DisconnectNetPin(prevNet, pin);
        }
      } else {
        pin := new Pin(inTop, net);
      }
      if inTop {
        var term := AttachTerm(pin, net, true);
      } else {
        ConnectNetPin(net, pin);
      }
    }

    lemma PinNet(p: Pin)
      requires Valid() && p in pinObjs
      ensures (p.net != null ==> p.net in nets) && (p.inTop ==> p.net == null)
      ensures p.term != null ==> p.term in terms && p.term.pin == p
    {
      assert PinOk(p);
    }

    method MakeTerm(pin: Pin, net: Net?) returns (term: Term)
      requires Valid() && pin in pinObjs && pin.term == null && (net == null || net in nets)
      modifies this`terms, this`termsOf, this`pinObjs, pin`term, pin`net, nets`terms
      ensures Valid() && pin.term == term && term.net == net && pin.net == old(pin.net) && pinObjs == old(pinObjs)
    {
      PinNet(pin);
      term := AttachTerm(pin, net, false);
    }

    // ---- Disconnecting ---------------------------------------------------------------------

    // A pin of the top instance loses its term, any other its net.
    method DisconnectPin(pin: Pin)
      requires Valid() && pin in pinObjs
      modifies this`pinsOf, this`terms, this`termsOf, nets`pins, nets`terms
      modifies pinObjs`netNext, pinObjs`netPrev, pin`net, pin`term, terms`netNext
      ensures Valid() && nets == old(nets) && pinObjs == old(pinObjs)
      ensures if pin.inTop then pin.term == null else pin.net == null && pin.term == old(pin.term)
      ensures terms == if pin.inTop && old(pin.term) != null then old(terms) - {old(pin.term)} else old(terms)
    {
      hide Valid, NetOk, PinOk, TermOk, MergeOk;
      PinNet(pin);
      if pin.inTop {
        if pin.term != null {
          DetachTerm(pin, pin.term);
        }
      } else {
        var net := pin.net;
        if net != null {
          ghost var k := DisconnectNetPin(net, pin);
        }
      }
    }

    method DetachTerm(pin: Pin, term: Term)
      requires Valid() && pin in pinObjs && pin.term == term && term in terms
      modifies this`terms, this`termsOf, nets`terms, pin`term, terms`netNext
      ensures Valid() && pin.term == null && terms == old(terms) - {term}
    {
      hide Valid, NetOk, PinOk, TermOk, MergeOk, OnlyTouched, StillReferred;
      PinNet(pin);
      TermNet(term);
      var net := term.net;
      ghost var k := 0;
      if net != null {
        k := UnlinkTerm(net, term);
      }
      pin.term := null;
      terms := terms - {term};
      AfterDetach(pin, net, term, k);
    }

    lemma TermNet(t: Term)
      requires Valid() && t in terms
      ensures t.net != null ==> t.net in nets && t.net in termsOf && t in termsOf[t.net]
      ensures t.pin.term == t
    {
      assert TermOk(t);
    }

    method UnlinkTerm(net: Net, term: Term) returns (ghost k: nat)
      requires Valid() && net in nets && net in termsOf && term in termsOf[net]
      modifies this`termsOf, net`terms, terms`netNext
      ensures net in old(termsOf) && k < |old(termsOf)[net]| && old(termsOf)[net][k] == term
      ensures termsOf == old(termsOf)[net := Without(old(termsOf)[net], k)] && net.TermList(termsOf[net])
      ensures forall t :: t in terms && t !in old(termsOf)[net] ==> t.netNext == old(t.netNext)
    {
      hide Valid, NetOk, PinOk, TermOk, MergeOk;
      ghost var s := termsOf[net];
      k :| 0 <= k < |s| && s[k] == term;
      ListsOf(net);
      net.DeleteTerm(term, s, k);
      termsOf := termsOf[net := Without(s, k)];
    }

    twostate predicate TermOff(new pin: Pin, new net: Net?, new term: Term, k: nat)
      reads this, nets, pinObjs, terms
    {
      && pin in old(pinObjs) && term in old(terms) && term.pin == pin && old(pin.term) == term && old(term.net) == net
      && (net != null ==>
            net in old(nets) && net in old(termsOf) && k < |old(termsOf)[net]| && old(termsOf)[net][k] == term)
      && nets == old(nets) && pinObjs == old(pinObjs) && terms == old(terms) - {term} && pinsOf == old(pinsOf)
      && mergedAt == old(mergedAt) && clock == old(clock) && pin.term == null
      && termsOf == (if net == null then old(termsOf) else old(termsOf)[net := Without(old(termsOf)[net], k)])
      && (forall p :: p in pinObjs ==>
            p.net == old(p.net) && p.netNext == old(p.netNext) && p.netPrev == old(p.netPrev))
      && (forall p :: p in pinObjs && p != pin ==> p.term == old(p.term))
      && (forall t :: t in terms ==> t.net == old(t.net))
      && (forall t :: t in terms && (net == null || t !in old(termsOf)[net]) ==> t.netNext == old(t.netNext))
      && forall n :: n in nets ==>
           n.pins == old(n.pins) && n.mergedInto == old(n.mergedInto) && (n == net || n.terms == old(n.terms))
    }

    twostate lemma AfterDetach(new pin: Pin, new net: Net?, new term: Term, k: nat)
      requires old(Valid()) && TermOff(pin, net, term, k)
      requires net != null ==> net.TermList(termsOf[net])
      ensures Valid()
    {
      DetachTouches(pin, net, term, k);
      DetachReferred(pin, net, term, k);
      MergesKept();
      assert old(PinOk(pin));
      if net != null { DetachNet(pin, net, term, k); }
      assert PinOk(pin);
      Rest(Just(net), {pin}, {term});
    }

    twostate lemma DetachNet(new pin: Pin, new net: Net, new term: Term, k: nat)
      requires old(Valid()) && TermOff(pin, net, term, k) && net.TermList(termsOf[net])
      ensures NetOk(net)
    {
      assert old(NetOk(net));
      WithoutMembers(old(termsOf)[net], k);
      PinsKept(net, pinsOf[net]);
    }

    twostate lemma DetachTouches(new pin: Pin, new net: Net?, new term: Term, k: nat)
      requires old(Valid()) && TermOff(pin, net, term, k)
      ensures OnlyTouched(Just(net), {pin}, {term})
    {
      forall t | t in terms && net != null && t.net != net ensures t !in old(termsOf)[net] { assert old(NetOk(net)); }
      forall n | n in nets ensures n in pinsOf && n in termsOf { assert old(NetOk(n)); }
    }

    twostate lemma DetachReferred(new pin: Pin, new net: Net?, new term: Term, k: nat)
      requires old(Valid()) && TermOff(pin, net, term, k)
      ensures StillReferred(Just(net), {pin}, {term})
    {
      DetachListed(pin, net, term, k);
      DetachPins(pin, net, term, k);
      DetachTerms(pin, net, term, k);
      hide ListedStill, PinsReferred, TermsReferred, TermOff;
    }

    twostate lemma DetachListed(new pin: Pin, new net: Net?, new term: Term, k: nat)
      requires old(Valid()) && TermOff(pin, net, term, k)
      ensures ListedStill(Just(net), {pin}, {term})
    {
      forall n | n in nets
        ensures n in pinsOf && n in termsOf && forall p :: p in pinsOf[n] ==> p in pinObjs && p.net == n
      {
        assert old(NetOk(n));
      }
      forall n | n in nets && n != net ensures term !in termsOf[n] { assert old(NetOk(n)); }
    }

    twostate lemma DetachPins(new pin: Pin, new net: Net?, new term: Term, k: nat)
      requires old(Valid()) && TermOff(pin, net, term, k)
      ensures PinsReferred(Just(net), {pin}, {term})
    {
      forall p | p in pinObjs
        ensures p.net != null ==> p.net in nets && p.net in pinsOf && p in pinsOf[p.net]
      {
        assert old(PinOk(p));
      }
      forall p | p in pinObjs && p != pin && p.term != null ensures p.term != term { assert old(PinOk(p)); }
    }

    twostate lemma DetachTerms(new pin: Pin, new net: Net?, new term: Term, k: nat)
      requires old(Valid()) && TermOff(pin, net, term, k)
      ensures TermsReferred(Just(net), {pin}, {term})
    {
      if net != null {
        WithoutMembers(old(termsOf)[net], k) by { assert old(NetOk(net)); }
      }
      forall t | t in terms ensures t.pin in pinObjs && t.pin.term == t { assert old(TermOk(t)); }
      forall t | t in terms && t.net == net && net != null ensures t in old(termsOf)[net] { assert old(TermOk(t)); }
    }

    // ---- Merging ---------------------------------------------------------------------------

    // Two distinct nets that have not been merged into others.
    method MergeInto(net: Net, into: Net)
      requires Valid() && net in nets && into in nets && net != into && net.mergedInto == null
      requires into.mergedInto == null
      modifies this`pinsOf, this`termsOf, this`mergedAt, this`clock, nets`pins, nets`terms, net`mergedInto
      modifies pinObjs`net, pinObjs`netNext, pinObjs`netPrev, terms`net, terms`netNext
      ensures Valid() && nets == old(nets) && pinObjs == old(pinObjs) && terms == old(terms) && net.mergedInto == into
      ensures net in old(pinsOf) && into in old(pinsOf) && net in old(termsOf) && into in old(termsOf)
      ensures pinsOf == old(pinsOf)[net := []][into := Reversed(old(pinsOf)[net]) + old(pinsOf)[into]]
      ensures termsOf == old(termsOf)[net := []][into := Reversed(old(termsOf)[net]) + old(termsOf)[into]]
      ensures forall p :: p in pinObjs ==> p.net == if old(p.net) == net then into else old(p.net)
      ensures forall t :: t in terms ==> t.net == if old(t.net) == net then into else old(t.net)
    {
      hide Valid, NetOk, PinOk, TermOk, MergeOk, OnlyTouched, StillReferred, Moved, Reversed, Net.PinList, Net.TermList;
      MergeLists(net, into);
      ghost var ps, ts := pinsOf[net], termsOf[net];
      pinsOf := pinsOf[net := []][into := Reversed(ps) + pinsOf[into]];
      termsOf := termsOf[net := []][into := Reversed(ts) + termsOf[into]];
      mergedAt := mergedAt[net := clock];
      clock := clock + 1;
      AfterMerge(net, into);
    }

    lemma ListsApart(net: Net, into: Net)
      requires Valid() && net in nets && into in nets && net != into
      ensures net in pinsOf && into in pinsOf && net in termsOf && into in termsOf
      ensures net.PinList(pinsOf[net]) && net.TermList(termsOf[net]) && into.PinList(pinsOf[into])
      ensures into.TermList(termsOf[into])
      ensures forall p :: p in pinsOf[net] || p in pinsOf[into] ==> p in pinObjs
      ensures forall p :: p in pinsOf[net] ==> p !in pinsOf[into]
      ensures forall t :: t in termsOf[net] || t in termsOf[into] ==> t in terms
      ensures forall t :: t in termsOf[net] ==> t !in termsOf[into]
    {
      assert NetOk(net) && NetOk(into);
    }

    method MergeLists(net: Net, into: Net)
      requires Valid() && net in nets && into in nets && net != into
      modifies net`pins, net`terms, net`mergedInto, into`pins, into`terms
      modifies pinObjs`net, pinObjs`netNext, pinObjs`netPrev, terms`net, terms`netNext
      ensures net in pinsOf && into in pinsOf && net in termsOf && into in termsOf
      ensures into.PinList(Reversed(pinsOf[net]) + pinsOf[into])
      ensures into.TermList(Reversed(termsOf[net]) + termsOf[into])
      ensures Moved(net, into, nets, pinObjs, terms, pinsOf, termsOf)
    {
      hide Valid, NetOk, PinOk, TermOk, MergeOk;
      ListsApart(net, into);
      net.MergeInto(into, pinsOf[net], termsOf[net], pinsOf[into], termsOf[into]);
    }

    // The fields after the pins and terms of net have moved.
    twostate predicate Moved(new net: Net, new into: Net, new ns: set<Net>, new pins: set<Pin>, new ts: set<Term>,
                             new pl: map<Net, seq<Pin>>, new tl: map<Net, seq<Term>>)
      reads ns, pins, ts
    {
      && net in ns && into in ns && net in pl && into in pl && net in tl && into in tl
      && net.pins == null && net.terms == null && net.mergedInto == into
      && (forall p :: p in pins ==>
            p in old(pinObjs) && p.term == old(p.term) && p.net == if p in pl[net] then into else old(p.net))
      && (forall t :: t in ts ==> t in old(terms) && t.net == if t in tl[net] then into else old(t.net))
      && (forall p :: p in pins && p !in pl[net] && p !in pl[into] ==>
            p in old(pinObjs) && p.netNext == old(p.netNext) && p.netPrev == old(p.netPrev))
      && (forall t :: t in ts && t !in tl[net] && t !in tl[into] ==> t in old(terms) && t.netNext == old(t.netNext))
      && (forall n :: n in ns && n != net && n != into ==>
            n in old(nets) && n.pins == old(n.pins) && n.terms == old(n.terms))
      && forall n :: n in ns && n != net ==> n in old(nets) && n.mergedInto == old(n.mergedInto)
    }

    twostate predicate Merged(new net: Net, new into: Net)
      reads this, nets, pinObjs, terms
    {
      && net in old(nets) && into in old(nets) && net != into && old(net.mergedInto) == null
      && old(into.mergedInto) == null
      && nets == old(nets) && pinObjs == old(pinObjs) && terms == old(terms)
      && Moved(net, into, nets, pinObjs, terms, old(pinsOf), old(termsOf))
      && pinsOf == old(pinsOf)[net := []][into := Reversed(old(pinsOf)[net]) + old(pinsOf)[into]]
      && termsOf == old(termsOf)[net := []][into := Reversed(old(termsOf)[net]) + old(termsOf)[into]]
      && mergedAt == old(mergedAt)[net := old(clock)] && clock == old(clock) + 1
    }

    twostate lemma AfterMerge(new net: Net, new into: Net)
      requires old(Valid()) && Merged(net, into)
      requires into in pinsOf && into in termsOf && into.PinList(pinsOf[into]) && into.TermList(termsOf[into])
      ensures Valid() && net.mergedInto == into
      ensures forall p :: p in pinObjs ==> p.net == if old(p.net) == net then into else old(p.net)
      ensures forall t :: t in terms ==> t.net == if old(t.net) == net then into else old(t.net)
    {
      hide Valid, Merged, OnlyTouched, StillReferred, NetOk, PinOk, TermOk, MergeOk;
      MovedOnly(net, into);
      var ps, ts := set p | p in old(pinsOf)[net], set t | t in old(termsOf)[net];
      MergeNets(net, into);
      MergeTouches(net, into, ps, ts);
      MergeReferred(net, into, ps, ts);
      MergeTimes(net, into);
      MergeMoved(net, into, ps, ts);
      Rest({net, into}, ps, ts);
    }

    // Exactly the pins and terms that were on net have moved.
    twostate lemma MovedOnly(new net: Net, new into: Net)
      requires old(Valid()) && Merged(net, into)
      ensures forall p :: p in pinObjs ==> (p in old(pinsOf)[net] <==> old(p.net) == net)
      ensures forall t :: t in terms ==> (t in old(termsOf)[net] <==> old(t.net) == net)
      ensures forall p :: p in pinObjs ==> p.net == if old(p.net) == net then into else old(p.net)
      ensures forall t :: t in terms ==> t.net == if old(t.net) == net then into else old(t.net)
      ensures net.mergedInto == into && pinsOf.Keys == termsOf.Keys == nets && net in old(pinsOf) && net in old(termsOf)
    {
      assert old(NetOk(net));
      forall p | p in pinObjs && old(p.net) == net ensures p in old(pinsOf)[net] { assert old(PinOk(p)); }
      forall t | t in terms && old(t.net) == net ensures t in old(termsOf)[net] { assert old(TermOk(t)); }
    }

    twostate lemma MergeNets(new net: Net, new into: Net)
      requires old(Valid()) && Merged(net, into)
      requires into in pinsOf && into in termsOf && into.PinList(pinsOf[into]) && into.TermList(termsOf[into])
      ensures NetOk(net) && NetOk(into)
    {
      assert old(NetOk(net)) && old(NetOk(into));
      ReversedMembers(old(pinsOf)[net]);
      ReversedMembers(old(termsOf)[net]);
      forall p | p in old(pinsOf)[into] ensures p !in old(pinsOf)[net] {}
      forall t | t in old(termsOf)[into] ensures t !in old(termsOf)[net] {}
    }

    twostate lemma MergeMoved(new net: Net, new into: Net, new ps: set<Pin>, new ts: set<Term>)
      requires old(Valid()) && Merged(net, into) && (forall p :: p in ps ==> p in old(pinsOf)[net])
      requires forall t :: t in ts ==> t in old(termsOf)[net]
      ensures (forall p :: p in ps ==> p in pinObjs && PinOk(p)) && forall t :: t in ts ==> t in terms && TermOk(t)
    {
      assert old(NetOk(net));
      ReversedMembers(old(pinsOf)[net]);
      ReversedMembers(old(termsOf)[net]);
      forall p | p in ps ensures p in pinObjs && PinOk(p) { assert old(PinOk(p)); }
      forall t | t in ts ensures t in terms && TermOk(t) { assert old(TermOk(t)) && old(PinOk(t.pin)); }
    }

    twostate lemma MergeTouches(new net: Net, new into: Net, new ps: set<Pin>, new ts: set<Term>)
      requires old(Valid()) && Merged(net, into) && (forall p :: p in ps <==> p in old(pinsOf)[net])
      requires forall t :: t in ts <==> t in old(termsOf)[net]
      ensures OnlyTouched({net, into}, ps, ts)
    {
      forall n | n in nets
        ensures n in pinsOf && n in termsOf && n in old(pinsOf) && n in old(termsOf)
      {
        assert old(NetOk(n));
      }
      forall p | p in pinObjs && p in old(pinsOf)[into] ensures old(p.net) == into { assert old(NetOk(into)); }
      forall t | t in terms && t in old(termsOf)[into] ensures old(t.net) == into { assert old(NetOk(into)); }
    }

    twostate lemma MergeReferred(new net: Net, new into: Net, new ps: set<Pin>, new ts: set<Term>)
      requires old(Valid()) && Merged(net, into) && (forall p :: p in ps <==> p in old(pinsOf)[net])
      requires forall t :: t in ts <==> t in old(termsOf)[net]
      ensures StillReferred({net, into}, ps, ts)
    {
      MergeListed(net, into, ps, ts);
      MergePins(net, into, ps, ts);
      MergeTerms(net, into, ps, ts);
      hide ListedStill, PinsReferred, TermsReferred, Merged;
    }

    twostate lemma MergeListed(new net: Net, new into: Net, new ps: set<Pin>, new ts: set<Term>)
      requires old(Valid()) && Merged(net, into) && (forall p :: p in ps <==> p in old(pinsOf)[net])
      requires forall t :: t in ts <==> t in old(termsOf)[net]
      ensures ListedStill({net, into}, ps, ts)
    {
      assert old(NetOk(net));
      forall n | n in nets && n != net && n != into
        ensures (forall p :: p in ps ==> p !in pinsOf[n]) && forall t :: t in ts ==> t !in termsOf[n]
      {
        assert old(NetOk(n));
      }
    }

    twostate lemma MergePins(new net: Net, new into: Net, new ps: set<Pin>, new ts: set<Term>)
      requires old(Valid()) && Merged(net, into) && (forall p :: p in ps <==> p in old(pinsOf)[net])
      requires forall t :: t in ts <==> t in old(termsOf)[net]
      ensures PinsReferred({net, into}, ps, ts)
    {
      forall p | p in pinObjs && p !in ps
        ensures p.net != net && (p.net == into ==> p in old(pinsOf)[into])
      {
        assert old(PinOk(p));
      }
      forall p | p in pinObjs && p !in ps && p.term != null ensures p.term in terms { assert old(PinOk(p)); }
    }

    twostate lemma MergeTerms(new net: Net, new into: Net, new ps: set<Pin>, new ts: set<Term>)
      requires old(Valid()) && Merged(net, into) && (forall p :: p in ps <==> p in old(pinsOf)[net])
      requires forall t :: t in ts <==> t in old(termsOf)[net]
      ensures TermsReferred({net, into}, ps, ts)
    {
      forall t | t in terms && t !in ts
        ensures t.net != net && (t.net == into ==> t in old(termsOf)[into])
      {
        assert old(TermOk(t));
      }
      forall t | t in terms && t !in ts ensures t.pin in pinObjs && t.pin.term == t { assert old(TermOk(t)); }
    }

    twostate lemma MergeTimes(new net: Net, new into: Net)
      requires old(Valid()) && Merged(net, into)
      ensures forall n :: n in nets ==> MergeOk(n)
    {
      forall n | n in nets ensures MergeOk(n) { assert old(MergeOk(n)); }
    }

    // ---- Finding the surviving net ----------------------------------------------------------

    // Steps along the merge pointers lead from net to m.
    ghost predicate LeadsTo(net: Net, m: Net, steps: nat)
      reads this, nets
      decreases steps
    {
      if steps == 0 then net == m else net in nets && net.mergedInto != null && LeadsTo(net.mergedInto, m, steps - 1)
    }

    lemma {:induction false} OneMoreStep(net: Net, m: Net, steps: nat)
      requires LeadsTo(net, m, steps) && m in nets && m.mergedInto != null
      ensures LeadsTo(net, m.mergedInto, steps + 1)
    {
      if steps > 0 { OneMoreStep(net.mergedInto, m, steps - 1); }
    }

    // The net that net has been merged into, directly or not, and that has itself
    // not been merged.
    method FindNet(net: Net) returns (survivor: Net, ghost steps: nat)
      requires Valid() && net in nets
      ensures survivor in nets && survivor.mergedInto == null && LeadsTo(net, survivor, steps)
    {
      survivor, steps := net, 0;
      while survivor.mergedInto != null
        invariant survivor in nets && LeadsTo(net, survivor, steps)
        decreases if survivor.mergedInto != null then clock - mergedAt[survivor] else 0
      {
        assert MergeOk(survivor);
        OneMoreStep(net, survivor, steps);
        survivor, steps := survivor.mergedInto, steps + 1;
        assert MergeOk(survivor);
      }
    }

    lemma SurvivorIsUnique(net: Net, m: Net, i: nat, n: Net, j: nat)
      requires LeadsTo(net, m, i) && LeadsTo(net, n, j) && m in nets && n in nets && m.mergedInto == null
      requires n.mergedInto == null
      ensures m == n && i == j
    {
      if i > 0 && j > 0 { SurvivorIsUnique(net.mergedInto, m, i - 1, n, j - 1); }
    }

    // ---- Visiting what is connected ----------------------------------------------------------

    // A pin connects the net it is on and the net of its term.
    ghost predicate Adjacent(n: Net, m: Net)
      requires Valid() && n in nets
      reads this, nets, pinObjs, terms
    {
      assert NetOk(n);
      || (exists t :: t in termsOf[n] && UpTo(t, m))
      || (exists p :: p in pinsOf[n] && DownTo(p, m))
    }

    ghost predicate UpTo(t: Term, m: Net)
      requires Valid() && t in terms
      reads this, nets, pinObjs, terms
    {
      assert TermOk(t);
      t.pin.net == m
    }

    ghost predicate DownTo(p: Pin, m: Net)
      requires Valid() && p in pinObjs
      reads this, nets, pinObjs, terms
    {
      assert PinOk(p);
      p.term != null && p.term.net == m
    }

    // Connections go both ways.
    lemma AdjacentBothWays(n: Net, m: Net)
      requires Valid() && n in nets && m in nets && Adjacent(n, m)
      ensures Adjacent(m, n)
    {
      assert NetOk(n) && NetOk(m);
      if t :| t in termsOf[n] && UpTo(t, m) {
        assert TermOk(t) && PinOk(t.pin) && DownTo(t.pin, n);
      } else {
        var p :| p in pinsOf[n] && DownTo(p, m);
        assert PinOk(p) && TermOk(p.term) && UpTo(p.term, n);
      }
    }

    // The net a pin is counted with: its own, or if it has none that of its term.
    ghost function Owner(p: Pin): Net?
      requires Valid() && p in pinObjs
      reads this, nets, pinObjs, terms
    {
      assert PinOk(p);
      if p.net != null then p.net else if p.term != null then p.term.net else null
    }

    // Everything adjacent to a net of s that is not in v is in s.
    ghost predicate ClosedBut(s: set<Net>, v: set<Net>)
      requires Valid()
      reads this, nets, pinObjs, terms
    {
      forall n, m :: n in s && n in nets && n !in v && m in nets && Adjacent(n, m) ==> m in s
    }

    // calls are `before` and then every pin of the nets in done, once each.
    ghost predicate Called(calls: seq<Pin>, before: seq<Pin>, done: set<Net>)
      requires Valid()
      reads this, nets, pinObjs, terms
    {
      && (forall p :: p in calls ==> p in pinObjs)
      && forall p :: p in pinObjs ==> multiset(calls)[p] == multiset(before)[p] + if Owner(p) in done then 1 else 0
    }

    // Halfway through the net: its first i terms and j pins have been gone through.
    ghost predicate CalledSo(calls: seq<Pin>, before: seq<Pin>, done: set<Net>, net: Net, i: nat, j: nat)
      requires Valid() && net in nets
      reads this, nets, pinObjs, terms
    {
      && net in pinsOf && net in termsOf && i <= |termsOf[net]| && j <= |pinsOf[net]| && net !in done
      && (forall p :: p in calls ==> p in pinObjs)
      && forall p :: p in pinObjs ==>
           multiset(calls)[p] == multiset(before)[p] + (if Owner(p) in done then 1 else 0)
             + if Reached(p, net, i, j) then 1 else 0
    }

    ghost predicate Reached(p: Pin, net: Net, i: nat, j: nat)
      requires net in pinsOf && net in termsOf && i <= |termsOf[net]| && j <= |pinsOf[net]|
      reads this, p
    {
      p in pinsOf[net][..j] || (p.net == null && p.term != null && p.term in termsOf[net][..i])
    }

    // In the middle of visiting net: its first i terms and j pins have been followed.
    ghost predicate Visiting(net: Net, v0: set<Net>, v: set<Net>, c0: seq<Pin>, c: seq<Pin>, i: nat, j: nat)
      requires Valid() && net in nets
      reads this, nets, pinObjs, terms
    {
      assert NetOk(net);
      && v0 + {net} <= v <= nets && net !in v0 && ClosedBut(v, v0 + {net})
      && CalledSo(c, c0, v - v0 - {net}, net, i, j)
      && (forall k :: 0 <= k < i ==> Followed(Above(termsOf[net][k]), v))
      && (forall k :: 0 <= k < j ==> pinsOf[net][k].term != null ==> Followed(pinsOf[net][k].term.net, v))
    }

    ghost function Above(t: Term): Net?
      requires Valid() && t in terms
      reads this, nets, pinObjs, terms
    {
      assert TermOk(t);
      t.pin.net
    }

    ghost predicate Followed(n: Net?, v: set<Net>) {
      n == null || n in v
    }

    // Visits every pin connected to the net that is not on a visited one.
    method VisitConnectedPins(net: Net, visited: set<Net>, calls: seq<Pin>)
      returns (visited': set<Net>, calls': seq<Pin>)
      requires Valid() && net in nets && visited <= nets && forall p :: p in calls ==> p in pinObjs
      ensures visited + {net} <= visited' <= nets && ClosedBut(visited', visited)
      ensures Called(calls', calls, visited' - visited)
      ensures Confined(net, visited, visited' - visited)
      decreases nets - visited, 1
    {
      hide Valid, NetOk, Visiting, ClosedBut, Confined, Called, CalledSo, Adjacent;
      visited', calls' := visited, calls;
      if net !in visited {
        visited' := visited' + {net};
        VisitStarts(net, visited, calls);
        ConfinedStart(net, visited);
        visited', calls' := VisitUp(net, visited, visited', calls, calls');
        visited', calls' := VisitDown(net, visited, visited', calls, calls');
        VisitEnds(net, visited, visited', calls, calls');
      } else {
        VisitNothing(visited, calls);
        ConfinedStart(net, visited);
      }
    }

    // Through the terms of the net to the nets above.
    method VisitUp(net: Net, ghost v0: set<Net>, visited: set<Net>, ghost c0: seq<Pin>, calls: seq<Pin>)
      returns (visited': set<Net>, calls': seq<Pin>)
      requires Valid() && net in nets && net in termsOf && Visiting(net, v0, visited, c0, calls, 0, 0)
      requires v0 + {net} <= visited <= nets && net !in v0
      requires Confined(net, v0, visited - v0)
      ensures Visiting(net, v0, visited', c0, calls', |termsOf[net]|, 0) && v0 + {net} <= visited' <= nets
      ensures Confined(net, v0, visited' - v0)
      decreases nets - v0, 0
    {
      hide Valid, NetOk, Visiting, ClosedBut, Confined, Called, CalledSo, Adjacent;
      visited', calls' := visited, calls;
      ListsOf(net);
      ghost var tl, i := termsOf[net], 0;
      var term := net.terms;
      while term != null
        invariant 0 <= i <= |tl| && term == NthTerm(tl, i) && net.TermList(tl)
        invariant Visiting(net, v0, visited', c0, calls', i, 0) && v0 + {net} <= visited' <= nets
        invariant Confined(net, v0, visited' - v0)
        decreases |tl| - i
      {
        assert TermAt(tl, i);
        var abovePin := term.pin;
        TermNet(term);
        TermPin(term);
        PinNet(abovePin);
        VisitingCalls(net, v0, visited', c0, calls', i, 0);
        var aboveNet := abovePin.net;
        ghost var v1, c1 := visited', calls';
        if aboveNet != null {
          AdjacentUp(net, i);
          visited', calls' := VisitConnectedPins(aboveNet, visited', calls');
          ConfinedStep(net, aboveNet, v0, v1, visited');
          UpVisited(net, v0, v1, visited', c0, c1, calls', i);
        } else {
          calls' := calls' + [abovePin];
          UpCalled(net, v0, v1, c0, c1, i);
        }
        term := term.netNext;
        i := i + 1;
      }
    }

    // Through its pins to the nets below.
    method VisitDown(net: Net, ghost v0: set<Net>, visited: set<Net>, ghost c0: seq<Pin>, calls: seq<Pin>)
      returns (visited': set<Net>, calls': seq<Pin>)
      requires Valid() && net in nets && net in termsOf && net in pinsOf
      requires Visiting(net, v0, visited, c0, calls, |termsOf[net]|, 0)
      requires v0 + {net} <= visited <= nets && net !in v0
      requires Confined(net, v0, visited - v0)
      ensures Visiting(net, v0, visited', c0, calls', |termsOf[net]|, |pinsOf[net]|) && v0 + {net} <= visited' <= nets
      ensures Confined(net, v0, visited' - v0)
      decreases nets - v0, 0
    {
      hide Valid, NetOk, Visiting, ClosedBut, Confined, Called, CalledSo, Adjacent, Net.TermList, Net.PinList;
      visited', calls' := visited, calls;
      ListsOf(net);
      ghost var pl, i, j := pinsOf[net], |termsOf[net]|, 0;
      net.PinLinks(pl);
      var pin := net.pins;
      while pin != null
        invariant 0 <= j <= |pl| && pin == NthPin(pl, j)
        invariant Visiting(net, v0, visited', c0, calls', i, j) && v0 + {net} <= visited' <= nets
        invariant Confined(net, v0, visited' - v0)
        decreases |pl| - j
      {
        PinNet(pin);
        VisitingCalls(net, v0, visited', c0, calls', i, j);
        ghost var v1, c1 := visited', calls';
        calls' := calls' + [pin];
        var belowTerm := pin.term;
        if belowTerm != null && belowTerm.net != null {
          var belowNet := belowTerm.net;
          TermNet(belowTerm);
          AdjacentDown(net, j);
          visited', calls' := VisitConnectedPins(belowNet, visited', calls');
          ConfinedStep(net, belowNet, v0, v1, visited');
          DownVisited(net, v0, v1, visited', c0, c1, calls', i, j);
        } else {
          DownCalled(net, v0, v1, c0, c1, i, j);
        }
        pin := pin.netNext;
        j := j + 1;
      }
    }

    lemma TermPin(t: Term)
      requires Valid() && t in terms
      ensures t.pin in pinObjs
    {
      assert TermOk(t);
    }

    lemma VisitStarts(net: Net, v0: set<Net>, c0: seq<Pin>)
      requires Valid() && net in nets && v0 <= nets && net !in v0 && forall p :: p in c0 ==> p in pinObjs
      ensures net in termsOf && net in pinsOf && Visiting(net, v0, v0 + {net}, c0, c0, 0, 0)
    {
      assert NetOk(net);
      assert v0 + {net} - v0 - {net} == {};
    }

    lemma VisitNothing(v0: set<Net>, c0: seq<Pin>)
      requires Valid() && forall p :: p in c0 ==> p in pinObjs
      ensures ClosedBut(v0, v0) && Called(c0, c0, v0 - v0)
    {}

    lemma VisitingCalls(net: Net, v0: set<Net>, v: set<Net>, c0: seq<Pin>, c: seq<Pin>, i: nat, j: nat)
      requires Valid() && net in nets && Visiting(net, v0, v, c0, c, i, j)
      ensures forall p :: p in c ==> p in pinObjs
    {}

    lemma AdjacentUp(net: Net, i: nat)
      requires Valid() && net in nets && net in termsOf && i < |termsOf[net]| && termsOf[net][i].pin.net != null
      ensures Adjacent(net, termsOf[net][i].pin.net)
    {
      assert NetOk(net);
      assert UpTo(termsOf[net][i], termsOf[net][i].pin.net);
    }

    lemma AdjacentDown(net: Net, j: nat)
      requires Valid() && net in nets && net in pinsOf && j < |pinsOf[net]|
      requires pinsOf[net][j].term != null && pinsOf[net][j].term.net != null
      ensures Adjacent(net, pinsOf[net][j].term.net)
    {
      assert NetOk(net);
      assert DownTo(pinsOf[net][j], pinsOf[net][j].term.net);
    }

    // Every set of nets that contains net and is closed but for v contains d.
    ghost predicate Confined(net: Net, v: set<Net>, d: set<Net>)
      requires Valid()
      reads this, nets, pinObjs, terms
    {
      forall s: set<Net> :: s <= nets && net in s && ClosedBut(s, v) ==> d <= s
    }

    // A visit of an adjacent net goes no further than the closure of net.
    lemma ConfinedStep(net: Net, m: Net, v0: set<Net>, v1: set<Net>, v2: set<Net>)
      requires Valid() && net in nets && m in nets && Adjacent(net, m) && net !in v0 && v0 <= v1 <= v2
      requires Confined(net, v0, v1 - v0) && Confined(m, v1, v2 - v1)
      ensures Confined(net, v0, v2 - v0)
    {
      hide Valid, Adjacent;
      forall s: set<Net> | s <= nets && net in s && ClosedBut(s, v0) ensures v2 - v0 <= s {
        assert ClosedBut(s, v1);
        assert v2 - v0 == (v2 - v1) + (v1 - v0);
      }
    }

    lemma ConfinedStart(net: Net, v0: set<Net>)
      requires Valid()
      ensures Confined(net, v0, v0 + {net} - v0) && Confined(net, v0, v0 - v0)
    {}

    // The nets connected to net: the least closed set with it.
    ghost predicate Component(net: Net, s: set<Net>)
      requires Valid()
      reads this, nets, pinObjs, terms
    {
      s <= nets && net in s && ClosedBut(s, {}) && Confined(net, {}, s)
    }

    lemma ComponentIsUnique(net: Net, s: set<Net>, s': set<Net>)
      requires Valid() && Component(net, s) && Component(net, s')
      ensures s == s'
    {}

    // From a net: every pin of the connected nets is called exactly once, and no
    // other.
    method VisitFromNet(net: Net) returns (calls: seq<Pin>, ghost connected: set<Net>)
      requires Valid() && net in nets
      ensures Component(net, connected)
      ensures forall s :: Component(net, s) ==> Called(calls, [], s)
    {
      hide Valid, ClosedBut, Confined, Called;
      var visited;
      visited, calls := VisitConnectedPins(net, {}, []);
      connected := visited;
      assert visited - {} == visited;
      forall s | Component(net, s) ensures Called(calls, [], s) { ComponentIsUnique(net, s, connected); }
    }

    // The nets connected to the pin, none if it is on no net and connects none.
    ghost predicate ConnectedTo(pin: Pin, s: set<Net>)
      requires Valid() && pin in pinObjs
      reads this, nets, pinObjs, terms
    {
      if Owner(pin) == null then s == {} else Component(Owner(pin), s)
    }

    // The pins of these nets are called once each, and no other pin but this one if
    // it has neither a net nor a term.
    ghost predicate CalledFrom(pin: Pin, calls: seq<Pin>, s: set<Net>)
      requires Valid() && pin in pinObjs
      reads this, nets, pinObjs, terms
    {
      (forall p :: p in calls ==> p in pinObjs) && forall p :: p in pinObjs ==>
        multiset(calls)[p] == if Owner(p) in s || (p == pin && pin.net == null && pin.term == null) then 1 else 0
    }

    // From a pin. A pin that has only a term, connected to nothing, is not called.
    method VisitFromPin(pin: Pin) returns (calls: seq<Pin>, ghost connected: set<Net>)
      requires Valid() && pin in pinObjs
      ensures ConnectedTo(pin, connected)
      ensures pin.net != null && pin.term != null && pin.term.net != null ==> pin.term.net in connected
      ensures forall s :: ConnectedTo(pin, s) ==> CalledFrom(pin, calls, s)
    {
      hide Valid, ClosedBut, Confined;
      var visited: set<Net>;
      visited, calls := {}, [];
      OwnerIs(pin);
      if pin.net != null {
        visited, calls := VisitConnectedPins(pin.net, {}, []);
        assert visited - {} == visited;
      } else if pin.term == null {
        calls := [pin];
      }
      ghost var v1, c1 := visited, calls;
      if pin.term != null && pin.term.net != null {
        visited, calls := VisitConnectedPins(pin.term.net, visited, calls);
        if pin.net != null {
          TermNetVisited(pin, v1);
          NothingNew(pin.term.net, v1, visited);
        } else {
          assert visited - {} == visited;
        }
      }
      connected := visited;
      assert CalledFrom(pin, calls, connected);
      forall s | ConnectedTo(pin, s) ensures s == connected { OnlyConnected(pin, s, connected); }
    }

    lemma OnlyConnected(pin: Pin, s: set<Net>, s': set<Net>)
      requires Valid() && pin in pinObjs && ConnectedTo(pin, s) && ConnectedTo(pin, s')
      ensures s == s'
    {
      if Owner(pin) != null { ComponentIsUnique(Owner(pin), s, s'); }
    }

    lemma OwnerIs(p: Pin)
      requires Valid() && p in pinObjs
      ensures Owner(p) == if p.net != null then p.net else if p.term != null then p.term.net else null
      ensures (p.net != null ==> p.net in nets) && (p.term != null && p.term.net != null ==> p.term.net in nets)
    {
      assert PinOk(p);
      if p.term != null { assert TermOk(p.term); }
    }

    lemma TermNetVisited(p: Pin, v: set<Net>)
      requires Valid() && p in pinObjs && p.net != null && p.term != null && p.term.net != null
      requires v <= nets && p.net in v && ClosedBut(v, {})
      ensures p.term.net in v
    {
      OwnerIs(p);
      assert PinOk(p) && DownTo(p, p.term.net);
      assert Adjacent(p.net, p.term.net);
    }

    // A visit from a visited net visits nothing.
    lemma NothingNew(net: Net, v: set<Net>, v': set<Net>)
      requires Valid() && net in v && v <= nets && v <= v' && Confined(net, v, v' - v)
      ensures v' == v
    {
      assert ClosedBut(v, v);
      assert v' - v <= v;
    }

    lemma ClosedOn(net: Net, v0: set<Net>, v1: set<Net>, v2: set<Net>)
      requires Valid() && ClosedBut(v1, v0 + {net}) && ClosedBut(v2, v1) && v0 + {net} <= v1 <= v2
      ensures ClosedBut(v2, v0 + {net})
    {}

    // ---- Counting the calls

    // A visit of further nets.
    lemma CountVisit(net: Net, v0: set<Net>, v1: set<Net>, v2: set<Net>, c0: seq<Pin>, c1: seq<Pin>, c2: seq<Pin>,
                     i: nat, j: nat)
      requires Valid() && net in nets && v0 + {net} <= v1 <= v2 && CalledSo(c1, c0, v1 - v0 - {net}, net, i, j)
      requires Called(c2, c1, v2 - v1)
      ensures CalledSo(c2, c0, v2 - v0 - {net}, net, i, j)
    {
      hide Valid, Reached, Owner;
      forall p | p in pinObjs
        ensures multiset(c2)[p] == multiset(c0)[p] + (if Owner(p) in v2 - v0 - {net} then 1 else 0)
                                   + if Reached(p, net, i, j) then 1 else 0
      {
        assert multiset(c1)[p] == multiset(c0)[p] + (if Owner(p) in v1 - v0 - {net} then 1 else 0)
                                  + if Reached(p, net, i, j) then 1 else 0;
        assert multiset(c2)[p] == multiset(c1)[p] + if Owner(p) in v2 - v1 then 1 else 0;
      }
    }

    // A pin of the net itself.
    lemma CountPin(net: Net, done: set<Net>, c0: seq<Pin>, c: seq<Pin>, i: nat, j: nat, i': nat, j': nat, pin: Pin)
      requires Valid() && net in nets && CalledSo(c, c0, done, net, i, j) && pin in pinObjs
      requires net in pinsOf && net in termsOf && i' <= |termsOf[net]| && j' <= |pinsOf[net]|
      requires !Reached(pin, net, i, j)
      requires forall p :: p in pinObjs ==> (Reached(p, net, i', j') <==> Reached(p, net, i, j) || p == pin)
      ensures CalledSo(c + [pin], c0, done, net, i', j')
    {
      hide Valid, Reached, Owner;
      assert multiset(c + [pin]) == multiset(c) + multiset{pin};
    }

    // An index that reaches no new pin.
    lemma CountSame(net: Net, done: set<Net>, c0: seq<Pin>, c: seq<Pin>, i: nat, j: nat, i': nat, j': nat)
      requires Valid() && net in nets && CalledSo(c, c0, done, net, i, j)
      requires net in pinsOf && net in termsOf && i' <= |termsOf[net]| && j' <= |pinsOf[net]|
      requires forall p :: p in pinObjs ==> (Reached(p, net, i', j') <==> Reached(p, net, i, j))
      ensures CalledSo(c, c0, done, net, i', j')
    {
      hide Valid, Reached, Owner;
    }

    // Following term i reaches its pin, if that has no net.
    lemma ReachedTerm(net: Net, i: nat, p: Pin)
      requires Valid() && net in nets && net in termsOf && net in pinsOf && i < |termsOf[net]| && p in pinObjs
      ensures Reached(p, net, i + 1, 0) <==> Reached(p, net, i, 0) || (p == termsOf[net][i].pin && p.net == null)
      ensures p == termsOf[net][i].pin ==> !Reached(p, net, i, 0)
    {
      assert NetOk(net) && PinOk(p);
      assert TermOk(termsOf[net][i]);
      assert termsOf[net][..i + 1] == termsOf[net][..i] + [termsOf[net][i]];
    }

    lemma ReachedPin(net: Net, j: nat, p: Pin)
      requires Valid() && net in nets && net in termsOf && net in pinsOf && j < |pinsOf[net]| && p in pinObjs
      ensures Reached(p, net, |termsOf[net]|, j + 1) <==> Reached(p, net, |termsOf[net]|, j) || p == pinsOf[net][j]
      ensures p == pinsOf[net][j] ==> !Reached(p, net, |termsOf[net]|, j)
    {
      assert NetOk(net) && PinOk(p);
      assert pinsOf[net][..j + 1] == pinsOf[net][..j] + [pinsOf[net][j]];
    }

    lemma ReachedAll(net: Net, p: Pin)
      requires Valid() && net in nets && net in termsOf && net in pinsOf && p in pinObjs
      ensures Reached(p, net, |termsOf[net]|, |pinsOf[net]|) <==> Owner(p) == net
    {
      assert NetOk(net) && PinOk(p);
      assert pinsOf[net][..|pinsOf[net]|] == pinsOf[net] && termsOf[net][..|termsOf[net]|] == termsOf[net];
      if p.net == null && p.term != null { assert TermOk(p.term); }
    }

    // ---- One step of the visit

    lemma UpVisited(net: Net, v0: set<Net>, v1: set<Net>, v2: set<Net>, c0: seq<Pin>, c1: seq<Pin>, c2: seq<Pin>,
                    i: nat)
      requires Valid() && net in nets && net in termsOf && i < |termsOf[net]| && Visiting(net, v0, v1, c0, c1, i, 0)
      requires termsOf[net][i].pin.net != null && termsOf[net][i].pin.net in v2
      requires v1 <= v2 <= nets && ClosedBut(v2, v1) && Called(c2, c1, v2 - v1)
      ensures Visiting(net, v0, v2, c0, c2, i + 1, 0)
    {
      hide Valid, Reached, Called, CalledSo, ClosedBut;
      ClosedOn(net, v0, v1, v2);
      CountVisit(net, v0, v1, v2, c0, c1, c2, i, 0);
      InBounds(net, v2 - v0 - {net}, c0, c2, i, 0);
      forall p | p in pinObjs ensures Reached(p, net, i + 1, 0) <==> Reached(p, net, i, 0) { ReachedTerm(net, i, p); }
      CountSame(net, v2 - v0 - {net}, c0, c2, i, 0, i + 1, 0);
    }

    lemma InBounds(net: Net, done: set<Net>, c0: seq<Pin>, c: seq<Pin>, i: nat, j: nat)
      requires Valid() && net in nets && CalledSo(c, c0, done, net, i, j)
      ensures net in pinsOf && net in termsOf && i <= |termsOf[net]| && j <= |pinsOf[net]|
    {}

    lemma UpCalled(net: Net, v0: set<Net>, v: set<Net>, c0: seq<Pin>, c: seq<Pin>, i: nat)
      requires Valid() && net in nets && net in termsOf && i < |termsOf[net]| && Visiting(net, v0, v, c0, c, i, 0)
      requires termsOf[net][i].pin.net == null && termsOf[net][i].pin in pinObjs
      ensures Visiting(net, v0, v, c0, c + [termsOf[net][i].pin], i + 1, 0)
    {
      hide Valid, Reached, Called, CalledSo, ClosedBut;
      InBounds(net, v - v0 - {net}, c0, c, i, 0);
      var pin := termsOf[net][i].pin;
      forall p | p in pinObjs
        ensures Reached(p, net, i + 1, 0) <==> Reached(p, net, i, 0) || p == pin
      {
        ReachedTerm(net, i, p);
      }
      ReachedTerm(net, i, pin);
      CountPin(net, v - v0 - {net}, c0, c, i, 0, i + 1, 0, pin);
    }

    lemma DownCalled(net: Net, v0: set<Net>, v: set<Net>, c0: seq<Pin>, c: seq<Pin>, i: nat, j: nat)
      requires Valid() && net in nets && net in pinsOf && j < |pinsOf[net]| && Visiting(net, v0, v, c0, c, i, j)
      requires net in termsOf && i == |termsOf[net]| && pinsOf[net][j] in pinObjs
      requires pinsOf[net][j].term == null || pinsOf[net][j].term.net == null
      ensures Visiting(net, v0, v, c0, c + [pinsOf[net][j]], i, j + 1)
    {
      hide Valid, Reached, Called, CalledSo, ClosedBut;
      DownCounted(net, v0, v, c0, c, i, j);
    }

    lemma DownCounted(net: Net, v0: set<Net>, v: set<Net>, c0: seq<Pin>, c: seq<Pin>, i: nat, j: nat)
      requires Valid() && net in nets && net in pinsOf && j < |pinsOf[net]|
      requires CalledSo(c, c0, v - v0 - {net}, net, i, j)
      requires net in termsOf && i == |termsOf[net]| && pinsOf[net][j] in pinObjs
      ensures CalledSo(c + [pinsOf[net][j]], c0, v - v0 - {net}, net, i, j + 1)
    {
      hide Valid, Reached, Called, CalledSo;
      var pin := pinsOf[net][j];
      forall p | p in pinObjs
        ensures Reached(p, net, i, j + 1) <==> Reached(p, net, i, j) || p == pin
      {
        ReachedPin(net, j, p);
      }
      ReachedPin(net, j, pin);
      CountPin(net, v - v0 - {net}, c0, c, i, j, i, j + 1, pin);
    }

    lemma DownVisited(net: Net, v0: set<Net>, v1: set<Net>, v2: set<Net>, c0: seq<Pin>, c1: seq<Pin>, c2: seq<Pin>,
                      i: nat, j: nat)
      requires Valid() && net in nets && net in pinsOf && j < |pinsOf[net]| && Visiting(net, v0, v1, c0, c1, i, j)
      requires net in termsOf && i == |termsOf[net]| && pinsOf[net][j] in pinObjs
      requires pinsOf[net][j].term != null && pinsOf[net][j].term.net != null && pinsOf[net][j].term.net in v2
      requires v1 <= v2 <= nets && ClosedBut(v2, v1) && Called(c2, c1 + [pinsOf[net][j]], v2 - v1)
      ensures Visiting(net, v0, v2, c0, c2, i, j + 1)
    {
      hide Valid, Reached, Called, CalledSo, ClosedBut;
      ClosedOn(net, v0, v1, v2);
      DownCounted(net, v0, v1, c0, c1, i, j);
      CountVisit(net, v0, v1, v2, c0, c1 + [pinsOf[net][j]], c2, i, j + 1);
    }

    lemma VisitEnds(net: Net, v0: set<Net>, v: set<Net>, c0: seq<Pin>, c: seq<Pin>)
      requires Valid() && net in nets && net in termsOf && net in pinsOf
      requires Visiting(net, v0, v, c0, c, |termsOf[net]|, |pinsOf[net]|)
      ensures ClosedBut(v, v0) && Called(c, c0, v - v0)
    {
      VisitCounted(net, v0, v, c0, c);
      forall n, m | n in v && n in nets && n !in v0 && m in nets && Adjacent(n, m) ensures m in v {
        if n == net { AllFollowed(net, v0, v, c0, c, m); }
      }
    }

    lemma AllFollowed(net: Net, v0: set<Net>, v: set<Net>, c0: seq<Pin>, c: seq<Pin>, m: Net)
      requires Valid() && net in nets && net in termsOf && net in pinsOf
      requires Visiting(net, v0, v, c0, c, |termsOf[net]|, |pinsOf[net]|)
      requires m in nets && Adjacent(net, m)
      ensures m in v
    {
      hide CalledSo, ClosedBut;
      assert NetOk(net);
      if t :| t in termsOf[net] && UpTo(t, m) {
        var k :| 0 <= k < |termsOf[net]| && termsOf[net][k] == t;
        assert Followed(Above(termsOf[net][k]), v);
      } else {
        var p :| p in pinsOf[net] && DownTo(p, m);
        var k :| 0 <= k < |pinsOf[net]| && pinsOf[net][k] == p;
        assert pinsOf[net][k].term != null ==> Followed(pinsOf[net][k].term.net, v);
      }
    }

    lemma VisitCounted(net: Net, v0: set<Net>, v: set<Net>, c0: seq<Pin>, c: seq<Pin>)
      requires Valid() && net in nets && net in termsOf && net in pinsOf
      requires Visiting(net, v0, v, c0, c, |termsOf[net]|, |pinsOf[net]|)
      ensures Called(c, c0, v - v0)
    {
      hide Valid, Reached, Owner, ClosedBut;
      forall p | p in pinObjs ensures multiset(c)[p] == multiset(c0)[p] + if Owner(p) in v - v0 then 1 else 0 {
        ReachedAll(net, p);
      }
    }
  }

  lemma ReversedMembers<T>(s: seq<T>)
    ensures forall x :: x in Reversed(s) <==> x in s
  {
    forall x | x in s ensures x in Reversed(s) {
      var i :| 0 <= i < |s| && s[i] == x;
      assert Reversed(s)[|s| - 1 - i] == x;
    }
  }
}
