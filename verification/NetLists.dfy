// Pins, terms and nets: the lists of a net are threaded through its pins (both
// ways) and its terms (one way).
module NetLists {
  import opened Sequences

  class Pin {
    const inTop: bool      // of the top instance
    var net: Net?
    var term: Term?
    var netNext: Pin?
    var netPrev: Pin?

    constructor (inTop: bool, net: Net?)
      ensures this.inTop == inTop && this.net == net && term == null && netNext == null && netPrev == null
    {
      this.inTop, this.net, term, netNext, netPrev := inTop, net, null, null, null;
    }
  }

  class Term {
    const pin: Pin
    var net: Net?
    var netNext: Term?

    constructor (pin: Pin, net: Net?)
      ensures this.pin == pin && this.net == net && netNext == null
    {
      this.pin, this.net, netNext := pin, net, null;
    }
  }

  ghost function NthPin(s: seq<Pin>, k: int): Pin? {
    if 0 <= k < |s| then s[k] else null
  }

  ghost function NthTerm(s: seq<Term>, k: int): Term? {
    if 0 <= k < |s| then s[k] else null
  }

  ghost function Reversed<T>(s: seq<T>): (r: seq<T>)
    ensures |r| == |s| && forall i :: 0 <= i < |s| ==> r[i] == s[|s| - 1 - i]
  {
    if s == [] then [] else Reversed(s[1..]) + [s[0]]
  }

  ghost predicate PinAt(s: seq<Pin>, k: nat)
    requires k < |s|
    reads s`netNext, s`netPrev
  {
    s[k].netNext == NthPin(s, k + 1) && s[k].netPrev == NthPin(s, k - 1)
  }

  ghost predicate TermAt(s: seq<Term>, k: nat)
    requires k < |s|
    reads s`netNext
  {
    s[k].netNext == NthTerm(s, k + 1)
  }

  class Net {
    var pins: Pin?
    var terms: Term?
    var mergedInto: Net?

    constructor ()
      ensures pins == null && terms == null && mergedInto == null
    {
      pins, terms, mergedInto := null, null, null;
    }

    // s is the list of the net's pins.
    ghost predicate PinList(s: seq<Pin>)
      reads this`pins, s`netNext, s`netPrev
    {
      pins == NthPin(s, 0) && Distinct(s) && forall k :: 0 <= k < |s| ==> PinAt(s, k)
    }

    ghost predicate TermList(s: seq<Term>)
      reads this`terms, s`netNext
    {
      terms == NthTerm(s, 0) && Distinct(s) && forall k :: 0 <= k < |s| ==> TermAt(s, k)
    }

    // Where the links of the list lead.
    lemma PinLinks(s: seq<Pin>)
      requires PinList(s)
      ensures pins == NthPin(s, 0) && forall k :: 0 <= k < |s| ==> s[k].netNext == NthPin(s, k + 1)
    {
      forall k | 0 <= k < |s| ensures s[k].netNext == NthPin(s, k + 1) { assert PinAt(s, k); }
    }

    method AddPin(pin: Pin, ghost s: seq<Pin>)
      requires PinList(s) && pin !in s
      modifies this`pins, pin`netNext, pin`netPrev, s`netPrev
      ensures PinList([pin] + s)
    {
      if pins != null {
        pins.netPrev := pin;
      }
      pin.netNext := pins;
      pin.netPrev := null;
      pins := pin;
      ghost var t := [pin] + s;
      forall k | 0 <= k < |t| ensures PinAt(t, k) {
        if k > 0 { assert t[k] == s[k - 1] && old(PinAt(s, k - 1)); }
      }
    }

    method DeletePin(pin: Pin, ghost s: seq<Pin>, ghost k: nat)
      requires PinList(s) && k < |s| && s[k] == pin
      modifies this`pins, s`netNext, s`netPrev
      ensures PinList(Without(s, k))
    {
      assert PinAt(s, k);
      var prev, next := pin.netPrev, pin.netNext;
      if prev != null {
        prev.netNext := next;
      }
      if next != null {
        next.netPrev := prev;
      }
      if pins == pin {
        pins := next;
      }
      ghost var t := Without(s, k);
      forall i | 0 <= i < |t| ensures PinAt(t, i) {
        ghost var j := if i < k then i else i + 1;
        assert t[i] == s[j] && old(PinAt(s, j));
        assert NthPin(t, i + 1) == if i + 1 == k then NthPin(s, k + 1) else NthPin(s, j + 1);
        assert NthPin(t, i - 1) == if i == k then NthPin(s, k - 1) else NthPin(s, j - 1);
      }
    }

    method AddTerm(term: Term, ghost s: seq<Term>)
      requires TermList(s) && term !in s
      modifies this`terms, term`netNext
      ensures TermList([term] + s)
    {
      var next := terms;
      terms := term;
      term.netNext := next;
      ghost var t := [term] + s;
      forall k | 0 <= k < |t| ensures TermAt(t, k) {
        if k > 0 { assert t[k] == s[k - 1] && old(TermAt(s, k - 1)); }
      }
    }

    method DeleteTerm(term: Term, ghost s: seq<Term>, ghost k: nat)
      requires TermList(s) && k < |s| && s[k] == term
      modifies this`terms, s`netNext
      ensures TermList(Without(s, k))
    {
      var netPrevTerm: Term? := null;
      var netTerm := terms;
      ghost var j := 0;
      while netTerm != null
        invariant 0 <= j <= k && netTerm == NthTerm(s, j) && netPrevTerm == NthTerm(s, j - 1)
        invariant TermList(s) && forall t :: t in s ==> t.netNext == old(t.netNext)
        invariant terms == old(terms)
        decreases k - j
      {
        assert TermAt(s, j);
        if netTerm == term {
          if netPrevTerm != null {
            netPrevTerm.netNext := term.netNext;
          } else {
            terms := term.netNext;
          }
          break;
        }
        netPrevTerm := netTerm;
        netTerm := netTerm.netNext;
        j := j + 1;
      }
      ghost var t := Without(s, k);
      forall i | 0 <= i < |t| ensures TermAt(t, i) {
        ghost var l := if i < k then i else i + 1;
        assert t[i] == s[l] && old(TermAt(s, l));
        assert NthTerm(t, i + 1) == if i + 1 == k then NthTerm(s, k + 1) else NthTerm(s, l + 1);
      }
    }

    // All pins and terms move to net, which takes them in reverse order.
    method MergeInto(net: Net, ghost ps: seq<Pin>, ghost ts: seq<Term>, ghost nps: seq<Pin>, ghost nts: seq<Term>)
      requires net != this && PinList(ps) && TermList(ts) && net.PinList(nps) && net.TermList(nts)
      requires (forall p :: p in ps ==> p !in nps) && forall t :: t in ts ==> t !in nts
      modifies this`pins, this`terms, this`mergedInto, net`pins, net`terms
      modifies ps`net, ps`netNext, ps`netPrev, nps`netPrev, ts`net, ts`netNext
      ensures pins == null && terms == null && mergedInto == net
      ensures net.PinList(Reversed(ps) + nps) && net.TermList(Reversed(ts) + nts)
      ensures (forall p :: p in ps ==> p.net == net) && forall t :: t in ts ==> t.net == net
    {
      hide Reversed, Distinct, PinAt, TermAt;
      MovePins(net, ps, nps);
      pins := null;
      MoveTerms(net, ts, nts);
      terms := null;
      mergedInto := net;
    }

    method MovePins(net: Net, ghost ps: seq<Pin>, ghost nps: seq<Pin>)
      requires net != this && PinList(ps) && net.PinList(nps) && forall p :: p in ps ==> p !in nps
      modifies net`pins, ps`net, ps`netNext, ps`netPrev, nps`netPrev
      ensures net.PinList(Reversed(ps) + nps) && forall p :: p in ps ==> p.net == net
    {
      var nextPin := pins;
      ghost var k := 0;
      assert ps[..0] == [] && Reversed(ps[..0]) + nps == nps;
      forall j | 0 <= j < |ps| ensures ps[j].netNext == NthPin(ps, j + 1) { assert PinAt(ps, j); }
      while nextPin != null
        invariant 0 <= k <= |ps| && nextPin == NthPin(ps, k)
        invariant net.PinList(Reversed(ps[..k]) + nps)
        invariant forall j :: k <= j < |ps| ==> ps[j].netNext == NthPin(ps, j + 1)
        invariant forall j :: 0 <= j < k ==> ps[j].net == net
        decreases |ps| - k
      {
        var pin := nextPin;
        nextPin := pin.netNext;
        ReversedNext(ps, k, nps);
        net.AddPin(pin, Reversed(ps[..k]) + nps);
        pin.net := net;
        k := k + 1;
      }
      assert ps[..k] == ps;
    }

    method MoveTerms(net: Net, ghost ts: seq<Term>, ghost nts: seq<Term>)
      requires net != this && TermList(ts) && net.TermList(nts) && forall t :: t in ts ==> t !in nts
      modifies net`terms, ts`net, ts`netNext
      ensures net.TermList(Reversed(ts) + nts) && forall t :: t in ts ==> t.net == net
    {
      var nextTerm := terms;
      ghost var k := 0;
      assert ts[..0] == [] && Reversed(ts[..0]) + nts == nts;
      forall j | 0 <= j < |ts| ensures ts[j].netNext == NthTerm(ts, j + 1) { assert TermAt(ts, j); }
      while nextTerm != null
        invariant 0 <= k <= |ts| && nextTerm == NthTerm(ts, k)
        invariant net.TermList(Reversed(ts[..k]) + nts)
        invariant forall j :: k <= j < |ts| ==> ts[j].netNext == NthTerm(ts, j + 1)
        invariant forall j :: 0 <= j < k ==> ts[j].net == net
        decreases |ts| - k
      {
        var term := nextTerm;
        nextTerm := term.netNext;
        ReversedNext(ts, k, nts);
        net.AddTerm(term, Reversed(ts[..k]) + nts);
        term.net := net;
        k := k + 1;
      }
      assert ts[..k] == ts;
    }
  }

  // Element k goes before those that came before it.
  lemma ReversedNext<T>(s: seq<T>, k: nat, t: seq<T>)
    requires k < |s| && Distinct(s) && forall x :: x in s ==> x !in t
    ensures Reversed(s[..k + 1]) + t == [s[k]] + (Reversed(s[..k]) + t)
    ensures s[k] !in Reversed(s[..k]) + t
    ensures forall j :: k < j < |s| ==> s[j] !in Reversed(s[..k]) + t
  {}
}
