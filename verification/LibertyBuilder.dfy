// The timing arcs of a combinational path, made from the sense of the function.
module LibertyBuilder {
  import opened Options
  import opened FuncExpr

  datatype RiseFall = Rise | Fall

  type Model = int

  datatype Arc = Arc(from: RiseFall, to: RiseFall, model: Model)

  // The sense the library gives, and the model for every output edge that has one.
  datatype Attrs = Attrs(sense: Sense, rise: Option<Model>, fall: Option<Model>) {
    function ModelFor(rf: RiseFall): Option<Model> {
      if rf.Rise? then rise else fall
    }
  }

  // The output port: its function and tristate enable, Null if it has none.
  datatype Output = Output(function_: Func, tristateEnable: Func, direction: Direction)

  // A sense that is not specified is found from the function.
  function EffectiveSense(attrs: Attrs, to: Output, from: Port): Sense {
    if attrs.sense.UnknownSense? && !to.function_.Null? then
      var sense := PortTimingSense(to.function_, from);
      if sense.NoSense? && to.direction.IsAnyTristate() && !to.tristateEnable.Null? && HasPort(to.tristateEnable, from)
      then NonUnate
      else sense
    else attrs.sense
  }

  // The pairs of edges that a sense allows.
  predicate Allows(sense: Sense, from: RiseFall, to: RiseFall) {
    match sense
    case PositiveUnate => from == to
    case NegativeUnate => from != to
    case NonUnate => true
    case UnknownSense => true
    case NoSense => true
  }

  // There is one arc for every allowed pair of edges whose output edge is wanted
  // and has a model, with that model, and no other arc.
  ghost predicate ArcsFor(sense: Sense, attrs: Attrs, toRise: bool, toFall: bool, arcs: seq<Arc>) {
    && (forall from :: HasArc(arcs, from, Rise) <==> Allows(sense, from, Rise) && toRise && attrs.rise.Some?)
    && (forall from :: HasArc(arcs, from, Fall) <==> Allows(sense, from, Fall) && toFall && attrs.fall.Some?)
    && (forall a :: a in arcs ==> Some(a.model) == if a.to == Rise then attrs.rise else attrs.fall)
    && forall i, j :: 0 <= i < j < |arcs| ==> arcs[i] != arcs[j]
  }

  ghost predicate HasArc(arcs: seq<Arc>, from: RiseFall, to: RiseFall) {
    exists a :: a in arcs && a.from == from && a.to == to
  }

  predicate Wanted(toRise: bool, toFall: bool, rf: RiseFall) {
    if rf.Rise? then toRise else toFall
  }

  method MakeCombinationalArcs(from: Port, to: Output, toRise: bool, toFall: bool, attrs: Attrs)
    returns (arcs: seq<Arc>)
    ensures ArcsFor(EffectiveSense(attrs, to, from), attrs, toRise, toFall, arcs)
  {
    arcs := [];
    var sense := attrs.sense;
    if sense.UnknownSense? && !to.function_.Null? {
      sense := PortTimingSense(to.function_, from);
      if sense.NoSense? && to.direction.IsAnyTristate() {
        // The enable of a tristate output may still mention the port.
        if !to.tristateEnable.Null? && HasPort(to.tristateEnable, from) {
          sense := NonUnate;
        }
      }
    }
    if sense.PositiveUnate? {
      if toRise {
        arcs := AddArc(arcs, Rise, Rise, attrs);
      }
      if toFall {
        arcs := AddArc(arcs, Fall, Fall, attrs);
      }
    } else if sense.NegativeUnate? {
      if toFall {
        arcs := AddArc(arcs, Rise, Fall, attrs);
      }
      if toRise {
        arcs := AddArc(arcs, Fall, Rise, attrs);
      }
    } else {
      if toFall {
        arcs := AddArc(arcs, Fall, Fall, attrs);
        arcs := AddArc(arcs, Rise, Fall, attrs);
      }
      if toRise {
        arcs := AddArc(arcs, Rise, Rise, attrs);
        arcs := AddArc(arcs, Fall, Rise, attrs);
      }
    }
  }

  // An arc, if its output edge has a model.
  method AddArc(arcs: seq<Arc>, from: RiseFall, to: RiseFall, attrs: Attrs) returns (arcs': seq<Arc>)
    requires !HasArc(arcs, from, to)
    requires forall a :: a in arcs ==> attrs.ModelFor(a.to) == Some(a.model)
    requires forall i, j :: 0 <= i < j < |arcs| ==> arcs[i] != arcs[j]
    ensures forall f, t ::
              HasArc(arcs', f, t) <==> HasArc(arcs, f, t) || (f == from && t == to && attrs.ModelFor(to).Some?)
    ensures forall a :: a in arcs' ==> attrs.ModelFor(a.to) == Some(a.model)
    ensures forall i, j :: 0 <= i < j < |arcs'| ==> arcs'[i] != arcs'[j]
  {
    var model := attrs.ModelFor(to);
    if model.Some? {
      arcs' := arcs + [Arc(from, to, model.value)];
      assert arcs'[|arcs|] == Arc(from, to, model.value);
      forall f, t ensures HasArc(arcs', f, t) <==> HasArc(arcs, f, t) || (f == from && t == to) {
        if HasArc(arcs, f, t) {
          var a :| a in arcs && a.from == f && a.to == t;
          assert a in arcs';
        }
        if f == from && t == to { assert arcs'[|arcs|] in arcs'; }
      }
    } else {
      arcs' := arcs;
    }
  }

  // ---- Every edge a toggle can cause has an arc ----------------------------------------------

  function Edge(before: bool): RiseFall {
    if before then Fall else Rise
  }

  // env and env' differ in this port only.
  ghost predicate Toggles(env: Port -> bool, env': Port -> bool, port: Port) {
    env(port) != env'(port) && forall p :: p != port ==> env(p) == env'(p)
  }

  // If toggling the port changes the output, the sense found from the function
  // allows the edges that go with it.
  lemma ToggleAllowed(f: Func, port: Port, env: Port -> bool, env': Port -> bool)
    requires Whole(f) && Toggles(env, env', port) && Value(f, env) != Value(f, env')
    ensures Unate(PortTimingSense(f, port))
    ensures Allows(PortTimingSense(f, port), Edge(env(port)), Edge(Value(f, env)))
  {
    if env(port) { SenseIsSound(f, port, env', env); } else { SenseIsSound(f, port, env, env'); }
  }

  // ... and so there is an arc for them, if that output edge is wanted and modelled.
  lemma ToggleHasArc(attrs: Attrs, to: Output, from: Port, toRise: bool, toFall: bool, arcs: seq<Arc>,
                     env: Port -> bool, env': Port -> bool)
    requires attrs.sense.UnknownSense? && Whole(to.function_) && Toggles(env, env', from)
    requires Value(to.function_, env) != Value(to.function_, env')
    requires ArcsFor(EffectiveSense(attrs, to, from), attrs, toRise, toFall, arcs)
    ensures var rf := Edge(Value(to.function_, env));
      HasArc(arcs, Edge(env(from)), rf) <==> Wanted(toRise, toFall, rf) && attrs.ModelFor(rf).Some?
  {
    ToggleAllowed(to.function_, from, env, env');
  }

  // A sense that is given decides; without one the function does, and without that all
  // pairs of edges are allowed. The tristate enable never takes an arc away: it only
  // matters where the function does not mention the port, which allows all pairs too.
  lemma ArcsOfSense(attrs: Attrs, to: Output, from: Port, toRise: bool, toFall: bool, arcs: seq<Arc>)
    requires ArcsFor(EffectiveSense(attrs, to, from), attrs, toRise, toFall, arcs)
    ensures !attrs.sense.UnknownSense? ==> ArcsFor(attrs.sense, attrs, toRise, toFall, arcs)
    ensures attrs.sense.UnknownSense? && to.function_.Null? ==> ArcsFor(NonUnate, attrs, toRise, toFall, arcs)
    ensures attrs.sense.UnknownSense? && !to.function_.Null? ==>
      ArcsFor(PortTimingSense(to.function_, from), attrs, toRise, toFall, arcs)
  {
    hide HasArc;
  }

  // A unate function gets no arc for an edge it cannot make.
  lemma NoArcAgainstSense(attrs: Attrs, to: Output, from: Port, toRise: bool, toFall: bool, arcs: seq<Arc>, f: RiseFall,
                          t: RiseFall)
    requires attrs.sense.UnknownSense? && !to.function_.Null? && HasArc(arcs, f, t)
    requires ArcsFor(EffectiveSense(attrs, to, from), attrs, toRise, toFall, arcs)
    ensures PortTimingSense(to.function_, from).PositiveUnate? ==> f == t
    ensures PortTimingSense(to.function_, from).NegativeUnate? ==> f != t
  {}
}
