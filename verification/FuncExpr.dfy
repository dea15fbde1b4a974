// Port functions: what a sense says about a function, and the order by which
// functions are compared.
module FuncExpr {
  import opened Options
  import opened Sequences

  datatype Direction = Input | Output | Tristate | Bidirect | Internal | Ground | Power | UnknownDirection {
    function Index(): nat {
      match this
      case Input => 0
      case Output => 1
      case Tristate => 2
      case Bidirect => 3
      case Internal => 4
      case Ground => 5
      case Power => 6
      case UnknownDirection => 7
    }

    predicate IsAnyTristate() {
      Tristate? || Bidirect?
    }
  }

  // id tells the ports of different cells apart.
  datatype Port = Port(id: int, name: string, direction: Direction)

  // Null is the missing sub-expression of an unknown port.
  datatype Func = Null | PortRef(port: Port) | Not(left: Func)
                | Or(left: Func, right: Func) | And(left: Func, right: Func)
                | Xor(left: Func, right: Func) | One | Zero

  datatype Sense = PositiveUnate | NegativeUnate | NonUnate | NoSense | UnknownSense

  function PortTimingSense(f: Func, port: Port): Sense {
    match f
    case Null => UnknownSense
    case PortRef(p) => if port == p then PositiveUnate else NoSense
    case Not(left) =>
      (match PortTimingSense(left, port)
       case PositiveUnate => NegativeUnate
       case NegativeUnate => PositiveUnate
       case NonUnate => NonUnate
       case NoSense => NoSense
       case UnknownSense => UnknownSense)
    case Or(left, right) => JoinSense(PortTimingSense(left, port), PortTimingSense(right, port))
    case And(left, right) => JoinSense(PortTimingSense(left, port), PortTimingSense(right, port))
    case Xor(left, right) =>
      if Unate(PortTimingSense(left, port)) || Unate(PortTimingSense(right, port)) then NonUnate else UnknownSense
    case One => NoSense
    case Zero => NoSense
  }

  predicate Unate(s: Sense) {
    s.PositiveUnate? || s.NegativeUnate? || s.NonUnate?
  }

  function JoinSense(l: Sense, r: Sense): Sense {
    if l == r then l
    else if l.NonUnate? || r.NonUnate? then NonUnate
    else if (l.PositiveUnate? && r.NegativeUnate?) || (l.NegativeUnate? && r.PositiveUnate?) then NonUnate
    else if l.NoSense? || l.UnknownSense? then r
    else if r.NoSense? || r.UnknownSense? then l
    else UnknownSense
  }

  predicate HasPort(f: Func, port: Port) {
    match f
    case Null => false
    case PortRef(p) => p == port
    case Not(left) => HasPort(left, port)
    case Or(left, right) => HasPort(left, port) || HasPort(right, port)
    case And(left, right) => HasPort(left, port) || HasPort(right, port)
    case Xor(left, right) => HasPort(left, port) || HasPort(right, port)
    case One => false
    case Zero => false
  }

  // ---- What the sense means ----------------------------------------------------------------

  ghost predicate Whole(f: Func) {
    match f
    case Null => false
    case PortRef(_) => true
    case Not(left) => Whole(left)
    case Or(left, right) => Whole(left) && Whole(right)
    case And(left, right) => Whole(left) && Whole(right)
    case Xor(left, right) => Whole(left) && Whole(right)
    case One => true
    case Zero => true
  }

  // The value of a function where ports have the values that env says.
  ghost predicate Value(f: Func, env: Port -> bool)
    requires Whole(f)
  {
    match f
    case PortRef(p) => env(p)
    case Not(left) => !Value(left, env)
    case Or(left, right) => Value(left, env) || Value(right, env)
    case And(left, right) => Value(left, env) && Value(right, env)
    case Xor(left, right) => Value(left, env) != Value(right, env)
    case One => true
    case Zero => false
  }

  // env and env' agree on every port but this one, which is low and then high.
  ghost predicate Rises(env: Port -> bool, env': Port -> bool, port: Port) {
    !env(port) && env'(port) && forall p :: p != port ==> env(p) == env'(p)
  }

  // A positive function never falls as the port rises, a negative one never rises;
  // one without a sense does not change.
  lemma {:induction false} SenseIsSound(f: Func, port: Port, env: Port -> bool, env': Port -> bool)
    requires Whole(f) && Rises(env, env', port)
    ensures PortTimingSense(f, port).PositiveUnate? ==> (Value(f, env) ==> Value(f, env'))
    ensures PortTimingSense(f, port).NegativeUnate? ==> (Value(f, env') ==> Value(f, env))
    ensures !Unate(PortTimingSense(f, port)) ==> Value(f, env) == Value(f, env')
  {
    match f
    case PortRef(p) =>
    case Not(left) => SenseIsSound(left, port, env, env');
    case Or(left, right) =>
      SenseIsSound(left, port, env, env');
      SenseIsSound(right, port, env, env');
    case And(left, right) =>
      SenseIsSound(left, port, env, env');
      SenseIsSound(right, port, env, env');
    case Xor(left, right) =>
      SenseIsSound(left, port, env, env');
      SenseIsSound(right, port, env, env');
    case One =>
    case Zero =>
  }

  // There is no sense, or an unknown one, exactly when the port is not mentioned.
  lemma {:induction false} SenseIffHasPort(f: Func, port: Port)
    requires Whole(f)
    ensures Unate(PortTimingSense(f, port)) <==> HasPort(f, port)
  {
    match f
    case PortRef(p) =>
    case Not(left) => SenseIffHasPort(left, port);
    case Or(left, right) =>
      SenseIffHasPort(left, port);
      SenseIffHasPort(right, port);
    case And(left, right) =>
      SenseIffHasPort(left, port);
      SenseIffHasPort(right, port);
    case Xor(left, right) =>
      SenseIffHasPort(left, port);
      SenseIffHasPort(right, port);
    case One =>
    case Zero =>
  }

  datatype Polarity = Even | Odd

  // How the port occurs in f, which stands below this many inversions: with the number
  // of inversions above it, and both ways below an exclusive or.
  ghost function Polarities(f: Func, port: Port, nots: nat, underXor: bool): set<Polarity> {
    match f
    case Null => {}
    case PortRef(p) =>
      if p != port then {} else if underXor then {Even, Odd} else if nots % 2 == 0 then {Even} else {Odd}
    case Not(left) => Polarities(left, port, nots + 1, underXor)
    case Or(left, right) => Polarities(left, port, nots, underXor) + Polarities(right, port, nots, underXor)
    case And(left, right) => Polarities(left, port, nots, underXor) + Polarities(right, port, nots, underXor)
    case Xor(left, right) => Polarities(left, port, nots, true) + Polarities(right, port, nots, true)
    case One => {}
    case Zero => {}
  }

  // Where the right operands lead.
  ghost function RightEnd(f: Func): Func {
    match f
    case Not(left) => RightEnd(left)
    case Or(left, right) => RightEnd(right)
    case And(left, right) => RightEnd(right)
    case _ => f
  }

  // The sense is that of the occurrences: positive if every one is below an even number
  // of inversions, negative if every one is below an odd number, and not unate if there
  // are both. Without any it is unknown if the function ends in an exclusive or, or is
  // missing there.
  lemma SenseIsPolarity(f: Func, port: Port)
    ensures PortTimingSense(f, port).PositiveUnate? <==> Polarities(f, port, 0, false) == {Even}
    ensures PortTimingSense(f, port).NegativeUnate? <==> Polarities(f, port, 0, false) == {Odd}
    ensures PortTimingSense(f, port).NonUnate? <==> Polarities(f, port, 0, false) == {Even, Odd}
    ensures PortTimingSense(f, port).UnknownSense?
            <==> Polarities(f, port, 0, false) == {} && (RightEnd(f).Xor? || RightEnd(f).Null?)
  {
    PolaritiesBelow(f, port, 0, false);
    assert Even in {Even} && Odd !in {Even} && Even !in {Odd} && Odd in {Odd};
    assert Even in {Even, Odd} && Odd in {Even, Odd};
  }

  // The polarities that a sense stands for, below a number of inversions.
  ghost function PolaritiesOf(s: Sense, nots: nat, underXor: bool): set<Polarity> {
    if !Unate(s) then {}
    else if underXor || s.NonUnate? then {Even, Odd}
    else if s.PositiveUnate? == (nots % 2 == 0) then {Even}
    else {Odd}
  }

  lemma {:induction false} PolaritiesBelow(f: Func, port: Port, nots: nat, underXor: bool)
    ensures Polarities(f, port, nots, underXor) == PolaritiesOf(PortTimingSense(f, port), nots, underXor)
    ensures PortTimingSense(f, port).UnknownSense?
            <==> Polarities(f, port, nots, underXor) == {} && (RightEnd(f).Xor? || RightEnd(f).Null?)
  {
    match f
    case Null =>
    case PortRef(p) =>
    case Not(left) =>
      PolaritiesBelow(left, port, nots + 1, underXor);
    case Or(left, right) =>
      PolaritiesBelow(left, port, nots, underXor);
      PolaritiesBelow(right, port, nots, underXor);
    case And(left, right) =>
      PolaritiesBelow(left, port, nots, underXor);
      PolaritiesBelow(right, port, nots, underXor);
    case Xor(left, right) =>
      PolaritiesBelow(left, port, nots, true);
      PolaritiesBelow(right, port, nots, true);
    case One =>
    case Zero =>
  }

  // ---- Comparing functions -------------------------------------------------------------------

  // strcmp(a, b) < 0
  predicate StringLess(a: string, b: string) {
    if b == [] then false
    else if a == [] then true
    else if a[0] != b[0] then a[0] < b[0]
    else StringLess(a[1..], b[1..])
  }

  // What LibertyPort::equiv looks at.
  predicate PortEquiv(p: Port, q: Port) {
    p.name == q.name && p.direction == q.direction
  }

  predicate PortLess(p: Port, q: Port) {
    if p.name == q.name && p.direction != q.direction then p.direction.Index() < q.direction.Index()
    else StringLess(p.name, q.name)
  }

  function Op(f: Func): nat
    requires !f.Null?
  {
    match f
    case PortRef(_) => 0
    case Not(_) => 1
    case Or(_, _) => 2
    case And(_, _) => 3
    case Xor(_, _) => 4
    case One => 5
    case Zero => 6
  }

  predicate Binary(f: Func) {
    f.Or? || f.And? || f.Xor?
  }

  predicate FuncEquiv(f: Func, g: Func) {
    if f.Null? || g.Null? then f.Null? && g.Null?
    else if Op(f) != Op(g) then false
    else if f.PortRef? then PortEquiv(f.port, g.port)
    else if f.Not? then FuncEquiv(f.left, g.left)
    else if Binary(f) then FuncEquiv(f.left, g.left) && FuncEquiv(f.right, g.right)
    else true
  }

  predicate FuncLess(f: Func, g: Func) {
    if !f.Null? && !g.Null? then
      if Op(f) != Op(g) then Op(f) < Op(g)
      else if f.PortRef? then PortLess(f.port, g.port)
      else if f.Not? then FuncLess(f.left, g.left)
      else if Binary(f) then if FuncEquiv(f.left, g.left) then FuncLess(f.right, g.right) else FuncLess(f.left, g.left)
      else false
    else f.Null? && !g.Null?
  }

  lemma {:induction false} StringOrder(a: string, b: string, c: string)
    ensures a == b ==> !StringLess(a, b)
    ensures a != b ==> StringLess(a, b) != StringLess(b, a)
    ensures StringLess(a, b) && StringLess(b, c) ==> StringLess(a, c)
  {
    if a != [] && b != [] && c != [] {
      StringOrder(a[1..], b[1..], c[1..]);
      StringsDiffer(a, b);
    } else if a != [] && b != [] {
      StringOrder(a[1..], b[1..], []);
      StringsDiffer(a, b);
    }
  }

  lemma StringsDiffer(a: string, b: string)
    requires a != [] && b != []
    ensures a == b <==> a[0] == b[0] && a[1..] == b[1..]
  {
    if a[0] == b[0] && a[1..] == b[1..] {
      assert a == [a[0]] + a[1..] && b == [b[0]] + b[1..];
    }
  }

  lemma PortOrder(p: Port, q: Port, r: Port)
    ensures PortEquiv(p, q) ==> !PortLess(p, q)
    ensures !PortEquiv(p, q) ==> PortLess(p, q) != PortLess(q, p)
    ensures PortLess(p, q) && PortLess(q, r) ==> PortLess(p, r)
    ensures PortEquiv(p, q) ==> PortLess(p, r) == PortLess(q, r) && PortLess(r, p) == PortLess(r, q)
  {
    StringOrder(p.name, q.name, r.name);
    StringOrder(q.name, r.name, p.name);
  }

  // A function with the identities of its ports forgotten.
  function Shape(f: Func): Func {
    match f
    case Null => Null
    case PortRef(p) => PortRef(PortKey(p))
    case Not(left) => Not(Shape(left))
    case Or(left, right) => Or(Shape(left), Shape(right))
    case And(left, right) => And(Shape(left), Shape(right))
    case Xor(left, right) => Xor(Shape(left), Shape(right))
    case One => One
    case Zero => Zero
  }

  function PortKey(p: Port): Port {
    Port(0, p.name, p.direction)
  }

  // Equivalent functions are those of the same shape.
  lemma {:induction false} EquivIsSameShape(f: Func, g: Func)
    ensures FuncEquiv(f, g) <==> Shape(f) == Shape(g)
  {
    if !f.Null? && !g.Null? && Op(f) == Op(g) {
      if f.Not? {
        EquivIsSameShape(f.left, g.left);
      } else if Binary(f) {
        EquivIsSameShape(f.left, g.left);
        EquivIsSameShape(f.right, g.right);
      }
    }
  }

  // Functions are in exactly one of three relations.
  lemma {:induction false} FuncTrichotomy(f: Func, g: Func)
    ensures FuncEquiv(f, g) ==> !FuncLess(f, g) && !FuncLess(g, f)
    ensures !FuncEquiv(f, g) ==> FuncLess(f, g) != FuncLess(g, f)
    ensures FuncEquiv(f, g) == FuncEquiv(g, f)
  {
    EquivIsSameShape(f, g);
    EquivIsSameShape(g, f);
    if !f.Null? && !g.Null? && Op(f) == Op(g) {
      if f.PortRef? {
        PortOrder(f.port, g.port, f.port);
        PortOrder(g.port, f.port, g.port);
      } else if f.Not? {
        FuncTrichotomy(f.left, g.left);
      } else if Binary(f) {
        FuncTrichotomy(f.left, g.left);
        FuncTrichotomy(f.right, g.right);
      }
    }
  }

  lemma {:induction false} FuncLessShape(f: Func, g: Func)
    ensures FuncLess(f, g) == FuncLess(Shape(f), Shape(g))
  {
    if !f.Null? && !g.Null? && Op(f) == Op(g) {
      if f.Not? {
        FuncLessShape(f.left, g.left);
      } else if Binary(f) {
        EquivIsSameShape(f.left, g.left);
        ShapeIdempotent(f.left);
        ShapeIdempotent(g.left);
        EquivIsSameShape(Shape(f.left), Shape(g.left));
        FuncLessShape(f.left, g.left);
        FuncLessShape(f.right, g.right);
      }
    }
  }

  lemma {:induction false} ShapeIdempotent(f: Func)
    ensures Shape(Shape(f)) == Shape(f)
  {
    match f
    case Not(left) => ShapeIdempotent(left);
    case Or(left, right) => ShapeIdempotent(left); ShapeIdempotent(right);
    case And(left, right) => ShapeIdempotent(left); ShapeIdempotent(right);
    case Xor(left, right) => ShapeIdempotent(left); ShapeIdempotent(right);
    case _ =>
  }

  // The order is transitive, and does not tell equivalent functions apart.
  lemma {:induction false} FuncTransitive(f: Func, g: Func, h: Func)
    ensures FuncLess(f, g) && FuncLess(g, h) ==> FuncLess(f, h)
  {
    if !f.Null? && !g.Null? && !h.Null? && Op(f) == Op(g) == Op(h) {
      if f.PortRef? {
        PortOrder(f.port, g.port, h.port);
      } else if f.Not? {
        FuncTransitive(f.left, g.left, h.left);
      } else if Binary(f) {
        FuncTransitive(f.left, g.left, h.left);
        FuncTransitive(f.right, g.right, h.right);
        LeftParts(f.left, g.left, h.left);
      }
    }
  }

  // How the first parts of a lexicographic comparison combine.
  lemma LeftParts(f: Func, g: Func, h: Func)
    ensures FuncEquiv(f, g) && FuncEquiv(g, h) ==> FuncEquiv(f, h)
    ensures FuncEquiv(f, g) ==> FuncLess(f, h) == FuncLess(g, h) && FuncEquiv(f, h) == FuncEquiv(g, h)
    ensures FuncEquiv(g, h) ==> FuncLess(f, g) == FuncLess(f, h) && FuncEquiv(f, g) == FuncEquiv(f, h)
    ensures FuncLess(f, g) && FuncLess(g, h) ==> !FuncEquiv(f, h)
  {
    EquivIsSameShape(f, g);
    EquivIsSameShape(g, h);
    EquivIsSameShape(f, h);
    FuncLessShape(f, h);
    FuncLessShape(g, h);
    FuncLessShape(f, g);
    FuncTrichotomy(f, g);
    FuncTrichotomy(g, h);
    FuncLessShape(h, g);
    FuncLessShape(g, f);
  }

  // ---- Which way the orders go --------------------------------------------------------------

  // The first character that differs decides; a string comes after those it extends.
  ghost predicate FirstCharLess(a: string, b: string, k: nat) {
    k <= |a| && k < |b| && a[..k] == b[..k] && (k == |a| || a[k] < b[k])
  }

  lemma {:induction false} StringLessIff(a: string, b: string)
    ensures StringLess(a, b) <==> exists k: nat :: FirstCharLess(a, b, k)
  {
    if a != [] && b != [] && a[0] == b[0] {
      StringLessIff(a[1..], b[1..]);
      forall k: nat ensures FirstCharLess(a, b, k + 1) <==> FirstCharLess(a[1..], b[1..], k) {
        FirstCharShifted(a, b, k);
      }
      forall k: nat | FirstCharLess(a, b, k) ensures k > 0 && FirstCharLess(a[1..], b[1..], k - 1) {
        assert FirstCharLess(a, b, k - 1 + 1);
      }
      forall k: nat | FirstCharLess(a[1..], b[1..], k) ensures FirstCharLess(a, b, k + 1) {}
    } else if b != [] {
      assert FirstCharLess(a, b, 0) <==> StringLess(a, b);
      forall k: nat | FirstCharLess(a, b, k) ensures k == 0 {
        PrefixHead(a, b, k);
      }
    }
  }

  lemma FirstCharShifted(a: string, b: string, k: nat)
    requires a != [] && b != [] && a[0] == b[0]
    ensures FirstCharLess(a, b, k + 1) <==> FirstCharLess(a[1..], b[1..], k)
  {
    if k + 1 <= |a| && k + 1 <= |b| {
      assert a[..k + 1] == [a[0]] + a[1..][..k] && b[..k + 1] == [b[0]] + b[1..][..k];
    }
  }

  // A function in Polish notation; a missing one has an operator before all others.
  datatype Token = Token(op: int, port: Option<Port>)

  ghost function Tokens(f: Func): seq<Token> {
    match f
    case Null => [Token(-1, None)]
    case PortRef(p) => [Token(Op(f), Some(p))]
    case Not(left) => [Token(Op(f), None)] + Tokens(left)
    case Or(left, right) => [Token(Op(f), None)] + Tokens(left) + Tokens(right)
    case And(left, right) => [Token(Op(f), None)] + Tokens(left) + Tokens(right)
    case Xor(left, right) => [Token(Op(f), None)] + Tokens(left) + Tokens(right)
    case One => [Token(Op(f), None)]
    case Zero => [Token(Op(f), None)]
  }

  ghost predicate TokenEquiv(t: Token, u: Token) {
    t.op == u.op && (t.port.Some? && u.port.Some? ==> PortEquiv(t.port.value, u.port.value))
  }

  ghost predicate TokenLess(t: Token, u: Token) {
    t.op < u.op || (t.op == u.op && t.port.Some? && u.port.Some? && PortLess(t.port.value, u.port.value))
  }

  ghost predicate TokensLess(s: seq<Token>, t: seq<Token>) {
    if s == [] || t == [] then s == [] && t != []
    else if TokenEquiv(s[0], t[0]) then TokensLess(s[1..], t[1..])
    else TokenLess(s[0], t[0])
  }

  // Functions are ordered like their notations, token by token.
  lemma FuncLessIsTokensLess(f: Func, g: Func)
    ensures FuncLess(f, g) <==> TokensLess(Tokens(f), Tokens(g))
  {
    TokensDecide(f, g, [], []);
    assert Tokens(f) + [] == Tokens(f) && Tokens(g) + [] == Tokens(g);
    FuncTrichotomy(f, g);
  }

  // The operator of f, and what follows it.
  ghost function Head(f: Func): Token {
    Token(if f.Null? then -1 else Op(f), if f.PortRef? then Some(f.port) else None)
  }

  lemma TokensOf(f: Func, x: seq<Token>)
    ensures !f.Not? && !Binary(f) ==> Tokens(f) + x == [Head(f)] + x
    ensures f.Not? ==> Tokens(f) + x == [Head(f)] + (Tokens(f.left) + x)
    ensures Binary(f) ==> Tokens(f) + x == [Head(f)] + (Tokens(f.left) + (Tokens(f.right) + x))
  {}

  lemma TokensStep(t: Token, x: seq<Token>, u: Token, y: seq<Token>)
    ensures TokensLess([t] + x, [u] + y) <==> if TokenEquiv(t, u) then TokensLess(x, y) else TokenLess(t, u)
  {
    assert ([t] + x)[1..] == x && ([u] + y)[1..] == y;
  }

  lemma {:induction false} TokensDecide(f: Func, g: Func, x: seq<Token>, y: seq<Token>)
    ensures TokensLess(Tokens(f) + x, Tokens(g) + y)
            <==> if FuncEquiv(f, g) then TokensLess(x, y) else FuncLess(f, g)
    decreases f
  {
    hide TokensLess, Tokens, PortEquiv, PortLess;
    TokensOf(f, x);
    TokensOf(g, y);
    if !f.Null? && !g.Null? && Op(f) == Op(g) && f.Not? {
      TokensStep(Head(f), Tokens(f.left) + x, Head(g), Tokens(g.left) + y);
      TokensDecide(f.left, g.left, x, y);
    } else if !f.Null? && !g.Null? && Op(f) == Op(g) && Binary(f) {
      TokensStep(Head(f), Tokens(f.left) + (Tokens(f.right) + x), Head(g), Tokens(g.left) + (Tokens(g.right) + y));
      TokensDecide(f.left, g.left, Tokens(f.right) + x, Tokens(g.right) + y);
      TokensDecide(f.right, g.right, x, y);
    } else {
      DifferentHeads(f, g, x, y);
    }
  }

  lemma DifferentHeads(f: Func, g: Func, x: seq<Token>, y: seq<Token>)
    requires f.Null? || g.Null? || Op(f) != Op(g) || (!f.Not? && !Binary(f))
    ensures TokensLess(Tokens(f) + x, Tokens(g) + y)
            <==> if FuncEquiv(f, g) then TokensLess(x, y) else FuncLess(f, g)
  {
    hide TokensLess, Tokens, PortEquiv, PortLess;
    var r := if f.Not? then Tokens(f.left) + x else if Binary(f) then Tokens(f.left) + (Tokens(f.right) + x) else x;
    var s := if g.Not? then Tokens(g.left) + y else if Binary(g) then Tokens(g.left) + (Tokens(g.right) + y) else y;
    TokensOf(f, x);
    TokensOf(g, y);
    TokensStep(Head(f), r, Head(g), s);
  }
}
