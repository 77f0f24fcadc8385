/** The infix part of the XPath parser: integer constants, parentheses, and
    binary operators of five priorities. */
module XPath {
  import opened Wrappers

  datatype Op = Or | And | Equal | NotEqual | Less | Greater | Add | Subtract | Multiply | Divide | Modulo

  function Priority(op: Op): (p: nat)
    ensures 1 <= p <= 5
  {
    match op
    case Or => 1
    case And => 2
    case Equal => 3
    case NotEqual => 3
    case Less => 3
    case Greater => 3
    case Add => 4
    case Subtract => 4
    case Multiply => 5
    case Divide => 5
    case Modulo => 5
  }

  datatype Kind = Int(value: int) | Open | Close | Infix(op: Op) | End

  /** A token, and whether white space stands before it. */
  datatype Token = Token(kind: Kind, blank: bool)

  /** The input always ends in one End. */
  predicate Input(ts: seq<Token>) {
    ts != [] && forall i :: 0 <= i < |ts| ==> (ts[i].kind.End? <==> i == |ts| - 1)
  }

  /** What the parser builds: parentheses leave no trace. */
  datatype Enode = Const(value: int) | Binary(op: Op, left: Enode, right: Enode)

  /** A parse tree, with its parentheses. */
  datatype Tree = Num(value: int) | Paren(inner: Tree) | Bin(op: Op, left: Tree, right: Tree)

  function Strip(t: Tree): Enode {
    match t
    case Num(v) => Const(v)
    case Paren(u) => Strip(u)
    case Bin(op, l, r) => Binary(op, Strip(l), Strip(r))
  }

  function Flatten(t: Tree): seq<Kind> {
    match t
    case Num(v) => [Int(v)]
    case Paren(u) => [Open] + Flatten(u) + [Close]
    case Bin(op, l, r) => Flatten(l) + [Infix(op)] + Flatten(r)
  }

  /** The priority at the root, unless it is parenthesised or a constant. */
  function Root(t: Tree): nat {
    if t.Bin? then Priority(t.op) else 6
  }

  /** Every left operand binds at least as strongly as its operator, every
      right operand more strongly. */
  predicate WellNested(t: Tree) {
    match t
    case Num(_) => true
    case Paren(u) => WellNested(u)
    case Bin(op, l, r) => WellNested(l) && WellNested(r) && Root(l) >= Priority(op) && Root(r) > Priority(op)
  }

  // ----------------------------------------------------------- the parser

  /** The loop of the parser: cur is what it has so far. It stops at its
      terminator, or before an operator that does not bind more strongly than
      limit. The terminator is looked for before white space is skipped. */
  function Build(ts: seq<Token>, cur: Option<Tree>, terminator: Kind, limit: nat): (r: Option<(Option<Tree>, seq<Token>)>)
    ensures r.Some? ==> |r.value.1| <= |ts|
    decreases |ts|, 1
  {
    if ts == [] then None else Step(ts, cur, terminator, limit)
  }

  /** One turn of the loop, and the rest of them. */
  function Step(ts: seq<Token>, cur: Option<Tree>, terminator: Kind, limit: nat): (r: Option<(Option<Tree>, seq<Token>)>)
    requires ts != []
    ensures r.Some? ==> |r.value.1| <= |ts|
    decreases |ts|, 0
  {
    if ts[0].kind == terminator && !ts[0].blank then Some((cur, ts))
    else match ts[0].kind
      case End => None
      case Close => None
      case Int(v) => if cur.Some? then None else Build(ts[1..], Some(Num(v)), terminator, limit)
      case Open =>
        if cur.Some? then None
        else (
          match Build(ts[1..], None, Close, 0)
          case None => None
          case Some(x) =>
            if x.0.None? || x.1 == [] || x.1[0].kind != Close then None
            else Build(x.1[1..], Some(Paren(x.0.value)), terminator, limit))
      case Infix(op) =>
        if cur.None? then None
        else if Priority(op) <= limit then Some((cur, ts))
        else
          match Build(ts[1..], None, terminator, Priority(op))
          case None => None
          case Some(x) =>
            if x.0.None? then None
            else Build(x.1, Some(Bin(op, cur.value, x.0.value)), terminator, limit)
  }

  /** A whole expression. */
  function Parse(ts: seq<Token>): Option<Tree> {
    match Build(ts, None, End, 0)
    case None => None
    case Some(x) => if x.0.Some? && x.1 != [] && x.1[0].kind == End then x.0 else None
  }

  class Parser {
    const tokens: seq<Token>
    var pos: nat

    constructor (tokens: seq<Token>)
      ensures this.tokens == tokens && pos == 0
    {
      this.tokens, pos := tokens, 0;
    }

    predicate Valid()
      reads this
    {
      Input(tokens) && pos < |tokens|
    }

    /** The parser's own loop; each operator and parenthesis makes it call
        itself. */
    method BuildExpr(terminator: Kind, limit: nat) returns (current: Option<Enode>)
      requires Valid()
      modifies this
      ensures pos >= old(pos)
      ensures var b := Build(tokens[old(pos)..], None, terminator, limit);
        match b
        case None => current.None?
        case Some(x) => Valid() && x.1 == tokens[pos..] && current == StripOption(x.0)
      decreases |tokens| - pos, 1
    {
      hide Build;
      ghost var start, tree := pos, None;
      current := None;
      while !(tokens[pos].kind == terminator && !tokens[pos].blank)
        invariant Valid() && pos >= start && current == StripOption(tree)
        invariant Build(tokens[start..], None, terminator, limit) == Build(tokens[pos..], tree, terminator, limit)
        decreases |tokens| - pos
      {
        Next(pos);
        StepIs(tokens[pos..], tree, terminator, limit);
        var kind := tokens[pos].kind;
        if kind == End || kind == Close {
          return None;
        } else if kind.Int? {
          if current.Some? {
            return None;
          }
          pos := pos + 1;
          current, tree := Some(Const(kind.value)), Some(Num(kind.value));
        } else if kind.Open? {
          if current.Some? {
            return None;
          }
          current, tree := BuildParen();
          if current.None? {
            return;
          }
        } else {
          if current.None? {
            return None;
          }
          if Priority(kind.op) <= limit {
            return;
          }
          pos := pos + 1;
          ghost var inner := Build(tokens[pos..], None, terminator, Priority(kind.op));
          var right := BuildExpr(terminator, Priority(kind.op));
          if right.None? {
            return None;
          }
          current := Some(Binary(kind.op, current.value, right.value));
          tree := Some(Bin(kind.op, tree.value, inner.value.0.value));
        }
      }
      Next(pos);
      StepIs(tokens[pos..], tree, terminator, limit);
    }

    /** A parenthesised expression. */
    method BuildParen() returns (current: Option<Enode>, ghost tree: Option<Tree>)
      requires Valid() && tokens[pos].kind.Open?
      modifies this
      ensures pos >= old(pos) && current == StripOption(tree)
      ensures var b := Build(tokens[old(pos)..][1..], None, Close, 0);
        var ok := b.Some? && b.value.0.Some? && b.value.1 != [] && b.value.1[0].kind == Close;
        if current.Some? then ok && Valid() && pos > old(pos) && tree == Some(Paren(b.value.0.value)) && tokens[pos..] == b.value.1[1..]
        else !ok
      decreases |tokens| - pos, 0
    {
      hide Build;
      Next(pos);
      pos := pos + 1;
      ghost var inner := Build(tokens[pos..], None, Close, 0);
      current := BuildExpr(Close, 0);
      tree := None;
      if current.None? || tokens[pos].kind != Close {
        return None, None;
      }
      Next(pos);
      tree := Some(Paren(inner.value.0.value));
      pos := pos + 1;
    }

    lemma StepIs(ts: seq<Token>, cur: Option<Tree>, terminator: Kind, limit: nat)
      requires ts != []
      ensures Build(ts, cur, terminator, limit) == Step(ts, cur, terminator, limit)
    {
    }

    lemma Next(i: nat)
      requires Input(tokens) && i < |tokens|
      ensures tokens[i..] != [] && tokens[i..][0] == tokens[i] && tokens[i..][1..] == tokens[i + 1..]
      ensures !tokens[i].kind.End? ==> i + 1 < |tokens|
    {
    }

    method ParseExpression() returns (tree: Option<Enode>)
      requires Valid() && pos == 0
      modifies this
      ensures tree == StripOption(Parse(tokens))
    {
      assert tokens[0..] == tokens;
      tree := BuildExpr(End, 0);
      if tree.Some? && tokens[pos].kind != End {
        tree := None;
      }
    }
  }

  function StripOption(t: Option<Tree>): Option<Enode> {
    match t
    case None => None
    case Some(u) => Some(Strip(u))
  }

  // ------------------------------------------------- what the parser accepts

  function Kinds(ts: seq<Token>): seq<Kind> {
    seq(|ts|, i requires 0 <= i < |ts| => ts[i].kind)
  }

  /** No white space before a closing parenthesis or at the end. */
  predicate Snug(ts: seq<Token>) {
    forall t <- ts :: t.kind.Close? || t.kind.End? ==> !t.blank
  }

  lemma KindsAppend(a: seq<Token>, b: seq<Token>)
    ensures Kinds(a + b) == Kinds(a) + Kinds(b)
    ensures Snug(a + b) <==> Snug(a) && Snug(b)
  {
    forall t <- a ensures t in a + b {
    }
    forall t <- b ensures t in a + b {
    }
  }

  /** Where the loop may stop. */
  predicate Stops(ts: seq<Token>, terminator: Kind, limit: nat) {
    ts != [] && ((ts[0].kind == terminator && !ts[0].blank) || (ts[0].kind.Infix? && Priority(ts[0].kind.op) <= limit))
  }

  /** What the loop has so far fits before the next operator. */
  predicate Fits(cur: Option<Tree>, ts: seq<Token>, limit: nat) {
    cur.Some? ==>
      && WellNested(cur.value) && Root(cur.value) > limit
      && (ts != [] && ts[0].kind.Infix? ==> Root(cur.value) >= Priority(ts[0].kind.op))
  }

  function Before(cur: Option<Tree>): seq<Kind> {
    if cur.Some? then Flatten(cur.value) else []
  }

  /** With cur before them, the tokens used spell out t. */
  predicate Reads(ts: seq<Token>, cur: Option<Tree>, t: Tree, rest: seq<Token>, used: seq<Token>) {
    ts == used + rest && Snug(used) && Before(cur) + Kinds(used) == Flatten(t)
  }

  /** Whatever the parser accepts is well nested and spells out the tokens
      that it has read. */
  lemma {:induction false} BuildSound(ts: seq<Token>, cur: Option<Tree>, terminator: Kind, limit: nat) returns (used: seq<Token>)
    requires Build(ts, cur, terminator, limit).Some? && Build(ts, cur, terminator, limit).value.0.Some?
    requires Fits(cur, ts, limit) && limit < 6 && (terminator == End || terminator == Close)
    ensures var x := Build(ts, cur, terminator, limit).value;
      && WellNested(x.0.value) && Root(x.0.value) > limit && Stops(x.1, terminator, limit)
      && Reads(ts, cur, x.0.value, x.1, used)
    decreases |ts|
  {
    hide Reads;
    var x := Build(ts, cur, terminator, limit).value;
    if ts[0].kind == terminator && !ts[0].blank {
      used := ReadsNothing(ts, cur.value);
    } else if ts[0].kind.Int? {
      var num := Num(ts[0].kind.value);
      used := BuildSound(ts[1..], Some(num), terminator, limit);
      used := ReadsOne(ts, num, x.0.value, x.1, used);
    } else if ts[0].kind.Open? {
      var y := Build(ts[1..], None, Close, 0).value;
      var inner := BuildSound(ts[1..], None, Close, 0);
      var paren := Paren(y.0.value);
      used := BuildSound(y.1[1..], Some(paren), terminator, limit);
      used := ReadsParen(ts, y.0.value, y.1, inner, x.0.value, x.1, used);
    } else if Priority(ts[0].kind.op) <= limit {
      used := ReadsNothing(ts, cur.value);
    } else {
      var op := ts[0].kind.op;
      var y := Build(ts[1..], None, terminator, Priority(op)).value;
      var inner := BuildSound(ts[1..], None, terminator, Priority(op));
      var bin := Bin(op, cur.value, y.0.value);
      used := BuildSound(y.1, Some(bin), terminator, limit);
      used := ReadsInfix(ts, cur.value, op, y.0.value, y.1, inner, x.0.value, x.1, used);
    }
  }

  lemma ReadsNothing(ts: seq<Token>, t: Tree) returns (used: seq<Token>)
    ensures Reads(ts, Some(t), t, ts, used)
  {
    used := [];
    assert Flatten(t) + Kinds([]) == Flatten(t);
    assert [] + ts == ts;
  }

  /** Tokens read in two goes. */
  lemma ReadsTwice(a: seq<Token>, cur: Option<Tree>, ts: seq<Token>, mid: Tree, t: Tree, rest: seq<Token>, used: seq<Token>)
    requires Reads(ts, Some(mid), t, rest, used)
    requires Snug(a) && Before(cur) + Kinds(a) == Flatten(mid)
    ensures Reads(a + ts, cur, t, rest, a + used)
  {
    KindsAppend(a, used);
    hide Kinds, Snug, Flatten;
    assert a + (used + rest) == a + used + rest;
    assert Before(cur) + (Kinds(a) + Kinds(used)) == Before(cur) + Kinds(a) + Kinds(used);
  }

  lemma KindsOne(t: Token)
    ensures Kinds([t]) == [t.kind]
    ensures !(t.kind.Close? || t.kind.End?) || !t.blank ==> Snug([t])
  {
  }

  lemma ReadsOne(ts: seq<Token>, num: Tree, t: Tree, rest: seq<Token>, used: seq<Token>) returns (all: seq<Token>)
    requires ts != [] && num.Num? && ts[0].kind == Int(num.value)
    requires Reads(ts[1..], Some(num), t, rest, used)
    ensures Reads(ts, None, t, rest, all)
  {
    KindsOne(ts[0]);
    hide Kinds, Snug, Reads;
    assert [] + Kinds([ts[0]]) == Kinds([ts[0]]);
    assert [ts[0]] + ts[1..] == ts;
    ReadsTwice([ts[0]], None, ts[1..], num, t, rest, used);
    all := [ts[0]] + used;
  }

  lemma ReadsParen(ts: seq<Token>, u: Tree, after: seq<Token>, inner: seq<Token>, t: Tree, rest: seq<Token>, used: seq<Token>)
    returns (all: seq<Token>)
    requires ts != [] && ts[0].kind.Open? && after != [] && after[0].kind.Close? && !after[0].blank
    requires Reads(ts[1..], None, u, after, inner)
    requires Reads(after[1..], Some(Paren(u)), t, rest, used)
    ensures Reads(ts, None, t, rest, all)
  {
    assert Snug(inner) && Before(None) + Kinds(inner) == Flatten(u) && ts[1..] == inner + after;
    hide Kinds, Snug, Reads;
    var a := [ts[0]] + inner + [after[0]];
    ParenKinds(ts[0], inner, after[0]);
    assert [] + Kinds(inner) == Kinds(inner);
    assert [] + Kinds(a) == Kinds(a);
    ParenJoin(ts[0], inner, after[0], after[1..]);
    assert ts == [ts[0]] + ts[1..] && after == [after[0]] + after[1..];
    ReadsTwice(a, None, after[1..], Paren(u), t, rest, used);
    all := a + used;
  }

  lemma InfixJoin(l: Tree, op: Op, r: Tree)
    ensures Flatten(Bin(op, l, r)) == Flatten(l) + ([Infix(op)] + Flatten(r))
  {
    hide Flatten;
    FlattenBin(op, l, r);
  }

  lemma FlattenBin(op: Op, l: Tree, r: Tree)
    ensures Flatten(Bin(op, l, r)) == Flatten(l) + [Infix(op)] + Flatten(r)
  {
  }

  lemma Then(x: Token, a: seq<Token>, b: seq<Token>)
    ensures [x] + (a + b) == [x] + a + b
  {
  }

  lemma ParenJoin(x: Token, inner: seq<Token>, y: Token, z: seq<Token>)
    ensures [x] + (inner + ([y] + z)) == [x] + inner + [y] + z
  {
  }

  lemma ParenKinds(x: Token, inner: seq<Token>, y: Token)
    requires x.kind.Open? && Snug(inner) && y.kind.Close? && !y.blank
    ensures Snug([x] + inner + [y]) && Kinds([x] + inner + [y]) == [Open] + Kinds(inner) + [Close]
  {
    KindsOne(x);
    KindsOne(y);
    KindsAppend([x], inner);
    KindsAppend([x] + inner, [y]);
  }

  lemma ReadsInfix(ts: seq<Token>, cur: Tree, op: Op, r: Tree, after: seq<Token>, inner: seq<Token>, t: Tree, rest: seq<Token>, used: seq<Token>)
    returns (all: seq<Token>)
    requires ts != [] && ts[0].kind == Infix(op)
    requires Reads(ts[1..], None, r, after, inner)
    requires Reads(after, Some(Bin(op, cur, r)), t, rest, used)
    ensures Reads(ts, Some(cur), t, rest, all)
  {
    assert Snug(inner) && Before(None) + Kinds(inner) == Flatten(r) && ts[1..] == inner + after;
    var a := [ts[0]] + inner;
    KindsOne(ts[0]);
    KindsAppend([ts[0]], inner);
    hide Kinds, Snug, Reads;
    assert [] + Kinds(inner) == Kinds(inner);
    InfixJoin(cur, op, r);
    assert ts == [ts[0]] + ts[1..];
    Then(ts[0], inner, after);
    ReadsTwice(a, Some(cur), after, Bin(op, cur, r), t, rest, used);
    all := a + used;
  }

  /** A well-nested tree, spelled out, is read as itself. */
  lemma {:induction false} BuildComplete(t: Tree, a: seq<Token>, rest: seq<Token>, terminator: Kind, limit: nat)
    requires WellNested(t) && Root(t) > limit && Snug(a) && Kinds(a) == Flatten(t)
    requires Fits(Some(t), rest, limit) && (terminator == End || terminator == Close)
    requires rest != [] && (rest[0].kind.Infix? || (rest[0].kind == terminator && !rest[0].blank) || rest[0].kind.Close?)
    ensures Build(a + rest, None, terminator, limit) == Build(rest, Some(t), terminator, limit)
    decreases t, 1
  {
    match t
    case Num(v) =>
      assert a[0].kind == Kinds(a)[0];
      assert (a + rest)[1..] == rest;
    case Paren(u) =>
      assert u < t;
      ParenComplete(u, a, rest, terminator, limit);
    case Bin(op, l, r) => InfixComplete(op, l, r, a, rest, terminator, limit);
  }

  lemma ParenComplete(u: Tree, a: seq<Token>, rest: seq<Token>, terminator: Kind, limit: nat)
    requires WellNested(u) && Snug(a) && Kinds(a) == [Open] + Flatten(u) + [Close]
    requires terminator == End || terminator == Close
    ensures Build(a + rest, None, terminator, limit) == Build(rest, Some(Paren(u)), terminator, limit)
    decreases u, 2
  {
    var n := |a| - 1;
    var m := a[1..n];
    assert Kinds(a)[0] == Open && Kinds(a)[n] == Close;
    assert a[0].kind == Open && a[n].kind == Close && a[n] in a;
    assert Kinds(m) == Kinds(a)[1..n] == Flatten(u);
    SnugPart(a, 1, n);
    var tail := [a[n]] + rest;
    BuildComplete(u, m, tail, Close, 0);
    assert (a + rest)[1..] == m + tail;
    assert Build(tail, Some(u), Close, 0) == Some((Some(u), tail));
    assert tail[1..] == rest;
  }

  lemma SnugPart(a: seq<Token>, i: nat, j: nat)
    requires Snug(a) && i <= j <= |a|
    ensures Snug(a[i..j])
  {
    forall t <- a[i..j] ensures t in a {
    }
  }

  lemma InfixComplete(op: Op, l: Tree, r: Tree, a: seq<Token>, rest: seq<Token>, terminator: Kind, limit: nat)
    requires var t := Bin(op, l, r);
      && WellNested(t) && Root(t) > limit && Snug(a) && Kinds(a) == Flatten(t) && Fits(Some(t), rest, limit)
    requires terminator == End || terminator == Close
    requires rest != [] && (rest[0].kind.Infix? || (rest[0].kind == terminator && !rest[0].blank) || rest[0].kind.Close?)
    ensures Build(a + rest, None, terminator, limit) == Build(rest, Some(Bin(op, l, r)), terminator, limit)
    decreases Bin(op, l, r), 0
  {
    hide Kinds, Snug, Flatten;
    var n := |Flatten(l)|;
    var left, right := InfixSplit(op, l, r, a);
    var tail := [a[n]] + (right + rest);
    assert a + rest == left + tail;
    BuildComplete(l, left, tail, terminator, limit);
    assert tail[1..] == right + rest;
    BuildComplete(r, right, rest, terminator, Priority(op));
  }

  lemma InfixSplit(op: Op, l: Tree, r: Tree, a: seq<Token>) returns (left: seq<Token>, right: seq<Token>)
    requires Snug(a) && Kinds(a) == Flatten(Bin(op, l, r))
    ensures Kinds(left) == Flatten(l) && Kinds(right) == Flatten(r) && Snug(left) && Snug(right)
    ensures var n := |Flatten(l)|; n < |a| && a[n].kind == Infix(op) && a == left + [a[n]] + right
  {
    var n := |Flatten(l)|;
    left, right := a[..n], a[n + 1..];
    assert a[n].kind == Kinds(a)[n] == Infix(op);
    assert Kinds(left) == Kinds(a)[..n] == Flatten(l);
    assert Kinds(right) == Kinds(a)[n + 1..] == Flatten(r);
    SnugPart(a, 0, n);
    SnugPart(a, n + 1, |a|);
    assert a[0..n] == left && a[n + 1..|a|] == right;
  }

  /** The parser accepts exactly the inputs that spell out a well-nested tree
      with no white space before a closing parenthesis or the end, and finds
      that tree. */
  lemma ParseIff(ts: seq<Token>, t: Tree)
    requires Input(ts)
    ensures Parse(ts) == Some(t) <==> WellNested(t) && Kinds(ts) == Flatten(t) + [End] && Snug(ts)
  {
    if Parse(ts) == Some(t) {
      ParseSound(ts, t);
    }
    if WellNested(t) && Kinds(ts) == Flatten(t) + [End] && Snug(ts) {
      ParseComplete(ts, t);
    }
  }

  lemma ParseSound(ts: seq<Token>, t: Tree)
    requires Input(ts) && Parse(ts) == Some(t)
    ensures WellNested(t) && Kinds(ts) == Flatten(t) + [End] && Snug(ts)
  {
    var used := BuildSound(ts, None, End, 0);
    var rest := Build(ts, None, End, 0).value.1;
    assert rest[0] == ts[|ts| - |rest|];
    assert rest == [rest[0]];
    KindsAppend(used, rest);
    assert [] + Kinds(used) == Kinds(used);
  }

  lemma ParseComplete(ts: seq<Token>, t: Tree)
    requires Input(ts) && WellNested(t) && Kinds(ts) == Flatten(t) + [End] && Snug(ts)
    ensures Parse(ts) == Some(t)
  {
    var n := |ts| - 1;
    var a, rest := ts[..n], ts[n..];
    assert Kinds(a) == Kinds(ts)[..n] == Flatten(t);
    SnugPart(ts, 0, n);
    assert ts[0..n] == a && ts == a + rest;
    assert rest[0] == ts[n] && ts[n] in ts;
    BuildComplete(t, a, rest, End, 0);
  }

  /** So no two well-nested trees are spelled alike. */
  lemma Unambiguous(t: Tree, u: Tree)
    requires WellNested(t) && WellNested(u) && Flatten(t) == Flatten(u)
    ensures t == u
  {
    var ks := Flatten(t) + [End];
    NoEnd(t);
    var ts := seq(|ks|, i requires 0 <= i < |ks| => Token(ks[i], false));
    assert Kinds(ts) == ks;
    ParseIff(ts, t);
    ParseIff(ts, u);
  }

  lemma {:induction false} NoEnd(t: Tree)
    ensures forall k <- Flatten(t) :: !k.End?
  {
    match t
    case Num(_) =>
    case Paren(u) => NoEnd(u);
    case Bin(_, l, r) => NoEnd(l); NoEnd(r);
  }

  /** White space before a closing parenthesis, or at the end, is an error. */
  lemma BlankBeforeEnd(ts: seq<Token>, us: seq<Token>)
    requires ts == [Token(Open, false), Token(Int(1), false), Token(Close, true), Token(End, false)]
    requires us == [Token(Int(1), false), Token(End, true)]
    ensures Input(ts) && Kinds(ts) == Flatten(Paren(Num(1))) + [End] && Parse(ts) == None
    ensures Input(us) && Kinds(us) == Flatten(Num(1)) + [End] && Parse(us) == None
  {
    assert ts[2] in ts && us[1] in us;
    assert !Snug(ts) && !Snug(us);
    if Parse(ts).Some? {
      ParseIff(ts, Parse(ts).value);
    }
    if Parse(us).Some? {
      ParseIff(us, Parse(us).value);
    }
  }

  // -------------------------------------------------- what the result means

  /** What an operator does to two values. */
  type Meaning = (Op, int, int) -> int

  function Value(e: Enode, meaning: Meaning): int {
    match e
    case Const(v) => v
    case Binary(op, l, r) => meaning(op, Value(l, meaning), Value(r, meaning))
  }

  /** The value of a parse tree; parentheses only group. */
  function TreeValue(t: Tree, meaning: Meaning): int {
    match t
    case Num(v) => v
    case Paren(u) => TreeValue(u, meaning)
    case Bin(op, l, r) => meaning(op, TreeValue(l, meaning), TreeValue(r, meaning))
  }

  /** Whatever the operators mean, leaving out the parentheses keeps the value. */
  lemma {:induction false} StripKeepsValue(t: Tree, meaning: Meaning)
    ensures Value(Strip(t), meaning) == TreeValue(t, meaning)
  {
    match t
    case Num(_) =>
    case Paren(u) => StripKeepsValue(u, meaning);
    case Bin(_, l, r) =>
      StripKeepsValue(l, meaning);
      StripKeepsValue(r, meaning);
  }

  // ------------------------------------------------- how operators are grouped

  /** The operators in classes, the most weakly binding ones first. */
  const CLASSES: seq<set<Op>> := [{Or}, {And}, {Equal, NotEqual, Less, Greater}, {Add, Subtract}, {Multiply, Divide, Modulo}]

  /** One operator is in a later class than the other. */
  predicate Tighter(g: Op, f: Op) {
    exists i, j :: 0 <= i < j < |CLASSES| && f in CLASSES[i] && g in CLASSES[j]
  }

  lemma ClassOf(op: Op) returns (i: nat)
    ensures i == Priority(op) - 1 && i < |CLASSES| && op in CLASSES[i]
    ensures forall j :: 0 <= j < |CLASSES| && op in CLASSES[j] ==> j == i
  {
    i := Priority(op) - 1;
  }

  lemma TighterIff(g: Op, f: Op)
    ensures Tighter(g, f) <==> Priority(g) > Priority(f)
  {
    var i := ClassOf(f);
    var j := ClassOf(g);
    assert i < j ==> f in CLASSES[i] && g in CLASSES[j];
  }

  /** A constant, or an expression in parentheses. */
  predicate Operand(t: Tree) { !t.Bin? && WellNested(t) }

  /** Three operands with two operators between them: the second operator goes
      first exactly if it is in a later class than the first one. */
  lemma Grouping(ts: seq<Token>, x: Tree, f: Op, y: Tree, g: Op, z: Tree)
    requires Operand(x) && Operand(y) && Operand(z) && Input(ts) && Snug(ts)
    requires Kinds(ts) == Flatten(x) + [Infix(f)] + Flatten(y) + [Infix(g)] + Flatten(z) + [End]
    ensures Parse(ts) == Some(if Tighter(g, f) then Bin(f, x, Bin(g, y, z)) else Bin(g, Bin(f, x, y), z))
  {
    TighterIff(g, f);
    var t := if Tighter(g, f) then Bin(f, x, Bin(g, y, z)) else Bin(g, Bin(f, x, y), z);
    hide Tighter;
    var a, b, c := Flatten(x), Flatten(y), Flatten(z);
    FlattenBin(f, x, Bin(g, y, z));
    FlattenBin(g, y, z);
    FlattenBin(g, Bin(f, x, y), z);
    FlattenBin(f, x, y);
    hide Flatten, Kinds, Snug, Input;
    assert a + [Infix(f)] + (b + [Infix(g)] + c) == a + [Infix(f)] + b + [Infix(g)] + c;
    ParseComplete(ts, t);
  }

  /** So a product in a sum goes first, and sums go from left to right. */
  lemma SumOfProduct(a: int, b: int, c: int, ts: seq<Token>, us: seq<Token>)
    requires ts == [Token(Int(a), false), Token(Infix(Add), true), Token(Int(b), true), Token(Infix(Multiply), true), Token(Int(c), true), Token(End, false)]
    requires us == [Token(Int(a), false), Token(Infix(Subtract), true), Token(Int(b), true), Token(Infix(Add), true), Token(Int(c), true), Token(End, false)]
    ensures Parse(ts) == Some(Bin(Add, Num(a), Bin(Multiply, Num(b), Num(c))))
    ensures Parse(us) == Some(Bin(Add, Bin(Subtract, Num(a), Num(b)), Num(c)))
  {
    assert CLASSES[3] == {Add, Subtract} && Add in CLASSES[3] && Multiply in CLASSES[4];
    assert Tighter(Multiply, Add);
    TighterIff(Add, Subtract);
    Grouping(ts, Num(a), Add, Num(b), Multiply, Num(c));
    Grouping(us, Num(a), Subtract, Num(b), Add, Num(c));
  }
}
