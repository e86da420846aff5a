// What the calculator's machine computes: a two-level, left-associative grammar.

module CalculatorMeaning {
  import opened Calculator

  // ---------- the grammar, its text and its value ----------

  datatype Term = Factor(number: string) | MulDiv(left: Term, op: Oper, number: string)

  datatype Expr = Single(term: Term) | AddSub(rest: Expr, op: Oper, term: Term)

  predicate GoodNumber(s: string) {
    s != "" && NoOper(s)
  }

  predicate GoodTerm(t: Term) {
    match t
    case Factor(n) => GoodNumber(n)
    case MulDiv(l, op, n) => GoodTerm(l) && op in {'*', '/'} && GoodNumber(n)
  }

  predicate GoodExpr(e: Expr) {
    match e
    case Single(t) => GoodTerm(t)
    case AddSub(r, op, t) => GoodExpr(r) && op in {'+', '-'} && GoodTerm(t)
  }

  // The same grammar with numbers that may be absent: every string is one of these.
  predicate AnyTerm(t: Term) {
    match t
    case Factor(n) => NoOper(n)
    case MulDiv(l, op, n) => AnyTerm(l) && op in {'*', '/'} && NoOper(n)
  }

  predicate AnyExpr(e: Expr) {
    match e
    case Single(t) => AnyTerm(t)
    case AddSub(r, op, t) => AnyExpr(r) && op in {'+', '-'} && AnyTerm(t)
  }

  lemma {:induction false} GoodTermIsAny(t: Term)
    requires GoodTerm(t)
    ensures AnyTerm(t)
  {
    if t.MulDiv? {
      GoodTermIsAny(t.left);
    }
  }

  lemma {:induction false} GoodIsAny(e: Expr)
    requires GoodExpr(e)
    ensures AnyExpr(e)
  {
    GoodTermIsAny(e.term);
    if e.AddSub? {
      GoodIsAny(e.rest);
    }
  }

  function PrintTerm(t: Term): string {
    match t
    case Factor(n) => n
    case MulDiv(l, op, n) => PrintTerm(l) + [op] + n
  }

  function Print(e: Expr): string {
    match e
    case Single(t) => PrintTerm(t)
    case AddSub(r, op, t) => Print(r) + [op] + PrintTerm(t)
  }

  function Apply<V>(left: V, op: Oper, right: V, a: Arithmetic<V>): V {
    match op
    case '+' => a.add(left, right)
    case '-' => a.sub(left, right)
    case '*' => a.mul(left, right)
    case '/' => a.div(left, right)
  }

  function TermValue<V>(t: Term, a: Arithmetic<V>): V {
    match t
    case Factor(n) => a.number(n)
    case MulDiv(l, op, n) => Apply(TermValue(l, a), op, a.number(n), a)
  }

  function Value<V>(e: Expr, a: Arithmetic<V>): V {
    match e
    case Single(t) => TermValue(t, a)
    case AddSub(r, op, t) => Apply(Value(r, a), op, TermValue(t, a), a)
  }

  // The arithmetic with the operands of + and * the other way round.
  function Flip<V>(a: Arithmetic<V>): Arithmetic<V> {
    a.(add := (x, y) => a.add(y, x), mul := (x, y) => a.mul(y, x))
  }

  ghost predicate Commutative<V(!new)>(a: Arithmetic<V>) {
    forall x, y :: a.add(x, y) == a.add(y, x) && a.mul(x, y) == a.mul(y, x)
  }

  // ---------- expressions as token lists ----------

  function Item(n: string): seq<Token> {
    if n == "" then [] else [Num(n)]
  }

  function TermTokens(t: Term): seq<Token> {
    match t
    case Factor(n) => Item(n)
    case MulDiv(l, op, n) => TermTokens(l) + [Op(op)] + Item(n)
  }

  function Tokens(e: Expr): seq<Token> {
    match e
    case Single(t) => TermTokens(t)
    case AddSub(r, op, t) => Tokens(r) + [Op(op)] + TermTokens(t)
  }

  // Number, operator, number, ..., number.
  predicate Alternating(toks: seq<Token>) {
    if |toks| <= 1 then EndsWithNum(toks)
    else EndsWithNum(toks) && toks[|toks| - 2].Op? && Alternating(toks[..|toks| - 2])
  }

  lemma AlternatingSnoc(toks: seq<Token>, op: Oper, n: string)
    requires Alternating(toks)
    ensures Alternating(toks + [Op(op)] + [Num(n)])
  {
    assert (toks + [Op(op)] + [Num(n)])[..|toks|] == toks;
  }

  lemma {:induction false} AlternatingJoin(s: seq<Token>, op: Oper, t: seq<Token>)
    requires Alternating(s) && Alternating(t)
    ensures Alternating(s + [Op(op)] + t)
    decreases |t|
  {
    var last := t[|t| - 1].text;
    if |t| == 1 {
      AlternatingSnoc(s, op, last);
      assert t == [Num(last)];
    } else {
      var before, o := t[..|t| - 2], t[|t| - 2].op;
      AlternatingJoin(s, op, before);
      AlternatingSnoc(s + [Op(op)] + before, o, last);
      assert s + [Op(op)] + t == (s + [Op(op)] + before) + [Op(o)] + [Num(last)];
    }
  }

  lemma {:induction false} UnlexAppend(s: seq<Token>, t: seq<Token>)
    ensures Unlex(s + t) == Unlex(s) + Unlex(t)
  {
    if t == [] {
      assert s + t == s;
    } else {
      var init, last := t[..|t| - 1], t[|t| - 1];
      assert t == init + [last] && s + t == (s + init) + [last];
      UnlexAppend(s, init);
      Snoc(s + init, last);
    }
  }

  lemma {:induction false} LexedAppend(s: seq<Token>, t: seq<Token>)
    requires Lexed(s) && Lexed(t) && !(EndsWithNum(s) && t != [] && t[0].Num?)
    ensures Lexed(s + t)
  {
    if t == [] {
      assert s + t == s;
    } else {
      var init, last := t[..|t| - 1], t[|t| - 1];
      assert s + t == (s + init) + [last];
      LexedAppend(s, init);
      Snoc(s + init, last);
    }
  }

  lemma Join(s: seq<Token>, op: Oper, t: seq<Token>)
    requires Lexed(s) && Lexed(t)
    ensures var j := s + [Op(op)] + t;
            Lexed(j) && Unlex(j) == Unlex(s) + [op] + Unlex(t)
  {
    Snoc(s, Op(op));
    UnlexAppend(s + [Op(op)], t);
    LexedAppend(s + [Op(op)], t);
  }

  lemma ItemText(n: string)
    requires NoOper(n)
    ensures Lexed(Item(n)) && Unlex(Item(n)) == n
  {
    Snoc([], Num(n));
    assert [] + [Num(n)] == [Num(n)];
  }

  lemma {:induction false} TermText(t: Term)
    requires AnyTerm(t)
    ensures Unlex(TermTokens(t)) == PrintTerm(t) && Lexed(TermTokens(t))
  {
    match t
    case Factor(n) => ItemText(n);
    case MulDiv(l, op, n) =>
      TermText(l);
      ItemText(n);
      Join(TermTokens(l), op, Item(n));
  }

  lemma {:induction false} ExprText(e: Expr)
    requires AnyExpr(e)
    ensures Unlex(Tokens(e)) == Print(e) && Lexed(Tokens(e))
  {
    match e
    case Single(t) => TermText(t);
    case AddSub(r, op, t) =>
      ExprText(r);
      TermText(t);
      Join(Tokens(r), op, TermTokens(t));
  }

  lemma LexPrint(e: Expr)
    requires AnyExpr(e)
    ensures Lex(Print(e)) == Tokens(e)
  {
    ExprText(e);
    LexUnique(Tokens(e));
  }

  lemma {:induction false} TermAlternates(t: Term)
    requires GoodTerm(t)
    ensures Alternating(TermTokens(t))
  {
    if t.MulDiv? {
      TermAlternates(t.left);
      AlternatingSnoc(TermTokens(t.left), t.op, t.number);
    }
  }

  lemma {:induction false} ExprAlternates(e: Expr)
    requires GoodExpr(e)
    ensures Alternating(Tokens(e))
  {
    TermAlternates(e.term);
    if e.AddSub? {
      ExprAlternates(e.rest);
      AlternatingJoin(Tokens(e.rest), e.op, TermTokens(e.term));
    }
  }

  // ---------- every string is an expression with absent numbers, and only one ----------

  function LongerTerm(t: Term, ch: char): Term {
    match t
    case Factor(n) => Factor(n + [ch])
    case MulDiv(l, op, n) => MulDiv(l, op, n + [ch])
  }

  // The expression with one more character.
  function Longer(e: Expr, ch: char): Expr {
    if IsOper(ch) then Attach(e, ch, "")
    else match e
      case Single(t) => Single(LongerTerm(t, ch))
      case AddSub(r, op, t) => AddSub(r, op, LongerTerm(t, ch))
  }

  function Read(s: string): Expr {
    if s == "" then Single(Factor("")) else Longer(Read(s[..|s| - 1]), s[|s| - 1])
  }

  lemma LongerPrints(e: Expr, ch: char)
    requires AnyExpr(e)
    ensures AnyExpr(Longer(e, ch)) && Print(Longer(e, ch)) == Print(e) + [ch]
  {
    if !IsOper(ch) {
      LongerTermPrints(e.term, ch);
      if e.AddSub? {
        assert Print(e.rest) + [e.op] + (PrintTerm(e.term) + [ch]) == (Print(e.rest) + [e.op] + PrintTerm(e.term)) + [ch];
      }
    } else {
      AttachPrints(e, ch);
    }
  }

  lemma LongerTermPrints(t: Term, ch: char)
    requires AnyTerm(t) && !IsOper(ch)
    ensures AnyTerm(LongerTerm(t, ch)) && PrintTerm(LongerTerm(t, ch)) == PrintTerm(t) + [ch]
  {
    if t.MulDiv? {
      assert PrintTerm(t.left) + [t.op] + (t.number + [ch]) == (PrintTerm(t.left) + [t.op] + t.number) + [ch];
    }
  }

  lemma AttachPrints(e: Expr, op: Oper)
    requires AnyExpr(e)
    ensures AnyExpr(Attach(e, op, "")) && Print(Attach(e, op, "")) == Print(e) + [op]
  {
    if Priority(op) == 1 && e.AddSub? {
      assert Print(e.rest) + [e.op] + (PrintTerm(e.term) + [op] + "") == (Print(e.rest) + [e.op] + PrintTerm(e.term)) + [op];
    }
  }

  lemma {:induction false} ReadPrints(s: string)
    ensures AnyExpr(Read(s)) && Print(Read(s)) == s
  {
    if s != "" {
      ReadPrints(s[..|s| - 1]);
      LongerPrints(Read(s[..|s| - 1]), s[|s| - 1]);
      assert s == s[..|s| - 1] + [s[|s| - 1]];
    }
  }

  // Takes the last character off an expression: the inverse of Longer.
  lemma Shorter(e: Expr) returns (shorter: Expr, ch: char)
    requires AnyExpr(e) && e != Single(Factor(""))
    ensures AnyExpr(shorter) && Longer(shorter, ch) == e && Print(e) == Print(shorter) + [ch]
  {
    var n := e.term.number;
    if n != "" {
      var cut := n[..|n| - 1];
      ch := n[|n| - 1];
      assert cut + [ch] == n;
      var t := e.term.(number := cut);
      shorter := e.(term := t);
      assert LongerTerm(t, ch) == e.term;
    } else if e.term.MulDiv? {
      ch := e.term.op;
      shorter := e.(term := e.term.left);
    } else {
      ch := e.op;
      shorter := e.rest;
    }
    LongerPrints(shorter, ch);
  }

  lemma {:induction false} ReadUnique(e: Expr)
    requires AnyExpr(e)
    ensures Read(Print(e)) == e
    decreases |Print(e)|
  {
    if e != Single(Factor("")) {
      var shorter, ch := Shorter(e);
      ReadUnique(shorter);
      assert Print(e)[..|Print(e)| - 1] == Print(shorter);
    }
  }

  // ---------- every alternating token list is an expression, and only one ----------

  function Attach(e: Expr, op: Oper, n: string): Expr {
    if Priority(op) == 0 then AddSub(e, op, Factor(n))
    else match e
      case Single(t) => Single(MulDiv(t, op, n))
      case AddSub(r, o, t) => AddSub(r, o, MulDiv(t, op, n))
  }

  function Parse(toks: seq<Token>): Expr
    requires Alternating(toks)
  {
    if |toks| == 1 then Single(Factor(toks[0].text))
    else Attach(Parse(toks[..|toks| - 2]), toks[|toks| - 2].op, toks[|toks| - 1].text)
  }

  // What the last two tokens of a longer list are.
  lemma AlternatingEnd(toks: seq<Token>)
    requires Alternating(toks) && Lexed(toks) && |toks| > 1
    ensures var before, op, n := toks[..|toks| - 2], toks[|toks| - 2], toks[|toks| - 1];
            && op.Op? && n.Num? && GoodNumber(n.text) && toks == before + [op] + [n]
            && Alternating(before) && Lexed(before)
  {
    var before, op, n := toks[..|toks| - 2], toks[|toks| - 2], toks[|toks| - 1];
    assert toks == before + [op] + [n];
    Snoc(before + [op], n);
    Snoc(before, op);
  }

  lemma {:induction false} TokensOfParse(toks: seq<Token>)
    requires Alternating(toks) && Lexed(toks)
    ensures GoodExpr(Parse(toks)) && Tokens(Parse(toks)) == toks
  {
    if |toks| > 1 {
      var before := toks[..|toks| - 2];
      AlternatingEnd(toks);
      TokensOfParse(before);
      AttachTokens(Parse(before), toks[|toks| - 2].op, toks[|toks| - 1].text);
      assert Parse(toks) == Attach(Parse(before), toks[|toks| - 2].op, toks[|toks| - 1].text);
    } else {
      OneToken(toks);
    }
  }

  lemma OneToken(toks: seq<Token>)
    requires Alternating(toks) && Lexed(toks) && |toks| == 1
    ensures GoodNumber(toks[0].text) && toks == [Num(toks[0].text)]
  {
    Snoc([], toks[0]);
    assert toks == [] + [toks[0]];
  }

  lemma AttachTokens(e: Expr, op: Oper, n: string)
    requires GoodExpr(e) && GoodNumber(n)
    ensures GoodExpr(Attach(e, op, n)) && Tokens(Attach(e, op, n)) == Tokens(e) + [Op(op)] + [Num(n)]
  {
  }

  lemma ParseSnoc(toks: seq<Token>, op: Oper, n: string)
    requires Alternating(toks)
    ensures var more := toks + [Op(op)] + [Num(n)];
            Alternating(more) && Parse(more) == Attach(Parse(toks), op, n)
  {
    AlternatingSnoc(toks, op, n);
    assert (toks + [Op(op)] + [Num(n)])[..|toks|] == toks;
  }

  lemma {:induction false} ParseOfTokens(e: Expr)
    requires GoodExpr(e)
    ensures Alternating(Tokens(e)) && Parse(Tokens(e)) == e
    decreases |Tokens(e)|
  {
    if !(e.Single? && e.term.Factor?) {
      var (rest, op, n) := match e
        case Single(MulDiv(l, op, n)) => (Single(l), op, n)
        case AddSub(r, op, Factor(n)) => (r, op, n)
        case AddSub(r, o, MulDiv(l, op, n)) => (AddSub(r, o, l), op, n);
      AttachTokens(rest, op, n);
      ParseOfTokens(rest);
      ParseSnoc(Tokens(rest), op, n);
    }
  }

  // ---------- the machine computes the value ----------

  lemma {:induction false} RunAppend<V>(m: Machine<V>, s: seq<Token>, t: seq<Token>, a: Arithmetic<V>)
    ensures Run(m, s + t, a) == Run(Run(m, s, a), t, a)
  {
    if t == [] {
      assert s + t == s;
    } else {
      assert (s + t)[..|s + t| - 1] == s + t[..|t| - 1];
      RunAppend(m, s, t[..|t| - 1], a);
    }
  }

  lemma {:induction false} ReduceTwice<V>(m: Machine<V>, p: int, q: int, a: Arithmetic<V>)
    requires q <= p
    ensures ReduceWhile(ReduceWhile(m, p, a), q, a) == ReduceWhile(m, q, a)
    decreases |m.ops|
  {
    if m.ops != [] && p <= Priority(m.ops[|m.ops| - 1]) {
      ReduceTwice(Reduce(m, a), p, q, a);
    }
  }

  lemma {:induction false} DrainReducesAll<V>(m: Machine<V>, a: Arithmetic<V>)
    ensures Drain(m, a) == ReduceWhile(m, 0, a)
    decreases |m.ops|
  {
    if m.ops != [] {
      DrainReducesAll(Reduce(m, a), a);
    }
  }

  // ---------- the value of any string ----------

  // The numbers waiting for an operator, and the messages so far.
  datatype Tally<V> = Tally(nums: seq<V>, out: seq<Message>)

  // An absent number adds nothing.
  function Entered<V>(s: Tally<V>, n: string, a: Arithmetic<V>): Tally<V> {
    if n == "" then s else s.(nums := s.nums + [a.number(n)])
  }

  // An operator takes the last two waiting numbers; null, with a message, stands for one that is not there.
  function Operated<V>(s: Tally<V>, op: Oper, a: Arithmetic<V>): Tally<V> {
    var k := |s.nums|;
    if k >= 2 then s.(nums := s.nums[..k - 2] + [Apply(s.nums[k - 2], op, s.nums[k - 1], a)])
    else if k == 1 then Tally([Apply(a.missing, op, s.nums[0], a)], s.out + [StackEmpty])
    else Tally([Apply(a.missing, op, a.missing, a)], s.out + [StackEmpty, StackEmpty])
  }

  function TermTally<V>(t: Term, s: Tally<V>, a: Arithmetic<V>): Tally<V> {
    match t
    case Factor(n) => Entered(s, n, a)
    case MulDiv(l, op, n) => Operated(Entered(TermTally(l, s, a), n, a), op, a)
  }

  function ExprTally<V>(e: Expr, a: Arithmetic<V>): Tally<V> {
    match e
    case Single(t) => TermTally(t, Tally([], []), a)
    case AddSub(r, op, t) => Operated(TermTally(t, ExprTally(r, a), a), op, a)
  }

  // With all numbers present the tally is the value.
  lemma {:induction false} TermTallyValue<V>(t: Term, s: Tally<V>, a: Arithmetic<V>)
    requires GoodTerm(t)
    ensures TermTally(t, s, a) == s.(nums := s.nums + [TermValue(t, a)])
  {
    if t.MulDiv? {
      TermTallyValue(t.left, s, a);
      var l, v := TermValue(t.left, a), a.number(t.number);
      assert (s.nums + [l] + [v])[..|s.nums|] == s.nums;
    }
  }

  lemma {:induction false} ExprTallyValue<V>(e: Expr, a: Arithmetic<V>)
    requires GoodExpr(e)
    ensures ExprTally(e, a) == Tally([Value(e, a)], [])
  {
    match e
    case Single(t) =>
      TermTallyValue(t, Tally([], []), a);
      assert [] + [TermValue(t, a)] == [TermValue(t, a)];
    case AddSub(r, op, t) =>
      ExprTallyValue(r, a);
      TermTallyValue(t, ExprTally(r, a), a);
      assert [Value(r, a)] + [TermValue(t, a)] == [Value(r, a), TermValue(t, a)];
  }

  // ---------- the machine computes it ----------

  lemma {:induction false} TermTallySize<V>(t: Term, s: Tally<V>, a: Arithmetic<V>)
    ensures |TermTally(t, s, a).nums| <= |s.nums| + 1
  {
    if t.MulDiv? {
      TermTallySize(t.left, s, a);
    }
  }

  lemma {:induction false} ExprTallySize<V>(e: Expr, a: Arithmetic<V>)
    ensures |ExprTally(e, a).nums| <= 1
  {
    match e
    case Single(t) => TermTallySize(t, Tally([], []), a);
    case AddSub(r, op, t) =>
      ExprTallySize(r, a);
      TermTallySize(t, ExprTally(r, a), a);
  }

  // One reduction is one operator, left operand first.
  lemma ReduceOperates<V>(s: Tally<V>, ops: seq<Oper>, op: Oper, a: Arithmetic<V>)
    requires |s.nums| <= MAX_SIZE
    ensures var r := Operated(s, op, Flip(a));
            Reduce(Machine(s.nums, ops + [op], s.out), a) == Machine(r.nums, ops, r.out)
  {
    var k := |s.nums|;
    assert (ops + [op])[..|ops|] == ops;
    if k >= 2 {
      assert Popped(Popped(s.nums)) == s.nums[..k - 2] && s.out + [] + [] + [] == s.out;
    } else if k == 1 {
      assert Popped(s.nums) == [] && s.out + [] + [StackEmpty] + [] == s.out + [StackEmpty];
    } else {
      assert s.out + [StackEmpty] + [StackEmpty] + [] == s.out + [StackEmpty, StackEmpty];
    }
  }

  // Nothing stacked binds as tightly as * and /.
  predicate Loose(ops: seq<Oper>) {
    ops == [] || (|ops| == 1 && Priority(ops[0]) == 0)
  }

  function Loaded<V>(s: Tally<V>, ops: seq<Oper>): Machine<V> {
    Machine(s.nums, ops, s.out)
  }

  lemma LooseStays<V>(s: Tally<V>, ops: seq<Oper>, a: Arithmetic<V>)
    requires Loose(ops)
    ensures ReduceWhile(Loaded(s, ops), 1, a) == Loaded(s, ops)
  {
  }

  lemma ReduceTop1<V>(s: Tally<V>, ops: seq<Oper>, op: Oper, p: int, a: Arithmetic<V>)
    requires |s.nums| <= MAX_SIZE && p <= Priority(op)
    ensures ReduceWhile(Loaded(s, ops + [op]), p, a) == ReduceWhile(Loaded(Operated(s, op, Flip(a)), ops), p, a)
  {
    var m := Loaded(s, ops + [op]);
    assert m.ops[|m.ops| - 1] == op;
    ReduceOperates(s, ops, op, a);
    ReduceWhileStep(m, p, a);
  }

  // Reading a number, present or absent.
  lemma ItemRuns<V>(n: string, s: Tally<V>, ops: seq<Oper>, a: Arithmetic<V>)
    requires |s.nums| < MAX_SIZE
    ensures Run(Loaded(s, ops), Item(n), a) == Loaded(Entered(s, n, Flip(a)), ops)
  {
    if n != "" {
      RunOne(Loaded(s, ops), Num(n), a);
      assert s.out + [] == s.out;
    }
  }

  lemma RunOne<V>(m: Machine<V>, t: Token, a: Arithmetic<V>)
    ensures Run(m, [t], a) == Step(m, t, a)
  {
    RunSnoc(m, [], t, a);
    assert [] + [t] == [t];
  }

  // Reading an operator after m has been reduced as far as it asks for.
  lemma OperRuns<V>(m: Machine<V>, s: Tally<V>, ops: seq<Oper>, op: Oper, a: Arithmetic<V>)
    requires |ops| < MAX_SIZE && ReduceWhile(m, Priority(op), a) == Loaded(s, ops)
    ensures Step(m, Op(op), a) == Loaded(s, ops + [op])
  {
    assert s.out + [] == s.out;
  }

  lemma RunThree<V>(m: Machine<V>, s: seq<Token>, op: Oper, t: seq<Token>, a: Arithmetic<V>)
    ensures Run(m, s + [Op(op)] + t, a) == Run(Step(Run(m, s, a), Op(op), a), t, a)
  {
    RunSnoc(m, s, Op(op), a);
    RunAppend(m, s + [Op(op)], t, a);
  }

  lemma ProductRuns<V>(l: Term, op: Oper, n: string, s: Tally<V>, ops: seq<Oper>, a: Arithmetic<V>)
    requires |s.nums| <= 1 && Loose(ops) && Priority(op) == 1
    requires ReduceWhile(Run(Loaded(s, ops), TermTokens(l), a), 1, a) == Loaded(TermTally(l, s, Flip(a)), ops)
    ensures ReduceWhile(Run(Loaded(s, ops), TermTokens(MulDiv(l, op, n)), a), 1, a) ==
            Loaded(TermTally(MulDiv(l, op, n), s, Flip(a)), ops)
  {
    var left := TermTally(l, s, Flip(a));
    var both := Entered(left, n, Flip(a));
    TermTallySize(l, s, Flip(a));
    RunThree(Loaded(s, ops), TermTokens(l), op, Item(n), a);
    OperRuns(Run(Loaded(s, ops), TermTokens(l), a), left, ops, op, a);
    ItemRuns(n, left, ops + [op], a);
    ReduceTop1(both, ops, op, 1, a);
    LooseStays(Operated(both, op, Flip(a)), ops, a);
  }

  // Reading a product, with numbers possibly absent.
  lemma {:induction false} TermRuns<V>(t: Term, s: Tally<V>, ops: seq<Oper>, a: Arithmetic<V>)
    requires AnyTerm(t) && |s.nums| <= 1 && Loose(ops)
    ensures ReduceWhile(Run(Loaded(s, ops), TermTokens(t), a), 1, a) == Loaded(TermTally(t, s, Flip(a)), ops)
  {
    match t
    case Factor(n) =>
      ItemRuns(n, s, ops, a);
      LooseStays(Entered(s, n, Flip(a)), ops, a);
    case MulDiv(l, op, n) =>
      TermRuns(l, s, ops, a);
      ProductRuns(l, op, n, s, ops, a);
  }

  // Reading `op t` after an expression.
  lemma ReadTerm<V>(m: Machine<V>, s: Tally<V>, op: Oper, t: Term, a: Arithmetic<V>)
    requires AnyTerm(t) && Priority(op) == 0 && |s.nums| <= 1
    requires ReduceWhile(m, 0, a) == Loaded(s, [])
    ensures ReduceWhile(Run(Step(m, Op(op), a), TermTokens(t), a), 0, a) ==
            Loaded(Operated(TermTally(t, s, Flip(a)), op, Flip(a)), [])
  {
    assert [] + [op] == [op];
    OperRuns(m, s, [], op, a);
    var ran := Run(Loaded(s, [op]), TermTokens(t), a);
    TermRuns(t, s, [op], a);
    TermTallySize(t, s, Flip(a));
    ReduceTwice(ran, 1, 0, a);
    ReduceTop1(TermTally(t, s, Flip(a)), [], op, 0, a);
  }

  lemma {:induction false} ExprRuns<V>(e: Expr, a: Arithmetic<V>)
    requires AnyExpr(e)
    ensures ReduceWhile(Run(Start(), Tokens(e), a), 0, a) == Loaded(ExprTally(e, Flip(a)), [])
  {
    match e
    case Single(t) =>
      TermRuns(t, Tally([], []), [], a);
      ReduceTwice(Run(Start(), Tokens(e), a), 1, 0, a);
    case AddSub(r, op, t) =>
      ExprRuns(r, a);
      ExprTallySize(r, Flip(a));
      RunThree(Start(), Tokens(r), op, TermTokens(t), a);
      ReadTerm(Run(Start(), Tokens(r), a), ExprTally(r, Flip(a)), op, t, a);
  }

  lemma FinalOfPrint<V>(e: Expr, a: Arithmetic<V>)
    requires AnyExpr(e)
    ensures Final(Lex(Print(e)), a) == Loaded(ExprTally(e, Flip(a)), [])
  {
    LexPrint(e);
    ExprRuns(e, a);
    DrainReducesAll(Run(Start(), Tokens(e), a), a);
  }

  // Main result for every string, well-formed or not: it is the text of one expression whose numbers
  // may be absent, and the machine ends with that expression's tally, messages included.
  lemma EveryStringComputes<V>(exp: string, a: Arithmetic<V>)
    ensures AnyExpr(Read(exp)) && Print(Read(exp)) == exp
    ensures Final(Lex(exp), a) == Loaded(ExprTally(Read(exp), Flip(a)), [])
  {
    ReadPrints(exp);
    FinalOfPrint(Read(exp), a);
  }

  // Main result: the printed form of any expression evaluates to its value, and nothing is reported.
  lemma CalculatorComputes<V(!new)>(e: Expr, a: Arithmetic<V>)
    requires GoodExpr(e)
    ensures Final(Lex(Print(e)), a) == Machine([Value(e, Flip(a))], [], [])
    ensures Commutative(a) ==> Final(Lex(Print(e)), a) == Machine([Value(e, a)], [], [])
  {
    GoodIsAny(e);
    FinalOfPrint(e, a);
    ExprTallyValue(e, Flip(a));
    if Commutative(a) {
      FlipHarmless(e, a);
    }
  }

  lemma {:induction false} TermFlipHarmless<V(!new)>(t: Term, a: Arithmetic<V>)
    requires Commutative(a)
    ensures TermValue(t, Flip(a)) == TermValue(t, a)
  {
    if t.MulDiv? {
      TermFlipHarmless(t.left, a);
    }
  }

  lemma {:induction false} FlipHarmless<V(!new)>(e: Expr, a: Arithmetic<V>)
    requires Commutative(a)
    ensures Value(e, Flip(a)) == Value(e, a)
  {
    TermFlipHarmless(e.term, a);
    if e.AddSub? {
      FlipHarmless(e.rest, a);
    }
  }

  // ---------- operators with an operand missing ----------

  // An absent number as null.
  function AbsentIsNull<V>(a: Arithmetic<V>): Arithmetic<V> {
    a.(number := s => if s == "" then a.missing else a.number(s))
  }

  // The expression with an operator in front and an absent number before that.
  function LeadTerm(op: Oper, t: Term): Term {
    match t
    case Factor(n) => MulDiv(Factor(""), op, n)
    case MulDiv(l, o, n) => MulDiv(LeadTerm(op, l), o, n)
  }

  function Lead(op: Oper, e: Expr): Expr {
    match e
    case Single(t) => if Priority(op) == 1 then Single(LeadTerm(op, t)) else AddSub(Single(Factor("")), op, t)
    case AddSub(r, o, t) => AddSub(Lead(op, r), o, t)
  }

  lemma {:induction false} LeadTermPrints(op: Oper, t: Term)
    requires GoodTerm(t) && Priority(op) == 1
    ensures AnyTerm(LeadTerm(op, t)) && PrintTerm(LeadTerm(op, t)) == [op] + PrintTerm(t)
  {
    match t
    case Factor(n) => assert "" + [op] + n == [op] + n;
    case MulDiv(l, o, n) =>
      LeadTermPrints(op, l);
      assert ([op] + PrintTerm(l)) + [o] + n == [op] + (PrintTerm(l) + [o] + n);
  }

  lemma {:induction false} LeadPrints(op: Oper, e: Expr)
    requires GoodExpr(e)
    ensures AnyExpr(Lead(op, e)) && Print(Lead(op, e)) == [op] + Print(e)
  {
    GoodTermIsAny(e.term);
    match e
    case Single(t) =>
      if Priority(op) == 1 {
        LeadTermPrints(op, t);
      } else {
        assert "" + [op] + PrintTerm(t) == [op] + PrintTerm(t);
      }
    case AddSub(r, o, t) =>
      LeadPrints(op, r);
      assert ([op] + Print(r)) + [o] + PrintTerm(t) == [op] + (Print(r) + [o] + PrintTerm(t));
  }

  lemma {:induction false} AbsentUnused<V>(t: Term, a: Arithmetic<V>)
    requires GoodTerm(t)
    ensures TermValue(t, AbsentIsNull(a)) == TermValue(t, a)
  {
    if t.MulDiv? {
      AbsentUnused(t.left, a);
    }
  }

  lemma {:induction false} LeadTermTally<V>(op: Oper, t: Term, a: Arithmetic<V>)
    requires GoodTerm(t)
    ensures TermTally(LeadTerm(op, t), Tally([], []), a) ==
            Tally([TermValue(LeadTerm(op, t), AbsentIsNull(a))], [StackEmpty])
  {
    match t
    case Factor(n) =>
      assert [] + [a.number(n)] == [a.number(n)] && [] + [StackEmpty] == [StackEmpty];
    case MulDiv(l, o, n) =>
      LeadTermTally(op, l, a);
      var v := TermValue(LeadTerm(op, l), AbsentIsNull(a));
      assert [v] + [a.number(n)] == [v, a.number(n)];
  }

  lemma {:induction false} LeadTally<V>(op: Oper, e: Expr, a: Arithmetic<V>)
    requires GoodExpr(e)
    ensures ExprTally(Lead(op, e), a) == Tally([Value(Lead(op, e), AbsentIsNull(a))], [StackEmpty])
  {
    AbsentUnused(e.term, a);
    match e
    case Single(t) =>
      if Priority(op) == 1 {
        LeadTermTally(op, t, a);
      } else {
        TermTallyValue(t, Tally([], []), a);
        assert [] + [TermValue(t, a)] == [TermValue(t, a)] && [] + [StackEmpty] == [StackEmpty];
      }
    case AddSub(r, o, t) =>
      LeadTally(op, r, a);
      TermTallyValue(t, ExprTally(Lead(op, r), a), a);
      var v := Value(Lead(op, r), AbsentIsNull(a));
      assert [v] + [TermValue(t, a)] == [v, TermValue(t, a)];
  }

  // An operator in front has null for its left operand: - and + take the first product from or to it,
  // * and / the first number; the rest follows left-associatively, after one message.
  lemma LeadingOperator<V>(op: Oper, e: Expr, exp: string, a: Arithmetic<V>)
    requires GoodExpr(e) && exp == [op] + Print(e)
    ensures Final(Lex(exp), a) ==
            Machine([Value(Lead(op, e), AbsentIsNull(Flip(a)))], [], [StackEmpty])
  {
    LeadPrints(op, e);
    FinalOfPrint(Lead(op, e), a);
    LeadTally(op, e, Flip(a));
  }

  // The value of an expression followed by a dangling operator. The operator takes the number on its
  // left as its RIGHT operand, and the one before that, or null, as its left.
  function Dangling<V>(e: Expr, op: Oper, a: Arithmetic<V>): V {
    match e
    case AddSub(r, o, t) =>
      if Priority(op) == 1
      then Apply(a.missing, o, Apply(Value(r, a), op, TermValue(t, a), a), a)
      else Apply(a.missing, op, Value(e, a), a)
    case Single(_) => Apply(a.missing, op, Value(e, a), a)
  }

  lemma TrailingOperator<V>(e: Expr, op: Oper, exp: string, a: Arithmetic<V>)
    requires GoodExpr(e) && exp == Print(e) + [op]
    ensures Final(Lex(exp), a) == Machine([Dangling(e, op, Flip(a))], [], [StackEmpty])
  {
    GoodIsAny(e);
    AttachPrints(e, op);
    FinalOfPrint(Attach(e, op, ""), a);
    DanglingTally(e, op, Flip(a));
  }

  lemma DanglingTally<V>(e: Expr, op: Oper, a: Arithmetic<V>)
    requires GoodExpr(e)
    ensures ExprTally(Attach(e, op, ""), a) == Tally([Dangling(e, op, a)], [StackEmpty])
  {
    ExprTallyValue(e, a);
    assert [] + [StackEmpty] == [StackEmpty];
    if Priority(op) == 1 && e.AddSub? {
      var s := ExprTally(e.rest, a);
      ExprTallyValue(e.rest, a);
      TermTallyValue(e.term, s, a);
      var x, y := Value(e.rest, a), TermValue(e.term, a);
      assert [x] + [y] == [x, y] && [] + [Apply(x, op, y, a)] == [Apply(x, op, y, a)];
    }
  }

  // ---------- five slots are enough for every input, well-formed or not ----------

  predicate Increasing(ops: seq<Oper>) {
    forall i, j :: 0 <= i < j < |ops| ==> Priority(ops[i]) < Priority(ops[j])
  }

  predicate Safe<V>(m: Machine<V>) {
    Increasing(m.ops) && |m.nums| <= |m.ops| + 1 && StackFull !in m.out
  }

  lemma SafeIsSmall<V>(m: Machine<V>)
    requires Safe(m)
    ensures |m.ops| <= 2 && |m.nums| <= 3
  {
    if |m.ops| >= 2 {
      var first, second, last := Priority(m.ops[0]), Priority(m.ops[1]), Priority(m.ops[|m.ops| - 1]);
    }
  }

  lemma ReduceSafe<V>(m: Machine<V>, a: Arithmetic<V>)
    requires Safe(m) && m.ops != []
    ensures Safe(Reduce(m, a)) && Reduce(m, a).nums != []
    ensures |Reduce(m, a).nums| <= |m.ops|
  {
    SafeIsSmall(m);
  }

  lemma {:induction false} ReduceWhileSafe<V>(m: Machine<V>, p: int, a: Arithmetic<V>)
    requires Safe(m)
    ensures var r := ReduceWhile(m, p, a);
            Safe(r) && (m.nums != [] ==> r.nums != []) && (r.ops == [] || Priority(r.ops[|r.ops| - 1]) < p)
    decreases |m.ops|
  {
    if m.ops == [] {
    } else if p <= Priority(m.ops[|m.ops| - 1]) {
      ReduceSafe(m, a);
      ReduceWhileSafe(Reduce(m, a), p, a);
    } else {
      assert ReduceWhile(m, p, a) == m;
    }
  }

  lemma LowTopIsAlone(ops: seq<Oper>)
    requires Increasing(ops) && (ops == [] || Priority(ops[|ops| - 1]) < 1)
    ensures |ops| <= 1
  {
    if ops != [] {
      var first, last := Priority(ops[0]), Priority(ops[|ops| - 1]);
    }
  }

  lemma StepSafe<V>(m: Machine<V>, t: Token, a: Arithmetic<V>)
    requires Safe(m) && (t.Num? ==> |m.nums| <= |m.ops|)
    ensures var r := Step(m, t, a);
            && Safe(r) && (t.Op? ==> |r.nums| <= |r.ops|)
            && (m.nums != [] || t.Num? ==> r.nums != [])
            && (t.Op? ==> r.ops != [])
  {
    SafeIsSmall(m);
    if t.Op? {
      ReduceWhileSafe(m, Priority(t.op), a);
      LowTopIsAlone(ReduceWhile(m, Priority(t.op), a).ops);
    }
  }

  // For every string, not only the well-formed ones: the stacks never exceed two operators and
  // three numbers, so no push is ever dropped.
  lemma {:induction false} RunSafe<V>(toks: seq<Token>, a: Arithmetic<V>)
    requires Lexed(toks)
    ensures var m := Run(Start(), toks, a);
            && Safe(m) && |m.ops| <= 2 && |m.nums| <= 3
            && (!EndsWithNum(toks) ==> |m.nums| <= |m.ops|)
            && (toks != [] ==> m.nums != [] || m.ops != [])
  {
    if toks != [] {
      var init, last := toks[..|toks| - 1], toks[|toks| - 1];
      RunSafe(init, a);
      StepSafe(Run(Start(), init, a), last, a);
      SafeIsSmall(Run(Start(), toks, a));
    }
  }

  lemma {:induction false} DrainSafe<V>(m: Machine<V>, a: Arithmetic<V>)
    requires Safe(m) && (m.nums != [] || m.ops != [])
    ensures Safe(Drain(m, a)) && |Drain(m, a).nums| == 1 && Drain(m, a).ops == []
    decreases |m.ops|
  {
    if m.ops != [] {
      ReduceSafe(m, a);
      DrainSafe(Reduce(m, a), a);
    }
  }

  // Every non-empty expression leaves exactly one number and never overflows a stack.
  lemma AlwaysOneAnswer<V>(exp: string, a: Arithmetic<V>)
    requires exp != ""
    ensures |Final(Lex(exp), a).nums| == 1 && Final(Lex(exp), a).ops == []
    ensures StackFull !in Final(Lex(exp), a).out
  {
    LexMeaning(exp);
    RunSafe(Lex(exp), a);
    DrainSafe(Run(Start(), Lex(exp), a), a);
  }

  // ---------- an empty stack is popped exactly on the ill-formed inputs ----------

  function Balance(toks: seq<Token>): int {
    if toks == [] then 0
    else Balance(toks[..|toks| - 1]) + if toks[|toks| - 1].Num? then 1 else -1
  }

  function Height<V>(m: Machine<V>): int {
    |m.nums| - |m.ops|
  }

  lemma {:induction false} ReduceWhileQuiet<V>(m: Machine<V>, p: int, a: Arithmetic<V>)
    requires ReduceWhile(m, p, a).out == []
    ensures m.out == [] && Height(ReduceWhile(m, p, a)) == Height(m)
    decreases |m.ops|
  {
    if m.ops != [] && p <= Priority(m.ops[|m.ops| - 1]) {
      ReduceWhileQuiet(Reduce(m, a), p, a);
    }
  }

  lemma {:induction false} RunQuiet<V>(toks: seq<Token>, a: Arithmetic<V>)
    requires Run(Start(), toks, a).out == []
    ensures Height(Run(Start(), toks, a)) == Balance(toks)
  {
    if toks != [] {
      var m, last := Run(Start(), toks[..|toks| - 1], a), toks[|toks| - 1];
      if last.Op? {
        ReduceWhileQuiet(m, Priority(last.op), a);
      }
      RunQuiet(toks[..|toks| - 1], a);
    }
  }

  // Numbers are never adjacent, so one number more than operators leaves only one shape.
  lemma {:induction false} BalancedAlternates(toks: seq<Token>)
    requires Lexed(toks)
    ensures Balance(toks) <= if EndsWithNum(toks) then 1 else 0
    ensures Balance(toks) == 1 ==> Alternating(toks)
    ensures Balance(toks) == 0 && !EndsWithNum(toks) && toks != [] ==> Alternating(toks[..|toks| - 1])
  {
    if toks != [] {
      BalancedAlternates(toks[..|toks| - 1]);
      assert |toks| >= 2 ==> toks[..|toks| - 1][..|toks| - 2] == toks[..|toks| - 2];
    }
  }

  // Without a message there is one number more than operators.
  lemma QuietIsBalanced<V>(toks: seq<Token>, a: Arithmetic<V>)
    requires Lexed(toks) && toks != [] && ReduceWhile(Run(Start(), toks, a), 0, a).out == []
    ensures Balance(toks) == 1
  {
    var m := Run(Start(), toks, a);
    ReduceWhileQuiet(m, 0, a);
    RunQuiet(toks, a);
    RunSafe(toks, a);
    DrainReducesAll(m, a);
    DrainSafe(m, a);
  }

  ghost predicate WellFormed(exp: string) {
    exists e :: GoodExpr(e) && Print(e) == exp
  }

  lemma QuietMeansWellFormed<V>(exp: string, a: Arithmetic<V>)
    requires exp != "" && Final(Lex(exp), a).out == []
    ensures WellFormed(exp)
  {
    var toks := Lex(exp);
    LexMeaning(exp);
    DrainReducesAll(Run(Start(), toks, a), a);
    QuietIsBalanced(toks, a);
    BalancedAlternates(toks);
    var e := Parse(toks);
    TokensOfParse(toks);
    GoodIsAny(e);
    ExprText(e);
    assert GoodExpr(e) && Print(e) == exp;
  }

  lemma WellFormedIsQuiet<V>(exp: string, a: Arithmetic<V>)
    requires WellFormed(exp)
    ensures Final(Lex(exp), a).out == []
  {
    var e :| GoodExpr(e) && Print(e) == exp;
    GoodIsAny(e);
    FinalOfPrint(e, a);
    ExprTallyValue(e, Flip(a));
  }

  // Main result: the run is free of messages exactly when the input is the text of an expression.
  lemma QuietIffWellFormed<V>(exp: string, a: Arithmetic<V>)
    requires exp != ""
    ensures Final(Lex(exp), a).out == [] <==> WellFormed(exp)
  {
    if Final(Lex(exp), a).out == [] {
      QuietMeansWellFormed(exp, a);
    }
    if WellFormed(exp) {
      WellFormedIsQuiet(exp, a);
    }
  }
}
