// The two-stack infix calculator of xampp/www/jisuan.php.
//
// The arithmetic itself is a parameter (Arithmetic), so the results hold for PHP's
// integers, floats and numeric strings alike: they are about which operands meet
// which operator, and in which order.

module Calculator {
  import opened Options

  // ---------- characters, tokens and the arithmetic parameter ----------

  predicate IsOper(ch: char) {
    ch == '-' || ch == '+' || ch == '*' || ch == '/'
  }

  type Oper = ch: char | IsOper(ch) witness '+'

  function Priority(op: Oper): int {
    if op == '*' || op == '/' then 1 else 0
  }

  // What PHP does with the operands; `missing` is the null that popping an empty stack yields.
  datatype Arithmetic<!V> = Arithmetic(
    number: string -> V,
    add: (V, V) -> V,
    sub: (V, V) -> V,
    mul: (V, V) -> V,
    div: (V, V) -> V,
    missing: V)

  // num1 is popped first, so it is the RIGHT operand; + and * are called with it in front.
  function GetResult<V>(num1: V, num2: V, oper: Oper, a: Arithmetic<V>): V {
    match oper
    case '+' => a.add(num1, num2)
    case '-' => a.sub(num2, num1)
    case '*' => a.mul(num1, num2)
    case '/' => a.div(num2, num1)
  }

  datatype Token = Num(text: string) | Op(op: Oper)

  // ---------- the bounded stack ----------

  const MAX_SIZE := 5

  datatype Message = StackFull | StackEmpty

  function Top<T>(s: seq<T>): Option<T> {
    if s == [] then None else Some(s[|s| - 1])
  }

  function Popped<T>(s: seq<T>): seq<T> {
    if s == [] then [] else s[..|s| - 1]
  }

  function Pushed<T>(s: seq<T>, v: T): seq<T> {
    if |s| == MAX_SIZE then s else s + [v]
  }

  function PopNote<T>(s: seq<T>): seq<Message> {
    if s == [] then [StackEmpty] else []
  }

  function PushNote<T>(s: seq<T>): seq<Message> {
    if |s| == MAX_SIZE then [StackFull] else []
  }

  // The page both stacks echo to.
  class Page {
    var out: seq<Message>

    constructor ()
      ensures out == []
    {
      out := [];
    }
  }

  class MyStack<T> {
    var top: int
    var stack: map<int, T>
    const page: Page

    ghost predicate Valid()
      reads this
    {
      -1 <= top < MAX_SIZE && forall i :: 0 <= i <= top ==> i in stack
    }

    ghost function Contents(): (s: seq<T>)
      requires Valid()
      reads this
    {
      seq(top + 1, i requires 0 <= i <= top reads this requires i in stack => stack[i])
    }

    constructor (page: Page)
      ensures Valid() && Contents() == [] && this.page == page
    {
      this.top, this.stack, this.page := -1, map[], page;
    }

    method Push(val: T)
      requires Valid()
      modifies this, page
      ensures Valid()
      ensures Contents() == Pushed(old(Contents()), val)
      ensures page.out == old(page.out) + PushNote(old(Contents()))
      ensures if |old(Contents())| == 5 then Contents() == old(Contents()) && page.out == old(page.out) + [StackFull]
              else Contents() == old(Contents()) + [val] && page.out == old(page.out)
    {
      if top == MAX_SIZE - 1 {
        page.out := page.out + [StackFull];
        return;
      }
      top := top + 1;
      stack := stack[top := val];
    }

    method Pop() returns (val: Option<T>)
      requires Valid()
      modifies this, page
      ensures Valid()
      ensures val == Top(old(Contents()))
      ensures Contents() == Popped(old(Contents()))
      ensures page.out == old(page.out) + PopNote(old(Contents()))
      ensures if old(Contents()) == [] then val == None && Contents() == [] && page.out == old(page.out) + [StackEmpty]
              else val.Some? && old(Contents()) == Contents() + [val.value] && page.out == old(page.out)
    {
      if top == -1 {
        page.out := page.out + [StackEmpty];
        return None;
      }
      val := Some(stack[top]);
      top := top - 1;
    }

    // Reading below the bottom gives PHP's null, here None.
    function GetTop(): (val: Option<T>)
      requires Valid()
      reads this
      ensures val == Top(Contents())
    {
      if top >= 0 then Some(stack[top]) else None
    }

    predicate IsEmpty()
      requires Valid()
      reads this
      ensures IsEmpty() <==> Contents() == []
    {
      top == -1
    }
  }

  // ---------- the machine as a function of the tokens ----------

  datatype Machine<V> = Machine(nums: seq<V>, ops: seq<Oper>, out: seq<Message>)

  function Operand<V>(nums: seq<V>, a: Arithmetic<V>): V {
    Top(nums).GetOr(a.missing)
  }

  // One pass of the body shared by the reduce and the drain loop.
  function Reduce<V>(m: Machine<V>, a: Arithmetic<V>): Machine<V>
    requires m.ops != []
  {
    var rest := Popped(m.nums);
    var left := Popped(rest);
    var res := GetResult(Operand(m.nums, a), Operand(rest, a), m.ops[|m.ops| - 1], a);
    Machine(Pushed(left, res), Popped(m.ops), m.out + PopNote(m.nums) + PopNote(rest) + PushNote(left))
  }

  function ReduceWhile<V>(m: Machine<V>, priority: int, a: Arithmetic<V>): Machine<V>
    decreases |m.ops|
  {
    if m.ops != [] && priority <= Priority(m.ops[|m.ops| - 1])
    then ReduceWhile(Reduce(m, a), priority, a)
    else m
  }

  function Drain<V>(m: Machine<V>, a: Arithmetic<V>): Machine<V>
    decreases |m.ops|
  {
    if m.ops == [] then m else Drain(Reduce(m, a), a)
  }

  function Step<V>(m: Machine<V>, t: Token, a: Arithmetic<V>): Machine<V> {
    match t
    case Num(text) => Machine(Pushed(m.nums, a.number(text)), m.ops, m.out + PushNote(m.nums))
    case Op(op) =>
      var r := ReduceWhile(m, Priority(op), a);
      Machine(r.nums, Pushed(r.ops, op), r.out + PushNote(r.ops))
  }

  function Run<V>(m: Machine<V>, toks: seq<Token>, a: Arithmetic<V>): Machine<V> {
    if toks == [] then m else Step(Run(m, toks[..|toks| - 1], a), toks[|toks| - 1], a)
  }

  function Start<V>(): Machine<V> {
    Machine([], [], [])
  }

  function Final<V>(toks: seq<Token>, a: Arithmetic<V>): Machine<V> {
    Drain(Run(Start(), toks, a), a)
  }

  // ---------- tokens of a string ----------

  function Text(t: Token): string {
    match t
    case Num(text) => text
    case Op(op) => [op]
  }

  function Unlex(toks: seq<Token>): string {
    if toks == [] then "" else Unlex(toks[..|toks| - 1]) + Text(toks[|toks| - 1])
  }

  predicate NoOper(s: string) {
    forall i :: 0 <= i < |s| ==> !IsOper(s[i])
  }

  // Numbers are non-empty, hold no operator character, and are never adjacent: since the
  // neighbours of a number are operators, each number is a maximal run.
  predicate Lexed(toks: seq<Token>) {
    toks == [] ||
    var init, last := toks[..|toks| - 1], toks[|toks| - 1];
    Lexed(init) && (last.Num? ==> last.text != "" && NoOper(last.text) && !EndsWithNum(init))
  }

  predicate EndsWithNum(toks: seq<Token>) {
    toks != [] && toks[|toks| - 1].Num?
  }

  // Appends one character to a token list.
  function Extend(toks: seq<Token>, ch: char): seq<Token> {
    if IsOper(ch) then toks + [Op(ch)]
    else if EndsWithNum(toks)
    then toks[..|toks| - 1] + [Num(toks[|toks| - 1].text + [ch])]
    else toks + [Num([ch])]
  }

  function Lex(s: string): seq<Token> {
    if s == "" then [] else Extend(Lex(s[..|s| - 1]), s[|s| - 1])
  }

  lemma Snoc(toks: seq<Token>, t: Token)
    ensures Unlex(toks + [t]) == Unlex(toks) + Text(t)
    ensures Lexed(toks + [t]) <==>
            Lexed(toks) && (t.Num? ==> t.text != "" && NoOper(t.text) && !EndsWithNum(toks))
  {
    assert (toks + [t])[..|toks|] == toks;
  }

  lemma ExtendMeaning(toks: seq<Token>, ch: char)
    requires Lexed(toks)
    ensures Lexed(Extend(toks, ch)) && Unlex(Extend(toks, ch)) == Unlex(toks) + [ch]
  {
    if !IsOper(ch) && EndsWithNum(toks) {
      var init, text := toks[..|toks| - 1], toks[|toks| - 1].text;
      Snoc(init, Num(text + [ch]));
      assert (Unlex(init) + text) + [ch] == Unlex(init) + (text + [ch]);
    } else {
      Snoc(toks, if IsOper(ch) then Op(ch) else Num([ch]));
    }
  }

  lemma {:induction false} LexMeaning(s: string)
    ensures Lexed(Lex(s)) && Unlex(Lex(s)) == s
  {
    if s != "" {
      var init, last := s[..|s| - 1], s[|s| - 1];
      LexMeaning(init);
      ExtendMeaning(Lex(init), last);
      assert init + [last] == s;
    }
  }

  // Takes the last character off a token list: the inverse of Extend.
  lemma Shorten(toks: seq<Token>) returns (shorter: seq<Token>, ch: char)
    requires Lexed(toks) && toks != []
    ensures Lexed(shorter) && Extend(shorter, ch) == toks
    ensures Unlex(toks) == Unlex(shorter) + [ch]
  {
    var init, last := toks[..|toks| - 1], toks[|toks| - 1];
    if last.Num? && |last.text| > 1 {
      var cut := last.text[..|last.text| - 1];
      ch := last.text[|last.text| - 1];
      assert last.text == cut + [ch];
      shorter := init + [Num(cut)];
      Snoc(init, Num(cut));
      LongerNumber(init, cut, ch);
    } else {
      ch := Text(last)[0];
      shorter := init;
      assert Text(last) == [ch];
    }
    assert toks == init + [last];
    ExtendMeaning(shorter, ch);
  }

  lemma LongerNumber(init: seq<Token>, text: string, ch: char)
    requires !IsOper(ch)
    ensures Extend(init + [Num(text)], ch) == init + [Num(text + [ch])]
  {
    assert (init + [Num(text)])[..|init|] == init;
  }

  // The token list of a string is unique, so "the numbers are the maximal runs" fixes it.
  lemma {:induction false} LexUnique(toks: seq<Token>)
    requires Lexed(toks)
    ensures Lex(Unlex(toks)) == toks
    decreases |Unlex(toks)|
  {
    if toks != [] {
      var shorter, ch := Shorten(toks);
      LexUnique(shorter);
      assert Unlex(toks)[..|Unlex(toks)| - 1] == Unlex(shorter);
    }
  }

  // ---------- the page's program ----------

  ghost predicate Shows<V>(nums: MyStack<V>, opers: MyStack<Oper>, m: Machine<V>)
    reads nums, opers, nums.page
  {
    && nums.Valid() && opers.Valid() && nums.page == opers.page
    && m == Machine(nums.Contents(), opers.Contents(), nums.page.out)
  }

  // The five statements that both loops share: pop two numbers and an operator, push the result.
  method ReduceTop<V>(numsStack: MyStack<V>, operStack: MyStack<Oper>, a: Arithmetic<V>, ghost m: Machine<V>)
    requires numsStack as object != operStack && Shows(numsStack, operStack, m) && m.ops != []
    modifies numsStack, operStack, numsStack.page
    ensures Shows(numsStack, operStack, Reduce(m, a))
  {
    var num1 := numsStack.Pop();
    var num2 := numsStack.Pop();
    var oper := operStack.Pop();
    assert numsStack.Contents() == Popped(Popped(m.nums)) && operStack.Contents() == Popped(m.ops);
    assert numsStack.page.out == m.out + PopNote(m.nums) + PopNote(Popped(m.nums));
    var res := GetResult(num1.GetOr(a.missing), num2.GetOr(a.missing), oper.value, a);
    numsStack.Push(res);
    assert operStack.Contents() == Popped(m.ops);
  }

  lemma ReduceWhileStep<V>(m: Machine<V>, priority: int, a: Arithmetic<V>)
    requires m.ops != [] && priority <= Priority(m.ops[|m.ops| - 1])
    ensures ReduceWhile(m, priority, a) == ReduceWhile(Reduce(m, a), priority, a)
  {
  }

  // What the scan does with an operator: reduce while the stacked one binds as tightly, then stack it.
  method ReadOperator<V>(numsStack: MyStack<V>, operStack: MyStack<Oper>, ch: Oper,
                         a: Arithmetic<V>, ghost start: Machine<V>)
    requires numsStack as object != operStack && Shows(numsStack, operStack, start)
    modifies numsStack, operStack, numsStack.page
    ensures Shows(numsStack, operStack, Step(start, Op(ch), a))
  {
    if operStack.IsEmpty() {
      operStack.Push(ch);
    } else {
      ghost var m := start;
      while !operStack.IsEmpty() && Priority(ch) <= Priority(operStack.GetTop().value)
        invariant Shows(numsStack, operStack, m)
        invariant ReduceWhile(m, Priority(ch), a) == ReduceWhile(start, Priority(ch), a)
        decreases |m.ops|
      {
        ReduceWhileStep(m, Priority(ch), a);
        ReduceTop(numsStack, operStack, a, m);
        m := Reduce(m, a);
      }
      assert ReduceWhile(start, Priority(ch), a) == m;
      operStack.Push(ch);
    }
  }

  method DrainStacks<V>(numsStack: MyStack<V>, operStack: MyStack<Oper>,
                        a: Arithmetic<V>, ghost start: Machine<V>)
    requires numsStack as object != operStack && Shows(numsStack, operStack, start)
    modifies numsStack, operStack, numsStack.page
    ensures Shows(numsStack, operStack, Drain(start, a))
  {
    ghost var m := start;
    while !operStack.IsEmpty()
      invariant Shows(numsStack, operStack, m)
      invariant Drain(m, a) == Drain(start, a)
      decreases |m.ops|
    {
      ReduceTop(numsStack, operStack, a, m);
      m := Reduce(m, a);
    }
  }

  lemma RunSnoc<V>(m: Machine<V>, toks: seq<Token>, t: Token, a: Arithmetic<V>)
    ensures Run(m, toks + [t], a) == Step(Run(m, toks, a), t, a)
  {
    assert (toks + [t])[..|toks|] == toks;
  }

  // How far the scan is when `seen` has been read and `rest` is next: `toks` are pushed, `keepNum`
  // is collected but not pushed yet.
  predicate Scanned(seen: string, rest: string, toks: seq<Token>, keepNum: string) {
    && Lex(seen) == Collected(toks, keepNum)
    && (keepNum == "" && EndsWithNum(toks) ==> rest == "" || IsOper(rest[0]))
    && (keepNum != "" ==> rest == "" || !IsOper(rest[0]))
  }

  function Collected(toks: seq<Token>, keepNum: string): seq<Token> {
    if keepNum == "" then toks else toks + [Num(keepNum)]
  }

  lemma LexSnoc(seen: string, ch: char)
    ensures Lex(seen + [ch]) == Extend(Lex(seen), ch)
  {
    assert (seen + [ch])[..|seen|] == seen;
  }

  lemma ScanOper(seen: string, ch: Oper, rest: string, toks: seq<Token>, keepNum: string)
    requires Scanned(seen, [ch] + rest, toks, keepNum)
    ensures Scanned(seen + [ch], rest, toks + [Op(ch)], "") && keepNum == ""
  {
    LexSnoc(seen, ch);
  }

  lemma LexDigit(seen: string, ch: char, rest: string, toks: seq<Token>, keepNum: string)
    requires Scanned(seen, [ch] + rest, toks, keepNum) && !IsOper(ch)
    ensures Lex(seen + [ch]) == toks + [Num(keepNum + [ch])]
  {
    LexSnoc(seen, ch);
    assert (toks + [Num(keepNum)])[..|toks|] == toks;
    assert keepNum == "" ==> keepNum + [ch] == [ch];
  }

  // `keepNum` grows by one character and goes on.
  lemma ScanDigit(seen: string, ch: char, rest: string, toks: seq<Token>, keepNum: string)
    requires Scanned(seen, [ch] + rest, toks, keepNum) && !IsOper(ch)
    requires rest != "" && !IsOper(rest[0])
    ensures Scanned(seen + [ch], rest, toks, keepNum + [ch])
  {
    LexDigit(seen, ch, rest, toks, keepNum);
  }

  // `keepNum` grows by one character and is pushed: the expression or the number ends here.
  lemma ScanLastDigit(seen: string, ch: char, rest: string, toks: seq<Token>, keepNum: string)
    requires Scanned(seen, [ch] + rest, toks, keepNum) && !IsOper(ch)
    requires rest == "" || IsOper(rest[0])
    ensures Scanned(seen + [ch], rest, toks + [Num(keepNum + [ch])], "")
  {
    LexDigit(seen, ch, rest, toks, keepNum);
  }

  lemma ReadNext(seen: string, rest: string, exp: string)
    requires seen + rest == exp && |seen| < |exp|
    ensures rest == [exp[|seen|]] + rest[1..] && (seen + [exp[|seen|]]) + rest[1..] == exp
    ensures rest[1..] == "" <==> |seen| + 1 == |exp|
    ensures |seen| + 1 < |exp| ==> rest[1..][0] == exp[|seen| + 1]
  {
  }

  // An empty expression is excluded because the scan would run past its end for ever.
  method Evaluate<V>(exp: string, a: Arithmetic<V>) returns (answer: V, page: Page)
    requires exp != ""
    ensures fresh(page)
    ensures var m := Final(Lex(exp), a);
            answer == Operand(m.nums, a) && page.out == m.out
  {
    page := new Page();
    var numsStack := new MyStack<V>(page);
    var operStack := new MyStack<Oper>(page);
    var keepNum := "";
    var index := 0;
    ghost var toks: seq<Token> := [];
    ghost var m: Machine<V> := Start();
    ghost var seen, rest := "", exp;
    while true
      invariant 0 <= index < |exp| && seen + rest == exp && |seen| == index
      invariant fresh(page) && fresh(numsStack) && fresh(operStack)
      invariant numsStack as object != operStack && page == numsStack.page
      invariant Scanned(seen, rest, toks, keepNum)
      invariant m == Run(Start(), toks, a) && Shows(numsStack, operStack, m)
      decreases |exp| - index
    {
      var ch := exp[index];
      ghost var after := rest[1..];
      ReadNext(seen, rest, exp);
      if IsOper(ch) {
        ReadOperator(numsStack, operStack, ch, a, m);
        ScanOper(seen, ch, after, toks, keepNum);
        RunSnoc(Start(), toks, Op(ch), a);
        m, toks := Step(m, Op(ch), a), toks + [Op(ch)];
      } else {
        ghost var before := keepNum;
        keepNum := keepNum + [ch];
        ghost var token := Num(keepNum);
        if index == |exp| - 1 {
          numsStack.Push(a.number(keepNum));
          ScanLastDigit(seen, ch, after, toks, before);
          RunSnoc(Start(), toks, token, a);
          m, toks := Step(m, token, a), toks + [token];
        } else if IsOper(exp[index + 1]) {
          numsStack.Push(a.number(keepNum));
          ScanLastDigit(seen, ch, after, toks, before);
          RunSnoc(Start(), toks, token, a);
          m, toks := Step(m, token, a), toks + [token];
          keepNum := "";
        } else {
          ScanDigit(seen, ch, after, toks, before);
        }
      }
      seen, rest := seen + [ch], after;
      index := index + 1;
      if index == |exp| {
        break;
      }
    }
    assert rest == "" && seen == exp;
    DrainStacks(numsStack, operStack, a, m);
    answer := numsStack.GetTop().GetOr(a.missing);
  }
}
