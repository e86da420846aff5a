// The streaming exam parser of playground/python/parse_pdf.py: one pass over the lines, and the
// segmentation of the lines it amounts to.

module QuestionParser {
  import opened Options
  import opened PythonText

  // ---------- classified lines ----------

  datatype Category = NoCategory | SingleChoice | MultipleChoice

  // What the regular expressions say of one stripped line.
  datatype Line = Line(
    text: string,
    category: Option<Category>,
    stem: Option<(int, int)>,
    numbered: bool,
    lettered: bool,
    continuation: Option<(string, string)>,
    whole: Option<(int, string, string)>,
    start: Option<(int, string)>,
    option: Option<(string, string)>)

  // A start is matched to the end of the stripped line, so its text ends in a visible character.
  predicate WellRead(line: Line) {
    line.start.Some? ==> var t := line.start.value.1; t != "" && !IsSpace(t[|t| - 1])
  }

  const BLANK := "\U{FF08}    \U{FF09}"

  datatype Question = Question(number: int, category: Category, text: string, options: seq<string>, answer: string)

  // ---------- what a line means, given the two modes ----------

  datatype Mode = Mode(collecting: bool, stem: bool)

  datatype Event =
    | StemOpen(range: (int, int))
    | StemMore
    | Finish(text: string, answer: string)
    | Append
    | Whole(number: int, text: string, answer: string)
    | Begin(number: int, text: string)
    | Opt(letter: string, text: string)
    | Nothing

  function EventOf(mode: Mode, line: Line): Event {
    if line.stem.Some? then StemOpen(line.stem.value)
    else if mode.stem && line.text != "" && !line.numbered && !line.lettered then StemMore
    else if mode.collecting then
      if line.continuation.Some? then Finish(line.continuation.value.0, line.continuation.value.1) else Append
    else if line.whole.Some? then Whole(line.whole.value.0, line.whole.value.1, line.whole.value.2)
    else if line.start.Some? then Begin(line.start.value.0, line.start.value.1)
    else if line.option.Some? then Opt(line.option.value.0, line.option.value.1)
    else Nothing
  }

  function ModeAfter(mode: Mode, e: Event): Mode {
    match e
    case StemOpen(_) => mode.(stem := true)
    case StemMore => mode
    case Append => Mode(true, false)
    case Begin(_, _) => Mode(true, false)
    case _ => Mode(false, false)
  }

  // ---------- the first n lines ----------

  function ModeAt(lines: seq<Line>, n: nat): Mode
    requires n <= |lines|
    decreases n, 0
  {
    if n == 0 then Mode(false, false) else ModeAfter(ModeAt(lines, n - 1), EventAt(lines, n - 1))
  }

  // The event of line i depends on the lines before it through the modes only.
  function EventAt(lines: seq<Line>, i: nat): Event
    requires i < |lines|
    decreases i, 1
  {
    EventOf(ModeAt(lines, i), lines[i])
  }

  predicate Starting(e: Event) {
    e.Whole? || e.Begin?
  }

  predicate StartsAt(lines: seq<Line>, i: nat)
    requires i < |lines|
  {
    Starting(EventAt(lines, i))
  }

  // The lines that start a question, in order.
  function Starts(lines: seq<Line>, n: nat): (st: seq<nat>)
    requires n <= |lines|
    ensures forall k :: 0 <= k < |st| ==> st[k] < n && StartsAt(lines, st[k])
    ensures forall k :: 0 < k < |st| ==> st[k - 1] < st[k]
  {
    if n == 0 then [] else Starts(lines, n - 1) + if StartsAt(lines, n - 1) then [n - 1] else []
  }

  // The last category header.
  function CategoryAt(lines: seq<Line>, n: nat): Category
    requires n <= |lines|
  {
    if n == 0 then NoCategory else lines[n - 1].category.GetOr(CategoryAt(lines, n - 1))
  }

  datatype Stem = Stem(range: (int, int), text: string)

  // The last shared stem.
  function StemAt(lines: seq<Line>, n: nat): Stem
    requires n <= |lines|
  {
    if n == 0 then Stem((0, 0), "")
    else
      match EventAt(lines, n - 1)
      case StemOpen(range) => Stem(range, "")
      case StemMore => var s := StemAt(lines, n - 1); s.(text := s.text + " " + lines[n - 1].text)
      case _ => StemAt(lines, n - 1)
  }

  function Prefixed(stem: Stem, number: int, text: string): string {
    if stem.text != "" && stem.range.0 <= number <= stem.range.1
    then Strip(stem.text + " " + text)
    else Strip(text)
  }

  function OpeningText(lines: seq<Line>, s: nat): string
    requires s < |lines| && StartsAt(lines, s)
  {
    var e := EventAt(lines, s);
    Prefixed(StemAt(lines, s), e.number, if e.Whole? then e.text + BLANK else e.text)
  }

  // The text of the question started at s, as far as line n.
  function TextTo(lines: seq<Line>, s: nat, n: nat): string
    requires s < n <= |lines| && StartsAt(lines, s)
  {
    if n == s + 1 then OpeningText(lines, s)
    else
      var before := TextTo(lines, s, n - 1);
      match EventAt(lines, n - 1)
      case Finish(text, _) => before + Strip(text + BLANK)
      case Append => before + Strip(lines[n - 1].text)
      case _ => before
  }

  function AnswerTo(lines: seq<Line>, s: nat, n: nat): string
    requires s < n <= |lines| && StartsAt(lines, s)
  {
    if n == s + 1 then if EventAt(lines, s).Whole? then EventAt(lines, s).answer else ""
    else
      match EventAt(lines, n - 1)
      case Finish(_, answer) => answer
      case _ => AnswerTo(lines, s, n - 1)
  }

  // The option lines from s to n.
  function OptionsTo(lines: seq<Line>, s: nat, n: nat): seq<string>
    requires s <= n <= |lines|
  {
    if n == s then []
    else
      match EventAt(lines, n - 1)
      case Opt(letter, text) => OptionsTo(lines, s, n - 1) + [letter + "-" + Strip(text)]
      case _ => OptionsTo(lines, s, n - 1)
  }

  // ---------- the segmentation ----------

  // The question whose start is line s and whose lines end before line e; options from line `from` on.
  function Built(lines: seq<Line>, from: nat, s: nat, e: nat, category: Category): Question
    requires from <= s < e <= |lines| && StartsAt(lines, s)
  {
    Question(EventAt(lines, s).number, category, Strip(TextTo(lines, s, e)),
             OptionsTo(lines, from, e), AnswerTo(lines, s, e))
  }

  // The k-th question runs from the k-th start to the next one, or to the end. The first one also
  // gets the options before it. The category is the one current when the question is emitted: after
  // the next start's own line, or at the end.
  function Segment(lines: seq<Line>, k: nat): Question
    requires k < |Starts(lines, |lines|)|
  {
    var st := Starts(lines, |lines|);
    var from := if k == 0 then 0 else st[k];
    if k + 1 < |st| then Built(lines, from, st[k], st[k + 1], CategoryAt(lines, st[k + 1] + 1))
    else Built(lines, from, st[k], |lines|, CategoryAt(lines, |lines|))
  }

  ghost predicate AreSegments(lines: seq<Line>, qs: seq<Question>) {
    |qs| <= |Starts(lines, |lines|)| && forall k :: 0 <= k < |qs| ==> qs[k] == Segment(lines, k)
  }

  // ---------- the pass ----------

  // The last start, and the line its options are collected from.
  function LastStart(lines: seq<Line>, n: nat): (s: nat)
    requires n <= |lines| && Starts(lines, n) != []
    ensures s < n && StartsAt(lines, s)
  {
    var st := Starts(lines, n);
    st[|st| - 1]
  }

  function OptionsFrom(lines: seq<Line>, n: nat): (from: nat)
    requires n <= |lines| && Starts(lines, n) != []
    ensures from < n
  {
    if |Starts(lines, n)| == 1 then 0 else LastStart(lines, n)
  }

  // What the pass has emitted after n lines.
  function Emitted(lines: seq<Line>, n: nat): seq<Question>
    requires n <= |lines|
  {
    if n == 0 then []
    else if StartsAt(lines, n - 1) && Starts(lines, n - 1) != []
    then Emitted(lines, n - 1) + [Current(lines, n - 1, CategoryAt(lines, n))]
    else Emitted(lines, n - 1)
  }

  // The question being built after n lines.
  function Current(lines: seq<Line>, n: nat, category: Category): Question
    requires n <= |lines| && Starts(lines, n) != []
  {
    Built(lines, OptionsFrom(lines, n), LastStart(lines, n), n, category)
  }

  // ---------- the loop's variables ----------

  datatype Vars = Vars(
    questions: seq<Question>, category: Category, text: string, options: seq<string>, answer: string,
    number: int, stem: Stem, mode: Mode)

  function Flushed(v: Vars): Vars {
    if v.text == "" then v
    else v.(questions := v.questions + [Question(v.number, v.category, Strip(v.text), v.options, v.answer)],
            text := "", options := [], answer := "")
  }

  // What an event does to the variables, category and modes apart.
  function Act(v: Vars, e: Event, line: string): Vars {
    match e
    case StemOpen(range) => v.(stem := Stem(range, ""))
    case StemMore => v.(stem := v.stem.(text := v.stem.text + " " + line))
    case Finish(text, answer) => v.(text := v.text + Strip(text + BLANK), answer := answer)
    case Append => v.(text := v.text + Strip(line))
    case Whole(number, text, answer) =>
      Flushed(v).(number := number, text := Prefixed(v.stem, number, text + BLANK), answer := answer)
    case Begin(number, text) => Flushed(v).(number := number, text := Prefixed(v.stem, number, text))
    case Opt(letter, text) => v.(options := v.options + [letter + "-" + Strip(text)])
    case Nothing => v
  }

  // One iteration.
  function After(v: Vars, line: Line): Vars {
    var e := EventOf(v.mode, line);
    Act(v.(category := line.category.GetOr(v.category), mode := ModeAfter(v.mode, e)), e, line.text)
  }

  // A line that does not belong to a shared stem is read as if there were none.
  lemma LeavesStem(entry: Vars, v: Vars, line: Line)
    requires v == entry.(category := line.category.GetOr(entry.category), mode := entry.mode.(stem := false))
    requires !EventOf(entry.mode, line).StemOpen? && !EventOf(entry.mode, line).StemMore?
    ensures After(v, line) == After(entry, line)
  {
  }

  class Parser {
    var questions: seq<Question>
    var category: Category
    var text: string
    var options: seq<string>
    var answer: string
    var number: int
    var stem: string
    var stemActive: bool
    var range: (int, int)
    var collecting: bool

    ghost function Vs(): Vars
      reads this
    {
      Vars(questions, category, text, options, answer, number, Stem(range, stem), Mode(collecting, stemActive))
    }

    constructor ()
      ensures Vs() == Vars([], NoCategory, "", [], "", 0, Stem((0, 0), ""), Mode(false, false))
    {
      questions, category, text, options, answer, number := [], NoCategory, "", [], "", 0;
      stem, stemActive, range, collecting := "", false, (0, 0), false;
    }

    method Flush()
      modifies this
      ensures Vs() == Flushed(old(Vs()))
    {
      if text != "" {
        questions := questions + [Question(number, category, Strip(text), options, answer)];
        text, options, answer := "", [], "";
      }
    }

    // What both kinds of start do: emit the question before, then begin with the shared stem if the
    // number is in its range.
    method Open(newNumber: int, newText: string)
      modifies this
      ensures var v := Flushed(old(Vs()));
              Vs() == v.(number := newNumber, text := Prefixed(v.stem, newNumber, newText))
    {
      Flush();
      number := newNumber;
      if stem != "" && range.0 <= number <= range.1 {
        text := Strip(stem + " " + newText);
      } else {
        text := Strip(newText);
      }
    }

    method Continue(line: Line)
      requires collecting
      modifies this
      ensures var v := old(Vs());
              Vs() == match line.continuation
                case Some((more, ans)) =>
                  v.(text := v.text + Strip(more + BLANK), answer := ans, mode := v.mode.(collecting := false))
                case None => v.(text := v.text + Strip(line.text))
    {
      if line.continuation.Some? {
        text := text + Strip(line.continuation.value.0 + BLANK);
        answer := line.continuation.value.1;
        collecting := false;
      } else {
        text := text + Strip(line.text);
      }
    }

    // The part of the body that is reached outside shared-stem mode.
    method Read(line: Line)
      requires line.stem.None? && !stemActive && category == line.category.GetOr(category)
      modifies this
      ensures Vs() == After(old(Vs()), line)
    {
      if collecting {
        Continue(line);
        return;
      } else if line.whole.Some? {
        Open(line.whole.value.0, line.whole.value.1 + BLANK);
        answer := line.whole.value.2;
        return;
      } else if line.start.Some? {
        Open(line.start.value.0, line.start.value.1);
        collecting := true;
        return;
      }
      if line.option.Some? {
        options := options + [line.option.value.0 + "-" + Strip(line.option.value.1)];
      }
    }

    // The body of the loop.
    method Take(line: Line)
      modifies this
      ensures Vs() == After(old(Vs()), line)
    {
      ghost var entry := Vs();
      if line.category.Some? {
        category := line.category.value;
      }
      if line.stem.Some? {
        stemActive, range, stem := true, line.stem.value, "";
        return;
      }
      if stemActive {
        if line.text != "" && !line.numbered && !line.lettered {
          stem := stem + " " + line.text;
          return;
        } else {
          stemActive := false;
        }
      }
      LeavesStem(entry, Vs(), line);
      Read(line);
    }
  }

  method Parse(lines: seq<Line>) returns (questions: seq<Question>)
    requires forall i :: 0 <= i < |lines| ==> WellRead(lines[i])
    ensures |questions| == |Starts(lines, |lines|)| && AreSegments(lines, questions)
  {
    var p := new Parser();
    for n := 0 to |lines|
      invariant fresh(p) && Follows(lines, n, p.Vs())
    {
      ghost var before := p.Vs();
      p.Take(lines[n]);
      AfterFollows(lines, n, before);
    }
    p.Flush();
    questions := p.questions;
    EmittedIsSegments(lines);
  }

  // ---------- the variables follow the lines ----------

  // What the accumulating variables hold after n lines.
  predicate Holds(lines: seq<Line>, n: nat, v: Vars)
    requires n <= |lines|
  {
    if Starts(lines, n) == [] then v.text == "" && v.answer == "" && v.options == OptionsTo(lines, 0, n)
    else
      var s := LastStart(lines, n);
      && v.text == TextTo(lines, s, n) && v.text != ""
      && v.options == OptionsTo(lines, OptionsFrom(lines, n), n)
      && v.answer == AnswerTo(lines, s, n)
      && v.number == EventAt(lines, s).number
  }

  predicate Follows(lines: seq<Line>, n: nat, v: Vars)
    requires n <= |lines|
  {
    && v.mode == ModeAt(lines, n) && v.category == CategoryAt(lines, n) && v.stem == StemAt(lines, n)
    && v.questions == Emitted(lines, n)
    && Holds(lines, n, v)
  }

  lemma AfterFollows(lines: seq<Line>, n: nat, v: Vars)
    requires n < |lines| && WellRead(lines[n]) && Follows(lines, n, v)
    ensures Follows(lines, n + 1, After(v, lines[n]))
  {
    if StartsAt(lines, n) {
      StartFollows(lines, n, v);
    } else {
      InsideFollows(lines, n, v);
    }
  }

  lemma ActFrame(v: Vars, e: Event, line: string)
    ensures Act(v, e, line).mode == v.mode && Act(v, e, line).category == v.category
    ensures !Starting(e) ==> Act(v, e, line).questions == v.questions && Act(v, e, line).number == v.number
  {
  }

  // The event of line n acts on these variables.
  function Entering(lines: seq<Line>, n: nat, v: Vars): Vars
    requires n < |lines|
  {
    v.(category := CategoryAt(lines, n + 1), mode := ModeAt(lines, n + 1))
  }

  lemma AfterIsAct(lines: seq<Line>, n: nat, v: Vars)
    requires n < |lines| && v.mode == ModeAt(lines, n) && v.category == CategoryAt(lines, n)
    ensures After(v, lines[n]) == Act(Entering(lines, n, v), EventAt(lines, n), lines[n].text)
  {
  }

  lemma StemFollows(lines: seq<Line>, n: nat, v: Vars)
    requires n < |lines| && v.stem == StemAt(lines, n)
    ensures Act(v, EventAt(lines, n), lines[n].text).stem == StemAt(lines, n + 1)
  {
  }

  // A line inside a question, or before the first one.
  lemma InsideFollows(lines: seq<Line>, n: nat, v: Vars)
    requires n < |lines| && Follows(lines, n, v) && !StartsAt(lines, n)
    ensures Follows(lines, n + 1, After(v, lines[n]))
  {
    var u := Entering(lines, n, v);
    AfterIsAct(lines, n, v);
    ActFrame(u, EventAt(lines, n), lines[n].text);
    StemFollows(lines, n, u);
    InsideHolds(lines, n, u);
  }

  lemma InsideHolds(lines: seq<Line>, n: nat, v: Vars)
    requires n < |lines| && Holds(lines, n, v) && !StartsAt(lines, n)
    ensures Holds(lines, n + 1, Act(v, EventAt(lines, n), lines[n].text))
  {
    if Starts(lines, n) == [] {
      NotCollecting(lines, n);
      BeforeFirst(lines, n, v);
      OptionsFollow(lines, 0, n, v);
    } else {
      QuestionFollows(lines, n, v);
    }
  }

  // A question has been started.
  lemma QuestionFollows(lines: seq<Line>, n: nat, v: Vars)
    requires n < |lines| && Holds(lines, n, v) && !StartsAt(lines, n) && Starts(lines, n) != []
    ensures Holds(lines, n + 1, Act(v, EventAt(lines, n), lines[n].text))
  {
    ActFrame(v, EventAt(lines, n), lines[n].text);
    OptionsFollow(lines, OptionsFrom(lines, n), n, v);
    TextFollows(lines, LastStart(lines, n), n, v);
    SameQuestion(lines, n, Act(v, EventAt(lines, n), lines[n].text));
  }

  lemma SameQuestion(lines: seq<Line>, n: nat, w: Vars)
    requires n < |lines| && !StartsAt(lines, n) && Starts(lines, n) != []
    requires var s := LastStart(lines, n);
             && w.text == TextTo(lines, s, n + 1) && w.text != "" && w.answer == AnswerTo(lines, s, n + 1)
             && w.options == OptionsTo(lines, OptionsFrom(lines, n), n + 1) && w.number == EventAt(lines, s).number
    ensures Holds(lines, n + 1, w)
  {
    assert Starts(lines, n + 1) == Starts(lines, n);
  }

  // Outside collecting no line adds to a text.
  lemma BeforeFirst(lines: seq<Line>, n: nat, v: Vars)
    requires n < |lines| && !StartsAt(lines, n) && !ModeAt(lines, n).collecting
    ensures var w := Act(v, EventAt(lines, n), lines[n].text);
            w.text == v.text && w.answer == v.answer
  {
  }

  lemma OptionsFollow(lines: seq<Line>, from: nat, n: nat, v: Vars)
    requires from <= n < |lines| && !StartsAt(lines, n) && v.options == OptionsTo(lines, from, n)
    ensures Act(v, EventAt(lines, n), lines[n].text).options == OptionsTo(lines, from, n + 1)
  {
  }

  lemma TextFollows(lines: seq<Line>, s: nat, n: nat, v: Vars)
    requires s < n < |lines| && StartsAt(lines, s) && !StartsAt(lines, n)
    requires v.text == TextTo(lines, s, n) && v.answer == AnswerTo(lines, s, n) && v.text != ""
    ensures var w := Act(v, EventAt(lines, n), lines[n].text);
            w.text == TextTo(lines, s, n + 1) && w.text != "" && w.answer == AnswerTo(lines, s, n + 1)
  {
  }

  // Nothing is collected before the first start.
  lemma {:induction false} NotCollecting(lines: seq<Line>, n: nat)
    requires n <= |lines| && Starts(lines, n) == []
    ensures !ModeAt(lines, n).collecting
  {
    if n > 0 {
      NotCollecting(lines, n - 1);
    }
  }

  lemma StartFollows(lines: seq<Line>, n: nat, v: Vars)
    requires n < |lines| && WellRead(lines[n]) && Follows(lines, n, v) && StartsAt(lines, n)
    ensures Follows(lines, n + 1, After(v, lines[n]))
  {
    var u := Entering(lines, n, v);
    AfterIsAct(lines, n, v);
    ActFrame(u, EventAt(lines, n), lines[n].text);
    StemFollows(lines, n, u);
    StartEmits(lines, n, u);
    StartHolds(lines, n, u);
  }

  lemma StartEmits(lines: seq<Line>, n: nat, v: Vars)
    requires n < |lines| && Holds(lines, n, v) && StartsAt(lines, n)
    requires v.questions == Emitted(lines, n) && v.category == CategoryAt(lines, n + 1)
    ensures Act(v, EventAt(lines, n), lines[n].text).questions == Emitted(lines, n + 1)
  {
    assert Act(v, EventAt(lines, n), lines[n].text).questions == Flushed(v).questions;
    if Starts(lines, n) != [] {
      assert Flushed(v).questions == v.questions + [Current(lines, n, CategoryAt(lines, n + 1))];
    }
  }

  lemma StartHolds(lines: seq<Line>, n: nat, v: Vars)
    requires n < |lines| && WellRead(lines[n]) && Holds(lines, n, v) && v.stem == StemAt(lines, n) && StartsAt(lines, n)
    ensures Holds(lines, n + 1, Act(v, EventAt(lines, n), lines[n].text))
  {
    var w := Act(v, EventAt(lines, n), lines[n].text);
    OpeningTextVisible(lines, n);
    FlushEmpties(lines, n, v);
    StartActs(v, EventAt(lines, n), lines[n].text);
    assert Starts(lines, n + 1) == Starts(lines, n) + [n];
    assert w.text == OpeningText(lines, n);
    assert OptionsTo(lines, 0, n + 1) == OptionsTo(lines, 0, n);
    assert OptionsTo(lines, n, n + 1) == OptionsTo(lines, n, n) == [];
  }

  // Emitting clears the answer, and the options unless nothing was emitted.
  lemma FlushEmpties(lines: seq<Line>, n: nat, v: Vars)
    requires n <= |lines| && Holds(lines, n, v)
    ensures Flushed(v).answer == ""
    ensures Flushed(v).options == if Starts(lines, n) == [] then OptionsTo(lines, 0, n) else []
  {
  }

  lemma StartActs(v: Vars, e: Event, line: string)
    requires Starting(e)
    ensures var w := Act(v, e, line);
            && w.number == e.number && w.options == Flushed(v).options
            && w.text == Prefixed(v.stem, e.number, if e.Whole? then e.text + BLANK else e.text)
            && w.answer == if e.Whole? then e.answer else Flushed(v).answer
  {
  }

  lemma OpeningTextVisible(lines: seq<Line>, s: nat)
    requires s < |lines| && StartsAt(lines, s) && WellRead(lines[s])
    ensures OpeningText(lines, s) != ""
  {
    var e := EventAt(lines, s);
    var text := if e.Whole? then e.text + BLANK else e.text;
    assert !IsSpace(BLANK[|BLANK| - 1]);
    assert !IsSpace(text[|text| - 1]);
    StripKeeps(text, |text| - 1);
    var stem := StemAt(lines, s).text;
    var long := stem + " " + text;
    assert long[|long| - 1] == text[|text| - 1];
    StripKeeps(long, |long| - 1);
  }

  // ---------- the pass emits the segments ----------

  lemma {:induction false} StartsPrefix(lines: seq<Line>, n: nat, m: nat)
    requires n <= m <= |lines|
    ensures Starts(lines, n) <= Starts(lines, m)
  {
    if n < m {
      StartsPrefix(lines, n, m - 1);
    }
  }

  // The starts before, at and after line n, seen from the whole list.
  lemma StartsAround(lines: seq<Line>, n: nat)
    requires n < |lines| && StartsAt(lines, n)
    ensures var k, all := |Starts(lines, n)|, Starts(lines, |lines|);
            k < |all| && all[k] == n && all[..k] == Starts(lines, n)
  {
    StartsPrefix(lines, n + 1, |lines|);
    assert Starts(lines, n + 1) == Starts(lines, n) + [n];
  }

  // The question emitted at a start is the segment that ends there.
  lemma EmittedAtStart(lines: seq<Line>, n: nat)
    requires n < |lines| && StartsAt(lines, n) && Starts(lines, n) != []
    ensures |Starts(lines, n)| < |Starts(lines, |lines|)|
    ensures Current(lines, n, CategoryAt(lines, n + 1)) == Segment(lines, |Starts(lines, n)| - 1)
  {
    var k, st, all := |Starts(lines, n)|, Starts(lines, n), Starts(lines, |lines|);
    StartsAround(lines, n);
    assert all[k - 1] == all[..k][k - 1] == st[k - 1];
  }

  lemma EmittedStep(lines: seq<Line>, n: nat)
    requires n < |lines|
    ensures |Starts(lines, n + 1)| == |Starts(lines, n)| + if StartsAt(lines, n) then 1 else 0
    ensures |Emitted(lines, n + 1)| ==
            |Emitted(lines, n)| + if StartsAt(lines, n) && Starts(lines, n) != [] then 1 else 0
  {
  }

  lemma {:induction false} EmittedCount(lines: seq<Line>, n: nat)
    requires n <= |lines|
    ensures |Emitted(lines, n)| == if Starts(lines, n) == [] then 0 else |Starts(lines, n)| - 1
  {
    if n > 0 {
      EmittedCount(lines, n - 1);
      EmittedStep(lines, n - 1);
    }
  }

  lemma {:induction false} EmittedSoFar(lines: seq<Line>, n: nat)
    requires n <= |lines|
    ensures AreSegments(lines, Emitted(lines, n))
  {
    if n > 0 {
      var m := n - 1;
      EmittedSoFar(lines, m);
      EmittedCount(lines, m);
      if StartsAt(lines, m) && Starts(lines, m) != [] {
        EmittedAtStart(lines, m);
        OneMore(lines, Emitted(lines, m), Segment(lines, |Starts(lines, m)| - 1));
      }
    }
  }

  lemma OneMore(lines: seq<Line>, qs: seq<Question>, q: Question)
    requires AreSegments(lines, qs) && |qs| < |Starts(lines, |lines|)| && q == Segment(lines, |qs|)
    ensures AreSegments(lines, qs + [q])
  {
  }

  lemma EmittedIsSegments(lines: seq<Line>)
    ensures var qs := Emitted(lines, |lines|) +
              if Starts(lines, |lines|) == [] then [] else [Current(lines, |lines|, CategoryAt(lines, |lines|))];
            |qs| == |Starts(lines, |lines|)| && AreSegments(lines, qs)
  {
    EmittedSoFar(lines, |lines|);
    EmittedCount(lines, |lines|);
    if Starts(lines, |lines|) != [] {
      OneMore(lines, Emitted(lines, |lines|), Current(lines, |lines|, CategoryAt(lines, |lines|)));
    }
  }

  // Every start is listed once, in order, and nothing else is.
  lemma {:induction false} StartsExact(lines: seq<Line>, n: nat)
    requires n <= |lines|
    ensures var st := Starts(lines, n);
            && (forall i :: 0 <= i < n ==> (i in st <==> StartsAt(lines, i)))
            && (forall j, k :: 0 <= j < k < |st| ==> st[j] < st[k])
  {
    if n > 0 {
      StartsExact(lines, n - 1);
      StartsSnoc(lines, n - 1, Starts(lines, n - 1), Starts(lines, n));
    }
  }

  lemma StartsSnoc(lines: seq<Line>, n: nat, before: seq<nat>, after: seq<nat>)
    requires n < |lines| && after == before + if StartsAt(lines, n) then [n] else []
    requires forall k :: 0 <= k < |before| ==> before[k] < n
    ensures forall i :: i in after <==> i in before || (i == n && StartsAt(lines, n))
    ensures (forall j, k :: 0 <= j < k < |before| ==> before[j] < before[k]) ==>
              forall j, k :: 0 <= j < k < |after| ==> after[j] < after[k]
  {
  }

  // ---------- the category of a question ----------

  // The last header among the lines s .. e-1.
  function HeaderBetween(lines: seq<Line>, s: nat, e: nat): Option<Category>
    requires s <= e <= |lines|
  {
    if s == e then None
    else if lines[e - 1].category.Some? then lines[e - 1].category
    else HeaderBetween(lines, s, e - 1)
  }

  lemma {:induction false} CategoryCarries(lines: seq<Line>, s: nat, e: nat)
    requires s <= e <= |lines|
    ensures CategoryAt(lines, e) == HeaderBetween(lines, s, e).GetOr(CategoryAt(lines, s))
  {
    if s < e {
      CategoryCarries(lines, s, e - 1);
    }
  }

  // The line after which question k has been emitted.
  function EmittedBy(lines: seq<Line>, k: nat): (e: nat)
    requires k < |Starts(lines, |lines|)|
    ensures Starts(lines, |lines|)[k] < e <= |lines|
  {
    var st := Starts(lines, |lines|);
    if k + 1 < |st| then st[k + 1] + 1 else |lines|
  }

  // A question keeps the category of its own section exactly when no header of another category is
  // the last one up to and including the next start's line.
  lemma SectionKeptIff(lines: seq<Line>, k: nat)
    requires k < |Starts(lines, |lines|)|
    ensures var s, e := Starts(lines, |lines|)[k] + 1, EmittedBy(lines, k);
            Segment(lines, k).category == CategoryAt(lines, s) <==>
            HeaderBetween(lines, s, e) in {None, Some(CategoryAt(lines, s))}
  {
    assert Segment(lines, k).category == CategoryAt(lines, EmittedBy(lines, k));
    CategoryCarries(lines, Starts(lines, |lines|)[k] + 1, EmittedBy(lines, k));
  }

  function Header(c: Category): Line {
    Line("h", Some(c), None, false, false, None, None, None, None)
  }

  function FullLine(number: int): Line {
    Line("q", None, None, true, false, None, Some((number, "q", "A")), Some((number, "q")), None)
  }

  // So the last question of a section is filed under the next section.
  lemma LastOfSectionMisfiled()
    ensures var lines := [Header(SingleChoice), FullLine(1), Header(MultipleChoice), FullLine(2)];
            && Starts(lines, 4) == [1, 3]
            && CategoryAt(lines, 2) == SingleChoice && Segment(lines, 0).category == MultipleChoice
  {
    var lines := [Header(SingleChoice), FullLine(1), Header(MultipleChoice), FullLine(2)];
    assert ModeAt(lines, 1) == Mode(false, false);
    assert ModeAt(lines, 2) == Mode(false, false);
    assert ModeAt(lines, 3) == Mode(false, false);
    assert Starts(lines, 1) == [] && Starts(lines, 2) == [1] && Starts(lines, 3) == [1];
    assert CategoryAt(lines, 1) == SingleChoice && CategoryAt(lines, 3) == MultipleChoice;
  }
}
