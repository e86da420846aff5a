// What the segments of the exam parser say, in terms of the lines themselves.

module QuestionMeaning {
  import opened Options
  import opened PythonText
  import opened QuestionParser

  // Every line is stripped before it is read, so its parts end visibly.
  predicate Stripped(lines: seq<Line>) {
    forall i :: 0 <= i < |lines| ==> WellRead(lines[i]) && Trimmed(lines[i].text)
  }

  // ---------- shared stems ----------

  function LastHeader(lines: seq<Line>, n: nat): (h: Option<nat>)
    requires n <= |lines|
    ensures match h
            case None => forall j :: 0 <= j < n ==> lines[j].stem.None?
            case Some(i) => i < n && lines[i].stem.Some? && forall j :: i < j < n ==> lines[j].stem.None?
  {
    if n == 0 then None else if lines[n - 1].stem.Some? then Some(n - 1) else LastHeader(lines, n - 1)
  }

  // A line that goes on a shared stem: neither a header, nor blank, nor a numbered or lettered line.
  predicate StemLine(line: Line) {
    line.stem.None? && line.text != "" && !line.numbered && !line.lettered
  }

  // Where the stem lines from i on end.
  function BlockEnd(lines: seq<Line>, i: nat, n: nat): (j: nat)
    requires i <= n <= |lines|
    ensures i <= j <= n && (forall k :: i <= k < j ==> StemLine(lines[k])) && (j < n ==> !StemLine(lines[j]))
    decreases n - i
  {
    if i < n && StemLine(lines[i]) then BlockEnd(lines, i + 1, n) else i
  }

  lemma BlockGrows(lines: seq<Line>, i: nat, n: nat)
    requires i <= n < |lines|
    ensures BlockEnd(lines, i, n + 1) ==
            if BlockEnd(lines, i, n) == n && StemLine(lines[n]) then n + 1 else BlockEnd(lines, i, n)
  {
    var short, long := BlockEnd(lines, i, n), BlockEnd(lines, i, n + 1);
    assert short < n ==> long <= short;
    assert long < n ==> short <= long;
  }

  // The lines i .. j-1, each after a blank.
  function Spaced(lines: seq<Line>, i: nat, j: nat): string
    requires i <= j <= |lines|
  {
    if i == j then "" else Spaced(lines, i, j - 1) + (" " + lines[j - 1].text)
  }

  // The stem in force before line n: the lines right after the last header, up to the first that is
  // not a stem line.
  function StemLines(lines: seq<Line>, n: nat): Stem
    requires n <= |lines|
  {
    match LastHeader(lines, n)
    case None => Stem((0, 0), "")
    case Some(h) => Stem(lines[h].stem.value, Spaced(lines, h + 1, BlockEnd(lines, h + 1, n)))
  }

  predicate InBlock(lines: seq<Line>, n: nat)
    requires n <= |lines|
  {
    LastHeader(lines, n).Some? && BlockEnd(lines, LastHeader(lines, n).value + 1, n) == n
  }

  lemma HeaderStep(lines: seq<Line>, n: nat)
    requires n < |lines|
    ensures LastHeader(lines, n + 1) == if lines[n].stem.Some? then Some(n) else LastHeader(lines, n)
  {
  }

  // One more line, whatever the modes.
  lemma StemLinesStep(lines: seq<Line>, n: nat)
    requires n < |lines|
    ensures InBlock(lines, n + 1) <==> lines[n].stem.Some? || (InBlock(lines, n) && StemLine(lines[n]))
    ensures var before := StemLines(lines, n);
            StemLines(lines, n + 1) ==
            if lines[n].stem.Some? then Stem(lines[n].stem.value, "")
            else if InBlock(lines, n) && StemLine(lines[n])
            then before.(text := before.text + (" " + lines[n].text))
            else before
  {
    HeaderStep(lines, n);
    if lines[n].stem.None? && LastHeader(lines, n).Some? {
      BlockGrows(lines, LastHeader(lines, n).value + 1, n);
    }
  }

  // The part of the events that concerns stems.
  lemma StemEvents(mode: Mode, line: Line)
    ensures var e := EventOf(mode, line);
            && (e.StemOpen? <==> line.stem.Some?) && (e.StemOpen? ==> e.range == line.stem.value)
            && (e.StemMore? <==> mode.stem && StemLine(line))
            && (ModeAfter(mode, e).stem <==> e.StemOpen? || e.StemMore?)
  {
  }

  lemma {:induction false} StemIsLines(lines: seq<Line>, n: nat)
    requires n <= |lines|
    ensures ModeAt(lines, n).stem <==> InBlock(lines, n)
    ensures StemAt(lines, n) == StemLines(lines, n)
  {
    if n > 0 {
      StemIsLines(lines, n - 1);
      StemLinesStep(lines, n - 1);
      StemEvents(ModeAt(lines, n - 1), lines[n - 1]);
      StemAtStep(lines, n - 1);
    }
  }

  lemma StemAtStep(lines: seq<Line>, n: nat)
    requires n < |lines|
    ensures var before := StemAt(lines, n);
            StemAt(lines, n + 1) ==
            if EventAt(lines, n).StemOpen? then Stem(EventAt(lines, n).range, "")
            else if EventAt(lines, n).StemMore? then before.(text := before.text + (" " + lines[n].text))
            else before
  {
    var before := StemAt(lines, n).text;
    assert before + " " + lines[n].text == before + (" " + lines[n].text);
  }

  // ---------- the text of a question ----------

  // What the start line itself says.
  function OwnText(lines: seq<Line>, s: nat): string
    requires s < |lines| && StartsAt(lines, s)
  {
    var e := EventAt(lines, s);
    if e.Whole? then e.text + BLANK else e.text
  }

  lemma OwnEndsVisibly(lines: seq<Line>, s: nat)
    requires s < |lines| && StartsAt(lines, s) && WellRead(lines[s])
    ensures var t := OwnText(lines, s); t != "" && !IsSpace(t[|t| - 1])
  {
    assert !IsSpace(BLANK[|BLANK| - 1]);
  }

  // A numbered stem: the question is in its range, both ends included, and the stem has lines.
  predicate Shares(lines: seq<Line>, s: nat, number: int)
    requires s <= |lines|
  {
    match LastHeader(lines, s)
    case None => false
    case Some(h) =>
      && lines[h].stem.value.0 <= number <= lines[h].stem.value.1
      && h + 1 < s && StemLine(lines[h + 1])
  }

  // The lines of the stem, joined by blanks.
  function SharedStem(lines: seq<Line>, s: nat): string
    requires s <= |lines| && LastHeader(lines, s).Some? && LastHeader(lines, s).value + 1 < s
  {
    var h := LastHeader(lines, s).value;
    lines[h + 1].text + Spaced(lines, h + 2, BlockEnd(lines, h + 2, s))
  }

  // The opening text: the stem lines joined by blanks, a blank and the question's own text if it
  // shares the stem, and otherwise its own text alone.
  function Opening(lines: seq<Line>, s: nat): string
    requires s < |lines| && StartsAt(lines, s)
  {
    var own := OwnText(lines, s);
    if Shares(lines, s, EventAt(lines, s).number)
    then SharedStem(lines, s) + " " + own
    else StripLeft(own)
  }

  lemma {:induction false} SpacedFirst(lines: seq<Line>, i: nat, j: nat)
    requires i < j <= |lines|
    ensures Spaced(lines, i, j) == (" " + lines[i].text) + Spaced(lines, i + 1, j)
  {
    var first := " " + lines[i].text;
    if i + 1 < j {
      SpacedFirst(lines, i, j - 1);
      Associates(first, Spaced(lines, i + 1, j - 1), " " + lines[j - 1].text);
    } else {
      assert Spaced(lines, i, i) == "" && "" + first == first == first + "";
    }
  }

  lemma Associates(x: string, y: string, z: string)
    ensures (x + y) + z == x + (y + z)
  {
  }

  // Stripping the stem and the question's own text removes the blank in front and nothing else.
  lemma SharedText(first: string, rest: string, own: string)
    requires first != "" && Trimmed(first) && own != "" && !IsSpace(own[|own| - 1])
    ensures var t := first + rest + " " + own;
            Strip((" " + first + rest) + " " + own) == t != "" && Trimmed(t)
  {
    var t := first + rest + " " + own;
    assert t[0] == first[0] && t[|t| - 1] == own[|own| - 1];
    assert (" " + first + rest) + " " + own == " " + t;
    StripOneBlank(t);
  }

  lemma PrefixedShared(stem: Stem, number: int, first: string, rest: string, own: string)
    requires stem.text == (" " + first) + rest && stem.range.0 <= number <= stem.range.1
    requires first != "" && Trimmed(first) && own != "" && !IsSpace(own[|own| - 1])
    ensures var t := first + rest + " " + own;
            Prefixed(stem, number, own) == t != "" && Trimmed(t)
  {
    SharedText(first, rest, own);
  }

  lemma StemHere(lines: seq<Line>, s: nat)
    requires s <= |lines| && LastHeader(lines, s).Some?
    requires var h := LastHeader(lines, s).value; h + 1 < s && StemLine(lines[h + 1])
    ensures var h := LastHeader(lines, s).value;
            StemAt(lines, s) == Stem(lines[h].stem.value,
                                     (" " + lines[h + 1].text) + Spaced(lines, h + 2, BlockEnd(lines, h + 2, s)))
  {
    var h := LastHeader(lines, s).value;
    StemIsLines(lines, s);
    SpacedFirst(lines, h + 1, BlockEnd(lines, h + 1, s));
  }

  lemma OpeningIsPrefixed(lines: seq<Line>, s: nat)
    requires s < |lines| && StartsAt(lines, s)
    ensures OpeningText(lines, s) == Prefixed(StemAt(lines, s), EventAt(lines, s).number, OwnText(lines, s))
  {
  }

  lemma SharedOpening(lines: seq<Line>, s: nat)
    requires s < |lines| && StartsAt(lines, s) && Stripped(lines) && Shares(lines, s, EventAt(lines, s).number)
    ensures OpeningText(lines, s) == Opening(lines, s) != "" && Trimmed(Opening(lines, s))
  {
    OwnEndsVisibly(lines, s);
    OpeningIsPrefixed(lines, s);
    SharedPrefix(lines, s, EventAt(lines, s).number, OwnText(lines, s));
  }

  lemma SharedPrefix(lines: seq<Line>, s: nat, number: int, own: string)
    requires s < |lines| && Stripped(lines) && Shares(lines, s, number)
    requires own != "" && !IsSpace(own[|own| - 1])
    ensures var t := SharedStem(lines, s) + " " + own;
            Prefixed(StemAt(lines, s), number, own) == t != "" && Trimmed(t)
  {
    var h := LastHeader(lines, s).value;
    StemHere(lines, s);
    PrefixedShared(StemAt(lines, s), number, lines[h + 1].text, Spaced(lines, h + 2, BlockEnd(lines, h + 2, s)), own);
  }

  lemma PlainOpening(lines: seq<Line>, s: nat)
    requires s < |lines| && StartsAt(lines, s) && Stripped(lines) && !Shares(lines, s, EventAt(lines, s).number)
    ensures OpeningText(lines, s) == Opening(lines, s) != "" && Trimmed(Opening(lines, s))
  {
    StemIsLines(lines, s);
    OwnEndsVisibly(lines, s);
    StripVisibleEnd(OwnText(lines, s));
    if h :| LastHeader(lines, s) == Some(h) {
      assert h + 1 < s && !StemLine(lines[h + 1]) ==> BlockEnd(lines, h + 1, s) == h + 1;
    }
  }

  // What line i adds to the question it belongs to.
  function Piece(lines: seq<Line>, i: nat): string
    requires i < |lines|
  {
    match EventAt(lines, i)
    case Finish(text, _) => Strip(text + BLANK)
    case Append => lines[i].text
    case _ => ""
  }

  // What the lines i .. j-1 add, in order.
  function Pieces(lines: seq<Line>, i: nat, j: nat): seq<string>
    requires i <= j <= |lines|
  {
    if i == j then [] else Pieces(lines, i, j - 1) + [Piece(lines, j - 1)]
  }

  // A text with pieces put behind it.
  function Followed(text: string, pieces: seq<string>): string {
    if pieces == [] then text else Followed(text, pieces[..|pieces| - 1]) + pieces[|pieces| - 1]
  }

  lemma FollowedSnoc(text: string, pieces: seq<string>, piece: string)
    ensures Followed(text, pieces + [piece]) == Followed(text, pieces) + piece
  {
    assert (pieces + [piece])[..|pieces|] == pieces;
  }

  lemma {:induction false} ChainFollows(texts: seq<string>, pieces: seq<string>)
    requires |texts| == |pieces| + 1
    requires forall k :: 0 <= k < |pieces| ==> texts[k + 1] == texts[k] + pieces[k]
    ensures texts[|pieces|] == Followed(texts[0], pieces)
    decreases |pieces|
  {
    if pieces != [] {
      ChainFollows(texts[..|pieces|], pieces[..|pieces| - 1]);
    }
  }

  lemma {:induction false} FollowedTrimmed(text: string, pieces: seq<string>)
    requires text != "" && Trimmed(text) && forall k :: 0 <= k < |pieces| ==> Trimmed(pieces[k])
    ensures Followed(text, pieces) != "" && Trimmed(Followed(text, pieces))
  {
    if pieces != [] {
      FollowedTrimmed(text, pieces[..|pieces| - 1]);
      TrimmedAppend(Followed(text, pieces[..|pieces| - 1]), pieces[|pieces| - 1]);
    }
  }

  lemma OpeningIsText(lines: seq<Line>, s: nat)
    requires s < |lines| && StartsAt(lines, s) && Stripped(lines)
    ensures OpeningText(lines, s) == Opening(lines, s) != "" && Trimmed(Opening(lines, s))
  {
    if Shares(lines, s, EventAt(lines, s).number) {
      SharedOpening(lines, s);
    } else {
      PlainOpening(lines, s);
    }
  }

  lemma PieceTrimmed(lines: seq<Line>, i: nat)
    requires i < |lines| && Stripped(lines)
    ensures Trimmed(Piece(lines, i))
  {
    if EventAt(lines, i).Finish? {
      var j, k := StripMeans(EventAt(lines, i).text + BLANK);
    }
  }

  lemma PieceAdds(lines: seq<Line>, s: nat, n: nat)
    requires s < n < |lines| && StartsAt(lines, s) && Trimmed(lines[n].text)
    ensures TextTo(lines, s, n + 1) == TextTo(lines, s, n) + Piece(lines, n)
  {
    StripTrimmed(lines[n].text);
  }

  lemma {:induction false} PiecesAt(lines: seq<Line>, i: nat, n: nat)
    requires i <= n <= |lines|
    ensures |Pieces(lines, i, n)| == n - i
    ensures forall k :: 0 <= k < n - i ==> Pieces(lines, i, n)[k] == Piece(lines, i + k)
  {
    if i < n {
      PiecesAt(lines, i, n - 1);
      var before, after := Pieces(lines, i, n - 1), Pieces(lines, i, n);
      assert after == before + [Piece(lines, n - 1)];
      forall k | 0 <= k < n - i
        ensures after[k] == Piece(lines, i + k)
      {
        assert k < n - i - 1 ==> after[k] == before[k];
      }
    }
  }

  lemma PiecesTrimmed(lines: seq<Line>, i: nat, n: nat)
    requires i <= n <= |lines| && Stripped(lines)
    ensures forall k :: 0 <= k < |Pieces(lines, i, n)| ==> Trimmed(Pieces(lines, i, n)[k])
  {
    PiecesAt(lines, i, n);
    forall k | 0 <= k < |Pieces(lines, i, n)|
      ensures Trimmed(Pieces(lines, i, n)[k])
    {
      PieceTrimmed(lines, i + k);
    }
  }

  function Texts(lines: seq<Line>, s: nat, n: nat): (texts: seq<string>)
    requires s < n <= |lines| && StartsAt(lines, s)
    ensures |texts| == n - s && forall k :: 0 <= k < n - s ==> texts[k] == TextTo(lines, s, s + 1 + k)
  {
    seq(n - s, k requires 0 <= k < n - s => TextTo(lines, s, s + 1 + k))
  }

  lemma TextsChain(lines: seq<Line>, s: nat, n: nat, texts: seq<string>, pieces: seq<string>)
    requires s < n <= |lines| && StartsAt(lines, s) && Stripped(lines)
    requires texts == Texts(lines, s, n) && pieces == Pieces(lines, s + 1, n)
    ensures |texts| == |pieces| + 1
    ensures forall k :: 0 <= k < |pieces| ==> texts[k + 1] == texts[k] + pieces[k]
  {
    PiecesAt(lines, s + 1, n);
    forall k | 0 <= k < |pieces|
      ensures texts[k + 1] == texts[k] + pieces[k]
    {
      PieceAdds(lines, s, s + 1 + k);
    }
  }

  lemma TextIsFollowed(lines: seq<Line>, s: nat, n: nat)
    requires s < n <= |lines| && StartsAt(lines, s) && Stripped(lines)
    ensures var texts := Texts(lines, s, n);
            texts[n - s - 1] == Followed(texts[0], Pieces(lines, s + 1, n))
  {
    var texts, pieces := Texts(lines, s, n), Pieces(lines, s + 1, n);
    TextsChain(lines, s, n, texts, pieces);
    PiecesAt(lines, s + 1, n);
    ChainFollows(texts, pieces);
  }

  // ---------- options and answer ----------

  predicate IsOption(lines: seq<Line>, k: nat)
    requires k < |lines|
  {
    EventAt(lines, k).Opt?
  }

  function OptionText(lines: seq<Line>, k: nat): string
    requires k < |lines| && IsOption(lines, k)
  {
    EventAt(lines, k).letter + "-" + Strip(EventAt(lines, k).text)
  }

  // The option lines from i on, in order.
  function OptionLines(lines: seq<Line>, i: nat, n: nat): (at: seq<nat>)
    requires i <= n <= |lines|
    ensures forall k :: 0 <= k < |at| ==> i <= at[k] < n && IsOption(lines, at[k])
  {
    if i == n then [] else OptionLines(lines, i, n - 1) + if IsOption(lines, n - 1) then [n - 1] else []
  }

  lemma {:induction false} OptionLinesExact(lines: seq<Line>, i: nat, n: nat)
    requires i <= n <= |lines|
    ensures var at := OptionLines(lines, i, n);
            && (forall k :: i <= k < n ==> (k in at <==> IsOption(lines, k)))
            && Ascending(at)
  {
    if i < n {
      OptionLinesExact(lines, i, n - 1);
      OptionLinesSnoc(OptionLines(lines, i, n - 1), n - 1, OptionLines(lines, i, n));
      forall k | i <= k < n
        ensures k in OptionLines(lines, i, n) <==> IsOption(lines, k)
      {
        assert k < n - 1 ==> (k in OptionLines(lines, i, n - 1) <==> IsOption(lines, k));
      }
    }
  }

  predicate Ascending(at: seq<nat>) {
    forall j, k :: 0 <= j < k < |at| ==> at[j] < at[k]
  }

  lemma OptionLinesSnoc(before: seq<nat>, n: nat, after: seq<nat>)
    requires (forall k :: 0 <= k < |before| ==> before[k] < n) && (after == before || after == before + [n])
    ensures forall k :: k in after <==> k in before || (k == n && |after| > |before|)
    ensures Ascending(before) ==> Ascending(after)
  {
  }

  lemma {:induction false} OptionsAreLines(lines: seq<Line>, i: nat, n: nat)
    requires i <= n <= |lines|
    ensures AreTexts(lines, OptionLines(lines, i, n), OptionsTo(lines, i, n))
  {
    if i < n {
      OptionsAreLines(lines, i, n - 1);
      OptionsStep(lines, i, n - 1);
      if IsOption(lines, n - 1) {
        AreTextsSnoc(lines, OptionLines(lines, i, n - 1), OptionsTo(lines, i, n - 1), n - 1);
      }
    }
  }

  // The options are the texts of these lines, in order.
  predicate AreTexts(lines: seq<Line>, at: seq<nat>, options: seq<string>) {
    && |options| == |at|
    && forall k :: 0 <= k < |at| ==> at[k] < |lines| && IsOption(lines, at[k]) && options[k] == OptionText(lines, at[k])
  }

  lemma AreTextsSnoc(lines: seq<Line>, at: seq<nat>, options: seq<string>, n: nat)
    requires AreTexts(lines, at, options) && n < |lines| && IsOption(lines, n)
    ensures AreTexts(lines, at + [n], options + [OptionText(lines, n)])
  {
  }

  lemma OptionsStep(lines: seq<Line>, i: nat, n: nat)
    requires i <= n < |lines|
    ensures OptionsTo(lines, i, n + 1) ==
            OptionsTo(lines, i, n) + if IsOption(lines, n) then [OptionText(lines, n)] else []
  {
  }

  // The last line from i on that closes a question.
  function LastFinish(lines: seq<Line>, i: nat, n: nat): (f: Option<nat>)
    requires i <= n <= |lines|
    ensures match f
            case None => forall k :: i <= k < n ==> !EventAt(lines, k).Finish?
            case Some(j) => i <= j < n && EventAt(lines, j).Finish? && forall k :: j < k < n ==> !EventAt(lines, k).Finish?
  {
    if i == n then None else if EventAt(lines, n - 1).Finish? then Some(n - 1) else LastFinish(lines, i, n - 1)
  }

  function Answer(lines: seq<Line>, s: nat, n: nat): string
    requires s < n <= |lines| && StartsAt(lines, s)
  {
    match LastFinish(lines, s + 1, n)
    case Some(j) => EventAt(lines, j).answer
    case None => if EventAt(lines, s).Whole? then EventAt(lines, s).answer else ""
  }

  lemma {:induction false} AnswerIsLast(lines: seq<Line>, s: nat, n: nat)
    requires s < n <= |lines| && StartsAt(lines, s)
    ensures AnswerTo(lines, s, n) == Answer(lines, s, n)
  {
    if n > s + 1 {
      AnswerIsLast(lines, s, n - 1);
    }
  }

  // ---------- when a line belongs to a question that is still open ----------

  // Some question was begun without its answer, and only shared stems and plain lines came since.
  ghost predicate StillOpen(lines: seq<Line>, n: nat)
    requires n <= |lines|
  {
    exists b :: 0 <= b < n && EventAt(lines, b).Begin? && forall j :: b < j < n ==> GoesOn(EventAt(lines, j))
  }

  predicate GoesOn(e: Event) {
    e.StemOpen? || e.StemMore? || e.Append?
  }

  lemma {:induction false} CollectingIff(lines: seq<Line>, n: nat)
    requires n <= |lines|
    ensures ModeAt(lines, n).collecting <==> StillOpen(lines, n)
  {
    if n > 0 {
      CollectingIff(lines, n - 1);
      var e := EventAt(lines, n - 1);
      if StillOpen(lines, n - 1) && GoesOn(e) {
        var b :| 0 <= b < n - 1 && EventAt(lines, b).Begin? && forall j :: b < j < n - 1 ==> GoesOn(EventAt(lines, j));
        assert EventAt(lines, b).Begin?;
      }
      if StillOpen(lines, n) && !e.Begin? {
        var b :| 0 <= b < n && EventAt(lines, b).Begin? && forall j :: b < j < n ==> GoesOn(EventAt(lines, j));
        assert b < n - 1 && GoesOn(EventAt(lines, n - 1));
      }
    }
  }

  // The line belongs to a stem: a header, or a line of the block right behind one.
  predicate OfStem(lines: seq<Line>, i: nat)
    requires i < |lines|
  {
    lines[i].stem.Some? || (InBlock(lines, i) && StemLine(lines[i]))
  }

  // Which lines start a question, are options, close an open question or are appended to it, from the
  // lines before them alone.
  lemma LineMeans(lines: seq<Line>, i: nat)
    requires i < |lines|
    ensures var l, free := lines[i], !OfStem(lines, i) && !StillOpen(lines, i);
            && (StartsAt(lines, i) <==> free && (l.whole.Some? || l.start.Some?))
            && (IsOption(lines, i) <==> free && l.whole.None? && l.start.None? && l.option.Some?)
            && (EventAt(lines, i).Finish? <==> !OfStem(lines, i) && StillOpen(lines, i) && l.continuation.Some?)
            && (EventAt(lines, i).Append? <==> !OfStem(lines, i) && StillOpen(lines, i) && l.continuation.None?)
            && (EventAt(lines, i).Begin? <==> free && l.whole.None? && l.start.Some?)
  {
    StemIsLines(lines, i);
    CollectingIff(lines, i);
  }

  // ---------- the whole question ----------

  // The line after the last one that belongs to question k.
  function EndOf(lines: seq<Line>, k: nat): (e: nat)
    requires k < |Starts(lines, |lines|)|
    ensures Starts(lines, |lines|)[k] < e <= |lines|
  {
    var st := Starts(lines, |lines|);
    if k + 1 < |st| then st[k + 1] else |lines|
  }

  // The question opened at line s, whose lines end before line e; its options are collected from
  // line `from` on.
  predicate Says(lines: seq<Line>, from: nat, s: nat, e: nat, q: Question)
    requires from <= s < e <= |lines| && StartsAt(lines, s)
  {
    && q.number == EventAt(lines, s).number
    && q.text == Followed(Opening(lines, s), Pieces(lines, s + 1, e))
    && q.answer == Answer(lines, s, e)
    && AreTexts(lines, OptionLines(lines, from, e), q.options)
  }

  lemma BuiltSays(lines: seq<Line>, from: nat, s: nat, e: nat, category: Category)
    requires from <= s < e <= |lines| && StartsAt(lines, s) && Stripped(lines)
    ensures Says(lines, from, s, e, Built(lines, from, s, e, category))
  {
    OpeningIsText(lines, s);
    TextIsFollowed(lines, s, e);
    assert TextTo(lines, s, s + 1) == Opening(lines, s);
    PiecesTrimmed(lines, s + 1, e);
    FollowedTrimmed(Opening(lines, s), Pieces(lines, s + 1, e));
    StripTrimmed(TextTo(lines, s, e));
    AnswerIsLast(lines, s, e);
    OptionsAreLines(lines, from, e);
  }

  // Main result: what question k is, from the lines between its start and the next one. The first
  // question also gets the options before it.
  lemma SegmentSays(lines: seq<Line>, k: nat)
    requires k < |Starts(lines, |lines|)| && Stripped(lines)
    ensures var s := Starts(lines, |lines|)[k];
            Says(lines, if k == 0 then 0 else s, s, EndOf(lines, k), Segment(lines, k))
  {
    var s := Starts(lines, |lines|)[k];
    BuiltSays(lines, if k == 0 then 0 else s, s, EndOf(lines, k), Segment(lines, k).category);
  }
}
