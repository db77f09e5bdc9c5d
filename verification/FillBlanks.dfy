/** Reading the answers of a fill-in-the-blank question from its text (practiceSetExcelService.ts lines
    491-511 and 1256-1267): the global matches of two opening braces, anything but a closing brace, and
    two closing braces. */
module FillBlanks {
  import opened Pipelines
  import opened Wrappers

  /** The first closing brace at or after `i`, or the length of the text. */
  function FirstClose(text: string, i: nat): (e: nat)
    requires i <= |text|
    ensures i <= e <= |text|
    decreases |text| - i
  {
    if i == |text| || text[i] == '}' then i else FirstClose(text, i + 1)
  }

  /** The pattern matches at `i`. */
  predicate Matches(text: string, i: nat) {
    && i + 2 <= |text| && text[i] == '{' && text[i + 1] == '{'
    && var e := FirstClose(text, i + 2); i + 2 < e && e + 1 < |text| && text[e + 1] == '}'
  }

  /** Where a match that starts at a position has its first closing brace. */
  function Closing(text: string): nat -> Option<nat> {
    (i: nat) => if Matches(text, i) then Some(FirstClose(text, i + 2)) else None
  }

  lemma {:induction false} FirstCloseIsFirst(text: string, i: nat, e: nat)
    requires i <= e <= |text|
    ensures FirstClose(text, i) == e <==> '}' !in text[i..e] && (e < |text| ==> text[e] == '}')
    decreases |text| - i
  {
    if i < |text| && text[i] != '}' {
      if i < e {
        FirstCloseIsFirst(text, i + 1, e);
        assert text[i..e] == [text[i]] + text[i + 1..e];
      }
    } else if i < e {
      assert text[i..e][0] == '}';
    }
  }

  /** A match is two opening braces, something without a closing brace, and two closing braces. */
  lemma MatchesExactly(text: string, i: nat, e: nat)
    ensures Closing(text)(i) == Some(e) <==>
      (i + 2 < e && e + 2 <= |text| && text[i] == '{' && text[i + 1] == '{' && '}' !in text[i + 2..e]
       && text[e] == '}' && text[e + 1] == '}')
  {
    if i + 2 <= e <= |text| {
      FirstCloseIsFirst(text, i + 2, e);
    }
  }

  /** A match from its first opening to its first closing brace. */
  datatype Span = Span(start: nat, close: nat) {
    predicate In(closing: nat -> Option<nat>) { closing(start) == Some(close) && start < close }
    predicate Covers(i: nat) { start <= i < close + 2 }
    predicate Before(i: nat) { close + 2 <= i }
  }

  /** `regex.exec` from `lastIndex`: the first match. */
  function Exec(text: string, lastIndex: nat): (m: Option<Span>)
    ensures m.Some? ==> lastIndex <= m.value.start < m.value.close && m.value.close + 2 <= |text|
    decreases |text| - lastIndex
  {
    if lastIndex >= |text| then None
    else if Matches(text, lastIndex) then Some(Span(lastIndex, FirstClose(text, lastIndex + 2)))
    else Exec(text, lastIndex + 1)
  }

  lemma {:induction false} ExecIsFirst(text: string, lastIndex: nat)
    ensures var m := Exec(text, lastIndex);
      && (m.None? ==> forall i | lastIndex <= i :: Closing(text)(i).None?)
      && (m.Some? ==> m.value.In(Closing(text)) && forall i | lastIndex <= i < m.value.start :: Closing(text)(i).None?)
    decreases |text| - lastIndex
  {
    if lastIndex < |text| && !Matches(text, lastIndex) {
      ExecIsFirst(text, lastIndex + 1);
    }
  }

  // ----- What the scan finds -----

  ghost predicate Covered(spans: seq<Span>, i: nat) {
    exists k :: 0 <= k < |spans| && spans[k].Covers(i)
  }

  ghost predicate Inside(closing: nat -> Option<nat>, from: nat, to: nat, spans: seq<Span>) {
    forall k | 0 <= k < |spans| :: spans[k].In(closing) && from <= spans[k].start && spans[k].Before(to)
  }

  ghost predicate OneByOne(spans: seq<Span>) {
    forall j, k | 0 <= j < k < |spans| :: spans[j].Before(spans[k].start)
  }

  ghost predicate AllCovered(closing: nat -> Option<nat>, from: nat, to: nat, spans: seq<Span>) {
    forall i | from <= i < to && closing(i).Some? :: Covered(spans, i)
  }

  /** The spans are matches, one after the other, and every match between `from` and `to` starts in one. */
  ghost predicate IsScan(closing: nat -> Option<nat>, from: nat, to: nat, spans: seq<Span>) {
    Inside(closing, from, to, spans) && OneByOne(spans) && AllCovered(closing, from, to, spans)
  }

  lemma CoveredCons(first: Span, rest: seq<Span>, i: nat)
    ensures Covered([first] + rest, i) <==> first.Covers(i) || Covered(rest, i)
  {
    var all := [first] + rest;
    if first.Covers(i) {
      assert all[0].Covers(i);
    }
    if Covered(rest, i) {
      var k :| 0 <= k < |rest| && rest[k].Covers(i);
      assert all[k + 1].Covers(i);
    }
  }

  lemma CoverPrepends(closing: nat -> Option<nat>, from: nat, to: nat, first: Span, rest: seq<Span>)
    requires forall i | from <= i < first.start :: closing(i).None?
    requires AllCovered(closing, first.close + 2, to, rest)
    ensures AllCovered(closing, from, to, [first] + rest)
  {
    forall i | from <= i < to && closing(i).Some? ensures Covered([first] + rest, i) {
      CoveredCons(first, rest, i);
    }
  }

  lemma InsidePrepends(closing: nat -> Option<nat>, from: nat, to: nat, first: Span, rest: seq<Span>)
    requires first.In(closing) && from <= first.start && first.Before(to)
    requires Inside(closing, first.close + 2, to, rest)
    ensures Inside(closing, from, to, [first] + rest)
  {
  }

  lemma OneByOnePrepends(first: Span, rest: seq<Span>)
    requires OneByOne(rest) && forall k | 0 <= k < |rest| :: first.Before(rest[k].start)
    ensures OneByOne([first] + rest)
  {
  }

  /** A first match, with none before it, in front of a scan of the rest. */
  lemma ScanPrepends(closing: nat -> Option<nat>, from: nat, to: nat, first: Span, rest: seq<Span>)
    requires first.In(closing) && from <= first.start && first.Before(to)
    requires forall i | from <= i < first.start :: closing(i).None?
    requires IsScan(closing, first.close + 2, to, rest)
    ensures IsScan(closing, from, to, [first] + rest)
  {
    InsidePrepends(closing, from, to, first, rest);
    OneByOnePrepends(first, rest);
    CoverPrepends(closing, from, to, first, rest);
  }

  lemma ScanTail(closing: nat -> Option<nat>, from: nat, to: nat, spans: seq<Span>)
    requires spans != [] && IsScan(closing, from, to, spans)
    ensures IsScan(closing, spans[0].close + 2, to, spans[1..])
  {
    var rest := spans[1..];
    forall i | spans[0].close + 2 <= i < to && closing(i).Some? ensures Covered(rest, i) {
      assert Covered(spans, i);
      var k :| 0 <= k < |spans| && spans[k].Covers(i);
      assert rest[k - 1].Covers(i);
    }
    forall k | 0 <= k < |rest|
      ensures rest[k].In(closing) && spans[0].close + 2 <= rest[k].start && rest[k].Before(to)
    {
      assert spans[0].Before(spans[k + 1].start);
    }
  }

  lemma ScanHead(closing: nat -> Option<nat>, from: nat, to: nat, spans: seq<Span>, i: nat)
    requires IsScan(closing, from, to, spans) && from <= i < to && closing(i).Some?
    ensures spans != [] && spans[0].start <= i
  {
    assert Covered(spans, i);
    var k :| 0 <= k < |spans| && spans[k].Covers(i);
    if k > 0 {
      assert spans[0].Before(spans[k].start);
    }
  }

  lemma HeadsAgree(closing: nat -> Option<nat>, from: nat, to: nat, s: seq<Span>, t: seq<Span>)
    requires IsScan(closing, from, to, s) && IsScan(closing, from, to, t) && s != []
    ensures t != [] && t[0] == s[0]
  {
    assert s[0].In(closing) && s[0].Before(to);
    ScanHead(closing, from, to, t, s[0].start);
    assert t[0].In(closing) && t[0].Before(to);
    ScanHead(closing, from, to, s, t[0].start);
  }

  /** Every text has only one scan. */
  lemma {:induction false} ScanIsUnique(closing: nat -> Option<nat>, from: nat, to: nat, s: seq<Span>, t: seq<Span>)
    requires IsScan(closing, from, to, s) && IsScan(closing, from, to, t)
    ensures s == t
    decreases |s|
  {
    if s == [] {
      if t != [] {
        HeadsAgree(closing, from, to, t, s);
      }
    } else {
      HeadsAgree(closing, from, to, s, t);
      ScanTail(closing, from, to, s);
      ScanTail(closing, from, to, t);
      ScanIsUnique(closing, s[0].close + 2, to, s[1..], t[1..]);
    }
  }

  function AnswerOf(text: string, s: Span): string {
    if s.start + 2 <= s.close <= |text| then text[s.start + 2..s.close] else []
  }

  function AnswerIn(text: string): Span -> string { (s: Span) => AnswerOf(text, s) }

  /** The scan of the whole text from `from`, and its answers. */
  function Spans(text: string, from: nat): seq<Span>
    decreases |text| - from
  {
    var m := Exec(text, from);
    if m.None? then [] else [m.value] + Spans(text, m.value.close + 2)
  }

  function AnswersFrom(text: string, from: nat): seq<string>
    decreases |text| - from
  {
    var m := Exec(text, from);
    if m.None? then [] else [AnswerOf(text, m.value)] + AnswersFrom(text, m.value.close + 2)
  }

  function Answers(text: string): seq<string> { AnswersFrom(text, 0) }

  /** The answers are what the spans enclose. */
  lemma {:induction false} AnswersAreSpans(text: string, from: nat)
    ensures AnswersFrom(text, from) == Map(AnswerIn(text), Spans(text, from))
    decreases |text| - from
  {
    var m := Exec(text, from);
    if m.Some? {
      AnswersAreSpans(text, m.value.close + 2);
      MapCons(AnswerIn(text), Spans(text, from));
    }
  }

  lemma NoMatch(text: string, from: nat)
    requires Exec(text, from).None?
    ensures IsScan(Closing(text), from, |text|, [])
  {
    ExecIsFirst(text, from);
  }

  lemma FirstMatch(text: string, from: nat, rest: seq<Span>)
    requires from <= |text| && Exec(text, from).Some?
    requires IsScan(Closing(text), Exec(text, from).value.close + 2, |text|, rest)
    ensures IsScan(Closing(text), from, |text|, [Exec(text, from).value] + rest)
  {
    ExecIsFirst(text, from);
    ScanPrepends(Closing(text), from, |text|, Exec(text, from).value, rest);
  }

  lemma {:induction false} SpansAreScan(text: string, from: nat)
    requires from <= |text|
    ensures IsScan(Closing(text), from, |text|, Spans(text, from))
    decreases |text| - from
  {
    if Exec(text, from).None? {
      NoMatch(text, from);
    } else {
      var next := Exec(text, from).value.close + 2;
      SpansAreScan(text, next);
      FirstMatch(text, from, Spans(text, next));
      assert Spans(text, from) == [Exec(text, from).value] + Spans(text, next);
    }
  }

  /** The spans found are the one scan of the text: non-overlapping matches outside of which none starts. */
  lemma SpansAreTheScan(text: string, spans: seq<Span>)
    ensures IsScan(Closing(text), 0, |text|, spans) <==> spans == Spans(text, 0)
  {
    SpansAreScan(text, 0);
    if IsScan(Closing(text), 0, |text|, spans) {
      ScanIsUnique(Closing(text), 0, |text|, spans, Spans(text, 0));
    }
  }

  /** With `done` found before `from`, the answers of the text are those and the ones still to come. */
  ghost predicate Progress(text: string, done: seq<string>, from: nat) {
    Answers(text) == done + AnswersFrom(text, from)
  }

  lemma ProgressStart(text: string)
    ensures Progress(text, [], 0)
  {
  }

  lemma ProgressStep(text: string, done: seq<string>, from: nat)
    requires Progress(text, done, from) && Exec(text, from).Some?
    ensures Progress(text, done + [AnswerOf(text, Exec(text, from).value)], Exec(text, from).value.close + 2)
  {
    var span := Exec(text, from).value;
    Associate(done, AnswerOf(text, span), AnswersFrom(text, span.close + 2));
  }

  lemma ProgressEnd(text: string, done: seq<string>, from: nat)
    requires Progress(text, done, from) && Exec(text, from).None?
    ensures Answers(text) == done
  {
  }

  lemma Associate<T>(s: seq<T>, x: T, t: seq<T>)
    ensures s + ([x] + t) == s + [x] + t
  {
  }

  /** The loop of `checkAnswers`; it ends because every match moves `lastIndex` forward. */
  method Scan(text: string) returns (answers: seq<string>)
    ensures answers == Answers(text)
  {
    answers := [];
    var lastIndex: nat := 0;
    var m := Exec(text, lastIndex);
    ProgressStart(text);
    while m.Some?
      invariant lastIndex <= |text| && m == Exec(text, lastIndex) && Progress(text, answers, lastIndex)
      decreases |text| - lastIndex
    {
      ProgressStep(text, answers, lastIndex);
      lastIndex := m.value.close + 2;
      answers := answers + [AnswerOf(text, m.value)];
      m := Exec(text, lastIndex);
    }
    ProgressEnd(text, answers, lastIndex);
  }

  // ----- Printing and scanning -----

  /** `fragments[0] {{answers[0]}} fragments[1] ... {{answers[n-1]}} fragments[n]` */
  function Print(fragments: seq<string>, answers: seq<string>): string
    requires |fragments| == |answers| + 1
  {
    if answers == [] then fragments[0]
    else fragments[0] + "{{" + answers[0] + "}}" + Print(fragments[1..], answers[1..])
  }

  /** No fragment holds an opening brace; no answer is empty or holds a closing brace. */
  ghost predicate Printable(fragments: seq<string>, answers: seq<string>) {
    && |fragments| == |answers| + 1
    && (forall f <- fragments :: '{' !in f)
    && (forall a <- answers :: a != [] && '}' !in a)
  }

  lemma {:induction false} FirstCloseIs(text: string, i: nat, e: nat)
    requires i <= e < |text| && text[e] == '}' && '}' !in text[i..e]
    ensures FirstClose(text, i) == e
    decreases e - i
  {
    if i < e {
      assert text[i] == text[i..e][0];
      assert text[i + 1..e] == text[i..e][1..];
      FirstCloseIs(text, i + 1, e);
    }
  }

  lemma {:induction false} ExecSkips(text: string, from: nat, p: nat)
    requires from <= p <= |text| && '{' !in text[from..p]
    ensures Exec(text, from) == Exec(text, p)
    decreases p - from
  {
    if from < p {
      assert text[from] == text[from..p][0];
      assert text[from + 1..p] == text[from..p][1..];
      ExecSkips(text, from + 1, p);
    }
  }

  /** From `p` on, the text is `{{answer}}` with the first closing brace at `e`. */
  predicate Stands(text: string, p: nat, e: nat, answer: string) {
    && p + 2 < e && e + 2 <= |text| && text[p] == '{' && text[p + 1] == '{' && text[p + 2..e] == answer
    && text[e] == '}' && text[e + 1] == '}'
  }

  lemma FindsAnswer(text: string, p: nat, e: nat, answer: string)
    requires Stands(text, p, e, answer) && '}' !in answer
    ensures Exec(text, p) == Some(Span(p, e)) && AnswerOf(text, Span(p, e)) == answer
  {
    FirstCloseIs(text, p + 2, e);
  }

  lemma Split(text: string, from: nat, head: string, tail: string)
    requires from <= |text| && text[from..] == head + tail
    ensures from + |head| <= |text| && text[from..from + |head|] == head && text[from + |head|..] == tail
  {
    assert head == (head + tail)[..|head|] && tail == (head + tail)[|head|..];
  }

  /** Where the first fragment and the first answer of a printed text stand. */
  lemma FirstAnswerStands(text: string, from: nat, fragment: string, answer: string, rest: string)
    requires from <= |text| && text[from..] == fragment + ("{{" + (answer + ("}}" + rest))) && answer != []
    ensures var p := from + |fragment|; var e := p + 2 + |answer|;
      Stands(text, p, e, answer) && text[from..p] == fragment && text[e + 2..] == rest
  {
    var p := from + |fragment|;
    var e := p + 2 + |answer|;
    Split(text, from, fragment, "{{" + (answer + ("}}" + rest)));
    Split(text, p, "{{", answer + ("}}" + rest));
    Split(text, p + 2, answer, "}}" + rest);
    Split(text, e, "}}", rest);
    assert text[p] == text[p..p + 2][0] && text[p + 1] == text[p..p + 2][1];
    assert text[e] == text[e..e + 2][0] && text[e + 1] == text[e..e + 2][1];
  }

  lemma PrintUnfolds(fragments: seq<string>, answers: seq<string>)
    requires |fragments| == |answers| + 1 && answers != []
    ensures Print(fragments, answers) ==
      fragments[0] + ("{{" + (answers[0] + ("}}" + Print(fragments[1..], answers[1..]))))
  {
  }

  lemma NoneLeft(text: string, from: nat)
    requires from <= |text| && '{' !in text[from..]
    ensures Exec(text, from).None?
  {
    assert text[from..|text|] == text[from..];
    ExecSkips(text, from, |text|);
  }

  lemma FirstFound(text: string, from: nat, fragment: string, answer: string, rest: string) returns (span: Span)
    requires from <= |text| && text[from..] == fragment + ("{{" + (answer + ("}}" + rest)))
    requires '{' !in fragment && answer != [] && '}' !in answer
    ensures Exec(text, from) == Some(span) && AnswerOf(text, span) == answer
    ensures span.close + 2 <= |text| && text[span.close + 2..] == rest
  {
    var p := from + |fragment|;
    var e := p + 2 + |answer|;
    FirstAnswerStands(text, from, fragment, answer, rest);
    ExecSkips(text, from, p);
    FindsAnswer(text, p, e, answer);
    span := Span(p, e);
  }

  lemma PrintableTail(fragments: seq<string>, answers: seq<string>)
    requires Printable(fragments, answers) && answers != []
    ensures Printable(fragments[1..], answers[1..])
    ensures '{' !in fragments[0] && answers[0] != [] && '}' !in answers[0]
  {
    assert fragments[0] in fragments && answers[0] in answers;
    forall f | f in fragments[1..] ensures '{' !in f {
      assert f in fragments;
    }
    forall a | a in answers[1..] ensures a != [] && '}' !in a {
      assert a in answers;
    }
  }

  lemma {:induction false} ScanFrom(text: string, from: nat, fragments: seq<string>, answers: seq<string>)
    requires Printable(fragments, answers) && from <= |text| && text[from..] == Print(fragments, answers)
    ensures AnswersFrom(text, from) == answers
    decreases |answers|
  {
    if answers == [] {
      assert fragments[0] in fragments;
      NoneLeft(text, from);
    } else {
      PrintableTail(fragments, answers);
      PrintUnfolds(fragments, answers);
      var span := FirstFound(text, from, fragments[0], answers[0], Print(fragments[1..], answers[1..]));
      ScanFrom(text, span.close + 2, fragments[1..], answers[1..]);
    }
  }

  /** Scanning a printed text returns exactly its answers, in order. */
  lemma PrintThenScan(fragments: seq<string>, answers: seq<string>)
    requires Printable(fragments, answers)
    ensures Answers(Print(fragments, answers)) == answers
  {
    ScanFrom(Print(fragments, answers), 0, fragments, answers);
  }

  /** What stands between the answers of any text. */
  function Pieces(text: string, from: nat): (r: seq<string>)
    requires from <= |text|
    ensures |r| == |AnswersFrom(text, from)| + 1
    decreases |text| - from
  {
    var m := Exec(text, from);
    if m.None? then [text[from..]] else [text[from..m.value.start]] + Pieces(text, m.value.close + 2)
  }

  lemma MatchReads(text: string, span: Span)
    requires span.In(Closing(text)) && span.close + 2 <= |text|
    ensures text[span.start..] == "{{" + (AnswerOf(text, span) + ("}}" + text[span.close + 2..]))
  {
    FirstCloseCloses(text, span.start + 2);
    var s, e := span.start, span.close;
    assert text[s..] == text[s..s + 2] + (text[s + 2..e] + (text[e..e + 2] + text[e + 2..]));
    assert text[s..s + 2] == "{{" && text[e..e + 2] == "}}";
  }

  lemma {:induction false} FirstCloseCloses(text: string, i: nat)
    requires i <= |text| && FirstClose(text, i) < |text|
    ensures text[FirstClose(text, i)] == '}'
    decreases |text| - i
  {
    if text[i] != '}' {
      FirstCloseCloses(text, i + 1);
    }
  }

  lemma PrintCons(piece: string, pieces: seq<string>, answer: string, answers: seq<string>)
    requires |pieces| == |answers| + 1
    ensures Print([piece] + pieces, [answer] + answers) == piece + ("{{" + (answer + ("}}" + Print(pieces, answers))))
  {
    PrintUnfolds([piece] + pieces, [answer] + answers);
    assert ([piece] + pieces)[1..] == pieces && ([answer] + answers)[1..] == answers;
  }

  lemma GluePiece(text: string, from: nat, start: nat, next: nat,
                  answer: string, pieces: seq<string>, answers: seq<string>)
    requires from <= start <= |text| && next <= |text|
    requires text[start..] == "{{" + (answer + ("}}" + text[next..]))
    requires |pieces| == |answers| + 1 && Print(pieces, answers) == text[next..]
    ensures Print([text[from..start]] + pieces, [answer] + answers) == text[from..]
  {
    PrintCons(text[from..start], pieces, answer, answers);
    CutAt(text, from, start);
  }

  lemma CutAt(text: string, from: nat, start: nat)
    requires from <= start <= |text|
    ensures text[from..] == text[from..start] + text[start..]
  {
  }

  lemma FoundIsMatch(text: string, from: nat)
    ensures Exec(text, from).Some? ==> Exec(text, from).value.In(Closing(text))
  {
    ExecIsFirst(text, from);
  }

  lemma LastPiece(text: string, from: nat)
    requires from <= |text| && Exec(text, from).None?
    ensures Print(Pieces(text, from), AnswersFrom(text, from)) == text[from..]
  {
    assert Pieces(text, from) == [text[from..]] && AnswersFrom(text, from) == [];
  }

  lemma NextPiece(text: string, from: nat, next: nat)
    requires from <= |text| && Exec(text, from).Some? && next == Exec(text, from).value.close + 2
    requires Print(Pieces(text, next), AnswersFrom(text, next)) == text[next..]
    ensures Print(Pieces(text, from), AnswersFrom(text, from)) == text[from..]
  {
    var span := Exec(text, from).value;
    FoundIsMatch(text, from);
    MatchReads(text, span);
    GluePiece(text, from, span.start, next, AnswerOf(text, span), Pieces(text, next), AnswersFrom(text, next));
  }

  lemma {:induction false} PiecesPrint(text: string, from: nat)
    requires from <= |text|
    ensures Print(Pieces(text, from), AnswersFrom(text, from)) == text[from..]
    decreases |text| - from
  {
    if Exec(text, from).None? {
      LastPiece(text, from);
    } else {
      var next := Exec(text, from).value.close + 2;
      PiecesPrint(text, next);
      NextPiece(text, from, next);
    }
  }

  /** The other way round: every text is the print of its own pieces and answers. */
  lemma ScanThenPrint(text: string)
    ensures |Pieces(text, 0)| == |Answers(text)| + 1 && Print(Pieces(text, 0), Answers(text)) == text
  {
    PiecesPrint(text, 0);
    assert text[0..] == text;
  }
}
