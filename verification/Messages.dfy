/**
 * Cutting a notification to a channel's limits, in characters or UTF-8 bytes,
 * before any markup is applied.
 */
module Messages {
  import opened Wrappers

  datatype Unit = Chars | Bytes

  const ELLIPSIS: char := '\U{2026}'

  /** `char::len_utf8` */
  function LenUtf8(c: char): (len: nat)
    ensures 1 <= len <= 4
  {
    var code := c as int;
    if code < 0x80 then 1 else if code < 0x800 then 2 else if code < 0x1_0000 then 3 else 4
  }

  function Cost(c: char, unit: Unit): (cost: nat)
    ensures cost >= 1
  {
    if unit.Chars? then 1 else LenUtf8(c)
  }

  /** `measure` */
  function Measure(text: string, unit: Unit): nat {
    if text == [] then 0 else Measure(text[..|text| - 1], unit) + Cost(text[|text| - 1], unit)
  }

  function SaturatingSub(a: nat, b: nat): nat { if a < b then 0 else a - b }

  lemma {:induction false} MeasureConcat(a: string, b: string, unit: Unit)
    ensures Measure(a + b, unit) == Measure(a, unit) + Measure(b, unit)
    decreases |b|
  {
    if b == [] {
      assert a + b == a;
    } else {
      MeasureConcat(a, b[..|b| - 1], unit);
      assert (a + b)[..|a + b| - 1] == a + b[..|b| - 1];
    }
  }

  lemma {:induction false} MeasureChars(text: string)
    ensures Measure(text, Chars) == |text|
  {
    if text != [] {
      MeasureChars(text[..|text| - 1]);
    }
  }

  lemma MeasurePrefix(text: string, n: nat, unit: Unit)
    requires n <= |text|
    ensures Measure(text[..n], unit) <= Measure(text, unit)
    ensures n < |text| ==> Measure(text[..n + 1], unit) == Measure(text[..n], unit) + Cost(text[n], unit)
  {
    assert text == text[..n] + text[n..];
    MeasureConcat(text[..n], text[n..], unit);
    if n < |text| {
      assert text[..n + 1][..n] == text[..n];
    }
  }

  // ---------------------------------------------------------------- cutting a text

  /** The longest prefix within the room, counting from a prefix known to fit. */
  function KeptFrom(text: string, n: nat, room: nat, unit: Unit): (kept: nat)
    requires n <= |text|
    ensures n <= kept <= |text|
    decreases |text| - n
  {
    if n < |text| && Measure(text[..n + 1], unit) <= room then KeptFrom(text, n + 1, room, unit) else n
  }

  /** Room for the ellipsis is set aside when the budget has it. */
  function RoomFor(max: nat, unit: Unit): nat {
    if max >= Cost(ELLIPSIS, unit) then max - Cost(ELLIPSIS, unit) else max
  }

  function Mark(max: nat, unit: Unit): string {
    if max >= Cost(ELLIPSIS, unit) then [ELLIPSIS] else []
  }

  function Truncated(text: string, max: nat, unit: Unit): string {
    if Measure(text, unit) <= max then text
    else text[..KeptFrom(text, 0, RoomFor(max, unit), unit)] + Mark(max, unit)
  }

  /** `truncate` */
  method Truncate(text: string, max: nat, unit: Unit) returns (out: string)
    ensures out == Truncated(text, max, unit)
  {
    if Measure(text, unit) <= max {
      return text;
    }
    var ellipsis := Cost(ELLIPSIS, unit);
    var room, mark := max, false;
    if max >= ellipsis {
      room, mark := max - ellipsis, true;
    }
    var used, i := 0, 0;
    out := "";
    while i < |text|
      invariant i <= |text| && out == text[..i] && used == Measure(out, unit)
      invariant KeptFrom(text, 0, room, unit) == KeptFrom(text, i, room, unit)
    {
      var cost := Cost(text[i], unit);
      MeasurePrefix(text, i, unit);
      if used + cost > room {
        break;
      }
      used := used + cost;
      out := out + [text[i]];
      i := i + 1;
    }
    if mark {
      out := out + [ELLIPSIS];
    }
  }

  lemma {:induction false} KeptIsLongest(text: string, n: nat, room: nat, unit: Unit)
    requires n <= |text| && Measure(text[..n], unit) <= room
    ensures var kept := KeptFrom(text, n, room, unit);
      && Measure(text[..kept], unit) <= room
      && (kept < |text| ==> Measure(text[..kept + 1], unit) > room)
    decreases |text| - n
  {
    if n < |text| && Measure(text[..n + 1], unit) <= room {
      KeptIsLongest(text, n + 1, room, unit);
    }
  }

  /** The text was cut after `n` characters, and marked if there was room for the mark. */
  ghost predicate CutAfter(out: string, text: string, n: nat, max: nat, unit: Unit) {
    && n < |text|
    && out == text[..n] + Mark(max, unit)
    && Measure(text[..n], unit) <= RoomFor(max, unit)
    && Measure(text[..n + 1], unit) > RoomFor(max, unit)
  }

  /**
   * A text within the limit is left alone. One over it becomes a prefix of itself,
   * ended by an ellipsis if that fits, always within the limit, and as long as it can be.
   */
  lemma TruncateCuts(text: string, max: nat, unit: Unit) returns (n: nat)
    ensures Measure(Truncated(text, max, unit), unit) <= max
    ensures if Measure(text, unit) <= max then Truncated(text, max, unit) == text
            else CutAfter(Truncated(text, max, unit), text, n, max, unit)
  {
    n := KeptFrom(text, 0, RoomFor(max, unit), unit);
    KeptIsLongest(text, 0, RoomFor(max, unit), unit);
    if Measure(text, unit) > max {
      assert text[..|text|] == text;
      MeasureConcat(text[..n], Mark(max, unit), unit);
      MeasureMark(max, unit);
    }
  }

  lemma MeasureMark(max: nat, unit: Unit)
    ensures Measure(Mark(max, unit), unit) + RoomFor(max, unit) == max
  {
    var mark := Mark(max, unit);
    if mark != [] {
      assert mark[..0] == [];
    }
  }

  // ---------------------------------------------------------------- a message

  datatype Line = Text(text: string) | Field(name: string, value: string)

  datatype Message = Message(subject: string, rest: string, code: Option<string>, lines: seq<Line>)

  function LineLen(line: Line, unit: Unit): nat {
    match line
    case Text(text) => Measure(text, unit)
    case Field(name, value) => Measure(name, unit) + 2 + Measure(value, unit)
  }

  function PlainLine(line: Line): string {
    match line
    case Text(text) => text
    case Field(name, value) => name + ": " + value
  }

  function Headline(m: Message): string { m.subject + m.rest }

  function Join(pieces: seq<string>): string {
    if pieces == [] then ""
    else if |pieces| == 1 then pieces[0]
    else Join(pieces[..|pieces| - 1]) + "\n" + pieces[|pieces| - 1]
  }

  function PlainLines(lines: seq<Line>): seq<string> {
    seq(|lines|, i requires 0 <= i < |lines| => PlainLine(lines[i]))
  }

  function Pieces(m: Message): seq<string> {
    (if m.code.Some? then [m.code.value] else []) + PlainLines(m.lines)
  }

  function PlainBody(m: Message): string { Join(Pieces(m)) }

  function Plain(m: Message): string {
    if PlainBody(m) == "" then Headline(m) else Headline(m) + "\n" + PlainBody(m)
  }

  /** What is left of a line too long for the budget, if anything. */
  function CutLine(line: Line, budget: nat, unit: Unit): seq<Line> {
    var cut :=
      match line
      case Text(text) => [Text(Truncated(text, budget, unit))]
      case Field(name, value) =>
        var room := SaturatingSub(budget, Measure(name, unit) + 2);
        if room > 0 then [Field(name, Truncated(value, room, unit))] else [];
    if cut != [] && LineLen(cut[0], unit) > 0 then cut else []
  }

  function FitLines(lines: seq<Line>, budget: nat, unit: Unit): seq<Line> {
    if lines == [] then []
    else
      var len := LineLen(lines[0], unit);
      if len <= budget then [lines[0]] + FitLines(lines[1..], SaturatingSub(budget, len + 1), unit)
      else CutLine(lines[0], budget, unit)
  }

  function NonEmpty(text: string): Option<string> {
    if text == "" then None else Some(text)
  }

  function Fitted(m: Message, head: nat, body: nat, unit: Unit): Message {
    var subject := Truncated(m.subject, head, unit);
    var rest := Truncated(m.rest, SaturatingSub(head, Measure(subject, unit)), unit);
    match m.code
    case None => Message(subject, rest, None, FitLines(m.lines, body, unit))
    case Some(code) =>
      var fitted := Truncated(code, body, unit);
      var budget := SaturatingSub(body, Measure(fitted, unit) + 1);
      Message(subject, rest, NonEmpty(fitted), if fitted != code then [] else FitLines(m.lines, budget, unit))
  }

  /** `fit` */
  method Fit(m: Message, head: nat, body: nat, unit: Unit) returns (fit: Message)
    ensures fit == Fitted(m, head, body, unit)
  {
    var subject := Truncate(m.subject, head, unit);
    var rest := Truncate(m.rest, SaturatingSub(head, Measure(subject, unit)), unit);
    var budget, code, lines := body, m.code, m.lines;
    if code.Some? {
      var fitted := Truncate(code.value, budget, unit);
      budget := SaturatingSub(budget, Measure(fitted, unit) + 1);
      if fitted != code.value {
        lines := [];
      }
      code := NonEmpty(fitted);
    }
    var kept := KeepFitting(lines, budget, unit);
    fit := Message(subject, rest, code, kept);
  }

  method KeepFitting(lines: seq<Line>, available: nat, unit: Unit) returns (kept: seq<Line>)
    ensures kept == FitLines(lines, available, unit)
  {
    hide LineLen, CutLine;
    var budget := available;
    kept := [];
    for i := 0 to |lines|
      invariant FitLines(lines, available, unit) == kept + FitLines(lines[i..], budget, unit)
    {
      var line := lines[i];
      var len := LineLen(line, unit);
      assert lines[i..][1..] == lines[i + 1..];
      if len <= budget {
        budget := SaturatingSub(budget, len + 1);
        assert kept + ([line] + FitLines(lines[i + 1..], budget, unit))
          == kept + [line] + FitLines(lines[i + 1..], budget, unit);
        kept := kept + [line];
        continue;
      }
      var cut := ShortenLine(line, budget, unit);
      kept := kept + cut;
      return;
    }
  }

  method ShortenLine(line: Line, budget: nat, unit: Unit) returns (cut: seq<Line>)
    ensures cut == CutLine(line, budget, unit)
  {
    match line {
      case Text(text) =>
        var out := Truncate(text, budget, unit);
        cut := [Text(out)];
      case Field(name, value) =>
        var room := SaturatingSub(budget, Measure(name, unit) + 2);
        if room > 0 {
          var out := Truncate(value, room, unit);
          cut := [Field(name, out)];
        } else {
          cut := [];
        }
    }
    if cut != [] && LineLen(cut[0], unit) == 0 {
      cut := [];
    }
  }

  // ---------------------------------------------------------------- limits

  /** The headline never exceeds its limit. */
  lemma HeadlineFits(m: Message, head: nat, body: nat, unit: Unit)
    ensures Measure(Headline(Fitted(m, head, body, unit)), unit) <= head
  {
    hide Measure, Truncated;
    var subject := Truncated(m.subject, head, unit);
    var _ := TruncateCuts(m.subject, head, unit);
    var _ := TruncateCuts(m.rest, head - Measure(subject, unit), unit);
    MeasureConcat(subject, Truncated(m.rest, head - Measure(subject, unit), unit), unit);
  }

  /** The lines with one separator each. */
  function Spent(lines: seq<Line>, unit: Unit): nat {
    if lines == [] then 0 else LineLen(lines[0], unit) + 1 + Spent(lines[1..], unit)
  }

  /** The lines from the `k`-th, and `more` after it, say nothing. */
  ghost predicate EmptyFrom(lines: seq<Line>, k: nat, more: nat, unit: Unit) {
    k + more < |lines| && forall j :: k <= j <= k + more ==> LineLen(lines[j], unit) == 0
  }

  /** The first `k` lines end one separator past the budget, and empty lines follow. */
  ghost predicate SpillsAt(lines: seq<Line>, k: nat, left: int, more: nat, unit: Unit) {
    k <= |lines| && Spent(lines[..k], unit) == left + 1 && EmptyFrom(lines, k, more, unit)
  }

  ghost predicate Spills(lines: seq<Line>, left: int, more: nat, unit: Unit) {
    exists k: nat :: SpillsAt(lines, k, left, more, unit)
  }

  lemma SpentFirst(lines: seq<Line>, k: nat, unit: Unit)
    requires 0 < k <= |lines|
    ensures Spent(lines[..k], unit) == LineLen(lines[0], unit) + 1 + Spent(lines[1..][..k - 1], unit)
  {
    assert lines[..k][1..] == lines[1..][..k - 1];
  }

  lemma CutLineFits(line: Line, budget: nat, unit: Unit)
    requires LineLen(line, unit) > budget
    ensures |CutLine(line, budget, unit)| <= 1
    ensures Spent(CutLine(line, budget, unit), unit) <= budget + 1
    ensures budget == 0 ==> CutLine(line, budget, unit) == []
    ensures CutLine(line, budget, unit) != [] ==> LineLen(CutLine(line, budget, unit)[0], unit) <= budget
  {
    match line {
      case Text(text) => var _ := TruncateCuts(text, budget, unit);
      case Field(name, value) => var _ := TruncateCuts(value, SaturatingSub(budget, Measure(name, unit) + 2), unit);
    }
  }

  /** The spill moves to the rest of the lines with the first one paid for. */
  lemma SpillsInTail(lines: seq<Line>, left: int, more: nat, unit: Unit)
    requires lines != [] && left >= 0
    ensures Spills(lines, left, more, unit) <==> Spills(lines[1..], left - LineLen(lines[0], unit) - 1, more, unit)
  {
    var rest, left' := lines[1..], left - LineLen(lines[0], unit) - 1;
    if k: nat :| SpillsAt(lines, k, left, more, unit) {
      SpentFirst(lines, k, unit);
      assert SpillsAt(rest, k - 1, left', more, unit);
    }
    if k: nat :| SpillsAt(rest, k, left', more, unit) {
      SpentFirst(lines, k + 1, unit);
      assert EmptyFrom(lines, k + 1, more, unit) by {
        assert forall j :: k + 1 <= j <= k + 1 + more ==> lines[j] == rest[j - 1];
      }
      assert SpillsAt(lines, k + 1, left, more, unit);
    }
  }

  /** With nothing left at all, only empty lines at the very front spill. */
  lemma SpillsAtFront(lines: seq<Line>, more: nat, unit: Unit)
    requires lines != []
    ensures Spills(lines, -1, more, unit) <==> EmptyFrom(lines, 0, more, unit)
  {
    if k: nat :| SpillsAt(lines, k, -1, more, unit) {
      if k > 0 {
        SpentFirst(lines, k, unit);
        assert false;
      }
    }
    if EmptyFrom(lines, 0, more, unit) {
      assert lines[..0] == [];
      assert SpillsAt(lines, 0, -1, more, unit);
    }
  }

  /** The budget, one of which may already be overdrawn by a separator, is exceeded exactly by a spill. */
  lemma {:induction false} LinesExceed(lines: seq<Line>, left: int, more: nat, unit: Unit)
    requires left >= -1
    ensures Spent(FitLines(lines, Max(left, 0), unit), unit) > left + 1 + more
       <==> Spills(lines, left, more, unit)
    decreases |lines|
  {
    hide Spills, EmptyFrom, CutLine;
    if lines == [] {
      NothingSpills(left, more, unit);
    } else {
      var len, rest := LineLen(lines[0], unit), lines[1..];
      if len > Max(left, 0) {
        CutLineFits(lines[0], Max(left, 0), unit);
        LongLineStops(lines, left, more, unit);
      } else {
        var fitted := FitLines(lines, Max(left, 0), unit);
        assert fitted[1..] == FitLines(rest, SaturatingSub(Max(left, 0), len + 1), unit);
        if left >= 0 {
          SpillsInTail(lines, left, more, unit);
          LinesExceed(rest, left - len - 1, more, unit);
        } else {
          SpillsAtFront(lines, more, unit);
          EmptyFromTail(lines, more, unit);
          if more > 0 {
            LinesExceed(rest, -1, more - 1, unit);
            if rest != [] {
              SpillsAtFront(rest, more - 1, unit);
            } else {
              NothingSpills(-1, more - 1, unit);
            }
          }
        }
      }
    }
  }

  lemma EmptyFromTail(lines: seq<Line>, more: nat, unit: Unit)
    requires lines != [] && LineLen(lines[0], unit) == 0
    ensures EmptyFrom(lines, 0, more, unit) <==> more == 0 || EmptyFrom(lines[1..], 0, more - 1, unit)
  {
    if more > 0 && EmptyFrom(lines[1..], 0, more - 1, unit) {
      forall j | 0 <= j <= more ensures LineLen(lines[j], unit) == 0 {
        assert j > 0 ==> lines[1..][j - 1] == lines[j];
      }
    }
    if more > 0 && EmptyFrom(lines, 0, more, unit) {
      assert forall j :: 0 <= j <= more - 1 ==> lines[1..][j] == lines[j + 1];
    }
  }

  lemma NothingSpills(left: int, more: nat, unit: Unit)
    ensures !Spills([], left, more, unit) && !EmptyFrom([], 0, more, unit)
  {
  }

  lemma LongLineStops(lines: seq<Line>, left: int, more: nat, unit: Unit)
    requires left >= -1 && lines != [] && LineLen(lines[0], unit) > Max(left, 0)
    ensures !Spills(lines, left, more, unit)
  {
    if k: nat :| SpillsAt(lines, k, left, more, unit) {
      if k > 0 {
        SpentFirst(lines, k, unit);
      }
      assert false;
    }
  }

  /** What the code block takes out of the body's budget. */
  function CodeSpent(code: Option<string>, unit: Unit): nat {
    if code.Some? then Measure(code.value, unit) + 1 else 0
  }

  /** An empty code block is dropped, but its separator was paid for. */
  function Spare(code: Option<string>): nat {
    if code == Some("") then 1 else 0
  }

  /** The guard a caller can check: the pieces fill the body to the brim and empty lines follow. */
  ghost predicate BrimsOver(m: Message, body: nat, unit: Unit) {
    Spills(m.lines, body - CodeSpent(m.code, unit), Spare(m.code), unit)
  }

  lemma {:induction false} MeasureJoin(pieces: seq<string>, unit: Unit)
    ensures Measure(Join(pieces), unit) + 1 == Total(pieces, unit) + if pieces == [] then 1 else 0
  {
    if |pieces| == 1 {
      assert pieces[..0] == [];
    } else if |pieces| > 1 {
      var front, last := pieces[..|pieces| - 1], pieces[|pieces| - 1];
      MeasureJoin(front, unit);
      MeasureConcat(Join(front), "\n", unit);
      MeasureConcat(Join(front) + "\n", last, unit);
      assert "\n"[..0] == "";
    }
  }

  /** The pieces with one separator each. */
  function Total(pieces: seq<string>, unit: Unit): nat {
    if pieces == [] then 0 else Total(pieces[..|pieces| - 1], unit) + Measure(pieces[|pieces| - 1], unit) + 1
  }

  lemma {:induction false} TotalOfConcat(a: seq<string>, b: seq<string>, unit: Unit)
    ensures Total(a + b, unit) == Total(a, unit) + Total(b, unit)
    decreases |b|
  {
    if b == [] {
      assert a + b == a;
    } else {
      TotalOfConcat(a, b[..|b| - 1], unit);
      assert (a + b)[..|a + b| - 1] == a + b[..|b| - 1];
    }
  }

  lemma MeasureLine(line: Line, unit: Unit)
    ensures Measure(PlainLine(line), unit) == LineLen(line, unit)
  {
    if line.Field? {
      MeasureConcat(line.name, ": ", unit);
      MeasureConcat(line.name + ": ", line.value, unit);
      assert ": "[..1] == ":" && ":"[..0] == "";
    }
  }

  lemma {:induction false} TotalOfLines(lines: seq<Line>, unit: Unit)
    ensures Total(PlainLines(lines), unit) == Spent(lines, unit)
  {
    if lines != [] {
      TotalOfLines(lines[1..], unit);
      MeasureLine(lines[0], unit);
      var first := [PlainLine(lines[0])];
      assert first[..0] == [];
      TotalOfConcat(first, PlainLines(lines[1..]), unit);
      assert PlainLines(lines) == first + PlainLines(lines[1..]);
    }
  }

  /** The plain body, separators included. */
  lemma MeasureBody(m: Message, unit: Unit)
    ensures var total := CodeSpent(m.code, unit) + Spent(m.lines, unit);
            Measure(PlainBody(m), unit) == SaturatingSub(total, 1)
  {
    hide Measure;
    MeasureJoin(Pieces(m), unit);
    TotalOfLines(m.lines, unit);
    if m.code.Some? {
      TotalOfConcat([m.code.value], PlainLines(m.lines), unit);
      assert [m.code.value][..0] == [];
    } else {
      assert Pieces(m) == PlainLines(m.lines);
    }
    if m.code.None? && m.lines == [] {
      assert Pieces(m) == [];
    }
  }

  /**
   * The fitted body exceeds its limit exactly when the pieces fill it to the last
   * unit and an empty line follows (two, after an empty code block).
   */
  lemma BodyExceedsIffBrimsOver(m: Message, head: nat, body: nat, unit: Unit)
    ensures Measure(PlainBody(Fitted(m, head, body, unit)), unit) > body <==> BrimsOver(m, body, unit)
  {
    hide FitLines, Spent, Measure, PlainBody, Spills;
    MeasureBody(Fitted(m, head, body, unit), unit);
    MeasureEmpty(unit);
    if m.code.None? {
      LinesExceed(m.lines, body, 0, unit);
    } else {
      var code := m.code.value;
      var _ := TruncateCuts(code, body, unit);
      if Measure(code, unit) > body {
        SpentNothing(unit);
        CutCodeNeverSpills(m, body, unit);
      } else {
        LinesExceed(m.lines, body - CodeSpent(m.code, unit), Spare(m.code), unit);
      }
    }
  }

  lemma MeasureEmpty(unit: Unit)
    ensures Measure("", unit) == 0
  {
  }

  lemma SpentNothing(unit: Unit)
    ensures Spent([], unit) == 0
  {
  }

  lemma CutCodeNeverSpills(m: Message, body: nat, unit: Unit)
    requires m.code.Some? && Measure(m.code.value, unit) > body
    ensures !BrimsOver(m, body, unit)
  {
  }

  /** When no line is empty, both limits hold, in either unit. */
  lemma FitsWithinLimits(m: Message, head: nat, body: nat, unit: Unit)
    requires forall i :: 0 <= i < |m.lines| ==> LineLen(m.lines[i], unit) > 0
    ensures Measure(Headline(Fitted(m, head, body, unit)), unit) <= head
    ensures Measure(PlainBody(Fitted(m, head, body, unit)), unit) <= body
  {
    HeadlineFits(m, head, body, unit);
    BodyExceedsIffBrimsOver(m, head, body, unit);
    NothingEmptyNoSpill(m.lines, body - CodeSpent(m.code, unit), Spare(m.code), unit);
  }

  lemma NothingEmptyNoSpill(lines: seq<Line>, left: int, more: nat, unit: Unit)
    requires forall i :: 0 <= i < |lines| ==> LineLen(lines[i], unit) > 0
    ensures !Spills(lines, left, more, unit)
  {
    hide LineLen, Spent;
    forall k: nat ensures !SpillsAt(lines, k, left, more, unit) {
      if k < |lines| {
        assert LineLen(lines[k], unit) > 0;
      }
    }
  }

  /** The promise fails on an empty line: a body cut to one character comes out longer. */
  lemma EmptyLineBreaksTheLimit(unit: Unit)
    ensures var m := Message("API", " is DOWN", None, [Text("a"), Text("")]);
            Measure(PlainBody(Fitted(m, 20, 1, unit)), unit) > 1
  {
    var m := Message("API", " is DOWN", None, [Text("a"), Text("")]);
    hide Measure, Spent, PlainBody, Fitted;
    assert m.lines[..1] == [Text("a")];
    OneCharSpent(unit);
    MeasureEmpty(unit);
    assert SpillsAt(m.lines, 1, 1, 0, unit);
    BodyExceedsIffBrimsOver(m, 20, 1, unit);
  }

  lemma OneCharSpent(unit: Unit)
    ensures Spent([Text("a")], unit) == 2
  {
    assert "a"[..0] == "" && [Text("a")][1..] == [];
  }

  // ---------------------------------------------------------------- what is kept

  /**
   * The original when it fits; otherwise its longest prefix that does, marked by an ellipsis whenever
   * that fits too.
   */
  ghost predicate Shortened(out: string, text: string, max: nat, unit: Unit) {
    if Measure(text, unit) <= max then out == text else exists n: nat :: CutAfter(out, text, n, max, unit)
  }

  lemma TruncatedIsShortened(text: string, max: nat, unit: Unit)
    ensures Shortened(Truncated(text, max, unit), text, max, unit)
  {
    var n := TruncateCuts(text, max, unit);
  }

  ghost predicate LineShortened(out: Line, line: Line, budget: nat, unit: Unit) {
    match (out, line)
    case (Text(cut), Text(text)) => Shortened(cut, text, budget, unit)
    case (Field(name, cut), Field(name', value)) =>
      && name == name' && Measure(name, unit) + 2 < budget
      && Shortened(cut, value, budget - (Measure(name, unit) + 2), unit)
    case _ => false
  }

  /** Not even an ellipsis of the line fits. */
  predicate NoRoom(line: Line, budget: nat, unit: Unit) {
    match line
    case Text(_) => budget < Cost(ELLIPSIS, unit)
    case Field(name, _) => budget <= Measure(name, unit) + 2
  }

  /** What is left of a budget after the first `n` lines. */
  function Left(lines: seq<Line>, n: nat, budget: nat, unit: Unit): nat
    requires n <= |lines|
  {
    SaturatingSub(budget, Spent(lines[..n], unit))
  }

  /**
   * The first `n` lines fit and are whole; the next, the first that does not fit, is shortened or
   * dropped; nothing follows.
   */
  ghost predicate Kept(out: seq<Line>, lines: seq<Line>, n: nat, budget: nat, unit: Unit) {
    && n <= |lines|
    && (forall k :: 0 <= k < n ==> LineLen(lines[k], unit) <= Left(lines, k, budget, unit))
    && if n == |lines| then out == lines else CutAt(out, lines, n, Left(lines, n, budget, unit), unit)
  }

  ghost predicate CutAt(out: seq<Line>, lines: seq<Line>, n: nat, left: nat, unit: Unit)
    requires n < |lines|
  {
    && LineLen(lines[n], unit) > left
    && ((out == lines[..n] && NoRoom(lines[n], left, unit))
        || exists cut :: LineShortened(cut, lines[n], left, unit) && out == lines[..n] + [cut])
  }

  lemma {:induction false} LinesAreKept(lines: seq<Line>, budget: nat, unit: Unit) returns (n: nat)
    ensures Kept(FitLines(lines, budget, unit), lines, n, budget, unit)
  {
    hide LineShortened, NoRoom, CutLine, LineLen, Measure;
    n := 0;
    if lines != [] {
      var len := LineLen(lines[0], unit);
      assert lines[..0] == [] && Left(lines, 0, budget, unit) == budget;
      if len <= budget {
        var rest := SaturatingSub(budget, len + 1);
        n := LinesAreKept(lines[1..], rest, unit);
        KeptAfter(lines, FitLines(lines[1..], rest, unit), n, budget, unit);
        n := n + 1;
      } else {
        CutLineShortens(lines[0], budget, unit);
        var cut := CutLine(lines[0], budget, unit);
        if cut != [] {
          assert cut == [] + [cut[0]];
        }
      }
    }
  }

  lemma LeftAfter(lines: seq<Line>, k: nat, budget: nat, unit: Unit)
    requires k < |lines|
    ensures Left(lines, k + 1, budget, unit)
      == Left(lines[1..], k, SaturatingSub(budget, LineLen(lines[0], unit) + 1), unit)
  {
    hide LineLen;
    SpentFirst(lines, k + 1, unit);
  }

  lemma KeptAfter(lines: seq<Line>, rest: seq<Line>, n: nat, budget: nat, unit: Unit)
    requires lines != [] && LineLen(lines[0], unit) <= budget
    requires Kept(rest, lines[1..], n, SaturatingSub(budget, LineLen(lines[0], unit) + 1), unit)
    ensures Kept([lines[0]] + rest, lines, n + 1, budget, unit)
  {
    hide LineShortened, NoRoom, LineLen, Measure, Left;
    var tail, out := lines[1..], [lines[0]] + rest;
    forall k | 0 <= k < n + 1 ensures LineLen(lines[k], unit) <= Left(lines, k, budget, unit) {
      if k == 0 {
        NothingSpent(lines, budget, unit);
      } else {
        LeftAfter(lines, k - 1, budget, unit);
        assert tail[k - 1] == lines[k];
      }
    }
    if n < |tail| {
      LeftAfter(lines, n, budget, unit);
      assert lines[..n + 1] == [lines[0]] + tail[..n];
      if cut :| LineShortened(cut, tail[n], Left(lines, n + 1, budget, unit), unit) && rest == tail[..n] + [cut] {
        assert out == lines[..n + 1] + [cut];
      }
    } else {
      assert out == lines;
    }
  }

  lemma NothingSpent(lines: seq<Line>, budget: nat, unit: Unit)
    ensures Left(lines, 0, budget, unit) == budget
  {
    assert lines[..0] == [];
  }

  lemma CutLineShortens(line: Line, budget: nat, unit: Unit)
    requires LineLen(line, unit) > budget
    ensures |CutLine(line, budget, unit)| <= 1
    ensures if CutLine(line, budget, unit) == [] then NoRoom(line, budget, unit)
            else LineShortened(CutLine(line, budget, unit)[0], line, budget, unit)
  {
    hide Measure, Shortened, Truncated;
    match line {
      case Text(text) =>
        TruncatedIsShortened(text, budget, unit);
        if budget >= Cost(ELLIPSIS, unit) {
          CutTextSays(text, budget, unit);
        }
      case Field(name, value) =>
        TruncatedIsShortened(value, SaturatingSub(budget, Measure(name, unit) + 2), unit);
    }
  }

  /** With room for the ellipsis, something of a cut text is left. */
  lemma CutTextSays(text: string, budget: nat, unit: Unit)
    requires Measure(text, unit) > budget >= Cost(ELLIPSIS, unit)
    ensures Measure(Truncated(text, budget, unit), unit) > 0
  {
    var n := TruncateCuts(text, budget, unit);
    MeasureConcat(text[..n], Mark(budget, unit), unit);
    MeasureMark(budget, unit);
  }

  /**
   * Every piece is the original or its longest fitting prefix, marked when there is room, and nothing
   * of the body follows a cut piece.
   */
  lemma PiecesAreKept(m: Message, head: nat, body: nat, unit: Unit) returns (n: nat)
    ensures var fit := Fitted(m, head, body, unit);
      && Shortened(fit.subject, m.subject, head, unit)
      && Shortened(fit.rest, m.rest, SaturatingSub(head, Measure(fit.subject, unit)), unit)
      && (m.code.None? ==> fit.code.None? && Kept(fit.lines, m.lines, n, body, unit))
      && (m.code.Some? ==>
            && Shortened(if fit.code.Some? then fit.code.value else "", m.code.value, body, unit)
            && if Measure(m.code.value, unit) > body then fit.lines == []
               else Kept(fit.lines, m.lines, n, SaturatingSub(body, CodeSpent(m.code, unit)), unit))
  {
    hide Measure, Shortened, FitLines, Kept;
    n := 0;
    TruncatedIsShortened(m.subject, head, unit);
    TruncatedIsShortened(m.rest, SaturatingSub(head, Measure(Truncated(m.subject, head, unit), unit)), unit);
    if m.code.None? {
      n := LinesAreKept(m.lines, body, unit);
    } else {
      TruncatedIsShortened(m.code.value, body, unit);
      var _ := TruncateCuts(m.code.value, body, unit);
      if Measure(m.code.value, unit) <= body {
        n := LinesAreKept(m.lines, SaturatingSub(body, CodeSpent(m.code, unit)), unit);
      }
    }
  }

  // ---------------------------------------------------------------- fitting again

  /** Lines that fitted a budget fit it again, or a larger one, untouched. */
  lemma {:induction false} RefitLines(lines: seq<Line>, budget: nat, budget': nat, unit: Unit)
    requires budget <= budget'
    ensures FitLines(FitLines(lines, budget, unit), budget', unit) == FitLines(lines, budget, unit)
    decreases |lines|
  {
    hide CutLine, LineLen;
    if lines != [] {
      var len := LineLen(lines[0], unit);
      if len <= budget {
        RefitLines(lines[1..], SaturatingSub(budget, len + 1), SaturatingSub(budget', len + 1), unit);
        var fitted := FitLines(lines, budget, unit);
        assert fitted[1..] == FitLines(lines[1..], SaturatingSub(budget, len + 1), unit);
      } else {
        CutLineFits(lines[0], budget, unit);
        var cut := CutLine(lines[0], budget, unit);
        if cut != [] {
          assert cut[1..] == [];
          assert cut == [cut[0]];
        }
      }
    }
  }

  /** Fitting is idempotent, for every message, limits and unit. */
  lemma FitIsIdempotent(m: Message, head: nat, body: nat, unit: Unit)
    ensures Fitted(Fitted(m, head, body, unit), head, body, unit) == Fitted(m, head, body, unit)
  {
    hide FitLines, Measure;
    var subject := Truncated(m.subject, head, unit);
    var _ := TruncateCuts(m.subject, head, unit);
    var _ := TruncateCuts(m.rest, SaturatingSub(head, Measure(subject, unit)), unit);
    MeasureEmpty(unit);
    if m.code.None? {
      RefitLines(m.lines, body, body, unit);
    } else {
      var _ := TruncateCuts(m.code.value, body, unit);
      var fitted := Truncated(m.code.value, body, unit);
      var budget := SaturatingSub(body, Measure(fitted, unit) + 1);
      RefitLines(m.lines, budget, if fitted == "" then body else budget, unit);
      RefitLines([], budget, if fitted == "" then body else budget, unit);
      NoLines(budget, unit);
    }
  }

  lemma NoLines(budget: nat, unit: Unit)
    ensures FitLines([], budget, unit) == []
  {
  }
}
