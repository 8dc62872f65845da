/** What each event puts in a message, and that every channel's limits hold for all of them. */
module Rendering {
  import opened Wrappers
  import opened Messages

  const MAX_SUMMARY_CHARS := 300

  /** The peers' verdict in words: in every case a phrase. */
  type Phrase = s: string | s != "" witness "no peer"

  /** What a release brings: cut to the longest summary, plus an ellipsis. */
  type Summary = s: string | |s| <= MAX_SUMMARY_CHARS + 1

  /** The last space of a text, if it has one. */
  function LastSpace(text: string): (at: Option<nat>)
    ensures at.Some? ==> at.value < |text|
  {
    if text == "" then None
    else if text[|text| - 1] == ' ' then Some(|text| - 1)
    else LastSpace(text[..|text| - 1])
  }

  function TrimEnd(text: string): (trimmed: string)
    ensures trimmed <= text
  {
    if text != "" && text[|text| - 1] in ",;:." then TrimEnd(text[..|text| - 1]) else text
  }

  /** `cap`: a text within the longest summary is left alone, a longer one is cut on a word. */
  function Cap(text: string): (summary: Summary)
    ensures |text| <= MAX_SUMMARY_CHARS ==> summary == text
    ensures |text| > MAX_SUMMARY_CHARS ==> exists n: nat :: n <= MAX_SUMMARY_CHARS && summary == text[..n] + [ELLIPSIS]
  {
    if |text| <= MAX_SUMMARY_CHARS then text
    else
      var cut := text[..MAX_SUMMARY_CHARS];
      var at := LastSpace(cut);
      var head := if at.Some? then cut[..at.value] else cut;
      assert TrimEnd(head) == text[..|TrimEnd(head)|];
      TrimEnd(head) + [ELLIPSIS]
  }

  /** Phrases that only the headline carries (an expiry, a burn rate, a latency) are given as text. */
  datatype Event =
    | Down(monitor: string, error: Option<string>, cause: Option<string>, impacted: seq<string>,
           vantage: Option<Phrase>, change: Option<string>)
    | Degraded(monitor: string, latency: string, detail: Option<string>)
    | Recovered(monitor: string)
    | CertExpiring(monitor: string, expiry: string)
    | CertUnreadable(monitor: string, reason: string)
    | DomainExpiring(monitor: string, domain: string, expiry: string)
    | ReleaseAvailable(monitor: string, phrase: string, url: string, notes: Option<Summary>)
    | PeerLinkDegraded(peer: string, seenBy: string)
    | CertChanged(monitor: string, known: string, found: string)
    | Digest(period: string, summary: string)
    | BudgetBurn(monitor: string, phrase: string)
    | Alert(monitor: string, severity: string, title: string, message: string)

  function Digits(n: nat): string {
    if n < 10 then [('0' as int + n) as char] else Digits(n / 10) + [('0' as int + n % 10) as char]
  }

  function Joined(names: seq<string>): string {
    if names == [] then ""
    else if |names| == 1 then names[0]
    else Joined(names[..|names| - 1]) + ", " + names[|names| - 1]
  }

  function DownLines(e: Event): seq<Line>
    requires e.Down?
  {
    (if e.cause.Some? then [Text("caused by " + e.cause.value)]
     else if e.impacted != [] then [Text("impacts " + Digits(|e.impacted|) + ": " + Joined(e.impacted))]
     else [])
    + (if e.vantage.Some? then [Text(e.vantage.value)] else [])
    + (if e.change.Some? then [Text("recent change: " + e.change.value)] else [])
  }

  const CHANGE_WARNING: string := "This may indicate a MITM attack or an unexpected certificate renewal."

  const EXPIRY_WARNING: string := "Its expiry is not watched until it can be read again."

  /** `details` */
  function Details(e: Event): (Option<string>, seq<Line>) {
    match e
    case Down(_, error, _, _, _, _) => (Some(if error.Some? then error.value else "no response"), DownLines(e))
    case ReleaseAvailable(_, _, url, notes) => (None, (if notes.Some? then [Text(notes.value)] else []) + [Text(url)])
    case Digest(_, summary) => (None, [Text(summary)])
    case PeerLinkDegraded(_, seenBy) =>
      (None, [Text("unreachable from here, but still seen up by " + seenBy + " (likely a network partition)")])
    case CertChanged(_, known, found) =>
      (None, [Field("old", known), Field("new", found),
              Text(CHANGE_WARNING)])
    case CertUnreadable(_, reason) =>
      (Some(reason), [Text(EXPIRY_WARNING)])
    case Alert(_, _, _, message) => (None, if message != "" then [Text(message)] else [])
    case Degraded(_, _, detail) => (None, if detail.Some? && detail.value != "" then [Text(detail.value)] else [])
    case _ => (None, [])
  }

  /** The headline: its bold part and the rest of the sentence. */
  function HeadlineOf(e: Event): (string, string) {
    match e
    case Down(monitor, _, _, _, _, _) => (monitor, " is DOWN")
    case Degraded(monitor, latency, _) => (monitor, " is slow" + latency)
    case Recovered(monitor) => (monitor, " recovered")
    case CertExpiring(monitor, expiry) => (monitor, " TLS certificate " + expiry)
    case CertUnreadable(monitor, _) => (monitor, " TLS certificate could not be read")
    case DomainExpiring(monitor, domain, expiry) => (monitor, " domain " + domain + " " + expiry)
    case ReleaseAvailable(monitor, phrase, _, _) => (monitor, ": " + phrase)
    case PeerLinkDegraded(peer, _) => (peer, " link degraded")
    case CertChanged(monitor, _, _) => (monitor, " TLS certificate changed unexpectedly")
    case Digest(period, _) => ("Hora digest", " (" + period + ")")
    case BudgetBurn(monitor, phrase) => (monitor, " " + phrase)
    case Alert(monitor, severity, title, _) => ("[" + severity + "] " + monitor, ": " + title)
  }

  /** `render` */
  function Render(e: Event): Message {
    Message(HeadlineOf(e).0, HeadlineOf(e).1, Details(e).0, Details(e).1)
  }

  // ---------------------------------------------------------------- what a message says

  /** Where a longer text is cut: at the last space within the limit, if any, and before the punctuation there. */
  ghost predicate IsWordCut(text: string, n: nat, m: nat) {
    && n <= m <= MAX_SUMMARY_CHARS < |text|
    && (m < MAX_SUMMARY_CHARS ==> text[m] == ' ')
    && (forall i :: (if m == MAX_SUMMARY_CHARS then 0 else m + 1) <= i < MAX_SUMMARY_CHARS ==> text[i] != ' ')
    && (forall i :: n <= i < m ==> text[i] in ",;:.")
    && (n > 0 ==> text[n - 1] !in ",;:.")
  }

  lemma {:induction false} LastSpaceIsLast(text: string)
    ensures var at := LastSpace(text);
      && (at.Some? ==> text[at.value] == ' ')
      && forall i :: (if at.Some? then at.value + 1 else 0) <= i < |text| ==> text[i] != ' '
  {
    if text != "" && text[|text| - 1] != ' ' {
      LastSpaceIsLast(text[..|text| - 1]);
    }
  }

  lemma {:induction false} TrimEndTrims(text: string)
    ensures var n := |TrimEnd(text)|;
      && (forall i :: n <= i < |text| ==> text[i] in ",;:.")
      && (n > 0 ==> text[n - 1] !in ",;:.")
  {
    if text != "" && text[|text| - 1] in ",;:." {
      TrimEndTrims(text[..|text| - 1]);
    }
  }

  /** A summary too long ends on a whole word, without the punctuation after it, and with an ellipsis. */
  lemma CapCutsOnAWord(text: string) returns (n: nat, m: nat)
    requires |text| > MAX_SUMMARY_CHARS
    ensures IsWordCut(text, n, m) && Cap(text) == text[..n] + [ELLIPSIS]
  {
    var cut := text[..MAX_SUMMARY_CHARS];
    var at := LastSpace(cut);
    m := if at.Some? then at.value else MAX_SUMMARY_CHARS;
    var head := cut[..m];
    LastSpaceIsLast(cut);
    TrimEndTrims(head);
    n := |TrimEnd(head)|;
    assert head == if at.Some? then cut[..at.value] else cut;
    assert TrimEnd(head) == text[..n];
  }

  ghost predicate Contains(text: string, part: string) {
    exists before, after :: text == before + part + after
  }

  lemma ContainsMore(before: string, text: string, after: string, part: string)
    requires Contains(text, part)
    ensures Contains(before + text + after, part)
  {
    var b, a :| text == b + part + a;
    assert before + text + after == (before + b) + part + (a + after);
  }

  lemma {:induction false} JoinedContains(names: seq<string>, i: nat)
    requires i < |names|
    ensures Contains(Joined(names), names[i])
  {
    if |names| == 1 {
      assert names[0] == "" + names[0] + "";
    } else {
      var front := names[..|names| - 1];
      if i < |front| {
        JoinedContains(front, i);
        ContainsMore("", Joined(front), ", " + names[|front|], front[i]);
        assert Joined(names) == "" + Joined(front) + (", " + names[|front|]);
      } else {
        assert Joined(names) == (Joined(front) + ", ") + names[i] + "";
      }
    }
  }

  /** All that an event knows, its monitor first. */
  function Facts(e: Event): seq<string> {
    match e
    case Down(monitor, error, cause, impacted, vantage, change) =>
      [monitor, if error.Some? then error.value else "no response"]
      + (if cause.Some? then [cause.value] else impacted)
      + (if vantage.Some? then [vantage.value] else [])
      + (if change.Some? then [change.value] else [])
    case Degraded(monitor, latency, detail) => [monitor, latency] + if detail.Some? then [detail.value] else []
    case Recovered(monitor) => [monitor]
    case CertExpiring(monitor, expiry) => [monitor, expiry]
    case CertUnreadable(monitor, reason) => [monitor, reason]
    case DomainExpiring(monitor, domain, expiry) => [monitor, domain, expiry]
    case ReleaseAvailable(monitor, phrase, url, notes) =>
      [monitor, phrase, url] + if notes.Some? then [notes.value] else []
    case PeerLinkDegraded(peer, seenBy) => [peer, seenBy]
    case CertChanged(monitor, known, found) => [monitor, known, found]
    case Digest(period, summary) => [period, summary]
    case BudgetBurn(monitor, phrase) => [monitor, phrase]
    case Alert(monitor, severity, title, message) => [monitor, severity, title, message]
  }

  /** Said in the headline, in the code block or on a line. */
  ghost predicate Says(m: Message, fact: string) {
    || Contains(m.subject, fact) || Contains(m.rest, fact)
    || (m.code.Some? && Contains(m.code.value, fact))
    || exists i :: 0 <= i < |m.lines| && Contains(PlainLine(m.lines[i]), fact)
  }

  lemma ContainsLast(before: string, part: string)
    ensures Contains(before + part, part) && Contains(part, part)
  {
    assert before + part == before + part + "" && part == "" + part + "";
  }

  lemma ContainsWithin(before: string, part: string, after: string)
    ensures Contains(before + part + after, part)
  {
  }

  lemma ContainsNothing(text: string)
    ensures Contains(text, "")
  {
    assert text == "" + "" + text;
  }

  lemma SaidOnLine(m: Message, line: Line, fact: string)
    requires line in m.lines && Contains(PlainLine(line), fact)
    ensures Says(m, fact)
  {
    var i :| 0 <= i < |m.lines| && m.lines[i] == line;
    assert Contains(PlainLine(m.lines[i]), fact);
  }

  lemma DownSaysImpacted(e: Event, i: nat)
    requires e.Down? && e.cause.None? && i < |e.impacted|
    ensures Says(Render(e), e.impacted[i])
  {
    hide Contains, Says, Joined, Digits;
    var said, names := "impacts " + Digits(|e.impacted|) + ": ", Joined(e.impacted);
    JoinedContains(e.impacted, i);
    ContainsMore(said, names, "", e.impacted[i]);
    assert said + names + "" == said + names;
    assert Text(said + names) == DownLines(e)[0];
    SaidOnLine(Render(e), Text(said + names), e.impacted[i]);
  }

  /** A down tells what failed, its cause or else what it takes along, the peers' verdict and what changed. */
  lemma DownSaysEverything(e: Event, fact: string)
    requires e.Down? && fact in Facts(e)
    ensures Says(Render(e), fact)
  {
    var m := Render(e);
    if fact == e.monitor || m.code == Some(fact) {
      ContainsLast("", fact);
    } else if e.cause == Some(fact) {
      ContainsLast("caused by ", fact);
      assert m.lines[0] == Text("caused by " + fact);
      SaidOnLine(m, m.lines[0], fact);
    } else if e.cause.None? && fact in e.impacted {
      var i :| 0 <= i < |e.impacted| && e.impacted[i] == fact;
      DownSaysImpacted(e, i);
    } else {
      DownSaysMore(e, fact);
    }
  }

  lemma DownSaysMore(e: Event, fact: string)
    requires e.Down? && (e.change == Some(fact) || (e.vantage.Some? && fact == e.vantage.value))
    ensures Says(Render(e), fact)
  {
    hide Contains, Says, Joined, Digits;
    var line := if e.change == Some(fact) then Text("recent change: " + fact) else Text(fact);
    ContainsLast("recent change: ", fact);
    assert line in DownLines(e);
    SaidOnLine(Render(e), line, fact);
  }

  lemma HeadlineSays(e: Event, fact: string)
    requires e.Degraded? || e.Recovered? || e.CertExpiring? || e.BudgetBurn?
    requires fact in Facts(e) && (e.Degraded? ==> e.detail != Some(fact))
    ensures Says(Render(e), fact)
  {
    hide Contains;
    ContainsLast("", fact);
    match e {
      case Degraded(_, _, _) => ContainsLast(" is slow", fact);
      case CertExpiring(_, _) => ContainsLast(" TLS certificate ", fact);
      case BudgetBurn(_, _) => ContainsLast(" ", fact);
      case _ =>
    }
  }

  lemma DomainSays(e: Event, fact: string)
    requires e.DomainExpiring? && fact in Facts(e)
    ensures Says(Render(e), fact)
  {
    hide Contains;
    ContainsLast("", fact);
    DomainIsNamed(e.domain, e.expiry);
  }

  lemma DomainIsNamed(domain: string, expiry: string)
    ensures Contains(" domain " + domain + " " + expiry, domain) && Contains(" domain " + domain + " " + expiry, expiry)
  {
    var before: string := " domain ";
    assert before + domain + " " + expiry == before + domain + (" " + expiry);
    ContainsWithin(before, domain, " " + expiry);
    ContainsLast(before + domain + " ", expiry);
  }

  lemma ReleaseSays(e: Event, fact: string)
    requires e.ReleaseAvailable? && fact in Facts(e)
    ensures Says(Render(e), fact)
  {
    hide Contains;
    ContainsLast("", fact);
    ContainsLast(": ", fact);
    if fact != e.monitor && fact != e.phrase {
      SaidOnLine(Render(e), Text(fact), fact);
    }
  }

  lemma LinkSays(e: Event, fact: string)
    requires e.PeerLinkDegraded? && fact in Facts(e)
    ensures Says(Render(e), fact)
  {
    hide Contains;
    ContainsLast("", fact);
    ContainsWithin("unreachable from here, but still seen up by ", fact, " (likely a network partition)");
    if fact == e.seenBy {
      SaidOnLine(Render(e), Render(e).lines[0], fact);
    }
  }

  lemma UnreadableSays(e: Event, fact: string)
    requires e.CertUnreadable? && fact in Facts(e)
    ensures Says(Render(e), fact)
  {
    hide Contains;
    ContainsLast("", fact);
  }

  lemma CertSays(e: Event, fact: string)
    requires e.CertChanged? && fact in Facts(e)
    ensures Says(Render(e), fact)
  {
    hide Contains, PlainLine;
    ContainsLast("", fact);
    if fact != e.monitor {
      var name := if fact == e.known then "old" else "new";
      FieldSays(name, fact);
      FieldIsThere(e, fact);
      SaidOnLine(Render(e), Field(name, fact), fact);
    }
  }

  lemma FieldIsThere(e: Event, fact: string)
    requires e.CertChanged? && (fact == e.known || fact == e.found)
    ensures Field(if fact == e.known then "old" else "new", fact) in Details(e).1
  {
  }

  lemma FieldSays(name: string, value: string)
    ensures Contains(PlainLine(Field(name, value)), value)
  {
    ContainsLast(name + ": ", value);
  }

  lemma DigestSays(e: Event, fact: string)
    requires e.Digest? && fact in Facts(e)
    ensures Says(Render(e), fact)
  {
    hide Contains;
    ContainsLast("", fact);
    ContainsWithin(" (", fact, ")");
    if fact == e.summary {
      SaidOnLine(Render(e), Text(fact), fact);
    }
  }

  lemma AlertSays(e: Event, fact: string)
    requires e.Alert? && fact in Facts(e)
    ensures Says(Render(e), fact)
  {
    hide Contains, Says;
    var m := Render(e);
    assert fact == e.monitor || fact == e.severity || fact == e.title || fact == e.message;
    if fact == e.message {
      MessageSays(e);
    } else {
      SubjectSays(e, fact);
    }
  }

  lemma MessageSays(e: Event)
    requires e.Alert?
    ensures Says(Render(e), e.message)
  {
    hide Contains;
    ContainsLast("", e.message);
    ContainsNothing(Render(e).subject);
    if e.message != "" {
      SaidOnLine(Render(e), Text(e.message), e.message);
    }
  }

  lemma SubjectSays(e: Event, fact: string)
    requires e.Alert? && (fact == e.monitor || fact == e.severity || fact == e.title)
    ensures Says(Render(e), fact)
  {
    hide Contains;
    if fact == e.monitor {
      ContainsLast("[" + e.severity + "] ", fact);
    } else if fact == e.title {
      ContainsLast(": ", fact);
    } else {
      ContainsWithin("[", fact, "] " + e.monitor);
      assert "[" + fact + ("] " + e.monitor) == "[" + fact + "] " + e.monitor;
    }
  }

  lemma DetailSays(e: Event, fact: string)
    requires e.Degraded? && e.detail == Some(fact)
    ensures Says(Render(e), fact)
  {
    hide Contains;
    ContainsLast("", fact);
    ContainsNothing(Render(e).subject);
    if fact != "" {
      SaidOnLine(Render(e), Text(fact), fact);
    }
  }

  /** Before it is cut to a channel's limits, a message says everything its event knows. */
  lemma NothingIsLeftUnsaid(e: Event, fact: string)
    requires fact in Facts(e)
    ensures Says(Render(e), fact)
  {
    hide Says;
    match e {
      case Down(_, _, _, _, _, _) => DownSaysEverything(e, fact);
      case Alert(_, _, _, _) => AlertSays(e, fact);
      case DomainExpiring(_, _, _) => DomainSays(e, fact);
      case ReleaseAvailable(_, _, _, _) => ReleaseSays(e, fact);
      case PeerLinkDegraded(_, _) => LinkSays(e, fact);
      case CertChanged(_, _, _) => CertSays(e, fact);
      case CertUnreadable(_, _) => UnreadableSays(e, fact);
      case Digest(_, _) => DigestSays(e, fact);
      case Degraded(_, _, detail) =>
        if detail == Some(fact) {
          DetailSays(e, fact);
        } else {
          HeadlineSays(e, fact);
        }
      case _ => HeadlineSays(e, fact);
    }
  }

  // ---------------------------------------------------------------- limits

  /** More than any release summary takes up. */
  predicate Roomy(body: nat, unit: Unit) {
    body > if unit.Chars? then MAX_SUMMARY_CHARS + 1 else 4 * (MAX_SUMMARY_CHARS + 1)
  }

  lemma {:induction false} MeasureAtMost(text: string, unit: Unit)
    ensures Measure(text, unit) <= if unit.Chars? then |text| else 4 * |text|
  {
    if text != "" {
      MeasureAtMost(text[..|text| - 1], unit);
    }
  }

  lemma {:induction false} MeasureAtLeast(text: string, unit: Unit)
    ensures Measure(text, unit) >= |text|
  {
    if text != "" {
      MeasureAtLeast(text[..|text| - 1], unit);
    }
  }

  lemma TextSays(text: string, unit: Unit)
    requires text != ""
    ensures LineLen(Text(text), unit) > 0
  {
    MeasureAtLeast(text, unit);
  }

  /** Every line of a down says something: the verdict because it always does, the others by their wording. */
  lemma DownSaysSomething(e: Event, unit: Unit)
    requires e.Down?
    ensures forall i :: 0 <= i < |DownLines(e)| ==> LineLen(DownLines(e)[i], unit) > 0
  {
    hide Measure;
    forall i | 0 <= i < |DownLines(e)| ensures LineLen(DownLines(e)[i], unit) > 0 {
      var line := DownLines(e)[i];
      assert line.Text? && line.text != "";
      TextSays(line.text, unit);
    }
  }

  lemma FewLinesNeverSpill(lines: seq<Line>, left: nat, more: nat, unit: Unit)
    requires |lines| <= 1
    ensures !Spills(lines, left, more, unit)
  {
    forall k: nat ensures !SpillsAt(lines, k, left, more, unit) {
      if k == 0 {
        assert lines[..0] == [];
      }
    }
  }

  /** A release's page can be empty, but its notes are too short to leave no room for it. */
  lemma ReleaseNeverSpills(notes: Summary, url: string, body: nat, unit: Unit)
    requires Roomy(body, unit)
    ensures !Spills([Text(notes), Text(url)], body, 0, unit)
  {
    hide Measure;
    var lines := [Text(notes), Text(url)];
    MeasureAtMost(notes, unit);
    assert lines[..0] == [] && lines[..1] == [Text(notes)] && [Text(notes)][1..] == [];
    assert Spent(lines[..1], unit) == Measure(notes, unit) + 1;
    forall k: nat ensures !SpillsAt(lines, k, body, 0, unit) {
      assert k == 0 || k == 1 || k >= 2;
    }
  }

  /** The other events have one line at most, and no code block. */
  predicate HasFewLines(e: Event) {
    !e.Down? && !e.ReleaseAvailable? && !e.CertChanged? && !e.CertUnreadable?
  }

  lemma FewLines(e: Event)
    requires HasFewLines(e)
    ensures Details(e).0.None? && |Details(e).1| <= 1
  {
  }

  lemma CertLinesSaySomething(e: Event, unit: Unit)
    requires e.CertChanged? || e.CertUnreadable?
    ensures forall i :: 0 <= i < |Details(e).1| ==> LineLen(Details(e).1[i], unit) > 0
  {
    hide Measure;
    if e.CertChanged? {
      TextSays(CHANGE_WARNING, unit);
    } else {
      TextSays(EXPIRY_WARNING, unit);
    }
  }

  /** No event brims over a limit as large as the channels'. */
  lemma EventsNeverBrimOver(e: Event, body: nat, unit: Unit)
    requires Roomy(body, unit)
    ensures !BrimsOver(Render(e), body, unit)
  {
    hide Measure, Spills, Roomy, LineLen, Details, HeadlineOf, HasFewLines, CodeSpent, Spare;
    DetailsNeverSpill(e, body, unit);
  }

  lemma DetailsNeverSpill(e: Event, body: nat, unit: Unit)
    requires Roomy(body, unit)
    ensures var (code, lines) := Details(e); !Spills(lines, body - CodeSpent(code, unit), Spare(code), unit)
  {
    hide Measure, Spills, Roomy, LineLen, Details, HasFewLines;
    if HasFewLines(e) {
      FewLines(e);
      FewLinesNeverSpill(Details(e).1, body, 0, unit);
    } else if e.ReleaseAvailable? {
      ReleaseDetailsNeverSpill(e, body, unit);
    } else {
      SaysSomething(e, unit);
      var (code, lines) := Details(e);
      NothingEmptyNoSpill(lines, body - CodeSpent(code, unit), Spare(code), unit);
    }
  }

  lemma ReleaseDetailsNeverSpill(e: Event, body: nat, unit: Unit)
    requires e.ReleaseAvailable? && Roomy(body, unit)
    ensures Details(e).0.None? && !Spills(Details(e).1, body, 0, unit)
  {
    hide Measure, Spills, Roomy;
    if e.notes.Some? {
      ReleaseNeverSpills(e.notes.value, e.url, body, unit);
      assert Details(e).1 == [Text(e.notes.value), Text(e.url)];
    } else {
      FewLinesNeverSpill(Details(e).1, body, 0, unit);
    }
  }

  lemma SaysSomething(e: Event, unit: Unit)
    requires !HasFewLines(e) && !e.ReleaseAvailable?
    ensures forall i :: 0 <= i < |Details(e).1| ==> LineLen(Details(e).1[i], unit) > 0
  {
    if e.Down? {
      DownSaysSomething(e, unit);
    } else {
      CertLinesSaySomething(e, unit);
    }
  }

  /** The channels that cut a message to fit, with their limits for its headline and its body. */
  datatype Channel = Discord | Email | FreeMobile | Gotify | Matrix | Ntfy | Pushover | Slack | Telegram

  datatype Limits = Limits(head: nat, body: nat, unit: Unit)

  const PUSHOVER_MAX := 1024

  const PUSHOVER_HEAD_MAX := 256

  function LimitsOf(channel: Channel): Limits {
    match channel
    case Discord => Limits(250, 4_000, Chars)
    case Email => Limits(200, 60_000, Chars)
    case FreeMobile => Limits(120, 340, Chars)
    case Gotify => Limits(512, 15_000, Chars)
    case Matrix => Limits(512, 15_000, Chars)
    case Ntfy => Limits(256, 3_800, Bytes)
    case Pushover => Limits(PUSHOVER_HEAD_MAX, PUSHOVER_MAX - PUSHOVER_HEAD_MAX - 1, Chars)
    case Slack => Limits(512, 7_000, Chars)
    case Telegram => Limits(512, 3_500, Chars)
  }

  /** What a channel sends of an event. */
  function FittedFor(e: Event, channel: Channel): Message {
    var limits := LimitsOf(channel);
    Fitted(Render(e), limits.head, limits.body, limits.unit)
  }

  /** For every event and every channel: headline and body are within the channel's limits, separators included. */
  lemma EveryChannelFits(e: Event, channel: Channel)
    ensures var limits := LimitsOf(channel);
      && Measure(Headline(FittedFor(e, channel)), limits.unit) <= limits.head
      && Measure(PlainBody(FittedFor(e, channel)), limits.unit) <= limits.body
  {
    hide Measure, BrimsOver, Fitted, Render;
    var limits := LimitsOf(channel);
    EventsNeverBrimOver(e, limits.body, limits.unit);
    HeadlineFits(Render(e), limits.head, limits.body, limits.unit);
    BodyExceedsIffBrimsOver(Render(e), limits.head, limits.body, limits.unit);
  }

  /** What Pushover is sent never exceeds the 1024 characters it accepts. */
  lemma PushoverFits(e: Event)
    ensures |Plain(FittedFor(e, Pushover))| <= PUSHOVER_MAX
  {
    hide Measure, PlainBody, FittedFor, Headline;
    var fit := FittedFor(e, Pushover);
    EveryChannelFits(e, Pushover);
    MeasureChars(Headline(fit));
    MeasureChars(PlainBody(fit));
  }

  /** Nor would any other message exceed it, so long as no line of it is empty. */
  lemma PushoverFitsWithoutEmptyLines(m: Message)
    requires forall i :: 0 <= i < |m.lines| ==> LineLen(m.lines[i], Chars) > 0
    ensures var limits := LimitsOf(Pushover);
            |Plain(Fitted(m, limits.head, limits.body, limits.unit))| <= PUSHOVER_MAX
  {
    hide Measure, PlainBody, Fitted, Headline;
    var limits := LimitsOf(Pushover);
    var fit := Fitted(m, limits.head, limits.body, limits.unit);
    FitsWithinLimits(m, limits.head, limits.body, Chars);
    MeasureChars(Headline(fit));
    MeasureChars(PlainBody(fit));
  }
}
