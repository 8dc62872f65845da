/**
 * Certificate pinning: the stored key and its pin, and when a
 * check of a mismatching key may stay quiet.
 */
module CertPin {
  import opened Wrappers

  function LowerChar(c: char): char {
    if 'A' <= c <= 'Z' then (c as int + 32) as char else c
  }

  /** `to_ascii_lowercase` */
  function Lower(s: string): string {
    seq(|s|, i requires 0 <= i < |s| => LowerChar(s[i]))
  }

  /** `eq_ignore_ascii_case` */
  predicate Same(a: string, b: string) {
    Lower(a) == Lower(b)
  }

  lemma LowerTwice(s: string)
    ensures Lower(Lower(s)) == Lower(s)
  {
  }

  /** The same letter in its two cases. */
  predicate SameLetter(c: char, d: char) {
    || ('A' <= c <= 'Z' && d as int == c as int + ('a' as int - 'A' as int))
    || ('A' <= d <= 'Z' && c as int == d as int + ('a' as int - 'A' as int))
  }

  /** Fingerprints compare equal exactly when they differ in the case of ASCII letters at most. */
  lemma SameIff(a: string, b: string)
    ensures Same(a, b) <==> |a| == |b| && forall i :: 0 <= i < |a| ==> a[i] == b[i] || SameLetter(a[i], b[i])
  {
    if |a| == |b| {
      forall i | 0 <= i < |a|
        ensures Lower(a)[i] == Lower(b)[i] <==> a[i] == b[i] || SameLetter(a[i], b[i])
      {
      }
      if forall i :: 0 <= i < |a| ==> a[i] == b[i] || SameLetter(a[i], b[i]) {
        assert Lower(a) == Lower(b);
      }
    } else {
      assert |Lower(a)| != |Lower(b)|;
    }
  }

  /** A monitor's entry: the key last seen to match, or last reported, and the pin in force at that check. */
  datatype Ledger = Ledger(stored: Option<string>, against: Option<string>)

  const EMPTY := Ledger(None, None)

  /** `pin_alert`: the fingerprint to report as the previous one, when an alert should fire. */
  function PinAlert(expected: string, stored: Option<string>, samePin: bool, observed: string): (alert: Option<string>)
    ensures alert.Some? ==> alert.value != observed
  {
    if Same(observed, expected) || (samePin && stored == Some(observed)) then None
    else if stored.Some? && stored.value != observed then stored
    else Some(expected)
  }

  /** Was the stored key compared with this pin? One stored without its pin is given the benefit of the doubt. */
  predicate JudgedAgainst(l: Ledger, pin: string) {
    l.against.None? || Same(l.against.value, pin)
  }

  /** `remember_pin` */
  function Remembered(pin: string, key: string): Ledger {
    Ledger(Some(key), Some(Lower(pin)))
  }

  /** The alert a check calls for. */
  function Verdict(l: Ledger, pin: string, key: string): Option<string> {
    PinAlert(pin, l.stored, JudgedAgainst(l, pin), key)
  }

  /** One check: the pin configured then, the key observed, and whether an alert could be delivered. */
  datatype Check = Check(pin: string, key: string, muted: bool, delivered: bool)

  /** `check_pin` */
  function Checked(l: Ledger, c: Check): Ledger {
    if Verdict(l, c.pin, c.key).Some? then
      if !c.muted && c.delivered then Remembered(c.pin, c.key) else l
    else if l.stored != Some(c.key) || l.against.None? then Remembered(c.pin, c.key)
    else l
  }

  function Run(history: seq<Check>): Ledger {
    if history == [] then EMPTY else Checked(Run(history[..|history| - 1]), history[|history| - 1])
  }

  // ---------------------------------------------------------------- the store

  class Store {
    var stored: Option<string>
    var against: Option<string>

    function View(): Ledger
      reads this
    {
      Ledger(stored, against)
    }

    constructor ()
      ensures View() == EMPTY
    {
      stored, against := None, None;
    }

    method RememberPin(pin: string, key: string)
      modifies this
      ensures View() == Remembered(pin, key)
    {
      stored := Some(key);
      against := Some(Lower(pin));
    }

    /** The first half of a check: remember a matching key, or say what to alert about. */
    method PinToReport(pin: string, key: string) returns (previous: Option<string>)
      modifies this
      ensures previous == Verdict(old(View()), pin, key)
      ensures View() == if previous.Some? then old(View()) else Checked(old(View()), Check(pin, key, true, false))
    {
      var samePin := against.None? || Same(against.value, pin);
      previous := PinAlert(pin, stored, samePin, key);
      if previous.Some? {
        return;
      }
      if stored != Some(key) || against.None? {
        RememberPin(pin, key);
      }
    }

    /** One check; `delivered` is what dispatching an alert came to. */
    method CheckPin(pin: string, key: string, muted: bool, delivered: bool) returns (alerted: Option<string>)
      modifies this
      ensures View() == Checked(old(View()), Check(pin, key, muted, delivered))
      ensures alerted == if muted then None else Verdict(old(View()), pin, key)
    {
      alerted := None;
      var previous := PinToReport(pin, key);
      if previous.None? || muted {
        return;
      }
      alerted := previous;
      if delivered {
        RememberPin(pin, key);
      }
    }
  }

  // ---------------------------------------------------------------- what quiet means

  /** The `i`-th check alerted about its key against its pin, and every channel got it. */
  ghost predicate Delivered(history: seq<Check>, i: nat) {
    && i < |history| && !history[i].muted && history[i].delivered
    && Verdict(Run(history[..i]), history[i].pin, history[i].key).Some?
  }

  ghost predicate DeliveredAbout(history: seq<Check>, i: nat, key: string, pin: string) {
    Delivered(history, i) && history[i].key == key && Same(history[i].pin, pin)
  }

  /** The `i`-th check saw the pinned key. */
  predicate Matches(c: Check) {
    Same(c.key, c.pin)
  }

  lemma DeliveredUpto(history: seq<Check>, n: nat, i: nat)
    requires i < n <= |history|
    ensures Delivered(history[..n], i) <==> Delivered(history, i)
  {
    assert history[..n][..i] == history[..i];
  }

  /** Both halves of the ledger are written together: after a match, or after a delivered alert. */
  ghost predicate Accounted(history: seq<Check>) {
    var l := Run(history);
    && (l.stored.Some? <==> l.against.Some?)
    && (l.stored.Some? ==> exists i: nat :: RecordedAt(history, i))
  }

  ghost predicate RecordedAt(history: seq<Check>, i: nat)
    requires Run(history).stored.Some? && Run(history).against.Some?
  {
    var l := Run(history);
    i < |history| && history[i].key == l.stored.value && Lower(history[i].pin) == l.against.value
    && (Matches(history[i]) || Delivered(history, i))
  }

  lemma {:induction false} LedgerIsAccounted(history: seq<Check>)
    ensures Accounted(history)
  {
    if history != [] {
      var n := |history| - 1;
      var front := history[..n];
      LedgerIsAccounted(front);
      if Run(history) != Run(front) {
        assert RecordedAt(history, n);
      } else if Run(front).stored.Some? {
        var i: nat :| RecordedAt(front, i);
        DeliveredUpto(history, n, i);
        assert RecordedAt(history, i);
      }
    }
  }

  /** The key of the last check that matched its pin or was reported. */
  function LastKey(history: seq<Check>): Option<string> {
    if history == [] then None
    else
      var n := |history| - 1;
      var last := history[n];
      if Matches(last) || (!last.muted && last.delivered && Verdict(Run(history[..n]), last.pin, last.key).Some?)
      then Some(last.key)
      else LastKey(history[..n])
  }

  /** An alert names as the previous key the last one matched or reported, or else the pin. */
  lemma AlertNamesThePrevious(history: seq<Check>, pin: string, key: string)
    ensures var previous := Verdict(Run(history), pin, key);
      previous.Some? ==>
        previous == if LastKey(history).Some? && LastKey(history) != Some(key) then LastKey(history) else Some(pin)
  {
    StoredIsLastKey(history);
  }

  lemma {:induction false} StoredIsLastKey(history: seq<Check>)
    ensures Run(history).stored == LastKey(history)
  {
    if history != [] {
      StoredIsLastKey(history[..|history| - 1]);
    }
  }

  /**
   * From an empty ledger, over any keys, pin edits, mutes and failed deliveries, a
   * check of a key that differs from the pin stays quiet only if an alert about
   * that key against that pin was delivered before.
   */
  lemma QuietOnlyIfDelivered(history: seq<Check>, pin: string, key: string) returns (i: nat)
    requires !Same(key, pin) && Verdict(Run(history), pin, key).None?
    ensures DeliveredAbout(history, i, key, pin)
  {
    LedgerIsAccounted(history);
    i :| RecordedAt(history, i);
    LowerTwice(history[i].pin);
  }

  /**
   * The report of this key against this pin still stands: since it was delivered, no
   * other report was, and the pinned key was not seen unless it was this very key.
   */
  ghost predicate Stands(history: seq<Check>, i: nat, key: string, pin: string) {
    && DeliveredAbout(history, i, key, pin)
    && forall j :: i < j < |history| ==> !Delivered(history, j) && (Matches(history[j]) ==> history[j].key == key)
  }

  lemma StandsBounded(history: seq<Check>, i: nat, key: string, pin: string)
    requires Stands(history, i, key, pin)
    ensures i < |history|
  {
  }

  /** One more check leaves a report standing, unless it makes another or sees another key match. */
  lemma StandsGrows(history: seq<Check>, i: nat, key: string, pin: string)
    requires i < |history|
    ensures var n := |history| - 1;
            Stands(history, i, key, pin) <==>
              if i == n then DeliveredAbout(history, n, key, pin)
              else Stands(history[..n], i, key, pin) && !Delivered(history, n)
                   && (Matches(history[n]) ==> history[n].key == key)
  {
    hide Delivered, Matches;
    var n := |history| - 1;
    forall j | 0 <= j < n ensures Delivered(history[..n], j) <==> Delivered(history, j) {
      DeliveredUpto(history, n, j);
    }
    assert forall j :: 0 <= j < n ==> history[..n][j] == history[j];
  }

  /** The ledger holds this key, judged against this pin. */
  predicate Holds(l: Ledger, key: string, pin: string) {
    l.stored == Some(key) && l.against.Some? && Same(l.against.value, pin)
  }

  predicate WrittenTogether(l: Ledger) {
    l.stored.Some? <==> l.against.Some?
  }

  /** What one check makes of the ledger's hold on a key that differs from the pin. */
  lemma CheckedHolds(l: Ledger, c: Check, key: string, pin: string)
    requires WrittenTogether(l) && !Same(key, pin)
    ensures WrittenTogether(Checked(l, c))
    ensures Holds(Checked(l, c), key, pin) <==>
      if Verdict(l, c.pin, c.key).Some? && !c.muted && c.delivered then c.key == key && Same(c.pin, pin)
      else Holds(l, key, pin) && (Matches(c) ==> c.key == key)
  {
    LowerTwice(c.pin);
  }

  lemma {:induction false} HoldsIffStands(history: seq<Check>, key: string, pin: string)
    requires !Same(key, pin)
    ensures WrittenTogether(Run(history))
    ensures Holds(Run(history), key, pin) <==> exists i: nat :: Stands(history, i, key, pin)
  {
    hide Stands, Holds, Checked, Verdict;
    if history == [] {
      NothingStands(key, pin);
    } else {
      var n := |history| - 1;
      var front := history[..n];
      HoldsIffStands(front, key, pin);
      CheckedHolds(Run(front), history[n], key, pin);
      forall i: nat | i <= n ensures Stands(history, i, key, pin) <==>
        if i == n then DeliveredAbout(history, n, key, pin)
        else Stands(front, i, key, pin) && !Delivered(history, n) && (Matches(history[n]) ==> history[n].key == key)
      {
        StandsGrows(history, i, key, pin);
      }
      if i: nat :| Stands(front, i, key, pin) {
        StandsBounded(front, i, key, pin);
        assert Stands(history, i, key, pin)
          <==> !Delivered(history, n) && (Matches(history[n]) ==> history[n].key == key);
      }
      if i: nat :| Stands(history, i, key, pin) {
        StandsBounded(history, i, key, pin);
      }
      assert Stands(history, n, key, pin) <==> DeliveredAbout(history, n, key, pin);
    }
  }

  lemma NothingStands(key: string, pin: string)
    ensures !Holds(EMPTY, key, pin) && forall i: nat :: !Stands([], i, key, pin)
  {
  }

  /**
   * Exactly: from an empty ledger, over any keys, pin edits, mutes and failed
   * deliveries, a check of a key that differs from the pin stays quiet if and only
   * if the report of that key against that pin still stands.
   */
  lemma QuietIffReportStands(history: seq<Check>, pin: string, key: string)
    requires !Same(key, pin)
    ensures Verdict(Run(history), pin, key).None? <==> exists i: nat :: Stands(history, i, key, pin)
  {
    HoldsIffStands(history, key, pin);
  }

  /** Under one pin all along. */
  ghost predicate Pinned(history: seq<Check>, pin: string) {
    forall i :: 0 <= i < |history| ==> Same(history[i].pin, pin)
  }

  /** The last thing remembered was the report of this key: nothing matched, and no other key was reported, since. */
  ghost predicate LastReported(history: seq<Check>, i: nat, key: string, pin: string) {
    && DeliveredAbout(history, i, key, pin)
    && forall j :: i < j < |history| ==> !Matches(history[j]) && !Delivered(history, j)
  }

  /**
   * With the pin left alone, that is: that key was reported and, since then,
   * neither the pinned key was seen nor another key reported.
   */
  lemma QuietIffLastReported(history: seq<Check>, pin: string, key: string)
    requires Pinned(history, pin) && !Same(key, pin)
    ensures Verdict(Run(history), pin, key).None? <==> exists i: nat :: LastReported(history, i, key, pin)
  {
    hide Delivered, Verdict;
    QuietIffReportStands(history, pin, key);
    forall i: nat ensures Stands(history, i, key, pin) <==> LastReported(history, i, key, pin) {
      forall j | 0 <= j < |history| ensures Matches(history[j]) ==> history[j].key != key {
      }
    }
  }

  /**
   * Across pin edits the second half fails: the pinned key can have been seen since the report that
   * keeps a check quiet.
   */
  lemma EditedPinForgetsToRearm()
    ensures var history := [Check("aa", "bb", false, true), Check("bb", "bb", false, true)];
      && Delivered(history, 0) && Matches(history[1])
      && Verdict(Run(history), "aa", "bb").None?
  {
    var first, second := Check("aa", "bb", false, true), Check("bb", "bb", false, true);
    var history := [first, second];
    assert history[..0] == [] && history[..1] == [first] && [first][..0] == [];
    assert Lower("aa")[0] == 'a' && Lower("bb")[0] == 'b';
    LowerTwice("aa");
    assert Run(history[..1]) == Remembered("aa", "bb");
    assert Run(history) == Remembered("aa", "bb");
  }

  /** A key stored by an older version, without its pin, is not reported again. */
  lemma UpgradeDoesNotRealert(pin: string, key: string)
    ensures var l := Ledger(Some(key), None);
      Verdict(l, pin, key).None? && Verdict(Checked(l, Check(pin, key, true, false)), pin, key).None?
  {
    LowerTwice(pin);
  }
}
