/**
 * The language one monitor speaks to the coalescer: blocks of one down - or a
 * local-only down, later confirmed at most once by a real one - each ended by a recovery.
 */
module Signals {
  import opened Wrappers

  datatype Signal =
    | LocalDown
    | RealDown
    | Recovery
    | ResumedQuiet(confirmed: bool) // an outage from before a restart, still or once local-only

  /** Between blocks, or inside one: was it announced as local-only, did the full alert follow. */
  datatype Phase = Idle | Open(quiet: bool, full: bool)

  /** The phase a signal leads to; nothing when the signal has no place there. */
  function Advance(phase: Phase, signal: Signal): Option<Phase> {
    match (phase, signal)
    case (Idle, LocalDown) => Some(Open(true, false))
    case (Idle, RealDown) => Some(Open(false, true))
    case (Idle, ResumedQuiet(confirmed)) => Some(Open(true, confirmed))
    case (Open(true, false), RealDown) => Some(Open(true, true))
    case (Open(_, _), Recovery) => Some(Idle)
    case _ => None
  }

  /** The phase after a whole sequence, or nothing when it is not in the language. */
  function PhaseAfter(start: Phase, signals: seq<Signal>): Option<Phase> {
    if signals == [] then Some(start)
    else
      match PhaseAfter(start, signals[..|signals| - 1])
      case None => None
      case Some(phase) => Advance(phase, signals[|signals| - 1])
  }

  /** Every prefix of a speakable sequence is speakable. */
  lemma {:induction false} PrefixClosed(start: Phase, signals: seq<Signal>, n: nat)
    requires n <= |signals| && PhaseAfter(start, signals).Some?
    ensures PhaseAfter(start, signals[..n]).Some?
    decreases |signals|
  {
    if n < |signals| {
      var front := signals[..|signals| - 1];
      PrefixClosed(start, front, n);
      assert front[..n] == signals[..n];
    } else {
      assert signals[..n] == signals;
    }
  }
}
