/**
 * The transient-status monitor of an acq400 unit (class Statusmonitor).
 *
 * The unit's status port emits lines "<state> <pre> <post> <elapsed> <demux>".
 * The monitor thread matches each line against a regular expression, keeps the
 * latest parsed status, and turns state changes into two edge-triggered events,
 * "armed" and "stopped". A jump from IDLE straight past ARM ends monitoring.
 * Callers block in wait_event until the event they wait on is set, then clear it.
 */
module Status {
  import opened Common
  import opened Text

  // Transient states (class STATE).
  const IDLE := 0
  const ARM := 1
  const RUNPRE := 2
  const RUNPOST := 3
  const POPROCESS := 4
  const CLEANUP := 5

  // Field indices into a status list (class SF). SF_DEMUX is 5 in the source
  // although a parsed status line has only five fields, indices 0..4.
  const SF_STATE := 0
  const SF_PRE := 1
  const SF_POST := 2
  const SF_ELAPSED := 3
  const SF_DEMUX := 5

  /** STATE.str: the name of a transient state, "UNDEF" for any other number. */
  function StateName(st: int): (name: string)
    ensures name == "UNDEF" <==> !(IDLE <= st <= CLEANUP)
  {
    if st == IDLE then "IDLE"
    else if st == ARM then "ARM"
    else if st == RUNPRE then "RUNPRE"
    else if st == RUNPOST then "RUNPOST"
    else if st == POPROCESS then "POPROCESS"
    else if st == CLEANUP then "CLEANUP"
    else "UNDEF"
  }

  /** Reference inverse of StateName over the six defined states. */
  function StateCode(name: string): Option<int>
  {
    if name == "IDLE" then Some(IDLE)
    else if name == "ARM" then Some(ARM)
    else if name == "RUNPRE" then Some(RUNPRE)
    else if name == "RUNPOST" then Some(RUNPOST)
    else if name == "POPROCESS" then Some(POPROCESS)
    else if name == "CLEANUP" then Some(CLEANUP)
    else None
  }

  /** Distinct defined states have distinct names, and every other number reads back as none. */
  lemma StateNameRoundTrip(st: int)
    ensures StateCode(StateName(st)) == if IDLE <= st <= CLEANUP then Some(st) else None
  {
  }

  // ---------------------------------------------------------------------------
  // The status regular expression  ([0-9]) ([0-9]+) ([0-9]+) ([0-9]+) ([0-9])+
  // applied with re.search: the leftmost start position at which it matches.
  // Each ([0-9]+) followed by a space takes the whole run of digits (a shorter
  // run would be followed by a digit, not a space). The last group repeats a
  // one-digit group, so it captures only the last digit of the final run.

  /** Length of the run of digits that starts at position i. */
  function DigitRun(s: string, i: nat): (n: nat)
    requires i <= |s|
    ensures i + n <= |s|
    ensures forall k :: i <= k < i + n ==> IsDigit(s[k])
    ensures i + n == |s| || !IsDigit(s[i + n])
    decreases |s| - i
  {
    if i < |s| && IsDigit(s[i]) then 1 + DigitRun(s, i + 1) else 0
  }

  /** ([0-9]+) followed by one space, at position p: the number and the position after the space. */
  function SpacedNumber(s: string, p: nat): (r: Option<(nat, nat)>)
    requires p <= |s|
    ensures r.Some? ==> p < r.value.1 <= |s|
  {
    var n := DigitRun(s, p);
    if n > 0 && p + n < |s| && s[p + n] == ' ' then Some((DecimalValue(s[p..p + n]), p + n + 1))
    else None
  }

  /**
   * From position p: k groups ([0-9]+) each followed by a space, then ([0-9])+,
   * whose group is the last digit of the final run.
   */
  function Fields(s: string, p: nat, k: nat): (r: Option<seq<int>>)
    requires p <= |s|
    ensures r.Some? ==> |r.value| == k + 1
    ensures r.Some? ==> (forall j :: 0 <= j < k + 1 ==> r.value[j] >= 0) && r.value[k] <= 9
    decreases k
  {
    if k == 0 then
      var n := DigitRun(s, p);
      if n == 0 then None else Some([DigitValue(s[p + n - 1]) as int])
    else
      var first := SpacedNumber(s, p);
      if first.None? then None
      else
        var rest := Fields(s, first.value.1, k - 1);
        if rest.None? then None else Some([first.value.0 as int] + rest.value)
  }

  /** The five groups of a match that starts exactly at position i, if there is one. */
  function MatchAt(s: string, i: nat): (r: Option<seq<int>>)
    requires i <= |s|
    ensures r.Some? ==> |r.value| == 5
    ensures r.Some? ==> (forall j :: 0 <= j < 5 ==> r.value[j] >= 0) && r.value[0] <= 9 && r.value[4] <= 9
  {
    if i + 2 <= |s| && IsDigit(s[i]) && s[i + 1] == ' ' then
      match Fields(s, i + 2, 3)
      case None => None
      case Some(g) => Some([DigitValue(s[i]) as int] + g)
    else None
  }

  function SearchFrom(s: string, i: nat): (r: Option<seq<int>>)
    requires i <= |s|
    ensures r.Some? ==> |r.value| == 5
    ensures r.Some? ==> (forall j :: 0 <= j < 5 ==> r.value[j] >= 0) && r.value[0] <= 9 && r.value[4] <= 9
    decreases |s| - i
  {
    if i == |s| then None
    else match MatchAt(s, i)
      case Some(g) => Some(g)
      case None => SearchFrom(s, i + 1)
  }

  /** st_re.search(line) followed by int() of each group. */
  function ParseStatus(line: string): (r: Option<seq<int>>)
    ensures r.Some? ==> |r.value| == 5
    ensures r.Some? ==> 0 <= r.value[SF_STATE] <= 9 && 0 <= r.value[4] <= 9
    ensures r.Some? ==> forall k :: 0 <= k < 5 ==> r.value[k] >= 0
  {
    SearchFrom(line, 0)
  }

  /** Numbers separated by single spaces, the way the unit writes the fields after the state. */
  function SpacedNumbers(xs: seq<nat>, last: nat): string
  {
    if xs == [] then NatToString(last) else NatToString(xs[0]) + [' '] + SpacedNumbers(xs[1..], last)
  }

  /** A status line as the unit formats it. */
  function FormatStatus(state: nat, pre: nat, post: nat, elapsed: nat, demux: nat): string
    requires state <= 9
  {
    [DigitChar(state), ' '] + SpacedNumbers([pre, post, elapsed], demux)
  }

  lemma SpacedNumberOf(s: string, p: nat, n: nat, rest: string)
    requires p <= |s| && s[p..] == NatToString(n) + [' '] + rest
    ensures SpacedNumber(s, p) == Some((n, p + |NatToString(n)| + 1))
    ensures s[p + |NatToString(n)| + 1..] == rest
  {
    var t := NatToString(n);
    var q := p + |t|;
    assert forall k :: p <= k < q ==> s[k] == s[p..][k - p] == t[k - p];
    assert s[q] == s[p..][|t|] == ' ';
    DigitRunIs(s, p, q);
    assert s[p..q] == t;
    DecimalValueOfNatToString(n);
    assert s[q + 1..] == s[p..][|t| + 1..];
  }

  lemma {:induction false} DigitRunIs(s: string, p: nat, q: nat)
    requires p <= q < |s|
    requires forall k :: p <= k < q ==> IsDigit(s[k])
    requires !IsDigit(s[q])
    ensures DigitRun(s, p) == q - p
    decreases q - p
  {
    if p < q {
      DigitRunIs(s, p + 1, q);
    }
  }

  lemma {:induction false} DigitRunToEnd(s: string, p: nat)
    requires p <= |s|
    requires forall k :: p <= k < |s| ==> IsDigit(s[k])
    ensures DigitRun(s, p) == |s| - p
    decreases |s| - p
  {
    if p < |s| {
      DigitRunToEnd(s, p + 1);
    }
  }

  /** A final run of digits that is the text of n leaves n's last digit in the last group. */
  lemma LastGroupOf(s: string, p: nat, n: nat)
    requires p <= |s| && s[p..] == NatToString(n)
    ensures Fields(s, p, 0) == Some([n % 10])
  {
    var t := NatToString(n);
    assert forall k :: p <= k < |s| ==> s[k] == s[p..][k - p] == t[k - p];
    DigitRunToEnd(s, p);
    assert s[|s| - 1] == t[|t| - 1];
  }

  lemma FieldsStep(s: string, p: nat, k: nat, v: nat, q: nat, g: seq<int>)
    requires p <= |s| && q <= |s|
    requires SpacedNumber(s, p) == Some((v, q)) && Fields(s, q, k) == Some(g)
    ensures Fields(s, p, k + 1) == Some([v as int] + g)
  {
  }

  /** Spaced numbers followed by a final number are read back, the final one as its last digit. */
  lemma {:induction false} FieldsOfSpacedNumbers(s: string, p: nat, xs: seq<nat>, last: nat)
    requires p <= |s| && s[p..] == SpacedNumbers(xs, last)
    ensures Fields(s, p, |xs|) == Some(xs + [last % 10])
    decreases |xs|
  {
    if xs == [] {
      LastGroupOf(s, p, last);
      assert xs + [last % 10] == [last % 10];
    } else {
      var q := p + |NatToString(xs[0])| + 1;
      FirstSpacedNumber(s, p, xs, last);
      FieldsOfSpacedNumbers(s, q, xs[1..], last);
      var tail: seq<int> := xs[1..] + [last % 10];
      FieldsStep(s, p, |xs[1..]|, xs[0], q, tail);
      ConsOfTail(xs, last % 10);
    }
  }

  /** The first of several spaced numbers is read, and the rest of the text follows it. */
  lemma FirstSpacedNumber(s: string, p: nat, xs: seq<nat>, last: nat)
    requires p <= |s| && s[p..] == SpacedNumbers(xs, last) && xs != []
    ensures SpacedNumber(s, p) == Some((xs[0], p + |NatToString(xs[0])| + 1))
    ensures s[p + |NatToString(xs[0])| + 1..] == SpacedNumbers(xs[1..], last)
  {
    SpacedNumberOf(s, p, xs[0], SpacedNumbers(xs[1..], last));
  }

  lemma ConsOfTail(xs: seq<nat>, z: int)
    requires xs != []
    ensures [xs[0] as int] + (xs[1..] + [z]) == xs + [z]
  {
    assert xs == [xs[0]] + xs[1..];
  }

  /** A match at i found by the search from i. */
  lemma MatchHere(s: string, i: nat, g: seq<int>)
    requires i + 2 <= |s| && IsDigit(s[i]) && s[i + 1] == ' ' && Fields(s, i + 2, 3) == Some(g)
    ensures SearchFrom(s, i) == Some([DigitValue(s[i]) as int] + g)
  {
  }

  /**
   * A state digit at position i, a space, three spaced numbers and a final
   * number: the search from i matches there.
   */
  lemma MatchOfLayout(s: string, i: nat, state: nat, xs: seq<nat>, last: nat)
    requires state <= 9 && |xs| == 3
    requires i + 2 <= |s| && s[i] == DigitChar(state) && s[i + 1] == ' '
    requires s[i + 2..] == SpacedNumbers(xs, last)
    ensures SearchFrom(s, i) == Some([state as int] + (xs + [last % 10]))
  {
    FieldsOfSpacedNumbers(s, i + 2, xs, last);
    MatchHere(s, i, xs + [last % 10]);
  }

  /** No match starts at a digit that is followed by another digit. */
  lemma NoMatchBeforeDigit(s: string)
    requires |s| >= 2 && IsDigit(s[1])
    ensures SearchFrom(s, 0) == SearchFrom(s, 1)
  {
    assert MatchAt(s, 0).None?;
  }

  /**
   * A line formatted by the unit parses back to its fields, except that the
   * demux field keeps only its last decimal digit.
   */
  lemma ParseFormattedStatus(state: nat, pre: nat, post: nat, elapsed: nat, demux: nat)
    requires state <= 9
    ensures ParseStatus(FormatStatus(state, pre, post, elapsed, demux))
         == Some([state, pre, post, elapsed, demux % 10])
  {
    var s := FormatStatus(state, pre, post, elapsed, demux);
    assert s[2..] == SpacedNumbers([pre, post, elapsed], demux);
    MatchOfLayout(s, 0, state, [pre, post, elapsed], demux);
    assert [state as int] + ([pre, post, elapsed] + [demux % 10]) == [state, pre, post, elapsed, demux % 10];
  }

  /**
   * The first group is one digit, so a state written with two digits is read
   * as its last digit: the search skips the first digit and matches at the second.
   */
  lemma MultiDigitStateKeepsLastDigit(tens: nat, state: nat, pre: nat, post: nat, elapsed: nat, demux: nat)
    requires tens <= 9 && state <= 9
    ensures ParseStatus([DigitChar(tens)] + FormatStatus(state, pre, post, elapsed, demux))
         == Some([state, pre, post, elapsed, demux % 10])
  {
    var s := [DigitChar(tens)] + FormatStatus(state, pre, post, elapsed, demux);
    LayoutAfterDigit(tens, state, pre, post, elapsed, demux);
    NoMatchBeforeDigit(s);
    MatchOfLayout(s, 1, state, [pre, post, elapsed], demux);
    assert [state as int] + ([pre, post, elapsed] + [demux % 10]) == [state, pre, post, elapsed, demux % 10];
  }

  /** Behind a leading digit, the formatted line starts at index 1. */
  lemma LayoutAfterDigit(tens: nat, state: nat, pre: nat, post: nat, elapsed: nat, demux: nat)
    requires tens <= 9 && state <= 9
    ensures var s := [DigitChar(tens)] + FormatStatus(state, pre, post, elapsed, demux);
      && |s| >= 3 && IsDigit(s[1]) && s[1] == DigitChar(state) && s[2] == ' '
      && s[3..] == SpacedNumbers([pre, post, elapsed], demux)
  {
    var t := FormatStatus(state, pre, post, elapsed, demux);
    var s := [DigitChar(tens)] + t;
    assert t[2..] == SpacedNumbers([pre, post, elapsed], demux);
    assert s[3..] == t[2..];
  }

  // ---------------------------------------------------------------------------
  // One iteration of the monitor loop, and wait_event.

  /**
   * The monitor's state: the latest status list (None before the first one),
   * the two events, and the quit flag. The initial status comes from splitting
   * the unit's "state" knob, which always yields at least one number.
   */
  datatype Monitor = Monitor(status: Option<seq<int>>, armed: bool, stopped: bool, quitRequested: bool)
  {
    predicate Valid() { status.Some? ==> |status.value| >= 1 }
  }

  datatype Event = Armed | Stopped

  function Flag(m: Monitor, ev: Event): bool
  {
    match ev
    case Armed => m.armed
    case Stopped => m.stopped
  }

  /** The state number of the status the monitor holds. */
  function PrevState(m: Monitor): int
    requires m.Valid() && m.status.Some?
  {
    m.status.value[SF_STATE]
  }

  /** The source's three transition conditions, on the previous and the new state number. */
  predicate StopEdge(prev: int, next: int) { prev != IDLE && next == IDLE }
  predicate ArmEdge(next: int) { next == ARM }
  predicate SkipsArm(prev: int, next: int) { prev == IDLE && next > ARM }

  /** One pass of the st_monitor loop body on the polled line. */
  function Step(m: Monitor, line: string): (m': Monitor)
    requires m.Valid()
    ensures m'.Valid()
    // a line that does not match changes nothing
    ensures ParseStatus(line).None? ==> m' == m
    // the first parsed status is stored without any transition
    ensures ParseStatus(line).Some? && m.status.None? ==>
              m' == m.(status := ParseStatus(line))
    ensures ParseStatus(line).Some? && m.status.Some? ==>
      var prev, next := PrevState(m), ParseStatus(line).value[SF_STATE];
      // leaving any state for IDLE raises "stopped" and clears "armed"
      && (StopEdge(prev, next) ==> m'.stopped && !m'.armed)
      // entering ARM raises "armed" and clears "stopped", whatever came before
      && (ArmEdge(next) ==> m'.armed && !m'.stopped)
      // otherwise neither event changes
      && (!StopEdge(prev, next) && !ArmEdge(next) ==> m'.armed == m.armed && m'.stopped == m.stopped)
      // IDLE straight to a running state requests quit; the thread exits before storing the status
      && (m'.quitRequested <==> m.quitRequested || SkipsArm(prev, next))
      && m'.status == (if SkipsArm(prev, next) then m.status else ParseStatus(line))
  {
    match ParseStatus(line)
    case None => m
    case Some(status1) =>
      if m.status.None? then m.(status := Some(status1))
      else
        var prev, next := m.status.value[SF_STATE], status1[SF_STATE];
        var m1 := if prev != IDLE && next == IDLE then m.(stopped := true, armed := false) else m;
        var m2 := if next == ARM then m1.(armed := true, stopped := false) else m1;
        if prev == IDLE && next > ARM then m2.(quitRequested := true)
        else m2.(status := Some(status1))
  }

  /** The monitor thread: poll lines until quit is requested or the lines run out. */
  function Run(m: Monitor, polls: seq<string>): (m': Monitor)
    requires m.Valid()
    ensures m'.Valid()
    decreases |polls|
  {
    if m.quitRequested || polls == [] then m else Run(Step(m, polls[0]), polls[1..])
  }

  /** The line makes the monitor raise ev (the edge for that event). */
  predicate Raises(m: Monitor, line: string, ev: Event)
    requires m.Valid()
  {
    && ParseStatus(line).Some? && m.status.Some?
    && match ev
       case Armed => ArmEdge(ParseStatus(line).value[SF_STATE])
       case Stopped => StopEdge(PrevState(m), ParseStatus(line).value[SF_STATE])
  }

  /** An event that is clear becomes set in one step exactly when the line raises it. */
  lemma StepSetsFlagIffRaised(m: Monitor, line: string, ev: Event)
    requires m.Valid() && !Flag(m, ev)
    ensures Flag(Step(m, line), ev) <==> Raises(m, line, ev)
  {
  }

  /** Some line raises ev while the monitor is still running. */
  predicate Observed(m: Monitor, ev: Event, polls: seq<string>)
    requires m.Valid()
    decreases |polls|
  {
    && !m.quitRequested && polls != []
    && (Raises(m, polls[0], ev) || Observed(Step(m, polls[0]), ev, polls[1..]))
  }

  /** An event stays clear over a run that never raises it. */
  lemma {:induction false} ClearFlagStaysClear(m: Monitor, ev: Event, polls: seq<string>)
    requires m.Valid() && !Flag(m, ev) && !Observed(m, ev, polls)
    ensures !Flag(Run(m, polls), ev)
    decreases |polls|
  {
    if !m.quitRequested && polls != [] {
      StepSetsFlagIffRaised(m, polls[0], ev);
      ClearFlagStaysClear(Step(m, polls[0]), ev, polls[1..]);
    }
  }

  datatype WaitOutcome =
    | Returned   // the event was set; wait_event cleared it and returned
    | Exited     // quit was requested while the event was clear: sys.exit(1)
    | Pending    // still blocked when the polled lines ran out

  function Clear(m: Monitor, ev: Event): (m': Monitor)
    ensures !Flag(m', ev)
  {
    match ev
    case Armed => m.(armed := false)
    case Stopped => m.(stopped := false)
  }

  /**
   * wait_event(ev) while the monitor thread keeps polling: before each
   * 0.1 s wait the event is tested, then the quit flag; in between the monitor
   * handles the next line.
   */
  function WaitRun(m: Monitor, ev: Event, polls: seq<string>): (r: (WaitOutcome, Monitor))
    requires m.Valid()
    ensures r.1.Valid()
    ensures r.0 == Returned ==> !Flag(r.1, ev)
    decreases |polls|
  {
    if Flag(m, ev) then (Returned, Clear(m, ev))
    else if m.quitRequested then (Exited, m)
    else if polls == [] then (Pending, m)
    else WaitRun(Step(m, polls[0]), ev, polls[1..])
  }

  /** A wait on a clear event returns exactly when some polled line raises the event before quit. */
  lemma {:induction false} WaitReturnsIffObserved(m: Monitor, ev: Event, polls: seq<string>)
    requires m.Valid() && !Flag(m, ev)
    ensures WaitRun(m, ev, polls).0 == Returned <==> Observed(m, ev, polls)
    decreases |polls|
  {
    if !m.quitRequested && polls != [] {
      var m1 := Step(m, polls[0]);
      StepSetsFlagIffRaised(m, polls[0], ev);
      if !Raises(m, polls[0], ev) {
        WaitReturnsIffObserved(m1, ev, polls[1..]);
      }
    }
  }

  /** A wait that returned consumed the event: a second wait returns only after a new edge. */
  lemma SecondWaitNeedsNewEdge(m: Monitor, ev: Event, first: seq<string>, second: seq<string>)
    requires m.Valid()
    requires WaitRun(m, ev, first).0 == Returned
    ensures var m1 := WaitRun(m, ev, first).1;
      WaitRun(m1, ev, second).0 == Returned <==> Observed(m1, ev, second)
  {
    WaitReturnsIffObserved(WaitRun(m, ev, first).1, ev, second);
  }

  /** Once quit is requested, a wait on a clear event fails instead of returning. */
  lemma QuitFailsWait(m: Monitor, ev: Event, polls: seq<string>)
    requires m.Valid() && m.quitRequested && !Flag(m, ev)
    ensures WaitRun(m, ev, polls).0 == Exited
  {
  }

  /** A status that skips ARM ends monitoring: no later line changes anything. */
  lemma {:induction false} SkipArmStopsMonitoring(m: Monitor, line: string, polls: seq<string>)
    requires m.Valid() && !m.quitRequested && m.status.Some? && ParseStatus(line).Some?
    requires SkipsArm(PrevState(m), ParseStatus(line).value[SF_STATE])
    ensures Run(m, [line] + polls) == m.(quitRequested := true)
  {
    assert ([line] + polls)[1..] == polls;
  }

  // ---------------------------------------------------------------------------
  // The imperative object: the monitor thread and the blocking wait.

  class Statusmonitor {
    var status: Option<seq<int>>
    var armed: bool
    var stopped: bool
    var quitRequested: bool

    function Snapshot(): Monitor
      reads this
    {
      Monitor(status, armed, stopped, quitRequested)
    }

    constructor (initial: seq<int>)
      requires |initial| >= 1
      ensures Snapshot() == Monitor(Some(initial), false, false, false)
    {
      status := Some(initial);
      armed, stopped, quitRequested := false, false, false;
    }

    /** st_monitor: the loop of the monitor thread over the lines it polls. */
    method StMonitor(polls: seq<string>) returns (consumed: nat)
      requires Snapshot().Valid()
      modifies this
      ensures Snapshot() == Run(old(Snapshot()), polls)
      ensures consumed <= |polls|
    {
      consumed := 0;
      while !quitRequested && consumed < |polls|
        invariant consumed <= |polls|
        invariant Snapshot().Valid()
        invariant Run(Snapshot(), polls[consumed..]) == Run(old(Snapshot()), polls)
      {
        var line := polls[consumed];
        assert polls[consumed..][1..] == polls[consumed + 1..];
        HandleLine(line);
        consumed := consumed + 1;
      }
    }

    /** One pass of st_monitor's loop: parse the polled line and update the flags and the stored status. */
    method HandleLine(line: string)
      requires Snapshot().Valid() && !quitRequested
      modifies this
      ensures Snapshot() == Step(old(Snapshot()), line)
    {
      var parsed := ParseStatus(line);
      if parsed.Some? {
        var status1 := parsed.value;
        if status.Some? {
          if status.value[SF_STATE] != IDLE && status1[SF_STATE] == IDLE {
            stopped := true;
            armed := false;
          }
          if status1[SF_STATE] == ARM {
            armed := true;
            stopped := false;
          }
          if status.value[SF_STATE] == IDLE && status1[SF_STATE] > ARM {
            quitRequested := true;
          }
        }
        if !quitRequested {
          status := Some(status1);
        }
      }
    }

    /** wait_event, with the monitor handling one polled line per 0.1 s wait. */
    method WaitEvent(ev: Event, polls: seq<string>) returns (outcome: WaitOutcome)
      requires Snapshot().Valid()
      modifies this
      ensures (outcome, Snapshot()) == WaitRun(old(Snapshot()), ev, polls)
    {
      var i := 0;
      while !(if ev == Armed then armed else stopped)
        invariant i <= |polls|
        invariant Snapshot().Valid()
        invariant WaitRun(Snapshot(), ev, polls[i..]) == WaitRun(old(Snapshot()), ev, polls)
        decreases |polls| - i
      {
        if quitRequested {
          return Exited;
        }
        if i == |polls| {
          return Pending;
        }
        assert polls[i..][1..] == polls[i + 1..];
        var _ := StMonitor([polls[i]]);
        i := i + 1;
      }
      if ev == Armed {
        armed := false;
      } else {
        stopped := false;
      }
      outcome := Returned;
    }
  }
}
