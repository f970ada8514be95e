/**
 * The failed-login counter of one user (jurix/security.py, method login).
 * Times are seconds.
 */
module LoginThrottle {
  import opened Options

  /** The stored row: start of the counting window, failures in it, and the time
      until which logins are refused (0 if they are not). */
  datatype Row = Row(window: real, failures: nat, blockedUntil: real)

  const WINDOW: real := 900.0
  const DAY: real := 86400.0
  const LIMIT: nat := 10

  /** What can happen to the row: an attempt with wrong or right credentials, or
      the cleaning of old rows when somebody else fails. */
  datatype Event = Wrong(at: real) | Right(at: real) | Clean(at: real)

  /** A counted failure: when it happened, when its window started, and the
      index of the failure that opened that window. */
  datatype Failure = Failure(at: real, start: real, opener: nat)

  /** The row, the failures counted since the last successful login, and the
      time. */
  datatype State = State(row: Option<Row>, history: seq<Failure>, clock: real)

  predicate Blocked(row: Option<Row>, now: real)
  {
    row.Some? && row.value.blockedUntil > now
  }

  function CountFailure(row: Option<Row>, now: real): Row
  {
    var window := if row.Some? && now - row.value.window < WINDOW then row.value.window else now;
    var failures := if row.Some? && window == row.value.window then row.value.failures + 1 else 1;
    Row(window, failures, if failures >= LIMIT then now + WINDOW else 0.0)
  }

  predicate Stale(row: Row, now: real)
  {
    row.window < now - DAY && row.blockedUntil < now
  }

  function Cleaned(row: Option<Row>, now: real): Option<Row>
  {
    if row.Some? && Stale(row.value, now) then None else row
  }

  function Noted(h: seq<Failure>, row: Row, now: real): Failure
  {
    Failure(now, row.window, if row.failures == 1 || h == [] then |h| else h[|h| - 1].opener)
  }

  function Step(s: State, e: Event): State
  {
    match e
    case Wrong(now) =>
      if Blocked(s.row, now) then s.(clock := now)
      else
        var row := CountFailure(s.row, now);
        State(Cleaned(Some(row), now), s.history + [Noted(s.history, row, now)], now)
    case Right(now) =>
      if Blocked(s.row, now) then s.(clock := now) else State(None, [], now)
    case Clean(now) => s.(row := Cleaned(s.row, now), clock := now)
  }

  function Run(s: State, events: seq<Event>): State
  {
    if events == [] then s else Step(Run(s, events[..|events| - 1]), events[|events| - 1])
  }

  /** The clock does not run backwards. */
  ghost predicate InOrder(clock: real, events: seq<Event>)
  {
    && (forall i :: 0 <= i < |events| ==> events[i].at >= clock)
    && (forall i, j :: 0 <= i < j < |events| ==> events[i].at <= events[j].at)
  }

  // ---- Windows ----

  /** Failure number `k`: its window holds at most ten failures. */
  ghost predicate Placed(f: Failure, k: nat)
  {
    f.opener <= k < f.opener + LIMIT && f.start <= f.at && (f.opener == k ==> f.start == f.at)
  }

  /** Failure number `k` opened a window: no earlier than 900 seconds after the
      previous window opened and, if that was full, after its last failure. */
  ghost predicate Opens(prev: Failure, f: Failure, k: nat)
  {
    && f.opener == k
    && f.at >= prev.start + WINDOW
    && (k == prev.opener + LIMIT ==> f.at >= prev.at + WINDOW)
  }

  ghost predicate Follows(prev: Failure, f: Failure, k: nat)
  {
    (f.opener == prev.opener && f.start == prev.start) || Opens(prev, f, k)
  }

  ghost predicate Windows(h: seq<Failure>)
  {
    && (forall i, j :: 0 <= i < j < |h| ==> h[i].at <= h[j].at)
    && (forall k :: 0 <= k < |h| ==> Placed(h[k], k))
    && (forall k :: 1 <= k < |h| ==> LinkedAt(h, k))
  }

  ghost predicate LinkedAt(h: seq<Failure>, k: nat)
    requires 1 <= k < |h|
  {
    Follows(h[k - 1], h[k], k)
  }

  /** How the stored row reflects the counted failures. */
  ghost predicate Reflects(row: Option<Row>, h: seq<Failure>, clock: real)
  {
    if h == [] then row.None?
    else
      var last := h[|h| - 1];
      var full := |h| >= last.opener + LIMIT;
      && last.at <= clock
      && if row.Some?
         then
           && row.value.window == last.start
           && row.value.failures + last.opener == |h|
           && row.value.blockedUntil == (if full then last.at + WINDOW else 0.0)
         else clock >= last.start + WINDOW && (full ==> clock >= last.at + WINDOW)
  }

  ghost predicate Inv(s: State)
  {
    && Windows(s.history)
    && (s.history != [] ==> s.history[|s.history| - 1].opener < |s.history|)
    && Reflects(s.row, s.history, s.clock)
  }

  lemma AppendWindow(h: seq<Failure>, f: Failure)
    requires Windows(h) && Placed(f, |h|)
    requires h != [] ==> h[|h| - 1].at <= f.at && Follows(h[|h| - 1], f, |h|)
    ensures Windows(h + [f])
  {
    hide Placed, Follows;
    var h' := h + [f];
    forall k | 1 <= k < |h'|
      ensures LinkedAt(h', k)
    {
      if k < |h| {
        assert LinkedAt(h, k);
        assert h'[k] == h[k] && h'[k - 1] == h[k - 1];
      }
    }
  }

  lemma WrongKeeps(s: State, now: real)
    requires Inv(s) && now >= s.clock && !Blocked(s.row, now)
    ensures Inv(Step(s, Wrong(now)))
  {
    hide Windows;
    var row := CountFailure(s.row, now);
    var f := Noted(s.history, row, now);
    assert Cleaned(Some(row), now) == Some(row);
    LastPlaced(s.history);
    AppendWindow(s.history, f);
  }

  lemma LastPlaced(h: seq<Failure>)
    requires Windows(h)
    ensures h != [] ==> Placed(h[|h| - 1], |h| - 1)
  {
  }

  lemma StepKeeps(s: State, e: Event)
    requires Inv(s) && e.at >= s.clock
    ensures Inv(Step(s, e))
    ensures Step(s, e).clock == e.at
  {
    hide Windows;
    match e {
      case Wrong(now) =>
        if !Blocked(s.row, now) {
          WrongKeeps(s, now);
        }
      case Right(now) =>
        NoFailures();
      case Clean(now) =>
    }
  }

  lemma NoFailures()
    ensures Windows([])
  {
  }

  // ---- The bound ----

  /** After failure `k` a window opens within ten failures. */
  lemma {:induction false} NextWindow(h: seq<Failure>, k: nat, n: nat) returns (b: nat)
    requires Windows(h) && k <= n < |h| && n >= h[k].opener + LIMIT
    ensures k < b <= h[k].opener + LIMIT && b <= n
    ensures h[b].opener == b
    ensures h[b].at >= h[k].start + WINDOW
    ensures b == h[k].opener + LIMIT ==> h[b].at >= h[k].at + WINDOW
    decreases n - k
  {
    hide Windows;
    At(h, k);
    At(h, k + 1);
    Sorted(h, k, k + 1);
    if h[k + 1].opener == h[k].opener && h[k + 1].start == h[k].start {
      b := NextWindow(h, k + 1, n);
    } else {
      b := k + 1;
    }
  }

  /** Nineteen counted failures in a row take at least 900 seconds. */
  lemma NineteenAreSpread(h: seq<Failure>, i: nat)
    requires Windows(h) && i + 18 < |h|
    ensures h[i + 18].at >= h[i].at + WINDOW
  {
    hide Windows;
    var a := h[i].opener;
    At(h, i);
    var b := NextWindow(h, i, i + 18);
    Sorted(h, b, i + 18);
    if i > a && b < a + LIMIT {
      var c := NextWindow(h, b, i + 18);
      Sorted(h, c, i + 18);
      Sorted(h, i, b);
      At(h, b);
    }
  }

  lemma At(h: seq<Failure>, k: nat)
    requires Windows(h) && k < |h|
    ensures Placed(h[k], k)
    ensures k > 0 ==> Follows(h[k - 1], h[k], k)
  {
    assert k > 0 ==> LinkedAt(h, k);
  }

  lemma Sorted(h: seq<Failure>, i: nat, j: nat)
    requires Windows(h) && i <= j < |h|
    ensures h[i].at <= h[j].at
  {
  }

  /** The failures in the half-open interval of 900 seconds from `from` on. */
  ghost function Within(h: seq<Failure>, from: real): set<nat>
  {
    set k: nat | k < |h| && from <= h[k].at < from + WINDOW
  }

  lemma AtMostEighteen(h: seq<Failure>, from: real)
    requires Windows(h)
    ensures |Within(h, from)| <= 18
  {
    hide Windows;
    var inside := Within(h, from);
    if inside != {} {
      var i := Least(inside);
      forall k | k in inside
        ensures k in Span(i, 18)
      {
        if k >= i + 18 {
          NineteenAreSpread(h, i);
          Sorted(h, i + 18, k);
        }
        SpanHas(i, 18, k);
      }
      SpanSize(i, 18);
      assert Span(i, 18) == inside + (Span(i, 18) - inside);
    }
  }

  lemma Least(s: set<nat>) returns (m: nat)
    requires s != {}
    ensures m in s && forall k :: k in s ==> m <= k
  {
    var x :| x in s;
    var rest := s - {x};
    assert s == rest + {x};
    if rest == {} {
      m := x;
    } else {
      m := Least(rest);
      if x < m {
        m := x;
      }
    }
  }

  ghost function Span(i: nat, n: nat): set<nat>
  {
    if n == 0 then {} else Span(i, n - 1) + {i + n - 1}
  }

  lemma {:induction false} SpanHas(i: nat, n: nat, k: nat)
    ensures k in Span(i, n) <==> i <= k < i + n
  {
    if n > 0 {
      SpanHas(i, n - 1, k);
    }
  }

  lemma {:induction false} SpanSize(i: nat, n: nat)
    ensures |Span(i, n)| == n
  {
    if n > 0 {
      SpanSize(i, n - 1);
      SpanHas(i, n - 1, i + n - 1);
    }
  }

  // ---- Every run ----

  lemma {:induction false} RunKeeps(clock: real, events: seq<Event>)
    requires InOrder(clock, events)
    ensures Inv(Run(State(None, [], clock), events))
    ensures Run(State(None, [], clock), events).clock == if events == [] then clock else events[|events| - 1].at
  {
    hide Inv, Step;
    if events == [] {
      StartOk(clock);
    } else {
      var n := |events| - 1;
      RunKeeps(clock, events[..n]);
      StepKeeps(Run(State(None, [], clock), events[..n]), events[n]);
    }
  }

  lemma StartOk(clock: real)
    ensures Inv(State(None, [], clock))
  {
  }

  /**
   * In every run, any half-open interval of 900 seconds holds at most 18
   * counted failures since the last successful login, and the stored counter
   * never passes 10.
   */
  lemma FailuresAreBounded(clock: real, events: seq<Event>, from: real)
    requires InOrder(clock, events)
    ensures |Within(Run(State(None, [], clock), events).history, from)| <= 18
    ensures Run(State(None, [], clock), events).row.Some? ==> 1 <= Run(State(None, [], clock), events).row.value.failures <= LIMIT
  {
    RunKeeps(clock, events);
    var s := Run(State(None, [], clock), events);
    LastPlaced(s.history);
    AtMostEighteen(s.history, from);
  }

  // ---- Exactly who is refused ----

  /** A window of failures: its first one, and how many it has. */
  datatype Window = Window(start: real, count: nat)

  /** The window of the last failure: one less than 900 seconds after the first
      failure of a window belongs to it, a later one opens the next. */
  function LastWindow(times: seq<real>): Window
    requires times != []
  {
    var n := |times| - 1;
    if n == 0 then Window(times[0], 1)
    else
      var w := LastWindow(times[..n]);
      if times[n] < w.start + 900.0 then Window(w.start, w.count + 1) else Window(times[n], 1)
  }

  /** Ten failures in one window, the last of them less than 900 seconds ago. */
  predicate TooMany(times: seq<real>, now: real)
  {
    times != [] && LastWindow(times).count >= 10 && now < times[|times| - 1] + 900.0
  }

  /** The failures that count after some events, without a stored row. */
  function Counted(events: seq<Event>): seq<real>
  {
    if events == [] then []
    else
      var times, e := Counted(events[..|events| - 1]), events[|events| - 1];
      if e.Clean? || TooMany(times, e.at) then times else if e.Right? then [] else times + [e.at]
  }

  function Times(h: seq<Failure>): seq<real>
  {
    seq(|h|, i requires 0 <= i < |h| => h[i].at)
  }

  /** The stored row says what the failures say; it is gone only when they no longer matter. */
  ghost predicate Mirrors(row: Option<Row>, times: seq<real>, clock: real)
  {
    && clock >= 0.0
    && (times != [] ==> times[|times| - 1] <= clock)
    && if times == [] then row.None?
       else
         var w, last := LastWindow(times), times[|times| - 1];
         if row.Some? then row.value == Row(w.start, w.count, if w.count >= 10 then last + 900.0 else 0.0)
         else clock >= w.start + 900.0 && (w.count >= 10 ==> clock >= last + 900.0)
  }

  lemma MirrorsBlock(row: Option<Row>, times: seq<real>, clock: real, now: real)
    requires Mirrors(row, times, clock) && now >= clock
    ensures Blocked(row, now) <==> TooMany(times, now)
  {
  }

  lemma LastWindowMore(times: seq<real>, now: real)
    ensures LastWindow(times + [now])
         == if times != [] && now < LastWindow(times).start + 900.0
            then Window(LastWindow(times).start, LastWindow(times).count + 1) else Window(now, 1)
  {
    assert (times + [now])[..|times|] == times;
  }

  lemma MirrorsStep(s: State, e: Event)
    requires Mirrors(s.row, Times(s.history), s.clock) && e.at >= s.clock
    ensures var t := Step(s, e);
            && t.clock == e.at && Mirrors(t.row, Times(t.history), t.clock)
            && Times(t.history) == if e.Clean? || TooMany(Times(s.history), e.at) then Times(s.history)
                                   else if e.Right? then [] else Times(s.history) + [e.at]
  {
    hide LastWindow;
    var t := Step(s, e);
    MirrorsBlock(s.row, Times(s.history), s.clock, e.at);
    if e.Wrong? && !Blocked(s.row, e.at) {
      assert Times(t.history) == Times(s.history) + [e.at];
      LastWindowMore(Times(s.history), e.at);
    }
  }

  lemma {:induction false} RunMirrors(clock: real, events: seq<Event>)
    requires InOrder(clock, events) && clock >= 0.0
    ensures var s := Run(State(None, [], clock), events);
            && s.clock == (if events == [] then clock else events[|events| - 1].at)
            && Times(s.history) == Counted(events) && Mirrors(s.row, Counted(events), s.clock)
  {
    hide Step, LastWindow, Times;
    if events == [] {
      NoTimes();
    } else {
      var n := |events| - 1;
      RunMirrors(clock, events[..n]);
      MirrorsStep(Run(State(None, [], clock), events[..n]), events[n]);
    }
  }

  lemma NoTimes()
    ensures Times([]) == []
  {
  }

  /**
   * In every run a login is refused exactly when ten counted failures lie in one
   * window of 900 seconds and the last of them is less than 900 seconds old;
   * cleaning rows changes nothing about it.
   */
  lemma RefusedIff(clock: real, events: seq<Event>, now: real)
    requires InOrder(clock, events + [Wrong(now)]) && clock >= 0.0
    ensures Blocked(Run(State(None, [], clock), events).row, now) <==> TooMany(Counted(events), now)
    ensures Times(Run(State(None, [], clock), events).history) == Counted(events)
  {
    hide Step, LastWindow, Times, TooMany, Counted, Blocked;
    var all := events + [Wrong(now)];
    assert forall i :: 0 <= i < |events| ==> all[i] == events[i];
    assert all[|events|] == Wrong(now);
    assert events != [] ==> events[|events| - 1].at <= now;
    RunMirrors(clock, events);
    var s := Run(State(None, [], clock), events);
    MirrorsBlock(s.row, Counted(events), s.clock, now);
  }

  // ---- The bound is reached ----

  function Repeat(now: real, n: nat): seq<Event>
  {
    if n == 0 then [] else Repeat(now, n - 1) + [Wrong(now)]
  }

  lemma {:induction false} RepeatAll(now: real, n: nat)
    ensures |Repeat(now, n)| == n && forall i :: 0 <= i < n ==> Repeat(now, n)[i] == Wrong(now)
  {
    if n > 0 {
      RepeatAll(now, n - 1);
    }
  }

  lemma {:induction false} RunConcat(s: State, a: seq<Event>, b: seq<Event>)
    ensures Run(s, a + b) == Run(Run(s, a), b)
  {
    if b == [] {
      assert a + b == a;
    } else {
      var n := |b| - 1;
      RunConcat(s, a, b[..n]);
      assert (a + b)[..|a + b| - 1] == a + b[..n];
    }
  }

  lemma RunOneMore(s: State, now: real, n: nat)
    requires n > 0
    ensures Run(s, Repeat(now, n)) == Step(Run(s, Repeat(now, n - 1)), Wrong(now))
  {
    RepeatAll(now, n);
    assert Repeat(now, n)[..n - 1] == Repeat(now, n - 1);
  }

  /** The window is open at `now` and nothing is blocked. */
  predicate Counting(r: Option<Row>, now: real)
  {
    && r.Some? && r.value.blockedUntil == 0.0 <= now && r.value.failures >= 1
    && r.value.window <= now < r.value.window + WINDOW
  }

  /** `h` is `was` followed by `n` failures at `now`. */
  predicate Grown(was: seq<Failure>, h: seq<Failure>, n: nat, now: real)
  {
    && |h| == |was| + n && h[..|was|] == was
    && forall k :: |was| <= k < |h| ==> h[k].at == now
  }

  lemma GrownMore(was: seq<Failure>, h: seq<Failure>, n: nat, now: real, f: Failure)
    requires Grown(was, h, n, now) && f.at == now
    ensures Grown(was, h + [f], n + 1, now)
  {
    assert (h + [f])[..|was|] == h[..|was|];
  }

  lemma CountOne(s: State, now: real) returns (f: Failure)
    requires Counting(s.row, now)
    ensures var t := Step(s, Wrong(now));
            && t.row.Some? && t.row.value.window == s.row.value.window && t.row.value.failures == s.row.value.failures + 1
            && (t.row.value.failures < LIMIT ==> Counting(t.row, now))
            && t.history == s.history + [f] && f.at == now
  {
    f := Step(s, Wrong(now)).history[|s.history|];
  }

  /** Failures at one moment inside an open window are all counted. */
  lemma {:induction false} AllCounted(s: State, now: real, n: nat)
    requires Counting(s.row, now) && s.row.value.failures + n <= LIMIT
    ensures var t := Run(s, Repeat(now, n));
            && t.row.Some? && t.row.value.window == s.row.value.window && t.row.value.failures == s.row.value.failures + n
            && (s.row.value.failures + n < LIMIT ==> Counting(t.row, now))
            && Grown(s.history, t.history, n, now)
  {
    if n > 0 {
      hide Run, Repeat, Step, Grown;
      AllCounted(s, now, n - 1);
      RunOneMore(s, now, n);
      var t := Run(s, Repeat(now, n - 1));
      var f := CountOne(t, now);
      GrownMore(s.history, t.history, n - 1, now, f);
    }
  }

  /** One failure, eight more just before the window ends, ten right after. */
  function WorstCase(): seq<Event>
  {
    Repeat(0.0, 1) + Repeat(899.0, 8) + Repeat(900.0, 1) + Repeat(900.0, 9)
  }

  lemma WorstCaseInOrder()
    ensures InOrder(0.0, WorstCase())
  {
    RepeatAll(0.0, 1);
    RepeatAll(899.0, 8);
    RepeatAll(900.0, 1);
    RepeatAll(900.0, 9);
    var e := WorstCase();
    assert forall i :: 0 <= i < |e| ==> e[i].at == if i < 1 then 0.0 else if i < 9 then 899.0 else 900.0;
  }

  lemma RunOne(s: State, now: real)
    ensures Run(s, Repeat(now, 1)) == Step(s, Wrong(now))
  {
    assert Repeat(now, 1) == [Wrong(now)];
  }

  /** Eighteen failures within 900 seconds do happen. */
  lemma EighteenIsReached()
    ensures |Within(Run(State(None, [], 0.0), WorstCase()).history, 899.0)| == 18
  {
    hide Run, Repeat, Within;
    var s0 := State(None, [], 0.0);
    RunOne(s0, 0.0);
    var s1 := Step(s0, Wrong(0.0));
    AllCounted(s1, 899.0, 8);
    var s2 := Run(s1, Repeat(899.0, 8));
    RunOne(s2, 900.0);
    var s3 := Step(s2, Wrong(900.0));
    AllCounted(s3, 900.0, 9);
    RunConcat(s0, Repeat(0.0, 1), Repeat(899.0, 8));
    RunConcat(s0, Repeat(0.0, 1) + Repeat(899.0, 8), Repeat(900.0, 1));
    RunConcat(s0, Repeat(0.0, 1) + Repeat(899.0, 8) + Repeat(900.0, 1), Repeat(900.0, 9));
    WorstCaseTimes(s1, s2, s3, Run(s3, Repeat(900.0, 9)));
  }

  lemma WorstCaseTimes(s1: State, s2: State, s3: State, s4: State)
    requires |s1.history| == 1 && s1.history[0].at == 0.0
    requires |s2.history| == 9 && s2.history[..1] == s1.history && forall k :: 1 <= k < 9 ==> s2.history[k].at == 899.0
    requires |s3.history| == 10 && s3.history[..9] == s2.history && s3.history[9].at == 900.0
    requires |s4.history| == 19 && s4.history[..10] == s3.history && forall k :: 10 <= k < 19 ==> s4.history[k].at == 900.0
    ensures |Within(s4.history, 899.0)| == 18
  {
    var h := s4.history;
    forall k | 0 <= k < 19
      ensures h[k].at == if k < 1 then 0.0 else if k < 9 then 899.0 else 900.0
    {
      if k < 10 {
        assert h[k] == s4.history[..10][k] == s3.history[k];
        if k < 9 {
          assert s3.history[k] == s3.history[..9][k] == s2.history[k];
          if k < 1 {
            assert s2.history[k] == s2.history[..1][k];
          }
        }
      }
    }
    forall k: nat
      ensures k in Within(h, 899.0) <==> k in Span(1, 18)
    {
      SpanHas(1, 18, k);
    }
    assert Within(h, 899.0) == Span(1, 18);
    SpanSize(1, 18);
  }

  // ---- The login transaction ----

  /** Refused while blocked, rejected and counted, raised without a trace, or let in. */
  datatype Outcome = Refused | Rejected | Raised | Accepted

  class LoginFailures {
    var row: Option<Row>

    constructor ()
      ensures row == None
    {
      row := None;
    }

    /** Checks the block, then counts a failure or clears the row. */
    method Login(passwordOk: bool, active: bool, codeOk: bool, now: real) returns (outcome: Outcome)
      modifies this
      ensures outcome == Refused <==> old(row).Some? && old(row).value.blockedUntil > now
      ensures outcome == Accepted <==> outcome != Refused && passwordOk && active && codeOk
      ensures outcome == Raised <==> outcome != Refused && passwordOk && !active
      ensures outcome == Refused || outcome == Raised ==> row == old(row)
      ensures outcome == Accepted ==> forall h :: State(row, [], now) == Step(State(old(row), h, now), Right(now))
      ensures outcome == Rejected ==> forall h :: row == Step(State(old(row), h, now), Wrong(now)).row
    {
      if row.Some? && row.value.blockedUntil > now {
        return Refused;
      }
      var error := !passwordOk;
      if passwordOk {
        if !active {
          return Raised;
        }
        error := !codeOk;
      }
      if !error {
        row := None;
        return Accepted;
      }
      var window := if row.Some? && now - row.value.window < WINDOW then row.value.window else now;
      var failures := if row.Some? && window == row.value.window then row.value.failures + 1 else 1;
      var blockedUntil := if failures >= LIMIT then now + WINDOW else 0.0;
      row := Some(Row(window, failures, blockedUntil));
      CleanRows(now);
      return Rejected;
    }

    /** Drops a row that is over a day old and blocks nothing. */
    method CleanRows(now: real)
      modifies this
      ensures row == Cleaned(old(row), now)
      ensures row == if old(row).Some? && old(row).value.window < now - 86400.0 && old(row).value.blockedUntil < now then None else old(row)
    {
      if row.Some? && row.value.window < now - DAY && row.value.blockedUntil < now {
        row := None;
      }
    }
  }
}
