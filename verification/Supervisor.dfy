/** The retry budget of one supervised run, over any sequence of failed writes, kills, crashes and
    restarts. What an attempt does is up to it: its progress, its outcome and whether it is fatal. */
module Supervisor {
  import opened Options

  datatype Limits = Limits(attempts: int, noProgress: int, margin: int)

  /** What validation of the configuration leaves. */
  predicate Valid(l: Limits) {
    l.attempts > 0 && l.noProgress > 0 && l.margin > 0
  }

  datatype Active = Active(id: nat, progress: int)

  datatype Checkpoint = Checkpoint(attempts: int, best: int, stagnant: int, active: Option<Active>, fatal: bool)

  const INITIAL := Checkpoint(0, -1, 0, None, false)

  function Closed(c: Checkpoint, progress: int, l: Limits, fatal: bool): Checkpoint {
    Checkpoint(
      c.attempts, Max(c.best, progress), if progress >= c.best + l.margin then 0 else c.stagnant + 1, None, fatal)
  }

  /** The budget; running out of time is decided elsewhere. */
  predicate Allowed(c: Checkpoint, l: Limits, inTime: bool) {
    !c.fatal && c.attempts < l.attempts && c.stagnant < l.noProgress && inTime
  }

  class Run {
    var state: Checkpoint

    constructor (state: Checkpoint)
      ensures this.state == state
    {
      this.state := state;
    }

    /** An attempt that did not beat the best of all earlier ones by the margin counts as stagnant. */
    method Failed(progress: int, l: Limits, fatal: bool)
      modifies this
      ensures state == Closed(old(state), progress, l, fatal)
    {
      state := state.(stagnant := if progress >= state.best + l.margin then 0 else state.stagnant + 1);
      state := state.(best := Max(state.best, progress));
      state := state.(active := None, fatal := fatal);
    }
  }

  // ---- the run directory --------------------------------------------------------------------

  /** How a durable write ends: done; not begun; renamed but not synced and taken back; or the same with
      the name left in place. All but the first end the process. */
  datatype Report = Written | Untouched | TakenBack | LeftUnsynced

  /** Where the supervising process stands, with its state in memory. */
  datatype Stage =
    | Idle
    | Recovering(c: Checkpoint)
    | Looping(c: Checkpoint)
    | Launching(c: Checkpoint)
    | Attempting(c: Checkpoint)
    | Judging(c: Checkpoint, fatal: bool, success: bool)

  /** `file` is the checkpoint as programs see it and `older` what a crash may put back instead;
      `results` holds each attempt's verdict, of which the `shaky` ones a crash may take away. `launched`
      and `top` count what happened: attempts launched, and the highest progress seen. */
  datatype State = State(
    file: Option<Checkpoint>, older: set<Option<Checkpoint>>, directories: set<nat>, results: map<nat, bool>,
    shaky: set<nat>, success: bool, stage: Stage, launched: nat, top: int)

  const NEW := State(None, {}, {}, map[], {}, false, Idle, 0, -1)

  datatype Event =
    | Start
    | Recover(report: Report)
    | Begin(id: nat, inTime: bool, report: Report)
    | Launch(made: bool)
    | Observe(progress: int, report: Report)
    | End(fatal: bool, success: bool, report: Report)
    | Judge(outputsSound: bool, report: Report, interrupted: bool)
    | Kill
    | Crash(file: Option<Checkpoint>, lost: set<nat>)

  function Save(s: State, c: Checkpoint, report: Report, next: Stage): State {
    match report
    case Written => s.(file := Some(c), older := {}, stage := next)
    case Untouched => s.(stage := Idle)
    case TakenBack => s.(file := None, older := s.older + {s.file, Some(c)}, stage := Idle)
    case LeftUnsynced => s.(file := Some(c), older := s.older + {s.file}, stage := Idle)
  }

  function Next(l: Limits, s: State, e: Event): State {
    match e
    case Start =>
      if s.stage != Idle || s.success then s
      else if s.file.Some? then
        s.(stage := if s.file.value.active.Some? then Recovering(s.file.value) else Looping(s.file.value))
      else if s.directories == {} then s.(stage := Looping(INITIAL))
      else s
    case Recover(report) =>
      if !s.stage.Recovering? || s.stage.c.active.None? then s
      else
        var a := s.stage.c.active.value;
        var closed := Closed(s.stage.c, a.progress, l, a.id in s.results && s.results[a.id]);
        Save(s, closed, report, Looping(closed))
    case Begin(id, inTime, report) =>
      if !s.stage.Looping? then s
      else if !Allowed(s.stage.c, l, inTime) then s.(stage := Idle)
      else if id in s.directories then s
      else
        var c := s.stage.c.(attempts := s.stage.c.attempts + 1, active := Some(Active(id, -1)));
        Save(s, c, report, Launching(c))
    case Launch(made) =>
      if !s.stage.Launching? || s.stage.c.active.None? then s
      else if !made then s.(stage := Idle)
      else s.(directories := s.directories + {s.stage.c.active.value.id}, launched := s.launched + 1,
              stage := Attempting(s.stage.c))
    case Observe(progress, report) =>
      if !s.stage.Attempting? || s.stage.c.active.None? || progress <= s.stage.c.active.value.progress then s
      else
        var c := s.stage.c.(active := Some(s.stage.c.active.value.(progress := progress)));
        Save(s, c, report, Idle).(stage := Attempting(c), top := Max(s.top, progress))
    case End(fatal, success, report) =>
      if !s.stage.Attempting? || s.stage.c.active.None? || (fatal && success) then s
      else
        var id := s.stage.c.active.value.id;
        match report {
          case Written =>
            s.(results := s.results[id := fatal], shaky := s.shaky - {id}, stage := Judging(s.stage.c, fatal, success))
          case LeftUnsynced => s.(results := s.results[id := fatal], shaky := s.shaky + {id}, stage := Idle)
          case _ => s.(stage := Idle)
        }
    case Judge(outputsSound, report, interrupted) =>
      if !s.stage.Judging? || s.stage.c.active.None? then s
      else if s.stage.success && outputsSound then s.(success := report == Written, stage := Idle)
      else
        var closed := Closed(s.stage.c, s.stage.c.active.value.progress, l, s.stage.fatal || s.stage.success);
        Save(s, closed, report, if interrupted || s.stage.success then Idle else Looping(closed))
    case Kill => s.(stage := Idle)
    case Crash(file, lost) =>
      s.(file := if file in s.older then file else s.file, older := {}, stage := Idle,
         results := s.results - (lost * s.shaky), shaky := {})
  }

  function After(l: Limits, s: State, events: seq<Event>): State
    decreases |events|
  {
    if events == [] then s else After(l, Next(l, s, events[0]), events[1..])
  }

  // ---- the budget ---------------------------------------------------------------------------

  /** How often the high water mark can have risen by a margin. */
  function Rises(best: int, l: Limits): int
    requires Valid(l)
  {
    (best + 1) / l.margin
  }

  /** A checkpoint accounts for every attempt: those that are over either raised the mark by a margin, at
      the end of at most `noProgress` of them, or count as stagnant. */
  predicate Accounts(c: Checkpoint, l: Limits)
    requires Valid(l)
  {
    && 0 <= c.attempts <= l.attempts && -1 <= c.best && 0 <= c.stagnant
    && (c.active.Some? ==> c.stagnant < l.noProgress && !c.fatal && c.active.value.progress >= -1)
    && c.attempts - (if c.active.Some? then 1 else 0) <= l.noProgress * Rises(c.best, l) + c.stagnant
    && c.stagnant <= l.noProgress
  }

  /** What holds of every checkpoint in sight: it accounts, and no attempt was launched behind its back. */
  predicate Fits(s: State, c: Checkpoint, l: Limits)
    requires Valid(l)
  {
    && Accounts(c, l) && s.launched <= c.attempts && c.best <= s.top
    && (c.active.Some? ==> c.active.value.progress <= s.top)
  }

  /** The checkpoints that are, or may come back as, the run's state. */
  ghost predicate InSight(s: State, c: Checkpoint) {
    || s.file == Some(c) || Some(c) in s.older
    || (s.stage != Idle && s.stage.c == c)
  }

  ghost predicate Inv(l: Limits, s: State)
    requires Valid(l)
  {
    && -1 <= s.top
    && (forall c :: InSight(s, c) ==> Fits(s, c, l))
    && (s.stage.Launching? ==> s.stage.c.active.Some? && s.launched < s.stage.c.attempts
                               && s.file == Some(s.stage.c) && s.older == {})
    && (s.stage.Looping? ==> s.stage.c.active.None?)
    && (s.launched > 0 ==> s.directories != {})
    && s.launched <= l.attempts && s.launched <= l.noProgress * (1 + Rises(s.top, l))
  }

  lemma ClosedAccounts(c: Checkpoint, progress: int, l: Limits, fatal: bool)
    requires Valid(l) && Accounts(c, l) && c.active.Some? && progress >= -1
    ensures Accounts(Closed(c, progress, l, fatal), l)
  {
    var d := Closed(c, progress, l, fatal);
    RisesGrow(c.best, d.best, l);
    if progress >= c.best + l.margin {
      RisesByOne(c.best, d.best, l);
    }
  }

  lemma RisesGrow(a: int, b: int, l: Limits)
    requires Valid(l) && -1 <= a <= b
    ensures 0 <= Rises(a, l) <= Rises(b, l)
    ensures l.noProgress * Rises(a, l) <= l.noProgress * Rises(b, l)
  {
    Division(a + 1, b + 1, l.margin);
    Scale(l.noProgress, Rises(a, l), Rises(b, l));
  }

  lemma RisesByOne(a: int, b: int, l: Limits)
    requires Valid(l) && -1 <= a && a + l.margin <= b
    ensures l.noProgress * Rises(a, l) + l.noProgress <= l.noProgress * Rises(b, l)
  {
    OneMore(a + 1, l.margin);
    Division(a + 1 + l.margin, b + 1, l.margin);
    var p, q := Rises(a, l), Rises(b, l);
    hide Rises;
    assert p + 1 <= q;
    Scale(l.noProgress, p + 1, q);
    assert l.noProgress * (p + 1) == l.noProgress * p + l.noProgress;
  }

  lemma OneMore(x: int, m: int)
    requires 0 <= x && m > 0
    ensures (x + m) / m == x / m + 1
  {
    var q, r := x / m, (x + m) / m;
    var u, v := x % m, (x + m) % m;
    assert x == m * q + u && x + m == m * r + v;
    assert m * (q + 1) == m * q + m && m * (q + 2) == m * q + 2 * m;
    if r > q + 1 {
      Scale(m, q + 2, r);
    } else if r < q + 1 {
      Scale(m, r, q);
    }
  }

  lemma Division(x: int, y: int, m: int)
    requires 0 <= x <= y && m > 0
    ensures 0 <= x / m <= y / m
  {
    var q, r := x / m, y / m;
    if r < q {
      assert q * m <= x && y < (r + 1) * m;
      Scale(m, r + 1, q);
    }
  }

  lemma Scale(n: int, a: int, b: int)
    requires n > 0 && a <= b
    ensures n * a <= n * b
  {
  }

  // ---- every event keeps it -----------------------------------------------------------------

  /** Saving a checkpoint that fits keeps everything, however the write ends. */
  lemma SaveKeepsInv(l: Limits, s: State, c: Checkpoint, report: Report, next: Stage)
    requires Valid(l) && Inv(l, s) && s.stage != Idle && !s.stage.Launching? && Fits(s, c, l)
    requires next == Idle || (next == Looping(c) && c.active.None?)
    ensures Inv(l, Save(s, c, report, next))
  {
    var t := Save(s, c, report, next);
    forall d | InSight(t, d) ensures Fits(t, d, l) {
      assert d == c || InSight(s, d);
    }
  }

  lemma NextKeepsInv(l: Limits, s: State, e: Event)
    requires Valid(l) && Inv(l, s)
    ensures Inv(l, Next(l, s, e))
  {
    hide Inv, Fits;
    match e {
      case Start => StartKeepsInv(l, s);
      case Recover(report) => RecoverKeepsInv(l, s, report);
      case Begin(id, inTime, report) =>
        if s.stage.Looping? && Allowed(s.stage.c, l, inTime) && id !in s.directories {
          BeginKeepsInv(l, s, id, report);
        } else {
          StopKeepsInv(l, s);
        }
      case Launch(made) => LaunchKeepsInv(l, s, made);
      case Observe(progress, report) => ObserveKeepsInv(l, s, progress, report);
      case End(fatal, success, report) => EndKeepsInv(l, s, fatal, success, report);
      case Judge(outputsSound, report, interrupted) => JudgeKeepsInv(l, s, outputsSound, report, interrupted);
      case Kill => StopKeepsInv(l, s);
      case Crash(file, lost) => CrashKeepsInv(l, s, file, lost);
    }
  }

  lemma RecoverKeepsInv(l: Limits, s: State, report: Report)
    requires Valid(l) && Inv(l, s)
    ensures Inv(l, Next(l, s, Recover(report)))
  {
    if s.stage.Recovering? && s.stage.c.active.Some? {
      assert InSight(s, s.stage.c);
      var a := s.stage.c.active.value;
      var fatal := a.id in s.results && s.results[a.id];
      CloseKeepsInv(l, s, a.progress, fatal, report, Looping(Closed(s.stage.c, a.progress, l, fatal)));
    }
  }

  lemma JudgeKeepsInv(l: Limits, s: State, outputsSound: bool, report: Report, interrupted: bool)
    requires Valid(l) && Inv(l, s)
    ensures Inv(l, Next(l, s, Judge(outputsSound, report, interrupted)))
  {
    if s.stage.Judging? && s.stage.c.active.Some? && !(s.stage.success && outputsSound) {
      var progress, fatal := s.stage.c.active.value.progress, s.stage.fatal || s.stage.success;
      var closed := Closed(s.stage.c, progress, l, fatal);
      CloseKeepsInv(l, s, progress, fatal, report, if interrupted || s.stage.success then Idle else Looping(closed));
    } else {
      QuietKeepsInv(l, s, Next(l, s, Judge(outputsSound, report, interrupted)));
    }
  }

  /** Closing the attempt of the checkpoint at hand and saving the result. */
  lemma CloseKeepsInv(l: Limits, s: State, progress: int, fatal: bool, report: Report, next: Stage)
    requires Valid(l) && Inv(l, s) && s.stage != Idle && !s.stage.Launching? && s.stage.c.active.Some?
    requires progress == s.stage.c.active.value.progress
    requires next == Idle || next == Looping(Closed(s.stage.c, progress, l, fatal))
    ensures Inv(l, Save(s, Closed(s.stage.c, progress, l, fatal), report, next))
  {
    assert InSight(s, s.stage.c);
    assert Fits(s, s.stage.c, l);
    ClosedAccounts(s.stage.c, progress, l, fatal);
    hide Inv, Accounts, Save;
    SaveKeepsInv(l, s, Closed(s.stage.c, progress, l, fatal), report, next);
  }

  lemma StopKeepsInv(l: Limits, s: State)
    requires Valid(l) && Inv(l, s)
    ensures Inv(l, s.(stage := Idle))
  {
    QuietKeepsInv(l, s, s.(stage := Idle));
  }

  lemma EndKeepsInv(l: Limits, s: State, fatal: bool, success: bool, report: Report)
    requires Valid(l) && Inv(l, s)
    ensures Inv(l, Next(l, s, End(fatal, success, report)))
  {
    QuietKeepsInv(l, s, Next(l, s, End(fatal, success, report)));
  }

  lemma CrashKeepsInv(l: Limits, s: State, file: Option<Checkpoint>, lost: set<nat>)
    requires Valid(l) && Inv(l, s)
    ensures Inv(l, Next(l, s, Crash(file, lost)))
  {
    QuietKeepsInv(l, s, Next(l, s, Crash(file, lost)));
  }

  /** An event that shows no new checkpoint and launches nothing. */
  lemma QuietKeepsInv(l: Limits, s: State, t: State)
    requires Valid(l) && Inv(l, s) && t.launched == s.launched && t.top == s.top && t.directories == s.directories
    requires forall c :: InSight(t, c) ==> InSight(s, c)
    requires t.stage.Launching? ==> t.stage == s.stage && t.file == s.file && t.older == s.older
    requires t.stage.Looping? ==> t.stage.c.active.None?
    ensures Inv(l, t)
  {
    forall c | InSight(t, c) ensures Fits(t, c, l) {
      assert InSight(s, c);
    }
  }

  lemma StartKeepsInv(l: Limits, s: State)
    requires Valid(l) && Inv(l, s)
    ensures Inv(l, Next(l, s, Start))
  {
    var t := Next(l, s, Start);
    if t.stage == Looping(INITIAL) && s.file.None? {
      assert Accounts(INITIAL, l) by { Division(0, 0, l.margin); }
      forall c | InSight(t, c) ensures Fits(t, c, l) {
        assert c == INITIAL || InSight(s, c);
      }
    } else {
      QuietKeepsInv(l, s, t);
    }
  }

  lemma BeginKeepsInv(l: Limits, s: State, id: nat, report: Report)
    requires Valid(l) && Inv(l, s) && s.stage.Looping? && Allowed(s.stage.c, l, true)
    ensures var c := s.stage.c.(attempts := s.stage.c.attempts + 1, active := Some(Active(id, -1)));
            Inv(l, Save(s, c, report, Launching(c)))
  {
    assert InSight(s, s.stage.c);
    var c := s.stage.c.(attempts := s.stage.c.attempts + 1, active := Some(Active(id, -1)));
    var t := Save(s, c, report, Launching(c));
    forall d | InSight(t, d) ensures Fits(t, d, l) {
      assert d == c || InSight(s, d);
    }
  }

  lemma LaunchKeepsInv(l: Limits, s: State, made: bool)
    requires Valid(l) && Inv(l, s)
    ensures Inv(l, Next(l, s, Launch(made)))
  {
    var t := Next(l, s, Launch(made));
    if s.stage.Launching? && s.stage.c.active.Some? && made {
      var c := s.stage.c;
      assert InSight(s, c);
      RisesGrow(c.best, s.top, l);
      var a, b, n := Rises(c.best, l), Rises(s.top, l), l.noProgress;
      assert c.attempts - 1 <= n * a + c.stagnant && n * a <= n * b;
      assert n * (1 + b) == n + n * b;
      forall d | InSight(t, d) ensures Fits(t, d, l) {
        assert d == c;
      }
    } else {
      QuietKeepsInv(l, s, t);
    }
  }

  lemma ObserveKeepsInv(l: Limits, s: State, progress: int, report: Report)
    requires Valid(l) && Inv(l, s)
    ensures Inv(l, Next(l, s, Observe(progress, report)))
  {
    var t := Next(l, s, Observe(progress, report));
    if s.stage.Attempting? && s.stage.c.active.Some? && progress > s.stage.c.active.value.progress {
      assert InSight(s, s.stage.c);
      var c := s.stage.c.(active := Some(s.stage.c.active.value.(progress := progress)));
      RisesGrow(s.top, t.top, l);
      assert l.noProgress * (1 + Rises(s.top, l)) <= l.noProgress * (1 + Rises(t.top, l)) by {
        Scale(l.noProgress, 1 + Rises(s.top, l), 1 + Rises(t.top, l));
      }
      assert Accounts(c, l);
      hide Rises, Accounts;
      forall d | InSight(t, d) ensures Fits(t, d, l) {
        assert d == c || InSight(s, d);
      }
    } else {
      QuietKeepsInv(l, s, t);
    }
  }

  lemma {:induction false} EventsKeepInv(l: Limits, s: State, events: seq<Event>)
    requires Valid(l) && Inv(l, s)
    ensures Inv(l, After(l, s, events))
    decreases |events|
  {
    if events != [] {
      NextKeepsInv(l, s, events[0]);
      EventsKeepInv(l, Next(l, s, events[0]), events[1..]);
    }
  }

  /** The budget over a whole run: never more attempts than the limit, and never more than the stagnation
      limit allows for the progress that was reached. */
  lemma BudgetHolds(l: Limits, events: seq<Event>)
    requires Valid(l)
    ensures var s := After(l, NEW, events);
            && s.launched <= l.attempts
            && s.launched <= l.noProgress * (1 + (s.top + 1) / l.margin)
  {
    assert Inv(l, NEW) by {
      Division(0, 0, l.margin);
      Scale(l.noProgress, 0, 1 + Rises(-1, l));
    }
    EventsKeepInv(l, NEW, events);
  }

  // ---- what the budget allows ---------------------------------------------------------------

  /** The high water mark over the attempts so far. */
  function Best(ps: seq<int>): (b: int)
    ensures b >= -1 && (b == -1 || b in ps) && forall p :: p in ps ==> p <= b
  {
    if ps == [] then -1
    else
      assert ps == ps[..|ps| - 1] + [ps[|ps| - 1]];
      Max(Best(ps[..|ps| - 1]), ps[|ps| - 1])
  }

  /** Attempt `i` beat everything before it by the margin. */
  predicate Meaningful(ps: seq<int>, i: int, l: Limits) {
    0 <= i < |ps| && ps[i] >= Best(ps[..i]) + l.margin
  }

  /** Attempts are left, and fewer than `noProgress` of them ended since the last meaningful one. */
  ghost predicate Budgeted(ps: seq<int>, l: Limits) {
    && |ps| < l.attempts
    && (|ps| < l.noProgress || exists i :: |ps| - l.noProgress <= i < |ps| && Meaningful(ps, i, l))
  }

  /** A checkpoint whose closed attempts reached these progresses. */
  ghost predicate Tells(c: Checkpoint, ps: seq<int>, l: Limits) {
    && c.attempts == |ps| && c.best == Best(ps) && c.active.None? && !c.fatal
    && 0 <= c.stagnant <= |ps|
    && (forall i :: |ps| - c.stagnant <= i < |ps| ==> !Meaningful(ps, i, l))
    && (c.stagnant < |ps| ==> Meaningful(ps, |ps| - c.stagnant - 1, l))
  }

  /** Closing one more attempt: `stagnant` counts the attempts since the last meaningful one. */
  lemma ClosedTells(c: Checkpoint, ps: seq<int>, l: Limits, active: Option<Active>, p: int)
    requires Valid(l) && Tells(c, ps, l)
    ensures Tells(Closed(c.(attempts := c.attempts + 1, active := active), p, l, false), ps + [p], l)
  {
    var more := ps + [p];
    assert more[..|ps|] == ps;
    forall i | 0 <= i < |ps| ensures Meaningful(more, i, l) == Meaningful(ps, i, l) {
      assert more[..i] == ps[..i];
    }
  }

  lemma TellsTheBudget(c: Checkpoint, ps: seq<int>, l: Limits)
    requires Valid(l) && Tells(c, ps, l)
    ensures Allowed(c, l, true) <==> Budgeted(ps, l)
  {
    if l.noProgress <= |ps| && c.stagnant < l.noProgress {
      assert Meaningful(ps, |ps| - c.stagnant - 1, l);
    }
  }

  /** One attempt that reaches `p` and fails in a way that may be retried. */
  function Attempt(id: nat, p: int): seq<Event> {
    [Begin(id, true, Written), Launch(true), Observe(p, Written), End(false, false, Written),
     Judge(false, Written, false)]
  }

  /** Such attempts one after the other. */
  function Attempts(ps: seq<int>): seq<Event> {
    if ps == [] then [] else Attempts(ps[..|ps| - 1]) + Attempt(|ps| - 1, ps[|ps| - 1])
  }

  lemma {:induction false} AfterBoth(l: Limits, s: State, a: seq<Event>, b: seq<Event>)
    ensures After(l, s, a + b) == After(l, After(l, s, a), b)
    decreases |a|
  {
    if a == [] {
      assert a + b == b;
    } else {
      assert (a + b)[1..] == a[1..] + b;
      AfterBoth(l, Next(l, s, a[0]), a[1..], b);
    }
  }

  lemma AfterFive(l: Limits, s: State, a: Event, b: Event, c: Event, d: Event, e: Event)
    ensures After(l, s, [a, b, c, d, e]) == Next(l, Next(l, Next(l, Next(l, Next(l, s, a), b), c), d), e)
  {
    hide Next;
    var t := Next(l, Next(l, s, a), b);
    AfterOne(l, s, a, [b, c, d, e]);
    AfterOne(l, Next(l, s, a), b, [c, d, e]);
    AfterOne(l, t, c, [d, e]);
    AfterOne(l, Next(l, t, c), d, [e]);
    AfterOne(l, Next(l, Next(l, t, c), d), e, []);
  }

  lemma AfterOne(l: Limits, s: State, e: Event, events: seq<Event>)
    ensures After(l, s, [e] + events) == After(l, Next(l, s, e), events)
  {
    assert ([e] + events)[1..] == events;
  }

  lemma OneAttempt(l: Limits, s: State, id: nat, p: int)
    requires s.stage.Looping? && id !in s.directories && p >= -1
    ensures var t := After(l, s, Attempt(id, p));
            if !Allowed(s.stage.c, l, true) then t == s.(stage := Idle)
            else
              && t.launched == s.launched + 1 && t.directories == s.directories + {id}
              && t.stage == Looping(Closed(s.stage.c.(attempts := s.stage.c.attempts + 1,
                                                      active := Some(Active(id, p))), p, l, false))
  {
    hide Closed, Allowed;
    AfterFive(l, s, Begin(id, true, Written), Launch(true), Observe(p, Written), End(false, false, Written),
              Judge(false, Written, false));
  }

  /** Where a run stands between two attempts. */
  ghost predicate Stands(s: State, ps: seq<int>, l: Limits) {
    && s.launched == |ps| && s.stage.Looping? && Tells(s.stage.c, ps, l)
    && forall id :: id in s.directories ==> id < |ps|
  }

  lemma OneMoreAttempt(l: Limits, s: State, ps: seq<int>, p: int)
    requires Valid(l) && Stands(s, ps, l) && p >= -1
    ensures var t := After(l, s, Attempt(|ps|, p));
            if Budgeted(ps, l) then Stands(t, ps + [p], l) else t.launched == |ps|
  {
    hide Allowed, Budgeted, Tells, After, Attempt, Closed;
    TellsTheBudget(s.stage.c, ps, l);
    OneAttempt(l, s, |ps|, p);
    ClosedTells(s.stage.c, ps, l, Some(Active(|ps|, p)), p);
  }

  lemma AfterOneMore(l: Limits, ps: seq<int>, p: int)
    ensures After(l, NEW, [Start] + Attempts(ps + [p])) ==
            After(l, After(l, NEW, [Start] + Attempts(ps)), Attempt(|ps|, p))
  {
    assert (ps + [p])[..|ps|] == ps;
    assert [Start] + Attempts(ps + [p]) == ([Start] + Attempts(ps)) + Attempt(|ps|, p);
    hide After, Attempt;
    AfterBoth(l, NEW, [Start] + Attempts(ps), Attempt(|ps|, p));
  }

  lemma Started(l: Limits)
    ensures Stands(After(l, NEW, [Start] + Attempts([])), [], l)
  {
    AfterOne(l, NEW, Start, []);
    assert Attempts([]) == [];
  }

  /** Where a run stands after some attempts that were all within the budget. */
  lemma {:induction false} RetriesTell(l: Limits, ps: seq<int>)
    requires Valid(l) && (forall k :: 0 <= k < |ps| ==> ps[k] >= -1 && Budgeted(ps[..k], l))
    ensures Stands(After(l, NEW, [Start] + Attempts(ps)), ps, l)
  {
    hide Stands, Budgeted, After, Attempts, Attempt;
    if ps == [] {
      Started(l);
    } else {
      var n := |ps| - 1;
      var before := ps[..n];
      assert forall k :: 0 <= k < n ==> before[..k] == ps[..k];
      RetriesTell(l, before);
      AfterOneMore(l, before, ps[n]);
      OneMoreAttempt(l, After(l, NEW, [Start] + Attempts(before)), before, ps[n]);
      assert ps == before + [ps[n]];
    }
  }

  /** Undisturbed and in time, after attempts that failed with these progresses a run launches another one
      exactly when attempts are left and the last meaningful one is recent enough. */
  lemma RetriesExactlyWithinBudget(l: Limits, ps: seq<int>, p: int)
    requires Valid(l) && p >= -1 && (forall k :: 0 <= k < |ps| ==> ps[k] >= -1 && Budgeted(ps[..k], l))
    ensures After(l, NEW, [Start] + Attempts(ps + [p])).launched == |ps| + if Budgeted(ps, l) then 1 else 0
  {
    hide Budgeted, After, Attempts, Attempt;
    RetriesTell(l, ps);
    AfterOneMore(l, ps, p);
    OneMoreAttempt(l, After(l, NEW, [Start] + Attempts(ps)), ps, p);
  }

  // ---- a fatal result is final --------------------------------------------------------------

  /** A durable fatal verdict of attempt `id`: every checkpoint in sight is fatal, or is still waiting for
      the verdict of that very attempt. */
  ghost predicate Condemned(s: State, id: nat) {
    && id in s.directories && id in s.results && s.results[id] && id !in s.shaky
    && !s.stage.Launching? && !s.stage.Attempting?
    && (s.stage.Judging? ==> s.stage.fatal && s.stage.c.active.Some? && s.stage.c.active.value.id == id)
    && (s.stage.Looping? ==> s.stage.c.fatal)
    && forall c :: InSight(s, c) ==> Doomed(c, id)
  }

  predicate Doomed(c: Checkpoint, id: nat) {
    if c.active.Some? then c.active.value.id == id else c.fatal
  }

  /** The attempt a process is in the middle of is the one every checkpoint in sight names. */
  ghost predicate Follows(s: State) {
    && (s.stage.Launching? || s.stage.Attempting? || s.stage.Judging? ==>
          && s.stage.c.active.Some?
          && forall c :: InSight(s, c) ==> c.active.Some? && c.active.value.id == s.stage.c.active.value.id)
    && (s.stage.Attempting? || s.stage.Judging? ==> s.stage.c.active.value.id in s.directories)
  }

  lemma NextFollows(l: Limits, s: State, e: Event)
    requires Follows(s)
    ensures Follows(Next(l, s, e))
  {
    hide Follows;
    match e {
      case Start => StartFollows(l, s);
      case Recover(report) => RecoverFollows(l, s, report);
      case Begin(id, inTime, report) => BeginFollows(l, s, id, inTime, report);
      case Launch(made) => LaunchFollows(l, s, made);
      case Observe(progress, report) => ObserveFollows(l, s, progress, report);
      case End(fatal, success, report) => EndFollows(l, s, fatal, success, report);
      case Judge(outputsSound, report, interrupted) => JudgeFollows(l, s, outputsSound, report, interrupted);
      case Kill => StopFollows(s.(stage := Idle));
      case Crash(file, lost) => StopFollows(Next(l, s, e));
    }
  }

  lemma StopFollows(s: State)
    requires s.stage == Idle || s.stage.Looping? || s.stage.Recovering?
    ensures Follows(s)
  {
  }

  lemma StartFollows(l: Limits, s: State)
    requires Follows(s)
    ensures Follows(Next(l, s, Start))
  {
  }

  lemma RecoverFollows(l: Limits, s: State, report: Report)
    requires Follows(s)
    ensures Follows(Next(l, s, Recover(report)))
  {
    hide Closed;
  }

  lemma BeginFollows(l: Limits, s: State, id: nat, inTime: bool, report: Report)
    requires Follows(s)
    ensures Follows(Next(l, s, Begin(id, inTime, report)))
  {
    hide Allowed;
  }

  lemma LaunchFollows(l: Limits, s: State, made: bool)
    requires Follows(s)
    ensures Follows(Next(l, s, Launch(made)))
  {
    var t := Next(l, s, Launch(made));
    forall c | InSight(t, c) ensures InSight(s, c) {
    }
  }

  lemma ObserveFollows(l: Limits, s: State, progress: int, report: Report)
    requires Follows(s)
    ensures Follows(Next(l, s, Observe(progress, report)))
  {
    var t := Next(l, s, Observe(progress, report));
    if t != s {
      forall c | InSight(t, c) ensures c.active.Some? && c.active.value.id == t.stage.c.active.value.id {
        assert c == t.stage.c || InSight(s, c);
      }
    }
  }

  lemma EndFollows(l: Limits, s: State, fatal: bool, success: bool, report: Report)
    requires Follows(s)
    ensures Follows(Next(l, s, End(fatal, success, report)))
  {
    var t := Next(l, s, End(fatal, success, report));
    forall c | InSight(t, c) ensures InSight(s, c) {
    }
  }

  lemma JudgeFollows(l: Limits, s: State, outputsSound: bool, report: Report, interrupted: bool)
    requires Follows(s)
    ensures Follows(Next(l, s, Judge(outputsSound, report, interrupted)))
  {
    hide Closed;
  }

  /** Recording a fatal result durably condemns the run. */
  lemma FatalResultCondemns(l: Limits, s: State)
    requires Follows(s) && s.stage.Attempting?
    ensures Condemned(Next(l, s, End(true, false, Written)), s.stage.c.active.value.id)
  {
    var t := Next(l, s, End(true, false, Written));
    forall c | InSight(t, c) ensures Doomed(c, s.stage.c.active.value.id) {
      assert InSight(s, c);
    }
  }

  lemma CondemnedStays(l: Limits, s: State, e: Event, id: nat)
    requires Condemned(s, id)
    ensures Condemned(Next(l, s, e), id) && Next(l, s, e).launched == s.launched
  {
    var t := Next(l, s, e);
    if s.stage != Idle {
      assert InSight(s, s.stage.c);
    }
    if s.file.Some? {
      assert InSight(s, s.file.value);
    }
    forall c | InSight(t, c) ensures Doomed(c, id) {
      if !InSight(s, c) {
        assert e.Recover? || e.Judge?;
      }
    }
  }

  /** Once an attempt's durable result is fatal, nothing that happens afterwards launches another. */
  lemma {:induction false} FatalIsFinal(l: Limits, s: State, id: nat, events: seq<Event>)
    requires Condemned(s, id)
    ensures After(l, s, events).launched == s.launched && Condemned(After(l, s, events), id)
    decreases |events|
  {
    if events != [] {
      CondemnedStays(l, s, events[0], id);
      FatalIsFinal(l, Next(l, s, events[0]), id, events[1..]);
    }
  }

  lemma {:induction false} EventsFollow(l: Limits, s: State, events: seq<Event>)
    requires Follows(s)
    ensures Follows(After(l, s, events))
    decreases |events|
  {
    if events != [] {
      NextFollows(l, s, events[0]);
      EventsFollow(l, Next(l, s, events[0]), events[1..]);
    }
  }

  /** The same from the start: whatever came before, a durable fatal result ends the launching. */
  lemma NothingAfterFatal(l: Limits, before: seq<Event>, later: seq<Event>)
    requires After(l, NEW, before).stage.Attempting?
    ensures var s := After(l, NEW, before);
            var t := Next(l, s, End(true, false, Written));
            After(l, t, later).launched == s.launched
  {
    EventsFollow(l, NEW, before);
    var s := After(l, NEW, before);
    FatalResultCondemns(l, s);
    FatalIsFinal(l, Next(l, s, End(true, false, Written)), s.stage.c.active.value.id, later);
  }

  // ---- success ------------------------------------------------------------------------------

  /** An attempt that succeeds ends the run: as a success if its outputs are sound, and otherwise for good. */
  lemma SuccessEndsTheRun(l: Limits, s: State, outputsSound: bool, interrupted: bool)
    requires s.stage.Attempting? && s.stage.c.active.Some? && !s.success
    ensures var t := Next(l, Next(l, s, End(false, true, Written)), Judge(outputsSound, Written, interrupted));
            && t.stage == Idle && t.launched == s.launched && t.success == outputsSound
            && (!outputsSound ==> t.file.Some? && t.file.value.fatal && t.file.value.active.None? && t.older == {})
  {
  }

  /** After a success nothing is launched any more. */
  lemma {:induction false} SuccessIsFinal(l: Limits, s: State, events: seq<Event>)
    requires s.success && s.stage == Idle
    ensures var t := After(l, s, events); t.success && t.stage == Idle && t.launched == s.launched
    decreases |events|
  {
    if events != [] {
      SuccessIsFinal(l, Next(l, s, events[0]), events[1..]);
    }
  }
}
