/**
 * The authentication-session state machine of the fingerprint dialog, as values.
 *
 * A `Session` is everything the dialog's handlers read or write: the scan-in-progress
 * flag, the consecutive-failure counter, what the error line and the icon show, the
 * configurable texts and colours, and the trace of side effects the dialog has caused
 * (commands to the fingerprint handler, calls to the result listener, the shake cue
 * and dismissals). `Step` gives the effect of one handler call, `Run` of a sequence.
 */
module AuthSession {

  datatype Option<+T> = None | Some(value: T)

  /** Android's KeyEvent.KEYCODE_BACK. */
  const KEYCODE_BACK: int := 4

  /** A failed match is absorbed while the counter is below this bound. */
  const ABSORBED_FAILURES: int := 2

  /** Commands sent to the fingerprint handler. */
  datatype Command = StartAuth | EndAuth

  /** The four calls of the dialog's result listener. */
  datatype Outcome =
    | Authenticated
    | Error(message: string, code: int)
    | AuthFailed(code: int)
    | Cancelled

  /** One observable side effect of a handler, in the order it happens. */
  datatype Effect =
    | Handler(command: Command)   // a call into the fingerprint handler
    | Listener(outcome: Outcome)  // a call into the result listener
    | Shake                       // the rotate animation played on an absorbed failure
    | Dismiss                     // the dialog dismisses itself

  /** A value of the loosely typed configuration map. */
  datatype Value = Text(text: string) | Number(number: int) | Other

  type ReadableMap = map<string, Value>

  /** The fields that setAuthConfig may overwrite. */
  datatype Settings = Settings(
    title: string,
    cancelText: string,
    imageColor: int,
    imageErrorColor: int,
    authFailDescription: string)

  const DefaultSettings: Settings := Settings("", "", 0, 0, "")

  datatype Session = Session(
    inProgress: bool,      // isAuthInProgress
    failTimes: int,        // authFailTimes
    shownError: string,    // the text of the error line
    tint: Option<int>,     // the colour filter on the icon, if one was set
    settings: Settings,
    effects: seq<Effect>)

  /**
   * The fields' declared initial values: nothing shown, nothing sent. Sessions have no
   * handler field: they assume one is attached, and Dialog.FingerprintDialog.OnKey is
   * where the dialog checks for a missing handler.
   */
  function Fresh(): (r: Session)
    ensures Inv(r)
    ensures Outcomes(r.effects) == [] && LastCommand(r.effects) == None
  {
    Session(false, 0, "", None, DefaultSettings, [])
  }

  /** The callbacks the dialog reacts to. */
  datatype Event =
    | Resumed                                   // onResume
    | Paused                                    // onPause
    | Matched                                   // onAuthenticated
    | PlatformError(message: string, code: int) // onError
    | NoMatch(code: int)                        // onAuthFailed
    | CancelClicked                             // the cancel button
    | KeyPressed(keyCode: int)                  // the dialog's key listener
    | Configured(config: Option<ReadableMap>)   // setAuthConfig (None is a null map)

  // ---------------------------------------------------------------------------
  // Configuration
  // ---------------------------------------------------------------------------

  /** The settings setAuthConfig may overwrite. */
  datatype Key = Title | CancelText | ImageColor | ImageErrorColor | AuthFailDescription

  /** The map key under which each setting is looked up. */
  function Name(k: Key): string {
    match k
    case Title => "title"
    case CancelText => "cancelText"
    case ImageColor => "imageColor"
    case ImageErrorColor => "imageErrorColor"
    case AuthFailDescription => "authFailDescription"
  }

  /** The position of each key in the order setAuthConfig reads them. */
  function Rank(k: Key): nat {
    match k
    case Title => 0
    case CancelText => 1
    case ImageColor => 2
    case ImageErrorColor => 3
    case AuthFailDescription => 4
  }

  const KeyCount: nat := 5

  /** Whether the getter used for `k` (getString or getInt) accepts `v` without throwing. */
  predicate Fits(k: Key, v: Value) {
    if k.ImageColor? || k.ImageErrorColor? then v.Number? else v.Text?
  }

  /** The current value of the setting `k`, as a map value. */
  function Field(st: Settings, k: Key): Value {
    match k
    case Title => Text(st.title)
    case CancelText => Text(st.cancelText)
    case ImageColor => Number(st.imageColor)
    case ImageErrorColor => Number(st.imageErrorColor)
    case AuthFailDescription => Text(st.authFailDescription)
  }

  /** The settings after the fitting value `v` has been written to the field of `k`. */
  function Assign(st: Settings, k: Key, v: Value): (r: Settings)
    requires Fits(k, v)
    ensures forall k' :: Field(r, k') == if k' == k then v else Field(st, k')
  {
    match k
    case Title => st.(title := v.text)
    case CancelText => st.(cancelText := v.text)
    case ImageColor => st.(imageColor := v.number)
    case ImageErrorColor => st.(imageErrorColor := v.number)
    case AuthFailDescription => st.(authFailDescription := v.text)
  }

  /** What setAuthConfig leaves behind: the settings, and the key whose getter threw, if any. */
  datatype ConfigUpdate = ConfigUpdate(settings: Settings, thrownAt: Option<Key>)

  /** One `if (config.hasKey(key)) field = config.getX(key);` step; nothing runs after a throw. */
  function ReadKey(u: ConfigUpdate, m: ReadableMap, k: Key): (r: ConfigUpdate)
    ensures u.thrownAt.Some? ==> r == u
    ensures u.thrownAt.None? ==>
      r.thrownAt == (if Name(k) in m && !Fits(k, m[Name(k)]) then Some(k) else None)
    ensures r.thrownAt.None? ==>
      forall k' :: Field(r.settings, k') ==
        if k' == k && Name(k) in m then m[Name(k)] else Field(u.settings, k')
    ensures r.settings == u.settings || (Name(k) in m && Fits(k, m[Name(k)]))
  {
    if u.thrownAt.Some? || Name(k) !in m then u
    else if Fits(k, m[Name(k)]) then ConfigUpdate(Assign(u.settings, k, m[Name(k)]), None)
    else u.(thrownAt := Some(k))
  }

  /** The value of setting `k` once the first `n` keys of `m` have been written over `st`. */
  function Wanted(st: Settings, m: ReadableMap, k: Key, n: nat): Value {
    if Rank(k) < n && Name(k) in m then m[Name(k)] else Field(st, k)
  }

  /** Every key among the first `n` that `m` holds has a value of the right kind. */
  predicate FitsBefore(m: ReadableMap, n: nat) {
    forall k | Rank(k) < n && Name(k) in m :: Fits(k, m[Name(k)])
  }

  /** Once a getter has thrown, the remaining reads change nothing. */
  lemma ThrownStaysThrown(u: ConfigUpdate, m: ReadableMap)
    requires u.thrownAt.Some?
    ensures ReadKey(ReadKey(ReadKey(ReadKey(u, m, CancelText), m, ImageColor), m, ImageErrorColor), m, AuthFailDescription) == u
    ensures ReadKey(ReadKey(ReadKey(u, m, ImageColor), m, ImageErrorColor), m, AuthFailDescription) == u
    ensures ReadKey(ReadKey(u, m, ImageErrorColor), m, AuthFailDescription) == u
    ensures ReadKey(u, m, AuthFailDescription) == u
  {
  }

  /** `u` is what reading the first `n` keys of `m` over `st` leaves behind. */
  predicate ReadUpTo(st: Settings, m: ReadableMap, u: ConfigUpdate, n: nat) {
    match u.thrownAt
    case None =>
      && FitsBefore(m, n)
      && forall k :: Field(u.settings, k) == Wanted(st, m, k, n)
    case Some(bad) =>
      && Rank(bad) < n
      && Name(bad) in m && !Fits(bad, m[Name(bad)])
      && FitsBefore(m, Rank(bad))
      && forall k :: Field(u.settings, k) == Wanted(st, m, k, Rank(bad))
  }

  /** Reading the next key in order extends what the earlier reads established. */
  lemma ReadKeyStep(st: Settings, m: ReadableMap, u: ConfigUpdate, k: Key)
    requires ReadUpTo(st, m, u, Rank(k))
    ensures ReadUpTo(st, m, ReadKey(u, m, k), Rank(k) + 1)
  {
  }

  /**
   * setAuthConfig: a null map changes nothing; otherwise every key that is present
   * overwrites its own setting and an absent key keeps the setting's value. A present
   * key of the wrong kind makes its getter throw: the keys read before it stay written,
   * the rest are not read.
   */
  function ApplyAuthConfig(st: Settings, config: Option<ReadableMap>): (r: ConfigUpdate)
    ensures config.None? ==> r == ConfigUpdate(st, None)
    ensures config.Some? ==>
      (r.thrownAt.None? <==> forall k | Name(k) in config.value :: Fits(k, config.value[Name(k)]))
    ensures config.Some? && r.thrownAt.None? ==>
      forall k :: Field(r.settings, k) == if Name(k) in config.value then config.value[Name(k)] else Field(st, k)
    ensures r.thrownAt.Some? ==>
      && config.Some?
      && Name(r.thrownAt.value) in config.value
      && !Fits(r.thrownAt.value, config.value[Name(r.thrownAt.value)])
      && FitsBefore(config.value, Rank(r.thrownAt.value))
      && forall k :: Field(r.settings, k) == Wanted(st, config.value, k, Rank(r.thrownAt.value))
  {
    match config
    case None => ConfigUpdate(st, None)
    case Some(m) =>
      var u0 := ConfigUpdate(st, None);
      var u1 := ReadKey(u0, m, Title);
      var u2 := ReadKey(u1, m, CancelText);
      var u3 := ReadKey(u2, m, ImageColor);
      var u4 := ReadKey(u3, m, ImageErrorColor);
      var u5 := ReadKey(u4, m, AuthFailDescription);
      ReadKeyStep(st, m, u0, Title);
      ReadKeyStep(st, m, u1, CancelText);
      ReadKeyStep(st, m, u2, ImageColor);
      ReadKeyStep(st, m, u3, ImageErrorColor);
      ReadKeyStep(st, m, u4, AuthFailDescription);
      assert forall k :: Rank(k) < KeyCount;
      u5
  }

  // ---------------------------------------------------------------------------
  // The handlers
  // ---------------------------------------------------------------------------

  /** onCancelled, reached from the cancel button and from the back key. */
  function Cancel(s: Session): (r: Session)
    ensures !r.inProgress && r.failTimes == 0
    ensures Outcomes(r.effects) == Outcomes(s.effects) + [Cancelled]
    ensures LastCommand(r.effects) == Some(EndAuth)
    ensures Paired(s.effects) ==> Paired(r.effects)
    ensures r.(inProgress := s.inProgress, failTimes := s.failTimes, effects := s.effects) == s
  {
    var tail := [Handler(EndAuth), Listener(Cancelled), Dismiss];
    CancelSuffix();
    OutcomesConcat(s.effects, tail);
    LastCommandConcat(s.effects, tail);
    assert Paired(s.effects) ==> Paired(s.effects + tail) by {
      if Paired(s.effects) { PairedConcat(s.effects, tail); }
    }
    s.(inProgress := false, failTimes := 0, effects := s.effects + tail)
  }

  /**
   * The effect of one callback on the session: it only appends to the trace, and only
   * setAuthConfig touches the settings.
   */
  function Step(s: Session, e: Event): (r: Session)
    ensures s.effects <= r.effects && |r.effects| <= |s.effects| + 3
    ensures !e.Configured? ==> r.settings == s.settings
    ensures e.Configured? ==> r == s.(settings := r.settings)
  {
    match e
    case Resumed =>
      if s.inProgress then s
      else s.(inProgress := true, effects := s.effects + [Handler(StartAuth)])
    case Paused =>
      if s.inProgress then s.(inProgress := false, effects := s.effects + [Handler(EndAuth)])
      else s
    case Matched =>
      s.(inProgress := false, failTimes := 0,
         effects := s.effects + [Listener(Authenticated), Dismiss])
    case PlatformError(message, code) =>
      s.(shownError := message, tint := Some(s.settings.imageErrorColor), failTimes := 0,
         effects := s.effects + [Listener(Error(message, code)), Dismiss])
    case NoMatch(code) =>
      var shown := s.(shownError := s.settings.authFailDescription, tint := Some(s.settings.imageErrorColor));
      if s.failTimes < ABSORBED_FAILURES then
        shown.(failTimes := s.failTimes + 1, effects := s.effects + [Shake])
      else
        shown.(failTimes := 0, effects := s.effects + [Listener(AuthFailed(code)), Dismiss])
    case CancelClicked =>
      Cancel(s)
    case KeyPressed(keyCode) =>
      if keyCode != KEYCODE_BACK then s else Cancel(s)
    case Configured(config) =>
      s.(settings := ApplyAuthConfig(s.settings, config).settings)
  }

  /** The session after the callbacks `es`, delivered one after another. */
  function Run(s: Session, es: seq<Event>): (r: Session)
    ensures s.effects <= r.effects
    ensures |r.effects| <= |s.effects| + 3 * |es|
    decreases |es|
  {
    if es == [] then s else Run(Step(s, es[0]), es[1..])
  }

  // ---------------------------------------------------------------------------
  // Views of the effect trace
  // ---------------------------------------------------------------------------

  /** The listener calls in a trace, in order. */
  function Outcomes(t: seq<Effect>): seq<Outcome> {
    if t == [] then []
    else (if t[0].Listener? then [t[0].outcome] else []) + Outcomes(t[1..])
  }

  /** How many times the dialog dismissed itself. */
  function DismissCount(t: seq<Effect>): nat {
    if t == [] then 0
    else (if t[0] == Dismiss then 1 else 0) + DismissCount(t[1..])
  }

  /** The last command sent to the fingerprint handler, if any. */
  function LastCommand(t: seq<Effect>): Option<Command>
    decreases |t|
  {
    if t == [] then None
    else if t[|t| - 1].Handler? then Some(t[|t| - 1].command)
    else LastCommand(t[..|t| - 1])
  }

  /** Every listener call is followed at once by a dismissal, and every dismissal follows one. */
  predicate Paired(t: seq<Effect>) {
    && (forall i | 0 <= i < |t| && t[i].Listener? :: i + 1 < |t| && t[i + 1] == Dismiss)
    && (forall i | 0 <= i < |t| && t[i] == Dismiss :: 0 < i && t[i - 1].Listener?)
  }

  /** What every reachable session satisfies. */
  predicate Inv(s: Session) {
    && 0 <= s.failTimes <= ABSORBED_FAILURES
    && (s.inProgress ==> LastCommand(s.effects) == Some(StartAuth))
    && Paired(s.effects)
  }

  // ---------------------------------------------------------------------------
  // Lemmas about the trace views
  // ---------------------------------------------------------------------------

  lemma {:induction false} OutcomesConcat(a: seq<Effect>, b: seq<Effect>)
    ensures Outcomes(a + b) == Outcomes(a) + Outcomes(b)
    decreases |a|
  {
    if a == [] {
      assert a + b == b;
    } else {
      assert (a + b)[0] == a[0];
      assert (a + b)[1..] == a[1..] + b;
      OutcomesConcat(a[1..], b);
    }
  }

  lemma {:induction false} LastCommandConcat(a: seq<Effect>, b: seq<Effect>)
    ensures LastCommand(a + b) == if LastCommand(b).Some? then LastCommand(b) else LastCommand(a)
    decreases |b|
  {
    if b == [] {
      assert a + b == a;
    } else {
      assert (a + b)[..|a + b| - 1] == a + b[..|b| - 1];
      LastCommandConcat(a, b[..|b| - 1]);
    }
  }

  /** Appending a paired trace to a paired trace keeps it paired. */
  lemma PairedConcat(a: seq<Effect>, b: seq<Effect>)
    requires Paired(a) && Paired(b)
    ensures Paired(a + b)
  {
  }

  /** In a paired trace the listener is called exactly as often as the dialog is dismissed. */
  lemma {:induction false} PairedBalances(t: seq<Effect>)
    requires Paired(t)
    ensures |Outcomes(t)| == DismissCount(t)
    decreases |t|
  {
    if t != [] {
      assert t[0] != Dismiss;
      if t[0].Listener? {
        var rest := t[2..];
        assert t[1] == Dismiss;
        assert t[1..][1..] == rest;
        forall i | 0 <= i < |rest| && rest[i] == Dismiss
          ensures 0 < i && rest[i - 1].Listener?
        {
          assert t[i + 2] == Dismiss;
        }
        assert Paired(rest);
        PairedBalances(rest);
      } else {
        var rest := t[1..];
        forall i | 0 <= i < |rest| && rest[i] == Dismiss
          ensures 0 < i && rest[i - 1].Listener?
        {
          assert t[i + 1] == Dismiss;
        }
        assert Paired(rest);
        PairedBalances(rest);
      }
    }
  }

  // ---------------------------------------------------------------------------
  // Lemmas about Step and Run
  // ---------------------------------------------------------------------------

  /** The trace a terminal handler appends: an optional command, one listener call, a dismissal. */
  lemma TerminalSuffix(c: seq<Effect>, o: Outcome)
    requires c == [] || c == [Handler(EndAuth)]
    ensures Paired(c + [Listener(o), Dismiss])
    ensures LastCommand(c + [Listener(o), Dismiss]) == LastCommand(c)
    ensures Outcomes(c + [Listener(o), Dismiss]) == [o]
  {
    var t := c + [Listener(o), Dismiss];
    assert t[..|t| - 1] == c + [Listener(o)];
    assert t[..|t| - 1][..|t| - 2] == c;
    if c != [] {
      assert t[1..] == [Listener(o), Dismiss];
      assert t[1..][1..] == [Dismiss];
    }
    assert [Listener(o), Dismiss][1..] == [Dismiss];
    assert [Dismiss][1..] == [];
    assert Outcomes([Listener(o), Dismiss]) == [o];
    OutcomesConcat(c, [Listener(o), Dismiss]);
    if c != [] {
      assert c[1..] == [];
    }
  }

  /** A trace of one command or one shake. */
  lemma SingleSuffix(x: Effect)
    requires x.Handler? || x == Shake
    ensures Paired([x])
    ensures LastCommand([x]) == if x.Handler? then Some(x.command) else None
    ensures Outcomes([x]) == []
  {
  }

  /** The suffix onCancelled appends: paired, one Cancelled outcome, ending on endAuth. */
  lemma CancelSuffix()
    ensures Paired([Handler(EndAuth), Listener(Cancelled), Dismiss])
    ensures Outcomes([Handler(EndAuth), Listener(Cancelled), Dismiss]) == [Cancelled]
    ensures LastCommand([Handler(EndAuth), Listener(Cancelled), Dismiss]) == Some(EndAuth)
  {
    var tail := [Handler(EndAuth), Listener(Cancelled), Dismiss];
    TerminalSuffix([Handler(EndAuth)], Cancelled);
    SingleSuffix(Handler(EndAuth));
    assert [Handler(EndAuth)] + [Listener(Cancelled), Dismiss] == tail;
  }

  /** What a callback appends to the trace, and that the counter stays within bounds. */
  lemma StepSuffix(s: Session, e: Event) returns (delta: seq<Effect>)
    ensures Step(s, e).effects == s.effects + delta
    ensures Paired(delta) && |Outcomes(delta)| <= 1
    ensures LastCommand(delta).Some? ==> Step(s, e).inProgress == (LastCommand(delta) == Some(StartAuth))
    ensures LastCommand(delta).None? ==> (Step(s, e).inProgress ==> s.inProgress)
    ensures 0 <= s.failTimes <= ABSORBED_FAILURES ==> 0 <= Step(s, e).failTimes <= ABSORBED_FAILURES
  {
    match e {
      case Resumed =>
        if !s.inProgress { delta := [Handler(StartAuth)]; SingleSuffix(Handler(StartAuth)); }
        else { delta := []; }
      case Paused =>
        if s.inProgress { delta := [Handler(EndAuth)]; SingleSuffix(Handler(EndAuth)); }
        else { delta := []; }
      case Matched =>
        delta := [Listener(Authenticated), Dismiss];
        TerminalSuffix([], Authenticated);
        assert [] + delta == delta;
      case PlatformError(message, code) =>
        delta := [Listener(Error(message, code)), Dismiss];
        TerminalSuffix([], Error(message, code));
        assert [] + delta == delta;
      case NoMatch(code) =>
        if s.failTimes < ABSORBED_FAILURES {
          delta := [Shake];
          SingleSuffix(Shake);
        } else {
          delta := [Listener(AuthFailed(code)), Dismiss];
          TerminalSuffix([], AuthFailed(code));
          assert [] + delta == delta;
        }
      case CancelClicked =>
        delta := [Handler(EndAuth), Listener(Cancelled), Dismiss];
        CancelSuffix();
      case KeyPressed(keyCode) =>
        if keyCode == KEYCODE_BACK {
          delta := [Handler(EndAuth), Listener(Cancelled), Dismiss];
          CancelSuffix();
        } else {
          delta := [];
        }
      case Configured(config) =>
        delta := [];
    }
  }

  /** setAuthConfig touches the settings only, so it keeps the invariant. */
  lemma ConfiguredStep(s: Session, config: Option<ReadableMap>)
    requires Inv(s)
    ensures Step(s, Configured(config)) == s.(settings := ApplyAuthConfig(s.settings, config).settings)
    ensures Inv(Step(s, Configured(config)))
  {
  }

  /**
   * Every callback keeps the counter within 0..2, leaves the sensor armed whenever
   * the flag says a scan is in progress, and only ever calls the listener right
   * before a dismissal.
   */
  lemma StepPreservesInv(s: Session, e: Event)
    requires Inv(s)
    ensures Inv(Step(s, e))
  {
    var delta := StepSuffix(s, e);
    PairedConcat(s.effects, delta);
    LastCommandConcat(s.effects, delta);
  }

  /** A callback only appends to the trace, and calls the listener at most once. */
  lemma StepAppendsAtMostOneOutcome(s: Session, e: Event)
    ensures s.effects <= Step(s, e).effects
    ensures |Outcomes(Step(s, e).effects)| <= |Outcomes(s.effects)| + 1
  {
    var delta := StepSuffix(s, e);
    OutcomesConcat(s.effects, delta);
  }

  lemma {:induction false} RunConcat(s: Session, a: seq<Event>, b: seq<Event>)
    ensures Run(s, a + b) == Run(Run(s, a), b)
    decreases |a|
  {
    if a == [] {
      assert a + b == b;
    } else {
      assert (a + b)[0] == a[0];
      assert (a + b)[1..] == a[1..] + b;
      RunConcat(Step(s, a[0]), a[1..], b);
    }
  }

  lemma {:induction false} RunPreservesInv(s: Session, es: seq<Event>)
    requires Inv(s)
    ensures Inv(Run(s, es))
    decreases |es|
  {
    if es != [] {
      StepPreservesInv(s, es[0]);
      RunPreservesInv(Step(s, es[0]), es[1..]);
    }
  }

  /** Over any run the trace only grows, and at most one outcome is reported per callback. */
  lemma {:induction false} RunAppends(s: Session, es: seq<Event>)
    ensures s.effects <= Run(s, es).effects
    ensures |Outcomes(Run(s, es).effects)| <= |Outcomes(s.effects)| + |es|
    decreases |es|
  {
    if es != [] {
      StepAppendsAtMostOneOutcome(s, es[0]);
      RunAppends(Step(s, es[0]), es[1..]);
    }
  }

  /**
   * From a fresh dialog, whatever callbacks arrive, the counter stays within 0..2 and
   * the listener has been called exactly as many times as the dialog dismissed itself.
   */
  lemma RunFromFresh(es: seq<Event>)
    ensures 0 <= Run(Fresh(), es).failTimes <= ABSORBED_FAILURES
    ensures |Outcomes(Run(Fresh(), es).effects)| == DismissCount(Run(Fresh(), es).effects)
  {
    RunPreservesInv(Fresh(), es);
    PairedBalances(Run(Fresh(), es).effects);
  }

  predicate AllNoMatch(es: seq<Event>) {
    forall i | 0 <= i < |es| :: es[i].NoMatch?
  }

  /** A counter at 2 that takes one more failure wraps to 0 and reports once. */
  lemma WrapAround(n: nat)
    ensures (2 + (n + 1)) % 3 == n % 3 && (2 + (n + 1)) / 3 == n / 3 + 1
  {
    assert 2 + (n + 1) == n + 3;
  }

  /**
   * Consecutive failed matches: the counter cycles 0, 1, 2, 0, … and every third one
   * reaches the listener as AuthFailed; the scan flag is never touched.
   */
  lemma {:induction false} FailuresReportEveryThird(s: Session, es: seq<Event>)
    requires 0 <= s.failTimes <= ABSORBED_FAILURES
    requires AllNoMatch(es)
    ensures Run(s, es).failTimes == (s.failTimes + |es|) % 3
    ensures |Outcomes(Run(s, es).effects)| == |Outcomes(s.effects)| + (s.failTimes + |es|) / 3
    ensures Run(s, es).inProgress == s.inProgress
    ensures Run(s, es).settings == s.settings
    decreases |es|
  {
    if es != [] {
      var s1 := Step(s, es[0]);
      assert Run(s, es) == Run(s1, es[1..]);
      assert AllNoMatch(es[1..]) by {
        forall i | 0 <= i < |es[1..]| ensures es[1..][i].NoMatch? {
          assert es[1..][i] == es[i + 1];
        }
      }
      FailuresReportEveryThird(s1, es[1..]);
      if s.failTimes < ABSORBED_FAILURES {
        assert s1.failTimes == s.failTimes + 1;
        SingleSuffix(Shake);
        OutcomesConcat(s.effects, [Shake]);
      } else {
        var tail := [Listener(AuthFailed(es[0].code)), Dismiss];
        assert s1.failTimes == 0 && s1.effects == s.effects + tail;
        TerminalSuffix([], AuthFailed(es[0].code));
        assert [] + tail == tail;
        OutcomesConcat(s.effects, tail);
        WrapAround(|es| - 1);
      }
    }
  }

  /** The first two consecutive failures are absorbed: each only shows the failure text and shakes. */
  lemma FirstTwoFailuresAbsorbed(s: Session, c1: int, c2: int)
    requires s.failTimes == 0
    ensures Run(s, [NoMatch(c1), NoMatch(c2)]) ==
      s.(failTimes := 2, shownError := s.settings.authFailDescription,
         tint := Some(s.settings.imageErrorColor), effects := s.effects + [Shake, Shake])
  {
    var s1 := Step(s, NoMatch(c1));
    assert [NoMatch(c1), NoMatch(c2)][1..] == [NoMatch(c2)];
    assert Run(s1, [NoMatch(c2)]) == Run(Step(s1, NoMatch(c2)), []);
    assert s.effects + [Shake] + [Shake] == s.effects + [Shake, Shake];
  }

  /**
   * The third consecutive failure is the first one reported: it resets the counter,
   * reports AuthFailed with its own code and dismisses, and leaves the scan flag as it was.
   */
  lemma ThirdFailureReported(s: Session, c1: int, c2: int, c3: int)
    requires s.failTimes == 0
    ensures Run(s, [NoMatch(c1), NoMatch(c2), NoMatch(c3)]) ==
      s.(failTimes := 0, shownError := s.settings.authFailDescription,
         tint := Some(s.settings.imageErrorColor),
         effects := s.effects + [Shake, Shake, Listener(AuthFailed(c3)), Dismiss])
  {
    RunConcat(s, [NoMatch(c1), NoMatch(c2)], [NoMatch(c3)]);
    assert [NoMatch(c1), NoMatch(c2)] + [NoMatch(c3)] == [NoMatch(c1), NoMatch(c2), NoMatch(c3)];
    FirstTwoFailuresAbsorbed(s, c1, c2);
    var s2 := Run(s, [NoMatch(c1), NoMatch(c2)]);
    assert Run(s2, [NoMatch(c3)]) == Run(Step(s2, NoMatch(c3)), []);
    assert s.effects + [Shake, Shake] + [Listener(AuthFailed(c3)), Dismiss]
      == s.effects + [Shake, Shake, Listener(AuthFailed(c3)), Dismiss];
  }

  /** A match reports Authenticated and dismisses, whatever the failure count; no endAuth is sent. */
  lemma MatchReportsAuthenticated(s: Session)
    ensures Step(s, Matched) ==
      s.(inProgress := false, failTimes := 0, effects := s.effects + [Listener(Authenticated), Dismiss])
    ensures Outcomes(Step(s, Matched).effects) == Outcomes(s.effects) + [Authenticated]
  {
    OutcomesConcat(s.effects, [Listener(Authenticated), Dismiss]);
  }

  /**
   * A platform error is shown and forwarded unchanged, then the dialog dismisses;
   * the scan flag is left as it was and no endAuth is sent.
   */
  lemma ErrorForwardedVerbatim(s: Session, message: string, code: int)
    ensures Step(s, PlatformError(message, code)).inProgress == s.inProgress
    ensures Step(s, PlatformError(message, code)).failTimes == 0
    ensures Step(s, PlatformError(message, code)).shownError == message
    ensures Outcomes(Step(s, PlatformError(message, code)).effects) == Outcomes(s.effects) + [Error(message, code)]
    ensures LastCommand(Step(s, PlatformError(message, code)).effects) == LastCommand(s.effects)
  {
    TerminalSuffix([], Error(message, code));
    assert [] + [Listener(Error(message, code)), Dismiss] == [Listener(Error(message, code)), Dismiss];
    OutcomesConcat(s.effects, [Listener(Error(message, code)), Dismiss]);
    LastCommandConcat(s.effects, [Listener(Error(message, code)), Dismiss]);
  }

  /**
   * Cancelling a reachable dialog stops the scan, reports Cancelled once and dismisses
   * once. The handler is left stopped, so a later onPause sends no second endAuth and a
   * later onResume starts a new scan.
   */
  lemma CancelStopsThenReports(s: Session)
    requires Inv(s)
    ensures Inv(Step(s, CancelClicked))
    ensures Outcomes(Step(s, CancelClicked).effects) == Outcomes(s.effects) + [Cancelled]
    ensures DismissCount(Step(s, CancelClicked).effects) == DismissCount(s.effects) + 1
    ensures Run(s, [CancelClicked, Paused]) == Step(s, CancelClicked)
    ensures Run(s, [CancelClicked, Resumed]).effects == Step(s, CancelClicked).effects + [Handler(StartAuth)]
  {
    var r := Step(s, CancelClicked);
    StepPreservesInv(s, CancelClicked);
    PairedBalances(s.effects);
    PairedBalances(r.effects);
    assert [CancelClicked, Paused][1..] == [Paused];
    assert Run(r, [Paused]) == Run(Step(r, Paused), []);
    assert [CancelClicked, Resumed][1..] == [Resumed];
    assert Run(r, [Resumed]) == Run(Step(r, Resumed), []);
  }

  /**
   * The key listener on a reachable dialog: the back key cancels, keeping the invariant,
   * reporting Cancelled once, dismissing once and leaving the handler stopped.
   */
  lemma KeyDecision(s: Session, keyCode: int)
    requires Inv(s)
    ensures Inv(Step(s, KeyPressed(keyCode)))
    ensures keyCode == KEYCODE_BACK ==>
      var r := Step(s, KeyPressed(keyCode));
      && Outcomes(r.effects) == Outcomes(s.effects) + [Cancelled]
      && DismissCount(r.effects) == DismissCount(s.effects) + 1
      && !r.inProgress && LastCommand(r.effects) == Some(EndAuth)
  {
    StepPreservesInv(s, KeyPressed(keyCode));
    if keyCode == KEYCODE_BACK {
      CancelStopsThenReports(s);
    }
  }

  predicate OtherKeys(es: seq<Event>) {
    forall i | 0 <= i < |es| :: es[i].KeyPressed? && es[i].keyCode != KEYCODE_BACK
  }

  /** Any run of keys other than back leaves the dialog exactly as it was. */
  lemma {:induction false} OtherKeysIgnored(s: Session, es: seq<Event>)
    requires OtherKeys(es)
    ensures Run(s, es) == s
    decreases |es|
  {
    if es != [] {
      assert Step(s, es[0]) == s;
      assert OtherKeys(es[1..]) by {
        forall i | 0 <= i < |es[1..]| ensures es[1..][i].KeyPressed? && es[1..][i].keyCode != KEYCODE_BACK {
          assert es[1..][i] == es[i + 1];
        }
      }
      OtherKeysIgnored(s, es[1..]);
    }
  }

  /** onResume twice is onResume once; so is onPause. */
  lemma ResumePauseIdempotent(s: Session)
    ensures Step(Step(s, Resumed), Resumed) == Step(s, Resumed)
    ensures Step(Step(s, Paused), Paused) == Step(s, Paused)
  {
  }

  /** Resuming an idle dialog and pausing it again restores it, having started and ended one scan. */
  lemma ResumeThenPause(s: Session)
    requires !s.inProgress
    ensures Run(s, [Resumed, Paused]) ==
      s.(effects := s.effects + [Handler(StartAuth), Handler(EndAuth)])
  {
  }

  /**
   * No handler checks whether the dialog was already dismissed: a second match
   * after the first reports Authenticated a second time.
   */
  lemma NoGuardAfterDismiss(s: Session)
    ensures Outcomes(Run(s, [Matched, Matched]).effects) ==
      Outcomes(s.effects) + [Authenticated, Authenticated]
  {
    var s1 := Step(s, Matched);
    MatchReportsAuthenticated(s);
    MatchReportsAuthenticated(s1);
  }

  /**
   * onAuthenticated clears the flag without sending endAuth, so a later onResume
   * starts a second scan with no endAuth in between.
   */
  lemma RestartWithoutEndAuth(s: Session)
    requires !s.inProgress
    ensures Run(s, [Resumed, Matched, Resumed]).effects ==
      s.effects + [Handler(StartAuth), Listener(Authenticated), Dismiss, Handler(StartAuth)]
    ensures Run(s, [Resumed, Matched, Resumed]).inProgress
  {
    var es := [Resumed, Matched, Resumed];
    assert es[1..] == [Matched, Resumed];
    assert es[1..][1..] == [Resumed];
    var s2 := Step(Step(s, Resumed), Matched);
    assert Run(s2, [Resumed]) == Run(Step(s2, Resumed), []);
  }

  /**
   * onError leaves the flag set, so a later onResume starts nothing and a later
   * onPause is what sends endAuth.
   */
  lemma ErrorLeavesScanToPause(message: string, code: int)
    ensures Run(Fresh(), [Resumed, PlatformError(message, code), Resumed, Paused]).effects ==
      [Handler(StartAuth), Listener(Error(message, code)), Dismiss, Handler(EndAuth)]
  {
    var es := [Resumed, PlatformError(message, code), Resumed, Paused];
    var s1 := Step(Fresh(), Resumed);
    var s2 := Step(s1, PlatformError(message, code));
    assert s2.inProgress;
    assert es[1..] == [PlatformError(message, code), Resumed, Paused];
    assert es[1..][1..] == [Resumed, Paused];
    assert es[1..][1..][1..] == [Paused];
    assert Run(Fresh(), es) == Run(s2, [Resumed, Paused]);
    assert Run(s2, [Resumed, Paused]) == Run(s2, [Paused]);
  }
}
