/**
 * The fingerprint dialog as an object: its fields are updated in place by the
 * lifecycle and sensor callbacks, exactly as the session values of AuthSession
 * describe. The ghost `effects` field records, in order, every command sent to the
 * fingerprint handler, every call of the result listener, every shake cue and every
 * dismissal.
 */
module Dialog {
  import opened AuthSession

  class FingerprintDialog {
    var handlerAttached: bool        // whether the fingerprint handler has been created
    var isAuthInProgress: bool
    var authFailTimes: int
    var shownError: string           // the text of the error line
    var imageTint: Option<int>       // the colour filter on the fingerprint icon
    var dialogTitle: string
    var cancelText: string
    var imageColor: int
    var imageErrorColor: int
    var authFailDescription: string
    ghost var effects: seq<Effect>

    /** The settings that setAuthConfig writes. */
    function Config(): Settings
      reads this
    {
      Settings(dialogTitle, cancelText, imageColor, imageErrorColor, authFailDescription)
    }

    /** The dialog's state as a session value. */
    ghost function State(): Session
      reads this
    {
      Session(isAuthInProgress, authFailTimes, shownError, imageTint, Config(), effects)
    }

    ghost predicate Valid()
      reads this
    {
      Inv(State())
    }

    /** A new dialog: every field at its declared initial value, no handler yet. */
    constructor ()
      ensures Valid() && !handlerAttached
      ensures State() == Fresh()
    {
      handlerAttached := false;
      isAuthInProgress := false;
      authFailTimes := 0;
      shownError := "";
      imageTint := None;
      dialogTitle := "";
      cancelText := "";
      imageColor := 0;
      imageErrorColor := 0;
      authFailDescription := "";
      effects := [];
    }

    /** onAttach creates the fingerprint handler; nothing else changes. */
    method OnAttach()
      modifies this
      ensures handlerAttached
      ensures State() == old(State())
    {
      handlerAttached := true;
    }

    /** onResume: starts a scan unless one is already in progress. */
    method OnResume()
      requires Valid() && handlerAttached
      modifies this
      ensures Valid() && handlerAttached
      ensures State() == Step(old(State()), Resumed)
      ensures old(isAuthInProgress) ==> State() == old(State())
      ensures !old(isAuthInProgress) ==>
        isAuthInProgress && effects == old(effects) + [Handler(StartAuth)]
    {
      ghost var before := State();
      if isAuthInProgress {
        return;
      }
      isAuthInProgress := true;
      effects := effects + [Handler(StartAuth)];
      StepPreservesInv(before, Resumed);
    }

    /** onPause: ends the scan if one is in progress, and otherwise changes nothing. */
    method OnPause()
      requires Valid() && (isAuthInProgress ==> handlerAttached)
      modifies this
      ensures Valid() && handlerAttached == old(handlerAttached)
      ensures State() == Step(old(State()), Paused)
      ensures !isAuthInProgress
      ensures old(isAuthInProgress) ==> effects == old(effects) + [Handler(EndAuth)]
      ensures !old(isAuthInProgress) ==> State() == old(State())
    {
      ghost var before := State();
      if isAuthInProgress {
        effects := effects + [Handler(EndAuth)];
        isAuthInProgress := false;
      }
      StepPreservesInv(before, Paused);
    }

    /**
     * onAuthenticated: clears the flag and the counter, reports success and dismisses,
     * without telling the handler to end the scan.
     */
    method OnAuthenticated()
      requires Valid()
      modifies this
      ensures Valid() && handlerAttached == old(handlerAttached)
      ensures State() == Step(old(State()), Matched)
      ensures !isAuthInProgress && authFailTimes == 0
      ensures effects == old(effects) + [Listener(Authenticated), Dismiss]
      ensures shownError == old(shownError) && imageTint == old(imageTint) && Config() == old(Config())
    {
      ghost var before := State();
      isAuthInProgress := false;
      authFailTimes := 0;
      effects := effects + [Listener(Authenticated), Dismiss];
      StepPreservesInv(before, Matched);
    }

    /**
     * onError: shows the message in the error colour, resets the counter, forwards
     * message and code to the listener and dismisses; the scan flag is left alone.
     */
    method OnError(errorString: string, errorCode: int)
      requires Valid()
      modifies this
      ensures Valid() && handlerAttached == old(handlerAttached)
      ensures State() == Step(old(State()), PlatformError(errorString, errorCode))
      ensures shownError == errorString && imageTint == Some(imageErrorColor)
      ensures authFailTimes == 0 && isAuthInProgress == old(isAuthInProgress)
      ensures effects == old(effects) + [Listener(Error(errorString, errorCode)), Dismiss]
      ensures Config() == old(Config())
    {
      ghost var before := State();
      shownError := errorString;
      imageTint := Some(imageErrorColor);
      authFailTimes := 0;
      effects := effects + [Listener(Error(errorString, errorCode)), Dismiss];
      StepPreservesInv(before, PlatformError(errorString, errorCode));
    }

    /**
     * onAuthFailed: shows the failure text in the error colour; below two absorbed
     * failures it counts this one and shakes, otherwise it resets the counter,
     * reports AuthFailed with the same code and dismisses. The scan is not re-armed.
     */
    method OnAuthFailed(errorCode: int)
      requires Valid()
      modifies this
      ensures Valid() && handlerAttached == old(handlerAttached)
      ensures State() == Step(old(State()), NoMatch(errorCode))
      ensures shownError == authFailDescription && imageTint == Some(imageErrorColor)
      ensures isAuthInProgress == old(isAuthInProgress) && Config() == old(Config())
      ensures old(authFailTimes) < ABSORBED_FAILURES ==>
        authFailTimes == old(authFailTimes) + 1 && effects == old(effects) + [Shake]
      ensures old(authFailTimes) >= ABSORBED_FAILURES ==>
        authFailTimes == 0 && effects == old(effects) + [Listener(AuthFailed(errorCode)), Dismiss]
    {
      ghost var before := State();
      shownError := authFailDescription;
      imageTint := Some(imageErrorColor);
      if authFailTimes < 2 {
        authFailTimes := authFailTimes + 1;
        effects := effects + [Shake];
      } else {
        authFailTimes := 0;
        effects := effects + [Listener(AuthFailed(errorCode)), Dismiss];
      }
      StepPreservesInv(before, NoMatch(errorCode));
    }

    /**
     * onCancelled: clears the flag and the counter, tells the handler to end the scan,
     * then reports Cancelled and dismisses.
     */
    method OnCancelled()
      requires Valid() && handlerAttached
      modifies this
      ensures Valid() && handlerAttached
      ensures State() == Step(old(State()), CancelClicked)
      ensures !isAuthInProgress && authFailTimes == 0
      ensures effects == old(effects) + [Handler(EndAuth), Listener(Cancelled), Dismiss]
      ensures shownError == old(shownError) && imageTint == old(imageTint) && Config() == old(Config())
    {
      ghost var before := State();
      isAuthInProgress := false;
      authFailTimes := 0;
      effects := effects + [Handler(EndAuth), Listener(Cancelled), Dismiss];
      StepPreservesInv(before, CancelClicked);
    }

    /** The cancel button's click listener. */
    method OnCancelButtonClick()
      requires Valid() && handlerAttached
      modifies this
      ensures Valid() && handlerAttached
      ensures State() == Step(old(State()), CancelClicked)
      ensures !isAuthInProgress && authFailTimes == 0
      ensures effects == old(effects) + [Handler(EndAuth), Listener(Cancelled), Dismiss]
      ensures shownError == old(shownError) && imageTint == old(imageTint) && Config() == old(Config())
    {
      OnCancelled();
    }

    /**
     * The dialog's key listener: the back key cancels when the handler exists and is
     * reported as handled; any other key, or no handler, is passed on untouched.
     */
    method OnKey(keyCode: int) returns (handled: bool)
      requires Valid()
      modifies this
      ensures Valid() && handlerAttached == old(handlerAttached)
      ensures handled <==> keyCode == KEYCODE_BACK && handlerAttached
      ensures handled ==> State() == Step(old(State()), KeyPressed(keyCode))
      ensures handled ==> !isAuthInProgress && authFailTimes == 0
      ensures handled ==> effects == old(effects) + [Handler(EndAuth), Listener(Cancelled), Dismiss]
      ensures !handled ==> State() == old(State())
    {
      if keyCode != KEYCODE_BACK || !handlerAttached {
        return false;
      }
      OnCancelled();
      return true;
    }

    /**
     * One `if (config.hasKey(key)) field = config.getX(key);` statement of setAuthConfig:
     * reports whether the getter threw, and otherwise writes the present value.
     */
    method ReadSetting(m: ReadableMap, k: Key) returns (threw: bool)
      requires Valid()
      modifies this
      ensures Valid() && handlerAttached == old(handlerAttached)
      ensures threw == ReadKey(ConfigUpdate(old(Config()), None), m, k).thrownAt.Some?
      ensures State() == old(State()).(settings := ReadKey(ConfigUpdate(old(Config()), None), m, k).settings)
    {
      ghost var before := State();
      threw := false;
      if Name(k) in m {
        var v := m[Name(k)];
        if !Fits(k, v) {
          return true;
        }
        match k {
          case Title => dialogTitle := v.text;
          case CancelText => cancelText := v.text;
          case ImageColor => imageColor := v.number;
          case ImageErrorColor => imageErrorColor := v.number;
          case AuthFailDescription => authFailDescription := v.text;
        }
      }
      ConfiguredStep(before, None);
    }

    /**
     * setAuthConfig: a null map changes nothing; each present key overwrites its own
     * field, in the order title, cancelText, imageColor, imageErrorColor,
     * authFailDescription. A value of the wrong kind makes its getter throw, which is
     * returned here as the key it happened at; the fields written before it stay written.
     */
    method SetAuthConfig(config: Option<ReadableMap>) returns (thrownAt: Option<Key>)
      requires Valid()
      modifies this
      ensures Valid() && handlerAttached == old(handlerAttached)
      ensures State() == Step(old(State()), Configured(config))
      ensures thrownAt == ApplyAuthConfig(old(Config()), config).thrownAt
      ensures Config() == ApplyAuthConfig(old(Config()), config).settings
      ensures isAuthInProgress == old(isAuthInProgress) && authFailTimes == old(authFailTimes)
      ensures shownError == old(shownError) && imageTint == old(imageTint) && effects == old(effects)
    {
      ghost var before := State();
      thrownAt := None;
      if config.None? {
        ConfiguredStep(before, config);
        return;
      }
      var m := config.value;
      // `u` follows the reads of ApplyAuthConfig, one key at a time
      ghost var u := ConfigUpdate(Config(), None);
      var threw := ReadSetting(m, Title);
      u := ReadKey(u, m, Title);
      if threw {
        thrownAt := Some(Title);
        ThrownStaysThrown(u, m);
        ConfiguredStep(before, config);
        return;
      }
      threw := ReadSetting(m, CancelText);
      u := ReadKey(u, m, CancelText);
      if threw {
        thrownAt := Some(CancelText);
        ThrownStaysThrown(u, m);
        ConfiguredStep(before, config);
        return;
      }
      threw := ReadSetting(m, ImageColor);
      u := ReadKey(u, m, ImageColor);
      if threw {
        thrownAt := Some(ImageColor);
        ThrownStaysThrown(u, m);
        ConfiguredStep(before, config);
        return;
      }
      threw := ReadSetting(m, ImageErrorColor);
      u := ReadKey(u, m, ImageErrorColor);
      if threw {
        thrownAt := Some(ImageErrorColor);
        ThrownStaysThrown(u, m);
        ConfiguredStep(before, config);
        return;
      }
      threw := ReadSetting(m, AuthFailDescription);
      u := ReadKey(u, m, AuthFailDescription);
      if threw {
        thrownAt := Some(AuthFailDescription);
      }
      assert ApplyAuthConfig(before.settings, config) == u;
      ConfiguredStep(before, config);
    }
  }
}
