# Fingerprint dialog authentication session, in Dafny

This project models the authentication-session state machine of the Android
`FingerprintDialog` of react-native-biometric-identification. The dialog asks the
fingerprint handler to start and stop scans. It reacts to the sensor's callbacks
(`onAuthenticated`, `onError`, `onAuthFailed`) and to the user's cancel button and
back key. It reports exactly one of four outcomes per terminal path to its
`DialogResultListener` (`onAuthenticated`, `onError(message, code)`,
`onAuthFailed(code)`, `onCancelled`) and then dismisses itself.

The model has two layers.

- `AuthSession` (auth_session.dfy) describes the dialog's state as a value, `Session`:
  - the `isAuthInProgress` flag and the `authFailTimes` counter;
  - the text of the error line and the icon's colour filter;
  - the five settings `setAuthConfig` writes;
  - a trace of effects, in order: `Handler(StartAuth | EndAuth)` for calls into the
    fingerprint handler, `Listener(outcome)` for calls into the result listener,
    `Shake` for the animation on an absorbed failure, and `Dismiss`.

  `Step` is the effect of one callback and `Run` the effect of a sequence of them.
  The lemmas state what the source promises about single callbacks and about whole
  runs.
- `Dialog` (dialog.dfy) is the dialog as a class. Its fields are the Java fields, plus a
  ghost `effects` trace. Each handler is a method that updates the fields in place. Its
  `ensures` states the new values of the fields it changes, and ties the whole new
  state to `Step(old(State()), event)`. It also keeps the object invariant `Valid()`, which is
  `AuthSession.Inv`.

The invariant `Inv` holds of every reachable session:
- `authFailTimes` stays within 0..2;
- whenever `isAuthInProgress` is set, the last command sent to the handler was `startAuth`;
- every listener call is immediately followed by a dismissal, and every dismissal
  immediately follows a listener call. So the listener has been called exactly as
  often as the dialog dismissed itself (`PairedBalances`).

## Behaviour a caller may not expect

- The counter test is `authFailTimes < 2`, then an increment. So from a fresh dialog the
  first two consecutive failed matches are absorbed, and the third is the first one
  reported (`ThirdFailureReported`, `FailuresReportEveryThird`).
- `onAuthFailed` never starts a new scan.
- `onError` and `onAuthenticated` send no `endAuth`. `onError` also leaves
  `isAuthInProgress` set (`ErrorLeavesScanToPause`, `RestartWithoutEndAuth`).
- No handler checks whether the dialog was already dismissed, so a second callback
  reports a second outcome (`NoGuardAfterDismiss`).

Calls into code that is not part of this model (the fingerprint handler, the result
listener, `dismiss()`) are recorded in the effect trace and have no other effect.
Callbacks are modelled as sequential method calls.

## Model

| member | source | states |
|---|---|---|
| Dialog.FingerprintDialog.constructor | android/src/main/java/com/rnfingerprint/FingerprintDialog.java:25-37 | a new dialog has no scan in progress, a counter of 0, empty texts and zero colours, no handler and an empty effect trace |
| Dialog.FingerprintDialog.OnAttach | android/src/main/java/com/rnfingerprint/FingerprintDialog.java:40-44 | after attaching, the handler exists and nothing else has changed |
| Dialog.FingerprintDialog.OnResume | android/src/main/java/com/rnfingerprint/FingerprintDialog.java:92-102 | with a scan in progress, nothing changes; otherwise the flag is set and exactly one `startAuth` is sent; the invariant is kept |
| Dialog.FingerprintDialog.OnPause | android/src/main/java/com/rnfingerprint/FingerprintDialog.java:104-111 | with a scan in progress, `endAuth` is sent and the flag cleared; otherwise nothing changes |
| Dialog.FingerprintDialog.OnAuthenticated | android/src/main/java/com/rnfingerprint/FingerprintDialog.java:162-168 | clears the flag and the counter, appends one `Authenticated` call then one dismissal, and sends no `endAuth` |
| Dialog.FingerprintDialog.OnError | android/src/main/java/com/rnfingerprint/FingerprintDialog.java:170-177 | shows the message in the error colour and resets the counter; forwards message and code unchanged, then dismisses; leaves the flag as it was |
| Dialog.FingerprintDialog.OnAuthFailed | android/src/main/java/com/rnfingerprint/FingerprintDialog.java:179-197 | shows the failure text in the error colour; below 2 it counts one more failure and only shakes; at 2 it resets the counter, reports `AuthFailed` with the same code and dismisses; the flag is untouched |
| Dialog.FingerprintDialog.OnCancelled | android/src/main/java/com/rnfingerprint/FingerprintDialog.java:199-206 | clears flag and counter, appends `endAuth`, then `Cancelled`, then a dismissal |
| Dialog.FingerprintDialog.OnCancelButtonClick | android/src/main/java/com/rnfingerprint/FingerprintDialog.java:68-75 | the cancel button has exactly the effect of `onCancelled` |
| Dialog.FingerprintDialog.OnKey | android/src/main/java/com/rnfingerprint/FingerprintDialog.java:78-87 | the key is handled if and only if it is BACK and the handler exists; then it cancels, otherwise nothing changes |
| Dialog.FingerprintDialog.ReadSetting | android/src/main/java/com/rnfingerprint/FingerprintDialog.java:131-149 | one `hasKey`/getter/assignment statement: a present value of the wrong kind throws, a fitting one overwrites only its field |
| Dialog.FingerprintDialog.SetAuthConfig | android/src/main/java/com/rnfingerprint/FingerprintDialog.java:126-150 | the settings become those `ApplyAuthConfig` describes, and the key at which a getter threw is returned; nothing else changes |
| AuthSession.Fresh | android/src/main/java/com/rnfingerprint/FingerprintDialog.java:25-37 | the declared initial values: no scan in progress, counter 0, empty texts, zero colours, empty trace; this session satisfies the invariant, with no outcome and no handler command yet |
| AuthSession.Step | android/src/main/java/com/rnfingerprint/FingerprintDialog.java:92-206 | one callback of the dialog (onResume, onPause, onAuthenticated, onError, onAuthFailed, cancel button, key listener, setAuthConfig): it only appends to the trace, by at most three effects, and only setAuthConfig changes the settings, changing nothing else; the per-handler behaviour is stated by `StepSuffix`, `StepPreservesInv` and the handler lemmas below |
| AuthSession.Run | android/src/main/java/com/rnfingerprint/FingerprintDialog.java:92-206 | callbacks delivered one after another: the trace only grows, by at most three effects per callback; `RunPreservesInv`, `RunAppends`, `RunFromFresh` and `FailuresReportEveryThird` carry its other properties |
| AuthSession.Cancel | android/src/main/java/com/rnfingerprint/FingerprintDialog.java:199-206 | onCancelled: clears flag and counter, adds exactly one `Cancelled` outcome, leaves `endAuth` as the last handler command, keeps listener calls paired with dismissals, and changes nothing else |
| AuthSession.ReadKey | android/src/main/java/com/rnfingerprint/FingerprintDialog.java:131-149 | one `hasKey`/getter statement: after a throw nothing changes; it throws exactly when the key is present with a value of the wrong kind; otherwise a present key overwrites only its own setting and an absent key changes nothing |
| AuthSession.Assign | android/src/main/java/com/rnfingerprint/FingerprintDialog.java:131-149 | writing one setting changes that setting to the value and leaves the other four as they were |
| AuthSession.ApplyAuthConfig | android/src/main/java/com/rnfingerprint/FingerprintDialog.java:126-150 | a null map changes nothing; no getter throws if and only if every present key has a value of the right kind; then each present key overwrites its own setting and absent keys keep theirs; on a throw, the keys read earlier are written and the later ones keep their values |
| AuthSession.ReadKeyStep | android/src/main/java/com/rnfingerprint/FingerprintDialog.java:131-149 | reading keys one by one, in the source's order, keeps "the first n keys have been applied, or the read threw at the first ill-typed one" |
| AuthSession.ThrownStaysThrown | android/src/main/java/com/rnfingerprint/FingerprintDialog.java:126-150 | after a getter has thrown, no later statement of setAuthConfig changes anything |
| AuthSession.ConfiguredStep | android/src/main/java/com/rnfingerprint/FingerprintDialog.java:126-150 | setAuthConfig changes only the settings and keeps the session invariant |
| AuthSession.StepSuffix | android/src/main/java/com/rnfingerprint/FingerprintDialog.java:92-206 | each callback appends a suffix to the trace with at most one listener call, each followed by a dismissal; it keeps the counter within 0..2; the flag ends set only after a `startAuth` or when it was already set |
| AuthSession.StepPreservesInv | android/src/main/java/com/rnfingerprint/FingerprintDialog.java:92-206 | every callback keeps the invariant: counter within 0..2, flag set only while the last command was `startAuth`, listener calls paired with dismissals |
| AuthSession.StepAppendsAtMostOneOutcome | android/src/main/java/com/rnfingerprint/FingerprintDialog.java:152-206 | a callback only appends to the trace and calls the listener at most once |
| AuthSession.RunPreservesInv | android/src/main/java/com/rnfingerprint/FingerprintDialog.java:25-26 | the invariant holds after any sequence of callbacks |
| AuthSession.RunAppends | android/src/main/java/com/rnfingerprint/FingerprintDialog.java:152-206 | over any run the trace only grows, with at most one outcome per callback |
| AuthSession.RunFromFresh | android/src/main/java/com/rnfingerprint/FingerprintDialog.java:26 | from a fresh dialog, whatever callbacks arrive, `authFailTimes` is within 0..2 and the listener was called exactly as often as the dialog dismissed itself |
| AuthSession.PairedBalances | android/src/main/java/com/rnfingerprint/FingerprintDialog.java:162-206 | in a trace where every listener call is followed by a dismissal, the number of outcomes equals the number of dismissals |
| AuthSession.FailuresReportEveryThird | android/src/main/java/com/rnfingerprint/FingerprintDialog.java:179-197 | over n consecutive failed matches from counter c, the counter ends at (c + n) mod 3 and (c + n) div 3 outcomes are reported; the flag and the settings are untouched |
| AuthSession.FirstTwoFailuresAbsorbed | android/src/main/java/com/rnfingerprint/FingerprintDialog.java:181-191 | from counter 0, two failures set the counter to 2, show the failure text in the error colour and only shake twice |
| AuthSession.ThirdFailureReported | android/src/main/java/com/rnfingerprint/FingerprintDialog.java:183-196 | from counter 0, the third consecutive failure is the first reported: counter back to 0, one `AuthFailed` with the third code, then a dismissal |
| AuthSession.MatchReportsAuthenticated | android/src/main/java/com/rnfingerprint/FingerprintDialog.java:163-167 | whatever the failure count, a match clears flag and counter, reports `Authenticated` once and dismisses, with no `endAuth` |
| AuthSession.ErrorForwardedVerbatim | android/src/main/java/com/rnfingerprint/FingerprintDialog.java:171-176 | an error is shown and reported with the same message and code, the counter is reset, the flag and the last handler command are unchanged |
| AuthSession.CancelStopsThenReports | android/src/main/java/com/rnfingerprint/FingerprintDialog.java:92-206 | from any reachable state, cancelling keeps the invariant, reports `Cancelled` exactly once and dismisses exactly once; the scan is stopped, so a later onPause sends no second `endAuth` and a later onResume sends a fresh `startAuth` |
| AuthSession.KeyDecision | android/src/main/java/com/rnfingerprint/FingerprintDialog.java:78-87 | from any reachable state, any key keeps the invariant; the back key reports `Cancelled` exactly once, dismisses exactly once, clears the flag and leaves `endAuth` as the last handler command |
| AuthSession.OtherKeysIgnored | android/src/main/java/com/rnfingerprint/FingerprintDialog.java:80-86 | any sequence of keys other than back leaves the whole dialog state unchanged |
| AuthSession.ResumePauseIdempotent | android/src/main/java/com/rnfingerprint/FingerprintDialog.java:96-110 | a second onResume after an onResume changes nothing, and likewise for onPause |
| AuthSession.ResumeThenPause | android/src/main/java/com/rnfingerprint/FingerprintDialog.java:93-111 | resuming an idle dialog and pausing it restores the state, with one `startAuth` and one `endAuth` sent |
| AuthSession.NoGuardAfterDismiss | android/src/main/java/com/rnfingerprint/FingerprintDialog.java:162-168 | a second match after the dialog dismissed itself reports `Authenticated` a second time |
| AuthSession.RestartWithoutEndAuth | android/src/main/java/com/rnfingerprint/FingerprintDialog.java:93-168 | from any idle session, resume, match, resume sends `startAuth` twice with no `endAuth` in between, and leaves the flag set |
| AuthSession.ErrorLeavesScanToPause | android/src/main/java/com/rnfingerprint/FingerprintDialog.java:93-177 | after an error the flag stays set, so a later onResume sends nothing and the later onPause is what sends `endAuth` |

## Left out

- View inflation, title, style, button text and the initial colour filter set in `onCreate` and `onCreateView`: presentation with no state the handlers read back. The shown error text therefore starts empty and the icon starts with no filter.
- The rotate animation on an absorbed failure is recorded only as a `Shake` effect. Its float parameters and timing are not modelled.
- The fingerprint handler, the crypto object and the result listener are opaque collaborators. Their calls are recorded in the trace. The FingerprintHandler source is not part of this model.
- `setCryptoObject`, `setDialogCallback` and `setReasonForAuthentication` are plain setters and are not modelled. The crypto object is only passed on to the handler, and the reason is only shown by the view. Every terminal handler calls the result listener: the model assumes it is set, since the source dereferences it unguarded. Replacing it with `setDialogCallback` is not visible in the trace, which records outcomes but not which listener received them.
- The fingerprint handler's lifetime: `onResume`, `onPause` and `onCancelled` use it without a null check, and the model requires it to exist (`handlerAttached`), as the platform calls `onAttach` before any of them. Every `onAttach` creates a new handler, but the trace does not tell handler objects apart. So the invariant's "the last command sent was `startAuth`" is about the handler commands as a whole, not about the handler currently attached.
- Null views: `onError` and `onAuthFailed` before the view exists would throw in the source. This is not modelled.
- `ReadableMap` values: three cases are not modelled. A null value makes `getString` yield null. `getInt` truncates fractional numbers, and it narrows integral numbers outside Java's `int` range, which `Number(n)` stores unbounded. `Other` stands for every value kind that makes the getter throw.
- Java `int` width: the colour fields are unbounded integers. The model does no arithmetic on them, and the counter never leaves 0..2, so no wrap-around can arise.
- The platform's own lifecycle reactions to `dismiss()` (such as the `onPause` that usually follows it) are not modelled. Each callback is a separate, sequential call, and the source has no synchronisation.
- Biometrics.android.js and Biometrics.ios.js: Promise wrappers over the native module. Their error mapping depends on modules that are not part of this model.
