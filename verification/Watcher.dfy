/**
 What happens after the key form is submitted (pages/login_page.py,
 _wait_for_callback).

 The page is polled until one of several outcomes can be named.  One `Poll` is
 everything one turn of the loop can observe.  `VerdictAt` says, from the polls
 alone and without counters or flags, what a poll means; the loop is proved to
 stop at the first poll that means anything, with that meaning.
 */
module Watcher {
  import opened Common

  const STABLE_POLLS_FORM_RETURNED := 3
  const STABLE_POLLS_NEW_SCREEN := 8

  datatype Poll = Poll(
    onTargetHost: bool,      // the browser is back on the awaited host
    onIdGov: bool,           // the browser is on the identity provider
    text: Option<string>,    // the page text, when it could be read
    overlayShown: bool,      // the processing marker is on screen
    errorShown: bool,        // the error marker is on screen
    userDataShown: bool,     // the user-data confirmation button is on screen
    keyFormShown: bool,      // key, password and submit are all on screen
    submitEnabled: bool,     // the submit button can be clicked
    confirmWorks: bool,      // clicking the confirmation would succeed
    late: bool)              // the deadline has passed when this turn looks at the clock

  /** Which optional markers are configured, and the text seen at the click. */
  datatype Setup = Setup(watchesOverlay: bool, watchesError: bool, initialText: Option<string>)

  datatype Verdict =
    | CallbackReceived
    | Rejected
    | FormReset
    | UnknownScreen
    | ProcessingTimeout
    | CallbackTimeout(userDataConfirmed: bool)
    | ConfirmationFailed

  // ---------------------------------------------------------------------------
  // What a trace of polls means, said without counters
  // ---------------------------------------------------------------------------

  /** The most recent readable text before poll `i`. */
  function TextBefore(setup: Setup, polls: seq<Poll>, i: nat): Option<string>
    requires i <= |polls|
  {
    if i == 0 then setup.initialText
    else if polls[i - 1].text.Some? then polls[i - 1].text
    else TextBefore(setup, polls, i - 1)
  }

  predicate TextChanged(setup: Setup, polls: seq<Poll>, i: nat)
    requires i < |polls|
  {
    polls[i].text.Some? && polls[i].text != TextBefore(setup, polls, i)
  }

  predicate Busy(setup: Setup, p: Poll) { setup.watchesOverlay && p.overlayShown }

  /** The three mutually exclusive things an idle page can be showing. */
  predicate UserDataScreen(setup: Setup, p: Poll) { !Busy(setup, p) && p.userDataShown }

  predicate KeyFormScreen(setup: Setup, p: Poll) { !Busy(setup, p) && !p.userDataShown && p.keyFormShown }

  predicate OtherScreen(setup: Setup, p: Poll) { !Busy(setup, p) && !p.userDataShown && !p.keyFormShown }

  /** By poll `i` there is evidence that the submission did something. */
  predicate SubmissionSeen(setup: Setup, polls: seq<Poll>, i: nat)
    requires i < |polls|
  {
    if setup.watchesOverlay then exists j :: 0 <= j < i && Busy(setup, polls[j])
    else exists j :: 0 <= j <= i && (TextChanged(setup, polls, j) || (j < i && OtherScreen(setup, polls[j])))
  }

  /** The key form is back, clickable, after evidence of a submission. */
  predicate Clickable(setup: Setup, polls: seq<Poll>, i: nat)
    requires i < |polls|
  {
    KeyFormScreen(setup, polls[i]) && polls[i].submitEnabled && SubmissionSeen(setup, polls, i)
  }

  /** From poll `a` to poll `i` the page shows the key form and its text never moves. */
  predicate KeyFormRun(setup: Setup, polls: seq<Poll>, a: nat, i: nat)
    requires a <= i < |polls|
  {
    && (forall k :: a <= k <= i ==> KeyFormScreen(setup, polls[k]))
    && (forall k :: a < k <= i ==> !TextChanged(setup, polls, k))
  }

  /** Three clickable polls, the last of them `i`, inside one undisturbed run of
      the key form.  They need not be neighbours. */
  predicate FormIsBack(setup: Setup, polls: seq<Poll>, i: nat)
    requires i < |polls|
  {
    exists a, b :: 0 <= a < b < i && KeyFormRun(setup, polls, a, i)
                   && Clickable(setup, polls, a) && Clickable(setup, polls, b) && Clickable(setup, polls, i)
  }

  /** Eight polls in a row, up to `i`, on one unchanging unknown screen. */
  predicate UnknownScreenSettled(setup: Setup, polls: seq<Poll>, i: nat)
    requires i < |polls|
  {
    && i + 1 >= STABLE_POLLS_NEW_SCREEN
    && (forall k :: i + 1 - STABLE_POLLS_NEW_SCREEN <= k <= i ==> OtherScreen(setup, polls[k]))
    && (forall k :: i + 1 - STABLE_POLLS_NEW_SCREEN < k <= i ==> !TextChanged(setup, polls, k))
  }

  /** The loop looks at the confirmation screen in this poll: nothing outranks it. */
  predicate AsksToConfirm(setup: Setup, p: Poll) {
    UserDataScreen(setup, p) && !Outranked(setup, p)
  }

  predicate Outranked(setup: Setup, p: Poll) {
    p.onTargetHost || (setup.watchesError && p.onIdGov && p.errorShown)
  }

  predicate UserDataSeenBefore(setup: Setup, polls: seq<Poll>, i: nat)
    requires i <= |polls|
  {
    exists j :: 0 <= j < i && UserDataScreen(setup, polls[j])
  }

  /** What poll `i` means, in order of priority; `None` means keep polling. */
  function VerdictAt(setup: Setup, polls: seq<Poll>, i: nat): Option<Verdict>
    requires i < |polls|
  {
    var p := polls[i];
    if p.onTargetHost then Some(CallbackReceived)
    else if Busy(setup, p) then (if p.late then Some(ProcessingTimeout) else None)
    else if setup.watchesError && p.onIdGov && p.errorShown then Some(Rejected)
    else if UserDataScreen(setup, p) && !UserDataSeenBefore(setup, polls, i) && !p.confirmWorks then
      Some(ConfirmationFailed)
    else if FormIsBack(setup, polls, i) then Some(FormReset)
    else if p.onIdGov && UnknownScreenSettled(setup, polls, i) then Some(UnknownScreen)
    else if p.late then Some(CallbackTimeout(UserDataSeenBefore(setup, polls, i + 1)))
    else None
  }

  // ---------------------------------------------------------------------------
  // Counters against runs
  // ---------------------------------------------------------------------------

  /** How many of the polls `a .. i` are clickable. */
  function ClickableCount(setup: Setup, polls: seq<Poll>, a: nat, i: nat): nat
    requires a <= i <= |polls|
    decreases i
  {
    if i == a then 0
    else ClickableCount(setup, polls, a, i - 1) + if Clickable(setup, polls, i - 1) then 1 else 0
  }

  /** `a` is where the undisturbed run of key-form polls ending just before `i` begins. */
  ghost predicate RunStart(setup: Setup, polls: seq<Poll>, a: nat, i: nat)
    requires a <= i <= |polls|
  {
    && (a < i ==> KeyFormRun(setup, polls, a, i - 1))
    && (a > 0 && a < i ==> !KeyFormScreen(setup, polls[a - 1]) || TextChanged(setup, polls, a))
    && (a == i && i > 0 ==> !KeyFormScreen(setup, polls[i - 1]))
  }

  lemma {:induction false} CountReachesTwo(setup: Setup, polls: seq<Poll>, a: nat, i: nat)
    requires a <= i <= |polls|
    ensures ClickableCount(setup, polls, a, i) >= 1 <==>
            exists x :: a <= x < i && Clickable(setup, polls, x)
    ensures ClickableCount(setup, polls, a, i) >= 2 <==>
            exists x, y :: a <= x < y < i && Clickable(setup, polls, x) && Clickable(setup, polls, y)
    decreases i
  {
    if i > a {
      CountReachesTwo(setup, polls, a, i - 1);
      if Clickable(setup, polls, i - 1) && ClickableCount(setup, polls, a, i - 1) >= 1 {
        var x :| a <= x < i - 1 && Clickable(setup, polls, x);
        assert a <= x < i - 1 < i && Clickable(setup, polls, x) && Clickable(setup, polls, i - 1);
      }
    }
  }

  /** The counter of the loop reaches three exactly when the form is back. */
  lemma CounterMeansFormIsBack(setup: Setup, polls: seq<Poll>, a: nat, i: nat)
    requires a <= i < |polls| && RunStart(setup, polls, a, i + 1)
    requires KeyFormScreen(setup, polls[i])
    ensures (Clickable(setup, polls, i) && ClickableCount(setup, polls, a, i + 1) >= STABLE_POLLS_FORM_RETURNED)
            <==> FormIsBack(setup, polls, i)
  {
    CountReachesTwo(setup, polls, a, i);
    if FormIsBack(setup, polls, i) {
      var x, y :| 0 <= x < y < i && KeyFormRun(setup, polls, x, i)
                  && Clickable(setup, polls, x) && Clickable(setup, polls, y) && Clickable(setup, polls, i);
      if x < a {
        assert false;
      }
    }
  }

  /** The longest stretch ending just before `i` on one unchanging unknown screen has `n` polls. */
  ghost predicate UnknownRun(setup: Setup, polls: seq<Poll>, n: nat, i: nat)
    requires n <= i <= |polls|
  {
    && (forall k :: i - n <= k < i ==> OtherScreen(setup, polls[k]))
    && (forall k :: i - n < k < i ==> !TextChanged(setup, polls, k))
    && (n < i ==> (n > 0 && TextChanged(setup, polls, i - n)) || !OtherScreen(setup, polls[i - n - 1]))
  }

  lemma CounterMeansSettled(setup: Setup, polls: seq<Poll>, n: nat, i: nat)
    requires i < |polls| && n <= i + 1 && UnknownRun(setup, polls, n, i + 1)
    ensures n >= STABLE_POLLS_NEW_SCREEN <==> UnknownScreenSettled(setup, polls, i)
  {
  }

  // ---------------------------------------------------------------------------
  // The loop
  // ---------------------------------------------------------------------------

  /** The variables the loop carries from one poll to the next. */
  datatype Memory = Memory(
    previousText: Option<string>,
    processingStarted: bool,
    screenChanged: bool,
    formBackPolls: nat,
    otherScreenPolls: nat,
    userDataConfirmed: bool)

  /** What the memory says about the polls before `i`. */
  ghost predicate Remembers(setup: Setup, polls: seq<Poll>, i: nat, m: Memory, runStart: nat)
    requires i <= |polls|
  {
    && m.previousText == TextBefore(setup, polls, i)
    && (m.processingStarted <==> exists j :: 0 <= j < i && Busy(setup, polls[j]))
    && (m.screenChanged <==> exists j :: 0 <= j < i && (TextChanged(setup, polls, j) || OtherScreen(setup, polls[j])))
    && (m.userDataConfirmed <==> UserDataSeenBefore(setup, polls, i))
    && (m.userDataConfirmed <==> exists j :: 0 <= j < i && AsksToConfirm(setup, polls[j]))
    && runStart <= i && RunStart(setup, polls, runStart, i)
    && m.formBackPolls == ClickableCount(setup, polls, runStart, i)
    && m.otherScreenPolls <= i && UnknownRun(setup, polls, m.otherScreenPolls, i)
  }

  /** The same once the text of poll `i` has been compared. */
  ghost predicate RemembersWithText(setup: Setup, polls: seq<Poll>, i: nat, m: Memory, runStart: nat)
    requires i < |polls|
  {
    && m.previousText == TextBefore(setup, polls, i + 1)
    && (m.processingStarted <==> exists j :: 0 <= j < i && Busy(setup, polls[j]))
    && (m.screenChanged <==> exists j :: 0 <= j <= i && (TextChanged(setup, polls, j) || (j < i && OtherScreen(setup, polls[j]))))
    && (m.userDataConfirmed <==> UserDataSeenBefore(setup, polls, i))
    && (m.userDataConfirmed <==> exists j :: 0 <= j < i && AsksToConfirm(setup, polls[j]))
    && runStart <= i && m.formBackPolls == ClickableCount(setup, polls, runStart, i)
    && (KeyFormScreen(setup, polls[i]) ==> RunStart(setup, polls, runStart, i + 1))
    && m.otherScreenPolls <= i
    && (OtherScreen(setup, polls[i]) ==> UnknownRun(setup, polls, m.otherScreenPolls + 1, i + 1))
  }

  lemma TextCompared(setup: Setup, polls: seq<Poll>, i: nat, m: Memory, runStart: nat)
    requires i < |polls| && Remembers(setup, polls, i, m, runStart)
    ensures TextChanged(setup, polls, i) ==>
              RemembersWithText(setup, polls, i, m.(previousText := polls[i].text, screenChanged := true,
                                                    formBackPolls := 0, otherScreenPolls := 0), i)
    ensures !TextChanged(setup, polls, i) ==> RemembersWithText(setup, polls, i, m, runStart)
  {
    if !TextChanged(setup, polls, i) {
      if KeyFormScreen(setup, polls[i]) {
        assert RunStart(setup, polls, runStart, i + 1);
      }
      if OtherScreen(setup, polls[i]) {
        assert UnknownRun(setup, polls, m.otherScreenPolls + 1, i + 1);
      }
    }
  }

  lemma BusyRemembered(setup: Setup, polls: seq<Poll>, i: nat, m: Memory, runStart: nat)
    requires i < |polls| && RemembersWithText(setup, polls, i, m, runStart) && Busy(setup, polls[i])
    ensures forall next | next == i + 1 ::
              Remembers(setup, polls, next, m.(processingStarted := true, formBackPolls := 0, otherScreenPolls := 0), next)
  {
  }

  lemma KeyFormRemembered(setup: Setup, polls: seq<Poll>, i: nat, m: Memory, runStart: nat)
    requires i < |polls| && RemembersWithText(setup, polls, i, m, runStart) && KeyFormScreen(setup, polls[i])
    ensures var count := m.formBackPolls + if Clickable(setup, polls, i) then 1 else 0;
            && Remembers(setup, polls, i + 1, m.(formBackPolls := count, otherScreenPolls := 0), runStart)
            && (FormIsBack(setup, polls, i) <==> Clickable(setup, polls, i) && count >= STABLE_POLLS_FORM_RETURNED)
    ensures !UnknownScreenSettled(setup, polls, i)
  {
    assert UserDataSeenBefore(setup, polls, i + 1) <==> UserDataSeenBefore(setup, polls, i);
    CounterMeansFormIsBack(setup, polls, runStart, i);
  }

  lemma OtherScreenRemembered(setup: Setup, polls: seq<Poll>, i: nat, m: Memory, runStart: nat)
    requires i < |polls| && RemembersWithText(setup, polls, i, m, runStart) && OtherScreen(setup, polls[i])
    ensures Remembers(setup, polls, i + 1, m.(screenChanged := true, formBackPolls := 0,
                                              otherScreenPolls := m.otherScreenPolls + 1), i + 1)
    ensures !FormIsBack(setup, polls, i)
    ensures m.otherScreenPolls + 1 >= STABLE_POLLS_NEW_SCREEN <==> UnknownScreenSettled(setup, polls, i)
  {
  }

  /** A text that moved restarts both counters. */
  method CompareText(setup: Setup, polls: seq<Poll>, at: nat, before: Memory, ghost start: nat)
    returns (m: Memory, ghost runStart: nat)
    requires at < |polls| && Remembers(setup, polls, at, before, start)
    ensures RemembersWithText(setup, polls, at, m, runStart)
    ensures m.userDataConfirmed == before.userDataConfirmed
  {
    TextCompared(setup, polls, at, before, start);
    m, runStart := before, start;
    if polls[at].text.Some? && polls[at].text != m.previousText {
      m := m.(previousText := polls[at].text, screenChanged := true, formBackPolls := 0, otherScreenPolls := 0);
      runStart := at;
    }
  }

  /** The screens of an idle page that nothing outranks. */
  method JudgeScreen(setup: Setup, polls: seq<Poll>, at: nat, before: Memory, ghost start: nat)
    returns (verdict: Option<Verdict>, m: Memory, clicks: seq<nat>, ghost runStart: nat)
    requires at < |polls| && RemembersWithText(setup, polls, at, before, start)
    requires !Busy(setup, polls[at]) && !Outranked(setup, polls[at])
    ensures verdict == VerdictAt(setup, polls, at)
    ensures m.userDataConfirmed <==> before.userDataConfirmed || AsksToConfirm(setup, polls[at])
    ensures clicks == (if AsksToConfirm(setup, polls[at]) && !before.userDataConfirmed then [at] else [])
    ensures verdict.None? ==> forall next | next == at + 1 :: Remembers(setup, polls, next, m, runStart)
  {
    var p := polls[at];
    m, clicks, runStart := before, [], start;
    if p.userDataShown {
      var first := !m.userDataConfirmed;
      m := m.(userDataConfirmed := true, formBackPolls := 0, otherScreenPolls := 0);
      runStart := at + 1;
      if first {
        clicks := clicks + [at];
        if !p.confirmWorks {
          return Some(ConfirmationFailed), m, clicks, runStart;
        }
      }
    } else if p.keyFormShown {
      KeyFormRemembered(setup, polls, at, m, runStart);
      m := m.(otherScreenPolls := 0);
      var resetIsPossible := if setup.watchesOverlay then m.processingStarted else m.screenChanged;
      if resetIsPossible && p.submitEnabled {
        m := m.(formBackPolls := m.formBackPolls + 1);
        if m.formBackPolls >= STABLE_POLLS_FORM_RETURNED {
          return Some(FormReset), m, clicks, runStart;
        }
      }
    } else {
      OtherScreenRemembered(setup, polls, at, m, runStart);
      m := m.(screenChanged := true, formBackPolls := 0, otherScreenPolls := m.otherScreenPolls + 1);
      runStart := at + 1;
      if p.onIdGov && m.otherScreenPolls >= STABLE_POLLS_NEW_SCREEN {
        return Some(UnknownScreen), m, clicks, runStart;
      }
    }
    return if p.late then Some(CallbackTimeout(m.userDataConfirmed)) else None, m, clicks, runStart;
  }

  /** One turn of the loop: the verdict on poll `at`, or the memory to carry on with. */
  method Turn(setup: Setup, polls: seq<Poll>, at: nat, before: Memory, ghost start: nat)
    returns (verdict: Option<Verdict>, m: Memory, clicks: seq<nat>, ghost runStart: nat)
    requires at < |polls| && Remembers(setup, polls, at, before, start)
    ensures verdict == VerdictAt(setup, polls, at)
    ensures m.userDataConfirmed <==> before.userDataConfirmed || AsksToConfirm(setup, polls[at])
    ensures clicks == (if AsksToConfirm(setup, polls[at]) && !before.userDataConfirmed then [at] else [])
    ensures verdict.None? ==> forall next | next == at + 1 :: Remembers(setup, polls, next, m, runStart)
  {
    var p := polls[at];
    if p.onTargetHost {
      return Some(CallbackReceived), before, [], start;
    }
    m, runStart := CompareText(setup, polls, at, before, start);
    if Busy(setup, p) {
      BusyRemembered(setup, polls, at, m, runStart);
      m := m.(processingStarted := true, formBackPolls := 0, otherScreenPolls := 0);
      return if p.late then Some(ProcessingTimeout) else None, m, [], at + 1;
    }
    if setup.watchesError && p.onIdGov && p.errorShown {
      return Some(Rejected), m, [], runStart;
    }
    verdict, m, clicks, runStart := JudgeScreen(setup, polls, at, m, runStart);
  }

  /** The first of the polls up to `at` that asks for the confirmation, as a list. */
  function FirstAsked(setup: Setup, polls: seq<Poll>, at: nat): seq<nat>
    requires at <= |polls|
  {
    if at == 0 then []
    else
      var before := FirstAsked(setup, polls, at - 1);
      if before == [] && AsksToConfirm(setup, polls[at - 1]) then [at - 1] else before
  }

  lemma {:induction false} FirstAskedIs(setup: Setup, polls: seq<Poll>, at: nat)
    requires at <= |polls|
    ensures var first := FirstAsked(setup, polls, at);
            && |first| <= 1
            && (first == [] <==> forall i :: 0 <= i < at ==> !AsksToConfirm(setup, polls[i]))
            && (first != [] ==> first[0] < at && AsksToConfirm(setup, polls[first[0]])
                                && forall i :: 0 <= i < first[0] ==> !AsksToConfirm(setup, polls[i]))
  {
    if at > 0 {
      FirstAskedIs(setup, polls, at - 1);
    }
  }

  /** The loop stops at the first poll that has a verdict, with that verdict.  `clicks` are
      the polls in which confirming the user data was set about: the first that asks for it,
      and no other. */
  method WaitForCallback(setup: Setup, polls: seq<Poll>)
    returns (verdict: Option<Verdict>, at: nat, clicks: seq<nat>)
    ensures verdict.None? ==> at == |polls|
    ensures verdict.Some? ==> at < |polls| && VerdictAt(setup, polls, at) == verdict
    ensures forall i :: 0 <= i < at ==> VerdictAt(setup, polls, i).None?
    ensures verdict.None? ==> clicks == FirstAsked(setup, polls, at)
    ensures verdict.Some? ==> clicks == FirstAsked(setup, polls, at + 1)
    ensures |clicks| <= 1
  {
    var m := Memory(setup.initialText, false, false, 0, 0, false);
    clicks := [];
    at := 0;
    ghost var runStart := 0;
    verdict := None;
    while at < |polls|
      invariant at <= |polls| && verdict.None?
      invariant forall i :: 0 <= i < at ==> VerdictAt(setup, polls, i).None?
      invariant Remembers(setup, polls, at, m, runStart)
      invariant clicks == FirstAsked(setup, polls, at)
      invariant |clicks| <= 1 && (m.userDataConfirmed <==> clicks != [])
      decreases |polls| - at
    {
      var clicked: seq<nat>;
      verdict, m, clicked, runStart := Turn(setup, polls, at, m, runStart);
      clicks := clicks + clicked;
      if verdict.Some? {
        return;
      }
      at := at + 1;
    }
  }

  // ---------------------------------------------------------------------------
  // What the verdicts imply
  // ---------------------------------------------------------------------------

  /** With the overlay marker configured, a reset is never called before the overlay
      was seen, and it was seen before the whole run of key-form polls began. */
  lemma ResetFollowsProcessing(setup: Setup, polls: seq<Poll>, i: nat) returns (busy: nat, a: nat)
    requires i < |polls| && setup.watchesOverlay
    requires VerdictAt(setup, polls, i) == Some(FormReset)
    ensures busy < a && a + 2 <= i && Busy(setup, polls[busy])
    ensures KeyFormRun(setup, polls, a, i) && Clickable(setup, polls, a)
  {
    var x, y :| 0 <= x < y < i && KeyFormRun(setup, polls, x, i)
                && Clickable(setup, polls, x) && Clickable(setup, polls, y) && Clickable(setup, polls, i);
    a := x;
    busy :| 0 <= busy < a && Busy(setup, polls[busy]);
  }

  /** The rule as the comment beside the constant words it: three polls in a row. */
  predicate ThreeInARow(setup: Setup, polls: seq<Poll>, i: nat)
    requires i < |polls|
  {
    && i >= 2
    && Clickable(setup, polls, i - 2) && Clickable(setup, polls, i - 1) && Clickable(setup, polls, i)
    && !TextChanged(setup, polls, i - 1) && !TextChanged(setup, polls, i)
  }

  /** The loop obeys the comment exactly when the submit button was enabled in the
      two polls before the verdict. */
  lemma ResetIsThreeInARowIff(setup: Setup, polls: seq<Poll>, i: nat)
    requires i < |polls|
    ensures ThreeInARow(setup, polls, i) <==>
            FormIsBack(setup, polls, i) && polls[i - 1].submitEnabled && polls[i - 2].submitEnabled
  {
  }

  /** The overlay, two polls on the form as it should be, one on which its button is disabled, and
      one more as it should be. */
  function DisabledInBetween(): seq<Poll> {
    var busy := Poll(false, true, None, true, false, false, true, true, true, false);
    var usable := busy.(overlayShown := false);
    [busy, usable, usable, usable.(submitEnabled := false), usable]
  }

  /** The comment is not what the loop does: the last of these polls is the first with a verdict, and
      it calls a reset although the button was disabled in the poll just before. */
  lemma ResetWithoutThreeInARow(setup: Setup, polls: seq<Poll>)
    requires setup == Setup(true, false, None) && polls == DisabledInBetween()
    ensures VerdictAt(setup, polls, 4) == Some(FormReset) && forall j :: 0 <= j < 4 ==> VerdictAt(setup, polls, j).None?
    ensures !polls[3].submitEnabled && !ThreeInARow(setup, polls, 4)
  {
    assert Busy(setup, polls[0]);
    assert Clickable(setup, polls, 1) && Clickable(setup, polls, 2) && Clickable(setup, polls, 4);
    assert KeyFormRun(setup, polls, 1, 4);
    assert 0 <= 1 < 2 < 4;
    assert FormIsBack(setup, polls, 4);
  }

  /** The loop itself, run on them. */
  method WaitThroughDisabledPoll(setup: Setup, polls: seq<Poll>) returns (verdict: Option<Verdict>, at: nat)
    requires setup == Setup(true, false, None) && polls == DisabledInBetween()
    ensures verdict == Some(FormReset) && at == 4 && !polls[at - 1].submitEnabled
  {
    var clicks;
    ResetWithoutThreeInARow(setup, polls);
    verdict, at, clicks := WaitForCallback(setup, polls);
  }

  /** Waiting ends: a poll made after the deadline always has a verdict. */
  lemma LatePollIsDecided(setup: Setup, polls: seq<Poll>, i: nat)
    requires i < |polls| && polls[i].late
    ensures VerdictAt(setup, polls, i).Some?
  {
  }
}
