/**
 * The script embedded in the exported page (html_exporter.py): eight button handlers
 * that add and remove classes on the diagram container's class list. The page's CSS
 * turns those classes into animation speed, pause state and stroke colours; that
 * presentation is not modelled, only the class list.
 */
module ViewerScript {
  import opened Outcomes
  import opened Text

  const DIAGRAM_CONTAINER := "diagram-container"
  const PAUSED := "paused"

  datatype Speed = Normal | Slow | Fast

  datatype Theme = Default | Neon | Pastel

  function SpeedClass(s: Speed): string {
    match s
    case Normal => "speed-normal"
    case Slow => "speed-slow"
    case Fast => "speed-fast"
  }

  function ThemeClass(t: Theme): string {
    match t
    case Default => "theme-default"
    case Neon => "theme-neon"
    case Pastel => "theme-pastel"
  }

  const SPEED_CLASSES: set<string> := {SpeedClass(Normal), SpeedClass(Slow), SpeedClass(Fast)}
  const THEME_CLASSES: set<string> := {ThemeClass(Default), ThemeClass(Neon), ThemeClass(Pastel)}

  /** The `class` attribute the container is written with. */
  const CONTAINER_CLASS_ATTRIBUTE := DIAGRAM_CONTAINER + " " + ThemeClass(Default)

  /** The eight buttons of the control panel. */
  datatype Button = PauseButton | PlayButton | SpeedButton(speed: Speed) | ThemeButton(theme: Theme)

  /** The classes a button's handler passes to `classList.remove`, in the order written. */
  function RemovedClasses(button: Button): seq<string> {
    match button
    case PauseButton => []
    case PlayButton => [PAUSED]
    case SpeedButton(Normal) => [SpeedClass(Slow), SpeedClass(Fast)]
    case SpeedButton(Slow) => [SpeedClass(Normal), SpeedClass(Fast)]
    case SpeedButton(Fast) => [SpeedClass(Normal), SpeedClass(Slow)]
    case ThemeButton(Default) => [ThemeClass(Neon), ThemeClass(Pastel)]
    case ThemeButton(Neon) => [ThemeClass(Default), ThemeClass(Pastel)]
    case ThemeButton(Pastel) => [ThemeClass(Default), ThemeClass(Neon)]
  }

  /** The classes a button's handler passes to `classList.add`. */
  function AddedClasses(button: Button): seq<string> {
    match button
    case PauseButton => [PAUSED]
    case PlayButton => []
    case SpeedButton(s) => [SpeedClass(s)]
    case ThemeButton(t) => [ThemeClass(t)]
  }

  /** What a button's click handler does to the class list: the removals, then the
      additions. */
  function Click(classes: set<string>, button: Button): (r: set<string>)
    // pause adds `paused`, play removes it, and neither touches any other class
    ensures button == PauseButton ==> PAUSED in r && r - {PAUSED} == classes - {PAUSED}
    ensures button == PlayButton ==> r == classes - {PAUSED}
    // a speed button leaves its class the only speed class, and keeps every other class
    ensures button.SpeedButton? ==>
              r * SPEED_CLASSES == {SpeedClass(button.speed)} && r - SPEED_CLASSES == classes - SPEED_CLASSES
    // a theme button leaves its class the only theme class, and keeps every other class
    ensures button.ThemeButton? ==>
              r * THEME_CLASSES == {ThemeClass(button.theme)} && r - THEME_CLASSES == classes - THEME_CLASSES
  {
    classes - (set c | c in RemovedClasses(button)) + (set c | c in AddedClasses(button))
  }

  /** The clicks, in order. */
  function RunClicks(classes: set<string>, buttons: seq<Button>): set<string>
    decreases |buttons|
  {
    if buttons == [] then classes else RunClicks(Click(classes, buttons[0]), buttons[1..])
  }

  // ---------------------------------------------------------------------------
  // The abstract state the class list encodes

  /** The viewer's state: a theme, the speed last chosen (none before the first speed
      click) and whether the animation is paused. */
  datatype ViewState = ViewState(theme: Theme, speed: Option<Speed>, paused: bool)

  const INITIAL_STATE := ViewState(Default, None, false)

  /** The class list that encodes a state. */
  function Classes(v: ViewState): set<string> {
    {DIAGRAM_CONTAINER, ThemeClass(v.theme)}
    + (if v.speed.Some? then {SpeedClass(v.speed.value)} else {})
    + (if v.paused then {PAUSED} else {})
  }

  /** The effect of a button on the state. */
  function Step(v: ViewState, button: Button): ViewState {
    match button
    case PauseButton => v.(paused := true)
    case PlayButton => v.(paused := false)
    case SpeedButton(s) => v.(speed := Some(s))
    case ThemeButton(t) => v.(theme := t)
  }

  function RunSteps(v: ViewState, buttons: seq<Button>): ViewState
    decreases |buttons|
  {
    if buttons == [] then v else RunSteps(Step(v, buttons[0]), buttons[1..])
  }

  /** The container's class attribute parses to the class list of the initial state: the
      container class and the default theme, no speed class, not paused. */
  lemma InitialClassList()
    ensures ClassTokens(CONTAINER_CLASS_ATTRIBUTE) == Classes(INITIAL_STATE)
    ensures Classes(INITIAL_STATE) == {DIAGRAM_CONTAINER, ThemeClass(Default)}
    ensures PAUSED !in Classes(INITIAL_STATE) && Classes(INITIAL_STATE) * SPEED_CLASSES == {}
  {
    assert ' ' !in DIAGRAM_CONTAINER;
    assert ' ' !in ThemeClass(Default);
    ClassTokensOfPair(DIAGRAM_CONTAINER, ThemeClass(Default));
  }

  /** Each handler, applied to the class list of a state, gives the class list of the
      state after that button. */
  lemma ClickRefinesStep(v: ViewState, button: Button)
    ensures Click(Classes(v), button) == Classes(Step(v, button))
  {
  }

  /** Any sequence of clicks on the page keeps the class list equal to the encoding of
      the state reached by the same buttons. */
  lemma {:induction false} RunRefines(v: ViewState, buttons: seq<Button>)
    ensures RunClicks(Classes(v), buttons) == Classes(RunSteps(v, buttons))
    decreases |buttons|
  {
    if buttons != [] {
      ClickRefinesStep(v, buttons[0]);
      RunRefines(Step(v, buttons[0]), buttons[1..]);
    }
  }

  /** The container class is there, exactly one theme class is, and at most one speed
      class is. */
  ghost predicate WellFormed(classes: set<string>) {
    && DIAGRAM_CONTAINER in classes
    && (exists t :: classes * THEME_CLASSES == {ThemeClass(t)})
    && (classes * SPEED_CLASSES == {} || exists s :: classes * SPEED_CLASSES == {SpeedClass(s)})
  }

  lemma ClassesWellFormed(v: ViewState)
    ensures WellFormed(Classes(v))
  {
    var cs := Classes(v);
    assert cs * THEME_CLASSES == {ThemeClass(v.theme)};
    if v.speed.Some? {
      assert cs * SPEED_CLASSES == {SpeedClass(v.speed.value)};
    } else {
      assert cs * SPEED_CLASSES == {};
    }
  }

  /** Whatever the visitor clicks, the class list stays well formed. */
  lemma ReachableWellFormed(buttons: seq<Button>)
    ensures WellFormed(RunClicks(ClassTokens(CONTAINER_CLASS_ATTRIBUTE), buttons))
  {
    InitialClassList();
    RunRefines(INITIAL_STATE, buttons);
    ClassesWellFormed(RunSteps(INITIAL_STATE, buttons));
  }

  /** Clicking the same button twice in a row is clicking it once. */
  lemma ClickIdempotent(classes: set<string>, button: Button)
    ensures Click(Click(classes, button), button) == Click(classes, button)
  {
  }

  // ---------------------------------------------------------------------------
  // The container element and its handlers

  /** The element with id `diagram`; `state` is the viewer state its class list encodes. */
  class DiagramElement {
    var classList: set<string>
    ghost var state: ViewState

    ghost predicate Valid()
      reads this
    {
      classList == Classes(state)
    }

    /** The element as the page creates it, from its `class` attribute. */
    constructor ()
      ensures Valid() && state == INITIAL_STATE
      ensures classList == ClassTokens(CONTAINER_CLASS_ATTRIBUTE)
    {
      classList := ClassTokens(CONTAINER_CLASS_ATTRIBUTE);
      state := INITIAL_STATE;
      InitialClassList();
    }

    method PauseClicked()
      requires Valid()
      modifies this
      ensures Valid() && state == Step(old(state), PauseButton)
      ensures classList == Click(old(classList), PauseButton)
    {
      classList := classList + {PAUSED};
      state := state.(paused := true);
    }

    method PlayClicked()
      requires Valid()
      modifies this
      ensures Valid() && state == Step(old(state), PlayButton)
      ensures classList == Click(old(classList), PlayButton)
    {
      classList := classList - {PAUSED};
      state := state.(paused := false);
    }

    method SpeedNormalClicked()
      requires Valid()
      modifies this
      ensures Valid() && state == Step(old(state), SpeedButton(Normal))
      ensures classList == Click(old(classList), SpeedButton(Normal))
    {
      classList := classList - {SpeedClass(Slow), SpeedClass(Fast)};
      classList := classList + {SpeedClass(Normal)};
      state := state.(speed := Some(Normal));
    }

    method SpeedSlowClicked()
      requires Valid()
      modifies this
      ensures Valid() && state == Step(old(state), SpeedButton(Slow))
      ensures classList == Click(old(classList), SpeedButton(Slow))
    {
      classList := classList - {SpeedClass(Normal), SpeedClass(Fast)};
      classList := classList + {SpeedClass(Slow)};
      state := state.(speed := Some(Slow));
    }

    method SpeedFastClicked()
      requires Valid()
      modifies this
      ensures Valid() && state == Step(old(state), SpeedButton(Fast))
      ensures classList == Click(old(classList), SpeedButton(Fast))
    {
      classList := classList - {SpeedClass(Normal), SpeedClass(Slow)};
      classList := classList + {SpeedClass(Fast)};
      state := state.(speed := Some(Fast));
    }

    method ThemeDefaultClicked()
      requires Valid()
      modifies this
      ensures Valid() && state == Step(old(state), ThemeButton(Default))
      ensures classList == Click(old(classList), ThemeButton(Default))
    {
      classList := classList - {ThemeClass(Neon), ThemeClass(Pastel)};
      classList := classList + {ThemeClass(Default)};
      state := state.(theme := Default);
    }

    method ThemeNeonClicked()
      requires Valid()
      modifies this
      ensures Valid() && state == Step(old(state), ThemeButton(Neon))
      ensures classList == Click(old(classList), ThemeButton(Neon))
    {
      classList := classList - {ThemeClass(Default), ThemeClass(Pastel)};
      classList := classList + {ThemeClass(Neon)};
      state := state.(theme := Neon);
    }

    method ThemePastelClicked()
      requires Valid()
      modifies this
      ensures Valid() && state == Step(old(state), ThemeButton(Pastel))
      ensures classList == Click(old(classList), ThemeButton(Pastel))
    {
      classList := classList - {ThemeClass(Default), ThemeClass(Neon)};
      classList := classList + {ThemeClass(Pastel)};
      state := state.(theme := Pastel);
    }
  }
}
