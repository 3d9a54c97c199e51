/** The Card component's press handling, as a pure step function over DOM
    events that returns the new `isPressed` state and the press callbacks it
    invokes, plus the `role`/`tabIndex` derivation and CardImage's choice of
    rounding class and alt text. */
module Card {
  import opened Wrappers

  // ---------------------------------------------------------------------------
  // Press state machine
  // ---------------------------------------------------------------------------

  /** The DOM events Card listens to. */
  datatype Event =
    | KeyDown(key: string)
    | KeyUp(key: string)
    | MouseDown
    | MouseUp
    | MouseLeave
    | Click

  /** One invocation of a press callback supplied by the caller. */
  datatype Callback = PressStart | PressChange(pressed: bool) | Press | PressEnd | PressUp

  /** Which of the optional callbacks the caller supplied. */
  datatype Handlers = Handlers(
    onPress: bool,
    onPressStart: bool,
    onPressEnd: bool,
    onPressChange: bool,
    onPressUp: bool)

  /** The props that decide press handling. With `asChild` the card renders
      as a `React.Fragment`, which takes no DOM attributes or listeners. */
  datatype CardConfig = CardConfig(asChild: bool, isClickable: bool, isDisabled: bool, handlers: Handlers)

  /** The handlers reach the DOM: the card is clickable and renders an `article`. */
  predicate Attached(cfg: CardConfig) {
    cfg.isClickable && !cfg.asChild
  }

  /** The state after an event and the callbacks invoked, in order. */
  datatype Outcome = Outcome(pressed: bool, calls: seq<Callback>)

  /** `onX?.(...)`: the call happens only when the callback was supplied. */
  function Call(supplied: bool, c: Callback): seq<Callback> {
    if supplied then [c] else []
  }

  /** Enter and Space activate a card from the keyboard. */
  predicate IsActivationKey(key: string) {
    key == "Enter" || key == " "
  }

  /** The callbacks agree with the state they leave: a press start leaves the
      card pressed, a press end or up leaves it released, and a change
      announces the new state. */
  predicate Coherent(o: Outcome) {
    && (PressStart in o.calls ==> o.pressed)
    && (PressEnd in o.calls || PressUp in o.calls ==> !o.pressed)
    && (forall b :: PressChange(b) in o.calls ==> b == o.pressed)
  }

  function HandlePress(cfg: CardConfig, pressed: bool): (o: Outcome)
    ensures o.pressed == pressed
    ensures forall c :: c in o.calls ==> c == Press
  {
    if cfg.isDisabled then Outcome(pressed, [])
    else Outcome(pressed, Call(cfg.handlers.onPress, Press))
  }

  function HandleKeyDown(cfg: CardConfig, pressed: bool, key: string): (o: Outcome)
    ensures Coherent(o) && Press !in o.calls
  {
    if cfg.isDisabled then Outcome(pressed, [])
    else if IsActivationKey(key) then
      Outcome(true, Call(cfg.handlers.onPressStart, PressStart) + Call(cfg.handlers.onPressChange, PressChange(true)))
    else Outcome(pressed, [])
  }

  function HandleKeyUp(cfg: CardConfig, pressed: bool, key: string): (o: Outcome)
    ensures Coherent(o)
    ensures Press in o.calls ==> IsActivationKey(key)
  {
    if cfg.isDisabled then Outcome(pressed, [])
    else if IsActivationKey(key) then
      Outcome(false,
        HandlePress(cfg, pressed).calls
        + Call(cfg.handlers.onPressEnd, PressEnd)
        + Call(cfg.handlers.onPressChange, PressChange(false))
        + Call(cfg.handlers.onPressUp, PressUp))
    else Outcome(pressed, [])
  }

  function HandleMouseDown(cfg: CardConfig, pressed: bool): (o: Outcome)
    ensures Coherent(o) && Press !in o.calls
  {
    if cfg.isDisabled then Outcome(pressed, [])
    else Outcome(true, Call(cfg.handlers.onPressStart, PressStart) + Call(cfg.handlers.onPressChange, PressChange(true)))
  }

  function HandleMouseUp(cfg: CardConfig, pressed: bool): (o: Outcome)
    ensures Coherent(o) && Press !in o.calls
  {
    if cfg.isDisabled then Outcome(pressed, [])
    else Outcome(false,
      Call(cfg.handlers.onPressEnd, PressEnd)
      + Call(cfg.handlers.onPressChange, PressChange(false))
      + Call(cfg.handlers.onPressUp, PressUp))
  }

  function HandleMouseLeave(cfg: CardConfig, pressed: bool): (o: Outcome)
    ensures Coherent(o) && Press !in o.calls
  {
    if cfg.isDisabled then Outcome(pressed, [])
    else Outcome(false, Call(cfg.handlers.onPressChange, PressChange(false)))
  }

  /** One event: the handlers are attached only to a clickable card, and a
      Fragment (`asChild`) drops them. */
  function Step(cfg: CardConfig, pressed: bool, ev: Event): (o: Outcome)
    ensures !cfg.isClickable || cfg.asChild || cfg.isDisabled ==> o == Outcome(pressed, [])
    ensures Press in o.calls ==> ev.Click? || (ev.KeyUp? && IsActivationKey(ev.key))
    ensures Coherent(o)
  {
    if !Attached(cfg) then Outcome(pressed, [])
    else
      match ev
      case KeyDown(k) => HandleKeyDown(cfg, pressed, k)
      case KeyUp(k) => HandleKeyUp(cfg, pressed, k)
      case MouseDown => HandleMouseDown(cfg, pressed)
      case MouseUp => HandleMouseUp(cfg, pressed)
      case MouseLeave => HandleMouseLeave(cfg, pressed)
      case Click => HandlePress(cfg, pressed)
  }

  /** A trace of events from an initial state; the callbacks accumulate in order. */
  function Run(cfg: CardConfig, pressed: bool, events: seq<Event>): Outcome
    decreases |events|
  {
    if |events| == 0 then Outcome(pressed, [])
    else
      var first := Step(cfg, pressed, events[0]);
      var rest := Run(cfg, first.pressed, events[1..]);
      Outcome(rest.pressed, first.calls + rest.calls)
  }

  predicate Active(cfg: CardConfig) {
    Attached(cfg) && !cfg.isDisabled
  }

  /** Every callback supplied. */
  const AllHandlers := Handlers(true, true, true, true, true)

  /** Keydown of Enter or Space presses the card and announces it; any other key does nothing. */
  lemma KeyDownPresses(cfg: CardConfig, pressed: bool, key: string)
    requires Active(cfg) && cfg.handlers == AllHandlers
    ensures IsActivationKey(key) ==> Step(cfg, pressed, KeyDown(key)) == Outcome(true, [PressStart, PressChange(true)])
    ensures !IsActivationKey(key) ==> Step(cfg, pressed, KeyDown(key)) == Outcome(pressed, [])
  {
  }

  /** Keyup of Enter or Space releases the card with press, end, change and up, in that order. */
  lemma KeyUpReleases(cfg: CardConfig, pressed: bool, key: string)
    requires Active(cfg) && cfg.handlers == AllHandlers
    ensures IsActivationKey(key) ==> Step(cfg, pressed, KeyUp(key)) == Outcome(false, [Press, PressEnd, PressChange(false), PressUp])
    ensures !IsActivationKey(key) ==> Step(cfg, pressed, KeyUp(key)) == Outcome(pressed, [])
  {
  }

  /** Mousedown behaves like an Enter keydown, whatever the configuration. */
  lemma MouseDownLikeEnter(cfg: CardConfig, pressed: bool)
    ensures Step(cfg, pressed, MouseDown) == Step(cfg, pressed, KeyDown("Enter"))
  {
  }

  /** Mouseup is an Enter keyup without the press: on the mouse path only a click presses. */
  lemma MouseUpWithoutPress(cfg: CardConfig, pressed: bool)
    ensures Press !in Step(cfg, pressed, MouseUp).calls
    ensures Step(cfg, pressed, MouseUp).pressed == Step(cfg, pressed, KeyUp("Enter")).pressed
    ensures Active(cfg) ==>
      Step(cfg, pressed, KeyUp("Enter")).calls == Call(cfg.handlers.onPress, Press) + Step(cfg, pressed, MouseUp).calls
  {
  }

  /** Mouseleave releases the card and announces only the change. */
  lemma MouseLeaveReleases(cfg: CardConfig, pressed: bool)
    requires Active(cfg) && cfg.handlers == AllHandlers
    ensures Step(cfg, pressed, MouseLeave) == Outcome(false, [PressChange(false)])
  {
  }

  // ---------------------------------------------------------------------------
  // Traces
  // ---------------------------------------------------------------------------

  /** A disabled or non-clickable card, or one rendered as a Fragment, ignores every trace. */
  lemma {:induction false} InertRun(cfg: CardConfig, pressed: bool, events: seq<Event>)
    requires !Active(cfg)
    ensures Run(cfg, pressed, events) == Outcome(pressed, [])
    decreases |events|
  {
    if |events| > 0 {
      InertRun(cfg, pressed, events[1..]);
    }
  }

  /** The value of the last `onPressChange` call, if any. */
  function LastChange(calls: seq<Callback>): Option<bool> {
    if |calls| == 0 then None
    else if calls[|calls| - 1].PressChange? then Some(calls[|calls| - 1].pressed)
    else LastChange(calls[..|calls| - 1])
  }

  lemma {:induction false} LastChangeAppend(a: seq<Callback>, b: seq<Callback>)
    ensures LastChange(a + b) == if LastChange(b).Some? then LastChange(b) else LastChange(a)
  {
    if |b| > 0 {
      assert (a + b)[..|a + b| - 1] == a + b[..|b| - 1];
      LastChangeAppend(a, b[..|b| - 1]);
    } else {
      assert a + b == a;
    }
  }

  /** One step announces its new state through `onPressChange` whenever the state changes. */
  lemma StepAnnounces(cfg: CardConfig, pressed: bool, ev: Event)
    requires cfg.handlers.onPressChange
    ensures var o := Step(cfg, pressed, ev);
      o.pressed == (match LastChange(o.calls) case Some(b) => b case None => pressed)
  {
    var o := Step(cfg, pressed, ev);
    if Active(cfg) {
      var change := Call(cfg.handlers.onPressChange, PressChange(o.pressed));
      match ev
      case KeyDown(k) =>
        if IsActivationKey(k) {
          LastChangeAppend(Call(cfg.handlers.onPressStart, PressStart), change);
        }
      case KeyUp(k) =>
        if IsActivationKey(k) {
          var before := HandlePress(cfg, pressed).calls + Call(cfg.handlers.onPressEnd, PressEnd);
          LastChangeAppend(before + change, Call(cfg.handlers.onPressUp, PressUp));
          LastChangeAppend(before, change);
        }
      case MouseDown =>
        LastChangeAppend(Call(cfg.handlers.onPressStart, PressStart), change);
      case MouseUp =>
        LastChangeAppend(Call(cfg.handlers.onPressEnd, PressEnd) + change, Call(cfg.handlers.onPressUp, PressUp));
        LastChangeAppend(Call(cfg.handlers.onPressEnd, PressEnd), change);
      case MouseLeave =>
      case Click =>
    }
  }

  /** When `onPressChange` is supplied, the card's pressed state after any
      trace is the value of the last `onPressChange` call, or the initial
      state if there was none: the listener never misses a change. */
  lemma {:induction false} PressedMatchesLastChange(cfg: CardConfig, pressed: bool, events: seq<Event>)
    requires cfg.handlers.onPressChange
    ensures var o := Run(cfg, pressed, events);
      o.pressed == (match LastChange(o.calls) case Some(b) => b case None => pressed)
    decreases |events|
  {
    if |events| > 0 {
      var first := Step(cfg, pressed, events[0]);
      var rest := Run(cfg, first.pressed, events[1..]);
      StepAnnounces(cfg, pressed, events[0]);
      PressedMatchesLastChange(cfg, first.pressed, events[1..]);
      LastChangeAppend(first.calls, rest.calls);
    }
  }

  /** Number of `onPress` calls in a list of callbacks. */
  function PressCount(calls: seq<Callback>): nat {
    if |calls| == 0 then 0 else (if calls[0] == Press then 1 else 0) + PressCount(calls[1..])
  }

  /** Number of events that press a card: clicks and Enter/Space keyups. */
  function Activations(events: seq<Event>): nat {
    if |events| == 0 then 0
    else
      (if events[0].Click? || (events[0].KeyUp? && IsActivationKey(events[0].key)) then 1 else 0)
      + Activations(events[1..])
  }

  lemma {:induction false} PressCountAppend(a: seq<Callback>, b: seq<Callback>)
    ensures PressCount(a + b) == PressCount(a) + PressCount(b)
  {
    if |a| > 0 {
      assert (a + b)[1..] == a[1..] + b;
      PressCountAppend(a[1..], b);
    } else {
      assert a + b == b;
    }
  }

  lemma {:induction false} PressCountAbsent(calls: seq<Callback>)
    requires Press !in calls
    ensures PressCount(calls) == 0
  {
    if |calls| > 0 {
      assert calls[0] in calls;
      assert forall c :: c in calls[1..] ==> c in calls;
      PressCountAbsent(calls[1..]);
    }
  }

  lemma StepPressCount(cfg: CardConfig, pressed: bool, ev: Event)
    requires Active(cfg) && cfg.handlers.onPress
    ensures PressCount(Step(cfg, pressed, ev).calls) ==
      if ev.Click? || (ev.KeyUp? && IsActivationKey(ev.key)) then 1 else 0
  {
    var h := cfg.handlers;
    var o := Step(cfg, pressed, ev);
    if ev.KeyUp? && IsActivationKey(ev.key) {
      var rest := Call(h.onPressEnd, PressEnd) + Call(h.onPressChange, PressChange(false)) + Call(h.onPressUp, PressUp);
      assert o.calls == [Press] + rest;
      PressCountAppend([Press], rest);
      PressCountAbsent(rest);
    } else if !ev.Click? {
      PressCountAbsent(o.calls);
    }
  }

  /** On an active card with `onPress` supplied, `onPress` fires once per
      click and once per Enter or Space keyup, and never otherwise. */
  lemma {:induction false} PressesCountActivations(cfg: CardConfig, pressed: bool, events: seq<Event>)
    requires Active(cfg) && cfg.handlers.onPress
    ensures PressCount(Run(cfg, pressed, events).calls) == Activations(events)
    decreases |events|
  {
    if |events| > 0 {
      var first := Step(cfg, pressed, events[0]);
      StepPressCount(cfg, pressed, events[0]);
      PressesCountActivations(cfg, first.pressed, events[1..]);
      PressCountAppend(first.calls, Run(cfg, first.pressed, events[1..]).calls);
    }
  }

  // ---------------------------------------------------------------------------
  // Role and tab order
  // ---------------------------------------------------------------------------

  /** The rendered `role`: "button" for a clickable card, absent otherwise,
      and never on a Fragment. */
  function Role(cfg: CardConfig): (r: Option<string>)
    ensures r.Some? <==> cfg.isClickable && !cfg.asChild
    ensures r.Some? ==> r.value == "button"
  {
    if cfg.asChild then None
    else if cfg.isClickable then Some("button") else None
  }

  /** The rendered `tabIndex`: 0 for a clickable card that is not disabled,
      absent otherwise, and never on a Fragment. */
  function TabIndex(cfg: CardConfig): (r: Option<int>)
    ensures r.Some? <==> cfg.isClickable && !cfg.isDisabled && !cfg.asChild
    ensures r.Some? ==> r.value == 0
  {
    if cfg.asChild then None
    else if cfg.isClickable && !cfg.isDisabled then Some(0) else None
  }

  /** An `asChild` card renders a Fragment: no role, no tab stop, and no
      event of any trace reaches a press callback, even when it is clickable. */
  lemma {:induction false} AsChildInert(cfg: CardConfig, pressed: bool, events: seq<Event>)
    requires cfg.asChild
    ensures Role(cfg) == None && TabIndex(cfg) == None
    ensures Run(cfg, pressed, events) == Outcome(pressed, [])
  {
    InertRun(cfg, pressed, events);
  }

  /** A card is in the tab order exactly when an Enter keydown presses it. */
  lemma FocusableIffKeyboardPresses(cfg: CardConfig)
    ensures TabIndex(cfg).Some? <==> Step(cfg, false, KeyDown("Enter")).pressed
  {
  }

  // ---------------------------------------------------------------------------
  // CardImage
  // ---------------------------------------------------------------------------

  datatype Radius = RadiusNone | RadiusSm | RadiusMd | RadiusLg

  function RadiusClass(radius: Radius): string {
    match radius
    case RadiusNone => "rounded-none"
    case RadiusSm => "rounded-sm"
    case RadiusMd => "rounded-md"
    case RadiusLg => "rounded-lg"
  }

  predicate IsRoundingClass(c: string) {
    c in {"rounded-none", "rounded-sm", "rounded-md", "rounded-lg"}
  }

  /** The rounding entries of the class object, in its key order, kept when their condition holds. */
  function RoundingClasses(radius: Radius, isCover: bool): (r: seq<string>)
    ensures |r| == 1 && IsRoundingClass(r[0])
    ensures isCover ==> r == ["rounded-none"]
    ensures !isCover ==> r == [RadiusClass(radius)]
  {
    (if radius == RadiusNone || isCover then ["rounded-none"] else [])
    + (if radius == RadiusSm && !isCover then ["rounded-sm"] else [])
    + (if radius == RadiusMd && !isCover then ["rounded-md"] else [])
    + (if radius == RadiusLg && !isCover then ["rounded-lg"] else [])
  }

  /** The image's classes before the caller's `className` is merged in. */
  function ImageClasses(radius: Radius, isZoomed: bool, isCover: bool): (r: seq<string>)
    ensures |set i | 0 <= i < |r| && IsRoundingClass(r[i])| == 1
    ensures isCover ==> "rounded-none" in r && "absolute inset-0 h-full" in r
    ensures "transition-transform duration-200 hover:scale-110" in r <==> isZoomed
  {
    var r := ["w-full object-cover"]
      + RoundingClasses(radius, isCover)
      + (if isZoomed then ["transition-transform duration-200 hover:scale-110"] else [])
      + (if isCover then ["absolute inset-0 h-full"] else []);
    assert (set i | 0 <= i < |r| && IsRoundingClass(r[i])) == {1} by {
      forall i | 0 <= i < |r| && IsRoundingClass(r[i]) ensures i == 1 {
      }
    }
    r
  }

  /** The attributes given to the `img` element. */
  datatype ImgProps = ImgProps(src: string, alt: string, ariaHidden: Option<bool>, classes: seq<string>)

  /** `imgProps`: a decorative image gets an empty alt and `aria-hidden`. */
  function CardImageProps(src: string, alt: string, isDecorative: bool, radius: Radius, isZoomed: bool, isCover: bool): (p: ImgProps)
    ensures isDecorative ==> p.alt == "" && p.ariaHidden == Some(true)
    ensures !isDecorative ==> p.alt == alt && p.ariaHidden.None?
    ensures p.src == src
  {
    ImgProps(src, if isDecorative then "" else alt, if isDecorative then Some(true) else None,
      ImageClasses(radius, isZoomed, isCover))
  }

  /** With `as="div"`, the wrapper is labelled with the alt unless the image is decorative. */
  function WrapperLabel(alt: string, isDecorative: bool): (ariaLabel: Option<string>)
    ensures ariaLabel.Some? <==> !isDecorative
    ensures ariaLabel.Some? ==> ariaLabel.value == alt
  {
    if isDecorative then None else Some(alt)
  }
}
