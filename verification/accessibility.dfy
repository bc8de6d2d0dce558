/** The `useAccessibility` hook: a font size (a percentage of the root font
    size) adjusted in steps of 10 within [80, 150], a high-contrast flag, and
    both persisted in localStorage and restored on mount. */
module Accessibility {
  import opened Wrappers
  import opened Text
  import opened Storage

  const MinFontSize := 80
  const MaxFontSize := 150
  const FontStep := 10
  const DefaultFontSize := 100

  const FontSizeKey := "biolente-font-size"
  /** The same key the colour-palette hook uses for its own contrast flag. */
  const HighContrastKey := "biolente-high-contrast"

  /** What the `high-contrast` class of the document root undergoes. */
  datatype ClassChange = AddClass | RemoveClass

  /** One press of a font-size control on an integer size:
      `Math.min(size + 10, 150)` or `Math.max(size - 10, 80)`. */
  function StepSize(size: int, increase: bool): (r: int)
    ensures increase ==> r <= MaxFontSize && r <= size + FontStep && (r == size + FontStep || r == MaxFontSize)
    ensures !increase ==> r >= MinFontSize && r >= size - FontStep && (r == size - FontStep || r == MinFontSize)
  {
    if increase then
      (if size + FontStep < MaxFontSize then size + FontStep else MaxFontSize)
    else
      (if size - FontStep > MinFontSize then size - FontStep else MinFontSize)
  }

  /** A JavaScript number as far as this hook can produce one: an integer, or
      NaN when the stored size does not start with digits. */
  datatype JsNumber = Num(n: int) | NaN

  /** adjustFontSize's arithmetic on a JavaScript number: NaN plus or minus
      10 is NaN, and Math.min/Math.max with a NaN argument are NaN. */
  function Adjust(size: JsNumber, increase: bool): (r: JsNumber)
    ensures r.NaN? <==> size.NaN?
    ensures size.Num? ==> r == Num(StepSize(size.n, increase))
  {
    match size
    case NaN => NaN
    case Num(n) => Num(StepSize(n, increase))
  }

  /** Number.prototype.toString() of the new size. */
  function NumberString(x: JsNumber): string
  {
    match x
    case NaN => "NaN"
    case Num(n) => IntToString(n, 10)
  }

  datatype State = State(fontSize: JsNumber, highContrast: bool)

  /** The hook's state together with localStorage. */
  datatype Session = Session(state: State, store: Store)

  /** The session after a toggle, and what happened to the root class. */
  datatype Toggled = Toggled(session: Session, change: ClassChange)

  const InitialState := State(Num(DefaultFontSize), false)

  /** adjustFontSize: applies one press and stores the new size as a string. */
  function AdjustFontSize(s: Session, increase: bool): (r: Session)
    ensures r.state.fontSize == Adjust(s.state.fontSize, increase)
    ensures r.state.highContrast == s.state.highContrast
    ensures Get(r.store, FontSizeKey) == Some(NumberString(r.state.fontSize))
    ensures forall k :: k != FontSizeKey ==> Get(r.store, k) == Get(s.store, k)
  {
    var size := Adjust(s.state.fontSize, increase);
    Session(s.state.(fontSize := size), s.store[FontSizeKey := NumberString(size)])
  }

  /** toggleHighContrast: flips the flag, adds or removes the root class to
      match, and stores "true" or "false". */
  function ToggleHighContrast(s: Session): (r: Toggled)
    ensures r.session.state.highContrast != s.state.highContrast
    ensures r.session.state.fontSize == s.state.fontSize
    ensures r.change == AddClass <==> r.session.state.highContrast
    ensures Get(r.session.store, HighContrastKey) == Some(if r.session.state.highContrast then "true" else "false")
    ensures forall k :: k != HighContrastKey ==> Get(r.session.store, k) == Get(s.store, k)
  {
    var on := !s.state.highContrast;
    Toggled(Session(s.state.(highContrast := on), s.store[HighContrastKey := BoolString(on)]),
            if on then AddClass else RemoveClass)
  }

  /** The mount effect: starting from the initial state, a truthy stored size
      is read with parseInt (no radix) and adopted unclamped, possibly as NaN;
      high contrast comes on only for the exact string "true". */
  function Restore(store: Store): (r: State)
    ensures !Truthy(Get(store, FontSizeKey)) ==> r.fontSize == InitialState.fontSize
    ensures Truthy(Get(store, FontSizeKey)) ==>
      (r.fontSize.NaN? <==> ParseInt(Get(store, FontSizeKey).value, 0).None?) &&
      (r.fontSize.Num? ==> ParseInt(Get(store, FontSizeKey).value, 0) == Some(r.fontSize.n))
    ensures r.highContrast <==> Get(store, HighContrastKey) == Some("true")
  {
    var savedFontSize := Get(store, FontSizeKey);
    var savedHighContrast := Get(store, HighContrastKey);
    var fontSize :=
      if Truthy(savedFontSize) then
        match ParseInt(savedFontSize.value, 0)
        case None => NaN
        case Some(v) => Num(v)
      else InitialState.fontSize;
    var highContrast := if savedHighContrast == Some("true") then true else InitialState.highContrast;
    State(fontSize, highContrast)
  }

  /** Reloading the page now would give back the current state. */
  predicate Synced(s: Session)
  {
    Restore(s.store) == s.state
  }

  /** Applies a sequence of presses, `true` for increase, in order. */
  function AdjustAll(size: JsNumber, presses: seq<bool>): JsNumber
    decreases |presses|
  {
    if |presses| == 0 then size else AdjustAll(Adjust(size, presses[0]), presses[1..])
  }

  predicate InRange(x: JsNumber)
  {
    x.Num? && MinFontSize <= x.n <= MaxFontSize
  }

  // ---------------------------------------------------------------------------
  // Lemmas

  /** From a size in range, any sequence of presses stays in range. */
  lemma {:induction false} AdjustAllInRange(size: JsNumber, presses: seq<bool>)
    requires InRange(size)
    ensures InRange(AdjustAll(size, presses))
    decreases |presses|
  {
    if |presses| > 0 {
      AdjustAllInRange(Adjust(size, presses[0]), presses[1..]);
    }
  }

  /** From a multiple of ten, every reachable size is a multiple of ten; in
      particular from the default 100. */
  lemma {:induction false} AdjustAllMultipleOfTen(size: JsNumber, presses: seq<bool>)
    requires size.Num? && size.n % FontStep == 0
    ensures AdjustAll(size, presses).Num? && AdjustAll(size, presses).n % FontStep == 0
    decreases |presses|
  {
    if |presses| > 0 {
      AdjustAllMultipleOfTen(Adjust(size, presses[0]), presses[1..]);
    }
  }

  /** The sizes reachable from the default are the multiples of ten in [80, 150]. */
  lemma ReachableFromDefault(presses: seq<bool>)
    ensures var x := AdjustAll(InitialState.fontSize, presses);
      InRange(x) && x.n % FontStep == 0
  {
    AdjustAllInRange(InitialState.fontSize, presses);
    AdjustAllMultipleOfTen(InitialState.fontSize, presses);
  }

  /** A size that has become NaN stays NaN whatever is pressed. */
  lemma {:induction false} NaNIsAbsorbing(presses: seq<bool>)
    ensures AdjustAll(NaN, presses) == NaN
  {
    if |presses| > 0 {
      NaNIsAbsorbing(presses[1..]);
    }
  }

  /** Increasing at the maximum and decreasing at the minimum change nothing;
      on a multiple of ten every other press moves by exactly one step. */
  lemma BoundsAreNoOps(n: int, increase: bool)
    requires MinFontSize <= n <= MaxFontSize
    ensures StepSize(n, increase) == n <==> (increase && n == MaxFontSize) || (!increase && n == MinFontSize)
    ensures n % FontStep == 0 && StepSize(n, increase) != n ==>
      StepSize(n, increase) == if increase then n + FontStep else n - FontStep
  {
  }

  /** A number written with toString is read back by parseInt: a digit
      string gives the same integer, "NaN" gives NaN. */
  lemma NumberStringRoundTrip(x: JsNumber)
    ensures NumberString(x) != ""
    ensures ParseInt(NumberString(x), 0) == if x.NaN? then None else Some(x.n)
  {
    match x
    case NaN =>
      assert DigitValue('N') == 23;
      assert RadixAndDigits("NaN", 0) == (10, "NaN");
      assert DigitPrefixLength("NaN", 10) == 0;
    case Num(n) =>
      DecimalRoundTrip(n);
      if n < 0 {
        assert |NatToString(-n, 10)| >= 1;
      } else {
        assert |NatToString(n, 10)| >= 1;
      }
  }

  /** Each adjustment stores what a reload reads back as the new size. */
  lemma AdjustThenRestore(s: Session, increase: bool)
    ensures Restore(AdjustFontSize(s, increase).store).fontSize == AdjustFontSize(s, increase).state.fontSize
  {
    NumberStringRoundTrip(Adjust(s.state.fontSize, increase));
  }

  /** A stored size is adopted as written, without clamping to [80, 150]. */
  lemma RestoreDoesNotClamp(store: Store, n: int)
    requires Get(store, FontSizeKey) == Some(IntToString(n, 10))
    ensures Restore(store).fontSize == Num(n)
  {
    NumberStringRoundTrip(Num(n));
  }

  /** A stored size that does not start with digits restores as NaN. */
  lemma RestoreGarbageIsNaN(store: Store)
    requires Get(store, FontSizeKey) == Some("abc")
    ensures Restore(store).fontSize == NaN
  {
    assert DigitValue('a') == 10;
    assert DigitPrefixLength("abc", 10) == 0;
  }

  /** High contrast comes back on exactly when the stored string is "true". */
  lemma RestoreHighContrastOnlyFromTrue(store: Store)
    ensures Restore(store).highContrast <==> Get(store, HighContrastKey) == Some("true")
  {
  }

  /** A fresh page with nothing stored is in sync with the initial state. */
  lemma FreshSessionSynced()
    ensures Synced(Session(InitialState, map[]))
  {
  }

  /** Both operations keep the store in sync with the state. */
  lemma OperationsKeepSync(s: Session, increase: bool)
    requires Synced(s)
    ensures Synced(AdjustFontSize(s, increase))
    ensures Synced(ToggleHighContrast(s).session)
  {
    AdjustThenRestore(s, increase);
    var a := AdjustFontSize(s, increase);
    assert Get(a.store, HighContrastKey) == Get(s.store, HighContrastKey);
    var b := ToggleHighContrast(s).session;
    assert Get(b.store, FontSizeKey) == Get(s.store, FontSizeKey);
  }

  /** Toggling twice gives back the state and the stored flag's meaning. */
  lemma ToggleTwiceIsIdentity(s: Session)
    ensures ToggleHighContrast(ToggleHighContrast(s).session).session.state == s.state
  {
  }
}
