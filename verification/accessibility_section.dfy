/** The accessibility section of the home page: its own font size and
    contrast flag, kept in component state only (nothing is persisted), with
    the font-size buttons disabled at the ends of the range. */
module AccessibilitySection {
  import opened Accessibility

  datatype Section = Section(fontSize: int, highContrast: bool)

  const InitialSection := Section(DefaultFontSize, false)

  /** adjustFontSize: the same clamped step as the hook, on the size only. */
  function AdjustFontSize(s: Section, increase: bool): (r: Section)
    ensures r.highContrast == s.highContrast
    ensures r.fontSize == StepSize(s.fontSize, increase)
  {
    s.(fontSize := StepSize(s.fontSize, increase))
  }

  /** toggleHighContrast: flips the flag; the root class is added when the
      old flag was off and removed when it was on. */
  function ToggleHighContrast(s: Section): (r: SectionToggled)
    ensures r.section.highContrast != s.highContrast
    ensures r.section.fontSize == s.fontSize
    ensures r.change == AddClass <==> r.section.highContrast
  {
    SectionToggled(s.(highContrast := !s.highContrast), if !s.highContrast then AddClass else RemoveClass)
  }

  datatype SectionToggled = SectionToggled(section: Section, change: ClassChange)

  /** The "A-" button is disabled at or below 80. */
  predicate DecreaseDisabled(s: Section)
  {
    s.fontSize <= MinFontSize
  }

  /** The "A+" button is disabled at or above 150. */
  predicate IncreaseDisabled(s: Section)
  {
    s.fontSize >= MaxFontSize
  }

  /** Applies a sequence of presses, `true` for increase, in order. */
  function PressAll(s: Section, presses: seq<bool>): Section
    decreases |presses|
  {
    if |presses| == 0 then s else PressAll(AdjustFontSize(s, presses[0]), presses[1..])
  }

  // ---------------------------------------------------------------------------
  // Lemmas

  /** Within the range, a button is disabled exactly when pressing it would
      change nothing. */
  lemma DisabledExactlyWhenNoOp(s: Section)
    requires MinFontSize <= s.fontSize <= MaxFontSize
    ensures DecreaseDisabled(s) <==> AdjustFontSize(s, false) == s
    ensures IncreaseDisabled(s) <==> AdjustFontSize(s, true) == s
  {
  }

  /** From the initial section, any sequence of presses keeps the size a
      multiple of ten within [80, 150], and never touches the flag. */
  lemma {:induction false} PressAllInvariant(s: Section, presses: seq<bool>)
    requires MinFontSize <= s.fontSize <= MaxFontSize && s.fontSize % FontStep == 0
    ensures var t := PressAll(s, presses);
      && MinFontSize <= t.fontSize <= MaxFontSize
      && t.fontSize % FontStep == 0
      && t.highContrast == s.highContrast
    decreases |presses|
  {
    if |presses| > 0 {
      PressAllInvariant(AdjustFontSize(s, presses[0]), presses[1..]);
    }
  }

  /** The section and the hook compute the same sizes for the same presses. */
  lemma {:induction false} SameClampAsHook(s: Section, presses: seq<bool>)
    ensures Num(PressAll(s, presses).fontSize) == AdjustAll(Num(s.fontSize), presses)
    decreases |presses|
  {
    if |presses| > 0 {
      SameClampAsHook(AdjustFontSize(s, presses[0]), presses[1..]);
    }
  }

  /** Toggling twice gives back the section, and the two class changes undo each other. */
  lemma ToggleTwice(s: Section)
    ensures var once := ToggleHighContrast(s);
      var twice := ToggleHighContrast(once.section);
      twice.section == s && once.change != twice.change
  {
  }
}
