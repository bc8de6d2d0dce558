/** The page header's accessibility button: Tab (without Shift) switches it
    between high-contrast mode and audio-description mode; a click either
    describes the page or toggles high contrast. */
module Header {
  import opened Accessibility

  datatype HeaderState = HeaderState(highContrast: bool, audioMode: bool)

  const InitialHeader := HeaderState(false, false)

  /** handleKeyDown: Tab without Shift flips audio mode; any other key,
      including Shift+Tab, is ignored. */
  function KeyDown(h: HeaderState, key: string, shift: bool): (r: HeaderState)
    ensures r.highContrast == h.highContrast
    ensures r.audioMode != h.audioMode <==> key == "Tab" && !shift
  {
    if key == "Tab" && !shift then h.(audioMode := !h.audioMode) else h
  }

  /** What a click does besides changing the state. */
  datatype ClickEffect = DescribePage | ContrastToggled(change: ClassChange)

  datatype Clicked = Clicked(header: HeaderState, effect: ClickEffect)

  /** handleButtonClick: in audio mode, start the description; otherwise
      toggleHighContrast, which adds the root class when turning it on and
      removes it when turning it off. */
  function Click(h: HeaderState): (r: Clicked)
    ensures h.audioMode ==> r.header == h && r.effect == DescribePage
    ensures !h.audioMode ==> r.header.audioMode == h.audioMode && r.header.highContrast != h.highContrast
    ensures !h.audioMode ==> r.effect == ContrastToggled(if r.header.highContrast then AddClass else RemoveClass)
  {
    if h.audioMode then Clicked(h, DescribePage)
    else Clicked(h.(highContrast := !h.highContrast), ContrastToggled(if !h.highContrast then AddClass else RemoveClass))
  }

  const DescribeLabel := "Audiodescrição da página"
  const DeactivateLabel := "Desativar alto contraste"
  const ActivateLabel := "Ativar alto contraste"

  /** The button's aria-label. */
  function Label(h: HeaderState): (r: string)
    ensures r == DescribeLabel <==> h.audioMode
    ensures r == DeactivateLabel <==> !h.audioMode && h.highContrast
    ensures r == ActivateLabel <==> !h.audioMode && !h.highContrast
  {
    if h.audioMode then DescribeLabel
    else if h.highContrast then DeactivateLabel
    else ActivateLabel
  }

  // ---------------------------------------------------------------------------
  // Lemmas

  /** The label announces what the next click will do. */
  lemma LabelDescribesClick(h: HeaderState)
    ensures Label(h) == DescribeLabel <==> Click(h).effect == DescribePage
    ensures Label(h) == ActivateLabel <==> Click(h).effect == ContrastToggled(AddClass)
    ensures Label(h) == DeactivateLabel <==> Click(h).effect == ContrastToggled(RemoveClass)
  {
  }

  /** Tab twice returns to the same mode; Shift+Tab and other keys change nothing. */
  lemma TabTwiceIsIdentity(h: HeaderState)
    ensures KeyDown(KeyDown(h, "Tab", false), "Tab", false) == h
    ensures KeyDown(h, "Tab", true) == h
  {
  }

  /** Clicks outside audio mode alternate the label between activate and
      deactivate; from the initial state the first click turns contrast on. */
  lemma ClickAlternatesLabel(h: HeaderState)
    requires !h.audioMode
    ensures Label(Click(h).header) != Label(h)
    ensures Label(Click(Click(h).header).header) == Label(h)
    ensures Click(InitialHeader).header.highContrast
  {
  }
}
