# Biolente: a Dafny model of the UI rules

Biolente is a React/TypeScript front end for exploring molecules in 3D, with
accessibility preferences, colour palettes for colour-blind users, lesson
plans with quizzes, and upload and contact forms. Rendering is handed to
3Dmol and three.js. What the application decides for itself is small and
sequential: a set of string, integer and sequence rules plus a few
preference state machines. This project models those rules as pure Dafny
functions over immutable datatypes and proves what they promise.

Modules follow the source files:

- `Palettes` is `src/hooks/useMoleculeColorPalettes.ts`. It covers:
  - the integer brightness shift `adjustBrightness`, with JavaScript's `parseInt`, 32-bit `>>`/`&`, clamping, and `toString(16).slice(1)`;
  - the six palette tables, the high-contrast table and the derived monochromatic scheme;
  - `getCurrentScheme`;
  - the palette / contrast / base-colour preferences, stored in and restored from localStorage.
- `Viewer` is `src/components/MoleculeViewer3D.tsx`. It covers the bond count, the molecular weight in integer thousandths, the distinct-element list, the choice of styling branch, and the guard and analysis record of `loadMolecule`.
- `Accessibility` is `src/hooks/useAccessibility.ts`. It covers the font size clamped to [80, 150] in steps of 10, the contrast flag, and their persistence. A size restored with `parseInt` may be `NaN`.
- `AccessibilitySection` is `src/components/AccessibilitySection.tsx`. It covers the page-local copy of the font controls and when their buttons are disabled.
- `Header` is `src/components/Header.tsx`. It covers the Tab-driven audio-description mode, the button click, and the button's aria-label.
- `Explorar`, `PlanoAulas` and `AulaDetalhes` are the catalogue search, the lesson filters and category list, and the quiz (answers, results flag, score, and lesson lookup).
- `Importar`, `Visualizar`, `Contribuir` and `Contato` are the upload classification and extension rules, the file-name derivations, and the form validation, submit, complete and reset steps of the four pages.
- Shared support modules:
  - `Wrappers` is `Option`.
  - `Storage` is localStorage as a map from keys to strings, with JavaScript truthiness.
  - `Seqs` holds order-preserving filter, subsequence, and `[...new Set(xs)]`.
  - `Text` models JavaScript's string and number built-ins. A Dafny `char` is a Unicode scalar value, which is one UTF-16 code unit throughout the Basic Multilingual Plane. It covers:
    - `toLowerCase`/`toUpperCase` on Latin-1, including the special cases `ß` → `SS`, `µ` → Greek capital mu and `ÿ` → `Ÿ`;
    - `includes`, `lastIndexOf`, `slice`, `split(c).pop()` and `replace`;
    - `Number.prototype.toString(radix)`;
    - `parseInt`, which skips leading white space and line terminators, then reads a sign, a `0x` prefix and the radix.

Each operation comes with a partner property. These are round trips (store
then restore, `toString` then `parseInt`, toggle twice, reset after upload),
preserved invariants (font size in range and a multiple of ten, store in
sync with state), or an independent characterisation (filter results as
the matching elements, each as often as in the input, the score as the size of the set of correct
indices).

Two behaviours of the source are modelled as written and stated as lemmas:

- The viewer page accepts a file when its extension is a *substring* of one of `.pdb`, `.sdf`, `.mol`, `.xyz`. So `file.db`, a name ending in `.`, and an undotted name like `x` are all accepted. The contribution page, by contrast, requires an exact match.
- `resetVisualization` does not cancel a pending processing step, so the molecule data reappears after a reset made while processing. The model has an explicit `FinishProcessing` step.

## Model

| member | source | states |
|---|---|---|
| Palettes.ParsePaletteId | src/hooks/useMoleculeColorPalettes.ts:124 | a stored string is recognised exactly when it is the id of one of the six palettes, and then as that palette |
| Palettes.ToInt32 | src/hooks/useMoleculeColorPalettes.ts:109-111 | the operand of `>>` and `&` is the 32-bit signed integer congruent to the input modulo 2^32 |
| Palettes.Clamp | src/hooks/useMoleculeColorPalettes.ts:113-115 | a channel sum is kept when in [0,255], becomes 0 below, 255 above |
| Palettes.Shift | src/hooks/useMoleculeColorPalettes.ts:108-115 | every shifted channel is in byte range |
| Palettes.AdjustBrightness | src/hooks/useMoleculeColorPalettes.ts:106-116 | the output is `#` plus six lowercase hex digits whose value is R·65536+G·256+B of the shifted, clamped channels |
| Palettes.UnpackPacked | src/hooks/useMoleculeColorPalettes.ts:109-115 | unpacking a packed byte triple with `>>16`, `>>8 & 0xFF`, `& 0xFF` gives back each channel |
| Palettes.ParseHexDigits | src/hooks/useMoleculeColorPalettes.ts:107 | for a `#RRGGBB` string, removing `#` and parsing in radix 16 gives the value of the six digits |
| Palettes.Channels | src/hooks/useMoleculeColorPalettes.ts:107-111 | the red channel `num >> 16` lies in the signed 16-bit range, green and blue are bytes, and a string `parseInt` cannot read (NaN, which `>>` and `&` treat as 0) gives black |
| Palettes.ChannelsOfHexColor | src/hooks/useMoleculeColorPalettes.ts:107-111 | a `#RRGGBB` colour decodes to its three hex byte pairs |
| Palettes.AdjustBrightnessChannels | src/hooks/useMoleculeColorPalettes.ts:106-116 | decoding the output gives exactly the input channels plus the offset, clamped to [0,255], for every input string |
| Palettes.AdjustBrightnessMonotone | src/hooks/useMoleculeColorPalettes.ts:108-115 | a larger offset never makes any output channel smaller |
| Palettes.AdjustBrightnessZeroIsIdentity | src/hooks/useMoleculeColorPalettes.ts:106-116 | shifting an output of the function by 0 reproduces it |
| Palettes.SameShiftSameOutput | src/hooks/useMoleculeColorPalettes.ts:113-115 | the output depends on the input only through the shifted channels |
| Palettes.MonochromaticSlots | src/hooks/useMoleculeColorPalettes.ts:46-56 | background is `#f8f9fa`, carbon is the base verbatim, the other slots decode to the base shifted by 204, 153, 102, 51, −51, −102, −153, which are 2.55·factor·100 for the listed factors |
| Palettes.MonochromaticScheme | src/hooks/useMoleculeColorPalettes.ts:46-56 | for any base, even one that is not a colour, the background is `#f8f9fa`, carbon is the base itself and the seven shaded slots are lowercase `#rrggbb` colours |
| Palettes.MonochromaticShadesOrdered | src/hooks/useMoleculeColorPalettes.ts:49-55 | the shades go channel-wise from lightest (hydrogen) to darkest (other) |
| Palettes.MonochromaticWellFormed | src/hooks/useMoleculeColorPalettes.ts:46-56 | a `#RRGGBB` base gives a scheme whose nine slots are all `#RRGGBB` colours |
| Palettes.CpkWellFormed | src/hooks/useMoleculeColorPalettes.ts:24-34 | every slot of the CPK table is a `#RRGGBB` colour |
| Palettes.RainbowWellFormed | src/hooks/useMoleculeColorPalettes.ts:35-45 | every slot of the rainbow table is a `#RRGGBB` colour |
| Palettes.ProtanopiaWellFormed | src/hooks/useMoleculeColorPalettes.ts:57-67 | every slot of the protanopia table is a `#RRGGBB` colour |
| Palettes.DeuteranopiaWellFormed | src/hooks/useMoleculeColorPalettes.ts:68-78 | every slot of the deuteranopia table is a `#RRGGBB` colour |
| Palettes.TritanopiaWellFormed | src/hooks/useMoleculeColorPalettes.ts:79-89 | every slot of the tritanopia table is a `#RRGGBB` colour |
| Palettes.HighContrastWellFormed | src/hooks/useMoleculeColorPalettes.ts:93-103 | every slot of the high-contrast table is a `#RRGGBB` colour |
| Palettes.CurrentSchemeWellFormed | src/hooks/useMoleculeColorPalettes.ts:177-179 | the scheme in effect always has nine `#RRGGBB` slots when the base is a colour |
| Palettes.CurrentScheme | src/hooks/useMoleculeColorPalettes.ts:177-179 | with high contrast on, the scheme is the high-contrast table; otherwise monochromatic has the chosen base as carbon on the fixed background |
| Palettes.ProtanopiaIsDeuteranopia | src/hooks/useMoleculeColorPalettes.ts:57-78 | the protanopia and deuteranopia tables are slot-for-slot identical |
| Palettes.FixedPalettesIgnoreBase | src/hooks/useMoleculeColorPalettes.ts:23-90 | every palette but monochromatic is independent of the base colour |
| Palettes.ChangePalette | src/hooks/useMoleculeColorPalettes.ts:161-164 | sets the palette, keeps the flag and base, stores the palette id, and leaves other keys alone |
| Palettes.ToggleHighContrast | src/hooks/useMoleculeColorPalettes.ts:166-170 | flips only the flag, stores `"true"`/`"false"`, and leaves other keys alone |
| Palettes.ChangeMonochromaticBase | src/hooks/useMoleculeColorPalettes.ts:172-175 | sets the base unchecked, keeps the rest, stores the colour, and leaves other keys alone |
| Palettes.RestoreHighContrastOnlyFromTrue | src/hooks/useMoleculeColorPalettes.ts:128-130 | high contrast is restored iff the stored string is exactly `"true"` |
| Palettes.Restore | src/hooks/useMoleculeColorPalettes.ts:119-135 | a stored palette id is adopted and anything else leaves `cpk`; high contrast is on iff the stored string is `"true"`; a truthy stored base is adopted verbatim, a missing or empty one leaves the default |
| Palettes.RestoreIgnoresUnknownPalette | src/hooks/useMoleculeColorPalettes.ts:124-126 | a stored value that is not a palette id leaves the default `cpk` |
| Palettes.FreshSessionSynced | src/hooks/useMoleculeColorPalettes.ts:18-20 | with an empty store the restored preferences are the initial ones |
| Palettes.ChangePaletteSurvivesReload | src/hooks/useMoleculeColorPalettes.ts:119-126 | `changePalette(p)` followed by a restore yields `p` |
| Palettes.OperationsKeepSync | src/hooks/useMoleculeColorPalettes.ts:161-175 | all three operations keep the store in sync with the state; the base only when it is non-empty |
| Palettes.EmptyBaseNotRestored | src/hooks/useMoleculeColorPalettes.ts:132-134 | an empty stored base is falsy, so the default base comes back after a reload |
| Palettes.HighContrastOverridesPalette | src/hooks/useMoleculeColorPalettes.ts:177-179 | with high contrast on, the scheme is the high-contrast table whatever the palette and base |
| Palettes.ToggleTwiceRestoresScheme | src/hooks/useMoleculeColorPalettes.ts:166-170 | toggling twice restores the preferences and hence the scheme |
| Palettes.ProtanopiaContrastRoundTrip | src/hooks/useMoleculeColorPalettes.ts:177-179 | protanopia then contrast on gives the high-contrast table; contrast off gives the protanopia table back |
| Viewer.CountBonds | src/components/MoleculeViewer3D.tsx:178-184 | the count is the floor of half the total bond-list length, with a missing list counting 0 |
| Viewer.MolecularWeight | src/components/MoleculeViewer3D.tsx:186-198 | the loop computes the sum of per-atom table weights |
| Viewer.TotalWeightAppend | src/components/MoleculeViewer3D.tsx:193-197 | weight is additive over concatenation of atom lists |
| Viewer.SingleAtomWeight | src/components/MoleculeViewer3D.tsx:187-196 | one atom weighs its table entry, read from `element` falling back to `elem` (oxygen 15.999) |
| Viewer.SymbolsContents | src/components/MoleculeViewer3D.tsx:204-207 | the scanned symbols are exactly the non-empty symbols of the atoms |
| Viewer.DistinctSymbolsContents | src/components/MoleculeViewer3D.tsx:202-208 | every listed element is a non-empty symbol of some atom, and every non-empty symbol is listed |
| Viewer.UniqueStep | src/components/MoleculeViewer3D.tsx:204-207 | one scan step appends a new non-empty symbol and otherwise changes nothing |
| Viewer.UniqueElements | src/components/MoleculeViewer3D.tsx:202-209 | the set-based loop yields the distinct non-empty symbols |
| Viewer.UniqueElementsOrder | src/components/MoleculeViewer3D.tsx:202-208 | the element list is in order of first appearance |
| Viewer.HighContrastStyleWins | src/components/MoleculeViewer3D.tsx:107-132 | with high contrast on the style is the same for every palette, colouring C/H/O/N/S/P from the high-contrast table and not halogens |
| Viewer.CpkStyleColors | src/components/MoleculeViewer3D.tsx:133-150 | `cpk` maps C/H/O/N/S/P to their slots and F/Cl/Br/I to halogen |
| Viewer.MonochromaticStyleIsUniform | src/components/MoleculeViewer3D.tsx:151-157 | monochromatic colours every atom with the scheme's carbon, which is the base |
| Viewer.OtherPalettesKeepDefaultColors | src/components/MoleculeViewer3D.tsx:158-164 | rainbow and the colour-blind palettes set no colour override |
| Viewer.StyleFor | src/components/MoleculeViewer3D.tsx:107-164 | the high-contrast branch is taken iff contrast is on, the CPK branch iff it is off and the palette is `cpk`, the uniform branch iff it is off and the palette is monochromatic, and the uniform colour is the base |
| Viewer.LoadMolecule | src/components/MoleculeViewer3D.tsx:68-102 | nothing happens without a viewer or content; otherwise the analysis reports the atom count, bonds, weight and elements |
| Accessibility.StepSize | src/hooks/useAccessibility.ts:25 | increase gives min(size+10, 150), decrease gives max(size−10, 80) |
| Accessibility.Adjust | src/hooks/useAccessibility.ts:25 | a NaN size stays NaN, a number is stepped |
| Accessibility.AdjustFontSize | src/hooks/useAccessibility.ts:24-29 | applies the step, keeps the flag, stores the new size's string, leaves other keys alone |
| Accessibility.ToggleHighContrast | src/hooks/useAccessibility.ts:31-42 | flips the flag, adds the class exactly when turning on, stores `"true"`/`"false"` |
| Accessibility.AdjustAllInRange | src/hooks/useAccessibility.ts:25 | from a size in [80,150], every sequence of presses stays in [80,150] |
| Accessibility.AdjustAllMultipleOfTen | src/hooks/useAccessibility.ts:4 | from a multiple of ten, every reachable size is a multiple of ten |
| Accessibility.ReachableFromDefault | src/hooks/useAccessibility.ts:4 | every size reachable from 100 is a multiple of ten in [80,150] |
| Accessibility.NaNIsAbsorbing | src/hooks/useAccessibility.ts:25 | once NaN, the size stays NaN whatever is pressed |
| Accessibility.BoundsAreNoOps | src/hooks/useAccessibility.ts:25 | a press changes nothing iff it is increase at 150 or decrease at 80; otherwise it moves one step from a multiple of ten |
| Accessibility.NumberStringRoundTrip | src/hooks/useAccessibility.ts:13 | `parseInt` of a number's `toString` gives the number back, and NaN for `"NaN"` |
| Accessibility.AdjustThenRestore | src/hooks/useAccessibility.ts:9-15 | after any adjustment, a reload restores exactly the new size |
| Accessibility.RestoreDoesNotClamp | src/hooks/useAccessibility.ts:12-14 | a stored size is adopted without clamping |
| Accessibility.RestoreGarbageIsNaN | src/hooks/useAccessibility.ts:13 | a stored size that does not start with digits restores as NaN |
| Accessibility.Restore | src/hooks/useAccessibility.ts:9-21 | with no truthy stored size the size stays 100; otherwise the size is NaN exactly when `parseInt` finds no number, and is that number when it does; high contrast is on iff the stored string is `"true"` |
| Accessibility.RestoreHighContrastOnlyFromTrue | src/hooks/useAccessibility.ts:18-21 | high contrast is restored iff the stored string is `"true"` |
| Accessibility.FreshSessionSynced | src/hooks/useAccessibility.ts:4-5 | with nothing stored, a reload gives the initial state |
| Accessibility.OperationsKeepSync | src/hooks/useAccessibility.ts:24-42 | both operations keep the store in sync with the state |
| Accessibility.ToggleTwiceIsIdentity | src/hooks/useAccessibility.ts:31-42 | toggling twice is the identity on the state |
| AccessibilitySection.AdjustFontSize | src/components/AccessibilitySection.tsx:20-24 | changes only the size, with the hook's clamp |
| AccessibilitySection.ToggleHighContrast | src/components/AccessibilitySection.tsx:26-33 | changes only the flag; the class is added exactly when the new state is on |
| AccessibilitySection.DisabledExactlyWhenNoOp | src/components/AccessibilitySection.tsx:109-119 | for a size in range, a button is disabled iff pressing it would change nothing |
| AccessibilitySection.PressAllInvariant | src/components/AccessibilitySection.tsx:17-21 | presses keep the size a multiple of ten in [80,150] and leave the flag alone |
| AccessibilitySection.SameClampAsHook | src/components/AccessibilitySection.tsx:21 | the page's presses compute the same sizes as the hook's |
| AccessibilitySection.ToggleTwice | src/components/AccessibilitySection.tsx:26-33 | toggling twice restores the section and alternates the class change |
| Header.KeyDown | src/components/Header.tsx:36-41 | audio mode flips iff the key is Tab without Shift; contrast never changes |
| Header.Click | src/components/Header.tsx:43-49 | in audio mode a click describes the page and changes nothing; otherwise it flips contrast only |
| Header.LabelDescribesClick | src/components/Header.tsx:68-74 | the label is the description text / activate / deactivate exactly when a click describes / turns on / turns off |
| Header.Label | src/components/Header.tsx:68-74 | the label is the description text iff audio mode is on, "deactivate" iff it is off with contrast on, and "activate" iff both are off |
| Header.TabTwiceIsIdentity | src/components/Header.tsx:36-41 | Tab twice restores the header; Shift+Tab does nothing |
| Header.ClickAlternatesLabel | src/components/Header.tsx:22-74 | outside audio mode each click changes the label and two clicks restore it; the first click from the start turns contrast on |
| Explorar.FilteredMolecules | src/pages/Explorar.tsx:87-94 | every shown molecule is in the catalogue and matches, and every matching one is shown |
| Explorar.MatchesSearch | src/pages/Explorar.tsx:88-89 | the empty query matches every molecule, and a molecule whose name or formula contains the query matches |
| Explorar.Matches | src/pages/Explorar.tsx:87-94 | a matching molecule matches the search, and with both selects at `"all"` matching is exactly matching the search |
| Explorar.FilteredMoleculesMultiplicity | src/pages/Explorar.tsx:86-94 | each matching molecule is shown as many times as the catalogue lists it, and no other molecule at all |
| Explorar.ShownIff | src/pages/Explorar.tsx:87-94 | a molecule is shown iff it is in the catalogue and matches search, type and function |
| Explorar.ResultIsSubsequence | src/pages/Explorar.tsx:87 | the result is an order-preserving subsequence, no longer than the catalogue |
| Explorar.InitialFiltersShowAll | src/pages/Explorar.tsx:22-24 | the initial empty query and `"all"` filters show the whole catalogue |
| Explorar.SearchIgnoresCase | src/pages/Explorar.tsx:88-89 | searching for the upper-cased query looks for the query's folded form; without `ß` or `µ` in the query, the query and its upper-cased form select the same molecules, and a name containing the query matches either way |
| Explorar.SharpSQueryIsCaseSensitive | src/pages/Explorar.tsx:88-89 | a molecule named `ß` matches the query `ß` but not `SS`, its upper-cased form |
| Explorar.NoResultsIff | src/pages/Explorar.tsx:267 | "no results" shows iff no molecule matches |
| Explorar.TypeFilterNarrows | src/pages/Explorar.tsx:90 | choosing a type in place of `"all"` only removes molecules |
| PlanoAulas.FilteredLessons | src/pages/PlanoAulas.tsx:69-78 | every listed lesson is in the list and matches, and every matching one is listed |
| PlanoAulas.MatchesAccess | src/pages/PlanoAulas.tsx:73-76 | the empty access value admits every lesson, `gratuito` exactly the free ones, `premium` exactly the premium ones, and any other value none |
| PlanoAulas.Matches | src/pages/PlanoAulas.tsx:69-78 | with no filters every lesson matches, and a matching lesson always passes the access filter |
| PlanoAulas.FilteredLessonsMultiplicity | src/pages/PlanoAulas.tsx:69-78 | each matching lesson is listed as many times as the list holds it, and no other lesson at all |
| PlanoAulas.Categories | src/pages/PlanoAulas.tsx:80 | the categories have no duplicates and are exactly the lessons' categories |
| PlanoAulas.ListedIff | src/pages/PlanoAulas.tsx:69-78 | a lesson is listed iff it is in the list and passes all three filters |
| PlanoAulas.ResultIsSubsequence | src/pages/PlanoAulas.tsx:69 | the result is an order-preserving subsequence |
| PlanoAulas.NoFiltersListAll | src/pages/PlanoAulas.tsx:65-67 | with all filters empty, every lesson is listed in order |
| PlanoAulas.UnknownAccessListsNothing | src/pages/PlanoAulas.tsx:73-76 | an access value other than empty, `gratuito` or `premium` lists nothing |
| PlanoAulas.AccessSelectsKind | src/pages/PlanoAulas.tsx:74-75 | `gratuito` lists only free lessons and `premium` only premium ones |
| PlanoAulas.AccessPartition | src/pages/PlanoAulas.tsx:73-76 | free and premium results together count as many as the unrestricted result |
| PlanoAulas.EveryCategoryListsSomething | src/pages/PlanoAulas.tsx:69-80 | filtering by any offered category lists at least one lesson |
| PlanoAulas.CategoriesInFirstAppearanceOrder | src/pages/PlanoAulas.tsx:80 | categories appear in first-appearance order |
| PlanoAulas.NoneFoundIff | src/pages/PlanoAulas.tsx:195 | "none found" shows iff no lesson matches |
| AulaDetalhes.FindLesson | src/pages/AulaDetalhes.tsx:130 | a found lesson is one of the map's lessons |
| AulaDetalhes.FindLessonByKey | src/pages/AulaDetalhes.tsx:130-132 | an id is found iff its number is a key; a non-numeric or missing id gives the not-found view |
| AulaDetalhes.FindLessonLenientIds | src/pages/AulaDetalhes.tsx:130-132 | the ids `007`, `0x1`, `1abc` and ` 1` reach the lessons keyed 7, 1, 1 and 1, as `parseInt` reads them |
| AulaDetalhes.RecordAnswer | src/pages/AulaDetalhes.tsx:146-148 | sets or overwrites only key k and leaves the results flag alone |
| AulaDetalhes.VerifyQuiz | src/pages/AulaDetalhes.tsx:150-152 | sets the results flag to true and keeps the answers |
| AulaDetalhes.VerifyQuizIdempotent | src/pages/AulaDetalhes.tsx:150-152 | verifying twice is verifying once |
| AulaDetalhes.Score | src/pages/AulaDetalhes.tsx:154-156 | the score is the number of indices whose recorded answer is the correct one, at most the number of questions |
| AulaDetalhes.CorrectIndicesStep | src/pages/AulaDetalhes.tsx:154-155 | extending the prefix by one question adds that index exactly when it is answered correctly |
| AulaDetalhes.UnansweredNeverCount | src/pages/AulaDetalhes.tsx:155 | an unanswered question is never correct; with no answers nothing is |
| AulaDetalhes.AllRightScoresAll | src/pages/AulaDetalhes.tsx:154-156 | all answers right scores the number of questions |
| AulaDetalhes.RecordRightAnswer | src/pages/AulaDetalhes.tsx:146-156 | recording the right answer makes that question count |
| AulaDetalhes.RecordWrongAnswer | src/pages/AulaDetalhes.tsx:146-156 | recording a wrong answer makes that question not count |
| Importar.Extension | src/pages/ImportarMolecula.tsx:132 | with a dot, the extension starts with the last `.` and has no other dot; with none it is at most the last character |
| Importar.Classify | src/pages/ImportarMolecula.tsx:132-147 | a file is molecular iff its extension is in the molecular list, and an image iff its extension is in the image list |
| Importar.Upload | src/pages/ImportarMolecula.tsx:127-149 | a molecular file is set without image or URL, an image is set with its URL, anything else changes nothing |
| Importar.Reset | src/pages/ImportarMolecula.tsx:151-167 | every setting returns to its initial value, the file and image flag are cleared, and animation is kept |
| Importar.ToggleAnimation | src/pages/ImportarMolecula.tsx:173-176 | flips only the animation flag and announces the old state's opposite |
| Importar.FormatsDisjoint | src/pages/ImportarMolecula.tsx:130-131 | the molecular and image extension lists are disjoint |
| Importar.NoDotRejected | src/pages/ImportarMolecula.tsx:132-147 | a name with no `.` is unsupported |
| Importar.ExtensionOfAppend | src/pages/ImportarMolecula.tsx:132 | a name ending in `.ext` has the lowercased `.ext` as extension |
| Importar.ListedExtensionReversible | src/pages/ImportarMolecula.tsx:130-131 | no listed extension holds `ß` or `µ`, so upper-casing one is undone by lower-casing |
| Importar.ListedExtensionAccepted | src/pages/ImportarMolecula.tsx:130-143 | any stem followed by a listed extension, in lower or upper case, is classified by that list |
| Importar.UnsupportedLeavesStateAlone | src/pages/ImportarMolecula.tsx:145-147 | an unsupported file leaves all state unchanged |
| Importar.ResetIdempotent | src/pages/ImportarMolecula.tsx:151-167 | resetting twice is resetting once |
| Importar.UploadThenResetIsInitial | src/pages/ImportarMolecula.tsx:113-167 | an upload followed by a reset returns to the initial page state |
| Importar.ToggleAnimationTwice | src/pages/ImportarMolecula.tsx:173-174 | toggling twice is the identity |
| Importar.HighContrastWins | src/pages/ImportarMolecula.tsx:43-45 | with high contrast the colour ignores mode and scheme |
| Importar.ColorBlindModesOverrideScheme | src/pages/ImportarMolecula.tsx:47-53 | protanopia and deuteranopia ignore the scheme |
| Importar.OtherModesFallThrough | src/pages/ImportarMolecula.tsx:55-64 | every other mode, tritanopia included, behaves like `none` |
| Importar.UnknownSchemeIsGrey | src/pages/ImportarMolecula.tsx:62-63 | an unknown scheme gives `#606060` |
| Importar.CarbonStandsOut | src/pages/ImportarMolecula.tsx:42-61 | outside the grey default, carbon's colour differs from every other element's |
| Importar.AtomColor | src/pages/ImportarMolecula.tsx:42-65 | every colour is `#` plus six characters, and the grey `#606060` comes out exactly when contrast is off, the mode is neither protanopia nor deuteranopia and the scheme is none of `cpk`, `element`, `rainbow` |
| Visualizar.FileExtension | src/pages/Visualizar.tsx:26 | the extension contains no `.` and is lowercase |
| Visualizar.ExtensionOfAppend | src/pages/Visualizar.tsx:26 | `stem.tail` with an undotted tail has the lowercased tail as extension |
| Visualizar.PlainExtensionOccurs | src/pages/Visualizar.tsx:15-27 | each of `pdb`, `sdf`, `mol`, `xyz` occurs in the format list |
| Visualizar.RealExtensionsAccepted | src/pages/Visualizar.tsx:26-27 | a name ending in one of the four extensions, in any case, is accepted |
| Visualizar.TailFragmentAccepted | src/pages/Visualizar.tsx:27 | `file.db` is accepted because `db` occurs in `.pdb` |
| Visualizar.EmptyExtensionAccepted | src/pages/Visualizar.tsx:26-27 | a name ending in `.` has an empty extension and is accepted |
| Visualizar.UndottedFragmentAccepted | src/pages/Visualizar.tsx:26-27 | the undotted name `x` is its own extension and is accepted |
| Visualizar.AcceptedExtensionIsShort | src/pages/Visualizar.tsx:15-27 | an accepted extension has at most four characters |
| Visualizar.IsSupported | src/pages/Visualizar.tsx:26-27 | a name whose extension is `pdb`, `sdf`, `mol` or `xyz` is accepted, and an accepted extension has at most four characters |
| Visualizar.DisplayName | src/pages/Visualizar.tsx:44 | the display name is a prefix of the file name |
| Visualizar.DisplayNameDropsExtension | src/pages/Visualizar.tsx:44 | a final `.ext` with no `.` or `/` in ext is removed |
| Visualizar.DisplayNameKeepsUndotted | src/pages/Visualizar.tsx:44 | a name with no dot, or ending in a dot, is kept whole |
| Visualizar.Upload | src/pages/Visualizar.tsx:22-39 | a rejected or missing file changes nothing; an accepted one is set and processing starts |
| Visualizar.FinishProcessing | src/pages/Visualizar.tsx:42-50 | the data gets the display name and the upper-cased extension, and processing ends |
| Visualizar.FormatRoundTrip | src/pages/Visualizar.tsx:26-45 | lowercasing the displayed format gives the extension's folded form, which is the extension itself when it holds no `ß` or `µ` |
| Visualizar.Reset | src/pages/Visualizar.tsx:74-80 | clears the file and the molecule data |
| Visualizar.UploadFinishReset | src/pages/Visualizar.tsx:22-80 | upload and processing show the data; a reset returns to the initial view |
| Visualizar.ResetDuringProcessingStillShowsData | src/pages/Visualizar.tsx:42-80 | a reset during processing is undone by the pending step, so data shows with no file |
| Contribuir.Set | src/pages/Contribuir.tsx:40-45 | the named field gets the value |
| Contribuir.SetChangesOnlyThatField | src/pages/Contribuir.tsx:40-45 | every other field keeps its value |
| Contribuir.MissingFields | src/pages/Contribuir.tsx:74-75 | exactly the empty required fields are reported |
| Contribuir.AllFilledWhenNoneMissing | src/pages/Contribuir.tsx:74-77 | no missing fields means all six required fields are non-empty |
| Contribuir.InstitutionOptional | src/pages/Contribuir.tsx:74 | the institution field never changes the submit outcome |
| Contribuir.Upload | src/pages/Contribuir.tsx:47-68 | an accepted file is set; a rejected or missing one leaves the state alone |
| Contribuir.RejectKeepsFile | src/pages/Contribuir.tsx:54-61 | a rejected file leaves the previous file in place |
| Contribuir.AcceptedHereAcceptedByView | src/pages/Contribuir.tsx:51-54 | every file accepted here is accepted by the viewer page |
| Contribuir.ViewAcceptsMore | src/pages/Contribuir.tsx:51-54 | `file.db` is accepted by the viewer page but rejected here |
| Contribuir.IsSupported | src/pages/Contribuir.tsx:51-54 | a file accepted here is accepted by the viewer page and has a three-letter extension |
| Contribuir.Submit | src/pages/Contribuir.tsx:70-95 | missing fields are reported first, then a missing file; only with both present does submission start |
| Contribuir.Complete | src/pages/Contribuir.tsx:98-100 | completion ends submitting and marks the form submitted |
| Contribuir.ContributeAnother | src/pages/Contribuir.tsx:149-160 | clears every field and the file and resets `submitted` |
| Contribuir.SubmitCompleteAnother | src/pages/Contribuir.tsx:70-160 | a complete form with a file submits, and completing then contributing another returns to the initial state |
| Contato.Set | src/pages/Contato.tsx:30-35 | the named field gets the value |
| Contato.SetChangesOnlyThatField | src/pages/Contato.tsx:30-35 | every other field keeps its value |
| Contato.MissingFields | src/pages/Contato.tsx:40-41 | exactly the empty fields are reported |
| Contato.EveryFieldRequired | src/pages/Contato.tsx:40-41 | nothing is missing iff all five fields are non-empty |
| Contato.FieldIndex | src/pages/Contato.tsx:40 | every field appears in the required list |
| Contato.Submit | src/pages/Contato.tsx:37-52 | submission starts iff every field is filled; otherwise nothing changes |
| Contato.IncompleteFormDoesNotSubmit | src/pages/Contato.tsx:43-50 | with an empty field, submitting stays false |
| Contato.Complete | src/pages/Contato.tsx:55-69 | completion ends submitting and empties every field |
| Contato.FillSubmitComplete | src/pages/Contato.tsx:37-70 | a filled form submits, and completion returns to the initial state |
| Seqs.Filter | src/pages/Explorar.tsx:86-87 | every element `filter` keeps is in the input and passes the test, and every passing element is kept |
| Seqs.FilterMultiset | src/pages/Explorar.tsx:86-87 | `filter` keeps each passing value as many times as the input holds it, and no failing value |
| Seqs.FilterAppend | src/pages/Explorar.tsx:86-87 | filtering a concatenation is concatenating the filtered parts |
| Seqs.FilterIsSubsequence | src/pages/Explorar.tsx:87 | a filter result is an order-preserving subsequence |
| Seqs.Distinct | src/pages/PlanoAulas.tsx:80 | `[...new Set(xs)]` has no duplicates and the same elements as `xs` |
| Seqs.DistinctFirstAppearanceOrder | src/pages/PlanoAulas.tsx:80 | `[...new Set(xs)]` lists the elements in order of first appearance |
| Text.LowerIdempotent | src/pages/Explorar.tsx:88 | lowercasing twice is lowercasing once |
| Text.LowerOfUpper | src/pages/Explorar.tsx:88 | lowercasing after uppercasing gives the folded string (`ß` → `ss`, `µ` → `μ`, otherwise the lower-case form); for strings without `ß` and `µ` that is the lower-cased string |
| Text.UpperAppend | src/pages/Visualizar.tsx:45 | `toUpperCase` distributes over concatenation |
| Text.SharpSIsNotReversible | src/pages/Explorar.tsx:88 | `ß` upper-cases to `SS`, which lower-cases to `ss`, not back to `ß` |
| Text.ContainsLower | src/pages/Explorar.tsx:88-89 | an occurrence of a substring survives lowercasing both strings |
| Text.LastIndexOf | src/pages/ImportarMolecula.tsx:132 | `lastIndexOf` gives −1 or a position holding the character with none after it |
| Text.SliceFrom | src/pages/ImportarMolecula.tsx:132 | `slice(start)` is the suffix of length len−start, of length −start for a negative start, and whole or empty beyond the ends |
| Text.LastSegment | src/pages/Visualizar.tsx:26 | `split(c).pop()` is the longest suffix without `c` |
| Text.RemoveFirst | src/hooks/useMoleculeColorPalettes.ts:107 | `replace` of a one-character string removes one character when present, else nothing |
| Text.NatToStringRoundTrip | src/hooks/useMoleculeColorPalettes.ts:115 | the digits written by `toString(radix)` have the value of the number |
| Text.NatToStringLength | src/hooks/useMoleculeColorPalettes.ts:113-115 | a number in [radix^k, radix^(k+1)) is written with k+1 digits |
| Text.DecimalRoundTrip | src/hooks/useAccessibility.ts:13-28 | `parseInt` of an integer's decimal `toString` gives the integer back |
| Text.ParseInt | src/hooks/useMoleculeColorPalettes.ts:107 | an explicit radix outside [2,36] makes `parseInt` NaN |
| Text.ParseIntNeedsDigit | src/hooks/useAccessibility.ts:13 | `parseInt` finds a number only in a string that holds a digit |
| Text.TrimStartRemovesWhiteSpace | src/pages/AulaDetalhes.tsx:130 | the first step of `parseInt` keeps a suffix not starting with white space and removes only white space |
| Text.ParseIntSkipsWhiteSpace | src/pages/AulaDetalhes.tsx:130 | any run of ECMAScript white space or line terminators in front of a string is ignored by `parseInt` |
| Text.ParseIntLeadingSpace | src/pages/AulaDetalhes.tsx:130 | `parseInt(" 1")`, `parseInt("\t1")` and `parseInt("\n1")` are 1 |
| Text.ParseIntMinus | src/hooks/useAccessibility.ts:13 | a minus sign in front of a string starting with neither sign nor white space negates the number read, and gives NaN exactly when the string does |
| Text.ParseIntLetters | src/pages/AulaDetalhes.tsx:130 | `parseInt("abc")` is NaN |
| Text.ParseIntLeadingZeros | src/pages/AulaDetalhes.tsx:130 | `parseInt("007")` is 7 |
| Text.ParseIntHexPrefix | src/pages/AulaDetalhes.tsx:130 | `parseInt("0x1")` is 1: with no radix, a `0x` prefix means hexadecimal |
| Text.ParseIntTrailingText | src/pages/AulaDetalhes.tsx:130 | `parseInt("1abc")` is 1: reading stops at the first non-digit |

## Left out

- Rendering through 3Dmol and three.js is left out, because these are foreign calls. This covers `createViewer`, `addModel`, `setStyle`, `setColorByElement`, `zoomTo`, `render`, `pngURI`, the canvas and meshes, and script loading. The chosen styling is a `Style` datatype, and `addModel` parsing is the `parsed` parameter of `LoadMolecule`.
- Floating-point arithmetic is left out:
  - `Math.round(2.55*factor*100)` is the integer offset table, whose values are exact.
  - `toFixed(2)` is dropped; weights are integer thousandths, e.g. O = 15999 and I = 126900.
  - The slider values of the import page are integer hundredths.
  - Zoom, opacity and `file.size/1024` displays are omitted.
- Viewer.MolecularWeight: returns the weight in thousandths rather than the string `toFixed(2)` produces, because that rounding is floating point.
- React plumbing is left out: hooks, effect scheduling and re-rendering. Each effect is an explicit function such as `Restore`, and each handler is a state transition.
- DOM writes are left out: CSS custom properties, root font-size style, focus, toasts and `console.log`. The `high-contrast` class of the document root is modelled only as the `ClassChange` each toggle reports. The class shared by `Header`, `AccessibilitySection` and `useAccessibility` is not modelled as one global.
- `setTimeout` completion is not modelled as timing. It appears as explicit steps: `Contribuir.Complete`, `Contato.Complete`, `Visualizar.FinishProcessing`.
- The random atom, bond and weight numbers of the viewer page's simulated analysis are nondeterministic and omitted.
- `URL.createObjectURL` is an argument (`url`) of `Importar.Upload`, and `revokeObjectURL` is omitted.
- A `File` is represented by its name alone.
- Text.ParseInt: integers are unbounded, so digit strings denoting magnitudes of 2^53 and above are read exactly, whereas JavaScript rounds them to the nearest double.
- AulaDetalhes.FindLesson: an id denoting an integer of magnitude 2^53 or above is looked up exactly, whereas JavaScript rounds the number and, from 10^21 on, converts it back to a key in exponent form; the rest of `parseInt` is modelled.
- Text.Upper: case mapping covers Latin-1 (with the `ß`, `µ` and `ÿ` special cases of `toUpperCase`) and the two capitals `Ÿ` and `Μ` that it produces; other Unicode case pairs and special casings are not mapped, because every string the pages case-map in practice is a file name, a molecule name or formula, or a search query in Portuguese.
- Text.Lower: likewise limited to the Latin-1 capitals plus `Ÿ` and `Μ`.
- Text.LowerOfUpper: proved for the case mapping above only; beyond Latin-1, JavaScript has further characters (such as the ligature `ﬀ`) whose upper-casing is not undone by lower-casing.
- Explorar.SearchIgnoresCase: the equivalence of a query and its upper-cased form is stated only for queries without `ß` and `µ`, because JavaScript's search is not case-blind for those (`Explorar.SharpSQueryIsCaseSensitive`); it rests on the Latin-1 case mapping above.
- Visualizar.FormatRoundTrip: the extension comes back exactly only when it holds no `ß` or `µ`, for the same reason; it rests on the Latin-1 case mapping above.
- Text.IntToString: integers are unbounded, whereas JavaScript's `toString` writes numbers of magnitude 10^21 and above in exponent form (`1e+21`), and doubles are exact only below 2^53.
- Text.DecimalRoundTrip: holds in JavaScript only for integers of magnitude below 2^53 (and below 10^21 for the written form), because of the `toString` and double precision limits above; the model proves it for all integers.
- Accessibility.NumberStringRoundTrip: the same limit applies; every size the page reaches from the default lies in [80, 150], far inside it.
- Accessibility.AdjustThenRestore: rests on `Accessibility.NumberStringRoundTrip`, so in JavaScript it holds for sizes of magnitude below 2^53, which include every size reached from the default.
- Accessibility.OperationsKeepSync: likewise rests on the round trip, so the same size limit applies.
- Contribuir.Set: field names outside the form's seven fields are not representable, because the page only passes its own field names.
- Contato.Set: likewise limited to the five contact fields.
- The fullscreen flag of the import page is carried unchanged; its dialog is presentational.
- The mock molecule, lesson and quiz catalogues are left out; the filters and the quiz are modelled over arbitrary sequences and maps.
- `ExportarMolecula`, `MoleculaDetalhes` and the purely presentational components are not part of this model.
- Palettes.OperationsKeepSync: stated only for a non-empty base colour, because an empty base is stored but not restored (`Palettes.EmptyBaseNotRestored`).
- Importar.UploadThenResetIsInitial: stated for a non-empty object URL, because the source clears the URL only when it is truthy.
