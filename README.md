# Section navigation of the Cursor Reset Tool documentation page

The documentation site is one React page, `Home` in `src/app/page.tsx`. This
project models the page's only stateful logic. It also models two small pure
expressions that sit beside that logic.

- **Navigation controller.** The page keeps `activeSection` (initially `""`)
  and `mobileMenuOpen` (initially `false`). It has four operations:
  - the scroll handler, which highlights the section under the point
    `scrollY + 150`;
  - `scrollToSection`, which scrolls to `offsetTop - 100`, closes the menu and
    pushes `#id` onto the browser history;
  - the hash handler, which strips the first `#` from the fragment and sets a
    100 ms timer that scrolls to the named section;
  - `scrollToTop`.

  The menu button negates `mobileMenuOpen`.
- **Theme button.** It asks for `light` when the resolved theme is `dark`, and
  for `dark` otherwise.
- **Download name of a code block.** It is the lower-cased title with each
  whitespace run replaced by `-`, then `.sh` for `bash` or `.<language>` for
  any other language. The defaults are `Terminal` and `bash`.

The model has these modules:

- `Layout` (`layout.dfy`). The rendered document is a sequence of
  `Section(id, top, height)` values in document order, read as
  `offsetTop`/`offsetHeight`. `GetElementById` finds the first section with a
  given id and fails on the empty id. `Scanned` is the value the scroll
  handler's `forEach` leaves behind. `SectionIds` is the navigation table.
- `Navigation` (`navigation.dfy`). `PageState` is a snapshot of the state as a
  value. Each handler is a transition function on it: `Observed`, `Navigated`,
  `HashChanged`, `Loaded`, `TimerFired`, `ScrolledToTop` and `MenuToggled`.
  The promised properties are proved as lemmas about these functions. The
  class `Page` holds the same state in fields that its methods update in
  place. `HandleScroll` is a loop over `sections`. Each method is proved to
  perform its transition, in the form `State() == Navigated(old(State()), id)`,
  and its `modifies` frame names the fields it may change.
- `Theme` (`theme.dfy`) and `Download` (`download.dfy`) hold the two pure
  expressions and their lemmas.
- `Optional` holds the `Option` type used for lookups that can fail.

The browser is modelled by these parameters:

- The layout is given to the constructor.
- The user's scrolling is the `Scroll` method. The user's edits to the
  address bar are the `EditFragment` method.
- The 100 ms timer is a queue, `pending`. `HandleHashChange` appends an id to
  it, and `FireTimer` runs the oldest entry. Every timer has the same delay,
  so timers fire in the order they were set.

Three details of the code decide the model:

- The scroll handler lets the **last** matching section win. On overlapping
  sections that is not the first match. `DisjointScan` shows the two agree
  when sections do not overlap.
- `scrollToSection` calls `history.pushState`. Each call **adds** a history
  entry, so `NavigatedTwice` shows the history growing. The history is not
  replaced.
- `hash.replace('#', '')` removes the first `#` wherever it is in the
  fragment, not only a leading one. `RemoveFirst` models that.

## Model

| member | source | states |
|---|---|---|
| Layout.IndexOf | src/app/page.tsx:171 | the result is the position of the first section carrying the id, and None only when no section carries it |
| Layout.GetElementById | src/app/page.tsx:171-172 | a lookup succeeds exactly when the id is non-empty and some section carries it, and it then gives the first such section |
| Layout.Scanned | src/app/page.tsx:222-230 | the value the `forEach` leaves in `activeSection` is the previous value or the id of a section whose extent `[top, top+height)` (`Contains`, line 227) holds the probe; `ScannedLastMatch`, `ScannedNoMatch` and `ScannedCases` say which |
| Layout.ScannedLastMatch | src/app/page.tsx:219-230 | when section k contains the probe and no later section does, the scan leaves `activeSection` equal to section k's id: the last match wins |
| Layout.ScannedNoMatch | src/app/page.tsx:227-229 | when no extent `[top, top+height)` contains the probe, the scan leaves the previous `activeSection`; it never resets it to `""` |
| Layout.ScannedCases | src/app/page.tsx:218-231 | every scan ends either on the previous value (no match) or on the id of a last matching section |
| Layout.LastMatch | src/app/page.tsx:222-230 | if any section contains the probe, there is a last one that does |
| Layout.DisjointScan | src/app/page.tsx:218-231 | on non-overlapping sections, any section containing the probe is the one the scan selects |
| Layout.SectionIdsDistinct | src/app/page.tsx:237-247 | the ids of the navigation table `SectionIds` are non-empty and pairwise distinct |
| Layout.MenuEntryFindsSection | src/app/page.tsx:369-372 | on a page rendering the table's sections in table order, the k-th menu entry's lookup finds the k-th section |
| Navigation.Mounted | src/app/page.tsx:158-159 | the mounted state has no active section, a closed menu, no pushed history and nothing scheduled |
| Navigation.RemoveFirst | src/app/page.tsx:193 | removing a `#` shortens the fragment by one exactly when it contains a `#` |
| Navigation.RemoveFirstCuts | src/app/page.tsx:193 | when position i holds the first `#`, the result is the fragment with exactly that character cut out |
| Navigation.RemoveFirstAbsent | src/app/page.tsx:193 | a fragment without `#` is returned unchanged |
| Navigation.RemoveHashPrefix | src/app/page.tsx:193 | the browser's `#id` yields `id` |
| Navigation.RemoveHashEmpty | src/app/page.tsx:193-194 | the stripped fragment is empty exactly when the fragment is `""` or `"#"` |
| Navigation.Toggled | src/app/page.tsx:340 | the menu button always flips the menu state |
| Navigation.ToggledTwice | src/app/page.tsx:340 | two presses of the menu button restore the menu state |
| Navigation.Observed | src/app/page.tsx:218-231 | the scroll handler changes only `activeSection`, which stays as it was or becomes the id of a section containing `scrollY + 150`; `ObservedLastMatch`, `ObservedNoMatch` and `ObservedIdempotent` say which |
| Navigation.Navigated | src/app/page.tsx:170-182 | `scrollToSection` never touches the active section, the layout or the timers, only appends to the history, and appends exactly one entry exactly when a non-empty id names a section, changing nothing otherwise; `NavigatedKnown`, `NavigatedUnknown` and `NavigatedTwice` give the other fields |
| Navigation.HashChanged | src/app/page.tsx:192-205 | the hash handler changes only the timer queue, appending at most one non-empty id, the fragment with its first `#` removed; `HashChangedEmpty` and `HashChangedSchedules` give the two cases |
| Navigation.Loaded | src/app/page.tsx:207-210 | with no fragment at load nothing happens, and in any case only the timer queue changes |
| Navigation.TimerFired | src/app/page.tsx:195-203 | a firing timer changes only the scroll target and the queue, removes the oldest entry, and moves the scroll target only when that entry's id is found; `TimerFiredKnown` and `TimerFiredUnknown` give the target |
| Navigation.ScrolledToTop | src/app/page.tsx:162-167 | the scroll target becomes 0 and no other field changes (also stated as `ScrolledToTopOnly`) |
| Navigation.MenuToggled | src/app/page.tsx:340 | the menu button flips the menu state and changes nothing else; `ToggledTwice` gives the round trip |
| Navigation.UserScrolled | src/app/page.tsx:220 | a viewport move sets the offset that the scroll handler reads as `window.scrollY`, and nothing else |
| Navigation.FragmentEdited | src/app/page.tsx:193 | an address-bar edit sets the fragment that the hash handler reads as `window.location.hash`, and nothing else |
| Navigation.TransitionsKeepNamed | src/app/page.tsx:158 | the active section starts as `""` and every transition keeps it either `""` or the id of a rendered section |
| Navigation.RunScrolls | src/app/page.tsx:218-235 | a run of scroll events, each followed by the handler, keeps the layout |
| Navigation.RunKeepsNamed | src/app/page.tsx:218-235 | after any run of scroll events the highlighted menu entry is empty or names a rendered section |
| Navigation.ObservedLastMatch | src/app/page.tsx:218-231 | after the scroll handler, the active section is the last section containing `scrollY + 150`; no other field changes |
| Navigation.ObservedNoMatch | src/app/page.tsx:227-229 | with no section under `scrollY + 150` the scroll handler changes nothing |
| Navigation.ObservedIdempotent | src/app/page.tsx:218-231 | running the scroll handler again without scrolling changes nothing more |
| Navigation.NavigatedKnown | src/app/page.tsx:170-182 | navigating to a known id sets the scroll target to `top - 100`, closes the menu, sets the fragment to `#id`, appends exactly one history entry and leaves the active section, layout and timers unchanged |
| Navigation.NavigatedUnknown | src/app/page.tsx:171-172 | navigating to an id no section carries, or to the empty id, changes nothing |
| Navigation.NavigatedTwice | src/app/page.tsx:170-182 | a second navigation to the same id gives the same scroll target, menu state and fragment as the first; only the history is longer |
| Navigation.ScrolledToTopOnly | src/app/page.tsx:162-167 | scroll-to-top sets the scroll target to 0 and changes no other field |
| Navigation.HashChangedEmpty | src/app/page.tsx:193-194 | an empty fragment after stripping `#` schedules nothing |
| Navigation.HashChangedSchedules | src/app/page.tsx:193-195 | a fragment `#id` with non-empty id schedules exactly one deferred lookup of `id` and touches nothing else |
| Navigation.TimerFiredUnknown | src/app/page.tsx:195-203 | when the timer of an unknown id fires, only the timer queue shrinks |
| Navigation.TimerFiredKnown | src/app/page.tsx:195-203 | when the timer of a known id fires, the scroll target becomes `top - 100` and the menu, fragment, history and active section are untouched |
| Navigation.DeepLinkMatchesNavigation | src/app/page.tsx:192-205 | a deep link reaches the same scroll target as a menu click on the same id, but leaves the menu, fragment and history alone |
| Navigation.FragmentAtLoad | src/app/page.tsx:207-210 | with sections a=[0,500), b=[500,800) and `#b` at load, the fired timer leaves scroll target 400 and the next scroll tick makes `b` active |
| Navigation.ScrollScenario | src/app/page.tsx:218-230 | on that layout, scroll offset 400 makes `b` active and offset 0 makes `a` active |
| Navigation.LoadScenario | src/app/page.tsx:170-231 | driven through the page object: the deep link `#b` lands at 400 with `b` active, a click on `a` pushes exactly `#a`, and scroll-to-top then makes `a` active |
| Navigation.Page.constructor | src/app/page.tsx:158-159 | a new page is in the mounted state |
| Navigation.Page.HandleScroll | src/app/page.tsx:218-231 | the loop over the sections performs `Observed`; the active section is the last match, or is unchanged when nothing matches; only `activeSection` is written |
| Navigation.Page.ScrollToSection | src/app/page.tsx:170-182 | performs `Navigated`, writing only the scroll target, menu, fragment and history |
| Navigation.Page.HandleHashChange | src/app/page.tsx:192-205 | performs `HashChanged`, writing only the timer queue |
| Navigation.Page.Load | src/app/page.tsx:207-210 | the handler runs at mount only when the URL carries a fragment |
| Navigation.Page.FireTimer | src/app/page.tsx:195-203 | performs `TimerFired`, writing only the scroll target and the timer queue |
| Navigation.Page.ScrollToTop | src/app/page.tsx:162-167 | performs `ScrolledToTop`, writing only the scroll target |
| Navigation.Page.ToggleMenu | src/app/page.tsx:340 | performs `MenuToggled`, writing only the menu state |
| Navigation.Page.Scroll | src/app/page.tsx:233 | a scroll of the viewport changes only the scroll offset |
| Navigation.Page.EditFragment | src/app/page.tsx:213 | an edit of the fragment changes only the fragment |
| Theme.ToggleTheme | src/app/page.tsx:297 | the requested theme is `light` or `dark`, and it is `light` exactly when the resolved theme is `dark` |
| Theme.ToggleThemeTwice | src/app/page.tsx:890 | two presses return to the starting theme exactly when it was `dark` or `light` |
| Theme.ToggleThemeCycle | src/app/page.tsx:297 | from the first press on, each press undoes the previous one |
| Download.LowerChar | src/app/page.tsx:104 | a lowered character is never upper-case, an upper-case letter becomes the same letter in lower case, and other characters are kept |
| Download.UpperChar | src/app/page.tsx:104 | upper-casing gives no lower-case letter and keeps other characters; it is the partner that undoes lowering |
| Download.LowerCharRoundTrip | src/app/page.tsx:104 | lowering an upper-case letter loses nothing: upper-casing restores it |
| Download.Lower | src/app/page.tsx:104 | `toLowerCase` keeps the length, maps each character by `LowerChar` and leaves no upper-case letter |
| Download.LowerNoUpper | src/app/page.tsx:104 | a string without upper-case letters is its own lower-case form |
| Download.LowerKeepsSpace | src/app/page.tsx:104 | lowering keeps whitespace at the same positions |
| Download.LeadingSpaces | src/app/page.tsx:104 | the length of the leading whitespace run: every character before it is whitespace and the next one is not |
| Download.Collapse | src/app/page.tsx:104 | the replacement never lengthens the title and gives an empty result only for an empty title |
| Download.CollapseClean | src/app/page.tsx:104 | after `replace(/\s+/g, '-')` no whitespace (`IsSpace`, ASCII `\s`) is left, and no upper-case letter is introduced |
| Download.CollapseNoSpace | src/app/page.tsx:104 | a title without whitespace passes through unchanged |
| Download.CollapseRun | src/app/page.tsx:104 | a whole whitespace run between a word and the rest becomes exactly one `-` |
| Download.CollapseAfterWord | src/app/page.tsx:104 | a whitespace-free prefix is copied as it is, whatever follows |
| Download.CollapseCons | src/app/page.tsx:104 | a non-whitespace character is copied to the front of the result |
| Download.CollapseLeadingRun | src/app/page.tsx:104 | a leading whitespace run not continued by the rest becomes one `-` |
| Download.Stem | src/app/page.tsx:104 | the file stem contains no whitespace and no upper-case letter, and is no longer than the title |
| Download.StemIdempotent | src/app/page.tsx:104 | deriving the stem of a stem changes nothing |
| Download.Extension | src/app/page.tsx:104 | any language other than `bash` is its own extension |
| Download.ExtensionSh | src/app/page.tsx:104 | the extension is `sh` exactly when the language is `bash`, or is `sh` itself |
| Download.LastIndexOf | src/app/page.tsx:104 | the found position holds the character and none follows it; None means the character is absent |
| Download.SplitExtension | src/app/page.tsx:104 | splitting at the last dot gives a stem and a dot-free extension that rebuild the name; it fails only on a name without a dot |
| Download.LastIndexOfAppend | src/app/page.tsx:104 | the last dot of `stem + "." + ext` is the one after the stem when the extension has no dot |
| Download.DownloadName | src/app/page.tsx:104 | for a language without a dot, the downloaded name splits back at its last dot into exactly the stem (`Stem`) and the extension (`Extension`) |
| Download.SplitExtensionJoin | src/app/page.tsx:104 | joining a stem and a dot-free extension with `.` and splitting at the last dot gives both back |
| Download.NoUpperNoSpace | src/app/page.tsx:104 | a string of lower-case letters has no whitespace |
| Download.DefaultDownloadName | src/app/page.tsx:90 | with the defaults `Terminal` and `bash` the file is `terminal.sh` |
| Download.DefaultStem | src/app/page.tsx:90 | the default title gives the stem `terminal` |
| Download.LowerDefaultFilename | src/app/page.tsx:90 | the default title lower-cases to `terminal` |

## Left out

- The scroll-progress bar, the framer-motion animations and variants, and
  the `useInView` fades are left out. They are animation-library numerics on
  floating point.
- Registering and removing the `scroll` and `hashchange` listeners is not
  modelled. The model calls the handlers as explicit methods. It also does
  not model the scroll events fired while a smooth scroll is animating.
- `window.scrollTo` is modelled by its target offset only. The browser clips
  that target to the scrollable range, so `top - 100` can become 0. The
  model keeps the target unclipped and does not model the animation.
- Offsets are integers. `offsetTop` and `offsetHeight` are integers in the
  DOM, but `window.scrollY` can be fractional.
- `document.getElementById` is modelled as a search of the rendered
  `<section id>` list. The page gives ids only to those sections. Lookups of
  other elements are not modelled.
- Page.EditFragment: the browser's own scroll to the element a new fragment
  names (using the sections' `scroll-mt-20` margin, src/app/page.tsx:73) is
  not modelled, at an edit or at load. It happens before `hashchange` fires,
  and the handler's deferred `top - 100` target replaces it.
- Page.Load: the same browser scroll to the fragment's element at page load
  is not modelled either.
- The layout is fixed when the page is created (`sections` is a `const`). The offsets that change when
  an accordion opens, or when the window is resized, are not modelled.
- The URL keeps its text as given. Percent-encoding of fragment characters
  is not modelled.
- `setTimeout` has no wall-clock time in the model. Each timer is a queue
  entry that fires when `FireTimer` is called. As in the code, a timer is
  never cancelled.
- Clipboard copying, the 2000 ms "copied" indicator, and the Blob and anchor
  mechanics of the download are left out. They are browser I/O.
- Theme persistence and the resolution of `system` belong to next-themes and
  are left out. Only the toggle expression is modelled.
- `toLowerCase` and `\s` are restricted to ASCII. Unicode case mapping and
  non-ASCII whitespace (for example U+00A0) are not modelled.
- src/app/layout.tsx is not part of this model. It holds only metadata, font
  loading and theme-provider wiring.
- JSX markup, tooltips, icons and the inline SVG path are left out.
