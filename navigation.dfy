/**
 * The section-navigation controller of the `Home` page (src/app/page.tsx):
 * passive navigation (the scroll handler keeps `activeSection` in step with the
 * scroll offset), active navigation (a menu click scrolls to a section, closes
 * the mobile menu and pushes `#id` onto the history) and deep links (a fragment
 * change schedules a deferred scroll to the named section).
 *
 * The state transitions are first defined on a value, `PageState`, and their
 * properties proved there; the class `Page` then holds the same state in
 * fields and each of its methods is proved to perform the matching transition.
 */
module Navigation {
  import opened Optional
  import opened Layout

  /** Added to the scroll offset to find the point that decides the active section (it clears the fixed header). */
  const LOOKAHEAD: int := 150
  /** How far above a section's top edge a navigation leaves the viewport. */
  const HEADER_OFFSET: int := 100

  /**
   * A snapshot of everything the controller reads or writes: the scroll target,
   * the highlighted section, the mobile menu, the URL fragment (with its `#`,
   * or empty), the entries pushed onto the browser history, the rendered
   * layout, and the fragment lookups scheduled by the hash handler that have
   * not fired yet, in firing order.
   */
  datatype PageState = PageState(
    scrollY: int,
    activeSection: string,
    menuOpen: bool,
    hash: string,
    history: seq<string>,
    layout: seq<Section>,
    pending: seq<string>)

  /** The state right after mount (`useState('')`, `useState(false)`). */
  function Mounted(layout: seq<Section>, scrollY: int, hash: string): (s: PageState)
    ensures s.activeSection == "" && !s.menuOpen && s.history == [] && s.pending == []
    ensures s.layout == layout && s.scrollY == scrollY && s.hash == hash
  {
    PageState(scrollY, "", false, hash, [], layout, [])
  }

  /** `s.replace(c, '')` with a character pattern: the first occurrence of `c`, wherever it is, is removed. */
  function RemoveFirst(s: string, c: char): (r: string)
    ensures |r| == if c in s then |s| - 1 else |s|
  {
    if s == [] then []
    else if s[0] == c then s[1..]
    else
      assert c in s <==> c in s[1..] by {
        assert s == [s[0]] + s[1..];
      }
      [s[0]] + RemoveFirst(s[1..], c)
  }

  /** Without `c` the text is unchanged; otherwise exactly its first `c` is cut out. */
  lemma {:induction false} RemoveFirstCuts(s: string, c: char, i: int)
    requires 0 <= i < |s| && s[i] == c && c !in s[..i]
    ensures RemoveFirst(s, c) == s[..i] + s[i + 1..]
  {
    if i > 0 {
      assert s[0] != c by { assert s[0] == s[..i][0]; }
      assert s[1..][i - 1] == c;
      assert s[1..][..i - 1] == s[1..i];
      assert c !in s[1..i] by {
        forall j | 0 <= j < i - 1 ensures s[1..i][j] != c {
          assert s[1..i][j] == s[..i][j + 1];
        }
      }
      RemoveFirstCuts(s[1..], c, i - 1);
      assert s[..i] == [s[0]] + s[1..][..i - 1];
      assert s[i + 1..] == s[1..][i - 1 + 1..];
    }
  }

  /** Text without `c` passes through unchanged. */
  lemma {:induction false} RemoveFirstAbsent(s: string, c: char)
    requires c !in s
    ensures RemoveFirst(s, c) == s
  {
    if s != [] {
      assert s == [s[0]] + s[1..];
      RemoveFirstAbsent(s[1..], c);
    }
  }

  /** A browser fragment `#id` yields `id` back. */
  lemma RemoveHashPrefix(id: string)
    ensures RemoveFirst("#" + id, '#') == id
  {
    assert ("#" + id)[0] == '#';
    assert ("#" + id)[1..] == id;
  }

  /** Stripping the first `#` leaves nothing exactly when the fragment is empty or `#` alone. */
  lemma {:induction false} RemoveHashEmpty(h: string)
    ensures RemoveFirst(h, '#') == "" <==> h == "" || h == "#"
  {
    if h != [] && h[0] != '#' {
      assert RemoveFirst(h, '#')[0] == h[0];
    }
  }

  // ---------------------------------------------------------------------
  // Transitions on the value

  /** `handleScroll`: visit every section in order; each one containing `scrollY + 150` becomes active. */
  function Observed(s: PageState): (r: PageState)
    ensures r.(activeSection := s.activeSection) == s
    ensures r.activeSection == s.activeSection
      || exists k :: 0 <= k < |s.layout| && s.layout[k].id == r.activeSection && Contains(s.layout[k], s.scrollY + LOOKAHEAD)
  {
    s.(activeSection := Scanned(s.activeSection, s.layout, s.scrollY + LOOKAHEAD))
  }

  /** `scrollToSection(id)`: on a known id scroll to `top - 100`, close the menu and push `#id`; otherwise nothing. */
  function Navigated(s: PageState, id: string): (r: PageState)
    ensures r.activeSection == s.activeSection && r.layout == s.layout && r.pending == s.pending
    ensures |r.history| >= |s.history| && r.history[..|s.history|] == s.history
    ensures |r.history| == |s.history| + 1 <==> id != "" && exists j :: 0 <= j < |s.layout| && s.layout[j].id == id
    ensures |r.history| == |s.history| ==> r == s
  {
    match GetElementById(s.layout, id)
    case None => s
    case Some(k) =>
      s.(scrollY := s.layout[k].top - HEADER_OFFSET, menuOpen := false,
         hash := "#" + id, history := s.history + ["#" + id])
  }

  /** `handleHashChange`: strip the first `#`; a non-empty remainder schedules a deferred lookup. */
  function HashChanged(s: PageState): (r: PageState)
    ensures r.(pending := s.pending) == s
    ensures |s.pending| <= |r.pending| <= |s.pending| + 1 && r.pending[..|s.pending|] == s.pending
    ensures |r.pending| == |s.pending| + 1 ==> r.pending[|s.pending|] != "" && r.pending[|s.pending|] == RemoveFirst(s.hash, '#')
  {
    var id := RemoveFirst(s.hash, '#');
    if id == "" then s else s.(pending := s.pending + [id])
  }

  /** The initial-load branch of the hash effect: the handler runs only when the URL has a fragment. */
  function Loaded(s: PageState): (r: PageState)
    ensures s.hash == "" ==> r == s
    ensures r.(pending := s.pending) == s
  {
    if s.hash != "" then HashChanged(s) else s
  }

  /** The 100 ms timer of the oldest scheduled lookup fires: if its id is found, scroll to `top - 100`. */
  function TimerFired(s: PageState): (r: PageState)
    ensures r.(scrollY := s.scrollY, pending := s.pending) == s
    ensures s.pending != [] ==> r.pending == s.pending[1..]
    ensures r.scrollY != s.scrollY ==> s.pending != [] && GetElementById(s.layout, s.pending[0]).Some?
  {
    if s.pending == [] then s
    else
      var rest := s.(pending := s.pending[1..]);
      match GetElementById(s.layout, s.pending[0])
      case None => rest
      case Some(k) => rest.(scrollY := s.layout[k].top - HEADER_OFFSET)
  }

  /** `scrollToTop`: the scroll target becomes 0. */
  function ScrolledToTop(s: PageState): (r: PageState)
    ensures r.scrollY == 0
    ensures r.(scrollY := s.scrollY) == s
  {
    s.(scrollY := 0)
  }

  /** The menu button's `!mobileMenuOpen`. */
  function Toggled(open: bool): (r: bool)
    ensures r != open
  {
    !open
  }

  /** The menu button: `setMobileMenuOpen(!mobileMenuOpen)`. */
  function MenuToggled(s: PageState): (r: PageState)
    ensures r.menuOpen != s.menuOpen
    ensures r.(menuOpen := s.menuOpen) == s
  {
    s.(menuOpen := Toggled(s.menuOpen))
  }

  /** The user (or a smooth-scroll animation) moves the viewport; no handler runs yet. */
  function UserScrolled(s: PageState, y: int): (r: PageState)
    ensures r.scrollY == y && r.(scrollY := s.scrollY) == s
  {
    s.(scrollY := y)
  }

  /** The user edits the URL fragment; the browser's `hashchange` event follows as `HashChanged`. */
  function FragmentEdited(s: PageState, h: string): (r: PageState)
    ensures r.hash == h && r.(hash := s.hash) == s
  {
    s.(hash := h)
  }

  // ---------------------------------------------------------------------
  // Properties of the transitions

  /** After the scroll handler, the active section is the last section containing the probe, if there is one. */
  lemma ObservedLastMatch(s: PageState, k: int)
    requires IsLastMatch(s.layout, s.scrollY + LOOKAHEAD, k)
    ensures Observed(s).activeSection == s.layout[k].id
    ensures Observed(s) == s.(activeSection := s.layout[k].id)
  {
    ScannedLastMatch(s.activeSection, s.layout, s.scrollY + LOOKAHEAD, k);
  }

  /** The scroll handler never clears the active section: with no match the whole state stays as it was. */
  lemma ObservedNoMatch(s: PageState)
    requires NoMatch(s.layout, s.scrollY + LOOKAHEAD)
    ensures Observed(s) == s
  {
    ScannedNoMatch(s.activeSection, s.layout, s.scrollY + LOOKAHEAD);
  }

  /** Running the scroll handler twice without scrolling in between changes nothing more. */
  lemma ObservedIdempotent(s: PageState)
    ensures Observed(Observed(s)) == Observed(s)
  {
    var probe := s.scrollY + LOOKAHEAD;
    if NoMatch(s.layout, probe) {
      ScannedNoMatch(s.activeSection, s.layout, probe);
    } else {
      var k := LastMatch(s.layout, probe);
      ScannedLastMatch(s.activeSection, s.layout, probe, k);
      ScannedLastMatch(Observed(s).activeSection, s.layout, probe, k);
    }
  }

  /** Navigating to a known id: scroll to `top - 100`, menu closed, fragment `#id`, one more history entry, nothing else. */
  lemma NavigatedKnown(s: PageState, id: string, k: int)
    requires 0 <= k < |s.layout| && s.layout[k].id == id && id != ""
    requires forall j :: 0 <= j < k ==> s.layout[j].id != id
    ensures var t := Navigated(s, id);
      t.scrollY == s.layout[k].top - HEADER_OFFSET && !t.menuOpen && t.hash == "#" + id
      && t.history == s.history + ["#" + id] && |t.history| == |s.history| + 1
      && t.activeSection == s.activeSection && t.layout == s.layout && t.pending == s.pending
  {
  }

  /** Navigating to an id no section carries (or to the empty id) changes nothing. */
  lemma NavigatedUnknown(s: PageState, id: string)
    requires id == "" || forall j :: 0 <= j < |s.layout| ==> s.layout[j].id != id
    ensures Navigated(s, id) == s
  {
  }

  /**
   * Navigating twice to the same id gives the same scroll target, menu and
   * fragment as navigating once; only the history is longer, by one entry on a known id.
   */
  lemma NavigatedTwice(s: PageState, id: string)
    ensures var once, twice := Navigated(s, id), Navigated(Navigated(s, id), id);
      twice == once.(history := twice.history)
      && twice.history == once.history + (once.history[|s.history|..])
  {
    match GetElementById(s.layout, id)
    case None =>
    case Some(k) =>
      var once := Navigated(s, id);
      assert once.layout == s.layout;
      assert once.history[|s.history|..] == ["#" + id];
  }

  /** Scrolling to the top sets the scroll target to 0 and changes nothing else. */
  lemma ScrolledToTopOnly(s: PageState)
    ensures ScrolledToTop(s).scrollY == 0
    ensures ScrolledToTop(s).(scrollY := s.scrollY) == s
  {
  }

  /** An empty fragment after stripping `#` (the URL has none, or only `#`) schedules nothing. */
  lemma HashChangedEmpty(s: PageState)
    requires s.hash == "" || s.hash == "#"
    ensures HashChanged(s) == s
  {
    RemoveHashEmpty(s.hash);
  }

  /** A fragment `#id` with non-empty `id` schedules exactly one lookup of `id` and touches nothing else. */
  lemma HashChangedSchedules(s: PageState, id: string)
    requires s.hash == "#" + id && id != ""
    ensures HashChanged(s) == s.(pending := s.pending + [id])
  {
    RemoveHashPrefix(id);
  }

  /** When the timer of an unknown id fires, only the queue of scheduled lookups shrinks. */
  lemma TimerFiredUnknown(s: PageState)
    requires s.pending != []
    requires GetElementById(s.layout, s.pending[0]).None?
    ensures TimerFired(s) == s.(pending := s.pending[1..])
  {
  }

  /**
   * When the timer of a known id fires, the scroll target becomes that section's
   * `top - 100`; the menu, the fragment, the history and the active section are untouched.
   */
  lemma TimerFiredKnown(s: PageState, k: int)
    requires s.pending != [] && s.pending[0] != ""
    requires 0 <= k < |s.layout| && s.layout[k].id == s.pending[0]
    requires forall j :: 0 <= j < k ==> s.layout[j].id != s.pending[0]
    ensures var t := TimerFired(s);
      t.scrollY == s.layout[k].top - HEADER_OFFSET && t.menuOpen == s.menuOpen && t.hash == s.hash
      && t.history == s.history && t.activeSection == s.activeSection && t.pending == s.pending[1..]
  {
  }

  /** A deep link lands where a menu click would: same scroll target, but menu, fragment and history are left alone. */
  lemma DeepLinkMatchesNavigation(s: PageState, id: string)
    requires s.hash == "#" + id && id != "" && s.pending == []
    ensures var t := TimerFired(HashChanged(s));
      t.scrollY == Navigated(s, id).scrollY && t.pending == []
      && t.menuOpen == s.menuOpen && t.hash == s.hash && t.history == s.history
  {
    HashChangedSchedules(s, id);
    assert HashChanged(s).pending == [id];
  }

  /** The active section is empty or names a rendered section. */
  predicate Named(s: PageState) {
    s.activeSection == "" || exists k :: 0 <= k < |s.layout| && s.layout[k].id == s.activeSection
  }

  /** Every transition keeps the active section empty or naming a rendered section; mounting starts so. */
  lemma TransitionsKeepNamed(s: PageState, id: string, y: int, h: string)
    requires Named(s)
    ensures Named(Mounted(s.layout, y, h))
    ensures Named(Observed(s)) && Named(Navigated(s, id)) && Named(HashChanged(s)) && Named(Loaded(s))
    ensures Named(TimerFired(s)) && Named(ScrolledToTop(s)) && Named(MenuToggled(s))
    ensures Named(UserScrolled(s, y)) && Named(FragmentEdited(s, h))
  {
  }

  /** So the highlighted menu entry, when there is one, is always a section of the page. */
  lemma RunKeepsNamed(s: PageState, steps: seq<int>)
    requires Named(s)
    ensures Named(RunScrolls(s, steps))
    decreases |steps|
  {
    if steps != [] {
      TransitionsKeepNamed(s, "", steps[0], "");
      RunKeepsNamed(Observed(UserScrolled(s, steps[0])), steps[1..]);
    }
  }

  /** A sequence of scrolls to the given offsets, each followed by the scroll handler. */
  function RunScrolls(s: PageState, steps: seq<int>): (r: PageState)
    ensures r.layout == s.layout
    decreases |steps|
  {
    if steps == [] then s else RunScrolls(Observed(UserScrolled(s, steps[0])), steps[1..])
  }

  /** Toggling the menu twice restores it. */
  lemma ToggledTwice(open: bool)
    ensures Toggled(Toggled(open)) == open
  {
  }

  /**
   * The load scenario: sections a = [0, 500) and b = [500, 800), fragment `#b`
   * at load. Once the deferred lookup fires the scroll target is 400, and the
   * next scroll tick makes `b` active (probe 550).
   */
  lemma FragmentAtLoad()
    ensures var s0 := Mounted([Section("a", 0, 500), Section("b", 500, 300)], 0, "#b");
      var s1 := TimerFired(Loaded(s0));
      s1.scrollY == 400 && Observed(s1).activeSection == "b"
  {
    var layout := [Section("a", 0, 500), Section("b", 500, 300)];
    var s0 := Mounted(layout, 0, "#b");
    HashChangedSchedules(s0, "b");
    assert Loaded(s0).pending == ["b"];
    assert layout[0].id != "b";
    assert GetElementById(layout, "b") == Some(1);
    var s1 := TimerFired(Loaded(s0));
    assert IsLastMatch(layout, s1.scrollY + LOOKAHEAD, 1);
    ObservedLastMatch(s1, 1);
  }

  /** The scroll scenario on the same layout: offset 400 makes `b` active, offset 0 makes `a` active. */
  lemma ScrollScenario(s: PageState)
    requires s.layout == [Section("a", 0, 500), Section("b", 500, 300)]
    ensures Observed(UserScrolled(s, 400)).activeSection == "b"
    ensures Observed(UserScrolled(s, 0)).activeSection == "a"
  {
    assert IsLastMatch(s.layout, 400 + LOOKAHEAD, 1);
    ObservedLastMatch(UserScrolled(s, 400), 1);
    assert IsLastMatch(s.layout, 0 + LOOKAHEAD, 0);
    ObservedLastMatch(UserScrolled(s, 0), 0);
  }

  // ---------------------------------------------------------------------
  // The page state as the component holds it

  /** The navigation state of one mounted `Home` page, updated in place by its handlers. */
  class Page {
    /** The current scroll offset, or the target of the smooth scroll last requested. */
    var scrollY: int
    var activeSection: string
    var menuOpen: bool
    /** `window.location.hash`: `#` followed by the fragment, or empty. */
    var hash: string
    /** The entries pushed with `history.pushState`, oldest first. */
    var history: seq<string>
    /** The rendered `<section id>` elements in document order. */
    const sections: seq<Section>
    /** Fragment ids whose 100 ms timer has been set but has not fired, in firing order. */
    var pending: seq<string>

    /** The fields as a value. */
    function State(): PageState
      reads this
    {
      PageState(scrollY, activeSection, menuOpen, hash, history, sections, pending)
    }

    /** Mounting the page: nothing active, menu closed, nothing pushed, nothing scheduled. */
    constructor (layout: seq<Section>, initialScroll: int, initialHash: string)
      ensures State() == Mounted(layout, initialScroll, initialHash)
    {
      sections := layout;
      scrollY, activeSection, menuOpen := initialScroll, "", false;
      hash, history, pending := initialHash, [], [];
    }

    /** `handleScroll`: the `forEach` over the sections, each match overwriting `activeSection`. */
    method HandleScroll()
      modifies this`activeSection
      ensures State() == Observed(old(State()))
      ensures forall k :: IsLastMatch(sections, scrollY + LOOKAHEAD, k) ==> activeSection == sections[k].id
      ensures NoMatch(sections, scrollY + LOOKAHEAD) ==> activeSection == old(activeSection)
    {
      var probe := scrollY + LOOKAHEAD;
      var i := 0;
      while i < |sections|
        invariant 0 <= i <= |sections|
        invariant activeSection == Scanned(old(activeSection), sections[..i], probe)
      {
        var section := sections[i];
        if probe >= section.top && probe < section.top + section.height {
          activeSection := section.id;
        }
        assert sections[..i + 1][..i] == sections[..i];
        i := i + 1;
      }
      assert sections[..i] == sections;
      forall k | IsLastMatch(sections, probe, k) ensures activeSection == sections[k].id {
        ScannedLastMatch(old(activeSection), sections, probe, k);
      }
      if NoMatch(sections, probe) {
        ScannedNoMatch(old(activeSection), sections, probe);
      }
    }

    /** `scrollToSection(id)` (also reached through `handleDirectLink` and the heading anchors). */
    method ScrollToSection(id: string)
      modifies this`scrollY, this`menuOpen, this`hash, this`history
      ensures State() == Navigated(old(State()), id)
    {
      var section := GetElementById(sections, id);
      if section.Some? {
        scrollY := sections[section.value].top - HEADER_OFFSET;
        menuOpen := false;
        hash := "#" + id;
        history := history + ["#" + id];
      }
    }

    /** `handleHashChange`: strip the first `#` and, if something is left, set the 100 ms timer. */
    method HandleHashChange()
      modifies this`pending
      ensures State() == HashChanged(old(State()))
    {
      var id := RemoveFirst(hash, '#');
      if id != "" {
        pending := pending + [id];
      }
    }

    /** The hash effect on mount: run the handler when the URL already carries a fragment. */
    method Load()
      modifies this`pending
      ensures State() == Loaded(old(State()))
    {
      if hash != "" {
        HandleHashChange();
      }
    }

    /** The oldest pending timer fires: look its id up and scroll to `top - 100` when found. */
    method FireTimer()
      modifies this`scrollY, this`pending
      ensures State() == TimerFired(old(State()))
    {
      if pending != [] {
        var id := pending[0];
        pending := pending[1..];
        var section := GetElementById(sections, id);
        if section.Some? {
          scrollY := sections[section.value].top - HEADER_OFFSET;
        }
      }
    }

    /** `scrollToTop`. */
    method ScrollToTop()
      modifies this`scrollY
      ensures State() == ScrolledToTop(old(State()))
    {
      scrollY := 0;
    }

    /** The mobile menu button. */
    method ToggleMenu()
      modifies this`menuOpen
      ensures State() == MenuToggled(old(State()))
    {
      menuOpen := Toggled(menuOpen);
    }

    /** The viewport moves (user input or the smooth-scroll animation). */
    method Scroll(y: int)
      modifies this`scrollY
      ensures State() == UserScrolled(old(State()), y)
    {
      scrollY := y;
    }

    /** The user edits the fragment in the address bar. */
    method EditFragment(h: string)
      modifies this`hash
      ensures State() == FragmentEdited(old(State()), h)
    {
      hash := h;
    }
  }

  /**
   * The load scenario driven through the page object: the deep link lands at
   * 400 with `b` active; a menu click on `a` then pushes `#a`, and scrolling to
   * the top makes `a` active again.
   */
  method LoadScenario() returns (landed: int, linked: string, pushed: seq<string>, atTop: string)
    ensures landed == 400 && linked == "b"
    ensures pushed == ["#a"] && atTop == "a"
  {
    var layout := [Section("a", 0, 500), Section("b", 500, 300)];
    var page := new Page(layout, 0, "#b");
    assert page.history == [] && page.sections == layout;
    page.Load();
    page.FireTimer();
    page.HandleScroll();
    FragmentAtLoad();
    landed, linked := page.scrollY, page.activeSection;
    assert GetElementById(layout, "a") == Some(0);
    assert page.history == [] && page.State().layout == layout;
    assert "#" + "a" == "#a";
    page.ScrollToSection("a");
    pushed := page.history;
    page.ScrollToTop();
    assert IsLastMatch(layout, 0 + LOOKAHEAD, 0);
    page.HandleScroll();
    atTop := page.activeSection;
  }
}
