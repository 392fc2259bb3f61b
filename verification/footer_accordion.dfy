/**
 * The footer's accordion sections. A section with both a trigger and a content panel
 * has two flags: the trigger's `aria-expanded` and the panel's `is-open` class. Setting
 * up collapses every section on a mobile viewport and expands every one otherwise; on
 * a mobile viewport a click on a section closes every other section and flips its own
 * two flags.
 */
module FooterAccordion {

  /** A footer section: complete with its two flags, or missing its trigger or its
      content, in which case nothing ever touches it. */
  datatype Section = Complete(expanded: bool, open: bool) | Incomplete

  /** The state `setupAccordions` gives one section. */
  function SectionAfterSetup(s: Section, isMobile: bool): (r: Section)
    ensures r.Complete? <==> s.Complete?
    ensures r.Complete? ==> r.expanded == r.open == !isMobile
  {
    if s.Incomplete? then s else Complete(!isMobile, !isMobile)
  }

  /** A section another section's click closes. */
  function Closed(s: Section): (r: Section)
    ensures r.Complete? <==> s.Complete?
    ensures r.Complete? ==> !r.expanded && !r.open
  {
    if s.Incomplete? then s else Complete(false, false)
  }

  /** The clicked section: `aria-expanded` set to the negation of its old value and
      `is-open` toggled. */
  function Toggled(s: Section): (r: Section)
    ensures r.Complete? <==> s.Complete?
    ensures r.Complete? ==> r.expanded != s.expanded && r.open != s.open
  {
    if s.Incomplete? then s else Complete(!s.expanded, !s.open)
  }

  /** All sections after `setupAccordions`. */
  function AfterSetup(ss: seq<Section>, isMobile: bool): (r: seq<Section>)
    ensures |r| == |ss|
  {
    seq(|ss|, j requires 0 <= j < |ss| => SectionAfterSetup(ss[j], isMobile))
  }

  /** All sections after a click on section `i`. Only a complete section has a click
      handler, and the handler does nothing outside the mobile view. */
  function AfterClick(ss: seq<Section>, i: nat, isMobile: bool): (r: seq<Section>)
    requires i < |ss|
    ensures |r| == |ss|
  {
    if !isMobile || ss[i].Incomplete? then ss
    else seq(|ss|, j requires 0 <= j < |ss| => if j == i then Toggled(ss[j]) else Closed(ss[j]))
  }

  /** `setupAccordions` over the sections, one at a time. */
  method Setup(sections: array<Section>, isMobile: bool)
    modifies sections
    ensures sections[..] == AfterSetup(old(sections[..]), isMobile)
  {
    for k := 0 to sections.Length
      invariant forall j :: 0 <= j < k ==> sections[j] == SectionAfterSetup(old(sections[j]), isMobile)
      invariant forall j :: k <= j < sections.Length ==> sections[j] == old(sections[j])
    {
      if sections[k].Incomplete? {
        continue;
      }
      if isMobile {
        sections[k] := Complete(false, false);
      } else {
        sections[k] := Complete(true, true);
      }
    }
  }

  /** The click handler of section `i`: when in the mobile view, close every other
      complete section, then flip the section's own `aria-expanded` and `is-open`. */
  method Click(sections: array<Section>, i: nat, isMobile: bool)
    requires i < sections.Length
    modifies sections
    ensures sections[..] == AfterClick(old(sections[..]), i, isMobile)
  {
    if sections[i].Incomplete? || !isMobile {
      return;
    }
    var isExpanded := sections[i].expanded;
    for k := 0 to sections.Length
      invariant sections[i] == old(sections[i])
      invariant forall j :: 0 <= j < k && j != i ==> sections[j] == Closed(old(sections[j]))
      invariant forall j :: k <= j < sections.Length ==> sections[j] == old(sections[j])
    {
      if k != i && sections[k].Complete? {
        sections[k] := Complete(false, false);
      }
    }
    sections[i] := Complete(!isExpanded, !sections[i].open);
  }

  /** In the mobile view every complete section starts collapsed, on a wider screen
      every one starts expanded; incomplete sections are left alone. */
  lemma SetupStates(ss: seq<Section>, isMobile: bool, j: nat)
    requires j < |ss|
    ensures ss[j].Complete? ==> AfterSetup(ss, isMobile)[j] == Complete(!isMobile, !isMobile)
    ensures ss[j].Incomplete? ==> AfterSetup(ss, isMobile)[j] == Incomplete
  {
  }

  /** Toggling twice gives the section back. */
  lemma ToggleTwice(s: Section)
    ensures Toggled(Toggled(s)) == s
  {
  }

  /** A second setup, as on a resize, wipes out the first: only the last viewport
      width counts. Setting up twice at the same width is setting up once. */
  lemma SetupLastWins(ss: seq<Section>, first: bool, last: bool)
    ensures AfterSetup(AfterSetup(ss, first), last) == AfterSetup(ss, last)
  {
  }

  /** Outside the mobile view a click changes nothing, and an incomplete section is
      never changed by a click on another section. */
  lemma ClickFrame(ss: seq<Section>, i: nat, isMobile: bool)
    requires i < |ss|
    ensures !isMobile ==> AfterClick(ss, i, isMobile) == ss
    ensures forall j :: 0 <= j < |ss| && ss[j].Incomplete? ==> AfterClick(ss, i, isMobile)[j] == Incomplete
  {
  }

  /** A mobile click on a complete section flips both of its flags and leaves every
      other complete section collapsed. */
  lemma ClickStates(ss: seq<Section>, i: nat, j: nat)
    requires i < |ss| && j < |ss| && ss[i].Complete?
    ensures var r := AfterClick(ss, i, true);
      (j == i ==> r[j] == Complete(!ss[i].expanded, !ss[i].open))
      && (j != i && ss[j].Complete? ==> r[j] == Complete(false, false))
  {
  }

  /** Clicking the same section twice in the mobile view brings it back to its state
      before the first click, with every other section closed. */
  lemma ClickTwice(ss: seq<Section>, i: nat)
    requires i < |ss| && ss[i].Complete?
    ensures var r := AfterClick(AfterClick(ss, i, true), i, true);
      r[i] == ss[i] && forall j :: 0 <= j < |ss| && j != i ==> r[j] == Closed(ss[j])
  {
  }

  /** Every complete section has its `aria-expanded` and `is-open` in agreement. */
  predicate Agree(ss: seq<Section>)
  {
    forall j :: 0 <= j < |ss| && ss[j].Complete? ==> ss[j].expanded == ss[j].open
  }

  /** Agreement holds after any setup, and a click keeps it. */
  lemma AgreementKept(ss: seq<Section>, i: nat, isMobile: bool)
    requires i < |ss|
    ensures Agree(AfterSetup(ss, isMobile))
    ensures Agree(ss) ==> Agree(AfterClick(ss, i, isMobile))
  {
  }

  /** The complete sections whose panel is open. */
  function OpenSections(ss: seq<Section>): set<nat>
  {
    set j: nat | j < |ss| && ss[j].Complete? && ss[j].open
  }

  /** After a mobile click at most one section is open: the clicked one, exactly when
      it was closed before. */
  lemma AtMostOneOpen(ss: seq<Section>, i: nat)
    requires i < |ss| && ss[i].Complete?
    ensures OpenSections(AfterClick(ss, i, true)) == if ss[i].open then {} else {i}
  {
    var r := AfterClick(ss, i, true);
    if !ss[i].open {
      assert i in OpenSections(r);
    }
  }

  /** From a state with at most one section open, such as the one setup gives in the
      mobile view, a run of mobile clicks never has more than one section open. */
  lemma {:induction false} ClicksKeepOneOpen(ss: seq<Section>, clicks: seq<nat>)
    requires |OpenSections(ss)| <= 1
    requires forall k :: 0 <= k < |clicks| ==> clicks[k] < |ss|
    ensures |OpenSections(AfterClicks(ss, clicks))| <= 1
    decreases |clicks|
  {
    if clicks != [] {
      var c := clicks[|clicks| - 1];
      var before := AfterClicks(ss, clicks[..|clicks| - 1]);
      ClicksKeepOneOpen(ss, clicks[..|clicks| - 1]);
      if before[c].Complete? {
        AtMostOneOpen(before, c);
      }
    }
  }

  /** The sections after a run of mobile clicks. */
  function AfterClicks(ss: seq<Section>, clicks: seq<nat>): (r: seq<Section>)
    requires forall k :: 0 <= k < |clicks| ==> clicks[k] < |ss|
    ensures |r| == |ss|
    decreases |clicks|
  {
    if clicks == [] then ss
    else
      var init := clicks[..|clicks| - 1];
      AfterClick(AfterClicks(ss, init), clicks[|clicks| - 1], true)
  }

  /** Setting up in the mobile view leaves no section open. */
  lemma MobileSetupAllClosed(ss: seq<Section>)
    ensures OpenSections(AfterSetup(ss, true)) == {}
  {
  }
}
