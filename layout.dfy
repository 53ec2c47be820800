/**
 * The rendered document as the navigation code sees it: an ordered list of
 * `<section id>` elements, each with the offset of its top edge and its height
 * (`offsetTop` / `offsetHeight` in src/app/page.tsx). Both lookups the page
 * performs on the live DOM are modelled here as functions of that list.
 */
module Layout {
  import opened Optional

  /** One `<section id>` element of the rendered page. */
  datatype Section = Section(id: string, top: int, height: int)

  /** The order of the navigation table, which is also the order in which the page renders its sections. */
  const SectionIds: seq<string> :=
    ["note", "description", "prerequisites", "instructions", "script-actions",
     "backup", "important-notes", "support", "license"]

  /** The half-open extent `[top, top + height)` of a section contains the point `y`. */
  predicate Contains(s: Section, y: int) {
    s.top <= y < s.top + s.height
  }

  /** Position of the first section in document order with identifier `id`, if any. */
  function IndexOf(layout: seq<Section>, id: string): (r: Option<nat>)
    ensures r.Some? ==> r.value < |layout| && layout[r.value].id == id
    ensures r.Some? ==> forall j :: 0 <= j < r.value ==> layout[j].id != id
    ensures r.None? ==> forall j :: 0 <= j < |layout| ==> layout[j].id != id
  {
    if layout == [] then None
    else if layout[0].id == id then Some(0)
    else match IndexOf(layout[1..], id)
      case None => None
      case Some(k) => Some(k + 1)
  }

  /**
   * `document.getElementById(id)`: the first section carrying `id`. The empty
   * string is never an element's ID, so looking it up always fails.
   */
  function GetElementById(layout: seq<Section>, id: string): (r: Option<nat>)
    ensures r.Some? <==> id != "" && exists j :: 0 <= j < |layout| && layout[j].id == id
    ensures r.Some? ==> r.value < |layout| && layout[r.value].id == id
    ensures r.Some? ==> forall j :: 0 <= j < r.value ==> layout[j].id != id
  {
    if id == "" then None else IndexOf(layout, id)
  }

  /**
   * The value `activeSection` holds after the scroll handler has visited the
   * sections of `layout` in order, starting from `prev`: every section whose
   * extent contains `probe` overwrites it, the others leave it alone.
   */
  function Scanned(prev: string, layout: seq<Section>, probe: int): (r: string)
    ensures r == prev || exists k :: 0 <= k < |layout| && layout[k].id == r && Contains(layout[k], probe)
  {
    if layout == [] then prev
    else
      var n := |layout| - 1;
      var before := Scanned(prev, layout[..n], probe);
      assert before != prev ==> exists k :: 0 <= k < n && layout[k].id == before && Contains(layout[k], probe) by {
        if before != prev {
          var k :| 0 <= k < |layout[..n]| && layout[..n][k].id == before && Contains(layout[..n][k], probe);
          assert layout[k] == layout[..n][k];
        }
      }
      if Contains(layout[n], probe) then layout[n].id else before
  }

  /** Section `k` contains `probe` and no later section does. */
  predicate IsLastMatch(layout: seq<Section>, probe: int, k: int) {
    0 <= k < |layout| && Contains(layout[k], probe)
    && forall j :: k < j < |layout| ==> !Contains(layout[j], probe)
  }

  /** No section contains `probe`. */
  predicate NoMatch(layout: seq<Section>, probe: int) {
    forall j :: 0 <= j < |layout| ==> !Contains(layout[j], probe)
  }

  /** The extents of distinct sections do not overlap. */
  predicate Disjoint(layout: seq<Section>) {
    forall i, j :: 0 <= i < j < |layout| ==>
      layout[i].top + layout[i].height <= layout[j].top || layout[j].top + layout[j].height <= layout[i].top
  }

  /** When some section contains the probe, the scan ends on the LAST such section. */
  lemma {:induction false} ScannedLastMatch(prev: string, layout: seq<Section>, probe: int, k: int)
    requires IsLastMatch(layout, probe, k)
    ensures Scanned(prev, layout, probe) == layout[k].id
  {
    var n := |layout| - 1;
    if k < n {
      assert IsLastMatch(layout[..n], probe, k);
      ScannedLastMatch(prev, layout[..n], probe, k);
    }
  }

  /** When no section contains the probe, the scan leaves the previous value in place. */
  lemma {:induction false} ScannedNoMatch(prev: string, layout: seq<Section>, probe: int)
    requires NoMatch(layout, probe)
    ensures Scanned(prev, layout, probe) == prev
  {
    if layout != [] {
      var n := |layout| - 1;
      assert NoMatch(layout[..n], probe);
      ScannedNoMatch(prev, layout[..n], probe);
    }
  }

  /** Every scan ends either on the previous value or on the identifier of the last matching section. */
  lemma ScannedCases(prev: string, layout: seq<Section>, probe: int)
    ensures NoMatch(layout, probe) ==> Scanned(prev, layout, probe) == prev
    ensures !NoMatch(layout, probe) ==>
      exists k :: IsLastMatch(layout, probe, k) && Scanned(prev, layout, probe) == layout[k].id
  {
    if NoMatch(layout, probe) {
      ScannedNoMatch(prev, layout, probe);
    } else {
      var k := LastMatch(layout, probe);
      ScannedLastMatch(prev, layout, probe, k);
    }
  }

  /** The position of the last section containing `probe`, when there is one. */
  lemma LastMatch(layout: seq<Section>, probe: int) returns (k: int)
    requires !NoMatch(layout, probe)
    ensures IsLastMatch(layout, probe, k)
  {
    k := |layout| - 1;
    while !Contains(layout[k], probe)
      invariant 0 <= k < |layout|
      invariant forall j :: k < j < |layout| ==> !Contains(layout[j], probe)
      decreases k
    {
      k := k - 1;
    }
  }

  /**
   * On a layout whose sections do not overlap, any section containing the probe
   * is the last one that does, so the last-match scan picks it out.
   */
  lemma DisjointScan(prev: string, layout: seq<Section>, probe: int, k: int)
    requires Disjoint(layout)
    requires 0 <= k < |layout| && Contains(layout[k], probe)
    ensures Scanned(prev, layout, probe) == layout[k].id
  {
    assert IsLastMatch(layout, probe, k);
    ScannedLastMatch(prev, layout, probe, k);
  }

  /** The identifiers of the navigation table are non-empty and pairwise distinct. */
  lemma SectionIdsDistinct()
    ensures forall k :: 0 <= k < |SectionIds| ==> SectionIds[k] != ""
    ensures forall i, j :: 0 <= i < j < |SectionIds| ==> SectionIds[i] != SectionIds[j]
  {
  }

  /**
   * On a page that renders the sections of the navigation table in table order,
   * the `k`-th menu entry finds the `k`-th section.
   */
  lemma MenuEntryFindsSection(layout: seq<Section>, k: int)
    requires |layout| == |SectionIds|
    requires forall i :: 0 <= i < |layout| ==> layout[i].id == SectionIds[i]
    requires 0 <= k < |SectionIds|
    ensures GetElementById(layout, SectionIds[k]) == Some(k)
  {
    SectionIdsDistinct();
    var r := GetElementById(layout, SectionIds[k]);
    assert layout[k].id == SectionIds[k];
  }
}
