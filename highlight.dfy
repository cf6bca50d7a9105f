/**
 * Active-section highlighting: on every scroll (and once when the page has
 * loaded) the section under a probe point 200 pixels below the scroll
 * offset becomes current, and the navigation links that point at it are
 * marked `active`.
 */
module SectionHighlight {
  import opened Text

  /** A `section[id]` element: its id, `offsetTop` and `offsetHeight`. */
  datatype Section = Section(id: string, top: int, height: int)

  /** How far below the scroll offset the probe point sits. */
  const ProbeOffset: real := 200.0

  /** The probe lies in the half-open band `[top, top + height)`. */
  predicate Contains(section: Section, probe: real) {
    section.top as real <= probe < (section.top + section.height) as real
  }

  /**
   * The current section for a probe: the id of the last section in document
   * order whose band contains it, or `""` when none does.
   */
  function CurrentSection(sections: seq<Section>, probe: real): string {
    if sections == [] then ""
    else
      var last := sections[|sections| - 1];
      if Contains(last, probe) then last.id
      else CurrentSection(sections[..|sections| - 1], probe)
  }

  /** Section `k` contains the probe and no later section does. */
  ghost predicate LastMatch(sections: seq<Section>, probe: real, k: int) {
    && 0 <= k < |sections|
    && Contains(sections[k], probe)
    && forall j | k < j < |sections| :: !Contains(sections[j], probe)
  }

  /** The last match wins, and no match gives the empty id. */
  lemma {:induction false} CurrentIsLastMatch(sections: seq<Section>, probe: real)
    ensures (forall k | 0 <= k < |sections| :: !Contains(sections[k], probe)) ==>
              CurrentSection(sections, probe) == ""
    ensures forall k | LastMatch(sections, probe, k) ::
              CurrentSection(sections, probe) == sections[k].id
  {
    if sections != [] {
      var n := |sections| - 1;
      var init := sections[..n];
      CurrentIsLastMatch(init, probe);
      forall k | LastMatch(sections, probe, k)
        ensures CurrentSection(sections, probe) == sections[k].id
      {
        if k < n {
          assert LastMatch(init, probe, k);
        }
      }
    }
  }

  /** When some section contains the probe, one of them is the last to do so. */
  lemma {:induction false} LastMatchExists(sections: seq<Section>, probe: real, k: int)
    requires 0 <= k < |sections| && Contains(sections[k], probe)
    ensures exists m :: LastMatch(sections, probe, m)
  {
    var n := |sections| - 1;
    if Contains(sections[n], probe) {
      assert LastMatch(sections, probe, n);
    } else {
      var init := sections[..n];
      assert Contains(init[k], probe);
      LastMatchExists(init, probe, k);
      var m :| LastMatch(init, probe, m);
      assert LastMatch(sections, probe, m);
    }
  }

  /** The scan `highlightNavItem` makes over the sections. */
  method ScanSections(sections: seq<Section>, pageYOffset: real) returns (current: string)
    ensures current == CurrentSection(sections, pageYOffset + ProbeOffset)
  {
    current := "";
    var scrollPosition := pageYOffset + ProbeOffset;
    for i := 0 to |sections|
      invariant current == CurrentSection(sections[..i], scrollPosition)
    {
      assert sections[..i + 1][..i] == sections[..i];
      if Contains(sections[i], scrollPosition) {
        current := sections[i].id;
      }
    }
    assert sections[..|sections|] == sections;
  }

  /** `href === '#' + current || href.includes(current)` */
  predicate Marked(href: string, current: string) {
    href == "#" + current || Includes(href, current)
  }

  /**
   * A link is marked exactly when the current id occurs in its href: the
   * `'#' + current` comparison never marks a link the substring test would
   * not.
   */
  lemma MarkedIffOccurs(href: string, current: string)
    ensures Marked(href, current) <==> exists i :: OccursAt(href, current, i)
  {
    IncludesIffOccurs(href, current);
    if href == "#" + current {
      assert href[1..1 + |current|] == current;
      assert OccursAt(href, current, 1);
    }
  }

  /** With no current section every link is marked. */
  lemma EmptyCurrentMarksEveryLink(href: string)
    ensures Marked(href, "")
  {
  }

  /** The layout read on one scroll event lists the sections found at load, in order. */
  ghost predicate LaidOut(sections: seq<Section>, ids: seq<string>) {
    |sections| == |ids| && forall k | 0 <= k < |ids| :: sections[k].id == ids[k]
  }

  /**
   * The sections (by id) and navigation links found at load time and the
   * `active` mark of each link. Section offsets are read anew on every
   * scroll, so they are a parameter of each event.
   */
  class Highlighter {
    const ids: seq<string>
    const hrefs: seq<string>
    const active: array<bool>

    ghost predicate Valid()
      reads this
    {
      active.Length == |hrefs|
    }

    /** The scroll listener is only attached when both lists are non-empty. */
    predicate Listening() {
      |ids| > 0 && |hrefs| > 0
    }

    constructor (ids: seq<string>, hrefs: seq<string>, marks: seq<bool>)
      requires |marks| == |hrefs|
      ensures Valid() && fresh(active)
      ensures this.ids == ids && this.hrefs == hrefs && active[..] == marks
    {
      this.ids := ids;
      this.hrefs := hrefs;
      active := new bool[|marks|](i requires 0 <= i < |marks| => marks[i]);
    }

    /**
     * Recomputes the current section from this event's layout and re-marks
     * every link from scratch.
     */
    method HighlightNavItem(sections: seq<Section>, pageYOffset: real)
      requires Valid() && LaidOut(sections, ids)
      modifies active
      ensures forall k | 0 <= k < |hrefs| ::
                active[k] == Marked(hrefs[k], CurrentSection(sections, pageYOffset + ProbeOffset))
    {
      var current := ScanSections(sections, pageYOffset);
      for k := 0 to active.Length
        invariant forall j | 0 <= j < k :: active[j] == Marked(hrefs[j], current)
      {
        active[k] := false;
        if hrefs[k] == "#" + current || Includes(hrefs[k], current) {
          active[k] := true;
        }
      }
    }

    /** A scroll event (or the load-time run): nothing happens without a listener. */
    method Scroll(sections: seq<Section>, pageYOffset: real)
      requires Valid() && LaidOut(sections, ids)
      modifies active
      ensures Listening() ==>
                forall k | 0 <= k < |hrefs| ::
                  active[k] == Marked(hrefs[k], CurrentSection(sections, pageYOffset + ProbeOffset))
      ensures !Listening() ==> active[..] == old(active[..])
    {
      if Listening() {
        HighlightNavItem(sections, pageYOffset);
      }
    }
  }
}
