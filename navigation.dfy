/**
 * Pure definitions behind the section scroller and the in-page navigation:
 * the clamping of a target index, the mapping of wheel, swipe and key input
 * to a target, the search for the section under the probe point, the
 * "active" flags of the navigation links and the lookup from a link's href
 * to a section index.
 */
module Navigation {
  import opened Wrappers

  /** A `.section` element: its id and its vertical extent (offsetTop, offsetHeight). */
  datatype Section = Section(id: string, top: int, height: int)

  function Min(a: int, b: int): int { if a <= b then a else b }
  function Max(a: int, b: int): int { if a >= b then a else b }

  /** Math.max(0, Math.min(index, n - 1)): the index actually scrolled to. */
  function Clamp(index: int, n: int): (r: int)
    requires n >= 1
    ensures 0 <= r < n
    ensures 0 <= index < n ==> r == index
    ensures index < 0 ==> r == 0
    ensures index >= n ==> r == n - 1
  {
    Max(0, Min(index, n - 1))
  }

  /** Wheel input: a positive deltaY scrolls down one section, anything else up one. */
  function WheelStep(deltaY: int): (r: int)
    ensures r == 1 || r == -1
    ensures r == 1 <==> deltaY > 0
  {
    if deltaY > 0 then 1 else -1
  }

  const SwipeMinDistance: int := 50
  const SwipeMaxDuration: int := 500

  function Abs(x: int): int { if x < 0 then -x else x }

  /**
   * A touch gesture from (startY, startTime) to (endY, endTime): a swipe of
   * more than 50 pixels in less than 500 ms moves one section, towards the
   * next one when the finger moved up (startY - endY > 0).
   */
  function SwipeStep(startY: int, startTime: int, endY: int, endTime: int): (r: Option<int>)
    ensures r.Some? <==> Abs(startY - endY) > SwipeMinDistance && endTime - startTime < SwipeMaxDuration
    ensures r.Some? ==> (r.value == 1 <==> startY > endY) && (r.value == -1 <==> startY < endY)
  {
    var deltaY := startY - endY;
    var deltaTime := endTime - startTime;
    if Abs(deltaY) > SwipeMinDistance && deltaTime < SwipeMaxDuration then
      Some(if deltaY > 0 then 1 else -1)
    else
      None
  }

  predicate IsNextKey(key: string) { key == "ArrowDown" || key == "PageDown" }
  predicate IsPrevKey(key: string) { key == "ArrowUp" || key == "PageUp" }
  predicate IsNavKey(key: string) { IsNextKey(key) || IsPrevKey(key) || key == "Home" || key == "End" }

  /** The target handed to scrollToSection for a key press, or None for any other key. */
  function KeyTarget(key: string, current: int, n: int): (r: Option<int>)
    ensures r.Some? <==> IsNavKey(key)
    ensures IsNextKey(key) ==> r == Some(current + 1)
    ensures IsPrevKey(key) ==> r == Some(current - 1)
    ensures key == "Home" ==> r == Some(0)
    ensures key == "End" ==> r == Some(n - 1)
    ensures r.Some? && 0 <= current < n ==> -1 <= r.value <= n
  {
    if IsNextKey(key) then Some(current + 1)
    else if IsPrevKey(key) then Some(current - 1)
    else if key == "Home" then Some(0)
    else if key == "End" then Some(n - 1)
    else None
  }

  /**
   * Where each key press lands once clamped: next and previous move one
   * section and stop at the ends, Home and End go to the first and last
   * section, every other key is ignored.
   */
  lemma KeyLanding(key: string, current: int, n: int)
    requires 0 <= current < n
    ensures KeyTarget(key, current, n).Some? <==> IsNavKey(key)
    ensures IsNextKey(key) ==> Clamp(KeyTarget(key, current, n).value, n) == Min(current + 1, n - 1)
    ensures IsPrevKey(key) ==> Clamp(KeyTarget(key, current, n).value, n) == Max(current - 1, 0)
    ensures key == "Home" ==> Clamp(KeyTarget(key, current, n).value, n) == 0
    ensures key == "End" ==> Clamp(KeyTarget(key, current, n).value, n) == n - 1
  {
  }

  /** At the last section "next" lands where it started; at the first, "previous" does. */
  lemma BoundsAreFixedPoints(n: int)
    requires n >= 1
    ensures Clamp(n - 1 + 1, n) == n - 1
    ensures Clamp(0 - 1, n) == 0
  {
  }

  /** The probe point lies in the half-open extent [top, top + height) of the section. */
  predicate Contains(s: Section, p: int)
  {
    s.top <= p < s.top + s.height
  }

  /** The first section whose extent contains p, if any. */
  function FirstContaining(sections: seq<Section>, p: int): (r: Option<nat>)
    ensures r.Some? ==> r.value < |sections| && Contains(sections[r.value], p)
    ensures r.Some? ==> forall j :: 0 <= j < r.value ==> !Contains(sections[j], p)
    ensures r.None? <==> forall j :: 0 <= j < |sections| ==> !Contains(sections[j], p)
  {
    if |sections| == 0 then None
    else if Contains(sections[0], p) then Some(0)
    else
      match FirstContaining(sections[1..], p)
      case None => None
      case Some(i) => Some(i + 1)
  }

  /** The href of the nav link that belongs to a section id. */
  function LinkFor(id: string): string
  {
    "#" + id
  }

  /** The "active" class of each nav link after updateActiveNavLink for the section id. */
  function ActiveFlags(hrefs: seq<string>, id: string): (r: seq<bool>)
    ensures |r| == |hrefs|
  {
    if |hrefs| == 0 then [] else [hrefs[0] == LinkFor(id)] + ActiveFlags(hrefs[1..], id)
  }

  function CountTrue(flags: seq<bool>): nat
  {
    if |flags| == 0 then 0 else (if flags[0] then 1 else 0) + CountTrue(flags[1..])
  }

  function Occurrences(hrefs: seq<string>, h: string): nat
  {
    if |hrefs| == 0 then 0 else (if hrefs[0] == h then 1 else 0) + Occurrences(hrefs[1..], h)
  }

  predicate Distinct<T(==)>(s: seq<T>)
  {
    forall i, j :: 0 <= i < j < |s| ==> s[i] != s[j]
  }

  /** A link is active exactly when its href is "#" followed by the section id. */
  lemma {:induction false} ActiveIffLinked(hrefs: seq<string>, id: string, i: int)
    requires 0 <= i < |hrefs|
    ensures ActiveFlags(hrefs, id)[i] <==> hrefs[i] == "#" + id
  {
    if i > 0 {
      ActiveIffLinked(hrefs[1..], id, i - 1);
    }
  }

  /** The number of active links is the number of links pointing at the section. */
  lemma {:induction false} ActiveCount(hrefs: seq<string>, id: string)
    ensures CountTrue(ActiveFlags(hrefs, id)) == Occurrences(hrefs, LinkFor(id))
  {
    if |hrefs| > 0 {
      ActiveCount(hrefs[1..], id);
    }
  }

  lemma {:induction false} OccurrencesOfDistinct(hrefs: seq<string>, h: string)
    requires Distinct(hrefs)
    ensures Occurrences(hrefs, h) == if h in hrefs then 1 else 0
  {
    if |hrefs| > 0 {
      assert Distinct(hrefs[1..]);
      OccurrencesOfDistinct(hrefs[1..], h);
      if hrefs[0] == h {
        assert h !in hrefs[1..] by {
          forall k | 0 <= k < |hrefs| - 1 ensures hrefs[1..][k] != h {
            assert hrefs[0] != hrefs[k + 1];
          }
        }
      } else {
        assert h in hrefs <==> h in hrefs[1..] by {
          assert hrefs == [hrefs[0]] + hrefs[1..];
        }
      }
    }
  }

  /**
   * With distinct hrefs, exactly one link is active when some link points at
   * the section and none is active otherwise.
   */
  lemma ExactlyOneActive(hrefs: seq<string>, id: string)
    requires Distinct(hrefs)
    ensures CountTrue(ActiveFlags(hrefs, id)) == if LinkFor(id) in hrefs then 1 else 0
  {
    ActiveCount(hrefs, id);
    OccurrencesOfDistinct(hrefs, LinkFor(id));
  }

  /** href.substring(1): the href without its first character ("" stays ""). */
  function TargetId(href: string): (r: string)
    ensures |href| > 0 ==> href == [href[0]] + r
    ensures |href| == 0 ==> r == ""
  {
    if |href| == 0 then "" else href[1..]
  }

  /** The first section with the given id, if any. */
  function IndexOfId(sections: seq<Section>, id: string): (r: Option<nat>)
    ensures r.Some? ==> r.value < |sections| && sections[r.value].id == id
    ensures r.Some? ==> forall j :: 0 <= j < r.value ==> sections[j].id != id
    ensures r.None? <==> forall j :: 0 <= j < |sections| ==> sections[j].id != id
  {
    if |sections| == 0 then None
    else if sections[0].id == id then Some(0)
    else
      match IndexOfId(sections[1..], id)
      case None => None
      case Some(i) => Some(i + 1)
  }

  /**
   * The section index a click on a link with this href scrolls to:
   * getElementById finds nothing for an empty id, and an element that is not
   * one of the sections has no index.
   */
  function NavTarget(sections: seq<Section>, href: string): (r: Option<nat>)
    ensures r.Some? ==> r.value < |sections| && TargetId(href) != "" && sections[r.value].id == TargetId(href)
    ensures r.Some? ==> forall j :: 0 <= j < r.value ==> sections[j].id != TargetId(href)
    ensures r.None? <==> TargetId(href) == "" || forall j :: 0 <= j < |sections| ==> sections[j].id != TargetId(href)
  {
    var id := TargetId(href);
    if id == "" then None else IndexOfId(sections, id)
  }

  function Ids(sections: seq<Section>): seq<string>
  {
    seq(|sections|, i requires 0 <= i < |sections| => sections[i].id)
  }

  /**
   * Round trip between the two halves of the navigation: when section ids
   * are non-empty and distinct, clicking the link "#" + id of section i
   * scrolls to section i, and the active flags for section i mark exactly
   * the links whose href is that "#" + id.
   */
  lemma NavClickRoundTrip(sections: seq<Section>, links: seq<string>, i: int)
    requires 0 <= i < |sections|
    requires Distinct(Ids(sections))
    requires sections[i].id != ""
    ensures NavTarget(sections, LinkFor(sections[i].id)) == Some(i)
    ensures forall k :: 0 <= k < |links| ==>
      (ActiveFlags(links, sections[i].id)[k] <==> links[k] == LinkFor(sections[i].id))
  {
    forall k | 0 <= k < |links|
      ensures ActiveFlags(links, sections[i].id)[k] <==> links[k] == LinkFor(sections[i].id)
    {
      ActiveIffLinked(links, sections[i].id, k);
    }
    var id := sections[i].id;
    assert TargetId(LinkFor(id)) == id by {
      assert LinkFor(id) == ['#'] + id;
    }
    var r := IndexOfId(sections, id);
    assert r.Some?;
    assert Ids(sections)[r.value] == Ids(sections)[i];
  }
}
