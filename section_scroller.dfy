/**
 * The forced section scroller: a current section index kept in range, a
 * scrolling lock set by every real move and released by the 800 ms settle
 * timer, input handlers gated by that lock, the positional update on scroll
 * and the "active" flags of the navigation links. The lookup of a clicked
 * link's section, which delegates to the scroller, is the SmoothNavigation
 * class below.
 */
module Scroller {
  import opened Wrappers
  import opened Navigation

  class SectionScroller {
    /** The `.section` elements, in document order. */
    const sections: seq<Section>
    /** The href of each `.nav-links a` element, in document order. */
    const links: seq<string>

    var currentSection: nat
    var isScrolling: bool
    /** Settle timers scheduled and not yet fired (each clears isScrolling when it fires). */
    var pendingUnlocks: nat
    /** The "active" class of each nav link. */
    var active: seq<bool>
    /** The tops passed to window.scrollTo, oldest first. */
    var scrollRequests: seq<int>
    /** Where and when the current touch began (0, 0 before any touchstart). */
    var touchStartY: int
    var touchStartTime: int

    ghost predicate Valid()
      reads this
    {
      && |sections| >= 1
      && currentSection < |sections|
      && |active| == |links|
      && (isScrolling ==> pendingUnlocks > 0)
    }

    /**
     * The effect of scrollToSection(index): when the clamped target is the
     * current section nothing changes; otherwise the lock is set, one settle
     * timer is scheduled, the index moves to the target, the window is asked
     * to scroll to the target's top and the target's nav link becomes the
     * only active one. The touch state is never touched.
     */
    twostate predicate ScrolledTo(index: int)
      reads this
      requires |sections| >= 1
    {
      var t := Clamp(index, |sections|);
      && touchStartY == old(touchStartY)
      && touchStartTime == old(touchStartTime)
      && if t == old(currentSection) then
           && currentSection == old(currentSection)
           && isScrolling == old(isScrolling)
           && pendingUnlocks == old(pendingUnlocks)
           && active == old(active)
           && scrollRequests == old(scrollRequests)
         else
           && currentSection == t
           && isScrolling
           && pendingUnlocks == old(pendingUnlocks) + 1
           && active == ActiveFlags(links, sections[t].id)
           && scrollRequests == old(scrollRequests) + [sections[t].top]
    }

    /** The state the handlers leave behind when the lock drops their input. */
    twostate predicate Unchanged()
      reads this
    {
      && currentSection == old(currentSection)
      && isScrolling == old(isScrolling)
      && pendingUnlocks == old(pendingUnlocks)
      && active == old(active)
      && scrollRequests == old(scrollRequests)
      && touchStartY == old(touchStartY)
      && touchStartTime == old(touchStartTime)
    }

    /**
     * Construction followed by init(): index 0, unlocked, then the
     * positional update at the initial probe point.
     */
    constructor (sections: seq<Section>, links: seq<string>, initialActive: seq<bool>, probe: int)
      requires |sections| >= 1
      requires |initialActive| == |links|
      ensures Valid()
      ensures this.sections == sections && this.links == links
      ensures !isScrolling && pendingUnlocks == 0 && scrollRequests == []
      ensures touchStartY == 0 && touchStartTime == 0
      ensures match FirstContaining(sections, probe)
              case None => currentSection == 0 && active == initialActive
              case Some(i) => currentSection == i && active == ActiveFlags(links, sections[i].id)
    {
      this.sections := sections;
      this.links := links;
      currentSection := 0;
      isScrolling := false;
      pendingUnlocks := 0;
      active := initialActive;
      scrollRequests := [];
      touchStartY := 0;
      touchStartTime := 0;
      new;
      UpdateCurrentSection(probe);
    }

    /** scrollToSection: clamp, ignore a move to the current section, otherwise lock and go. */
    method ScrollToSection(index: int)
      requires Valid()
      modifies this
      ensures Valid()
      ensures ScrolledTo(index)
    {
      var target := Clamp(index, |sections|);
      if target == currentSection {
        return;
      }
      // The settle timer is counted together with the lock it will release.
      isScrolling := true;
      pendingUnlocks := pendingUnlocks + 1;
      currentSection := target;
      scrollRequests := scrollRequests + [sections[target].top];
      UpdateActiveNavLink();
    }

    /** One of the scheduled 800 ms settle timers fires and releases the lock. */
    method Unlock()
      requires Valid()
      requires pendingUnlocks > 0
      modifies this
      ensures Valid()
      ensures !isScrolling && pendingUnlocks == old(pendingUnlocks) - 1
      ensures currentSection == old(currentSection) && active == old(active)
      ensures scrollRequests == old(scrollRequests)
      ensures touchStartY == old(touchStartY) && touchStartTime == old(touchStartTime)
    {
      isScrolling := false;
      pendingUnlocks := pendingUnlocks - 1;
    }

    /** handleWheel: dropped while locked; otherwise one section down for deltaY > 0, up otherwise. */
    method HandleWheel(deltaY: int)
      requires Valid()
      modifies this
      ensures Valid()
      ensures old(isScrolling) ==> Unchanged()
      ensures !old(isScrolling) ==> ScrolledTo(old(currentSection) + WheelStep(deltaY))
    {
      if isScrolling {
        return;
      }
      ScrollToSection(currentSection + WheelStep(deltaY));
    }

    /** touchstart: remembers where and when the touch began; not gated by the lock. */
    method TouchStart(y: int, time: int)
      requires Valid()
      modifies this
      ensures Valid()
      ensures touchStartY == y && touchStartTime == time
      ensures currentSection == old(currentSection) && isScrolling == old(isScrolling)
      ensures pendingUnlocks == old(pendingUnlocks) && active == old(active)
      ensures scrollRequests == old(scrollRequests)
    {
      touchStartY := y;
      touchStartTime := time;
    }

    /** touchend: dropped while locked; a quick, long enough swipe moves one section. */
    method TouchEnd(y: int, time: int)
      requires Valid()
      modifies this
      ensures Valid()
      ensures old(isScrolling) ==> Unchanged()
      ensures !old(isScrolling) ==>
        match SwipeStep(old(touchStartY), old(touchStartTime), y, time)
        case None => Unchanged()
        case Some(step) => ScrolledTo(old(currentSection) + step)
    {
      if isScrolling {
        return;
      }
      var step := SwipeStep(touchStartY, touchStartTime, y, time);
      if step.Some? {
        ScrollToSection(currentSection + step.value);
      }
    }

    /** handleKeydown: dropped while locked; next, previous, Home and End keys navigate. */
    method HandleKeydown(key: string)
      requires Valid()
      modifies this
      ensures Valid()
      ensures old(isScrolling) ==> Unchanged()
      ensures !old(isScrolling) ==>
        match KeyTarget(key, old(currentSection), |sections|)
        case None => Unchanged()
        case Some(target) => ScrolledTo(target)
    {
      if isScrolling {
        return;
      }
      var target := KeyTarget(key, currentSection, |sections|);
      if target.Some? {
        ScrollToSection(target.value);
      }
    }

    /**
     * updateCurrentSection: dropped while locked; otherwise the first section
     * containing the probe point p becomes current and its link active. When
     * no section contains p nothing changes. The lock is not set.
     */
    method UpdateCurrentSection(p: int)
      requires Valid()
      modifies this
      ensures Valid()
      ensures old(isScrolling) ==> Unchanged()
      ensures !old(isScrolling) ==>
        && isScrolling == old(isScrolling)
        && pendingUnlocks == old(pendingUnlocks)
        && scrollRequests == old(scrollRequests)
        && touchStartY == old(touchStartY) && touchStartTime == old(touchStartTime)
        && match FirstContaining(sections, p)
           case None => currentSection == old(currentSection) && active == old(active)
           case Some(i) => currentSection == i && active == ActiveFlags(links, sections[i].id)
    {
      if isScrolling {
        return;
      }
      var i := 0;
      while i < |sections|
        invariant 0 <= i <= |sections|
        invariant forall j :: 0 <= j < i ==> !Contains(sections[j], p)
        invariant Unchanged()
      {
        var sectionTop := sections[i].top;
        var sectionBottom := sectionTop + sections[i].height;
        if p >= sectionTop && p < sectionBottom {
          currentSection := i;
          UpdateActiveNavLink();
          break;
        }
        i := i + 1;
      }
    }

    /** updateActiveNavLink: every link loses "active"; the one for the current section gains it. */
    method UpdateActiveNavLink()
      requires Valid()
      modifies this`active
      ensures Valid()
      ensures active == ActiveFlags(links, sections[currentSection].id)
    {
      var currentSectionId := sections[currentSection].id;
      var i := 0;
      while i < |links|
        invariant 0 <= i <= |links|
        invariant |active| == |links|
        invariant forall j :: 0 <= j < i ==> active[j] == (links[j] == LinkFor(currentSectionId))
      {
        active := active[i := false];
        if links[i] == "#" + currentSectionId {
          active := active[i := true];
        }
        i := i + 1;
      }
      forall j | 0 <= j < |links|
        ensures active[j] == ActiveFlags(links, currentSectionId)[j]
      {
        ActiveIffLinked(links, currentSectionId, j);
      }
    }
  }

  /** In-page anchor clicks, delegated to the scroller's indexed navigation. */
  class SmoothNavigation {
    const scroller: SectionScroller

    constructor (scroller: SectionScroller)
      ensures this.scroller == scroller
    {
      this.scroller := scroller;
    }

    /**
     * handleNavClick: strip the leading character of the href, find the
     * section with that id and scroll to it; a missing section is ignored.
     * The click is not gated by the scroller's lock.
     */
    method HandleNavClick(href: string)
      requires scroller.Valid()
      modifies scroller
      ensures scroller.Valid()
      ensures match NavTarget(scroller.sections, href)
              case None => scroller.Unchanged()
              case Some(i) => scroller.ScrolledTo(i)
    {
      var target := NavTarget(scroller.sections, href);
      if target.Some? {
        scroller.ScrollToSection(target.value);
      }
    }
  }

  /** A second command before the settle timer fires is dropped, not queued. */
  method LockDropsSecondCommand()
  {
    var s0 := Section("home", 0, 100);
    var s1 := Section("about", 100, 100);
    var s2 := Section("contact", 200, 100);
    var scroller := new SectionScroller([s0, s1, s2], ["#home", "#about", "#contact"], [true, false, false], 50);
    assert Contains(s0, 50);
    assert scroller.currentSection == 0;
    scroller.HandleKeydown("ArrowDown");
    assert scroller.currentSection == 1 && scroller.isScrolling;
    ActiveIffLinked(scroller.links, "about", 0);
    ActiveIffLinked(scroller.links, "about", 1);
    ActiveIffLinked(scroller.links, "about", 2);
    assert scroller.active[0] == false && scroller.active[1] == true && scroller.active[2] == false;
    scroller.HandleKeydown("ArrowDown");
    assert scroller.currentSection == 1;
    scroller.UpdateCurrentSection(250);
    assert scroller.currentSection == 1;
    scroller.Unlock();
    scroller.HandleKeydown("End");
    assert scroller.currentSection == 2;
    scroller.Unlock();
    scroller.HandleWheel(3);
    assert scroller.currentSection == 2 && !scroller.isScrolling;
  }
}
