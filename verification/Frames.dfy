/** The boot-time frame allocator: hands out the usable frames of the memory map one by one. */
module Frames {
  import opened Common

  const PAGE := 4096

  /** A region of physical memory, from `start` up to `end`. */
  datatype Region = Region(start: nat, end: nat, usable: bool)

  /** Region bounds are page-aligned, and regions do not overlap. */
  ghost predicate WellFormed(regions: seq<Region>) {
    && (forall i :: 0 <= i < |regions| ==>
          regions[i].start % PAGE == 0 && regions[i].end % PAGE == 0 && regions[i].start <= regions[i].end)
    && (forall i, j :: 0 <= i < j < |regions| ==>
          regions[i].end <= regions[j].start || regions[j].end <= regions[i].start
          || regions[i].start == regions[i].end || regions[j].start == regions[j].end)
  }

  /** `PhysFrame::containing_address`: the start of the frame that holds an address. */
  function FrameOf(addr: nat): nat { addr / PAGE * PAGE }

  /** The frames of one region: every 4096th address from its start. */
  function RegionFrames(r: Region): seq<nat> {
    if r.end <= r.start then []
    else
      var n := (r.end - r.start + PAGE - 1) / PAGE;
      seq(n, k requires 0 <= k < n => FrameOf(r.start + PAGE * k))
  }

  /** `usable_frames`: the frames of all usable regions, region after region. */
  function UsableFrames(regions: seq<Region>): seq<nat> {
    if regions == [] then []
    else UsableFrames(regions[..|regions| - 1])
         + if regions[|regions| - 1].usable then RegionFrames(regions[|regions| - 1]) else []
  }

  /** The frame `f` lies in region number `i`. */
  ghost predicate InRegion(regions: seq<Region>, f: nat, i: nat) {
    i < |regions| && regions[i].start <= f && f + PAGE <= regions[i].end
  }

  /** Of a page-aligned region: exactly its page-aligned addresses, in increasing order. */
  lemma RegionFramesExact(r: Region)
    requires r.start % PAGE == 0 && r.end % PAGE == 0 && r.start <= r.end
    ensures forall k :: 0 <= k < |RegionFrames(r)| ==>
              RegionFrames(r)[k] == r.start + PAGE * k && RegionFrames(r)[k] + PAGE <= r.end
    ensures |RegionFrames(r)| == (r.end - r.start) / PAGE
  {
  }

  /** Every frame handed out lies in a usable region. */
  lemma {:induction false} FrameIsUsable(regions: seq<Region>, k: nat) returns (i: nat)
    requires WellFormed(regions) && k < |UsableFrames(regions)|
    ensures InRegion(regions, UsableFrames(regions)[k], i) && regions[i].usable && UsableFrames(regions)[k] % PAGE == 0
  {
    var init, last := regions[..|regions| - 1], regions[|regions| - 1];
    RegionFramesExact(last);
    if k < |UsableFrames(init)| {
      i := FrameIsUsable(init, k);
    } else {
      i := |regions| - 1;
    }
  }

  /** Every page-aligned frame of a usable region is handed out. */
  lemma {:induction false} UsableIsFrame(regions: seq<Region>, f: nat, i: nat) returns (k: nat)
    requires WellFormed(regions) && InRegion(regions, f, i) && regions[i].usable && f % PAGE == 0
    ensures k < |UsableFrames(regions)| && UsableFrames(regions)[k] == f
  {
    var init, last := regions[..|regions| - 1], regions[|regions| - 1];
    RegionFramesExact(last);
    if i < |init| {
      k := UsableIsFrame(init, f, i);
    } else {
      k := |UsableFrames(init)| + (f - last.start) / PAGE;
    }
  }

  /** A frame lies in at most one region, so a usable frame is in no other region. */
  lemma DifferentRegions(regions: seq<Region>, f: nat, i: nat, g: nat, j: nat)
    requires WellFormed(regions) && InRegion(regions, f, i) && InRegion(regions, g, j) && i != j
    ensures f != g
  {
    var a, b := regions[if i < j then i else j], regions[if i < j then j else i];
    assert a.end <= b.start || b.end <= a.start || a.start == a.end || b.start == b.end;
  }

  /** No frame is handed out twice. */
  lemma {:induction false} FramesDistinct(regions: seq<Region>, j: nat, k: nat)
    requires WellFormed(regions) && j < k < |UsableFrames(regions)|
    ensures UsableFrames(regions)[j] != UsableFrames(regions)[k]
  {
    var init, last := regions[..|regions| - 1], regions[|regions| - 1];
    RegionFramesExact(last);
    var n := |UsableFrames(init)|;
    if k < n {
      FramesDistinct(init, j, k);
    } else if j < n {
      var i := FrameIsUsable(init, j);
      assert InRegion(regions, UsableFrames(regions)[j], i);
      assert InRegion(regions, UsableFrames(regions)[k], |regions| - 1);
      DifferentRegions(regions, UsableFrames(regions)[j], i, UsableFrames(regions)[k], |regions| - 1);
    }
  }

  /** The frames come in the order of the regions, and increase within a region. */
  lemma {:induction false} FramesOrdered(regions: seq<Region>, j: nat, k: nat) returns (a: nat, b: nat)
    requires WellFormed(regions) && j < k < |UsableFrames(regions)|
    ensures var f, g := UsableFrames(regions)[j], UsableFrames(regions)[k];
            && InRegion(regions, f, a) && regions[a].usable && f % 4096 == 0
            && InRegion(regions, g, b) && regions[b].usable && g % 4096 == 0
            && a <= b && (a == b ==> f < g)
  {
    var init := regions[..|regions| - 1];
    if k < |UsableFrames(init)| {
      a, b := FramesOrdered(init, j, k);
    } else {
      a, b := |init|, |init|;
      LastFrame(regions, k);
      if j < |UsableFrames(init)| {
        a := FrameIsUsable(init, j);
      } else {
        LastFrame(regions, j);
      }
    }
  }

  /** A frame behind those of the other regions is one of the last region. */
  lemma LastFrame(regions: seq<Region>, k: nat)
    requires WellFormed(regions) && regions != []
    requires |UsableFrames(regions[..|regions| - 1])| <= k < |UsableFrames(regions)|
    ensures var last, n := |regions| - 1, |UsableFrames(regions[..|regions| - 1])|;
            var f := UsableFrames(regions)[k];
            && f == regions[last].start + 4096 * (k - n) && f % 4096 == 0
            && InRegion(regions, f, last) && regions[last].usable
  {
    RegionFramesExact(regions[|regions| - 1]);
  }

  class BootInfoFrameAllocator {
    const memoryMap: seq<Region>
    var next: nat

    constructor (memoryMap: seq<Region>)
      ensures this.memoryMap == memoryMap && next == 0
    {
      this.memoryMap := memoryMap;
      next := 0;
    }

    method AllocateFrame() returns (frame: Option<nat>)
      modifies this
      ensures var all := UsableFrames(memoryMap);
              frame == (if old(next) < |all| then Some(all[old(next)]) else None) && next == old(next) + 1
    {
      var frames := UsableFrames(memoryMap);
      frame := if next < |frames| then Some(frames[next]) else None;
      next := next + 1;
    }

    /** `n` calls in a row yield consecutive usable frames, then nothing forever. */
    method AllocateFrames(n: nat) returns (frames: seq<Option<nat>>)
      modifies this
      ensures |frames| == n && next == old(next) + n
      ensures var all, from := UsableFrames(memoryMap), old(next);
              forall k :: 0 <= k < n ==> frames[k] == if from + k < |all| then Some(all[from + k]) else None
      ensures WellFormed(memoryMap) ==>
                forall j, k :: 0 <= j < k < n && frames[j].Some? && frames[k].Some? ==> frames[j] != frames[k]
      ensures forall j, k :: 0 <= j < k < n && frames[j].None? ==> frames[k].None?
    {
      frames := [];
      for i := 0 to n
        invariant |frames| == i && next == old(next) + i
        invariant var all, from := UsableFrames(memoryMap), old(next);
                  forall k :: 0 <= k < i ==> frames[k] == if from + k < |all| then Some(all[from + k]) else None
      {
        var f := AllocateFrame();
        frames := frames + [f];
      }
      if WellFormed(memoryMap) {
        forall j, k | 0 <= j < k < n && frames[j].Some? && frames[k].Some? ensures frames[j] != frames[k] {
          FramesDistinct(memoryMap, old(next) + j, old(next) + k);
        }
      }
    }
  }
}
