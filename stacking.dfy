/**
 * The restacking pass of `Notify` (src/main.py) as a function on the open windows, oldest first:
 * every window moves down by its own height plus the padding, and a window whose new top edge
 * reaches the screen-height threshold is closed instead of moved.
 */
module Stacking {

  /** One open window as the pass sees it: its notification id, top edge and height. */
  datatype Slot = Slot(id: nat, pos: int, height: int)

  /** The slot after the shift of the pass. */
  function Shifted(s: Slot, padding: int): (r: Slot)
    ensures r.id == s.id && r.height == s.height
    ensures r.pos - s.pos == s.height + padding
  {
    s.(pos := s.pos + s.height + padding)
  }

  /** The shifted top edge reaches the threshold: the window is closed. */
  predicate Overflows(s: Slot, padding: int, threshold: int)
  {
    Shifted(s, padding).pos >= threshold
  }

  /** The windows the pass leaves open, shifted, in their order. */
  function Kept(slots: seq<Slot>, padding: int, threshold: int): (r: seq<Slot>)
    ensures |r| <= |slots|
    ensures forall k :: 0 <= k < |r| ==> r[k].pos < threshold
  {
    if slots == [] then []
    else
      var last := slots[|slots| - 1];
      Kept(slots[..|slots| - 1], padding, threshold)
        + (if Overflows(last, padding, threshold) then [] else [Shifted(last, padding)])
  }

  /** The ids of the windows the pass closes, in the order it closes them. */
  function ForcedCloses(slots: seq<Slot>, padding: int, threshold: int): (r: seq<nat>)
    ensures |r| <= |slots|
  {
    if slots == [] then []
    else
      var last := slots[|slots| - 1];
      ForcedCloses(slots[..|slots| - 1], padding, threshold)
        + (if Overflows(last, padding, threshold) then [last.id] else [])
  }

  function Ids(slots: seq<Slot>): (r: seq<nat>)
    ensures |r| == |slots| && forall k :: 0 <= k < |slots| ==> r[k] == slots[k].id
  {
    seq(|slots|, k requires 0 <= k < |slots| => slots[k].id)
  }

  /** The stack after a new window of the given height is shown at the top padding. */
  function Restack(slots: seq<Slot>, newId: nat, newHeight: int, padding: int, threshold: int): (r: seq<Slot>)
    ensures |r| >= 1 && r[|r| - 1] == Slot(newId, padding, newHeight)
    ensures r[..|r| - 1] == Kept(slots, padding, threshold)
  {
    Kept(slots, padding, threshold) + [Slot(newId, padding, newHeight)]
  }

  predicate Increasing(s: seq<nat>)
  {
    forall i, j :: 0 <= i < j < |s| ==> s[i] < s[j]
  }

  /**
   * The stack after an arrival is fit to show: every window in it sits above the threshold, and
   * when the old ids rise and all lie below the new id, the new stack's ids rise too.
   */
  lemma RestackShape(slots: seq<Slot>, newId: nat, newHeight: int, padding: int, threshold: int)
    requires padding < threshold
    ensures var r := Restack(slots, newId, newHeight, padding, threshold);
      forall k :: 0 <= k < |r| ==> r[k].pos < threshold
    ensures Increasing(Ids(slots)) && (forall k :: 0 <= k < |slots| ==> slots[k].id < newId) ==>
      Increasing(Ids(Restack(slots, newId, newHeight, padding, threshold)))
  {
    var r := Restack(slots, newId, newHeight, padding, threshold);
    var kept := Kept(slots, padding, threshold);
    assert r == kept + [Slot(newId, padding, newHeight)];
    if Increasing(Ids(slots)) && (forall k :: 0 <= k < |slots| ==> slots[k].id < newId) {
      KeptIncreasing(slots, padding, threshold);
      forall a | 0 <= a < |kept|
        ensures kept[a].id < newId
      {
        assert kept[a] in kept;
        KeptIff(slots, padding, threshold, kept[a]);
      }
      forall a, b | 0 <= a < b < |r|
        ensures Ids(r)[a] < Ids(r)[b]
      {
        assert r[a] == kept[a];
        if b < |kept| {
          assert r[b] == kept[b];
          assert Ids(kept)[a] < Ids(kept)[b];
        }
      }
    }
  }

  /** One more slot extends both outcomes of the pass by that slot's outcome. */
  lemma PassStep(slots: seq<Slot>, i: nat, padding: int, threshold: int)
    requires i < |slots|
    ensures Kept(slots[..i + 1], padding, threshold) == Kept(slots[..i], padding, threshold)
      + (if Overflows(slots[i], padding, threshold) then [] else [Shifted(slots[i], padding)])
    ensures ForcedCloses(slots[..i + 1], padding, threshold) == ForcedCloses(slots[..i], padding, threshold)
      + (if Overflows(slots[i], padding, threshold) then [slots[i].id] else [])
  {
    assert slots[..i + 1][..i] == slots[..i];
  }

  /** A window stays open, shifted, exactly when its shifted top edge is above the threshold. */
  lemma {:induction false} KeptIff(slots: seq<Slot>, padding: int, threshold: int, s: Slot)
    ensures s in Kept(slots, padding, threshold) <==>
      exists j :: 0 <= j < |slots| && !Overflows(slots[j], padding, threshold) && s == Shifted(slots[j], padding)
  {
    if slots != [] {
      var init := slots[..|slots| - 1];
      KeptIff(init, padding, threshold, s);
      if s in Kept(init, padding, threshold) {
        var j :| 0 <= j < |init| && !Overflows(init[j], padding, threshold) && s == Shifted(init[j], padding);
        assert slots[j] == init[j];
      }
      if exists j :: 0 <= j < |slots| && !Overflows(slots[j], padding, threshold) && s == Shifted(slots[j], padding) {
        var j :| 0 <= j < |slots| && !Overflows(slots[j], padding, threshold) && s == Shifted(slots[j], padding);
        if j < |slots| - 1 {
          assert init[j] == slots[j];
        }
      }
    }
  }

  /** A window is force-closed exactly when its shifted top edge reaches the threshold. */
  lemma {:induction false} ForcedClosesIff(slots: seq<Slot>, padding: int, threshold: int, x: nat)
    ensures x in ForcedCloses(slots, padding, threshold) <==>
      exists j :: 0 <= j < |slots| && Overflows(slots[j], padding, threshold) && slots[j].id == x
  {
    if slots != [] {
      var init := slots[..|slots| - 1];
      ForcedClosesIff(init, padding, threshold, x);
      if x in ForcedCloses(init, padding, threshold) {
        var j :| 0 <= j < |init| && Overflows(init[j], padding, threshold) && init[j].id == x;
        assert slots[j] == init[j];
      }
      if exists j :: 0 <= j < |slots| && Overflows(slots[j], padding, threshold) && slots[j].id == x {
        var j :| 0 <= j < |slots| && Overflows(slots[j], padding, threshold) && slots[j].id == x;
        if j < |slots| - 1 {
          assert init[j] == slots[j];
        }
      }
    }
  }

  /** Every window is either kept or closed, never both, never neither. */
  lemma {:induction false} PassPartitions(slots: seq<Slot>, padding: int, threshold: int)
    ensures |Kept(slots, padding, threshold)| + |ForcedCloses(slots, padding, threshold)| == |slots|
  {
    if slots != [] {
      PassPartitions(slots[..|slots| - 1], padding, threshold);
    }
  }

  /** The pass keeps the windows in their order: increasing ids stay increasing. */
  lemma KeptIncreasing(slots: seq<Slot>, padding: int, threshold: int)
    requires Increasing(Ids(slots))
    ensures Increasing(Ids(Kept(slots, padding, threshold)))
  {
    var r := Kept(slots, padding, threshold);
    forall a, b | 0 <= a < b < |r|
      ensures r[a].id < r[b].id
    {
      KeptOrder(slots, padding, threshold, a, b);
    }
  }

  /** Two kept windows come from two windows in the same order. */
  lemma {:induction false} KeptOrder(slots: seq<Slot>, padding: int, threshold: int, a: nat, b: nat)
    requires Increasing(Ids(slots))
    requires a < b < |Kept(slots, padding, threshold)|
    ensures Kept(slots, padding, threshold)[a].id < Kept(slots, padding, threshold)[b].id
  {
    var init := slots[..|slots| - 1];
    var ki := Kept(init, padding, threshold);
    var r := Kept(slots, padding, threshold);
    assert Increasing(Ids(init)) by {
      forall i, j | 0 <= i < j < |init|
        ensures Ids(init)[i] < Ids(init)[j]
      {
        assert Ids(slots)[i] < Ids(slots)[j];
      }
    }
    if b < |ki| {
      KeptOrder(init, padding, threshold, a, b);
    } else {
      assert r[b] == Shifted(slots[|slots| - 1], padding);
      assert r[a] == ki[a];
      KeptIff(init, padding, threshold, ki[a]);
      var j :| 0 <= j < |init| && !Overflows(init[j], padding, threshold) && ki[a] == Shifted(init[j], padding);
      assert Ids(slots)[j] < Ids(slots)[|slots| - 1];
    }
  }

  // ---------------------------------------------------------------------------
  // Stacks of equal heights

  /**
   * Windows of one height `h`, the newest at the top padding and each older one a height
   * plus a padding lower than the next newer one.
   */
  predicate EvenStack(slots: seq<Slot>, h: int, padding: int)
  {
    forall j :: 0 <= j < |slots| ==> slots[j].height == h && slots[j].pos == padding + (|slots| - 1 - j) * (h + padding)
  }

  lemma MulMonotone(a: int, b: int, c: int)
    requires 0 <= a <= b && 0 <= c
    ensures a * c <= b * c
  {
  }

  /** In an even stack the older window is never above a newer one, so the oldest leave first. */
  lemma OldestLeaveFirst(slots: seq<Slot>, h: int, padding: int, threshold: int, j: nat, k: nat)
    requires EvenStack(slots, h, padding) && h + padding >= 0
    requires j < k < |slots| && Overflows(slots[k], padding, threshold)
    ensures Overflows(slots[j], padding, threshold)
  {
    MulMonotone(|slots| - 1 - k, |slots| - 1 - j, h + padding);
  }

  /** Shifting every window of an even stack by `h + padding` leaves room for one more on top. */
  lemma ShiftAllEven(slots: seq<Slot>, h: int, padding: int, threshold: int, newId: nat)
    requires EvenStack(slots, h, padding)
    requires forall j :: 0 <= j < |slots| ==> !Overflows(slots[j], padding, threshold)
    ensures EvenStack(Restack(slots, newId, h, padding, threshold), h, padding)
  {
    var r := Restack(slots, newId, h, padding, threshold);
    KeptNone(slots, padding, threshold);
    forall j | 0 <= j < |r|
      ensures r[j].height == h && r[j].pos == padding + (|r| - 1 - j) * (h + padding)
    {
      if j < |slots| {
        assert r[j] == Shifted(slots[j], padding);
        assert (|slots| - 1 - j) * (h + padding) + (h + padding) == (|slots| - j) * (h + padding);
      }
    }
  }

  /** With no window over the threshold, the pass shifts every window. */
  lemma {:induction false} KeptNone(slots: seq<Slot>, padding: int, threshold: int)
    requires forall j :: 0 <= j < |slots| ==> !Overflows(slots[j], padding, threshold)
    ensures Kept(slots, padding, threshold) == seq(|slots|, k requires 0 <= k < |slots| => Shifted(slots[k], padding))
  {
    if slots != [] {
      KeptNone(slots[..|slots| - 1], padding, threshold);
    }
  }

  /** Dropping an overflowing oldest window does not change what the pass keeps. */
  lemma {:induction false} KeptDropFirst(slots: seq<Slot>, padding: int, threshold: int)
    requires slots != [] && Overflows(slots[0], padding, threshold)
    ensures Kept(slots, padding, threshold) == Kept(slots[1..], padding, threshold)
  {
    if |slots| > 1 {
      var init := slots[..|slots| - 1];
      KeptDropFirst(init, padding, threshold);
      assert init[1..] == slots[1..][..|slots[1..]| - 1];
    } else {
      assert slots[..0] == [];
    }
  }

  /**
   * When every window has the same height as the new one, the restacked windows again form an
   * even stack: no gaps and no overlaps.
   */
  lemma {:induction false} EvenStackStaysEven(slots: seq<Slot>, h: int, padding: int, threshold: int, newId: nat)
    requires EvenStack(slots, h, padding) && h + padding >= 0
    ensures EvenStack(Restack(slots, newId, h, padding, threshold), h, padding)
  {
    if slots == [] {
    } else if Overflows(slots[0], padding, threshold) {
      KeptDropFirst(slots, padding, threshold);
      var rest := slots[1..];
      assert EvenStack(rest, h, padding) by {
        forall j | 0 <= j < |rest|
          ensures rest[j].height == h && rest[j].pos == padding + (|rest| - 1 - j) * (h + padding)
        {
          assert rest[j] == slots[j + 1];
        }
      }
      EvenStackStaysEven(rest, h, padding, threshold, newId);
    } else {
      forall j | 0 <= j < |slots|
        ensures !Overflows(slots[j], padding, threshold)
      {
        if j > 0 && Overflows(slots[j], padding, threshold) {
          OldestLeaveFirst(slots, h, padding, threshold, 0, j);
        }
      }
      ShiftAllEven(slots, h, padding, threshold, newId);
    }
  }

  /**
   * The shift uses each window's own height, not the new window's: a 50-high window at the top
   * moves to 70 when a 100-high window arrives at 10, inside the newcomer's span.
   */
  lemma ShiftIgnoresNewcomerHeight()
    ensures Restack([Slot(1, 10, 50)], 2, 100, 10, 800) == [Slot(1, 70, 50), Slot(2, 10, 100)]
  {
    assert [Slot(1, 10, 50)][..0] == [];
  }
}
