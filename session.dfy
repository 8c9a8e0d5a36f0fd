/**
 * The notification daemon's session object (`Notifications` in src/main.py): the id counter, the
 * table of open windows in insertion order, the pending expiry timers, the signals it emits
 * and the outside commands its action router runs.
 */
module Session {
  import opened Wrappers
  import Text
  import Parser
  import Window
  import Router
  import Stacking

  /** `ClosedReason`: why a notification was closed, as the NotificationClosed signal reports it. */
  datatype ClosedReason = Expired | Dismissed | ClosedByCall

  function Code(r: ClosedReason): (c: nat)
    ensures 1 <= c <= 3
  {
    match r
    case Expired => 1
    case Dismissed => 2
    case ClosedByCall => 3
  }

  /** The two D-Bus signals of the interface. */
  datatype Signal = ActionInvoked(id: nat, actionKey: string) | NotificationClosed(id: nat, reason: nat)

  /** `GetServerInformation`: name, vendor, version and specification version. */
  const ServerInformation: seq<string> := ["Nachotifications", "ndev51", "1.0.1", "1.0"]

  /** `GetCapabilities`. */
  const Capabilities: seq<string> :=
    ["body", "actions", "action-icons", "body-hyperlinks", "body-images", "body-markup",
     "icon-multi", "icon-static", "persistence"]

  /** The expiry signals of the windows a restacking pass closes, in order. */
  function ExpiredSignals(ids: seq<nat>): (r: seq<Signal>)
    ensures |r| == |ids|
    ensures forall k :: 0 <= k < |ids| ==> r[k] == NotificationClosed(ids[k], Code(Expired))
  {
    seq(|ids|, k requires 0 <= k < |ids| => NotificationClosed(ids[k], Code(Expired)))
  }

  /**
   * The ids in `keys` from 1 to `n`, in increasing order. Ids come from a counter that only grows
   * and each is inserted into the window table once, so this is the table's insertion order.
   */
  function Ascending(keys: set<nat>, n: nat): seq<nat>
  {
    if n == 0 then [] else Ascending(keys, n - 1) + (if n in keys then [n] else [])
  }

  /** That order is increasing and holds exactly the keys from 1 to `n`. */
  lemma {:induction false} AscendingIff(keys: set<nat>, n: nat)
    ensures Stacking.Increasing(Ascending(keys, n))
    ensures forall x :: x in Ascending(keys, n) <==> x in keys && 1 <= x <= n
  {
    if n > 0 {
      AscendingIff(keys, n - 1);
      var earlier := Ascending(keys, n - 1);
      assert forall k :: 0 <= k < |earlier| ==> earlier[k] in earlier;
    }
  }

  /** `s` with every occurrence of `x` taken out, the rest in order. */
  function Without(s: seq<nat>, x: nat): (r: seq<nat>)
    ensures forall y :: y in r <==> y in s && y != x
  {
    if s == [] then []
    else Without(s[..|s| - 1], x) + (if s[|s| - 1] == x then [] else [s[|s| - 1]])
  }

  /** Deleting a key from the table leaves the other keys in their insertion order. */
  lemma {:induction false} AscendingRemove(keys: set<nat>, n: nat, x: nat)
    ensures Ascending(keys - {x}, n) == Without(Ascending(keys, n), x)
  {
    if n > 0 {
      AscendingRemove(keys, n - 1, x);
      var a := Ascending(keys, n - 1);
      if n in keys {
        var b := a + [n];
        assert b[..|b| - 1] == a && b[|b| - 1] == n;
        assert Without(b, x) == Without(a, x) + (if n == x then [] else [n]);
      } else {
        assert Ascending(keys, n) == a;
      }
    }
  }

  /** In an increasing sequence the last element is the largest. */
  lemma LastIsLargest(s: seq<nat>, x: nat)
    requires Stacking.Increasing(s) && x in s
    ensures x <= s[|s| - 1]
  {
    var i :| 0 <= i < |s| && s[i] == x;
    if i < |s| - 1 {
      assert s[i] < s[|s| - 1];
    }
  }

  lemma HeadIn(s: seq<nat>)
    ensures s != [] ==> s[0] in s
  {
  }

  /** Without its last element an increasing sequence stays increasing and loses only that element. */
  lemma InitOfIncreasing(a: seq<nat>)
    requires Stacking.Increasing(a) && a != []
    ensures Stacking.Increasing(a[..|a| - 1])
    ensures forall z :: z in a[..|a| - 1] <==> z in a && z != a[|a| - 1]
  {
    var init, last := a[..|a| - 1], a[|a| - 1];
    forall i, j | 0 <= i < j < |init|
      ensures init[i] < init[j]
    {
      assert init[i] == a[i] && init[j] == a[j];
    }
    forall z
      ensures z in init <==> z in a && z != last
    {
      if z in init {
        var i :| 0 <= i < |init| && init[i] == z;
        assert a[i] == z && a[i] < last;
      }
      if z in a && z != last {
        var i :| 0 <= i < |a| && a[i] == z;
        assert init[i] == z;
      }
    }
  }

  /** An increasing sequence is determined by its elements. */
  lemma {:induction false} IncreasingUnique(a: seq<nat>, b: seq<nat>)
    requires Stacking.Increasing(a) && Stacking.Increasing(b)
    requires forall x :: x in a <==> x in b
    ensures a == b
  {
    if a == [] || b == [] {
      HeadIn(a);
      HeadIn(b);
    } else {
      var x, y := a[|a| - 1], b[|b| - 1];
      LastIsLargest(a, y);
      LastIsLargest(b, x);
      InitOfIncreasing(a);
      InitOfIncreasing(b);
      var a', b' := a[..|a| - 1], b[..|b| - 1];
      forall z
        ensures z in a' <==> z in b'
      {
        assert z in a' <==> z in a && z != x;
        assert z in b' <==> z in b && z != y;
      }
      IncreasingUnique(a', b');
      assert a == a' + [x] && b == b' + [y];
    }
  }

  /** The stacking view of the windows named by `ids`. */
  ghost function SlotsOf(ids: seq<nat>, windows: map<nat, Window.NotificationWindow>): (r: seq<Stacking.Slot>)
    requires forall id :: id in ids ==> id in windows
    reads windows.Values
    ensures |r| == |ids| && Stacking.Ids(r) == ids
    ensures forall k :: 0 <= k < |ids| ==> r[k].pos == windows[ids[k]].screenPos && r[k].height == windows[ids[k]].height
  {
    seq(|ids|, k requires 0 <= k < |ids| reads windows.Values =>
      Stacking.Slot(ids[k], windows[ids[k]].screenPos, windows[ids[k]].height))
  }

  /** The stacking view of windows that sit where a slot sequence says is that sequence. */
  lemma SlotsOfMatching(slots: seq<Stacking.Slot>, windows: map<nat, Window.NotificationWindow>)
    requires forall k :: 0 <= k < |slots| ==>
      && slots[k].id in windows && windows[slots[k].id].screenPos == slots[k].pos
      && windows[slots[k].id].height == slots[k].height
    ensures SlotsOf(Stacking.Ids(slots), windows) == slots
  {
  }

  lemma IdsAppend(a: seq<Stacking.Slot>, b: seq<Stacking.Slot>)
    ensures Stacking.Ids(a + b) == Stacking.Ids(a) + Stacking.Ids(b)
  {
  }

  /** A window the pass has visited: shifted, closed exactly when it overflowed, else its margin set. */
  ghost predicate Moved(w: Window.NotificationWindow, s: Stacking.Slot, padding: int, threshold: int)
    reads w
  {
    && w.screenPos == Stacking.Shifted(s, padding).pos && w.height == s.height
    && w.destroyed == Stacking.Overflows(s, padding, threshold)
    && (!w.destroyed ==> w.topMargin == w.screenPos)
  }

  /** A window the pass has not visited yet. */
  ghost predicate Waiting(w: Window.NotificationWindow, s: Stacking.Slot)
    reads w
  {
    w.screenPos == s.pos && w.height == s.height && !w.destroyed
  }

  /** The ids of the first `i` slots that the pass closes. */
  function ClosedIds(slots: seq<Stacking.Slot>, i: nat, padding: int, threshold: int): set<nat>
    requires i <= |slots|
  {
    if i == 0 then {}
    else
      ClosedIds(slots, i - 1, padding, threshold)
        + (if Stacking.Overflows(slots[i - 1], padding, threshold) then {slots[i - 1].id} else {})
  }

  lemma {:induction false} ClosedIdsVisited(slots: seq<Stacking.Slot>, i: nat, padding: int, threshold: int, x: nat)
    requires i <= |slots|
    ensures x in ClosedIds(slots, i, padding, threshold) <==>
      exists k :: 0 <= k < i && slots[k].id == x && Stacking.Overflows(slots[k], padding, threshold)
  {
    if i > 0 {
      ClosedIdsVisited(slots, i - 1, padding, threshold, x);
    }
  }

  /** With distinct ids, the id at the pass's position has not been closed yet. */
  lemma ClosedIdsFresh(slots: seq<Stacking.Slot>, i: nat, padding: int, threshold: int)
    requires i < |slots| && Stacking.Increasing(Stacking.Ids(slots))
    ensures slots[i].id !in ClosedIds(slots, i, padding, threshold)
  {
    ClosedIdsVisited(slots, i, padding, threshold, slots[i].id);
    forall k | 0 <= k < i
      ensures slots[k].id != slots[i].id
    {
      assert Stacking.Ids(slots)[k] < Stacking.Ids(slots)[i];
    }
  }

  /** With distinct ids, a window the pass keeps is not among those it closes. */
  lemma KeptNotClosed(slots: seq<Stacking.Slot>, padding: int, threshold: int)
    requires Stacking.Increasing(Stacking.Ids(slots))
    ensures forall k :: 0 <= k < |slots| && !Stacking.Overflows(slots[k], padding, threshold) ==>
      slots[k].id !in ClosedIds(slots, |slots|, padding, threshold)
  {
    forall k | 0 <= k < |slots| && !Stacking.Overflows(slots[k], padding, threshold)
      ensures slots[k].id !in ClosedIds(slots, |slots|, padding, threshold)
    {
      ClosedIdsVisited(slots, |slots|, padding, threshold, slots[k].id);
      forall k' | 0 <= k' < |slots| && k' != k
        ensures slots[k'].id != slots[k].id
      {
        if k' < k {
          assert Stacking.Ids(slots)[k'] < Stacking.Ids(slots)[k];
        } else {
          assert Stacking.Ids(slots)[k] < Stacking.Ids(slots)[k'];
        }
      }
    }
  }

  /** The signals after `base` once the pass has visited the first `i` slots. */
  function SignalsAfter(base: seq<Signal>, slots: seq<Stacking.Slot>, i: nat, padding: int, threshold: int): seq<Signal>
    requires i <= |slots|
  {
    if i == 0 then base
    else
      SignalsAfter(base, slots, i - 1, padding, threshold)
        + (if Stacking.Overflows(slots[i - 1], padding, threshold)
           then [NotificationClosed(slots[i - 1].id, Code(Expired))] else [])
  }

  lemma ExpiredSignalsAppend(a: seq<nat>, b: seq<nat>)
    ensures ExpiredSignals(a + b) == ExpiredSignals(a) + ExpiredSignals(b)
  {
  }

  /** The pass appends one expiry signal per window it closes, in the order it closes them. */
  lemma {:induction false} SignalsAfterForced(base: seq<Signal>, slots: seq<Stacking.Slot>, i: nat, padding: int, threshold: int)
    requires i <= |slots|
    ensures SignalsAfter(base, slots, i, padding, threshold)
         == base + ExpiredSignals(Stacking.ForcedCloses(slots[..i], padding, threshold))
  {
    if i == 0 {
      assert slots[..0] == [];
    } else {
      var forced := Stacking.ForcedCloses(slots[..i - 1], padding, threshold);
      var last := if Stacking.Overflows(slots[i - 1], padding, threshold) then [slots[i - 1].id] else [];
      var step := if Stacking.Overflows(slots[i - 1], padding, threshold)
        then [NotificationClosed(slots[i - 1].id, Code(Expired))] else [];
      calc {
        SignalsAfter(base, slots, i, padding, threshold);
        SignalsAfter(base, slots, i - 1, padding, threshold) + step;
        { SignalsAfterForced(base, slots, i - 1, padding, threshold); }
        base + ExpiredSignals(forced) + step;
        { assert ExpiredSignals(last) == step; }
        base + (ExpiredSignals(forced) + ExpiredSignals(last));
        { ExpiredSignalsAppend(forced, last); }
        base + ExpiredSignals(forced + last);
        { Stacking.PassStep(slots, i - 1, padding, threshold); }
        base + ExpiredSignals(Stacking.ForcedCloses(slots[..i], padding, threshold));
      }
    }
  }

  // ---------------------------------------------------------------------------
  // Closing is reported once

  /** The ids that `NotificationClosed` signals in `signals` report. */
  function ClosedReported(signals: seq<Signal>): set<nat>
  {
    set i | 0 <= i < |signals| && signals[i].NotificationClosed? :: signals[i].id
  }

  /** Each signal that reports a close names an id that no earlier signal reported closed. */
  predicate ReportsOnce(signals: seq<Signal>)
  {
    signals == []
    || (var init, last := signals[..|signals| - 1], signals[|signals| - 1];
        ReportsOnce(init) && (last.NotificationClosed? ==> last.id !in ClosedReported(init)))
  }

  /** Reporting once means that no two `NotificationClosed` signals name the same id. */
  lemma {:induction false} ReportsOnceDistinct(signals: seq<Signal>, i: nat, j: nat)
    requires ReportsOnce(signals) && i < j < |signals|
    requires signals[i].NotificationClosed? && signals[j].NotificationClosed?
    ensures signals[i].id != signals[j].id
  {
    var init := signals[..|signals| - 1];
    assert init[i] == signals[i];
    if j < |signals| - 1 {
      assert init[j] == signals[j];
      ReportsOnceDistinct(init, i, j);
    } else {
      assert signals[i].id in ClosedReported(init);
    }
  }

  /**
   * The signals so far, against the table's ids `keys` and the counter `n`: no id is reported
   * closed twice, and an id reported closed was issued already and is gone from the table.
   */
  predicate ReportedIn(signals: seq<Signal>, keys: set<nat>, n: nat)
  {
    ReportsOnce(signals) && forall x :: x in ClosedReported(signals) ==> x !in keys && 1 <= x <= n
  }

  /** A close signal for an id not yet reported keeps the signals reporting once. */
  lemma ReportClose(signals: seq<Signal>, id: nat, reason: nat)
    requires ReportsOnce(signals) && id !in ClosedReported(signals)
    ensures ReportsOnce(signals + [NotificationClosed(id, reason)])
    ensures ClosedReported(signals + [NotificationClosed(id, reason)]) == ClosedReported(signals) + {id}
  {
    var t := signals + [NotificationClosed(id, reason)];
    assert t[..|signals|] == signals;
    forall x
      ensures x in ClosedReported(t) <==> x in ClosedReported(signals) + {id}
    {
      if x in ClosedReported(signals) {
        var i :| 0 <= i < |signals| && signals[i].NotificationClosed? && signals[i].id == x;
        assert t[i] == signals[i];
      }
      if x in ClosedReported(t) {
        var i :| 0 <= i < |t| && t[i].NotificationClosed? && t[i].id == x;
        if i < |signals| {
          assert t[i] == signals[i];
        }
      }
      if x == id {
        assert t[|signals|].id == id;
      }
    }
  }

  /**
   * Deleting `id` from the table and reporting it closed only when it was there keeps the
   * signals reporting once against the smaller table.
   */
  lemma RemoveReported(signals: seq<Signal>, keys: set<nat>, n: nat, id: nat, reason: nat, signals': seq<Signal>)
    requires ReportedIn(signals, keys, n) && (id in keys ==> 1 <= id <= n)
    requires signals' == if id in keys then signals + [NotificationClosed(id, reason)] else signals
    ensures ReportedIn(signals', keys - {id}, n)
  {
    if id in keys {
      ReportClose(signals, id, reason);
    }
  }

  /** An ActionInvoked signal reports no close. */
  lemma ReportAction(signals: seq<Signal>, id: nat, key: string)
    requires ReportsOnce(signals)
    ensures ReportsOnce(signals + [ActionInvoked(id, key)])
    ensures ClosedReported(signals + [ActionInvoked(id, key)]) == ClosedReported(signals)
  {
    assert (signals + [ActionInvoked(id, key)])[..|signals|] == signals;
  }

  /** Reporting an id that neither earlier part of the reports holds extends the second part. */
  lemma ReportFresh(signals: seq<Signal>, reported: set<nat>, closed: set<nat>, id: nat)
    requires ReportsOnce(signals) && ClosedReported(signals) == reported + closed
    requires id !in reported && id !in closed
    ensures ReportsOnce(signals + [NotificationClosed(id, Code(Expired))])
    ensures ClosedReported(signals + [NotificationClosed(id, Code(Expired))]) == reported + (closed + {id})
  {
    ReportClose(signals, id, Code(Expired));
  }

  /** The pass reports each window it closes once, when no window it visits was reported before. */
  lemma {:induction false} PassReports(base: seq<Signal>, slots: seq<Stacking.Slot>, i: nat, padding: int, threshold: int)
    requires i <= |slots| && Stacking.Increasing(Stacking.Ids(slots)) && ReportsOnce(base)
    requires forall k :: 0 <= k < |slots| ==> slots[k].id !in ClosedReported(base)
    ensures ReportsOnce(SignalsAfter(base, slots, i, padding, threshold))
    ensures ClosedReported(SignalsAfter(base, slots, i, padding, threshold))
         == ClosedReported(base) + ClosedIds(slots, i, padding, threshold)
  {
    if i > 0 {
      PassReports(base, slots, i - 1, padding, threshold);
      var before := SignalsAfter(base, slots, i - 1, padding, threshold);
      var id := slots[i - 1].id;
      if Stacking.Overflows(slots[i - 1], padding, threshold) {
        ClosedIdsFresh(slots, i - 1, padding, threshold);
        ReportFresh(before, ClosedReported(base), ClosedIds(slots, i - 1, padding, threshold), id);
      } else {
        assert SignalsAfter(base, slots, i, padding, threshold) == before + [] == before;
      }
    }
  }

  /**
   * `Notify` keeps the reports honest: after the pass over the windows of the table `keys` and the
   * insertion of the next id `n + 1`, no id is reported twice and no reported id is in the table.
   */
  lemma NotifyReports(signals: seq<Signal>, table: map<nat, Window.NotificationWindow>, n: nat, slots: seq<Stacking.Slot>,
                      padding: int, threshold: int,
                      signals': seq<Signal>, table': map<nat, Window.NotificationWindow>, win: Window.NotificationWindow)
    requires ReportedIn(signals, table.Keys, n) && Stacking.Ids(slots) == Ascending(table.Keys, n)
    requires signals' == signals + ExpiredSignals(Stacking.ForcedCloses(slots, padding, threshold))
    requires table' == (table - ClosedIds(slots, |slots|, padding, threshold))[n + 1 := win]
    ensures ReportedIn(signals', table'.Keys, n + 1)
  {
    var keys := table.Keys;
    assert table'.Keys == keys - ClosedIds(slots, |slots|, padding, threshold) + {n + 1};
    SignalsAfterForced(signals, slots, |slots|, padding, threshold);
    assert slots[..|slots|] == slots;
    AscendingIff(keys, n);
    forall k | 0 <= k < |slots|
      ensures slots[k].id in keys && slots[k].id <= n
    {
      assert Stacking.Ids(slots)[k] in Ascending(keys, n);
    }
    PassReports(signals, slots, |slots|, padding, threshold);
    forall x | x in ClosedIds(slots, |slots|, padding, threshold)
      ensures 1 <= x <= n
    {
      ClosedIdsVisited(slots, |slots|, padding, threshold, x);
    }
  }

  /** The pass keeps windows in their order, and their ids are at most the largest id before it. */
  lemma KeptIdsBelow(slots: seq<Stacking.Slot>, keys: set<nat>, n: nat, newId: nat, padding: int, threshold: int)
    requires Stacking.Ids(slots) == Ascending(keys, n) && n < newId
    ensures Stacking.Increasing(Stacking.Ids(Stacking.Kept(slots, padding, threshold)) + [newId])
  {
    var kept := Stacking.Kept(slots, padding, threshold);
    var rhs := Stacking.Ids(kept) + [newId];
    AscendingIff(keys, n);
    Stacking.KeptIncreasing(slots, padding, threshold);
    forall j | 0 <= j < |kept|
      ensures kept[j].id <= n
    {
      Stacking.KeptIff(slots, padding, threshold, kept[j]);
      var k :| 0 <= k < |slots| && !Stacking.Overflows(slots[k], padding, threshold)
        && kept[j] == Stacking.Shifted(slots[k], padding);
      assert Stacking.Ids(slots)[k] in Ascending(keys, n);
    }
    forall a, b | 0 <= a < b < |rhs|
      ensures rhs[a] < rhs[b]
    {
      if b == |rhs| - 1 {
        assert rhs[a] == kept[a].id;
      } else {
        assert rhs[a] == Stacking.Ids(kept)[a] && rhs[b] == Stacking.Ids(kept)[b];
      }
    }
  }

  /** An id survives the pass exactly when it was in the table and its window was kept. */
  lemma SurvivorIff(slots: seq<Stacking.Slot>, keys: set<nat>, n: nat, padding: int, threshold: int, x: nat)
    requires Stacking.Ids(slots) == Ascending(keys, n)
    requires forall y :: y in keys ==> 1 <= y <= n
    ensures x in keys && x !in ClosedIds(slots, |slots|, padding, threshold)
        <==> x in Stacking.Ids(Stacking.Kept(slots, padding, threshold))
  {
    var ids := Stacking.Ids(slots);
    var kept := Stacking.Kept(slots, padding, threshold);
    AscendingIff(keys, n);
    ClosedIdsVisited(slots, |slots|, padding, threshold, x);
    if x in keys && x !in ClosedIds(slots, |slots|, padding, threshold) {
      assert x in ids;
      var k :| 0 <= k < |ids| && ids[k] == x;
      Stacking.KeptIff(slots, padding, threshold, Stacking.Shifted(slots[k], padding));
      var j :| 0 <= j < |kept| && kept[j] == Stacking.Shifted(slots[k], padding);
      assert Stacking.Ids(kept)[j] == x;
    }
    if x in Stacking.Ids(kept) {
      var j :| 0 <= j < |kept| && Stacking.Ids(kept)[j] == x;
      Stacking.KeptIff(slots, padding, threshold, kept[j]);
      var k :| 0 <= k < |slots| && !Stacking.Overflows(slots[k], padding, threshold)
        && kept[j] == Stacking.Shifted(slots[k], padding);
      assert ids[k] == x && x in ids;
      forall k' | 0 <= k' < |slots| && k' != k
        ensures slots[k'].id != x
      {
        if k' < k {
          assert ids[k'] < ids[k];
        } else {
          assert ids[k] < ids[k'];
        }
      }
    }
  }

  /**
   * The ids left in the table after the pass, plus the new one, in insertion order, are the ids
   * of the windows the pass keeps followed by the new id.
   */
  lemma TableAfterPass(slots: seq<Stacking.Slot>, keys: set<nat>, n: nat, newId: nat, padding: int, threshold: int)
    requires Stacking.Ids(slots) == Ascending(keys, n) && n < newId
    requires forall x :: x in keys ==> 1 <= x <= n
    ensures Ascending(keys - ClosedIds(slots, |slots|, padding, threshold) + {newId}, newId)
         == Stacking.Ids(Stacking.Kept(slots, padding, threshold)) + [newId]
  {
    var lhs := Ascending(keys - ClosedIds(slots, |slots|, padding, threshold) + {newId}, newId);
    var rhs := Stacking.Ids(Stacking.Kept(slots, padding, threshold)) + [newId];
    KeptIdsBelow(slots, keys, n, newId, padding, threshold);
    AscendingIff(keys - ClosedIds(slots, |slots|, padding, threshold) + {newId}, newId);
    forall x
      ensures x in lhs <==> x in rhs
    {
      SurvivorIff(slots, keys, n, padding, threshold, x);
    }
    IncreasingUnique(lhs, rhs);
  }

  /** After the pass and the insertion of the new window, the table shows the restacked slots. */
  lemma RestackedView(ws: seq<Window.NotificationWindow>, slots: seq<Stacking.Slot>,
                      table: map<nat, Window.NotificationWindow>, newId: nat, win: Window.NotificationWindow,
                      padding: int, threshold: int)
    requires |ws| == |slots|
    requires forall k :: 0 <= k < |ws| ==> Moved(ws[k], slots[k], padding, threshold)
    requires forall k :: 0 <= k < |ws| && !Stacking.Overflows(slots[k], padding, threshold) ==>
      slots[k].id in table && table[slots[k].id] == ws[k]
    requires newId in table && table[newId] == win && win.screenPos == padding && win.height == Window.InitialHeight
    ensures var r := Stacking.Restack(slots, newId, Window.InitialHeight, padding, threshold);
      (forall id :: id in Stacking.Ids(r) ==> id in table) && SlotsOf(Stacking.Ids(r), table) == r
  {
    var kept := Stacking.Kept(slots, padding, threshold);
    var r := Stacking.Restack(slots, newId, Window.InitialHeight, padding, threshold);
    forall j | 0 <= j < |r|
      ensures r[j].id in table && table[r[j].id].screenPos == r[j].pos && table[r[j].id].height == r[j].height
    {
      if j < |kept| {
        assert r[j] == kept[j];
        Stacking.KeptIff(slots, padding, threshold, kept[j]);
        var k :| 0 <= k < |slots| && !Stacking.Overflows(slots[k], padding, threshold)
          && kept[j] == Stacking.Shifted(slots[k], padding);
        assert Moved(ws[k], slots[k], padding, threshold);
      }
    }
    SlotsOfMatching(r, table);
  }

  /** Windows carrying the ids of increasing slots are distinct objects. */
  lemma DistinctWindows(ws: seq<Window.NotificationWindow>, slots: seq<Stacking.Slot>, i: nat)
    requires |slots| == |ws| && Stacking.Increasing(Stacking.Ids(slots)) && i < |ws|
    requires forall k :: 0 <= k < |ws| ==> ws[k].notification.id == slots[k].id
    ensures forall k :: 0 <= k < |ws| && k != i ==> ws[k] != ws[i]
  {
    var ids := Stacking.Ids(slots);
    forall k | 0 <= k < |ws| && k != i
      ensures ws[k].notification.id != ws[i].notification.id
    {
      if k < i {
        assert ids[k] < ids[i];
      } else {
        assert ids[i] < ids[k];
      }
    }
  }

  /**
   * What holds of the table `table0`, the timers `armed0` and the windows `ws` (with their slots
   * `slots0`) taken at the start of the pass, when `newId` is the id being shown.
   */
  ghost predicate Snapshot(padding: int, threshold: int, newId: nat,
                           table0: map<nat, Window.NotificationWindow>, armed0: map<nat, Window.NotificationWindow>,
                           ws: seq<Window.NotificationWindow>, slots0: seq<Stacking.Slot>)
  {
    && padding < threshold && newId >= 1
    && (forall id :: id in table0 ==> id in armed0 && table0[id] == armed0[id])
    && (forall id :: id in armed0 ==> 1 <= id < newId && armed0[id].notification.id == id && armed0[id].hasCallback)
    && Stacking.Ids(slots0) == Ascending(table0.Keys, newId - 1) && Stacking.Increasing(Stacking.Ids(slots0))
    && |ws| == |slots0|
    && (forall k :: 0 <= k < |ws| ==>
          slots0[k].id in table0 && table0[slots0[k].id] == ws[k] && ws[k].notification.id == slots0[k].id)
  }

  class Notifications {
    /** `NOTIFICATION_PADDING` and `SCREEN_HEIGHT_THRESHOLD`, fixed for the life of the daemon. */
    const padding: int
    const threshold: int
    /** `_counter`: the id of the latest notification. */
    var counter: nat
    /** `_nots`: the open windows by notification id. */
    var nots: map<nat, Window.NotificationWindow>
    /** The windows whose expiry timer has not fired yet. */
    var armed: map<nat, Window.NotificationWindow>
    /** The signals emitted, oldest first. */
    var signals: seq<Signal>
    /** The commands the action router ran, oldest first. */
    var effects: seq<Router.Effect>

    /**
     * The table holds windows with pending timers under their own ids, and every window in it is
     * shown above the threshold with its margin at its position.
     */
    ghost predicate Valid()
      reads this`nots, this`armed, this`counter, nots.Values
    {
      && padding < threshold
      && (forall id :: id in nots ==> id in armed && nots[id] == armed[id])
      && (forall id :: id in armed ==> 1 <= id <= counter && armed[id].notification.id == id && armed[id].hasCallback)
      && (forall id :: id in nots ==>
            !nots[id].destroyed && nots[id].topMargin == nots[id].screenPos && nots[id].screenPos < threshold)
    }

    /** No notification is reported closed twice, and none reported closed is still in the table. */
    ghost predicate Reported()
      reads this`signals, this`nots, this`counter
    {
      ReportedIn(signals, nots.Keys, counter)
    }

    /** The ids of the table in insertion order. */
    function Order(): seq<nat>
      reads this`nots, this`counter
    {
      Ascending(nots.Keys, counter)
    }

    /** The open windows, oldest first, as the restacking pass sees them. */
    ghost function Slots(): seq<Stacking.Slot>
      reads this`nots, this`counter, nots.Values
    {
      AscendingIff(nots.Keys, counter);
      SlotsOf(Order(), nots)
    }

    constructor (padding: int, threshold: int)
      requires padding < threshold
      ensures Valid() && Reported()
      ensures this.padding == padding && this.threshold == threshold
      ensures counter == 0 && nots == map[] && armed == map[] && signals == [] && effects == []
    {
      this.padding := padding;
      this.threshold := threshold;
      counter := 0;
      nots := map[];
      armed := map[];
      signals := [];
      effects := [];
    }

    /** `list(self._nots.values())`: the open windows in insertion order. */
    function Windows(): (ws: seq<Window.NotificationWindow>)
      reads this`nots, this`counter
      ensures |ws| == |Order()| && forall k :: 0 <= k < |ws| ==> Order()[k] in nots && ws[k] == nots[Order()[k]]
    {
      var ids, table := Order(), nots;
      AscendingIff(table.Keys, counter);
      seq(|ids|, k requires 0 <= k < |ids| && ids[k] in table => table[ids[k]])
    }

    /**
     * `Notify`: take the next id, parse the request, push every open window down (closing those
     * that leave the screen), show the new window at the top and arm its timer. A parse error
     * raises after the id was taken.
     */
    method Notify(appName: string, replacesId: nat, appIcon: string, summary: string, body: string,
                  actions: seq<string>, hints: map<string, Parser.Value>, expireTimeout: int)
      returns (r: Option<nat>)
      requires Valid() && Reported()
      modifies this`counter, this`nots, this`armed, this`signals, nots.Values
      ensures Valid() && Reported()
      ensures counter == old(counter) + 1
      ensures r.None? <==> Parser.ContentOf(appName, Parser.Content(summary, None, body)).Err?
      ensures r.None? ==> nots == old(nots) && armed == old(armed) && signals == old(signals)
      ensures r.None? ==> unchanged(nots.Values)
      ensures r.Some? ==> r.value == counter && counter in nots && fresh(nots[counter])
      ensures r.Some? ==>
        && Slots() == Stacking.Restack(old(Slots()), counter, Window.InitialHeight, padding, threshold)
        && signals == old(signals) + ExpiredSignals(Stacking.ForcedCloses(old(Slots()), padding, threshold))
        && armed == old(armed)[counter := nots[counter]]
        && (forall k :: 0 <= k < |old(Slots())| ==>
              old(Windows())[k].destroyed == Stacking.Overflows(old(Slots())[k], padding, threshold))
      ensures r.Some? ==>
        Parser.Built(nots[counter].notification, counter, appName, replacesId, appIcon, summary, body, actions, hints)
    {
      ghost var slots0, windows0 := Slots(), Windows();
      ghost var order0 := Order();
      counter := counter + 1;
      var created := Prepare(counter, appName, replacesId, appIcon, summary, body, actions, hints);
      if created.None? {
        r := None;
        return;
      }
      var win := created.value;
      var notification := win.notification;
      assert Parser.Built(notification, counter, appName, replacesId, appIcon, summary, body, actions, hints);
      assert Order() == order0 && Slots() == slots0 && Windows() == windows0 by {
        assert counter !in nots;
        assert Order() == order0 + [];
      }
      var ws := Windows();
      SnapshotFacts(ws, slots0);
      Show(win, ws, slots0);
      assert Parser.Built(nots[counter].notification, counter, appName, replacesId, appIcon, summary, body, actions, hints);
      r := Some(counter);
    }

    /**
     * The first steps of `Notify` after the id is taken: parse the request, then create its window
     * (not yet placed in the table), whose action callback is set.
     */
    method Prepare(id: nat, appName: string, replacesId: nat, appIcon: string, summary: string, body: string,
                   actions: seq<string>, hints: map<string, Parser.Value>)
      returns (created: Option<Window.NotificationWindow>)
      ensures created.None? <==> Parser.ContentOf(appName, Parser.Content(summary, None, body)).Err?
      ensures created.Some? ==> var win := created.value;
        && fresh(win) && fresh(win.notification) && win.hasCallback && !win.destroyed
        && win.screenPos == padding && win.topMargin == padding && win.height == Window.InitialHeight
      ensures created.Some? ==>
        Parser.Built(created.value.notification, id, appName, replacesId, appIcon, summary, body, actions, hints)
    {
      var parsed := Parser.NotificationParser.New(id, appName, replacesId, appIcon, summary, body, actions, hints);
      if parsed.None? {
        return None;
      }
      var win := new Window.NotificationWindow(parsed.value, true, padding);
      return Some(win);
    }

    /**
     * The rest of `Notify` once the new window `win` exists: the pass over the open windows `ws`
     * (with their slots `slots0`), then the insertion of `win` under the new id and the arming of
     * its timer.
     */
    method Show(win: Window.NotificationWindow, ws: seq<Window.NotificationWindow>, ghost slots0: seq<Stacking.Slot>)
      requires Snapshot(padding, threshold, counter, nots, armed, ws, slots0)
      requires ReportedIn(signals, nots.Keys, counter - 1)
      requires forall k :: 0 <= k < |ws| ==> Waiting(ws[k], slots0[k])
      requires win.notification.id == counter && win.hasCallback && !win.destroyed
      requires win.screenPos == padding && win.topMargin == padding && win.height == Window.InitialHeight
      modifies this`nots, this`armed, this`signals, ws
      ensures Valid() && Reported() && counter in nots && nots[counter] == win
      ensures Slots() == Stacking.Restack(slots0, counter, Window.InitialHeight, padding, threshold)
      ensures signals == old(signals) + ExpiredSignals(Stacking.ForcedCloses(slots0, padding, threshold))
      ensures armed == old(armed)[counter := win]
      ensures forall k :: 0 <= k < |ws| ==> ws[k].destroyed == Stacking.Overflows(slots0[k], padding, threshold)
      ensures win.notification.id == counter && !win.destroyed && unchanged(win.notification)
    {
      ghost var table0, armed0 := nots, armed;
      PushDown(ws, slots0);
      assert signals == old(signals) + ExpiredSignals(Stacking.ForcedCloses(slots0, padding, threshold)) by {
        SignalsAfterForced(old(signals), slots0, |slots0|, padding, threshold);
        assert slots0[..|slots0|] == slots0;
      }
      Insert(win, table0, armed0, ws, slots0, old(signals));
    }

    /** The end of `Notify`: the new window enters the table under its id and its timer is armed. */
    method Insert(win: Window.NotificationWindow, ghost table0: map<nat, Window.NotificationWindow>,
                  ghost armed0: map<nat, Window.NotificationWindow>, ghost ws: seq<Window.NotificationWindow>,
                  ghost slots0: seq<Stacking.Slot>, ghost signals0: seq<Signal>)
      requires Snapshot(padding, threshold, counter, table0, armed0, ws, slots0)
      requires forall k :: 0 <= k < |ws| ==> Moved(ws[k], slots0[k], padding, threshold)
      requires nots == table0 - ClosedIds(slots0, |slots0|, padding, threshold) && armed == armed0
      requires ReportedIn(signals0, table0.Keys, counter - 1)
      requires signals == signals0 + ExpiredSignals(Stacking.ForcedCloses(slots0, padding, threshold))
      requires win.notification.id == counter && win.hasCallback && !win.destroyed
      requires win.screenPos == padding && win.topMargin == padding && win.height == Window.InitialHeight
      modifies this`nots, this`armed
      ensures nots == old(nots)[counter := win] && armed == old(armed)[counter := win]
      ensures Valid() && Reported() && Slots() == Stacking.Restack(slots0, counter, Window.InitialHeight, padding, threshold)
    {
      ghost var n := counter - 1;
      NotifyReports(signals0, table0, n, slots0, padding, threshold, signals,
                    (table0 - ClosedIds(slots0, |slots0|, padding, threshold))[n + 1 := win], win);
      nots := nots[counter := win];
      armed := armed[counter := win];
      assert AfterPass(table0, armed0, ws, slots0, win);
      AfterPassValid(table0, armed0, ws, slots0, win);
      AfterPassSlots(table0, armed0, ws, slots0, win);
    }

    /** The snapshot of the open windows matches the stacking view of the table, window by window. */
    lemma SnapshotFacts(ws: seq<Window.NotificationWindow>, slots: seq<Stacking.Slot>)
      requires Valid() && counter >= 1 && counter !in nots && counter !in armed
      requires ws == Windows() && slots == Slots()
      ensures Snapshot(padding, threshold, counter, nots, armed, ws, slots)
      ensures forall k :: 0 <= k < |ws| ==> Waiting(ws[k], slots[k])
    {
      AscendingIff(nots.Keys, counter);
    }

    /** The state right after the pass of `Notify` over `ws` and the insertion of `win`. */
    ghost predicate AfterPass(table0: map<nat, Window.NotificationWindow>, armed0: map<nat, Window.NotificationWindow>,
                              ws: seq<Window.NotificationWindow>, slots0: seq<Stacking.Slot>, win: Window.NotificationWindow)
      reads this, ws, win
    {
      && Snapshot(padding, threshold, counter, table0, armed0, ws, slots0)
      && (forall k :: 0 <= k < |ws| ==> Moved(ws[k], slots0[k], padding, threshold))
      && nots == (table0 - ClosedIds(slots0, |slots0|, padding, threshold))[counter := win]
      && armed == armed0[counter := win]
      && win.notification.id == counter && win.hasCallback && !win.destroyed
      && win.screenPos == padding && win.topMargin == padding && win.height == Window.InitialHeight
    }

    /** The state after the pass and the insertion is valid again. */
    lemma AfterPassValid(table0: map<nat, Window.NotificationWindow>, armed0: map<nat, Window.NotificationWindow>,
                         ws: seq<Window.NotificationWindow>, slots0: seq<Stacking.Slot>, win: Window.NotificationWindow)
      requires AfterPass(table0, armed0, ws, slots0, win)
      ensures Valid()
    {
      forall id | id in nots && id != counter
        ensures !nots[id].destroyed && nots[id].topMargin == nots[id].screenPos && nots[id].screenPos < threshold
      {
        SurvivorShown(table0, armed0, ws, slots0, win, id);
      }
    }

    /** A window left in the table by the pass is still shown, at its new position, above the threshold. */
    lemma SurvivorShown(table0: map<nat, Window.NotificationWindow>, armed0: map<nat, Window.NotificationWindow>,
                        ws: seq<Window.NotificationWindow>, slots0: seq<Stacking.Slot>, win: Window.NotificationWindow,
                        id: nat)
      requires AfterPass(table0, armed0, ws, slots0, win)
      requires id in nots && id != counter
      ensures !nots[id].destroyed && nots[id].topMargin == nots[id].screenPos && nots[id].screenPos < threshold
    {
      var closed := ClosedIds(slots0, |slots0|, padding, threshold);
      AscendingIff(table0.Keys, counter - 1);
      assert id in table0 && id !in closed;
      assert id in Stacking.Ids(slots0);
      var k :| 0 <= k < |slots0| && Stacking.Ids(slots0)[k] == id;
      ClosedIdsVisited(slots0, |slots0|, padding, threshold, id);
      assert Moved(ws[k], slots0[k], padding, threshold);
    }

    /** After the pass and the insertion, the table's order is the kept windows' ids, then the new id. */
    lemma AfterPassOrder(table0: map<nat, Window.NotificationWindow>, armed0: map<nat, Window.NotificationWindow>,
                         ws: seq<Window.NotificationWindow>, slots0: seq<Stacking.Slot>, win: Window.NotificationWindow)
      requires AfterPass(table0, armed0, ws, slots0, win)
      ensures Order() == Stacking.Ids(Stacking.Kept(slots0, padding, threshold)) + [counter]
    {
      var closed := ClosedIds(slots0, |slots0|, padding, threshold);
      AscendingIff(table0.Keys, counter - 1);
      TableAfterPass(slots0, table0.Keys, counter - 1, counter, padding, threshold);
      assert nots.Keys == table0.Keys - closed + {counter};
    }

    /** After the pass and the insertion, every window the pass kept is still in the table under its id. */
    lemma AfterPassKept(table0: map<nat, Window.NotificationWindow>, armed0: map<nat, Window.NotificationWindow>,
                        ws: seq<Window.NotificationWindow>, slots0: seq<Stacking.Slot>, win: Window.NotificationWindow)
      requires AfterPass(table0, armed0, ws, slots0, win)
      ensures forall k :: 0 <= k < |ws| && !Stacking.Overflows(slots0[k], padding, threshold) ==>
        slots0[k].id in nots && nots[slots0[k].id] == ws[k]
    {
      KeptNotClosed(slots0, padding, threshold);
      forall k | 0 <= k < |ws| && !Stacking.Overflows(slots0[k], padding, threshold)
        ensures slots0[k].id in nots && nots[slots0[k].id] == ws[k]
      {
        assert slots0[k].id in armed0;
      }
    }

    /** After the pass and the insertion, the table shows the restacked windows. */
    lemma AfterPassSlots(table0: map<nat, Window.NotificationWindow>, armed0: map<nat, Window.NotificationWindow>,
                         ws: seq<Window.NotificationWindow>, slots0: seq<Stacking.Slot>, win: Window.NotificationWindow)
      requires AfterPass(table0, armed0, ws, slots0, win)
      ensures Slots() == Stacking.Restack(slots0, counter, Window.InitialHeight, padding, threshold)
    {
      var r := Stacking.Restack(slots0, counter, Window.InitialHeight, padding, threshold);
      AfterPassOrder(table0, armed0, ws, slots0, win);
      AfterPassKept(table0, armed0, ws, slots0, win);
      assert Stacking.Ids(r) == Order() by {
        IdsAppend(Stacking.Kept(slots0, padding, threshold), [Stacking.Slot(counter, padding, Window.InitialHeight)]);
      }
      RestackedView(ws, slots0, nots, counter, win, padding, threshold);
    }

    /**
     * The loop of `Notify` over the windows open before the new one, oldest first: each moves down
     * by its own height plus the padding; one that reaches the threshold is closed, the others
     * get their margin set.
     */
    method PushDown(ws: seq<Window.NotificationWindow>, ghost slots0: seq<Stacking.Slot>)
      requires |slots0| == |ws| && Stacking.Increasing(Stacking.Ids(slots0))
      requires forall k :: 0 <= k < |ws| ==> ws[k].notification.id == slots0[k].id && Waiting(ws[k], slots0[k])
      requires forall k :: 0 <= k < |ws| ==> ws[k].notification.id in nots && nots[ws[k].notification.id] == ws[k]
      modifies this`nots, this`signals, ws
      ensures nots == old(nots) - ClosedIds(slots0, |ws|, padding, threshold)
      ensures signals == SignalsAfter(old(signals), slots0, |ws|, padding, threshold)
      ensures forall k :: 0 <= k < |ws| ==> Moved(ws[k], slots0[k], padding, threshold)
    {
      var i := 0;
      while i < |ws|
        invariant 0 <= i <= |ws|
        invariant nots == old(nots) - ClosedIds(slots0, i, padding, threshold)
        invariant signals == SignalsAfter(old(signals), slots0, i, padding, threshold)
        invariant forall k :: 0 <= k < i ==> Moved(ws[k], slots0[k], padding, threshold)
        invariant forall k :: i <= k < |ws| ==> Waiting(ws[k], slots0[k])
      {
        var w := ws[i];
        DistinctWindows(ws, slots0, i);
        ClosedIdsFresh(slots0, i, padding, threshold);
        PushOne(w, slots0, i, old(nots), old(signals));
        i := i + 1;
      }
    }

    /**
     * The body of that loop for the window `w` at position `i`, whose slot before the pass is
     * `slots0[i]`, when the pass started from the table `nots0` and the signals `signals0`.
     */
    method PushOne(w: Window.NotificationWindow, ghost slots0: seq<Stacking.Slot>, ghost i: nat,
                   ghost nots0: map<nat, Window.NotificationWindow>, ghost signals0: seq<Signal>)
      requires i < |slots0| && Waiting(w, slots0[i]) && w.notification.id == slots0[i].id
      requires slots0[i].id in nots0 && slots0[i].id !in ClosedIds(slots0, i, padding, threshold)
      requires nots == nots0 - ClosedIds(slots0, i, padding, threshold)
      requires signals == SignalsAfter(signals0, slots0, i, padding, threshold)
      modifies this`nots, this`signals, w`screenPos, w`topMargin, w`destroyed
      ensures Moved(w, slots0[i], padding, threshold)
      ensures nots == nots0 - ClosedIds(slots0, i + 1, padding, threshold)
      ensures signals == SignalsAfter(signals0, slots0, i + 1, padding, threshold)
    {
      w.screenPos := w.screenPos + w.height + padding;
      if w.screenPos < threshold {
        w.topMargin := w.screenPos;
      } else {
        var repeat := CloseWindow(w);
        assert nots == nots0 - (ClosedIds(slots0, i, padding, threshold) + {slots0[i].id});
      }
    }

    /**
     * `_close_window`: destroy the window and, if its id is still in the table, delete it and
     * report it expired; the answer tells the timer not to repeat.
     */
    method CloseWindow(w: Window.NotificationWindow) returns (repeat: bool)
      modifies this`nots, this`signals, w`destroyed
      ensures !repeat && w.destroyed
      ensures w.notification.id in old(nots) ==>
        nots == old(nots) - {w.notification.id} && signals == old(signals) + [NotificationClosed(w.notification.id, Code(Expired))]
      ensures w.notification.id !in old(nots) ==> nots == old(nots) && signals == old(signals)
    {
      w.Destroy();
      var id := w.notification.id;
      if id in nots {
        nots := nots - {id};
        signals := signals + [NotificationClosed(id, Code(Expired))];
      }
      repeat := false;
    }

    /**
     * The expiry timer of the window shown under `id` fires: `_close_window` on that window. The
     * callback answers that it is not to repeat, so the timer is gone.
     */
    method Expire(id: nat)
      requires Valid() && Reported() && id in armed
      modifies this`nots, this`signals, this`armed, armed[id]
      ensures Valid() && Reported() && armed == old(armed) - {id} && old(armed)[id].destroyed
      ensures nots == old(nots) - {id} && Order() == Without(old(Order()), id)
      ensures id in old(nots) ==> signals == old(signals) + [NotificationClosed(id, Code(Expired))]
      ensures id !in old(nots) ==> signals == old(signals)
    {
      var w := armed[id];
      ghost var signals0, nots0 := signals, nots;
      assert w.notification.id == id;
      assert forall j :: j in nots && j != id ==> nots[j] != w;
      var repeat := CloseWindow(w);
      assert nots == nots0 - {id} by {
        if id !in nots0 {
          assert nots0 - {id} == nots0;
        }
      }
      if !repeat {
        armed := armed - {id};
      }
      forall j | j in nots
        ensures !nots[j].destroyed && nots[j].topMargin == nots[j].screenPos && nots[j].screenPos < threshold
      {
        assert nots[j] == nots0[j] != w;
      }
      RemoveReported(signals0, nots0.Keys, counter, id, Code(Expired), signals);
      AscendingRemove(nots0.Keys, counter, id);
    }

    /**
     * `CloseNotification`: a request from the program that sent the notification deletes it from
     * the table. The window is neither destroyed nor reported closed, and its timer stays armed.
     */
    method CloseNotification(id: nat, byProgram: bool)
      requires Valid() && Reported()
      modifies this`nots
      ensures Valid() && Reported()
      ensures byProgram ==> nots == old(nots) - {id} && Order() == Without(old(Order()), id)
      ensures !byProgram ==> nots == old(nots)
    {
      if id in nots && byProgram {
        nots := nots - {id};
      }
      AscendingRemove(old(nots).Keys, counter, id);
    }

    /**
     * `_close_window_by_id`: destroy the window shown under `id`, delete it and report it closed
     * for `reason`; an id not in the table changes nothing.
     */
    method CloseWindowById(id: nat, reason: ClosedReason)
      requires Valid() && Reported()
      modifies this`nots, this`signals, if id in nots then {nots[id]} else {}
      ensures Valid() && Reported() && nots == old(nots) - {id}
      ensures id in old(nots) ==> old(nots)[id].destroyed && signals == old(signals) + [NotificationClosed(id, Code(reason))]
      ensures id !in old(nots) ==> signals == old(signals)
    {
      ghost var signals0, nots0 := signals, nots;
      if id in nots {
        var window := nots[id];
        assert forall j :: j in nots && j != id ==> nots[j] != window;
        window.Destroy();
        nots := nots - {id};
        signals := signals + [NotificationClosed(id, Code(reason))];
        forall j | j in nots
          ensures !nots[j].destroyed && nots[j].topMargin == nots[j].screenPos && nots[j].screenPos < threshold
        {
          assert nots[j] == nots0[j] != window;
        }
      } else {
        assert nots0 - {id} == nots0;
      }
      RemoveReported(signals0, nots0.Keys, counter, id, Code(reason), signals);
    }

    /**
     * `_on_action_invoked`: for a notification still in the table, route the action, emit
     * ActionInvoked, then close the window as dismissed; for any other id do nothing.
     */
    method OnActionInvoked(id: nat, actionKey: string, env: Router.Environment)
      requires Valid() && Reported()
      modifies this`nots, this`signals, this`effects, if id in nots then {nots[id]} else {}
      ensures Valid() && Reported() && nots == old(nots) - {id}
      ensures id !in old(nots) ==> signals == old(signals) && effects == old(effects)
      ensures id in old(nots) ==> var n := old(nots)[id].notification;
        && old(nots)[id].destroyed
        && effects == old(effects) + Router.ActionEffects(n.appName, n.body, actionKey, env)
        && signals == old(signals) + [ActionInvoked(id, actionKey), NotificationClosed(id, Code(Dismissed))]
    {
      if id !in nots {
        return;
      }
      var window := nots[id];
      HandleNotificationAction(window.notification, actionKey, env);
      Dismiss(id, actionKey);
    }

    /** The end of `_on_action_invoked`: emit ActionInvoked, then close the window as dismissed. */
    method Dismiss(id: nat, actionKey: string)
      requires Valid() && Reported() && id in nots
      modifies this`nots, this`signals, nots[id]
      ensures Valid() && Reported() && nots == old(nots) - {id} && old(nots)[id].destroyed
      ensures signals == old(signals) + [ActionInvoked(id, actionKey), NotificationClosed(id, Code(Dismissed))]
    {
      ReportAction(signals, id, actionKey);
      signals := signals + [ActionInvoked(id, actionKey)];
      CloseWindowById(id, Dismissed);
    }

    /**
     * `_handle_notification_action`: run the commands the router picks for the notification's
     * application and action; a failure inside them is caught, so it only cuts them short.
     */
    method HandleNotificationAction(n: Parser.NotificationParser, actionKey: string, env: Router.Environment)
      modifies this`effects
      ensures effects == old(effects) + Router.ActionEffects(n.appName, n.body, actionKey, env)
    {
      effects := effects + Router.ActionEffects(n.appName, n.body, actionKey, env);
    }

    /**
     * A click in the window `w`: `_handle_action_message` hands `(id, key)` to the callback,
     * which is `_on_action_invoked`. A window without a callback ignores the click.
     */
    method OnActionMessage(w: Window.NotificationWindow, actionKey: string, env: Router.Environment)
      requires Valid() && Reported()
      modifies this`nots, this`signals, this`effects, if w.notification.id in nots then {nots[w.notification.id]} else {}
      ensures Valid() && Reported()
      ensures !w.hasCallback || w.notification.id !in old(nots) ==>
        nots == old(nots) && signals == old(signals) && effects == old(effects)
      ensures w.hasCallback && w.notification.id in old(nots) ==> var id := w.notification.id;
        && nots == old(nots) - {id} && old(nots)[id].destroyed
        && signals == old(signals) + [ActionInvoked(id, actionKey), NotificationClosed(id, Code(Dismissed))]
        && effects == old(effects) + Router.ActionEffects(old(nots)[id].notification.appName,
                                                          old(nots)[id].notification.body, actionKey, env)
    {
      var call := w.HandleActionMessage(actionKey);
      if call.Some? {
        OnActionInvoked(call.value.0, call.value.1, env);
      }
    }
  }
}
