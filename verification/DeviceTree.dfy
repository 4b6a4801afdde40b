/** Freeing USB devices (src/UsbDevices.cpp, lines 626-636 and 669-688). Devices and hub payloads
    live in two fixed tables; a pointer into a table is an index. */
module DeviceTree {
  import opened Kernel

  const DEVICES := 32
  const HUBS := 16
  const PORTS := 10
  /** The entry whose device number, 32, line 678 does not take for a valid parent */
  const LAST := 31

  datatype Payload = ErrorPayload | NoPayload | HubPayload | HidPayload | MassStoragePayload

  /** `rest` stands for the fields that freeing only clears. */
  datatype Device = Device(payload: Payload, parentNumber: nat, port: nat, hub: Option<nat>, rest: nat)

  datatype Hub = Hub(maxChildren: nat, children: seq<Option<nat>>, rest: nat)

  const CLEAR_DEVICE := Device(ErrorPayload, 0, 0, None, 0)

  function ClearHub(): (r: Hub)
    ensures r.maxChildren == 0 && |r.children| == 10 && r.rest == 0 && forall i :: 0 <= i < 10 ==> r.children[i] == None
  {
    Hub(0, seq(PORTS, _ => None), 0)
  }

  datatype Tables = Tables(devices: seq<Device>, hubs: seq<Hub>)

  predicate Shaped(t: Tables) {
    && |t.devices| == DEVICES && |t.hubs| == HUBS
    && (forall h :: 0 <= h < HUBS ==> |t.hubs[h].children| == PORTS && t.hubs[h].maxChildren <= PORTS)
    && (forall x :: 0 <= x < DEVICES && t.devices[x].hub.Some? ==> t.devices[x].hub.value < HUBS)
  }

  predicate InUse(t: Tables, x: nat)
    requires Shaped(t) && x < DEVICES
  {
    t.devices[x].payload != ErrorPayload
  }

  /** Lines 1423-1427 */
  predicate IsHub(t: Tables, x: nat)
    requires Shaped(t) && x < DEVICES
  {
    t.devices[x].payload == HubPayload && t.devices[x].hub.Some?
  }

  function HubOf(t: Tables, x: nat): Hub
    requires Shaped(t) && x < DEVICES && IsHub(t, x)
  {
    t.hubs[t.devices[x].hub.value]
  }

  /** Hub `x` has device `c` on port `i`. */
  predicate Points(t: Tables, x: nat, i: nat, c: nat)
    requires Shaped(t) && x < DEVICES
  {
    IsHub(t, x) && i < HubOf(t, x).maxChildren && HubOf(t, x).children[i] == Some(c)
  }

  /** What a child pointer promises: the device names this hub and port as its parent. Only the
      last entry may point to a device that has been freed. */
  predicate GoodPointer(t: Tables, height: seq<nat>, x: nat, i: nat, c: nat)
    requires Shaped(t) && |height| == DEVICES && x < DEVICES
  {
    && c < DEVICES && height[c] < height[x]
    && if InUse(t, c) then t.devices[c].parentNumber == x + 1 && t.devices[c].port == i else x == LAST
  }

  /** A well-formed forest: `height` shows that the pointers make no cycle. */
  ghost predicate Forest(t: Tables, height: seq<nat>) {
    && Shaped(t) && |height| == DEVICES
    && (forall x: nat, i: nat, c: nat :: x < DEVICES && Points(t, x, i, c) ==> GoodPointer(t, height, x, i, c))
    && (forall x, y :: 0 <= x < y < DEVICES && IsHub(t, x) && IsHub(t, y) ==> t.devices[x].hub != t.devices[y].hub)
    && (forall x :: 0 <= x < DEVICES ==> (t.devices[x].parentNumber == 0 <==> !InUse(t, x)))
  }

  /** No child pointer leads to a free entry. */
  ghost predicate NoneDangling(t: Tables)
    requires Shaped(t)
  {
    forall x: nat, i: nat, c: nat :: x < DEVICES && Points(t, x, i, c) ==> c < DEVICES && InUse(t, c)
  }

  predicate HasParent(t: Tables, x: nat)
    requires Shaped(t) && x < DEVICES
  {
    1 <= t.devices[x].parentNumber <= DEVICES && Points(t, t.devices[x].parentNumber - 1, t.devices[x].port, x)
  }

  function Parent(t: Tables, x: nat): (p: nat)
    requires Shaped(t) && x < DEVICES && HasParent(t, x)
    ensures p < DEVICES
  {
    t.devices[x].parentNumber - 1
  }

  /** Climbing from `x` from parent to parent reaches `d`. */
  ghost predicate Under(t: Tables, height: seq<nat>, x: nat, d: nat)
    requires Shaped(t) && |height| == DEVICES && x < DEVICES && d < DEVICES
    decreases if height[x] < height[d] then height[d] - height[x] else 0
  {
    x == d ||
    (height[x] < height[d] && HasParent(t, x) && height[x] < height[Parent(t, x)] && Under(t, height, Parent(t, x), d))
  }

  ghost function Subtree(t: Tables, height: seq<nat>, d: nat): set<nat>
    requires Shaped(t) && |height| == DEVICES && d < DEVICES
  {
    set x: nat | x < DEVICES && Under(t, height, x, d)
  }

  /** The subtrees on the ports of `d` below `k`. */
  ghost function ChildTrees(t: Tables, height: seq<nat>, d: nat, k: nat): set<nat>
    requires Shaped(t) && |height| == DEVICES && d < DEVICES
  {
    set x: nat | x < DEVICES && UnderChild(t, height, x, d, k)
  }

  ghost predicate UnderChild(t: Tables, height: seq<nat>, x: nat, d: nat, k: nat)
    requires Shaped(t) && |height| == DEVICES && x < DEVICES && d < DEVICES
  {
    exists i: nat, c: nat :: i < k && c < DEVICES && Points(t, d, i, c) && Under(t, height, x, c)
  }

  /** A hub payload once the devices in `gone` are freed; the last entry's is not updated. */
  function Cut(x: nat, hub: Hub, gone: set<nat>): (r: Hub)
    requires |hub.children| == PORTS
    ensures |r.children| == PORTS && r.maxChildren == hub.maxChildren
  {
    if x == LAST then hub else
      hub.(children := seq(PORTS, i requires 0 <= i < PORTS =>
        if i < hub.maxChildren && hub.children[i].Some? && hub.children[i].value in gone then None else hub.children[i]))
  }

  /** `u` is `t` with exactly the devices in `gone` freed: their entries and hub payloads cleared,
      every child pointer to them cleared, and nothing else changed. */
  ghost predicate Pruned(t: Tables, u: Tables, gone: set<nat>) {
    && Shaped(t) && Shaped(u)
    && (forall x :: 0 <= x < DEVICES ==> u.devices[x] == if x in gone then CLEAR_DEVICE else t.devices[x])
    && (forall x :: 0 <= x < DEVICES && IsHub(t, x) ==>
          u.hubs[t.devices[x].hub.value] == if x in gone then ClearHub() else Cut(x, HubOf(t, x), gone))
    && (forall h :: 0 <= h < HUBS && Unowned(t, h) ==> u.hubs[h] == t.hubs[h])
  }

  ghost predicate Unowned(t: Tables, h: nat)
    requires Shaped(t)
  {
    forall x :: 0 <= x < DEVICES && IsHub(t, x) ==> t.devices[x].hub.value != h
  }

  lemma PrunedPoints(t: Tables, u: Tables, gone: set<nat>, x: nat, i: nat, c: nat)
    requires Pruned(t, u, gone) && x < DEVICES
    ensures IsHub(u, x) <==> IsHub(t, x) && x !in gone
    ensures Points(u, x, i, c) <==> Points(t, x, i, c) && x !in gone && (c in gone ==> x == LAST)
  {
  }

  /** Freeing devices keeps the forest. */
  lemma PrunedForest(t: Tables, u: Tables, gone: set<nat>, height: seq<nat>)
    requires Pruned(t, u, gone) && Forest(t, height)
    ensures Forest(u, height)
  {
    forall x: nat, i: nat, c: nat | x < DEVICES && Points(u, x, i, c) ensures GoodPointer(u, height, x, i, c) {
      PrunedPoints(t, u, gone, x, i, c);
    }
  }

  // Climbing from child to parent.

  lemma {:induction false} UnderHeight(t: Tables, height: seq<nat>, x: nat, d: nat)
    requires Shaped(t) && |height| == DEVICES && x < DEVICES && d < DEVICES && Under(t, height, x, d)
    ensures x == d || height[x] < height[d]
  {
  }

  lemma ChildHasParent(t: Tables, height: seq<nat>, d: nat, i: nat, c: nat)
    requires Forest(t, height) && d < DEVICES && Points(t, d, i, c) && InUse(t, c)
    ensures HasParent(t, c) && Parent(t, c) == d && height[c] < height[d] && t.devices[c].port == i
  {
    assert GoodPointer(t, height, d, i, c);
  }

  lemma {:induction false} UnderChildIsUnder(t: Tables, height: seq<nat>, x: nat, d: nat, i: nat, c: nat)
    requires Forest(t, height) && x < DEVICES && d < DEVICES && c < DEVICES
    requires Points(t, d, i, c) && InUse(t, c) && Under(t, height, x, c)
    ensures Under(t, height, x, d)
    decreases height[c] - height[x]
  {
    hide Points;
    ChildHasParent(t, height, d, i, c);
    UnderHeight(t, height, x, c);
    if x != c {
      UnderHeight(t, height, Parent(t, x), c);
      UnderChildIsUnder(t, height, Parent(t, x), d, i, c);
    }
  }

  lemma {:induction false} UnderIsUnderChild(t: Tables, height: seq<nat>, x: nat, d: nat) returns (i: nat, c: nat)
    requires Forest(t, height) && x < DEVICES && d < DEVICES && Under(t, height, x, d) && x != d
    ensures c < DEVICES && Points(t, d, i, c) && Under(t, height, x, c)
    decreases height[d] - height[x]
  {
    var p := Parent(t, x);
    if p == d {
      i, c := t.devices[x].port, x;
    } else {
      UnderHeight(t, height, p, d);
      i, c := UnderIsUnderChild(t, height, p, d);
      UnderHeight(t, height, p, c);
    }
  }

  /** Two children of one hub share no descendant. */
  lemma {:induction false} SiblingsApart(t: Tables, height: seq<nat>, x: nat, d: nat, i: nat, b: nat, j: nat, c: nat)
    requires Forest(t, height) && x < DEVICES && d < DEVICES && b < DEVICES && c < DEVICES
    requires Points(t, d, i, b) && Points(t, d, j, c) && InUse(t, b) && InUse(t, c)
    requires Under(t, height, x, b) && Under(t, height, x, c)
    ensures b == c && i == j
    decreases height[d] - height[x]
  {
    hide Points;
    ChildHasParent(t, height, d, i, b);
    ChildHasParent(t, height, d, j, c);
    UnderHeight(t, height, x, b);
    UnderHeight(t, height, x, c);
    if x != b && x != c {
      var p := Parent(t, x);
      UnderHeight(t, height, p, b);
      SiblingsApart(t, height, p, d, i, b, j, c);
    }
  }

  /** Freeing devices outside a subtree leaves that subtree as it was. */
  lemma {:induction false} SubtreeStays(t: Tables, u: Tables, gone: set<nat>, height: seq<nat>, x: nat, d: nat)
    requires Forest(t, height) && Pruned(t, u, gone) && Shaped(u) && x < DEVICES && d < DEVICES
    requires Subtree(t, height, d) !! gone
    ensures Under(u, height, x, d) <==> Under(t, height, x, d)
    decreases if height[x] < height[d] then height[d] - height[x] else 0
  {
    hide Pruned, Points, Cut;
    if x != d && height[x] < height[d] {
      ParentStays(t, u, gone, x);
      if HasParent(t, x) && height[x] < height[Parent(t, x)] {
        var p := Parent(t, x);
        SubtreeStays(t, u, gone, height, p, d);
        if Under(t, height, p, d) {
          assert x in Subtree(t, height, d) && p in Subtree(t, height, d);
        }
      }
    }
  }

  /** A device keeps its parent when neither is freed, and nobody gets a new one. */
  lemma ParentStays(t: Tables, u: Tables, gone: set<nat>, x: nat)
    requires Pruned(t, u, gone) && x < DEVICES
    ensures Shaped(u)
    ensures HasParent(t, x) && x !in gone && Parent(t, x) !in gone ==> HasParent(u, x)
    ensures HasParent(u, x) ==> HasParent(t, x) && Parent(u, x) == Parent(t, x)
  {
    hide Points, Cut;
    PrunedDevice(t, u, gone, x);
    var n := t.devices[x].parentNumber;
    if 1 <= n <= DEVICES {
      PrunedPoints(t, u, gone, n - 1, t.devices[x].port, x);
    }
  }

  /** Freeing some devices and then others. */
  lemma PrunedTwice(t: Tables, u: Tables, v: Tables, first: set<nat>, second: set<nat>, height: seq<nat>)
    requires Forest(t, height) && Pruned(t, u, first) && Pruned(u, v, second)
    ensures Pruned(t, v, first + second)
  {
    forall x | 0 <= x < DEVICES && IsHub(t, x)
      ensures v.hubs[t.devices[x].hub.value] == if x in first + second then ClearHub() else Cut(x, HubOf(t, x), first + second)
    {
      if x in first {
        assert Unowned(u, t.devices[x].hub.value);
      } else {
        assert IsHub(u, x);
        if x !in second && x != LAST {
          assert Cut(x, Cut(x, HubOf(t, x), first), second) == Cut(x, HubOf(t, x), first + second);
        }
      }
    }
    forall h: nat | h < HUBS && Unowned(t, h) ensures v.hubs[h] == t.hubs[h] {
      assert Unowned(u, h);
    }
  }

  /** Lines 626-636 and 678-687 for a device whose children are gone. */
  function SelfFreed(t: Tables, d: nat): Tables
    requires Shaped(t) && d < DEVICES
  {
    var hubs := if IsHub(t, d) then t.hubs[t.devices[d].hub.value := ClearHub()] else t.hubs;
    Tables(t.devices[d := CLEAR_DEVICE],
           if HasParent(t, d) && Parent(t, d) != LAST then SlotCleared(hubs, t.devices[Parent(t, d)].hub.value, t.devices[d].port)
           else hubs)
  }

  function SlotCleared(hubs: seq<Hub>, h: nat, i: nat): seq<Hub>
    requires h < |hubs| && i < |hubs[h].children|
  {
    hubs[h := hubs[h].(children := hubs[h].children[i := None])]
  }

  lemma SelfFreedIsPruned(t: Tables, d: nat, height: seq<nat>)
    requires Forest(t, height) && d < DEVICES && InUse(t, d)
    ensures Pruned(t, SelfFreed(t, d), {d})
  {
    var u := SelfFreed(t, d);
    forall x: nat | x < DEVICES && IsHub(t, x)
      ensures u.hubs[t.devices[x].hub.value] == if x in {d} then ClearHub() else Cut(x, HubOf(t, x), {d})
    {
      if x != d && x != LAST {
        var hub, cut := HubOf(t, x), Cut(x, HubOf(t, x), {d});
        forall i: nat | Points(t, x, i, d) ensures HasParent(t, d) && Parent(t, d) == x && t.devices[d].port == i {
          ChildHasParent(t, height, x, i, d);
        }
        forall i: nat | i < PORTS
          ensures cut.children[i] == if Points(t, x, i, d) then None else hub.children[i]
        {
        }
        if HasParent(t, d) && Parent(t, d) == x {
          assert cut.children == hub.children[t.devices[d].port := None];
        } else {
          assert cut.children == hub.children;
        }
      }
    }
  }

  // The loop over the ports of a hub.

  /** The last entry is a hub in the subtree and still has a child: freeing it goes wrong. */
  ghost predicate Blocked(t: Tables, height: seq<nat>, d: nat)
    requires Shaped(t) && |height| == DEVICES && d < DEVICES
  {
    LAST in Subtree(t, height, d) && HasChild(t, LAST)
  }

  ghost predicate HasChild(t: Tables, x: nat)
    requires Shaped(t) && x < DEVICES
  {
    exists i: nat, c: nat :: Points(t, x, i, c)
  }

  /** The children of `d` on the ports below `k` can all be freed. */
  ghost predicate Freeable(t: Tables, height: seq<nat>, d: nat, k: nat)
    requires Forest(t, height) && d < DEVICES
  {
    forall i: nat, c: nat :: i < k && Points(t, d, i, c) ==> c < DEVICES && InUse(t, c) && !Blocked(t, height, c)
  }

  /** State `u` when the loop of line 672 has passed the ports of `d` below `k`. */
  ghost predicate PortsDone(t: Tables, u: Tables, height: seq<nat>, d: nat, k: nat)
  {
    && Forest(t, height) && Forest(u, height) && d < DEVICES && Freeable(t, height, d, k)
    && Pruned(t, u, ChildTrees(t, height, d, k))
  }

  lemma NoneDone(t: Tables, height: seq<nat>, d: nat)
    requires Forest(t, height) && d < DEVICES
    ensures PortsDone(t, t, height, d, 0)
  {
    assert ChildTrees(t, height, d, 0) == {};
    forall x | 0 <= x < DEVICES && IsHub(t, x) ensures Cut(x, HubOf(t, x), {}) == HubOf(t, x) {
      assert Cut(x, HubOf(t, x), {}).children == HubOf(t, x).children;
    }
  }

  /** A device does not lie below its own children. */
  lemma NotBelowItself(t: Tables, height: seq<nat>, d: nat, k: nat)
    requires Forest(t, height) && d < DEVICES
    ensures d !in ChildTrees(t, height, d, k)
  {
  }

  /** What the next port holds, seen in the state the loop has reached. */
  lemma NextPort(t: Tables, u: Tables, height: seq<nat>, d: nat, k: nat)
    requires PortsDone(t, u, height, d, k)
    ensures u.devices[d] == t.devices[d] && IsHub(u, d) == IsHub(t, d)
    ensures IsHub(t, d) ==> HubOf(u, d).maxChildren == HubOf(t, d).maxChildren
    ensures forall c: nat :: Points(u, d, k, c) <==> Points(t, d, k, c)
    ensures forall c: nat :: Points(t, d, k, c) && c < DEVICES && InUse(t, c) ==>
      InUse(u, c) && Subtree(u, height, c) == Subtree(t, height, c)
        && (Blocked(u, height, c) <==> Blocked(t, height, c))
    ensures forall c: nat :: c < DEVICES && InUse(u, c) ==> InUse(t, c)
  {
    hide Under;
    var gone := ChildTrees(t, height, d, k);
    NotBelowItself(t, height, d, k);
    forall c: nat ensures Points(u, d, k, c) <==> Points(t, d, k, c) {
      PrunedPoints(t, u, gone, d, k, c);
      if Points(t, d, k, c) && d != LAST {
        assert GoodPointer(t, height, d, k, c);
        ChildApart(t, height, d, k, c);
        ItselfUnder(t, height, c);
        assert c in Subtree(t, height, c);
      }
    }
    forall c: nat | Points(t, d, k, c) && c < DEVICES && InUse(t, c)
      ensures InUse(u, c) && Subtree(u, height, c) == Subtree(t, height, c)
        && (Blocked(u, height, c) <==> Blocked(t, height, c))
    {
      ChildApart(t, height, d, k, c);
      ChildStays(t, u, gone, height, c);
    }
  }

  lemma ChildApart(t: Tables, height: seq<nat>, d: nat, k: nat, c: nat)
    requires Forest(t, height) && d < DEVICES && Freeable(t, height, d, k)
    requires c < DEVICES && Points(t, d, k, c) && InUse(t, c)
    ensures Subtree(t, height, c) !! ChildTrees(t, height, d, k)
  {
    hide Points, Blocked;
    forall x | x in Subtree(t, height, c) && x in ChildTrees(t, height, d, k) ensures false {
      var j: nat, b: nat :| j < k && b < DEVICES && Points(t, d, j, b) && Under(t, height, x, b);
      SiblingsApart(t, height, x, d, j, b, k, c);
    }
  }

  lemma ChildStays(t: Tables, u: Tables, gone: set<nat>, height: seq<nat>, c: nat)
    requires Forest(t, height) && Pruned(t, u, gone) && c < DEVICES && Subtree(t, height, c) !! gone
    ensures Subtree(u, height, c) == Subtree(t, height, c)
    ensures c !in gone && u.devices[c] == t.devices[c]
    ensures Blocked(u, height, c) <==> Blocked(t, height, c)
  {
    hide Under, Points, HasParent;
    forall x: nat | x < DEVICES ensures Under(u, height, x, c) <==> Under(t, height, x, c) {
      SubtreeStays(t, u, gone, height, x, c);
    }
    assert c in Subtree(t, height, c) by { ItselfUnder(t, height, c); }
    if LAST in Subtree(t, height, c) {
      forall i: nat, b: nat ensures Points(u, LAST, i, b) <==> Points(t, LAST, i, b) {
        PrunedPoints(t, u, gone, LAST, i, b);
      }
    }
  }

  lemma ItselfUnder(t: Tables, height: seq<nat>, c: nat)
    requires Shaped(t) && |height| == DEVICES && c < DEVICES
    ensures Under(t, height, c, c)
  {
  }

  lemma PortEmpty(t: Tables, u: Tables, height: seq<nat>, d: nat, k: nat)
    requires PortsDone(t, u, height, d, k) && forall c: nat :: !Points(t, d, k, c)
    ensures PortsDone(t, u, height, d, k + 1)
  {
    hide Points, Under, Blocked, Pruned;
    forall x: nat | x < DEVICES ensures UnderChild(t, height, x, d, k + 1) <==> UnderChild(t, height, x, d, k) {
    }
    assert ChildTrees(t, height, d, k + 1) == ChildTrees(t, height, d, k);
  }

  lemma PortFreed(t: Tables, u: Tables, v: Tables, height: seq<nat>, d: nat, k: nat, c: nat)
    requires PortsDone(t, u, height, d, k) && Points(t, d, k, c) && c < DEVICES && InUse(t, c) && !Blocked(t, height, c)
    requires Pruned(u, v, Subtree(t, height, c))
    ensures PortsDone(t, v, height, d, k + 1)
  {
    hide Under, Blocked, Pruned, Cut, Points, InUse, Freeable, ChildTrees, Subtree;
    var gone, more := ChildTrees(t, height, d, k), Subtree(t, height, c);
    PrunedTwice(t, u, v, gone, more, height);
    PrunedForest(u, v, more, height);
    TreesOn(t, height, d, k, c);
    FreeableOn(t, height, d, k, c);
  }

  lemma TreesOn(t: Tables, height: seq<nat>, d: nat, k: nat, c: nat)
    requires Forest(t, height) && d < DEVICES && c < DEVICES && Points(t, d, k, c)
    ensures ChildTrees(t, height, d, k + 1) == ChildTrees(t, height, d, k) + Subtree(t, height, c)
  {
    hide Under, Points;
    OnePerPort(t, d, k, c);
    forall x: nat | x < DEVICES
      ensures UnderChild(t, height, x, d, k + 1) <==> UnderChild(t, height, x, d, k) || Under(t, height, x, c)
    {
    }
  }

  lemma FreeableOn(t: Tables, height: seq<nat>, d: nat, k: nat, c: nat)
    requires Forest(t, height) && d < DEVICES && c < DEVICES && Points(t, d, k, c)
    requires Freeable(t, height, d, k) && InUse(t, c) && !Blocked(t, height, c)
    ensures Freeable(t, height, d, k + 1)
  {
    hide Points, Blocked, InUse;
    OnePerPort(t, d, k, c);
  }

  lemma OnePerPort(t: Tables, d: nat, k: nat, c: nat)
    requires Shaped(t) && d < DEVICES && Points(t, d, k, c)
    ensures forall b: nat :: Points(t, d, k, b) ==> b == c
  {
  }

  lemma ChildStops(t: Tables, height: seq<nat>, d: nat, i: nat, c: nat, k: nat)
    requires Forest(t, height) && d < DEVICES && Points(t, d, i, c) && c < DEVICES && i < k
    requires !InUse(t, c) || Blocked(t, height, c)
    ensures !Freeable(t, height, d, k)
  {
    hide Blocked;
  }

  /** Freeing the children fails only when freeing the hub must. */
  lemma UnfreeableBlocks(t: Tables, height: seq<nat>, d: nat, k: nat)
    requires Forest(t, height) && d < DEVICES && !Freeable(t, height, d, k)
    ensures Blocked(t, height, d)
  {
    var i: nat, c: nat :| i < k && Points(t, d, i, c) && !(c < DEVICES && InUse(t, c) && !Blocked(t, height, c));
    assert GoodPointer(t, height, d, i, c);
    ChildBlocks(t, height, d, i, c);
  }

  /** A hub all of whose children have been freed already. */
  lemma ChildrenGone(u: Tables, height: seq<nat>, d: nat, k: nat)
    requires Forest(u, height) && d < DEVICES && IsHub(u, d) && k == HubOf(u, d).maxChildren
    requires forall i: nat, c: nat :: Points(u, d, i, c) ==> c < DEVICES && !InUse(u, c)
    ensures Freeable(u, height, d, k) <==> !HasChild(u, d)
    ensures !HasChild(u, d) ==> ChildTrees(u, height, d, k) == {}
  {
    hide Blocked, Under;
    if HasChild(u, d) {
      var i: nat, c: nat :| Points(u, d, i, c);
      assert i < k;
    }
  }

  lemma PrunedNone(t: Tables, u: Tables)
    requires Pruned(t, u, {})
    ensures u == t
  {
    forall h: nat | h < HUBS ensures u.hubs[h] == t.hubs[h] {
      if !Unowned(t, h) {
        var x: nat :| x < DEVICES && IsHub(t, x) && t.devices[x].hub.value == h;
        assert Cut(x, HubOf(t, x), {}).children == HubOf(t, x).children;
      }
    }
    assert u.devices == t.devices && u.hubs == t.hubs;
  }

  lemma ChildBlocks(t: Tables, height: seq<nat>, d: nat, k: nat, c: nat)
    requires Forest(t, height) && d < DEVICES && Points(t, d, k, c) && c < DEVICES
    requires !InUse(t, c) || Blocked(t, height, c)
    ensures Blocked(t, height, d)
  {
    assert GoodPointer(t, height, d, k, c);
    if InUse(t, c) {
      UnderChildIsUnder(t, height, LAST, d, k, c);
    } else {
      ItselfUnder(t, height, d);
    }
  }

  /** When every port has been passed. */
  lemma AllPortsDone(t: Tables, u: Tables, height: seq<nat>, d: nat, k: nat)
    requires PortsDone(t, u, height, d, k) && forall i: nat, c: nat :: Points(t, d, i, c) ==> i < k
    ensures Subtree(t, height, d) == ChildTrees(t, height, d, k) + {d}
    ensures u.devices[d] == t.devices[d]
    ensures HasChild(u, d) <==> Blocked(t, height, d)
    ensures forall i: nat, c: nat :: Points(u, d, i, c) ==> c < DEVICES && !InUse(u, c)
  {
    hide Under, Pruned;
    var gone := ChildTrees(t, height, d, k);
    NotBelowItself(t, height, d, k);
    AllUnder(t, height, d, k);
    assert u.devices[d] == t.devices[d] by { PrunedDevice(t, u, gone, d); }
    forall i: nat, c: nat
      ensures Points(u, d, i, c) <==> Points(t, d, i, c) && d == LAST
      ensures Points(u, d, i, c) ==> c < DEVICES && !InUse(u, c)
    {
      PrunedPoints(t, u, gone, d, i, c);
      if Points(t, d, i, c) {
        ItselfUnder(t, height, c);
        assert UnderChild(t, height, c, d, k);
        PrunedDevice(t, u, gone, c);
      }
    }
    if LAST in Subtree(t, height, d) && LAST != d {
      var i: nat, c: nat :| i < k && c < DEVICES && Points(t, d, i, c) && Under(t, height, LAST, c);
      assert !Blocked(t, height, c);
      assert LAST in Subtree(t, height, c);
    }
    ItselfUnder(t, height, d);
  }

  lemma PrunedDevice(t: Tables, u: Tables, gone: set<nat>, x: nat)
    requires Pruned(t, u, gone) && x < DEVICES
    ensures u.devices[x] == if x in gone then CLEAR_DEVICE else t.devices[x]
  {
  }

  lemma AllUnder(t: Tables, height: seq<nat>, d: nat, k: nat)
    requires Forest(t, height) && d < DEVICES && Freeable(t, height, d, k)
    requires forall i: nat, c: nat :: Points(t, d, i, c) ==> i < k
    ensures Subtree(t, height, d) == ChildTrees(t, height, d, k) + {d}
  {
    hide Points, Blocked;
    forall x: nat | x < DEVICES ensures Under(t, height, x, d) <==> x == d || UnderChild(t, height, x, d, k) {
      if x != d && Under(t, height, x, d) {
        var i, c := UnderIsUnderChild(t, height, x, d);
      }
      if UnderChild(t, height, x, d, k) {
        var i: nat, c: nat :| i < k && c < DEVICES && Points(t, d, i, c) && Under(t, height, x, c);
        UnderChildIsUnder(t, height, x, d, i, c);
      }
    }
  }

  class Bus {
    const devices: array<Device>
    const hubs: array<Hub>

    ghost function Now(): Tables
      reads devices, hubs
    {
      Tables(devices[..], hubs[..])
    }

    /** Lines 626-636: frees the children of a hub and then clears its payload. It fails exactly when
        some child cannot be freed; `u` is the state between the two. */
    method RemoveHubPayload(d: nat, ghost height: seq<nat>) returns (ok: bool, ghost u: Tables)
      requires Forest(Now(), height) && d < DEVICES
      modifies devices, hubs
      ensures !IsHub(old(Now()), d) ==> ok && Now() == old(Now())
      ensures IsHub(old(Now()), d) ==> (ok <==> Freeable(old(Now()), height, d, HubOf(old(Now()), d).maxChildren))
      ensures IsHub(old(Now()), d) && ok ==>
        && PortsDone(old(Now()), u, height, d, HubOf(old(Now()), d).maxChildren)
        && IsHub(u, d) && Now() == PayloadRemoved(u, d)
      decreases height[d], 1
    {
      hide Freeable, Pruned;
      ok, u := true, Now();
      if devices[d].payload == HubPayload && devices[d].hub.Some? {
        ok := FreeChildren(d, height);
        u := Now();
        if ok {
          NextPort(old(Now()), u, height, d, HubOf(old(Now()), d).maxChildren);
          hubs[devices[d].hub.value] := ClearHub();
          devices[d] := devices[d].(hub := None, payload := NoPayload);
        }
      }
    }

    /** Lines 671-674, and 628-631 again: fails exactly when some child cannot be freed. */
    method FreeChildren(d: nat, ghost height: seq<nat>) returns (ok: bool)
      requires Forest(Now(), height) && d < DEVICES && IsHub(Now(), d)
      modifies devices, hubs
      ensures ok <==> Freeable(old(Now()), height, d, HubOf(old(Now()), d).maxChildren)
      ensures ok ==> PortsDone(old(Now()), Now(), height, d, HubOf(old(Now()), d).maxChildren)
      decreases height[d], 0
    {
      hide Blocked, Freeable, Pruned;
      ghost var t := Now();
      NoneDone(t, height, d);
      var i := 0;
      while i < hubs[devices[d].hub.value].maxChildren
        invariant PortsDone(t, Now(), height, d, i) && IsHub(Now(), d)
        invariant 0 <= i <= HubOf(t, d).maxChildren == HubOf(Now(), d).maxChildren
        decreases HubOf(t, d).maxChildren - i
      {
        ghost var u := Now();
        NextPort(t, u, height, d, i);
        var child := hubs[devices[d].hub.value].children[i];
        if child.Some? {
          var c := child.value;
          assert Points(t, d, i, c) by { assert Points(u, d, i, c); }
          assert GoodPointer(t, height, d, i, c);
          var freed := UsbDeallocateDevice(c, height);
          if !freed {
            ChildStops(t, height, d, i, c, HubOf(t, d).maxChildren);
            return false;
          }
          PortFreed(t, u, Now(), height, d, i, c);
        } else {
          assert forall c: nat :: !Points(u, d, i, c);
          PortEmpty(t, u, height, d, i);
        }
        i := i + 1;
        NextPort(t, Now(), height, d, i);
      }
      ok := true;
    }

    /** Lines 678-687, after the hub payload of `u` has been removed. */
    method Unlink(d: nat, ghost u: Tables, ghost height: seq<nat>)
      requires Forest(u, height) && d < DEVICES && InUse(u, d)
      requires Now() == if IsHub(u, d) then PayloadRemoved(u, d) else u
      modifies devices, hubs
      ensures Now() == SelfFreed(u, d)
    {
      var number, port := devices[d].parentNumber, devices[d].port;
      if number < DEVICES {
        var p := number - 1;
        ghost var linked := HasParent(u, d);
        if linked { assert GoodPointer(u, height, p, port, d); }
        if devices[p].payload == HubPayload && devices[p].hub.Some? {
          var h := devices[p].hub.value;
          if port < hubs[h].maxChildren && hubs[h].children[port] == Some(d) {
            hubs[h] := hubs[h].(children := hubs[h].children[port := None]);
          }
        }
      }
      devices[d] := CLEAR_DEVICE;
    }

    /** Lines 669-688. The call goes wrong exactly when the device is free or the last entry is a hub
        in its subtree that has a child; otherwise it frees exactly the subtree. */
    method UsbDeallocateDevice(d: nat, ghost height: seq<nat>) returns (ok: bool)
      requires Forest(Now(), height) && d < DEVICES
      modifies devices, hubs
      ensures ok <==> InUse(old(Now()), d) && !Blocked(old(Now()), height, d)
      ensures ok ==> Pruned(old(Now()), Now(), Subtree(old(Now()), height, d))
      decreases height[d], 2
    {
      hide Blocked, Pruned, HasChild, SelfFreed, Freeable, ChildTrees;
      ghost var t := Now();
      ghost var ports := 0;
      NoneDone(t, height, d);
      if devices[d].payload == HubPayload && devices[d].hub.Some? {
        ports := HubOf(t, d).maxChildren;
        ok := FreeChildren(d, height);
        if !ok {
          UnfreeableBlocks(t, height, d, ports);
          return;
        }
      }
      ghost var u := Now();
      AllPortsDone(t, u, height, d, ports);
      if devices[d].payload == HubPayload && devices[d].hub.Some? {
        ChildrenGone(u, height, d, HubOf(u, d).maxChildren);
        ghost var v;
        ok, v := RemoveHubPayload(d, height);
        if !ok {
          return;
        }
        PrunedNone(u, v);
      } else {
        NoHubNoChild(u, d);
      }
      if devices[d].parentNumber == 0 {
        return false;
      }
      Unlink(d, u, height);
      SelfFreedIsPruned(u, d, height);
      PrunedTwice(t, u, Now(), ChildTrees(t, height, d, ports), {d}, height);
      ok := true;
    }
  }

  lemma NoHubNoChild(t: Tables, d: nat)
    requires Shaped(t) && d < DEVICES && !IsHub(t, d)
    ensures !HasChild(t, d)
  {
  }

  function PayloadRemoved(t: Tables, d: nat): Tables
    requires Shaped(t) && d < DEVICES && IsHub(t, d)
  {
    Tables(t.devices[d := t.devices[d].(hub := None, payload := NoPayload)], t.hubs[t.devices[d].hub.value := ClearHub()])
  }

  /** What the searches for a free entry look at: the entries of freed devices and of their hub payloads
      pass for free, all 32 and 16 of them being alike, and no others do that did not before. */
  lemma FreedEntriesAreFree(t: Tables, u: Tables, gone: set<nat>, height: seq<nat>, x: nat)
    requires Forest(t, height) && Pruned(t, u, gone) && x < 32
    ensures |u.devices| == 32 && |u.hubs| == 16
    ensures u.devices[x].payload == ErrorPayload <==> x in gone || t.devices[x].payload == ErrorPayload
    ensures x in gone ==> u.devices[x] == Device(ErrorPayload, 0, 0, None, 0)
    ensures IsHub(t, x) ==>
      u.hubs[t.devices[x].hub.value].maxChildren == if x in gone then 0 else t.hubs[t.devices[x].hub.value].maxChildren
  {
    PrunedDevice(t, u, gone, x);
  }

  /** Freeing a subtree leaves a pointer to a free entry behind exactly when the device hung on the
      last entry, whose number line 678 refuses. */
  lemma DanglesIffOnLastEntry(t: Tables, u: Tables, height: seq<nat>, d: nat)
    requires Forest(t, height) && NoneDangling(t) && d < DEVICES && InUse(t, d)
    requires Pruned(t, u, Subtree(t, height, d))
    ensures NoneDangling(u) <==> !(HasParent(t, d) && Parent(t, d) == LAST)
  {
    hide Cut;
    var gone := Subtree(t, height, d);
    ItselfUnder(t, height, d);
    forall x: nat, i: nat, c: nat | x < DEVICES && Points(u, x, i, c) && !(c < DEVICES && InUse(u, c))
      ensures HasParent(t, d) && Parent(t, d) == LAST
    {
      PrunedPoints(t, u, gone, x, i, c);
      PrunedDevice(t, u, gone, c);
      ChildHasParent(t, height, x, i, c);
    }
    if HasParent(t, d) && Parent(t, d) == LAST {
      var i := t.devices[d].port;
      assert LAST !in gone by { assert GoodPointer(t, height, LAST, i, d); }
      PrunedPoints(t, u, gone, LAST, i, d);
      PrunedDevice(t, u, gone, d);
      assert Points(u, LAST, i, d) && !InUse(u, d);
    }
  }

  // The failing input.

  /** A hub on the last entry, with device 0 on its port 3. */
  function HubOnLastEntry(): Tables {
    Tables(seq(DEVICES, x =>
             if x == 0 then Device(NoPayload, LAST + 1, 3, None, 0)
             else if x == LAST then Device(HubPayload, 0xFF, 0, Some(0), 0)
             else CLEAR_DEVICE),
           seq(HUBS, h =>
             if h == 0 then Hub(4, seq(PORTS, i => if i == 3 then Some(0) else None), 0)
             else ClearHub()))
  }

  function TwoLevels(): seq<nat> { seq(DEVICES, x => if x == LAST then 1 else 0) }

  lemma OnePointer(t: Tables)
    requires t == HubOnLastEntry()
    ensures Shaped(t)
    ensures forall x: nat, i: nat, c: nat :: x < DEVICES ==> (Points(t, x, i, c) <==> x == LAST && i == 3 && c == 0)
    ensures forall x: nat :: x < DEVICES ==> (IsHub(t, x) <==> x == LAST) && (InUse(t, x) <==> x == 0 || x == LAST)
  {
    forall h: nat | h < HUBS ensures |t.hubs[h].children| == PORTS && t.hubs[h].maxChildren <= PORTS {
      assert h != 0 ==> t.hubs[h] == ClearHub();
    }
    assert Shaped(t);
    assert t.hubs[0].children[3] == Some(0);
  }

  lemma OneLink(t: Tables, height: seq<nat>)
    requires t == HubOnLastEntry() && height == TwoLevels()
    ensures Forest(t, height) && NoneDangling(t)
    ensures HasParent(t, 0) && Parent(t, 0) == LAST && !Under(t, height, LAST, 0)
  {
    hide Points, IsHub, InUse;
    OnePointer(t);
  }

  /** Freeing device 0 works and leaves the pointer to it; freeing the hub goes wrong. */
  lemma LastEntryFails()
    ensures var t, height := HubOnLastEntry(), TwoLevels();
      && Forest(t, height) && NoneDangling(t)
      && InUse(t, 0) && !Blocked(t, height, 0)
      && (forall u :: Pruned(t, u, Subtree(t, height, 0)) ==> !NoneDangling(u))
      && InUse(t, LAST) && Blocked(t, height, LAST)
  {
    hide Cut, Under, Points, HubOnLastEntry, TwoLevels, HasParent, InUse, IsHub, Parent, NoneDangling;
    var t, height := HubOnLastEntry(), TwoLevels();
    OnePointer(t);
    OneLink(t, height);
    ItselfUnder(t, height, LAST);
    assert Points(t, LAST, 3, 0);
    forall u | Pruned(t, u, Subtree(t, height, 0)) ensures !NoneDangling(u) {
      DanglesIffOnLastEntry(t, u, height, 0);
    }
  }
}
