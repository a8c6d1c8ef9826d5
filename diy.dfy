/**
 * The do-it-yourself activity watcher of xautolock (src/diy.c). It selects
 * KeyPress events on every window that does not already pass them on, and
 * SubstructureNotify events so that new windows are seen; a new window is
 * queued and its record is promoted only once it is CreationDelay seconds
 * old, so that its owner has had the time to select its own events; a
 * window below an older promoted window gets its full mask through that
 * window's tree.
 *
 * The X server is abstracted to class Display: a fixed map from window to
 * what the two queries about it return, the masks installed so far and
 * the events still pending. The clock is a parameter `now`.
 */
module Diy {
  import opened Wrappers
  import opened State
  import opened Options

  /** A window id; 0 is None. */
  type Window = int

  /** The two event masks xautolock selects (X.h). */
  const KeyPressMask: bv32 := 1
  const SubstructureNotifyMask: bv32 := 0x80000

  /** What XGetWindowAttributes reports of a window's event masks. */
  datatype Attributes = Attributes(allEventMasks: bv32, doNotPropagateMask: bv32)

  /**
   * What the server answers about a window that still exists: whether it
   * is the real root (its parent is None), its attributes unless that
   * query fails, and the children of the second tree query unless that
   * query fails.
   */
  datatype WindowInfo = WindowInfo(isRoot: bool, attributes: Option<Attributes>, children: Option<seq<Window>>)

  /**
   * The event mask selectEvents installs on a window, or None when it
   * installs none: substructure-only mode asks for SubstructureNotify
   * alone; full mode adds KeyPress when the window is the real root or
   * some client selects KeyPress on it or keeps it from propagating.
   */
  function MaskFor(info: WindowInfo, substructureOnly: bool): (m: Option<bv32>)
    ensures m.None? <==> !substructureOnly && !info.isRoot && info.attributes.None?
    ensures m.Some? ==> m.value & SubstructureNotifyMask != 0
    ensures m.Some? ==> m.value & !(SubstructureNotifyMask | KeyPressMask) == 0
    ensures m.Some? && substructureOnly ==> m.value == SubstructureNotifyMask
    ensures m.Some? && !substructureOnly && info.isRoot ==> m.value == SubstructureNotifyMask | KeyPressMask
    ensures m.Some? && !substructureOnly && !info.isRoot ==>
      (m.value & KeyPressMask != 0 <==>
       (info.attributes.value.allEventMasks | info.attributes.value.doNotPropagateMask) & KeyPressMask != 0)
  {
    if substructureOnly then Some(SubstructureNotifyMask)
    else
      var a := if info.isRoot then Some(Attributes(KeyPressMask, KeyPressMask)) else info.attributes;
      match a
      case None => None
      case Some(attribs) =>
        Some(SubstructureNotifyMask | ((attribs.allEventMasks | attribs.doNotPropagateMask) & KeyPressMask))
  }

  /** The events xautolock tells apart. */
  datatype EventKind =
    | CreateNotify(window: Window)
    | OtherSubstructureNotify   // destroy, map, configure, ... : matched by SubstructureNotifyMask
    | KeyPress
    | OtherEvent

  /** An event; `sendEvent` is set on events made by XSendEvent. */
  datatype Event = Event(kind: EventKind, sendEvent: bool)

  predicate IsSubstructure(e: Event) {
    e.kind.CreateNotify? || e.kind.OtherSubstructureNotify?
  }

  /** A KeyPress that a real keyboard produced. */
  predicate IsGenuineKeyPress(e: Event) {
    e.kind.KeyPress? && !e.sendEvent
  }

  /** The abstract X server of one display. */
  class Display {
    const windows: map<Window, WindowInfo>
    const roots: seq<Window>                 // the root window of each screen
    ghost const rank: map<Window, nat>       // the height of each window in the tree
    var selected: map<Window, bv32>          // the masks installed by XSelectInput so far
    var pending: seq<Event>                  // the events not yet read

    /** Children sit strictly lower in the tree than their parent: the tree is finite. */
    ghost predicate Valid() {
      && (forall w :: w in windows ==> w in rank)
      && (forall w, c :: w in windows && windows[w].children.Some? && c in windows[w].children.value && c in windows
            ==> rank[c] < rank[w])
    }

    constructor (windows: map<Window, WindowInfo>, roots: seq<Window>, ghost rank: map<Window, nat>,
                 pending: seq<Event>)
      ensures this.windows == windows && this.roots == roots && this.rank == rank
      ensures this.pending == pending && selected == map[]
    {
      this.windows, this.roots, this.rank := windows, roots, rank;
      this.pending := pending;
      selected := map[];
    }

    /** A termination measure: a window the server no longer knows ranks lowest. */
    ghost function Measure(w: Window): nat
      requires Valid()
    {
      if w in windows then rank[w] + 1 else 0
    }

    /**
     * The masks installed after selectEvents (w, substructureOnly), from
     * `sel` before: nothing when the first tree query fails (the window is
     * gone) or when there is no mask for it; otherwise its mask and then,
     * unless the second tree query fails, each child in order.
     */
    function SelectTree(sel: map<Window, bv32>, w: Window, substructureOnly: bool): (r: map<Window, bv32>)
      requires Valid()
      ensures w !in windows || MaskFor(windows[w], substructureOnly).None? ==> r == sel
      ensures sel.Keys <= r.Keys
      decreases Measure(w), 1, 0
    {
      if w !in windows then sel
      else
        var info := windows[w];
        match MaskFor(info, substructureOnly)
        case None => sel
        case Some(m) =>
          if info.children.None? then sel[w := m]
          else SelectChildren(sel[w := m], w, |info.children.value|, substructureOnly)
    }

    /** The masks installed by the first k iterations of selectEvents' loop over the children of p. */
    function SelectChildren(sel: map<Window, bv32>, p: Window, k: nat, substructureOnly: bool): (r: map<Window, bv32>)
      requires Valid() && p in windows && windows[p].children.Some? && k <= |windows[p].children.value|
      ensures sel.Keys <= r.Keys
      decreases Measure(p), 0, k
    {
      if k == 0 then sel
      else
        var c := windows[p].children.value[k - 1];
        SelectTree(SelectChildren(sel, p, k - 1, substructureOnly), c, substructureOnly)
    }

    /**
     * The windows selectEvents (w, substructureOnly) installs a mask on:
     * `w` when the server knows it and MaskFor gives it a mask, then the
     * trees of its children when the second tree query succeeds.
     */
    ghost function Tree(w: Window, substructureOnly: bool): set<Window>
      requires Valid()
      decreases Measure(w), 1, 0
    {
      if w !in windows || MaskFor(windows[w], substructureOnly).None? then {}
      else if windows[w].children.None? then {w}
      else {w} + Forest(w, |windows[w].children.value|, substructureOnly)
    }

    /** The trees of the first k children of p. */
    ghost function Forest(p: Window, k: nat, substructureOnly: bool): set<Window>
      requires Valid() && p in windows && windows[p].children.Some? && k <= |windows[p].children.value|
      decreases Measure(p), 0, k
    {
      if k == 0 then {}
      else Forest(p, k - 1, substructureOnly) + Tree(windows[p].children.value[k - 1], substructureOnly)
    }

    /**
     * A path down the window tree: known windows that have a mask, each
     * listed among the children of the one before it.
     */
    ghost predicate IsPath(ws: seq<Window>, substructureOnly: bool) {
      && (forall i :: 0 <= i < |ws| ==> ws[i] in windows && MaskFor(windows[ws[i]], substructureOnly).Some?)
      && (forall i :: 0 <= i < |ws| - 1 ==>
            ws[i] in windows && windows[ws[i]].children.Some? && ws[i + 1] in windows[ws[i]].children.value)
    }

    /**
     * XCheckMaskEvent (SubstructureNotifyMask): takes out the first pending
     * substructure event, wherever it is, if there is one.
     */
    method CheckMaskEvent() returns (e: Option<Event>, ghost j: nat)
      modifies this`pending
      ensures e.None? ==> pending == old(pending) && forall i :: 0 <= i < |pending| ==> !IsSubstructure(pending[i])
      ensures e.Some? ==> && j < |old(pending)| && e.value == old(pending)[j] && IsSubstructure(e.value)
                          && (forall i :: 0 <= i < j ==> !IsSubstructure(old(pending)[i]))
                          && pending == old(pending)[..j] + old(pending)[j + 1..]
    {
      j := 0;
      var i := FirstSubstructure(pending);
      if i.None? {
        return None, 0;
      }
      var k := i.value;
      j := k;
      e := Some(pending[k]);
      pending := pending[..k] + pending[k + 1..];
    }

    /** XNextEvent: takes out the front pending event. */
    method NextEvent() returns (e: Event)
      requires pending != []
      modifies this`pending
      ensures e == old(pending)[0] && pending == old(pending)[1..]
    {
      e := pending[0];
      pending := pending[1..];
    }

    /** selectEvents: installs the masks of the tree below `w`, as SelectTree says. */
    method SelectEvents(w: Window, substructureOnly: bool)
      requires Valid()
      modifies this`selected
      ensures selected == SelectTree(old(selected), w, substructureOnly)
      ensures InstallsExactly(this, old(selected), selected, substructureOnly, Tree(w, substructureOnly))
      decreases Measure(w), 1, 0
    {
      SelectTreeInstalls(this, selected, w, substructureOnly);
      if w !in windows {
        return;
      }
      var info := windows[w];
      var mask: bv32;
      if substructureOnly {
        mask := SubstructureNotifyMask;
      } else {
        var attribs: Attributes;
        if info.isRoot {
          attribs := Attributes(KeyPressMask, KeyPressMask);
        } else if info.attributes.None? {
          return;
        } else {
          attribs := info.attributes.value;
        }
        mask := SubstructureNotifyMask | ((attribs.allEventMasks | attribs.doNotPropagateMask) & KeyPressMask);
      }
      selected := selected[w := mask];
      if info.children.None? {
        return;
      }
      ghost var start := selected;
      var children := info.children.value;
      for i := 0 to |children|
        invariant selected == SelectChildren(start, w, i, substructureOnly)
      {
        SelectEvents(children[i], substructureOnly);
      }
    }
  }

  /**
   * `r` is `sel` with the mask MaskFor gives installed on every window of
   * `scope`, and nothing else changed: these are exactly the windows whose
   * masks change, and no installed mask is removed.
   */
  ghost predicate InstallsExactly(d: Display, sel: map<Window, bv32>, r: map<Window, bv32>,
                                  substructureOnly: bool, scope: set<Window>)
    requires d.Valid()
  {
    && r.Keys == sel.Keys + scope
    && (forall x :: x in scope ==> x in d.windows && MaskFor(d.windows[x], substructureOnly) == Some(r[x]))
    && (forall x :: x in sel && x !in scope ==> r[x] == sel[x])
  }

  lemma InstallsExactlyCompose(d: Display, a: map<Window, bv32>, b: map<Window, bv32>, c: map<Window, bv32>,
                               substructureOnly: bool, s: set<Window>, t: set<Window>)
    requires d.Valid()
    requires InstallsExactly(d, a, b, substructureOnly, s) && InstallsExactly(d, b, c, substructureOnly, t)
    ensures InstallsExactly(d, a, c, substructureOnly, s + t)
  {
  }

  /**
   * selectEvents (w, mode) installs MaskFor exactly on Tree (w): on `w`
   * and the trees of its children, and on no other window.
   */
  lemma {:induction false} SelectTreeInstalls(d: Display, sel: map<Window, bv32>, w: Window, substructureOnly: bool)
    requires d.Valid()
    ensures InstallsExactly(d, sel, d.SelectTree(sel, w, substructureOnly), substructureOnly, d.Tree(w, substructureOnly))
    ensures w in d.windows && MaskFor(d.windows[w], substructureOnly).Some? ==>
      var r := d.SelectTree(sel, w, substructureOnly);
      w in r && r[w] == MaskFor(d.windows[w], substructureOnly).value
    decreases d.Measure(w), 1, 0
  {
    if w in d.windows {
      var info := d.windows[w];
      match MaskFor(info, substructureOnly)
      case None =>
      case Some(m) =>
        var sel' := sel[w := m];
        assert InstallsExactly(d, sel, sel', substructureOnly, {w});
        if info.children.Some? {
          var n := |info.children.value|;
          SelectChildrenInstalls(d, sel', w, n, substructureOnly);
          InstallsExactlyCompose(d, sel, sel', d.SelectChildren(sel', w, n, substructureOnly), substructureOnly,
                                 {w}, d.Forest(w, n, substructureOnly));
        }
    }
  }

  /** The first k rounds of selectEvents' loop over the children of p install MaskFor exactly on Forest (p, k). */
  lemma {:induction false} SelectChildrenInstalls(d: Display, sel: map<Window, bv32>, p: Window, k: nat,
                                                  substructureOnly: bool)
    requires d.Valid() && p in d.windows && d.windows[p].children.Some? && k <= |d.windows[p].children.value|
    ensures InstallsExactly(d, sel, d.SelectChildren(sel, p, k, substructureOnly), substructureOnly,
                            d.Forest(p, k, substructureOnly))
    decreases d.Measure(p), 0, k
  {
    if k > 0 {
      var c := d.windows[p].children.value[k - 1];
      var mid := d.SelectChildren(sel, p, k - 1, substructureOnly);
      SelectChildrenInstalls(d, sel, p, k - 1, substructureOnly);
      SelectTreeInstalls(d, mid, c, substructureOnly);
      InstallsExactlyCompose(d, sel, mid, d.SelectChildren(sel, p, k, substructureOnly), substructureOnly,
                             d.Forest(p, k - 1, substructureOnly), d.Tree(c, substructureOnly));
    }
  }

  /** The tree of each child sits in the forest of its parent. */
  lemma {:induction false} ForestHoldsChild(d: Display, p: Window, k: nat, i: nat, substructureOnly: bool)
    requires d.Valid() && p in d.windows && d.windows[p].children.Some? && i < k <= |d.windows[p].children.value|
    ensures d.Tree(d.windows[p].children.value[i], substructureOnly) <= d.Forest(p, k, substructureOnly)
  {
    if i < k - 1 {
      ForestHoldsChild(d, p, k - 1, i, substructureOnly);
    }
  }

  /** A window of the forest of p sits in the tree of one of its children. */
  lemma {:induction false} ForestMember(d: Display, p: Window, k: nat, x: Window, substructureOnly: bool)
      returns (i: nat)
    requires d.Valid() && p in d.windows && d.windows[p].children.Some? && k <= |d.windows[p].children.value|
    requires x in d.Forest(p, k, substructureOnly)
    ensures i < k && x in d.Tree(d.windows[p].children.value[i], substructureOnly)
  {
    if x in d.Tree(d.windows[p].children.value[k - 1], substructureOnly) {
      i := k - 1;
    } else {
      i := ForestMember(d, p, k - 1, x, substructureOnly);
    }
  }

  /**
   * Every window reachable from `ws[0]` along a path of known windows that
   * have a mask is in Tree (ws[0]): selectEvents reaches the whole tree.
   */
  lemma {:induction false} PathInTree(d: Display, ws: seq<Window>, substructureOnly: bool)
    requires d.Valid() && ws != [] && d.IsPath(ws, substructureOnly)
    ensures ws[|ws| - 1] in d.Tree(ws[0], substructureOnly)
    decreases |ws|
  {
    if |ws| > 1 {
      var rest := ws[1..];
      assert d.IsPath(rest, substructureOnly) by {
        assert forall i :: 0 <= i < |rest| ==> rest[i] == ws[i + 1];
      }
      PathInTree(d, rest, substructureOnly);
      var children := d.windows[ws[0]].children.value;
      var i :| 0 <= i < |children| && children[i] == ws[1];
      ForestHoldsChild(d, ws[0], |children|, i, substructureOnly);
    }
  }

  /** Conversely, every window of Tree (w) is reached from `w` along such a path. */
  lemma {:induction false} TreeHasPath(d: Display, w: Window, x: Window, substructureOnly: bool) returns (ws: seq<Window>)
    requires d.Valid() && x in d.Tree(w, substructureOnly)
    ensures ws != [] && ws[0] == w && ws[|ws| - 1] == x && d.IsPath(ws, substructureOnly)
    decreases d.Measure(w)
  {
    if x == w {
      ws := [w];
    } else {
      var children := d.windows[w].children.value;
      var i := ForestMember(d, w, |children|, x, substructureOnly);
      var rest := TreeHasPath(d, children[i], x, substructureOnly);
      ws := [w] + rest;
      assert forall j :: 0 < j < |ws| ==> ws[j] == rest[j - 1];
    }
  }

  /** selectEvents gives every window it reaches the mask MaskFor says. */
  lemma SelectEventsReaches(d: Display, sel: map<Window, bv32>, ws: seq<Window>, substructureOnly: bool)
    requires d.Valid() && ws != [] && d.IsPath(ws, substructureOnly)
    ensures var r := d.SelectTree(sel, ws[0], substructureOnly);
      var x := ws[|ws| - 1];
      x in d.windows && x in r && MaskFor(d.windows[x], substructureOnly) == Some(r[x])
  {
    PathInTree(d, ws, substructureOnly);
    SelectTreeInstalls(d, sel, ws[0], substructureOnly);
  }

  /** A record of the window queue. */
  datatype Entry = Entry(window: Window, creationtime: int)

  /** An item of the linked list. */
  class Item {
    const window: Window
    const creationtime: int
    var next: Item?

    constructor (window: Window, creationtime: int)
      ensures this.window == window && this.creationtime == creationtime && next == null
    {
      this.window, this.creationtime := window, creationtime;
      next := null;
    }
  }

  /** The length of the longest prefix of `q` whose entries are older than `age` at `now`. */
  function EligiblePrefix(q: seq<Entry>, age: int, now: int): (n: nat)
    ensures n <= |q|
    ensures forall i :: 0 <= i < n ==> q[i].creationtime + age < now
    ensures n < |q| ==> !(q[n].creationtime + age < now)
  {
    if q == [] || !(q[0].creationtime + age < now) then 0
    else 1 + EligiblePrefix(q[1..], age, now)
  }

  /** A prefix of eligible entries followed by an ineligible one or the end is the eligible prefix. */
  lemma EligiblePrefixIs(q: seq<Entry>, age: int, now: int, k: nat)
    requires k <= |q|
    requires forall i :: 0 <= i < k ==> q[i].creationtime + age < now
    requires k < |q| ==> !(q[k].creationtime + age < now)
    ensures EligiblePrefix(q, age, now) == k
  {
  }

  /** Creation times never decrease along the queue. */
  predicate Chronological(q: seq<Entry>) {
    forall i :: 0 <= i < |q| - 1 ==> q[i].creationtime <= q[i + 1].creationtime
  }

  /**
   * In a chronological queue the early exit of processQueue loses nothing:
   * no entry it leaves behind is old enough.
   */
  lemma {:induction false} NothingEligibleRemains(q: seq<Entry>, age: int, now: int)
    requires Chronological(q)
    ensures forall i :: EligiblePrefix(q, age, now) <= i < |q| ==> !(q[i].creationtime + age < now)
  {
    var n := EligiblePrefix(q, age, now);
    var i := n;
    while i < |q|
      invariant n <= i <= |q|
      invariant forall j :: n <= j < i ==> !(q[j].creationtime + age < now)
      invariant i < |q| ==> !(q[i].creationtime + age < now)
    {
      if i + 1 < |q| {
        assert q[i].creationtime <= q[i + 1].creationtime;
      }
      i := i + 1;
    }
  }

  /** A queue stays chronological when entries are added at a time not before the last. */
  lemma AppendKeepsChronological(q: seq<Entry>, e: Entry)
    requires Chronological(q)
    requires q != [] ==> q[|q| - 1].creationtime <= e.creationtime
    ensures Chronological(q + [e])
  {
  }

  /**
   * Entries added after the first one that is not old enough do not change
   * how far processQueue gets.
   */
  lemma {:induction false} EligiblePrefixOfExtension(q: seq<Entry>, more: seq<Entry>, age: int, now: int)
    requires more != [] && !(more[0].creationtime + age < now)
    ensures EligiblePrefix(q + more, age, now) == EligiblePrefix(q, age, now)
  {
    if q != [] {
      assert (q + more)[1..] == q[1..] + more;
      EligiblePrefixOfExtension(q[1..], more, age, now);
    }
  }

  /** The masks installed by promoting the first n records of `q`, in order, with full masks. */
  function PromoteAll(d: Display, sel: map<Window, bv32>, q: seq<Entry>, n: nat): (r: map<Window, bv32>)
    requires d.Valid() && n <= |q|
    ensures n == 0 ==> r == sel
    ensures sel.Keys <= r.Keys
  {
    if n == 0 then sel
    else d.SelectTree(PromoteAll(d, sel, q, n - 1), q[n - 1].window, false)
  }

  /** The windows promoting the first n records of `q` reaches: the full-mode trees of their windows. */
  ghost function PromotedTrees(d: Display, q: seq<Entry>, n: nat): set<Window>
    requires d.Valid() && n <= |q|
  {
    if n == 0 then {} else PromotedTrees(d, q, n - 1) + d.Tree(q[n - 1].window, false)
  }

  /** Promotion installs full-mode masks exactly on the trees of the promoted windows. */
  lemma {:induction false} PromoteAllInstallsFullMasks(d: Display, sel: map<Window, bv32>, q: seq<Entry>, n: nat)
    requires d.Valid() && n <= |q|
    ensures InstallsExactly(d, sel, PromoteAll(d, sel, q, n), false, PromotedTrees(d, q, n))
  {
    if n > 0 {
      var mid := PromoteAll(d, sel, q, n - 1);
      PromoteAllInstallsFullMasks(d, sel, q, n - 1);
      SelectTreeInstalls(d, mid, q[n - 1].window, false);
      InstallsExactlyCompose(d, sel, mid, PromoteAll(d, sel, q, n), false,
                             PromotedTrees(d, q, n - 1), d.Tree(q[n - 1].window, false));
    }
  }

  /** The tree of each promoted window is among the promoted trees. */
  lemma {:induction false} PromotedTreesHold(d: Display, q: seq<Entry>, n: nat, i: nat)
    requires d.Valid() && i < n <= |q|
    ensures d.Tree(q[i].window, false) <= PromotedTrees(d, q, n)
  {
    if i < n - 1 {
      PromotedTreesHold(d, q, n - 1, i);
    }
  }

  /**
   * Each promoted window, and every window reached from it along a path,
   * ends with its full-mode mask.
   */
  lemma PromotedGetMasks(d: Display, sel: map<Window, bv32>, q: seq<Entry>, n: nat, i: nat, ws: seq<Window>)
    requires d.Valid() && i < n <= |q|
    requires ws != [] && ws[0] == q[i].window && d.IsPath(ws, false)
    ensures var r := PromoteAll(d, sel, q, n);
      var x := ws[|ws| - 1];
      x in d.windows && x in r && MaskFor(d.windows[x], false) == Some(r[x])
  {
    PathInTree(d, ws, false);
    PromotedTreesHold(d, q, n, i);
    PromoteAllInstallsFullMasks(d, sel, q, n);
  }

  /** The masks installed by initDiy: substructure-only masks on the trees below the roots, in order. */
  function SelectRoots(d: Display, sel: map<Window, bv32>, roots: seq<Window>, n: nat): (r: map<Window, bv32>)
    requires d.Valid() && n <= |roots|
    ensures n == 0 ==> r == sel
    ensures sel.Keys <= r.Keys
  {
    if n == 0 then sel
    else d.SelectTree(SelectRoots(d, sel, roots, n - 1), roots[n - 1], true)
  }

  /** The windows initDiy reaches: the substructure-mode trees of the first n roots. */
  ghost function RootTrees(d: Display, roots: seq<Window>, n: nat): set<Window>
    requires d.Valid() && n <= |roots|
  {
    if n == 0 then {} else RootTrees(d, roots, n - 1) + d.Tree(roots[n - 1], true)
  }

  /**
   * initDiy installs substructure-only masks exactly on the trees of the
   * roots: every screen's root known to the server, and every other window
   * whose mask changes, carries SubstructureNotifyMask and nothing else.
   */
  lemma {:induction false} SelectRootsSubstructureOnly(d: Display, sel: map<Window, bv32>, roots: seq<Window>, n: nat)
    requires d.Valid() && n <= |roots|
    ensures var r := SelectRoots(d, sel, roots, n);
      && InstallsExactly(d, sel, r, true, RootTrees(d, roots, n))
      && (forall x :: x in r && (x !in sel || r[x] != sel[x]) ==> r[x] == SubstructureNotifyMask)
      && forall i :: 0 <= i < n && roots[i] in d.windows ==> roots[i] in r && r[roots[i]] == SubstructureNotifyMask
  {
    if n > 0 {
      var mid := SelectRoots(d, sel, roots, n - 1);
      var r := SelectRoots(d, sel, roots, n);
      SelectRootsSubstructureOnly(d, sel, roots, n - 1);
      SelectTreeInstalls(d, mid, roots[n - 1], true);
      InstallsExactlyCompose(d, sel, mid, r, true, RootTrees(d, roots, n - 1), d.Tree(roots[n - 1], true));
      forall i | 0 <= i < n - 1 && roots[i] in d.windows
        ensures roots[i] in r && r[roots[i]] == SubstructureNotifyMask
      {
        var y := roots[i];
        assert y in mid && mid[y] == SubstructureNotifyMask;
        if y in d.Tree(roots[n - 1], true) {
          assert MaskFor(d.windows[y], true) == Some(r[y]);
        }
      }
    }
  }

  /** The queue entries the CreateNotify events among `events` add, in order, at `now`. */
  function Created(events: seq<Event>, now: int): (q: seq<Entry>)
    ensures |q| <= |events|
    ensures forall i :: 0 <= i < |q| ==> q[i].creationtime == now
  {
    if events == [] then []
    else
      var e := events[|events| - 1];
      Created(events[..|events| - 1], now) + (if e.kind.CreateNotify? then [Entry(e.kind.window, now)] else [])
  }

  predicate HasGenuineKeyPress(events: seq<Event>) {
    exists i :: 0 <= i < |events| && IsGenuineKeyPress(events[i])
  }

  lemma {:induction false} CreatedOfConcat(a: seq<Event>, b: seq<Event>, now: int)
    ensures Created(a + b, now) == Created(a, now) + Created(b, now)
    decreases |b|
  {
    if b != [] {
      assert (a + b)[..|a + b| - 1] == a + b[..|b| - 1];
      CreatedOfConcat(a, b[..|b| - 1], now);
    } else {
      assert a + b == a;
    }
  }

  lemma {:induction false} CreatedOfNoSubstructure(events: seq<Event>, now: int)
    requires forall i :: 0 <= i < |events| ==> !IsSubstructure(events[i])
    ensures Created(events, now) == []
  {
    if events != [] {
      CreatedOfNoSubstructure(events[..|events| - 1], now);
    }
  }

  /** Distinct items, each linked to the next, the last one to nothing. */
  ghost predicate Linked(items: seq<Item>)
    reads items
  {
    && (items != [] ==> items[|items| - 1].next == null)
    && (forall i :: 0 <= i < |items| - 1 ==> items[i].next == items[i + 1])
    && (forall i, j :: 0 <= i < j < |items| ==> items[i] != items[j])
  }

  lemma LinkedSuffix(items: seq<Item>, k: nat)
    requires Linked(items) && k <= |items|
    ensures Linked(items[k..])
  {
    var s := items[k..];
    forall i, j | 0 <= i < j < |s|
      ensures s[i] != s[j]
    {
      assert s[i] == items[k + i] && s[j] == items[k + j];
    }
    forall i | 0 <= i < |s| - 1
      ensures s[i].next == s[i + 1]
    {
      assert s[i] == items[k + i];
    }
  }

  /** The records that a sequence of items holds. */
  ghost function EntriesOf(items: seq<Item>): (q: seq<Entry>)
    ensures |q| == |items|
    ensures forall i :: 0 <= i < |items| ==> q[i] == Entry(items[i].window, items[i].creationtime)
  {
    seq(|items|, i requires 0 <= i < |items| => Entry(items[i].window, items[i].creationtime))
  }

  /** The window queue of diy.c: a linked list with head and tail pointers. */
  class WindowQueue {
    const display: Display
    var head: Item?
    var tail: Item?
    ghost var spine: seq<Item>     // the items from head to tail

    ghost predicate Valid()
      reads this, spine
    {
      Chain() && (tail == null <==> spine == [])
    }

    /** The list from head on is intact; only the tail pointer may be stale. */
    ghost predicate Chain()
      reads this, spine
    {
      && display.Valid()
      && (head == null <==> spine == [])
      && (spine != [] ==> head == spine[0] && tail == spine[|spine| - 1])
      && Linked(spine)
    }

    /** The queue as a sequence of records, head first. */
    ghost function Contents(): seq<Entry>
      reads this
    {
      EntriesOf(spine)
    }

    /** addToQueue: appends a record of `window` created at `now`. */
    method AddToQueue(window: Window, now: int)
      requires Valid()
      modifies this`head, this`tail, this`spine, spine
      ensures Valid()
      ensures Contents() == old(Contents()) + [Entry(window, now)]
      ensures old(head) != null ==> head == old(head)
      ensures fresh(tail) && spine == old(spine) + [tail]
    {
      var newItem := new Item(window, now);
      if head == null {
        head := newItem;
      }
      if tail != null {
        tail.next := newItem;
      }
      tail := newItem;
      spine := spine + [newItem];
      assert EntriesOf(spine) == EntriesOf(old(spine)) + [Entry(window, now)];
    }

    /**
     * processQueue: promotes the longest prefix of records older than `age`
     * at `now`, front first, to full masks and drops them; the rest of the
     * queue stays as it was.
     */
    method ProcessQueue(age: int, now: int)
      requires Valid()
      modifies this`head, this`tail, this`spine, display`selected
      ensures Valid()
      ensures var n := EligiblePrefix(old(Contents()), age, now);
        && Contents() == old(Contents())[n..]
        && display.selected == PromoteAll(display, old(display.selected), old(Contents()), n)
    {
      ghost var q0 := Contents();
      ghost var sel0 := display.selected;
      ghost var k := 0;
      if head != null {
        var current := head;
        while current != null && current.creationtime + age < now
          invariant Chain() && current == head
          invariant 0 <= k <= |q0| && Contents() == q0[k..]
          invariant forall i :: 0 <= i < k ==> q0[i].creationtime + age < now
          invariant display.selected == PromoteAll(display, sel0, q0, k)
          decreases |spine|
        {
          assert q0[k] == Contents()[0];
          PromoteHead();
          k := k + 1;
          current := head;
        }
        if head == null {
          tail := null;
        }
      }
      assert k < |q0| ==> q0[k] == Contents()[0];
      EligiblePrefixIs(q0, age, now, k);
    }

    /** One round of processQueue's loop: the head window gets its full masks and leaves the list. */
    method PromoteHead()
      requires Chain() && head != null
      modifies this`head, this`spine, display`selected
      ensures Chain() && old(Contents()) != []
      ensures Contents() == old(Contents())[1..]
      ensures display.selected == display.SelectTree(old(display.selected), old(Contents())[0].window, false)
    {
      ghost var q := Contents();
      assert q[0].window == head.window;
      display.SelectEvents(head.window, false);
      assert Contents() == q;
      DropHead();
    }

    /** queue.head = current->next; free (current): the head item leaves the list. */
    method DropHead()
      requires Chain() && head != null
      modifies this`head, this`spine
      ensures Chain()
      ensures head == old(head.next) && spine == old(spine)[1..]
      ensures Contents() == old(Contents())[1..]
    {
      ghost var s := spine;
      assert |s| > 1 ==> s[0].next == s[1];
      head := head.next;
      spine := spine[1..];
      LinkedSuffix(s, 1);
      assert EntriesOf(spine) == EntriesOf(s)[1..];
    }

    /**
     * processEvents: reads every pending event, queues the new windows and
     * resets the triggers when a genuine KeyPress came in; then promotes
     * the records older than CreationDelay.
     */
    method ProcessEvents(st: ProgramState, now: int, lockTime: int, killTime: int)
      requires Valid()
      modifies this`head, this`tail, this`spine, spine, display`selected, display`pending,
               st`lockTrigger, st`killTrigger
      ensures Valid()
      ensures display.pending == []
      ensures var q := old(Contents()) + Created(old(display.pending), now);
        var n := EligiblePrefix(q, CreationDelay, now);
        && Contents() == q[n..]
        && display.selected == PromoteAll(display, old(display.selected), q, n)
      ensures Triggers(st.lockTrigger, st.killTrigger)
           == if HasGenuineKeyPress(old(display.pending))
              then Reset(Triggers(old(st.lockTrigger), old(st.killTrigger)), now, lockTime, killTime)
              else Triggers(old(st.lockTrigger), old(st.killTrigger))
    {
      ghost var q := old(Contents()) + Created(old(display.pending), now);
      ghost var sel := display.selected;
      ReadEvents(st, now, lockTime, killTime);
      assert Contents() == q && display.selected == sel;
      ProcessQueue(CreationDelay, now);
    }

    /**
     * The loop of processEvents: substructure events are read first
     * (XCheckMaskEvent takes the first one wherever it is, else XNextEvent
     * takes the front one).
     */
    method ReadEvents(st: ProgramState, now: int, lockTime: int, killTime: int)
      requires Valid()
      modifies this`head, this`tail, this`spine, spine, display`pending, st`lockTrigger, st`killTrigger
      ensures Valid()
      ensures display.pending == []
      ensures Contents() == old(Contents()) + Created(old(display.pending), now)
      ensures Triggers(st.lockTrigger, st.killTrigger)
           == if HasGenuineKeyPress(old(display.pending))
              then Reset(Triggers(old(st.lockTrigger), old(st.killTrigger)), now, lockTime, killTime)
              else Triggers(old(st.lockTrigger), old(st.killTrigger))
    {
      ghost var events := display.pending;
      ghost var t0 := Triggers(st.lockTrigger, st.killTrigger);
      ghost var q0 := Contents();
      ghost var seen := false;
      while display.pending != []
        invariant Valid()
        invariant forall i :: 0 <= i < |spine| ==> spine[i] in old(spine) || fresh(spine[i])
        invariant Contents() + Created(display.pending, now) == q0 + Created(events, now)
        invariant HasGenuineKeyPress(events) == (seen || HasGenuineKeyPress(display.pending))
        invariant Triggers(st.lockTrigger, st.killTrigger)
               == if seen then Reset(t0, now, lockTime, killTime) else t0
        decreases |display.pending|
      {
        var e := ReadEvent(st, now, lockTime, killTime);
        ResetIdempotent(t0, now, lockTime, killTime);
        seen := seen || IsGenuineKeyPress(e);
      }
      assert Contents() == q0 + Created(events, now);
    }

    /** One round of processEvents' loop: reads an event; a genuine KeyPress resets the triggers. */
    method ReadEvent(st: ProgramState, now: int, lockTime: int, killTime: int) returns (e: Event)
      requires Valid() && display.pending != []
      modifies this`head, this`tail, this`spine, spine, display`pending, st`lockTrigger, st`killTrigger
      ensures Valid() && |display.pending| < |old(display.pending)|
      ensures forall i :: 0 <= i < |spine| ==> spine[i] in old(spine) || fresh(spine[i])
      ensures Contents() + Created(display.pending, now) == old(Contents()) + Created(old(display.pending), now)
      ensures HasGenuineKeyPress(old(display.pending))
           == (IsGenuineKeyPress(e) || HasGenuineKeyPress(display.pending))
      ensures Triggers(st.lockTrigger, st.killTrigger)
           == if IsGenuineKeyPress(e)
              then Reset(Triggers(old(st.lockTrigger), old(st.killTrigger)), now, lockTime, killTime)
              else Triggers(old(st.lockTrigger), old(st.killTrigger))
    {
      e := TakeEvent(now);
      if e.kind.KeyPress? && !e.sendEvent {
        st.ResetTriggers(now, lockTime, killTime);
      }
    }

    /**
     * One read of processEvents' loop: XCheckMaskEvent takes the first
     * substructure event wherever it is, and a CreateNotify queues its
     * window; failing that, XNextEvent takes the front event.
     */
    method TakeEvent(now: int) returns (e: Event)
      requires Valid() && display.pending != []
      modifies this`head, this`tail, this`spine, spine, display`pending
      ensures Valid() && |display.pending| < |old(display.pending)|
      ensures forall i :: 0 <= i < |spine| ==> spine[i] in old(spine) || fresh(spine[i])
      ensures Contents() + Created(display.pending, now) == old(Contents()) + Created(old(display.pending), now)
      ensures HasGenuineKeyPress(old(display.pending))
           == (IsGenuineKeyPress(e) || HasGenuineKeyPress(display.pending))
      ensures TakenInOrder(old(display.pending), e, display.pending)
    {
      ghost var pending := display.pending;
      ghost var before := Contents();
      var found, j := display.CheckMaskEvent();
      if found.Some? {
        e := found.value;
        NoSubstructureBefore(pending, j, now);
        ghost var rest := display.pending;
        assert rest == pending[..j] + pending[j + 1..];
        QueueCreated(e, now);
        assert display.pending == rest;
        assert FirstSubstructureAt(pending, j);
        assert TakenInOrder(pending, e, rest);
      } else {
        e := display.NextEvent();
        EventsWithoutSubstructure(pending, now);
        CreatedOfOne(e, now);
        assert display.pending == pending[1..] && e == pending[0];
      }
      TakeStep(before, Contents(), pending, display.pending, e, now);
    }

    /** A CreateNotify event queues its window; any other event leaves the queue as it is. */
    method QueueCreated(e: Event, now: int)
      requires Valid()
      modifies this`head, this`tail, this`spine, spine
      ensures Valid()
      ensures Contents() == old(Contents()) + Created([e], now)
      ensures forall i :: 0 <= i < |spine| ==> spine[i] in old(spine) || fresh(spine[i])
    {
      CreatedOfOne(e, now);
      if e.kind.CreateNotify? {
        AddToQueue(e.kind.window, now);
      } else {
        assert Contents() == old(Contents()) + [];
      }
    }

    /**
     * initDiy: starts with an empty queue, then queues each screen's root
     * and gives its tree substructure-only masks. The roots get their full
     * masks only later, when processQueue promotes them.
     */
    constructor InitDiy(d: Display, now: int)
      requires d.Valid()
      modifies d`selected
      ensures Valid() && display == d
      ensures Contents() == Enqueued(d.roots, |d.roots|, now)
      ensures d.selected == SelectRoots(d, old(d.selected), d.roots, |d.roots|)
    {
      display := d;
      head, tail := null, null;
      spine := [];
      new;
      for s := 0 to |d.roots|
        invariant Valid()
        invariant forall i :: 0 <= i < |spine| ==> fresh(spine[i])
        invariant Contents() == Enqueued(d.roots, s, now)
        invariant d.selected == SelectRoots(d, old(d.selected), d.roots, s)
      {
        QueueRoot(d.roots[s], now);
      }
    }

    /** One round of initDiy's loop: queues a root, then selects substructure events on its tree. */
    method QueueRoot(root: Window, now: int)
      requires Valid()
      modifies this`head, this`tail, this`spine, spine, display`selected
      ensures Valid()
      ensures Contents() == old(Contents()) + [Entry(root, now)]
      ensures display.selected == display.SelectTree(old(display.selected), root, true)
      ensures forall i :: 0 <= i < |spine| ==> spine[i] in old(spine) || fresh(spine[i])
    {
      AddToQueue(root, now);
      ghost var queued := Contents();
      display.SelectEvents(root, true);
      assert Contents() == queued;
    }
  }

  /** The records of the first n windows of `windows`, in order, all created at `now`. */
  function Enqueued(windows: seq<Window>, n: nat, now: int): (q: seq<Entry>)
    requires n <= |windows|
    ensures |q| == n
    ensures forall i :: 0 <= i < n ==> q[i] == Entry(windows[i], now)
  {
    if n == 0 then [] else Enqueued(windows, n - 1, now) + [Entry(windows[n - 1], now)]
  }

  /** `j` is the index of the first substructure event of `events`. */
  ghost predicate FirstSubstructureAt(events: seq<Event>, j: nat) {
    j < |events| && IsSubstructure(events[j]) && forall i :: 0 <= i < j ==> !IsSubstructure(events[i])
  }

  /**
   * `e` is the event the diy loop reads from `before`, leaving `after`: the
   * first substructure event wherever it is (XCheckMaskEvent), otherwise
   * the front event (XNextEvent).
   */
  ghost predicate TakenInOrder(before: seq<Event>, e: Event, after: seq<Event>) {
    if forall i :: 0 <= i < |before| ==> !IsSubstructure(before[i]) then
      before != [] && e == before[0] && after == before[1..]
    else
      exists j: nat :: FirstSubstructureAt(before, j) && e == before[j] && after == before[..j] + before[j + 1..]
  }

  /** The event read, and what is left pending, are determined by the pending events. */
  lemma TakenInOrderUnique(before: seq<Event>, e1: Event, after1: seq<Event>, e2: Event, after2: seq<Event>)
    requires TakenInOrder(before, e1, after1) && TakenInOrder(before, e2, after2)
    ensures e1 == e2 && after1 == after2
  {
    if !forall i :: 0 <= i < |before| ==> !IsSubstructure(before[i]) {
      var j1: nat :| FirstSubstructureAt(before, j1) && e1 == before[j1] && after1 == before[..j1] + before[j1 + 1..];
      var j2: nat :| FirstSubstructureAt(before, j2) && e2 == before[j2] && after2 == before[..j2] + before[j2 + 1..];
    }
  }

  /** XCheckMaskEvent's search: the index of the first substructure event, if any. */
  method FirstSubstructure(events: seq<Event>) returns (r: Option<nat>)
    ensures r.None? <==> forall i :: 0 <= i < |events| ==> !IsSubstructure(events[i])
    ensures r.Some? ==> r.value < |events| && IsSubstructure(events[r.value])
    ensures r.Some? ==> forall i :: 0 <= i < r.value ==> !IsSubstructure(events[i])
  {
    var i := 0;
    while i < |events|
      invariant 0 <= i <= |events|
      invariant forall k :: 0 <= k < i ==> !IsSubstructure(events[k])
    {
      if IsSubstructure(events[i]) {
        return Some(i);
      }
      i := i + 1;
    }
    return None;
  }

  lemma GenuineKeyPressOfConcat(a: seq<Event>, b: seq<Event>)
    ensures HasGenuineKeyPress(a + b) == (HasGenuineKeyPress(a) || HasGenuineKeyPress(b))
  {
    if HasGenuineKeyPress(a) {
      var i :| 0 <= i < |a| && IsGenuineKeyPress(a[i]);
      assert (a + b)[i] == a[i];
    }
    if HasGenuineKeyPress(a + b) {
      var i :| 0 <= i < |a + b| && IsGenuineKeyPress((a + b)[i]);
      if i >= |a| {
        assert b[i - |a|] == (a + b)[i];
      }
    }
    if HasGenuineKeyPress(b) {
      var i :| 0 <= i < |b| && IsGenuineKeyPress(b[i]);
      assert (a + b)[|a| + i] == b[i];
    }
  }

  /**
   * Taking out the first substructure event moves its record, if any, to
   * the front of what is left to queue, and keeps the KeyPress events.
   */
  lemma NoSubstructureBefore(events: seq<Event>, j: nat, now: int)
    requires j < |events| && IsSubstructure(events[j])
    requires forall i :: 0 <= i < j ==> !IsSubstructure(events[i])
    ensures Created(events, now) == Created([events[j]], now) + Created(events[..j] + events[j + 1..], now)
    ensures HasGenuineKeyPress(events) == HasGenuineKeyPress(events[..j] + events[j + 1..])
    ensures !IsGenuineKeyPress(events[j])
  {
    var before, rest := events[..j], events[j + 1..];
    assert events == before + [events[j]] + rest;
    CreatedWithout(before, events[j], rest, now);
    GenuineKeyPressOfConcat(before + [events[j]], rest);
    GenuineKeyPressOfConcat(before, [events[j]]);
    GenuineKeyPressOfConcat(before, rest);
  }

  /** Without the substructure events of `before`, only `e` and `rest` add records. */
  lemma CreatedWithout(before: seq<Event>, e: Event, rest: seq<Event>, now: int)
    requires forall i :: 0 <= i < |before| ==> !IsSubstructure(before[i])
    ensures Created(before + [e] + rest, now) == Created([e], now) + Created(before + rest, now)
  {
    CreatedOfNoSubstructure(before, now);
    CreatedOfConcat(before + [e], rest, now);
    CreatedOfConcat(before, [e], now);
    CreatedOfConcat(before, rest, now);
  }

  /** Reading one event keeps the records queued so far plus those still to come. */
  lemma TakeStep(before: seq<Entry>, after: seq<Entry>, pending: seq<Event>, rest: seq<Event>, e: Event, now: int)
    requires after == before + Created([e], now)
    requires Created(pending, now) == Created([e], now) + Created(rest, now)
    ensures after + Created(rest, now) == before + Created(pending, now)
  {
    assert (before + Created([e], now)) + Created(rest, now) == before + (Created([e], now) + Created(rest, now));
  }

  lemma CreatedOfOne(e: Event, now: int)
    ensures Created([e], now) == if e.kind.CreateNotify? then [Entry(e.kind.window, now)] else []
  {
    assert [e][..0] == [];
  }

  /** Without substructure events XNextEvent's event adds no record and keeps the KeyPress events. */
  lemma EventsWithoutSubstructure(events: seq<Event>, now: int)
    requires events != [] && forall i :: 0 <= i < |events| ==> !IsSubstructure(events[i])
    ensures Created(events, now) == Created([events[0]], now) + Created(events[1..], now)
    ensures HasGenuineKeyPress(events) == (IsGenuineKeyPress(events[0]) || HasGenuineKeyPress(events[1..]))
    ensures Created([events[0]], now) == []
  {
    assert events == [events[0]] + events[1..];
    CreatedOfNoSubstructure(events, now);
    CreatedOfNoSubstructure(events[1..], now);
    CreatedOfNoSubstructure([events[0]], now);
    GenuineKeyPressOfConcat([events[0]], events[1..]);
    assert HasGenuineKeyPress([events[0]]) == IsGenuineKeyPress(events[0]);
  }

  /**
   * Windows created during one processEvents are never promoted by the
   * same call: processQueue gets exactly as far as in the old queue.
   */
  lemma NewWindowsWait(q: seq<Entry>, events: seq<Event>, now: int)
    requires Created(events, now) != []
    ensures EligiblePrefix(q + Created(events, now), CreationDelay, now) == EligiblePrefix(q, CreationDelay, now)
  {
    EligiblePrefixOfExtension(q, Created(events, now), CreationDelay, now);
  }
}
