/**
 * useActiveOnViewport's bookkeeping. Elements are named by their index in
 * the list `setup` found. Each live observer is the stop function `setup`
 * pushed for it and remembers the index it watches. Its callback adds the
 * element to the `activeElements` Set and the 'active' class, or removes it
 * from both, and keeps `activeIndex` on the latest element to enter.
 *
 * `Viewport` and the functions over it say what each operation does. The
 * lemmas say what follows from that: an invariant, and what a run of
 * callbacks leaves behind. The class `ActiveTracker` keeps the same state in
 * fields, and its methods are proved to follow the functions.
 */
module ActiveOnViewport {
  import opened Wrappers

  /** The composable's state. */
  datatype Viewport = Viewport(
    activeElements: set<nat>,  // the `activeElements` Set
    classed: set<nat>,         // elements whose class list holds 'active'
    activeIndex: int,          // -1 when no element is active
    stopFunctions: seq<nat>,   // one per live observer: the index it watches
    elementCount: nat)         // the length of `elementsArray`

  /** The state right after useActiveOnViewport(...) returns. */
  function Initial(): (s: Viewport)
    ensures s.activeIndex == -1 && s.activeElements == {} && s.stopFunctions == []
  {
    Viewport({}, {}, -1, [], 0)
  }

  /** 0, 1, ..., n-1: the index each new observer watches, in the order `forEach` visits them. */
  function Indices(n: nat): (r: seq<nat>)
    ensures |r| == n && forall i :: 0 <= i < n ==> r[i] == i
  {
    seq(n, i requires 0 <= i < n => i)
  }

  /**
   * setup(): `None` when the container ref is null, `Some(n)` when the
   * container holds `n` matching elements. Stop functions pushed earlier
   * stay in the list.
   */
  function AfterSetup(s: Viewport, matches: Option<nat>): Viewport
  {
    match matches
    case None => s
    case Some(n) =>
      if n == 0 then s
      else s.(elementCount := n, stopFunctions := s.stopFunctions + Indices(n))
  }

  /**
   * The callback of the `k`-th live observer. `entry` is the first entry it
   * receives (`None` for an empty batch), holding whether it intersects.
   */
  function AfterEntry(s: Viewport, k: nat, entry: Option<bool>): Viewport
    requires k < |s.stopFunctions|
  {
    match entry
    case None => s
    case Some(isIntersecting) =>
      var index := s.stopFunctions[k];
      if isIntersecting then
        s.(classed := s.classed + {index},
           activeElements := s.activeElements + {index},
           activeIndex := index)
      else
        s.(classed := s.classed - {index},
           activeElements := s.activeElements - {index},
           activeIndex := if s.activeIndex == index then -1 else s.activeIndex)
  }

  /** cleanup(): stops every observer, empties the Set and clears the index; class lists are left as they are. */
  function AfterCleanup(s: Viewport): Viewport
  {
    s.(stopFunctions := [], activeElements := {}, activeIndex := -1)
  }

  /**
   * What the composable keeps true. `activeIndex` is -1 or a matched
   * element that is in the Set. Every active element and every observed
   * index is a matched element. Every element in the Set carries the class.
   * With no live observer, nothing is active.
   */
  ghost predicate Valid(s: Viewport)
  {
    && (s.activeIndex == -1 || (0 <= s.activeIndex < s.elementCount && s.activeIndex as nat in s.activeElements))
    && (forall e :: e in s.activeElements ==> e < s.elementCount)
    && (forall k :: 0 <= k < |s.stopFunctions| ==> s.stopFunctions[k] < s.elementCount)
    && s.activeElements <= s.classed
    && (|s.stopFunctions| == 0 ==> s.activeIndex == -1 && s.activeElements == {})
  }

  // ---------------------------------------------------------------------------
  // One operation at a time
  // ---------------------------------------------------------------------------

  lemma InitialValid()
    ensures Valid(Initial())
  {
  }

  /** An intersecting entry makes its element the active one, and changes no other element's membership. */
  lemma EnterActivates(s: Viewport, k: nat)
    requires k < |s.stopFunctions|
    ensures var r := AfterEntry(s, k, Some(true));
      && r.activeIndex == s.stopFunctions[k]
      && r.activeElements == s.activeElements + {s.stopFunctions[k]}
      && r.classed == s.classed + {s.stopFunctions[k]}
      && r.stopFunctions == s.stopFunctions && r.elementCount == s.elementCount
  {
  }

  /** A non-intersecting entry removes its element; `activeIndex` drops to -1 only if it named that element. */
  lemma LeaveDeactivates(s: Viewport, k: nat)
    requires k < |s.stopFunctions|
    ensures var r := AfterEntry(s, k, Some(false));
      && s.stopFunctions[k] !in r.activeElements
      && r.activeElements == s.activeElements - {s.stopFunctions[k]}
      && r.classed == s.classed - {s.stopFunctions[k]}
      && (r.activeIndex == -1 <==> s.activeIndex == -1 || s.activeIndex == s.stopFunctions[k])
      && (r.activeIndex != -1 ==> r.activeIndex == s.activeIndex)
  {
  }

  lemma EntryKeepsValid(s: Viewport, k: nat, entry: Option<bool>)
    requires Valid(s) && k < |s.stopFunctions|
    ensures Valid(AfterEntry(s, k, entry))
  {
  }

  /** With no container or no match, setup changes nothing; otherwise it adds one observer per element. */
  lemma SetupRegistersEach(s: Viewport, matches: Option<nat>)
    ensures matches.None? || matches == Some(0) ==> AfterSetup(s, matches) == s
    ensures matches.Some? && matches.value > 0 ==>
      var r := AfterSetup(s, matches);
      && |r.stopFunctions| == |s.stopFunctions| + matches.value
      && r.stopFunctions[..|s.stopFunctions|] == s.stopFunctions
      && r.stopFunctions[|s.stopFunctions|..] == Indices(matches.value)
      && r.elementCount == matches.value
      && r.activeElements == s.activeElements && r.activeIndex == s.activeIndex
  {
  }

  /**
   * setup keeps the invariant when no observer is live yet (the first call,
   * or a call after cleanup) or when it finds at least as many elements as
   * before.
   */
  lemma SetupKeepsValid(s: Viewport, matches: Option<nat>)
    requires Valid(s)
    requires matches.Some? ==> |s.stopFunctions| == 0 || matches.value >= s.elementCount
    ensures Valid(AfterSetup(s, matches))
  {
  }

  /**
   * A second setup over fewer elements, without cleanup in between, leaves
   * the earlier observers live, and one of them can then set `activeIndex`
   * past the end of `elementsArray`.
   */
  lemma SetupAgainCanOverrun()
    ensures var s := AfterSetup(AfterSetup(Initial(), Some(3)), Some(1));
      && Valid(AfterSetup(Initial(), Some(3)))
      && |s.stopFunctions| == 4 && s.stopFunctions[2] == 2
      && AfterEntry(s, 2, Some(true)).activeIndex >= AfterEntry(s, 2, Some(true)).elementCount
  {
    var s1 := AfterSetup(Initial(), Some(3));
    assert s1.stopFunctions == [0, 1, 2];
    var s := AfterSetup(s1, Some(1));
    assert s.stopFunctions == [0, 1, 2, 0];
  }

  /** cleanup stops all observers and clears the state, but the elements keep their 'active' class. */
  lemma CleanupResets(s: Viewport)
    requires Valid(s)
    ensures var r := AfterCleanup(s);
      && Valid(r)
      && r.stopFunctions == [] && r.activeElements == {} && r.activeIndex == -1
      && r.classed == s.classed && s.activeElements <= r.classed
  {
  }

  // ---------------------------------------------------------------------------
  // A run of callbacks
  // ---------------------------------------------------------------------------

  /** The `k`-th observer's callback receiving `entry`. */
  datatype Hit = Hit(k: nat, entry: Option<bool>)

  predicate Live(s: Viewport, hits: seq<Hit>)
  {
    forall i :: 0 <= i < |hits| ==> hits[i].k < |s.stopFunctions|
  }

  /** The state after the callbacks in `hits`, oldest first. */
  function Run(s: Viewport, hits: seq<Hit>): (r: Viewport)
    requires Live(s, hits)
    ensures r.stopFunctions == s.stopFunctions && r.elementCount == s.elementCount
  {
    if hits == [] then s
    else
      var h := hits[|hits| - 1];
      AfterEntry(Run(s, hits[..|hits| - 1]), h.k, h.entry)
  }

  /** The last entry received for element `x` during `hits`, if any. */
  function LastFor(s: Viewport, hits: seq<Hit>, x: nat): Option<bool>
    requires Live(s, hits)
  {
    if hits == [] then None
    else
      var h := hits[|hits| - 1];
      if h.entry.Some? && s.stopFunctions[h.k] == x then h.entry
      else LastFor(s, hits[..|hits| - 1], x)
  }

  /** The element of the last intersecting entry during `hits`, if any. */
  function LastEnter(s: Viewport, hits: seq<Hit>): Option<nat>
    requires Live(s, hits)
  {
    if hits == [] then None
    else
      var h := hits[|hits| - 1];
      if h.entry == Some(true) then Some(s.stopFunctions[h.k])
      else LastEnter(s, hits[..|hits| - 1])
  }

  lemma {:induction false} LastEnterEntered(s: Viewport, hits: seq<Hit>)
    requires Live(s, hits)
    ensures LastEnter(s, hits).Some? ==> LastFor(s, hits, LastEnter(s, hits).value).Some?
  {
    if hits != [] {
      var h := hits[|hits| - 1];
      if h.entry != Some(true) {
        LastEnterEntered(s, hits[..|hits| - 1]);
      }
    }
  }

  /**
   * An element is in the Set after a run exactly when the last entry it
   * received was intersecting, or it received none and was in it before;
   * the same holds for the 'active' class.
   */
  lemma {:induction false} RunMembership(s: Viewport, hits: seq<Hit>, x: nat)
    requires Live(s, hits)
    ensures x in Run(s, hits).activeElements <==>
      LastFor(s, hits, x) == Some(true) || (LastFor(s, hits, x).None? && x in s.activeElements)
    ensures x in Run(s, hits).classed <==>
      LastFor(s, hits, x) == Some(true) || (LastFor(s, hits, x).None? && x in s.classed)
  {
    if hits != [] {
      RunMembership(s, hits[..|hits| - 1], x);
    }
  }

  /**
   * After a run, `activeIndex` is the last element to enter, unless that
   * element has left since; with no entering element it is the old index,
   * unless that element has left.
   */
  lemma {:induction false} RunActiveIndex(s: Viewport, hits: seq<Hit>)
    requires Live(s, hits)
    ensures Run(s, hits).activeIndex ==
      match LastEnter(s, hits)
      case Some(x) => if LastFor(s, hits, x) == Some(true) then x else -1
      case None =>
        if s.activeIndex >= 0 && LastFor(s, hits, s.activeIndex as nat) == Some(false) then -1
        else s.activeIndex
  {
    if hits != [] {
      var prefix := hits[..|hits| - 1];
      RunActiveIndex(s, prefix);
      LastEnterEntered(s, prefix);
    }
  }

  /** The invariant holds after any run of callbacks from a state where it holds. */
  lemma {:induction false} RunKeepsValid(s: Viewport, hits: seq<Hit>)
    requires Valid(s) && Live(s, hits)
    ensures Valid(Run(s, hits))
  {
    if hits != [] {
      var h := hits[|hits| - 1];
      RunKeepsValid(s, hits[..|hits| - 1]);
      EntryKeepsValid(Run(s, hits[..|hits| - 1]), h.k, h.entry);
    }
  }

  // ---------------------------------------------------------------------------
  // The composable as an object
  // ---------------------------------------------------------------------------

  /** `new Set(xs)`: a fresh Set holding the same elements, built one element at a time. */
  method CopySet(xs: set<nat>) returns (r: set<nat>)
    ensures forall x :: x in r <==> x in xs
  {
    r := {};
    var rest := xs;
    while rest != {}
      invariant r + rest == xs && r !! rest
      decreases |rest|
    {
      var x :| x in rest;
      r := r + {x};
      rest := rest - {x};
    }
  }

  class ActiveTracker {
    var activeElements: set<nat>
    var classed: set<nat>
    var activeIndex: int
    var stopFunctions: seq<nat>
    var elementCount: nat

    function State(): Viewport
      reads this
    {
      Viewport(activeElements, classed, activeIndex, stopFunctions, elementCount)
    }

    constructor ()
      ensures State() == Initial()
    {
      activeElements := {};
      classed := {};
      activeIndex := -1;
      stopFunctions := [];
      elementCount := 0;
    }

    method Setup(matches: Option<nat>)
      modifies this
      ensures State() == AfterSetup(old(State()), matches)
    {
      if matches.None? {
        return;
      }
      var n := matches.value;
      if n == 0 {
        return;
      }
      elementCount := n;
      var index := 0;
      while index < n
        invariant 0 <= index <= n
        invariant stopFunctions == old(stopFunctions) + Indices(index)
        invariant activeElements == old(activeElements) && classed == old(classed)
        invariant activeIndex == old(activeIndex) && elementCount == n
      {
        stopFunctions := stopFunctions + [index];
        index := index + 1;
      }
    }

    /** The callback of the `k`-th live observer. */
    method OnEntry(k: nat, entry: Option<bool>)
      requires k < |stopFunctions|
      modifies this
      ensures State() == AfterEntry(old(State()), k, entry)
    {
      if entry.None? {
        return;
      }
      var index := stopFunctions[k];
      if entry.value {
        classed := classed + {index};
        activeElements := activeElements + {index};
        activeIndex := index;
      } else {
        classed := classed - {index};
        activeElements := activeElements - {index};
        if activeIndex == index {
          activeIndex := -1;
        }
      }
      activeElements := CopySet(activeElements);
    }

    method Cleanup()
      modifies this
      ensures State() == AfterCleanup(old(State()))
    {
      stopFunctions := [];
      activeElements := {};
      activeIndex := -1;
    }
  }
}
