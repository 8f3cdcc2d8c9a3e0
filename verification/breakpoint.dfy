/**
 * useBreakpoint's classifier: the `Breakpoint` names, the `breakpoints`
 * threshold table and `getCurrentBreakpoint`, which maps a window width to
 * the name of the widest breakpoint whose minimum width it reaches.
 */
module Breakpoints {

  /** The eleven names of the `Breakpoint` type, in the order it lists them. */
  datatype Breakpoint = Xxs | Xs | Mob | Sm | Pad | Md | Pc | Lg | Xl | TwoXl | ThreeXl

  /** Position of a name in the `Breakpoint` type, narrowest first. */
  function Rank(b: Breakpoint): nat
  {
    match b
    case Xxs => 0
    case Xs => 1
    case Mob => 2
    case Sm => 3
    case Pad => 4
    case Md => 5
    case Pc => 6
    case Lg => 7
    case Xl => 8
    case TwoXl => 9
    case ThreeXl => 10
  }

  /** The names that have an entry in the `breakpoints` table (3xl is commented out). */
  predicate InTable(b: Breakpoint)
  {
    b in {Xxs, Xs, Sm, Md, Lg, Xl, TwoXl}
  }

  /** The `breakpoints` table: the minimum width, in pixels, of each name it holds. */
  function MinWidth(b: Breakpoint): (w: nat)
    requires InTable(b)
    ensures 375 <= w <= 1920
  {
    match b
    case Xxs => 375
    case Xs => 414
    case Sm => 768
    case Md => 1024
    case Lg => 1280
    case Xl => 1440
    case TwoXl => 1920
  }

  /** A width reaches a breakpoint when the table holds it and the width is at least its minimum. */
  predicate Reaches(width: int, b: Breakpoint)
  {
    InTable(b) && MinWidth(b) <= width
  }

  /**
   * getCurrentBreakpoint: the tabled name with the largest minimum width that
   * `width` reaches, except that every width below xs's minimum is xxs,
   * whether or not it reaches xxs's own 375.
   */
  function GetCurrentBreakpoint(width: int): (r: Breakpoint)
    ensures InTable(r)
    ensures r == Xxs <==> width < MinWidth(Xs)
    ensures r != Xxs ==> Reaches(width, r)
    ensures forall b :: Reaches(width, b) ==> MinWidth(b) <= MinWidth(r)
  {
    if width >= MinWidth(TwoXl) then TwoXl
    else if width >= MinWidth(Xl) then Xl
    else if width >= MinWidth(Lg) then Lg
    else if width >= MinWidth(Md) then Md
    else if width >= MinWidth(Sm) then Sm
    else if width >= MinWidth(Xs) then Xs
    else Xxs
  }

  /** Exactly one name answers each width: the contract of GetCurrentBreakpoint pins it down. */
  lemma BreakpointUnique(width: int, b: Breakpoint)
    requires InTable(b)
    requires b == Xxs <==> width < MinWidth(Xs)
    requires b != Xxs ==> Reaches(width, b)
    requires forall c :: Reaches(width, c) ==> MinWidth(c) <= MinWidth(b)
    ensures b == GetCurrentBreakpoint(width)
  {
    var r := GetCurrentBreakpoint(width);
    if b != Xxs {
      assert r != Xxs;
      assert MinWidth(r) <= MinWidth(b) && MinWidth(b) <= MinWidth(r);
    }
  }

  /** The result is one of 2xl, xl, lg, md, sm, xs and xxs; mob, pad, pc and 3xl never come out. */
  lemma NeverUntabled(width: int)
    ensures GetCurrentBreakpoint(width) in {TwoXl, Xl, Lg, Md, Sm, Xs, Xxs}
    ensures GetCurrentBreakpoint(width) !in {Mob, Pad, Pc, ThreeXl}
  {
  }

  /** Each threshold is inclusive: a width equal to a minimum yields that name. */
  lemma ThresholdsInclusive(b: Breakpoint)
    requires InTable(b) && b != Xxs
    ensures GetCurrentBreakpoint(MinWidth(b)) == b
  {
    var r := GetCurrentBreakpoint(MinWidth(b));
    assert Reaches(MinWidth(b), b);
    assert MinWidth(b) <= MinWidth(r) <= MinWidth(b);
  }

  /** One pixel below a minimum is already the next narrower name. */
  lemma JustBelowThreshold(b: Breakpoint, narrower: Breakpoint)
    requires InTable(b) && b != Xxs && InTable(narrower)
    requires MinWidth(narrower) < MinWidth(b)
    requires forall c :: InTable(c) && MinWidth(narrower) < MinWidth(c) ==> MinWidth(b) <= MinWidth(c)
    requires narrower != Xxs
    ensures GetCurrentBreakpoint(MinWidth(b) - 1) == narrower
  {
    var w := MinWidth(b) - 1;
    var r := GetCurrentBreakpoint(w);
    assert Reaches(w, narrower);
    assert MinWidth(narrower) <= MinWidth(r);
  }

  /** The 375 minimum of xxs never decides anything: every width below 414 gives xxs. */
  lemma XxsThresholdUnused(width: int)
    requires width < MinWidth(Xs)
    ensures GetCurrentBreakpoint(width) == Xxs
    ensures GetCurrentBreakpoint(width) == GetCurrentBreakpoint(MinWidth(Xxs))
  {
  }

  /** A wider window never yields a narrower name, in the order the type lists them. */
  lemma Monotone(w1: int, w2: int)
    requires w1 <= w2
    ensures Rank(GetCurrentBreakpoint(w1)) <= Rank(GetCurrentBreakpoint(w2))
  {
    var r1 := GetCurrentBreakpoint(w1);
    var r2 := GetCurrentBreakpoint(w2);
    RankFollowsMinWidth(r1, r2);
    if r1 != Xxs {
      assert Reaches(w2, r1);
    }
  }

  /** On tabled names the type's order and the table's order agree. */
  lemma RankFollowsMinWidth(a: Breakpoint, b: Breakpoint)
    requires InTable(a) && InTable(b)
    ensures MinWidth(a) <= MinWidth(b) <==> Rank(a) <= Rank(b)
  {
  }
}
