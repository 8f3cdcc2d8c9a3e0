/**
 * The frame timing tables of section A and the two helpers that go with them
 * (app/utils/animationTimings.ts): `calculateTotalDuration`, which finds the
 * longest `delay + duration` chain of one frame's timing record, and
 * `toCssTime`, which renders milliseconds as a CSS time.
 *
 * A timing record (`Record<string, number>`) is a sequence of entries in the
 * order `Object.keys` lists them; every record built by the source has
 * distinct keys. Lookups return the first entry with the key asked for.
 */
module AnimationTimings {

  import opened Wrappers

  /** One property of a timing record: its key and its value in milliseconds. */
  datatype Entry = Entry(key: string, value: int)

  // ---------------------------------------------------------------------------
  // String matching: `String.prototype.includes` and `String.prototype.replace`
  // with a string pattern (which replaces the first occurrence only).
  // ---------------------------------------------------------------------------

  /** `pat` occurs in `s` starting at position `j`. */
  predicate OccursAt(s: string, pat: string, j: nat)
  {
    j + |pat| <= |s| && s[j..j + |pat|] == pat
  }

  /** The first position at or after `i` where `pat` occurs in `s`. */
  function FindFrom(s: string, pat: string, i: nat): (r: Option<nat>)
    ensures r.Some? ==> i <= r.value && OccursAt(s, pat, r.value)
    ensures r.Some? ==> forall j :: i <= j < r.value ==> !OccursAt(s, pat, j)
    ensures r.None? ==> forall j :: i <= j ==> !OccursAt(s, pat, j)
    decreases |s| - i
  {
    if i + |pat| > |s| then None
    else if s[i..i + |pat|] == pat then Some(i)
    else FindFrom(s, pat, i + 1)
  }

  /** `s.indexOf(pat)`, with None for -1. */
  function IndexOf(s: string, pat: string): Option<nat>
  {
    FindFrom(s, pat, 0)
  }

  /** `s.includes(pat)`. */
  function Includes(s: string, pat: string): bool
  {
    IndexOf(s, pat).Some?
  }

  /** `s.includes(pat)` holds exactly when `pat` occurs somewhere in `s`. */
  lemma IncludesIff(s: string, pat: string)
    ensures Includes(s, pat) <==> exists j :: OccursAt(s, pat, j)
  {
    if !Includes(s, pat) {
      assert forall j :: 0 <= j ==> !OccursAt(s, pat, j);
    }
  }

  /** `s.replace(pat, rep)` for a string pattern: only the first occurrence is replaced. */
  function ReplaceFirst(s: string, pat: string, rep: string): string
  {
    match IndexOf(s, pat)
    case None => s
    case Some(j) => s[..j] + rep + s[j + |pat|..]
  }

  /**
   * `ReplaceFirst` leaves a string without the pattern as it is, and otherwise
   * splices `rep` in place of the leftmost occurrence of the pattern.
   */
  lemma ReplaceFirstOccurrence(s: string, pat: string, rep: string)
    ensures (forall j: nat :: !OccursAt(s, pat, j)) ==> ReplaceFirst(s, pat, rep) == s
    ensures forall j: nat ::
      OccursAt(s, pat, j) && (forall k: nat :: k < j ==> !OccursAt(s, pat, k)) ==>
      ReplaceFirst(s, pat, rep) == s[..j] + rep + s[j + |pat|..]
  {
  }

  /** A pattern that contains a character missing from `s` does not occur in `s`. */
  lemma AbsentCharNotIncluded(s: string, pat: string, c: char)
    requires c in pat && c !in s
    ensures !Includes(s, pat)
  {
    IncludesIff(s, pat);
    forall j: nat ensures !OccursAt(s, pat, j) {
      if j + |pat| <= |s| {
        assert forall d :: d in s[j..j + |pat|] ==> d in s;
      }
    }
  }

  /**
   * If `pat` does not occur in `x` and its first character does not reappear
   * later in it, then the first occurrence of `pat` in `x + pat` is the
   * appended one: an occurrence cannot straddle the seam.
   */
  lemma {:induction false} FirstOccurrenceIsAppended(x: string, pat: string)
    requires |pat| > 0 && pat[0] !in pat[1..]
    requires !Includes(x, pat)
    ensures IndexOf(x + pat, pat) == Some(|x|)
  {
    IncludesIff(x, pat);
    var s := x + pat;
    assert OccursAt(s, pat, |x|) by { assert s[|x|..|x| + |pat|] == pat; }
    forall j: nat | j < |x| ensures !OccursAt(s, pat, j) {
      if j + |pat| <= |x| {
        assert s[j..j + |pat|] == x[j..j + |pat|];
        assert !OccursAt(x, pat, j);
      } else if j + |pat| <= |s| {
        var m := |x| - j;
        assert s[j..j + |pat|][m] == s[|x|] == pat[0];
        assert pat[m] == pat[1..][m - 1];
      }
    }
  }

  // ---------------------------------------------------------------------------
  // calculateTotalDuration
  // ---------------------------------------------------------------------------

  /** `timings[key]`: the value of the first entry with that key, None for `undefined`. */
  function LookupFrom(t: seq<Entry>, key: string, i: nat): (r: Option<int>)
    ensures r.Some? ==> exists k :: i <= k < |t| && t[k] == Entry(key, r.value)
    ensures r.None? ==> forall k :: i <= k < |t| ==> t[k].key != key
    decreases |t| - i
  {
    if i >= |t| then None
    else if t[i].key == key then Some(t[i].value)
    else LookupFrom(t, key, i + 1)
  }

  function Lookup(t: seq<Entry>, key: string): Option<int>
  {
    LookupFrom(t, key, 0)
  }

  /** The duration key a delay key is paired with: `${key.replace('_DELAY', '')}_DURATION`. */
  function DurationKeyFor(key: string): string
  {
    ReplaceFirst(key, "_DELAY", "") + "_DURATION"
  }

  /**
   * What the entry at index `i` offers to the maximum: a delay key whose paired
   * duration is present and non-zero (truthy) offers delay + duration, a key
   * with "DURATION" and without "DELAY" offers its own value, and every other
   * key offers nothing.
   */
  function Candidate(t: seq<Entry>, i: nat): Option<int>
    requires i < |t|
  {
    var key := t[i].key;
    if Includes(key, "DELAY") then
      var duration := Lookup(t, DurationKeyFor(key));
      if duration.Some? && duration.value != 0 then Some(t[i].value + duration.value) else None
    else if Includes(key, "DURATION") && !Includes(key, "DELAY") then Some(t[i].value)
    else None
  }

  /**
   * `r` is the total duration of record `t`: the maximum of 0 and every
   * candidate the entries offer.
   */
  ghost predicate IsTotalDuration(t: seq<Entry>, r: int)
  {
    && r >= 0
    && (forall i :: 0 <= i < |t| && Candidate(t, i).Some? ==> Candidate(t, i).value <= r)
    && (r == 0 || exists i :: 0 <= i < |t| && Candidate(t, i) == Some(r))
  }

  function Max(a: int, b: int): int
  {
    if a >= b then a else b
  }

  /** calculateTotalDuration: one pass over the keys, keeping the running maximum. */
  method CalculateTotalDuration(timings: seq<Entry>) returns (maxDuration: int)
    ensures IsTotalDuration(timings, maxDuration)
  {
    maxDuration := 0;
    ghost var best := 0;  // an entry offering maxDuration, once it is not 0
    var i := 0;
    while i < |timings|
      invariant 0 <= i <= |timings|
      invariant maxDuration >= 0
      invariant BoundsOffers(timings, i, maxDuration)
      invariant maxDuration == 0 || (0 <= best < i && Candidate(timings, best) == Some(maxDuration))
    {
      var offer := Candidate(timings, i);
      ghost var previous := maxDuration;
      if offer.Some? {
        if offer.value > maxDuration {
          best := i;
        }
        maxDuration := Max(maxDuration, offer.value);
      }
      BoundsOffersStep(timings, i, previous, maxDuration);
      i := i + 1;
    }
  }

  /** `m` is at least every offer of the first `n` entries. */
  ghost predicate BoundsOffers(t: seq<Entry>, n: nat, m: int)
    requires n <= |t|
  {
    forall k :: 0 <= k < n && Candidate(t, k).Some? ==> Candidate(t, k).value <= m
  }

  /** A bound that has grown to cover the next entry's offer covers one more entry. */
  lemma BoundsOffersStep(t: seq<Entry>, n: nat, m: int, m': int)
    requires n < |t| && BoundsOffers(t, n, m) && m <= m'
    requires Candidate(t, n).Some? ==> Candidate(t, n).value <= m'
    ensures BoundsOffers(t, n + 1, m')
  {
  }

  /** The specification admits exactly one total, so the method's result is determined. */
  lemma TotalDurationUnique(t: seq<Entry>, a: int, b: int)
    requires IsTotalDuration(t, a) && IsTotalDuration(t, b)
    ensures a == b
  {
    if a != 0 {
      var i :| 0 <= i < |t| && Candidate(t, i) == Some(a);
      assert a <= b;
    }
    if b != 0 {
      var i :| 0 <= i < |t| && Candidate(t, i) == Some(b);
      assert b <= a;
    }
  }

  /** A record with no "DURATION" and no "DELAY" key has total 0. */
  lemma NoTimingKeysGiveZero(t: seq<Entry>, r: int)
    requires forall i :: 0 <= i < |t| ==> !Includes(t[i].key, "DURATION") && !Includes(t[i].key, "DELAY")
    requires IsTotalDuration(t, r)
    ensures r == 0
  {
    assert forall i :: 0 <= i < |t| ==> Candidate(t, i) == None;
  }

  /** Every plain duration (a "DURATION" key without "DELAY") is bounded by the total. */
  lemma DurationBoundsTotal(t: seq<Entry>, r: int, i: nat)
    requires IsTotalDuration(t, r)
    requires i < |t| && Includes(t[i].key, "DURATION") && !Includes(t[i].key, "DELAY")
    ensures t[i].value <= r
  {
    assert Candidate(t, i) == Some(t[i].value);
  }

  /** The key `X_DELAY` is paired with `X_DURATION` whenever `X` itself does not contain "_DELAY". */
  lemma DelayKeyPairsWithDuration(x: string)
    requires !Includes(x, "_DELAY")
    ensures DurationKeyFor(x + "_DELAY") == x + "_DURATION"
  {
    var pat := "_DELAY";
    assert pat[1..] == "DELAY";
    FirstOccurrenceIsAppended(x, pat);
    var s := x + pat;
    assert s[..|x|] == x;
    assert s[|x| + |pat|..] == [];
  }

  /** An `X_DELAY` entry whose `X_DURATION` is present and non-zero bounds the total by their sum. */
  lemma DelayChainBoundsTotal(t: seq<Entry>, r: int, i: nat, x: string, duration: int)
    requires IsTotalDuration(t, r)
    requires i < |t| && t[i].key == x + "_DELAY" && !Includes(x, "_DELAY")
    requires Lookup(t, x + "_DURATION") == Some(duration) && duration != 0
    ensures t[i].value + duration <= r
  {
    DelayKeyPairsWithDuration(x);
    DelayKeyIncludesDelay(x);
    assert Candidate(t, i) == Some(t[i].value + duration);
  }

  /** A key ending in `_DELAY` contains `DELAY`. */
  lemma DelayKeyIncludesDelay(x: string)
    ensures Includes(x + "_DELAY", "DELAY")
  {
    var key := x + "_DELAY";
    assert OccursAt(key, "DELAY", |x| + 1) by { assert key[|x| + 1..|x| + 6] == "DELAY"; }
    IncludesIff(key, "DELAY");
  }

  /** A delay key whose paired duration is missing or zero offers nothing. */
  lemma UnpairedDelayOffersNothing(t: seq<Entry>, i: nat)
    requires i < |t| && Includes(t[i].key, "DELAY")
    requires Lookup(t, DurationKeyFor(t[i].key)) in {None, Some(0)}
    ensures Candidate(t, i) == None
  {
  }

  // ---------------------------------------------------------------------------
  // SECTION_A_FRAME_TIMINGS and SECTION_A_DURATIONS
  // ---------------------------------------------------------------------------

  // Each key is written as its name followed by its suffix, so that the
  // lemmas below can reason about the name and the suffix separately.
  const Frame1Timings: seq<Entry> := [
    Entry("CROP" + "_DURATION", 1000), Entry("CROSSFADE" + "_DURATION", 1000),
    Entry("CROSSFADE" + "_DELAY", 1000), Entry("IMG3" + "_DURATION", 1000),
    Entry("IMG3" + "_DELAY", 1000), Entry("TEXT" + "_DURATION", 1000),
    Entry("TEXT" + "_DELAY", 1000)]

  const Frame2Timings: seq<Entry> := [
    Entry("IMG" + "_DURATION", 1000), Entry("IMG" + "_DELAY", 1500),
    Entry("TEXT" + "_DURATION", 1000), Entry("TEXT" + "_DELAY", 1800)]

  const Frame3Timings: seq<Entry> := [
    Entry("IMG" + "_DURATION", 1000), Entry("TEXT" + "_DURATION", 1000),
    Entry("TEXT" + "_DELAY", 300)]

  const Frame4Timings: seq<Entry> := [
    Entry("IMG1" + "_DURATION", 1000), Entry("TEXT1" + "_DURATION", 1000),
    Entry("IMG2" + "_DURATION", 1000), Entry("IMG2" + "_DELAY", 750),
    Entry("TEXT2" + "_DURATION", 1000), Entry("TEXT2" + "_DELAY", 750),
    Entry("IMG3" + "_DURATION", 1000), Entry("IMG3" + "_DELAY", 1500),
    Entry("TEXT3" + "_DURATION", 1000), Entry("TEXT3" + "_DELAY", 1500),
    Entry("TEXT4" + "_DURATION", 1000), Entry("TEXT4" + "_DELAY", 1500)]

  const Frame5Timings: seq<Entry> := [
    Entry("IMG" + "_DURATION", 1000), Entry("TEXT1" + "_DURATION", 1000),
    Entry("TEXT2" + "_DURATION", 1000)]

  const Frame6Timings: seq<Entry> := [
    Entry("IMG" + "_DURATION", 1000), Entry("TEXT" + "_DURATION", 1000)]

  const SectionAFrameTimings: seq<seq<Entry>> :=
    [Frame1Timings, Frame2Timings, Frame3Timings, Frame4Timings, Frame5Timings, Frame6Timings]

  /** `X_DURATION`, with no 'Y' in `X`, includes "DURATION" and not "DELAY". */
  lemma DurationKeyShape(x: string)
    requires 'Y' !in x
    ensures !Includes(x + "_DURATION", "DELAY") && Includes(x + "_DURATION", "DURATION")
  {
    var key := x + "_DURATION";
    assert 'Y' !in key by { assert forall c :: c in key ==> c in x || c in "_DURATION"; }
    assert "DELAY"[4] == 'Y';
    AbsentCharNotIncluded(key, "DELAY", 'Y');
    assert OccursAt(key, "DURATION", |x| + 1) by { assert key[|x| + 1..|x| + 9] == "DURATION"; }
    IncludesIff(key, "DURATION");
  }

  /** An `X_DURATION` entry with no 'Y' in `X` offers its own value. */
  lemma DurationKeyCandidate(t: seq<Entry>, i: nat, x: string)
    requires i < |t| && t[i].key == x + "_DURATION" && 'Y' !in x
    ensures Candidate(t, i) == Some(t[i].value)
  {
    DurationKeyShape(x);
  }

  /** `X_DELAY`, with no 'Y' in `X`, includes "DELAY" and is paired with `X_DURATION`. */
  lemma DelayKeyShape(x: string)
    requires 'Y' !in x
    ensures Includes(x + "_DELAY", "DELAY")
    ensures DurationKeyFor(x + "_DELAY") == x + "_DURATION"
  {
    assert "_DELAY"[5] == 'Y';
    AbsentCharNotIncluded(x, "_DELAY", 'Y');
    DelayKeyPairsWithDuration(x);
    DelayKeyIncludesDelay(x);
  }

  /** An `X_DELAY` key with no 'Y' in `X` offers delay + duration when `X_DURATION` is truthy. */
  lemma DelayKeyCandidate(t: seq<Entry>, i: nat, x: string)
    requires i < |t| && t[i].key == x + "_DELAY" && 'Y' !in x
    ensures var d := Lookup(t, x + "_DURATION");
            Candidate(t, i) == if d.Some? && d.value != 0 then Some(t[i].value + d.value) else None
  {
    DelayKeyShape(x);
    assert Includes(t[i].key, "DELAY") && DurationKeyFor(t[i].key) == x + "_DURATION";
  }

  /** Two duration keys with different names are different keys. */
  lemma DistinctDurationKeys(a: string, b: string)
    requires a != b
    ensures a + "_DURATION" != b + "_DURATION"
  {
    if |a| == |b| {
      var k :| 0 <= k < |a| && a[k] != b[k];
      assert (a + "_DURATION")[k] == a[k] && (b + "_DURATION")[k] == b[k];
    }
  }

  /** A delay key is never a duration key: the last characters differ. */
  lemma DelayIsNotDurationKey(a: string, b: string)
    ensures a + "_DELAY" != b + "_DURATION"
  {
    var p, q := a + "_DELAY", b + "_DURATION";
    assert p[|p| - 1] == 'Y' && q[|q| - 1] == 'N';
  }

  /** The lookup finds the first entry carrying the key. */
  lemma {:induction false} LookupFromFirst(t: seq<Entry>, key: string, i: nat, j: nat)
    requires i <= j < |t| && t[j].key == key
    requires forall k :: i <= k < j ==> t[k].key != key
    ensures LookupFrom(t, key, i) == Some(t[j].value)
    decreases j - i
  {
    if i < j {
      LookupFromFirst(t, key, i + 1, j);
    }
  }

  /** No entry before entry 1 of FRAME_1 carries the key `CROSSFADE_DURATION`. */
  lemma Frame1Entry2Lookup(t: seq<Entry>)
    requires t == Frame1Timings
    ensures forall k :: 0 <= k < 1 ==> t[k].key != "CROSSFADE" + "_DURATION"
  {
    forall k | 0 <= k < 1 ensures t[k].key != "CROSSFADE" + "_DURATION" {
      DistinctDurationKeys("CROP", "CROSSFADE");
    }
  }

  /** Entry 2 of FRAME_1 is a delay key and offers 2000. */
  lemma Frame1Entry2(t: seq<Entry>)
    requires t == Frame1Timings
    ensures Candidate(t, 2) == Some(2000)
  {
    DelayKeyCandidate(t, 2, "CROSSFADE");
    Frame1Entry2Lookup(t);
    LookupFromFirst(t, "CROSSFADE" + "_DURATION", 0, 1);
  }

  /** No entry before entry 3 of FRAME_1 carries the key `IMG3_DURATION`. */
  lemma Frame1Entry4Lookup(t: seq<Entry>)
    requires t == Frame1Timings
    ensures forall k :: 0 <= k < 3 ==> t[k].key != "IMG3" + "_DURATION"
  {
    forall k | 0 <= k < 3 ensures t[k].key != "IMG3" + "_DURATION" {
      if k == 0 { DistinctDurationKeys("CROP", "IMG3"); }
      else if k == 1 { DistinctDurationKeys("CROSSFADE", "IMG3"); }
      else { DelayIsNotDurationKey("CROSSFADE", "IMG3"); }
    }
  }

  /** Entry 4 of FRAME_1 is a delay key and offers 2000. */
  lemma Frame1Entry4(t: seq<Entry>)
    requires t == Frame1Timings
    ensures Candidate(t, 4) == Some(2000)
  {
    DelayKeyCandidate(t, 4, "IMG3");
    Frame1Entry4Lookup(t);
    LookupFromFirst(t, "IMG3" + "_DURATION", 0, 3);
  }

  /** No entry before entry 5 of FRAME_1 carries the key `TEXT_DURATION`. */
  lemma Frame1Entry6Lookup(t: seq<Entry>)
    requires t == Frame1Timings
    ensures forall k :: 0 <= k < 5 ==> t[k].key != "TEXT" + "_DURATION"
  {
    forall k | 0 <= k < 5 ensures t[k].key != "TEXT" + "_DURATION" {
      if k == 0 { DistinctDurationKeys("CROP", "TEXT"); }
      else if k == 1 { DistinctDurationKeys("CROSSFADE", "TEXT"); }
      else if k == 2 { DelayIsNotDurationKey("CROSSFADE", "TEXT"); }
      else if k == 3 { DistinctDurationKeys("IMG3", "TEXT"); }
      else { DelayIsNotDurationKey("IMG3", "TEXT"); }
    }
  }

  /** Entry 6 of FRAME_1 is a delay key and offers 2000. */
  lemma Frame1Entry6(t: seq<Entry>)
    requires t == Frame1Timings
    ensures Candidate(t, 6) == Some(2000)
  {
    DelayKeyCandidate(t, 6, "TEXT");
    Frame1Entry6Lookup(t);
    LookupFromFirst(t, "TEXT" + "_DURATION", 0, 5);
  }

  /** FRAME_1 totals 2000. */
  lemma Frame1Total(t: seq<Entry>)
    requires t == Frame1Timings
    ensures IsTotalDuration(t, 2000)
  {
    forall i | 0 <= i < |t| && Candidate(t, i).Some? ensures Candidate(t, i).value <= 2000 {
      if i < 4 { Frame1OffersLow(t, i); } else { Frame1OffersHigh(t, i); }
    }
    Frame1Entry2(t);
    assert Candidate(t, 2) == Some(2000);
  }

  /** Entries 0 to 3 of FRAME_1 offer at most 2000. */
  lemma Frame1OffersLow(t: seq<Entry>, i: nat)
    requires t == Frame1Timings && i < 4
    ensures Candidate(t, i).Some? ==> Candidate(t, i).value <= 2000
  {
    if i == 0 { DurationKeyCandidate(t, 0, "CROP"); }
    else if i == 1 { DurationKeyCandidate(t, 1, "CROSSFADE"); }
    else if i == 2 { Frame1Entry2(t); }
    else { DurationKeyCandidate(t, 3, "IMG3"); }
  }

  /** Entries 4 to 6 of FRAME_1 offer at most 2000. */
  lemma Frame1OffersHigh(t: seq<Entry>, i: nat)
    requires t == Frame1Timings && 4 <= i < 7
    ensures Candidate(t, i).Some? ==> Candidate(t, i).value <= 2000
  {
    if i == 4 { Frame1Entry4(t); }
    else if i == 5 { DurationKeyCandidate(t, 5, "TEXT"); }
    else { Frame1Entry6(t); }
  }

  /** Entry 1 of FRAME_2 is a delay key and offers 2500. */
  lemma Frame2Entry1(t: seq<Entry>)
    requires t == Frame2Timings
    ensures Candidate(t, 1) == Some(2500)
  {
    DelayKeyCandidate(t, 1, "IMG");
    LookupFromFirst(t, "IMG" + "_DURATION", 0, 0);
  }

  /** No entry before entry 2 of FRAME_2 carries the key `TEXT_DURATION`. */
  lemma Frame2Entry3Lookup(t: seq<Entry>)
    requires t == Frame2Timings
    ensures forall k :: 0 <= k < 2 ==> t[k].key != "TEXT" + "_DURATION"
  {
    forall k | 0 <= k < 2 ensures t[k].key != "TEXT" + "_DURATION" {
      if k == 0 { DistinctDurationKeys("IMG", "TEXT"); }
      else { DelayIsNotDurationKey("IMG", "TEXT"); }
    }
  }

  /** Entry 3 of FRAME_2 is a delay key and offers 2800. */
  lemma Frame2Entry3(t: seq<Entry>)
    requires t == Frame2Timings
    ensures Candidate(t, 3) == Some(2800)
  {
    DelayKeyCandidate(t, 3, "TEXT");
    Frame2Entry3Lookup(t);
    LookupFromFirst(t, "TEXT" + "_DURATION", 0, 2);
  }

  /** FRAME_2 totals 2800. */
  lemma Frame2Total(t: seq<Entry>)
    requires t == Frame2Timings
    ensures IsTotalDuration(t, 2800)
  {
    forall i | 0 <= i < |t| && Candidate(t, i).Some? ensures Candidate(t, i).value <= 2800 {
      if i == 0 { DurationKeyCandidate(t, 0, "IMG"); }
      else if i == 1 { Frame2Entry1(t); }
      else if i == 2 { DurationKeyCandidate(t, 2, "TEXT"); }
      else { Frame2Entry3(t); }
    }
    Frame2Entry3(t);
    assert Candidate(t, 3) == Some(2800);
  }

  /** No entry before entry 1 of FRAME_3 carries the key `TEXT_DURATION`. */
  lemma Frame3Entry2Lookup(t: seq<Entry>)
    requires t == Frame3Timings
    ensures forall k :: 0 <= k < 1 ==> t[k].key != "TEXT" + "_DURATION"
  {
    forall k | 0 <= k < 1 ensures t[k].key != "TEXT" + "_DURATION" {
      DistinctDurationKeys("IMG", "TEXT");
    }
  }

  /** Entry 2 of FRAME_3 is a delay key and offers 1300. */
  lemma Frame3Entry2(t: seq<Entry>)
    requires t == Frame3Timings
    ensures Candidate(t, 2) == Some(1300)
  {
    DelayKeyCandidate(t, 2, "TEXT");
    Frame3Entry2Lookup(t);
    LookupFromFirst(t, "TEXT" + "_DURATION", 0, 1);
  }

  /** FRAME_3 totals 1300. */
  lemma Frame3Total(t: seq<Entry>)
    requires t == Frame3Timings
    ensures IsTotalDuration(t, 1300)
  {
    forall i | 0 <= i < |t| && Candidate(t, i).Some? ensures Candidate(t, i).value <= 1300 {
      if i == 0 { DurationKeyCandidate(t, 0, "IMG"); }
      else if i == 1 { DurationKeyCandidate(t, 1, "TEXT"); }
      else { Frame3Entry2(t); }
    }
    Frame3Entry2(t);
    assert Candidate(t, 2) == Some(1300);
  }

  /** No entry before entry 2 of FRAME_4 carries the key `IMG2_DURATION`. */
  lemma Frame4Entry3Lookup(t: seq<Entry>)
    requires t == Frame4Timings
    ensures forall k :: 0 <= k < 2 ==> t[k].key != "IMG2" + "_DURATION"
  {
    forall k | 0 <= k < 2 ensures t[k].key != "IMG2" + "_DURATION" {
      if k == 0 { DistinctDurationKeys("IMG1", "IMG2"); }
      else { DistinctDurationKeys("TEXT1", "IMG2"); }
    }
  }

  /** Entry 3 of FRAME_4 is a delay key and offers 1750. */
  lemma Frame4Entry3(t: seq<Entry>)
    requires t == Frame4Timings
    ensures Candidate(t, 3) == Some(1750)
  {
    DelayKeyCandidate(t, 3, "IMG2");
    Frame4Entry3Lookup(t);
    LookupFromFirst(t, "IMG2" + "_DURATION", 0, 2);
  }

  /** No entry before entry 4 of FRAME_4 carries the key `TEXT2_DURATION`. */
  lemma Frame4Entry5Lookup(t: seq<Entry>)
    requires t == Frame4Timings
    ensures forall k :: 0 <= k < 4 ==> t[k].key != "TEXT2" + "_DURATION"
  {
    forall k | 0 <= k < 4 ensures t[k].key != "TEXT2" + "_DURATION" {
      if k == 0 { DistinctDurationKeys("IMG1", "TEXT2"); }
      else if k == 1 { DistinctDurationKeys("TEXT1", "TEXT2"); }
      else if k == 2 { DistinctDurationKeys("IMG2", "TEXT2"); }
      else { DelayIsNotDurationKey("IMG2", "TEXT2"); }
    }
  }

  /** Entry 5 of FRAME_4 is a delay key and offers 1750. */
  lemma Frame4Entry5(t: seq<Entry>)
    requires t == Frame4Timings
    ensures Candidate(t, 5) == Some(1750)
  {
    DelayKeyCandidate(t, 5, "TEXT2");
    Frame4Entry5Lookup(t);
    LookupFromFirst(t, "TEXT2" + "_DURATION", 0, 4);
  }

  /** No entry before entry 6 of FRAME_4 carries the key `IMG3_DURATION`. */
  lemma Frame4Entry7Lookup(t: seq<Entry>)
    requires t == Frame4Timings
    ensures forall k :: 0 <= k < 6 ==> t[k].key != "IMG3" + "_DURATION"
  {
    forall k | 0 <= k < 6 ensures t[k].key != "IMG3" + "_DURATION" {
      if k == 0 { DistinctDurationKeys("IMG1", "IMG3"); }
      else if k == 1 { DistinctDurationKeys("TEXT1", "IMG3"); }
      else if k == 2 { DistinctDurationKeys("IMG2", "IMG3"); }
      else if k == 3 { DelayIsNotDurationKey("IMG2", "IMG3"); }
      else if k == 4 { DistinctDurationKeys("TEXT2", "IMG3"); }
      else { DelayIsNotDurationKey("TEXT2", "IMG3"); }
    }
  }

  /** Entry 7 of FRAME_4 is a delay key and offers 2500. */
  lemma Frame4Entry7(t: seq<Entry>)
    requires t == Frame4Timings
    ensures Candidate(t, 7) == Some(2500)
  {
    DelayKeyCandidate(t, 7, "IMG3");
    Frame4Entry7Lookup(t);
    LookupFromFirst(t, "IMG3" + "_DURATION", 0, 6);
  }

  /** No entry before entry 8 of FRAME_4 carries the key `TEXT3_DURATION`. */
  lemma Frame4Entry9Lookup(t: seq<Entry>)
    requires t == Frame4Timings
    ensures forall k :: 0 <= k < 8 ==> t[k].key != "TEXT3" + "_DURATION"
  {
    forall k | 0 <= k < 8 ensures t[k].key != "TEXT3" + "_DURATION" {
      if k == 0 { DistinctDurationKeys("IMG1", "TEXT3"); }
      else if k == 1 { DistinctDurationKeys("TEXT1", "TEXT3"); }
      else if k == 2 { DistinctDurationKeys("IMG2", "TEXT3"); }
      else if k == 3 { DelayIsNotDurationKey("IMG2", "TEXT3"); }
      else if k == 4 { DistinctDurationKeys("TEXT2", "TEXT3"); }
      else if k == 5 { DelayIsNotDurationKey("TEXT2", "TEXT3"); }
      else if k == 6 { DistinctDurationKeys("IMG3", "TEXT3"); }
      else { DelayIsNotDurationKey("IMG3", "TEXT3"); }
    }
  }

  /** Entry 9 of FRAME_4 is a delay key and offers 2500. */
  lemma Frame4Entry9(t: seq<Entry>)
    requires t == Frame4Timings
    ensures Candidate(t, 9) == Some(2500)
  {
    DelayKeyCandidate(t, 9, "TEXT3");
    Frame4Entry9Lookup(t);
    LookupFromFirst(t, "TEXT3" + "_DURATION", 0, 8);
  }

  /** No entry before entry 10 of FRAME_4 carries the key `TEXT4_DURATION`. */
  lemma Frame4Entry11Lookup(t: seq<Entry>)
    requires t == Frame4Timings
    ensures forall k :: 0 <= k < 10 ==> t[k].key != "TEXT4" + "_DURATION"
  {
    forall k | 0 <= k < 10 ensures t[k].key != "TEXT4" + "_DURATION" {
      if k == 0 { DistinctDurationKeys("IMG1", "TEXT4"); }
      else if k == 1 { DistinctDurationKeys("TEXT1", "TEXT4"); }
      else if k == 2 { DistinctDurationKeys("IMG2", "TEXT4"); }
      else if k == 3 { DelayIsNotDurationKey("IMG2", "TEXT4"); }
      else if k == 4 { DistinctDurationKeys("TEXT2", "TEXT4"); }
      else if k == 5 { DelayIsNotDurationKey("TEXT2", "TEXT4"); }
      else if k == 6 { DistinctDurationKeys("IMG3", "TEXT4"); }
      else if k == 7 { DelayIsNotDurationKey("IMG3", "TEXT4"); }
      else if k == 8 { DistinctDurationKeys("TEXT3", "TEXT4"); }
      else { DelayIsNotDurationKey("TEXT3", "TEXT4"); }
    }
  }

  /** Entry 11 of FRAME_4 is a delay key and offers 2500. */
  lemma Frame4Entry11(t: seq<Entry>)
    requires t == Frame4Timings
    ensures Candidate(t, 11) == Some(2500)
  {
    DelayKeyCandidate(t, 11, "TEXT4");
    Frame4Entry11Lookup(t);
    LookupFromFirst(t, "TEXT4" + "_DURATION", 0, 10);
  }

  /** FRAME_4 totals 2500. */
  lemma Frame4Total(t: seq<Entry>)
    requires t == Frame4Timings
    ensures IsTotalDuration(t, 2500)
  {
    forall i | 0 <= i < |t| && Candidate(t, i).Some? ensures Candidate(t, i).value <= 2500 {
      if i < 4 { Frame4OffersLow(t, i); }
      else if i < 8 { Frame4OffersMid(t, i); }
      else { Frame4OffersHigh(t, i); }
    }
    Frame4Entry7(t);
    assert Candidate(t, 7) == Some(2500);
  }

  /** Entries 0 to 3 of FRAME_4 offer at most 2500. */
  lemma Frame4OffersLow(t: seq<Entry>, i: nat)
    requires t == Frame4Timings && i < 4
    ensures Candidate(t, i).Some? ==> Candidate(t, i).value <= 2500
  {
    if i == 0 { DurationKeyCandidate(t, 0, "IMG1"); }
    else if i == 1 { DurationKeyCandidate(t, 1, "TEXT1"); }
    else if i == 2 { DurationKeyCandidate(t, 2, "IMG2"); }
    else { Frame4Entry3(t); }
  }

  /** Entries 4 to 7 of FRAME_4 offer at most 2500. */
  lemma Frame4OffersMid(t: seq<Entry>, i: nat)
    requires t == Frame4Timings && 4 <= i < 8
    ensures Candidate(t, i).Some? ==> Candidate(t, i).value <= 2500
  {
    if i == 4 { DurationKeyCandidate(t, 4, "TEXT2"); }
    else if i == 5 { Frame4Entry5(t); }
    else if i == 6 { DurationKeyCandidate(t, 6, "IMG3"); }
    else { Frame4Entry7(t); }
  }

  /** Entries 8 to 11 of FRAME_4 offer at most 2500. */
  lemma Frame4OffersHigh(t: seq<Entry>, i: nat)
    requires t == Frame4Timings && 8 <= i < 12
    ensures Candidate(t, i).Some? ==> Candidate(t, i).value <= 2500
  {
    if i == 8 { DurationKeyCandidate(t, 8, "TEXT3"); }
    else if i == 9 { Frame4Entry9(t); }
    else if i == 10 { DurationKeyCandidate(t, 10, "TEXT4"); }
    else { Frame4Entry11(t); }
  }

  /** FRAME_5 totals 1000. */
  lemma Frame5Total(t: seq<Entry>)
    requires t == Frame5Timings
    ensures IsTotalDuration(t, 1000)
  {
    forall i | 0 <= i < |t| && Candidate(t, i).Some? ensures Candidate(t, i).value <= 1000 {
      if i == 0 { DurationKeyCandidate(t, 0, "IMG"); }
      else if i == 1 { DurationKeyCandidate(t, 1, "TEXT1"); }
      else { DurationKeyCandidate(t, 2, "TEXT2"); }
    }
    DurationKeyCandidate(t, 0, "IMG");
    assert Candidate(t, 0) == Some(1000);
  }

  /** FRAME_6 totals 1000. */
  lemma Frame6Total(t: seq<Entry>)
    requires t == Frame6Timings
    ensures IsTotalDuration(t, 1000)
  {
    forall i | 0 <= i < |t| && Candidate(t, i).Some? ensures Candidate(t, i).value <= 1000 {
      if i == 0 { DurationKeyCandidate(t, 0, "IMG"); }
      else { DurationKeyCandidate(t, 1, "TEXT"); }
    }
    DurationKeyCandidate(t, 0, "IMG");
    assert Candidate(t, 0) == Some(1000);
  }

  /**
   * SECTION_A_DURATIONS: calculateTotalDuration applied to each frame's record.
   * FRAME_2 comes to 2800 (TEXT_DELAY 1800 + TEXT_DURATION 1000).
   */
  method SectionADurations() returns (durations: seq<int>)
    ensures durations == [2000, 2800, 1300, 2500, 1000, 1000]
  {
    var d1 := CalculateTotalDuration(Frame1Timings);
    var d2 := CalculateTotalDuration(Frame2Timings);
    var d3 := CalculateTotalDuration(Frame3Timings);
    var d4 := CalculateTotalDuration(Frame4Timings);
    var d5 := CalculateTotalDuration(Frame5Timings);
    var d6 := CalculateTotalDuration(Frame6Timings);
    Frame1Total(Frame1Timings); TotalDurationUnique(Frame1Timings, d1, 2000);
    Frame2Total(Frame2Timings); TotalDurationUnique(Frame2Timings, d2, 2800);
    Frame3Total(Frame3Timings); TotalDurationUnique(Frame3Timings, d3, 1300);
    Frame4Total(Frame4Timings); TotalDurationUnique(Frame4Timings, d4, 2500);
    Frame5Total(Frame5Timings); TotalDurationUnique(Frame5Timings, d5, 1000);
    Frame6Total(Frame6Timings); TotalDurationUnique(Frame6Timings, d6, 1000);
    durations := [d1, d2, d3, d4, d5, d6];
  }

  // ---------------------------------------------------------------------------
  // toCssTime
  // ---------------------------------------------------------------------------

  predicate IsDigit(c: char)
  {
    '0' <= c <= '9'
  }

  predicate AllDigits(s: string)
  {
    forall k :: 0 <= k < |s| ==> IsDigit(s[k])
  }

  function DigitChar(d: nat): (c: char)
    requires d < 10
    ensures IsDigit(c) && c as int - '0' as int == d
  {
    ('0' as int + d) as char
  }

  /** The decimal numeral of `n`, as a template literal renders an integer: no leading zeros. */
  function NatToDecimal(n: nat): (r: string)
    ensures |r| > 0 && AllDigits(r)
    ensures r[0] == '0' <==> n == 0
    decreases n
  {
    if n < 10 then [DigitChar(n)] else NatToDecimal(n / 10) + [DigitChar(n % 10)]
  }

  /** The value of a numeral, read left to right. */
  function DigitsValue(s: string): nat
    requires AllDigits(s)
    decreases |s|
  {
    if s == [] then 0 else DigitsValue(s[..|s| - 1]) * 10 + (s[|s| - 1] as int - '0' as int)
  }

  /** `${ms}` for an integer `ms`: a minus sign for negatives, then the numeral. */
  function IntToDecimal(i: int): string
  {
    if i < 0 then "-" + NatToDecimal(-i) else NatToDecimal(i)
  }

  /** toCssTime: the value followed by the unit `ms`. */
  function ToCssTime(ms: int): (r: string)
    ensures |r| >= 3 && r[|r| - 2..] == "ms"
    ensures r[0] == '-' <==> ms < 0
  {
    IntToDecimal(ms) + "ms"
  }

  /** Reads back an integer numeral with an optional leading minus sign. */
  function ParseInt(s: string): Option<int>
  {
    if |s| > 0 && s[0] == '-' then
      if |s| > 1 && AllDigits(s[1..]) then Some(0 - DigitsValue(s[1..]) as int) else None
    else if |s| > 0 && AllDigits(s) then Some(DigitsValue(s))
    else None
  }

  /** Reads back a CSS time in milliseconds. */
  function ParseCssTime(s: string): Option<int>
  {
    if |s| >= 2 && s[|s| - 2..] == "ms" then ParseInt(s[..|s| - 2]) else None
  }

  lemma {:induction false} NatToDecimalRoundTrip(n: nat)
    ensures DigitsValue(NatToDecimal(n)) == n
    decreases n
  {
    var r := NatToDecimal(n);
    if n >= 10 {
      var p := NatToDecimal(n / 10);
      NatToDecimalRoundTrip(n / 10);
      assert r[..|r| - 1] == p;
    }
  }

  /** toCssTime loses nothing: the milliseconds can be read back from the string. */
  lemma CssTimeRoundTrip(ms: int)
    ensures ParseCssTime(ToCssTime(ms)) == Some(ms)
  {
    var num := IntToDecimal(ms);
    var r := num + "ms";
    assert r[..|r| - 2] == num;
    if ms < 0 {
      assert num[1..] == NatToDecimal(-ms);
      NatToDecimalRoundTrip(-ms);
    } else {
      NatToDecimalRoundTrip(ms);
    }
  }

  /** Different durations never render as the same CSS time. */
  lemma CssTimeInjective(a: int, b: int)
    requires ToCssTime(a) == ToCssTime(b)
    ensures a == b
  {
    CssTimeRoundTrip(a);
    CssTimeRoundTrip(b);
  }
}
