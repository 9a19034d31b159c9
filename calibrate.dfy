/** `Calibrate.run_calibration` (screen/calibrate.py): for every note of the
    reference table, 39 capture ticks fill an occurrence histogram, the 40th
    tick replaces the note's targets by the keys whose counts are among the
    three largest distinct counts, and Escape on any tick restores the
    default table and stops.

    Captures and key presses are the input: `input(g)` is what the g-th tick
    of the whole run (counting from 0, forty per note) sees. */
module Calibration {
  import opened Wrappers
  import opened Numerics
  import opened ReferenceTable
  import opened App
  import Audio

  /** The `while buffering` loop runs until `tick` reaches 40 ... */
  const TicksPerNote: nat := 40
  /** ... and only ticks 1 to 39 (`tick < 40`) capture and count. */
  const SamplingTicks: nat := TicksPerNote - 1

  /** One tick's observations: the frequencies `get_dominant_frequencies`
      returned and whether Escape was among the key presses. */
  datatype TickInput = TickInput(frequencies: seq<real>, escape: bool)

  // ---------------------------------------------------------------------
  // The occurrence histogram (`buffer`, an insertion-ordered dict)
  // ---------------------------------------------------------------------

  /** `keys` in insertion order and the count of each. */
  datatype Histogram = Histogram(keys: seq<int>, counts: map<int, nat>)

  const EmptyHistogram: Histogram := Histogram([], map[])

  predicate WellFormed(h: Histogram) {
    && NoRepeats(h.keys)
    && (forall k :: k in h.counts ==> k in h.keys)
    && (forall i :: 0 <= i < |h.keys| ==> h.keys[i] in h.counts)
  }

  function CountOf(h: Histogram, k: int): nat {
    if k in h.counts then h.counts[k] else 0
  }

  /** `buffer[k] = buffer.get(k, 0) + 1` */
  function Add(h: Histogram, k: int): Histogram {
    if k in h.counts then Histogram(h.keys, h.counts[k := h.counts[k] + 1])
    else Histogram(h.keys + [k], h.counts[k := 1])
  }

  /** Adds the keys `ks` one after the other. */
  function AddAll(h: Histogram, ks: seq<int>): Histogram {
    if ks == [] then h
    else Add(AddAll(h, ks[..|ks| - 1]), ks[|ks| - 1])
  }

  /** A new key is appended once; a known key keeps its place. */
  lemma AddWellFormed(h: Histogram, k: int)
    requires WellFormed(h)
    ensures WellFormed(Add(h, k))
  {
    if k !in h.counts {
      var keys := h.keys + [k];
      forall i, j | 0 <= i < j < |keys|
        ensures keys[i] != keys[j]
      {
        if j == |h.keys| {
          assert keys[i] == h.keys[i] && keys[i] in h.counts;
        }
      }
    }
  }

  lemma {:induction false} AddAllWellFormed(h: Histogram, ks: seq<int>)
    requires WellFormed(h)
    ensures WellFormed(AddAll(h, ks))
  {
    if ks != [] {
      AddAllWellFormed(h, ks[..|ks| - 1]);
      AddWellFormed(AddAll(h, ks[..|ks| - 1]), ks[|ks| - 1]);
    }
  }

  lemma AddCounts(h: Histogram, k: int)
    ensures forall x :: x in Add(h, k).counts <==> x in h.counts || x == k
    ensures forall x :: CountOf(Add(h, k), x) == CountOf(h, x) + (if x == k then 1 else 0)
    ensures |h.keys| <= |Add(h, k).keys| && Add(h, k).keys[..|h.keys|] == h.keys
  {
  }

  /** Adding keys counts each of them once more and only appends new keys. */
  lemma {:induction false} AddAllCounts(h: Histogram, ks: seq<int>)
    ensures forall k :: k in AddAll(h, ks).counts <==> k in h.counts || k in ks
    ensures forall k :: CountOf(AddAll(h, ks), k) == CountOf(h, k) + multiset(ks)[k]
    ensures |h.keys| <= |AddAll(h, ks).keys| && AddAll(h, ks).keys[..|h.keys|] == h.keys
  {
    if ks != [] {
      var p := ks[..|ks| - 1];
      var x := ks[|ks| - 1];
      AddAllCounts(h, p);
      AddCounts(AddAll(h, p), x);
      assert ks == p + [x];
      assert forall k :: multiset(ks)[k] == multiset(p)[k] + (if k == x then 1 else 0);
      var q := AddAll(h, p).keys;
      assert AddAll(h, ks).keys[..|q|] == q;
      assert q[..|h.keys|] == h.keys;
    }
  }

  lemma {:induction false} AddAllConcat(h: Histogram, a: seq<int>, b: seq<int>)
    ensures AddAll(h, a + b) == AddAll(AddAll(h, a), b)
  {
    if b != [] {
      AddAllConcat(h, a, b[..|b| - 1]);
      assert (a + b)[..|a + b| - 1] == a + b[..|b| - 1];
    } else {
      assert a + b == a;
    }
  }

  /** The histogram of a key sequence. */
  function Tally(ks: seq<int>): Histogram {
    AddAll(EmptyHistogram, ks)
  }

  /** The keys line 34 counts for one tick's frequencies: `int(f)` for every
      `f > 1`, in order. */
  function KeysOf(fs: seq<real>): seq<int> {
    if fs == [] then []
    else KeysOf(fs[..|fs| - 1]) + (if fs[|fs| - 1] > 1.0 then [Truncate(fs[|fs| - 1])] else [])
  }

  /** Every counted key comes from a frequency above 1, so it is at least 1. */
  lemma {:induction false} KeysOfAreAtLeastOne(fs: seq<real>)
    ensures forall k :: k in KeysOf(fs) ==> 1 <= k
  {
    if fs != [] {
      KeysOfAreAtLeastOne(fs[..|fs| - 1]);
    }
  }

  /** The keys counted over the first `ticks` ticks of the window that starts
      at global tick `start`. */
  function WindowKeys(input: nat -> TickInput, start: nat, ticks: nat): seq<int> {
    if ticks == 0 then []
    else WindowKeys(input, start, ticks - 1) + KeysOf(input(start + ticks - 1).frequencies)
  }

  /** The histogram of note `n`'s window: its 39 sampling ticks. */
  function WindowHistogram(input: nat -> TickInput, n: nat): Histogram {
    Tally(WindowKeys(input, 40 * n, SamplingTicks))
  }

  /** The window reads only its own 39 sampling ticks: the aggregation tick
      and every other tick can change without changing it. */
  lemma {:induction false} WindowReadsOnlySamplingTicks(input: nat -> TickInput, other: nat -> TickInput, start: nat, ticks: nat)
    requires forall g :: start <= g < start + ticks ==> input(g).frequencies == other(g).frequencies
    ensures WindowKeys(input, start, ticks) == WindowKeys(other, start, ticks)
  {
    if ticks > 0 {
      WindowReadsOnlySamplingTicks(input, other, start, ticks - 1);
    }
  }

  /** The position of the first occurrence of `x` in `s`. */
  function FirstIndex(s: seq<int>, x: int): (i: nat)
    requires x in s
    ensures i < |s| && s[i] == x && forall j :: 0 <= j < i ==> s[j] != x
  {
    if s[0] == x then 0 else 1 + FirstIndex(s[1..], x)
  }

  lemma FirstIndexOfExtension(s: seq<int>, t: seq<int>, x: int)
    requires x in s
    ensures x in s + t && FirstIndex(s + t, x) == FirstIndex(s, x)
  {
    var i := FirstIndex(s, x);
    var k := FirstIndex(s + t, x);
    assert (s + t)[i] == x;
    assert k <= i;
    assert s[k] == x;
  }

  /** The keys of a tally are the keys it was given. */
  lemma TallyKeys(ks: seq<int>)
    ensures forall k :: k in Tally(ks).keys <==> k in ks
  {
    AddAllCounts(EmptyHistogram, ks);
    AddAllWellFormed(EmptyHistogram, ks);
    var h := Tally(ks);
    forall k | k in ks
      ensures k in h.keys
    {
      assert k in h.counts;
    }
  }

  /** Keys listed in first-seen order stay so when a key is seen, and
      appended, for the first time. */
  lemma SnocKeepsFirstSeenOrder(p: seq<int>, x: int, keys: seq<int>)
    requires x !in p
    requires forall k :: k in keys <==> k in p
    requires forall i, j :: 0 <= i < j < |keys| ==> FirstIndex(p, keys[i]) < FirstIndex(p, keys[j])
    ensures forall k :: k in keys + [x] <==> k in p + [x]
    ensures forall i, j :: 0 <= i < j < |keys + [x]| ==>
              FirstIndex(p + [x], (keys + [x])[i]) < FirstIndex(p + [x], (keys + [x])[j])
  {
    var ks, all := p + [x], keys + [x];
    forall y | y in p
      ensures FirstIndex(ks, y) == FirstIndex(p, y)
    {
      FirstIndexOfExtension(p, [x], y);
    }
    assert FirstIndex(ks, x) == |p|;
    forall i, j | 0 <= i < j < |all|
      ensures FirstIndex(ks, all[i]) < FirstIndex(ks, all[j])
    {
      assert all[i] == keys[i] && keys[i] in p;
      var fi := FirstIndex(p, keys[i]);
      if j < |keys| {
        assert all[j] == keys[j] && keys[j] in p;
        assert fi < FirstIndex(p, keys[j]);
      } else {
        assert all[j] == x;
      }
    }
  }

  /** Seeing a known key again changes no first occurrence. */
  lemma RepeatKeepsFirstSeenOrder(p: seq<int>, x: int, keys: seq<int>)
    requires x in p
    requires forall k :: k in keys <==> k in p
    requires forall i, j :: 0 <= i < j < |keys| ==> FirstIndex(p, keys[i]) < FirstIndex(p, keys[j])
    ensures forall k :: k in keys <==> k in p + [x]
    ensures forall i, j :: 0 <= i < j < |keys| ==> FirstIndex(p + [x], keys[i]) < FirstIndex(p + [x], keys[j])
  {
    forall y | y in p
      ensures FirstIndex(p + [x], y) == FirstIndex(p, y)
    {
      FirstIndexOfExtension(p, [x], y);
    }
  }

  /** A tally lists its keys in the order of their first occurrence. */
  lemma {:induction false} TallyFirstSeenOrder(ks: seq<int>)
    ensures forall k :: k in Tally(ks).keys <==> k in ks
    ensures forall i, j :: 0 <= i < j < |Tally(ks).keys| ==>
              FirstIndex(ks, Tally(ks).keys[i]) < FirstIndex(ks, Tally(ks).keys[j])
  {
    TallyKeys(ks);
    if ks != [] {
      var p := ks[..|ks| - 1];
      var x := ks[|ks| - 1];
      assert ks == p + [x];
      TallyFirstSeenOrder(p);
      var hp := Tally(p);
      assert Tally(ks) == Add(hp, x);
      AddAllWellFormed(EmptyHistogram, p);
      if x !in p {
        assert x !in hp.counts;
        assert Tally(ks).keys == hp.keys + [x];
        SnocKeepsFirstSeenOrder(p, x, hp.keys);
      } else {
        assert x in hp.keys && x in hp.counts;
        assert Tally(ks).keys == hp.keys;
        RepeatKeepsFirstSeenOrder(p, x, hp.keys);
      }
    }
  }

  /** The histogram counts every key exactly as often as it occurs, and
      lists the keys in the order of their first occurrence. */
  lemma TallyCountsAndOrder(ks: seq<int>)
    ensures WellFormed(Tally(ks))
    ensures forall k :: k in Tally(ks).keys <==> k in ks
    ensures forall k :: CountOf(Tally(ks), k) == multiset(ks)[k]
    ensures forall i, j :: 0 <= i < j < |Tally(ks).keys| ==>
              FirstIndex(ks, Tally(ks).keys[i]) < FirstIndex(ks, Tally(ks).keys[j])
  {
    AddAllCounts(EmptyHistogram, ks);
    AddAllWellFormed(EmptyHistogram, ks);
    TallyFirstSeenOrder(ks);
  }

  // ---------------------------------------------------------------------
  // Top-three selection (lines 38-43)
  // ---------------------------------------------------------------------

  /** Counts never increase along `s`. */
  predicate ByCountDescending(s: seq<int>, h: Histogram) {
    forall i, j :: 0 <= i < j < |s| ==> CountOf(h, s[i]) >= CountOf(h, s[j])
  }

  /** In a sequence ordered by count the head has the largest count. */
  lemma HeadHasLargestCount(s: seq<int>, h: Histogram)
    requires s != [] && ByCountDescending(s, h)
    ensures ByCountDescending(s[1..], h)
    ensures forall x :: x in s[1..] ==> CountOf(h, x) <= CountOf(h, s[0])
  {
    forall i, j | 0 <= i < j < |s[1..]|
      ensures CountOf(h, s[1..][i]) >= CountOf(h, s[1..][j])
    {
      assert s[1..][i] == s[i + 1] && s[1..][j] == s[j + 1];
    }
    forall x | x in s[1..]
      ensures CountOf(h, x) <= CountOf(h, s[0])
    {
      var m :| 0 <= m < |s[1..]| && s[1..][m] == x;
      assert s[m + 1] == x;
    }
  }

  /** A head whose count bounds the counts of an ordered tail keeps the
      order. */
  lemma ConsByCount(k: int, t: seq<int>, h: Histogram)
    requires ByCountDescending(t, h)
    requires forall x :: x in t ==> CountOf(h, x) <= CountOf(h, k)
    ensures ByCountDescending([k] + t, h)
  {
    var r := [k] + t;
    forall i, j | 0 <= i < j < |r|
      ensures CountOf(h, r[i]) >= CountOf(h, r[j])
    {
      assert r[j] == t[j - 1] && r[j] in t;
      if i > 0 {
        assert r[i] == t[i - 1];
      }
    }
  }

  /** The elements of `s` whose count is `c`, in order. */
  function WithCount(s: seq<int>, h: Histogram, c: nat): seq<int> {
    if s == [] then []
    else (if CountOf(h, s[0]) == c then [s[0]] else []) + WithCount(s[1..], h, c)
  }

  lemma {:induction false} WithCountConcat(a: seq<int>, b: seq<int>, h: Histogram, c: nat)
    ensures WithCount(a + b, h, c) == WithCount(a, h, c) + WithCount(b, h, c)
  {
    if a == [] {
      assert a + b == b;
    } else {
      assert (a + b)[1..] == a[1..] + b;
      WithCountConcat(a[1..], b, h, c);
    }
  }

  /** No element of `s` has count `c`. */
  lemma {:induction false} WithCountOfNoSuchCount(s: seq<int>, h: Histogram, c: nat)
    requires forall x :: x in s ==> CountOf(h, x) != c
    ensures WithCount(s, h, c) == []
  {
    if s != [] {
      assert s[0] in s;
      assert forall x :: x in s[1..] ==> x in s;
      WithCountOfNoSuchCount(s[1..], h, c);
    }
  }

  /** Stable descending insertion: `k` goes before the first element whose
      count is not larger than its own. */
  function InsertByCount(k: int, s: seq<int>, h: Histogram): seq<int> {
    if s == [] then [k]
    else if CountOf(h, s[0]) <= CountOf(h, k) then [k] + s
    else [s[0]] + InsertByCount(k, s[1..], h)
  }

  /** Insertion adds `k` and loses nothing. */
  lemma {:induction false} InsertByCountPermutes(k: int, s: seq<int>, h: Histogram)
    ensures multiset(InsertByCount(k, s, h)) == multiset(s) + multiset{k}
  {
    if s != [] && CountOf(h, s[0]) > CountOf(h, k) {
      InsertByCountPermutes(k, s[1..], h);
      assert s == [s[0]] + s[1..];
    }
  }

  lemma {:induction false} InsertByCountKeepsOrder(k: int, s: seq<int>, h: Histogram)
    requires ByCountDescending(s, h)
    ensures ByCountDescending(InsertByCount(k, s, h), h)
  {
    if s == [] {
    } else if CountOf(h, s[0]) <= CountOf(h, k) {
      HeadHasLargestCount(s, h);
      assert s == [s[0]] + s[1..];
      ConsByCount(k, s, h);
    } else {
      HeadHasLargestCount(s, h);
      InsertByCountKeepsOrder(k, s[1..], h);
      var rest := InsertByCount(k, s[1..], h);
      InsertByCountPermutes(k, s[1..], h);
      forall x | x in rest
        ensures CountOf(h, x) <= CountOf(h, s[0])
      {
        assert x in multiset(rest);
        if x != k {
          assert x in multiset(s[1..]);
        }
      }
      ConsByCount(s[0], rest, h);
    }
  }

  lemma {:induction false} InsertByCountIsStable(k: int, s: seq<int>, h: Histogram, c: nat)
    ensures WithCount(InsertByCount(k, s, h), h, c) == (if CountOf(h, k) == c then [k] else []) + WithCount(s, h, c)
  {
    var mine := if CountOf(h, k) == c then [k] else [];
    if s == [] {
      assert [k][1..] == [];
      assert WithCount([k], h, c) == mine + WithCount([], h, c);
    } else if CountOf(h, s[0]) <= CountOf(h, k) {
      assert ([k] + s)[1..] == s;
      assert WithCount([k] + s, h, c) == mine + WithCount(s, h, c);
    } else {
      var rest := InsertByCount(k, s[1..], h);
      var first := if CountOf(h, s[0]) == c then [s[0]] else [];
      InsertByCountIsStable(k, s[1..], h, c);
      assert ([s[0]] + rest)[1..] == rest;
      assert WithCount([s[0]] + rest, h, c) == first + (mine + WithCount(s[1..], h, c));
      assert WithCount(s, h, c) == first + WithCount(s[1..], h, c);
      if first == [] {
        assert first + (mine + WithCount(s[1..], h, c)) == mine + WithCount(s[1..], h, c);
      } else {
        assert mine == [];
        assert mine + (first + WithCount(s[1..], h, c)) == first + WithCount(s[1..], h, c);
      }
    }
  }

  /** `sorted(buffer.items(), key=count, reverse=True)`: Python's sort is
      stable, also in reverse, so equal counts keep insertion order. */
  function SortByCount(keys: seq<int>, h: Histogram): seq<int> {
    if keys == [] then []
    else InsertByCount(keys[0], SortByCount(keys[1..], h), h)
  }

  /** The sort is a permutation of the keys. */
  lemma {:induction false} SortByCountPermutes(keys: seq<int>, h: Histogram)
    ensures multiset(SortByCount(keys, h)) == multiset(keys)
  {
    if keys != [] {
      SortByCountPermutes(keys[1..], h);
      InsertByCountPermutes(keys[0], SortByCount(keys[1..], h), h);
      assert keys == [keys[0]] + keys[1..];
    }
  }

  /** The sort is a permutation that orders by count and keeps, for every
      count, the keys that have it in their original order. */
  lemma {:induction false} SortByCountIsStableSort(keys: seq<int>, h: Histogram)
    ensures multiset(SortByCount(keys, h)) == multiset(keys)
    ensures ByCountDescending(SortByCount(keys, h), h)
    ensures forall c :: WithCount(SortByCount(keys, h), h, c) == WithCount(keys, h, c)
  {
    SortByCountPermutes(keys, h);
    if keys != [] {
      var rest := SortByCount(keys[1..], h);
      SortByCountIsStableSort(keys[1..], h);
      InsertByCountKeepsOrder(keys[0], rest, h);
      forall c
        ensures WithCount(SortByCount(keys, h), h, c) == WithCount(keys, h, c)
      {
        InsertByCountIsStable(keys[0], rest, h, c);
      }
    }
  }

  lemma SameMultisetSameElements(a: seq<int>, b: seq<int>)
    requires multiset(a) == multiset(b)
    ensures forall x :: x in a <==> x in b
  {
    forall x
      ensures x in a <==> x in b
    {
      assert x in a <==> x in multiset(a);
      assert x in b <==> x in multiset(b);
    }
  }

  lemma TwoOccurrences(s: seq<int>, i: nat, j: nat)
    requires i < j < |s| && s[i] == s[j]
    ensures multiset(s)[s[i]] >= 2
  {
    assert s == s[..j] + [s[j]] + s[j + 1..];
    assert s[i] in s[..j];
  }

  lemma {:induction false} AtMostOnce(s: seq<int>, x: int)
    requires NoRepeats(s)
    ensures multiset(s)[x] <= 1
  {
    if s != [] {
      AtMostOnce(s[1..], x);
      assert s == [s[0]] + s[1..];
      if s[0] == x {
        assert x !in s[1..];
        assert multiset(s[1..])[x] == 0;
      }
    }
  }

  lemma NoRepeatsOfPermutation(a: seq<int>, b: seq<int>)
    requires multiset(a) == multiset(b) && NoRepeats(a)
    ensures NoRepeats(b)
  {
    forall i, j | 0 <= i < j < |b|
      ensures b[i] != b[j]
    {
      if b[i] == b[j] {
        TwoOccurrences(b, i, j);
        AtMostOnce(a, b[i]);
      }
    }
  }

  predicate StrictlyDescending(s: seq<nat>) {
    forall i, j :: 0 <= i < j < |s| ==> s[i] > s[j]
  }

  /** Collapses runs of equal neighbours.  On a non-increasing sequence of
      counts this is `sorted(set(counts), reverse=True)`. */
  function MergeEqualNeighbours(cs: seq<nat>): (r: seq<nat>)
    ensures forall v :: v in r <==> v in cs
    ensures cs != [] ==> r != [] && r[0] == cs[0]
  {
    if |cs| <= 1 then cs
    else
      assert cs == [cs[0]] + cs[1..];
      if cs[0] == cs[1] then MergeEqualNeighbours(cs[1..])
      else [cs[0]] + MergeEqualNeighbours(cs[1..])
  }

  predicate NonIncreasing(cs: seq<nat>) {
    forall i, j :: 0 <= i < j < |cs| ==> cs[i] >= cs[j]
  }

  lemma {:induction false} MergeEqualNeighboursDescends(cs: seq<nat>)
    requires NonIncreasing(cs)
    ensures StrictlyDescending(MergeEqualNeighbours(cs))
  {
    if |cs| > 1 {
      var tail := cs[1..];
      assert NonIncreasing(tail) by {
        forall i, j | 0 <= i < j < |tail|
          ensures tail[i] >= tail[j]
        {
          assert tail[i] == cs[i + 1] && tail[j] == cs[j + 1];
        }
      }
      MergeEqualNeighboursDescends(tail);
      var rest := MergeEqualNeighbours(tail);
      if cs[0] != cs[1] {
        forall v | v in rest
          ensures v < cs[0]
        {
          var i :| 0 <= i < |tail| && tail[i] == v;
          assert cs[i + 1] == v;
        }
        assert forall i :: 0 < i < |[cs[0]] + rest| ==> ([cs[0]] + rest)[i] in rest;
      }
    }
  }

  /** The counts of `s`, in order. */
  function CountsAlong(s: seq<int>, h: Histogram): (cs: seq<nat>)
    ensures |cs| == |s| && forall i :: 0 <= i < |s| ==> cs[i] == CountOf(h, s[i])
  {
    seq(|s|, i requires 0 <= i < |s| => CountOf(h, s[i]))
  }

  /** Keeps the elements of `s` whose count is one of `top`. */
  function KeepCounts(s: seq<int>, h: Histogram, top: seq<nat>): (r: seq<int>)
    ensures forall x :: x in r <==> x in s && CountOf(h, x) in top
  {
    if s == [] then []
    else
      assert s == [s[0]] + s[1..];
      (if CountOf(h, s[0]) in top then [s[0]] else []) + KeepCounts(s[1..], h, top)
  }

  lemma {:induction false} KeepCountsNoRepeats(s: seq<int>, h: Histogram, top: seq<nat>)
    requires NoRepeats(s)
    ensures NoRepeats(KeepCounts(s, h, top))
  {
    if s != [] {
      var rest := KeepCounts(s[1..], h, top);
      assert NoRepeats(s[1..]) by {
        assert forall i :: 0 <= i < |s[1..]| ==> s[1..][i] == s[i + 1];
      }
      KeepCountsNoRepeats(s[1..], h, top);
      if CountOf(h, s[0]) in top {
        assert forall i :: 0 <= i < |s[1..]| ==> s[1..][i] == s[i + 1];
        assert s[0] !in rest;
        assert forall i :: 0 < i < |[s[0]] + rest| ==> ([s[0]] + rest)[i] == rest[i - 1];
      }
    }
  }

  lemma {:induction false} KeepCountsDescends(s: seq<int>, h: Histogram, top: seq<nat>)
    requires ByCountDescending(s, h)
    ensures ByCountDescending(KeepCounts(s, h, top), h)
  {
    if s != [] {
      HeadHasLargestCount(s, h);
      KeepCountsDescends(s[1..], h, top);
      if CountOf(h, s[0]) in top {
        ConsByCount(s[0], KeepCounts(s[1..], h, top), h);
      }
    }
  }

  lemma {:induction false} KeepCountsByCount(s: seq<int>, h: Histogram, top: seq<nat>, c: nat)
    ensures WithCount(KeepCounts(s, h, top), h, c) == if c in top then WithCount(s, h, c) else []
  {
    if s != [] {
      var rest := KeepCounts(s[1..], h, top);
      KeepCountsByCount(s[1..], h, top, c);
      var head := if CountOf(h, s[0]) in top then [s[0]] else [];
      assert KeepCounts(s, h, top) == head + rest;
      WithCountConcat(head, rest, h, c);
      if head != [] {
        assert ([s[0]] + rest)[1..] == rest;
      }
    }
  }

  /** The distinct counts of a histogram. */
  function CountValues(h: Histogram): set<nat> {
    set k | k in h.keys :: CountOf(h, k)
  }

  /** How many distinct counts of `h` are larger than `c`. */
  function Rank(h: Histogram, c: nat): nat {
    |set v | v in CountValues(h) && v > c|
  }

  /** `sorted(set(counts), reverse=True)` */
  function DistinctCounts(h: Histogram): seq<nat> {
    MergeEqualNeighbours(CountsAlong(SortByCount(h.keys, h), h))
  }

  /** `[:3]` */
  function TopCounts(h: Histogram): seq<nat> {
    var d := DistinctCounts(h);
    d[..if |d| < 3 then |d| else 3]
  }

  /** The keys that form the note's new target list, in the order line 42
      produces them. */
  function SelectTopThree(h: Histogram): seq<int> {
    KeepCounts(SortByCount(h.keys, h), h, TopCounts(h))
  }

  lemma DistinctCountsProperties(h: Histogram)
    ensures StrictlyDescending(DistinctCounts(h))
    ensures forall v :: v in DistinctCounts(h) <==> v in CountValues(h)
  {
    var sorted := SortByCount(h.keys, h);
    var cs := CountsAlong(sorted, h);
    SortByCountIsStableSort(h.keys, h);
    MergeEqualNeighboursDescends(cs);
    SameMultisetSameElements(sorted, h.keys);
    forall v
      ensures v in cs <==> v in CountValues(h)
    {
      if v in cs {
        var i :| 0 <= i < |cs| && cs[i] == v;
        assert sorted[i] in h.keys;
      }
      if v in CountValues(h) {
        var k :| k in h.keys && CountOf(h, k) == v;
        var i :| 0 <= i < |sorted| && sorted[i] == k;
        assert cs[i] == v;
      }
    }
  }

  function Elements(s: seq<nat>): set<nat> {
    set v | v in s
  }

  lemma {:induction false} DistinctElementsCount(s: seq<nat>)
    requires StrictlyDescending(s)
    ensures |Elements(s)| == |s|
  {
    if s != [] {
      var p := s[..|s| - 1];
      DistinctElementsCount(p);
      assert Elements(s) == Elements(p) + {s[|s| - 1]};
      assert s[|s| - 1] !in Elements(p);
    }
  }

  /** In a strictly descending list the values above `s[i]` are exactly its
      first `i` entries; so a value is among the first three iff fewer than
      three values exceed it. */
  lemma PrefixOfDescending(s: seq<nat>, c: nat)
    requires StrictlyDescending(s)
    ensures c in s[..if |s| < 3 then |s| else 3] <==> c in s && |set v | v in s && v > c| < 3
  {
    if c in s {
      var i :| 0 <= i < |s| && s[i] == c;
      assert (set v | v in s && v > c) == Elements(s[..i]);
      DistinctElementsCount(s[..i]);
      if i < 3 {
        assert s[..if |s| < 3 then |s| else 3][i] == c;
      }
    }
  }

  /** A count survives the `[:3]` cut iff it occurs and fewer than three
      distinct counts are larger. */
  lemma TopCountsAreRankBelowThree(h: Histogram, c: nat)
    ensures c in TopCounts(h) <==> c in CountValues(h) && Rank(h, c) < 3
  {
    var d := DistinctCounts(h);
    DistinctCountsProperties(h);
    PrefixOfDescending(d, c);
    assert (set v | v in d && v > c) == (set v | v in CountValues(h) && v > c);
  }

  /** Lines 41-43: the new list holds exactly the keys whose count is among
      the three largest distinct counts, ties included. */
  lemma TopThreeMembers(h: Histogram)
    ensures forall k :: k in SelectTopThree(h) <==> k in h.keys && Rank(h, CountOf(h, k)) < 3
  {
    SortByCountPermutes(h.keys, h);
    SameMultisetSameElements(SortByCount(h.keys, h), h.keys);
    forall k
      ensures k in SelectTopThree(h) <==> k in h.keys && Rank(h, CountOf(h, k)) < 3
    {
      TopCountsAreRankBelowThree(h, CountOf(h, k));
    }
  }

  /** The new list has no repeated key, never increases in count, and lists
      keys of equal count in insertion (first-seen) order. */
  lemma TopThreeOrder(h: Histogram)
    requires NoRepeats(h.keys)
    ensures NoRepeats(SelectTopThree(h))
    ensures ByCountDescending(SelectTopThree(h), h)
    ensures forall c :: WithCount(SelectTopThree(h), h, c) == if Rank(h, c) < 3 then WithCount(h.keys, h, c) else []
  {
    var sorted := SortByCount(h.keys, h);
    var top := TopCounts(h);
    SortByCountIsStableSort(h.keys, h);
    NoRepeatsOfPermutation(h.keys, sorted);
    KeepCountsNoRepeats(sorted, h, top);
    KeepCountsDescends(sorted, h, top);
    forall c
      ensures WithCount(SelectTopThree(h), h, c) == if Rank(h, c) < 3 then WithCount(h.keys, h, c) else []
    {
      KeepCountsByCount(sorted, h, top, c);
      TopCountsAreRankBelowThree(h, c);
      if c !in top && Rank(h, c) < 3 {
        forall x | x in h.keys
          ensures CountOf(h, x) != c
        {
          assert CountOf(h, x) in CountValues(h);
        }
        WithCountOfNoSuchCount(h.keys, h, c);
      }
    }
  }

  /** No frequency above 1 in the window leaves the note with an empty list;
      any counted frequency leaves it with a non-empty one. */
  lemma TopThreeEmpty(h: Histogram)
    ensures SelectTopThree(h) == [] <==> h.keys == []
  {
    TopThreeMembers(h);
    if h.keys != [] {
      var k := h.keys[0];
      var sorted := SortByCount(h.keys, h);
      SortByCountIsStableSort(h.keys, h);
      SameMultisetSameElements(sorted, h.keys);
      var d := DistinctCounts(h);
      DistinctCountsProperties(h);
      assert sorted != [];
      assert d[0] == CountOf(h, sorted[0]);
      assert d[0] in TopCounts(h);
      assert sorted[0] in SelectTopThree(h);
    }
  }

  // ---------------------------------------------------------------------
  // The calibration run
  // ---------------------------------------------------------------------

  /** The first tick, below `limit`, on which Escape was pressed. */
  function FirstEscape(input: nat -> TickInput, limit: nat): (r: Option<nat>)
    ensures r.Some? ==> r.value < limit && input(r.value).escape &&
                        forall g :: 0 <= g < r.value ==> !input(g).escape
    ensures r.None? ==> forall g :: 0 <= g < limit ==> !input(g).escape
  {
    if limit == 0 then None
    else match FirstEscape(input, limit - 1)
      case Some(g) => Some(g)
      case None => if input(limit - 1).escape then Some(limit - 1) else None
  }

  /** The table a run without Escape leaves behind: every note keeps its name
      and gets the top-three keys of its own window. */
  function CalibratedNotes(table: seq<NoteEntry>, input: nat -> TickInput): (r: seq<NoteEntry>)
    ensures SameNames(r, table)
  {
    seq(|table|, n requires 0 <= n < |table| => NoteEntry(table[n].name, SelectTopThree(WindowHistogram(input, n))))
  }

  /** The note during whose forty ticks the first Escape of a run over
      `notes` notes came, if any. */
  function EscapeNote(input: nat -> TickInput, notes: nat): (r: Option<nat>)
    ensures r.Some? <==> FirstEscape(input, 40 * notes).Some?
    ensures r.Some? ==> r.value < notes && r.value == FirstEscape(input, 40 * notes).value / 40
  {
    match FirstEscape(input, 40 * notes)
    case None => None
    case Some(g) => Some(g / 40)
  }

  /** A run's outcome depends only on the sampled frequencies: two inputs
      that agree on every sampling tick calibrate identically. */
  lemma CalibrationReadsOnlySamples(table: seq<NoteEntry>, input: nat -> TickInput, other: nat -> TickInput)
    requires forall g :: 0 <= g < 40 * |table| && g % 40 < SamplingTicks ==>
               input(g).frequencies == other(g).frequencies
    ensures CalibratedNotes(table, input) == CalibratedNotes(table, other)
  {
    forall n | 0 <= n < |table|
      ensures WindowHistogram(input, n) == WindowHistogram(other, n)
    {
      WindowSamplesAgree(table, input, other, n);
      WindowReadsOnlySamplingTicks(input, other, 40 * n, SamplingTicks);
    }
  }

  lemma WindowSamplesAgree(table: seq<NoteEntry>, input: nat -> TickInput, other: nat -> TickInput, n: nat)
    requires n < |table|
    requires forall g :: 0 <= g < 40 * |table| && g % 40 < SamplingTicks ==>
               input(g).frequencies == other(g).frequencies
    ensures forall g :: 40 * n <= g < 40 * n + SamplingTicks ==> input(g).frequencies == other(g).frequencies
  {
    forall g | 40 * n <= g < 40 * n + SamplingTicks
      ensures input(g).frequencies == other(g).frequencies
    {
      TickOfNote(n, g - 40 * n);
    }
  }

  /** Counting one more tick extends the window's histogram. */
  lemma TallyOfNextTick(input: nat -> TickInput, start: nat, ticks: nat)
    ensures Tally(WindowKeys(input, start, ticks + 1)) ==
              AddAll(Tally(WindowKeys(input, start, ticks)), KeysOf(input(start + ticks).frequencies))
  {
    AddAllConcat(EmptyHistogram, WindowKeys(input, start, ticks), KeysOf(input(start + ticks).frequencies));
  }

  lemma AddAllOfSnoc(h: Histogram, ks: seq<int>, k: int)
    ensures AddAll(h, ks + [k]) == Add(AddAll(h, ks), k)
  {
    assert (ks + [k])[..|ks|] == ks;
  }

  /** Lines 32-34: counts one tick's frequencies into the histogram. */
  method CountFrequencies(buffer: Histogram, frequencies: seq<real>) returns (r: Histogram)
    ensures r == AddAll(buffer, KeysOf(frequencies))
  {
    r := buffer;
    for i := 0 to |frequencies|
      invariant r == AddAll(buffer, KeysOf(frequencies[..i]))
    {
      var frequency := frequencies[i];
      assert frequencies[..i + 1][..i] == frequencies[..i];
      assert KeysOf(frequencies[..i + 1]) ==
        KeysOf(frequencies[..i]) + (if frequency > 1.0 then [Truncate(frequency)] else []);
      if frequency > 1.0 {
        AddAllOfSnoc(buffer, KeysOf(frequencies[..i]), Truncate(frequency));
        r := Add(r, Truncate(frequency));
      } else {
        assert KeysOf(frequencies[..i]) + [] == KeysOf(frequencies[..i]);
      }
    }
    assert frequencies[..|frequencies|] == frequencies;
  }

  /** The table after the first `n` notes are calibrated. */
  function PartlyCalibrated(table: seq<NoteEntry>, input: nat -> TickInput, n: nat): seq<NoteEntry>
    requires n <= |table|
  {
    CalibratedNotes(table, input)[..n] + table[n..]
  }

  /** Line 41 for note `n` turns the partly calibrated table into the next one. */
  lemma CalibrationStep(table: seq<NoteEntry>, input: nat -> TickInput, n: nat)
    requires n < |table|
    ensures PartlyCalibrated(table, input, n)[n := NoteEntry(table[n].name, SelectTopThree(WindowHistogram(input, n)))]
            == PartlyCalibrated(table, input, n + 1)
  {
    var calibrated := CalibratedNotes(table, input);
    SpliceStep(calibrated, table, n, NoteEntry(table[n].name, SelectTopThree(WindowHistogram(input, n))));
  }

  /** Before the first note the table is untouched; after the last one it
      is fully calibrated. */
  lemma PartlyCalibratedEnds(table: seq<NoteEntry>, input: nat -> TickInput)
    ensures PartlyCalibrated(table, input, 0) == table
    ensures PartlyCalibrated(table, input, |table|) == CalibratedNotes(table, input)
  {
    SpliceEnds(CalibratedNotes(table, input), table);
  }

  /** A splice at the start is `t`; a splice at the end is `c`. */
  lemma SpliceEnds<T>(c: seq<T>, t: seq<T>)
    requires |c| == |t|
    ensures c[..0] + t[0..] == t
    ensures c[..|c|] + t[|t|..] == c
  {
  }

  /** Replacing entry `n` of `c[..n] + t[n..]` by `c[n]` moves the splice
      point one entry on. */
  lemma SpliceStep<T>(c: seq<T>, t: seq<T>, n: nat, e: T)
    requires n < |c| == |t| && c[n] == e
    ensures (c[..n] + t[n..])[n := e] == c[..n + 1] + t[n + 1..]
  {
    var a := (c[..n] + t[n..])[n := e];
    var b := c[..n + 1] + t[n + 1..];
    assert |a| == |b|;
    forall i | 0 <= i < |a|
      ensures a[i] == b[i]
    {
    }
  }

  /** No Escape was pressed on the ticks `from` to `to - 1`. */
  predicate NoEscapeBetween(input: nat -> TickInput, from: nat, to: nat) {
    forall g :: from <= g < to ==> !input(g).escape
  }

  lemma NoEscapeJoin(input: nat -> TickInput, a: nat, b: nat, c: nat)
    requires a <= b <= c && NoEscapeBetween(input, a, b) && NoEscapeBetween(input, b, c)
    ensures NoEscapeBetween(input, a, c)
  {
  }

  /** Escape at tick `g` after none before it is the run's first Escape. */
  lemma {:induction false} EscapeIsFirst(input: nat -> TickInput, g: nat, limit: nat)
    requires NoEscapeBetween(input, 0, g) && input(g).escape && g < limit
    ensures FirstEscape(input, limit) == Some(g)
  {
    if limit > g + 1 {
      EscapeIsFirst(input, g, limit - 1);
    } else {
      NoEscapeAtAll(input, g);
    }
  }

  lemma {:induction false} NoEscapeAtAll(input: nat -> TickInput, limit: nat)
    requires NoEscapeBetween(input, 0, limit)
    ensures FirstEscape(input, limit).None?
  {
    if limit > 0 {
      NoEscapeAtAll(input, limit - 1);
    }
  }

  /** An Escape on tick `g` of note `n`, with none before it, ends the run
      during note `n`. */
  lemma EscapeInNote(input: nat -> TickInput, notes: nat, n: nat, g: nat)
    requires n < notes && 40 * n <= g < 40 * n + 40
    requires NoEscapeBetween(input, 0, g) && input(g).escape
    ensures EscapeNote(input, notes) == Some(n)
  {
    EscapeIsFirst(input, g, 40 * notes);
    TickOfNote(n, g - 40 * n);
  }

  lemma NoEscapeInRun(input: nat -> TickInput, notes: nat)
    requires NoEscapeBetween(input, 0, 40 * notes)
    ensures EscapeNote(input, notes).None?
  {
    NoEscapeAtAll(input, 40 * notes);
  }

  lemma TickOfNote(n: nat, t: nat)
    requires t < 40
    ensures (40 * n + t) / 40 == n && (40 * n + t) % 40 == t
  {
  }

  // ---------------------------------------------------------------------
  // The reading shown on every sampling tick (lines 78-83)
  // ---------------------------------------------------------------------

  /** The exception `render_dynamic_elements` raises for one tick's
      frequencies while the table is `notes`, if any.  Line 80 divides by
      `len(current_frequencies)`; line 81 runs the note matcher on the table
      as it stands, and its `min([])` fails on a note without targets. */
  function DisplayError(notes: seq<NoteEntry>, frequencies: seq<real>): (r: Option<Error>)
    ensures r == Some(ZeroDivisionError) <==> frequencies == []
    ensures r == Some(ValueError) <==>
              frequencies != [] && 1.0 !in frequencies &&
              exists i :: 0 <= i < |notes| && notes[i].targets == []
    ensures r.None? || r == Some(ZeroDivisionError) || r == Some(ValueError)
  {
    if frequencies == [] then Some(ZeroDivisionError)
    else if 1.0 !in frequencies && !Audio.Weighable(notes, frequencies) then Some(ValueError)
    else None
  }

  /** Lines 80-81: the average of the tick's frequencies and the closest
      note in the current table.  Only whether they raise matters to the
      run; the text drawn from them is display only. */
  method ShowReading(notes: seq<NoteEntry>, frequencies: seq<real>, distance: Audio.Distance)
    returns (failure: Option<Error>)
    ensures failure == DisplayError(notes, frequencies)
  {
    if |frequencies| == 0 {
      // `sum([]) / len([])` is `0 / 0`
      return Some(ZeroDivisionError);
    }
    var closest := Audio.GetNoteFromFrequency(notes, frequencies, distance);
    if closest.Err? {
      return Some(closest.error);
    }
    return None;
  }

  // ---------------------------------------------------------------------
  // How a run ends
  // ---------------------------------------------------------------------

  /** The exception tick `t` of the window starting at `start` raises, if
      any (the source's `tick` is `t + 1`): only the 39 sampling ticks show
      a reading. */
  function StopCause(notes: seq<NoteEntry>, input: nat -> TickInput, start: nat, t: nat): Option<Error> {
    if t < SamplingTicks then DisplayError(notes, input(start + t).frequencies) else None
  }

  /** Tick `t` of the window ends the run: its reading raises, or Escape
      was pressed. */
  predicate Stops(notes: seq<NoteEntry>, input: nat -> TickInput, start: nat, t: nat) {
    StopCause(notes, input, start, t).Some? || input(start + t).escape
  }

  /** None of the window's first `t` ticks ends the run. */
  predicate RunsThrough(notes: seq<NoteEntry>, input: nat -> TickInput, start: nat, t: nat) {
    forall u :: 0 <= u < t ==> !Stops(notes, input, start, u)
  }

  /** The first of the window's first `limit` ticks that ends the run. */
  function FirstStop(notes: seq<NoteEntry>, input: nat -> TickInput, start: nat, limit: nat): (r: Option<nat>)
    ensures r.Some? ==> r.value < limit && Stops(notes, input, start, r.value) &&
                        RunsThrough(notes, input, start, r.value)
    ensures r.None? ==> RunsThrough(notes, input, start, limit)
  {
    if limit == 0 then None
    else match FirstStop(notes, input, start, limit - 1)
      case Some(t) => Some(t)
      case None => if Stops(notes, input, start, limit - 1) then Some(limit - 1) else None
  }

  /** A tick that ends the run with none before it is the first. */
  lemma FirstStopIsFirst(notes: seq<NoteEntry>, input: nat -> TickInput, start: nat, limit: nat, t: nat)
    requires t < limit && Stops(notes, input, start, t) && RunsThrough(notes, input, start, t)
    ensures FirstStop(notes, input, start, limit) == Some(t)
  {
  }

  /** A run calibrates every note, is cancelled by Escape during a note, or
      raises an exception during a note. */
  datatype RunEnd = Completed | Cancelled(note: nat) | Crashed(note: nat, error: Error)

  /** How a run over `table` that has calibrated its first `n` notes ends:
      note `n` is played against the partly calibrated table. */
  function RunFrom(table: seq<NoteEntry>, input: nat -> TickInput, n: nat): (r: RunEnd)
    requires n <= |table|
    ensures !r.Completed? ==> n <= r.note < |table|
    decreases |table| - n
  {
    if n == |table| then Completed
    else
      var notes := PartlyCalibrated(table, input, n);
      match FirstStop(notes, input, 40 * n, TicksPerNote)
      case None => RunFrom(table, input, n + 1)
      case Some(t) =>
        match StopCause(notes, input, 40 * n, t)
        case Some(e) => Crashed(n, e)
        case None => Cancelled(n)
  }

  /** How `run_calibration` over `table` ends. */
  function RunEnding(table: seq<NoteEntry>, input: nat -> TickInput): RunEnd {
    RunFrom(table, input, 0)
  }

  /** Tick `t` of note `m`'s window, played against the table as it stands
      then, ends the run. */
  predicate TickStops(table: seq<NoteEntry>, input: nat -> TickInput, m: nat, t: nat)
    requires m < |table|
  {
    Stops(PartlyCalibrated(table, input, m), input, 40 * m, t)
  }

  /** The exception tick `t` of note `m`'s window raises, if any. */
  function TickCause(table: seq<NoteEntry>, input: nat -> TickInput, m: nat, t: nat): Option<Error>
    requires m < |table|
  {
    StopCause(PartlyCalibrated(table, input, m), input, 40 * m, t)
  }

  /** A tick of note `m` that ends the run makes it end, by Escape or an
      exception, during note `m` or earlier. */
  lemma {:induction false} StopEndsRunBy(table: seq<NoteEntry>, input: nat -> TickInput, n: nat, m: nat, t: nat)
    requires n <= m < |table| && t < TicksPerNote && TickStops(table, input, m, t)
    ensures !RunFrom(table, input, n).Completed? && RunFrom(table, input, n).note <= m
    decreases m - n
  {
    var notes := PartlyCalibrated(table, input, n);
    if FirstStop(notes, input, 40 * n, TicksPerNote).None? && n < m {
      StopEndsRunBy(table, input, n + 1, m, t);
    }
  }

  /** A run completes exactly when no tick of any note ends it. */
  lemma {:induction false} RunFromCompleted(table: seq<NoteEntry>, input: nat -> TickInput, n: nat)
    requires n <= |table|
    ensures RunFrom(table, input, n).Completed? <==>
              forall m, t :: n <= m < |table| && 0 <= t < TicksPerNote ==> !TickStops(table, input, m, t)
    decreases |table| - n
  {
    if n < |table| {
      RunFromCompleted(table, input, n + 1);
      var first := FirstStop(PartlyCalibrated(table, input, n), input, 40 * n, TicksPerNote);
      assert first.Some? ==> TickStops(table, input, n, first.value);
      forall m, t | n <= m < |table| && 0 <= t < TicksPerNote && TickStops(table, input, m, t)
        ensures !RunFrom(table, input, n).Completed?
      {
        StopEndsRunBy(table, input, n, m, t);
      }
    }
  }

  /** A note whose window counted no frequency above 1 is left without
      targets (lines 39-43); on any later sampling tick that hears something
      other than the rest marker, the matcher's `min([])` raises, so the run
      cannot complete and ends by that tick's note at the latest. */
  lemma SilentNoteStopsRun(table: seq<NoteEntry>, input: nat -> TickInput, n: nat, m: nat, t: nat)
    requires n < m < |table| && t < SamplingTicks
    requires WindowKeys(input, 40 * n, SamplingTicks) == []
    requires input(40 * m + t).frequencies != [] && 1.0 !in input(40 * m + t).frequencies
    ensures TickCause(table, input, m, t) == Some(ValueError)
    ensures !RunEnding(table, input).Completed? && RunEnding(table, input).note <= m
  {
    TopThreeEmpty(WindowHistogram(input, n));
    var notes := PartlyCalibrated(table, input, m);
    assert notes[n].targets == [];
    assert DisplayError(notes, input(40 * m + t).frequencies) == Some(ValueError);
    StopEndsRunBy(table, input, 0, m, t);
  }

  /** A sampling tick that detects nothing raises ZeroDivisionError at
      line 80, so the run ends by that tick's note at the latest. */
  lemma EmptyReadingStopsRun(table: seq<NoteEntry>, input: nat -> TickInput, m: nat, t: nat)
    requires m < |table| && t < SamplingTicks && input(40 * m + t).frequencies == []
    ensures TickCause(table, input, m, t) == Some(ZeroDivisionError)
    ensures !RunEnding(table, input).Completed? && RunEnding(table, input).note <= m
  {
    StopEndsRunBy(table, input, 0, m, t);
  }

  /** When no reading raises, Escape alone decides the run: it completes
      without Escape, and is cancelled in the note of the first Escape. */
  lemma {:induction false} CleanRunFollowsEscape(table: seq<NoteEntry>, input: nat -> TickInput, n: nat)
    requires n <= |table| && NoEscapeBetween(input, 0, 40 * n)
    requires forall m, t :: n <= m < |table| && 0 <= t < SamplingTicks ==> TickCause(table, input, m, t).None?
    ensures RunFrom(table, input, n) ==
              match EscapeNote(input, |table|)
              case None => Completed
              case Some(k) => Cancelled(k)
    decreases |table| - n
  {
    if n == |table| {
      NoEscapeInRun(input, |table|);
    } else {
      var notes := PartlyCalibrated(table, input, n);
      var start := 40 * n;
      match FirstStop(notes, input, start, TicksPerNote)
      case None =>
        forall g | start <= g < start + TicksPerNote
          ensures !input(g).escape
        {
          assert !Stops(notes, input, start, g - start);
        }
        NoEscapeJoin(input, 0, start, 40 * (n + 1));
        CleanRunFollowsEscape(table, input, n + 1);
      case Some(t) =>
        assert TickCause(table, input, n, t).None?;
        forall g | start <= g < start + t
          ensures !input(g).escape
        {
          assert !Stops(notes, input, start, g - start);
        }
        NoEscapeJoin(input, 0, start, start + t);
        EscapeInNote(input, |table|, n, start + t);
    }
  }

  class Calibrate {
    const application: Application
    /** `self.current_note`: the name of the note being calibrated. */
    var currentNote: Option<string>

    constructor (application: Application)
      ensures this.application == application && currentNote == None
    {
      this.application := application;
      currentNote := None;
    }

    /** `run_calibration`, with `distance` the matcher's octave distance.
        On Escape the default table is restored and on completion every note
        has its calibrated targets; both end on the options screen.  An
        exception from the reading shown on a sampling tick propagates,
        leaving the notes calibrated so far and the screen as they were. */
    method RunCalibration(input: nat -> TickInput, distance: Audio.Distance) returns (r: Outcome)
      requires application.Valid()
      modifies this`currentNote, application`notes, application`currentScreen
      ensures application.Valid()
      ensures r.Pass? <==> !RunEnding(old(application.notes), input).Crashed?
      ensures r.Fail? ==> r.error == RunEnding(old(application.notes), input).error
      ensures RunEnding(old(application.notes), input).Completed? ==>
                application.notes == CalibratedNotes(old(application.notes), input) &&
                application.currentScreen == Some("options")
      ensures RunEnding(old(application.notes), input).Completed? && old(application.notes) != [] ==>
                currentNote == Some(old(application.notes)[|old(application.notes)| - 1].name)
      ensures RunEnding(old(application.notes), input).Cancelled? ==>
                application.notes == application.defaultNotes &&
                application.currentScreen == Some("options") &&
                currentNote == Some(old(application.notes)[RunEnding(old(application.notes), input).note].name)
      ensures RunEnding(old(application.notes), input).Crashed? ==>
                application.notes == PartlyCalibrated(old(application.notes), input, RunEnding(old(application.notes), input).note) &&
                application.currentScreen == old(application.currentScreen) &&
                currentNote == Some(old(application.notes)[RunEnding(old(application.notes), input).note].name)
    {
      var table := application.notes;
      var end := CalibrateNotes(table, input, distance);
      assert end == RunEnding(table, input);
      match end {
        case Completed =>
          var _ := application.SetScreen("options");
          r := Pass;
        case Cancelled(_) =>
          r := Pass;
        case Crashed(_, error) =>
          r := Fail(error);
      }
    }

    /** The `for` loop of `run_calibration` over the table `table`. */
    method CalibrateNotes(table: seq<NoteEntry>, input: nat -> TickInput, distance: Audio.Distance) returns (end: RunEnd)
      requires application.NotesValid() && application.notes == table
      modifies this`currentNote, application`notes, application`currentScreen
      ensures application.NotesValid()
      ensures end == RunEnding(table, input)
      ensures end.Completed? ==>
                application.notes == CalibratedNotes(table, input) &&
                application.currentScreen == old(application.currentScreen) &&
                (table != [] ==> currentNote == Some(table[|table| - 1].name))
      ensures end.Cancelled? ==>
                application.notes == application.defaultNotes &&
                application.currentScreen == Some("options") &&
                currentNote == Some(table[end.note].name)
      ensures end.Crashed? ==>
                application.notes == PartlyCalibrated(table, input, end.note) &&
                application.currentScreen == old(application.currentScreen) &&
                currentNote == Some(table[end.note].name)
    {
      PartlyCalibratedEnds(table, input);
      var n := 0;
      while n < |table|
        invariant 0 <= n <= |table|
        invariant application.NotesValid()
        invariant application.notes == PartlyCalibrated(table, input, n)
        invariant RunFrom(table, input, n) == RunEnding(table, input)
        invariant application.currentScreen == old(application.currentScreen)
        invariant n > 0 ==> currentNote == Some(table[n - 1].name)
      {
        var stop := CalibrateNote(table, input, n, distance);
        if stop.Some? {
          return stop.value;
        }
        n := n + 1;
      }
      return Completed;
    }

    /** One pass of the loop over the table: note `table[n]` gets its 40
        ticks.  `None` means the run goes on to the next note; otherwise the
        run ends here, by Escape or by an exception. */
    method CalibrateNote(table: seq<NoteEntry>, input: nat -> TickInput, n: nat, distance: Audio.Distance)
      returns (stop: Option<RunEnd>)
      requires n < |table| && application.NotesValid()
      requires application.notes == PartlyCalibrated(table, input, n)
      modifies this`currentNote, application`notes, application`currentScreen
      ensures application.NotesValid() && currentNote == Some(table[n].name)
      ensures stop.Some? ==> stop.value == RunFrom(table, input, n) && !stop.value.Completed? && stop.value.note == n
      ensures stop.Some? && stop.value.Cancelled? ==>
                application.notes == application.defaultNotes &&
                application.currentScreen == Some("options")
      ensures stop.Some? && stop.value.Crashed? ==>
                application.notes == old(application.notes) &&
                application.currentScreen == old(application.currentScreen)
      ensures stop.None? ==>
                RunFrom(table, input, n) == RunFrom(table, input, n + 1) &&
                application.notes == PartlyCalibrated(table, input, n + 1) &&
                application.currentScreen == old(application.currentScreen)
    {
      currentNote := Some(table[n].name);
      var notes := application.notes;
      var start := 40 * n;
      var targets, tick, failure := CaptureNote(notes, input, start, distance);
      if tick.Some? {
        FirstStopIsFirst(notes, input, start, TicksPerNote, tick.value);
        if failure.Some? {
          return Some(Crashed(n, failure.value));
        }
        Cancel();
        return Some(Cancelled(n));
      }
      CalibrationStep(table, input, n);
      application.notes := application.notes[n := NoteEntry(table[n].name, targets)];
      return None;
    }

    /** Lines 50-52: Escape restores the default table and leaves for the
        options screen. */
    method Cancel()
      modifies application`notes, application`currentScreen
      ensures application.NotesValid()
      ensures application.notes == application.defaultNotes && application.currentScreen == Some("options")
    {
      application.ResetNotes();
      var _ := application.SetScreen("options");
    }
  }

  /** The `while buffering` loop for the note whose ticks start at `start`,
      played against the table `notes`: 39 sampling ticks, then the
      aggregation tick (lines 36-43), each followed by the Escape check.  It
      yields the note's new targets, or the tick that ended the run and the
      exception it raised, if any. */
  method CaptureNote(notes: seq<NoteEntry>, input: nat -> TickInput, start: nat, distance: Audio.Distance)
    returns (targets: seq<int>, tick: Option<nat>, failure: Option<Error>)
    ensures tick.Some? ==>
              tick.value < TicksPerNote && Stops(notes, input, start, tick.value) &&
              RunsThrough(notes, input, start, tick.value)
    ensures failure == if tick.Some? then StopCause(notes, input, start, tick.value) else None
    ensures tick.None? ==>
              RunsThrough(notes, input, start, TicksPerNote) &&
              targets == SelectTopThree(Tally(WindowKeys(input, start, SamplingTicks)))
  {
    var buffer;
    buffer, tick, failure := CountWindow(notes, input, start, distance);
    if tick.Some? {
      return [], tick, failure;
    }
    targets := SelectTopThree(buffer);
    if input(start + SamplingTicks).escape {
      return targets, Some(SamplingTicks), None;
    }
  }

  /** Ticks 1 to 39 of the `while buffering` loop (lines 26-34), each
      followed by the Escape check.  It yields the histogram, or the tick
      that ended the run and the exception it raised, if any. */
  method CountWindow(notes: seq<NoteEntry>, input: nat -> TickInput, start: nat, distance: Audio.Distance)
    returns (buffer: Histogram, tick: Option<nat>, failure: Option<Error>)
    ensures tick.Some? ==>
              tick.value < SamplingTicks && Stops(notes, input, start, tick.value) &&
              RunsThrough(notes, input, start, tick.value)
    ensures failure == if tick.Some? then StopCause(notes, input, start, tick.value) else None
    ensures tick.None? ==>
              RunsThrough(notes, input, start, SamplingTicks) &&
              buffer == Tally(WindowKeys(input, start, SamplingTicks))
  {
    buffer := EmptyHistogram;
    tick := None;
    failure := None;
    var t := 0;
    while t < SamplingTicks
      invariant 0 <= t <= SamplingTicks
      invariant buffer == Tally(WindowKeys(input, start, t))
      invariant RunsThrough(notes, input, start, t)
      invariant failure.None?
    {
      var next, pressed;
      next, failure, pressed := SampleTick(notes, input, start, t, buffer, distance);
      if failure.Some? || pressed {
        tick := Some(t);
        return;
      }
      buffer := next;
      t := t + 1;
    }
  }

  /** One sampling tick: the reading (lines 28-29), the counting (lines
      32-34) and the Escape check (lines 45-52).  A reading that raises
      ends the tick at once. */
  method SampleTick(notes: seq<NoteEntry>, input: nat -> TickInput, start: nat, t: nat, buffer: Histogram, distance: Audio.Distance)
    returns (next: Histogram, failure: Option<Error>, pressed: bool)
    requires t < SamplingTicks
    requires buffer == Tally(WindowKeys(input, start, t))
    ensures failure == StopCause(notes, input, start, t)
    ensures failure.None? ==>
              next == Tally(WindowKeys(input, start, t + 1)) && pressed == input(start + t).escape
  {
    var current := input(start + t);
    failure := ShowReading(notes, current.frequencies, distance);
    if failure.Some? {
      return buffer, failure, false;
    }
    next := CountFrequencies(buffer, current.frequencies);
    TallyOfNextTick(input, start, t);
    pressed := current.escape;
  }
}
