/** The signal-analysis part of `AudioManager` (audio/audio_manager.py):
    framing, the bin-mapping and arg-max step of the dominant-frequency
    search, the round/unique aggregation and the note matcher.

    The numerical kernels are parameters the model does not interpret:
    `analyse` stands for the Hamming window followed by `np.fft.rfft` and the
    magnitude/power scaling, and `distance` for the sine/logarithm octave
    distance. */
module Audio {
  import opened Wrappers
  import opened Numerics
  import opened ReferenceTable

  // ---------------------------------------------------------------------
  // Framing (`_framing`)
  // ---------------------------------------------------------------------

  /** `int(.025 * rate)`: samples in one frame. */
  function FrameLength(rate: nat): nat {
    rate * 25 / 1000
  }

  /** `int(.01 * rate)`: samples between the starts of two frames. */
  function FrameStep(rate: nat): nat {
    rate / 100
  }

  function Dist(a: int, b: int): nat {
    if a >= b then a - b else b - a
  }

  /** `int(np.ceil(abs(n - len) / step))`, as integer ceiling division. */
  function FrameCount(n: nat, len: nat, step: nat): nat
    requires step > 0
  {
    (Dist(n, len) + step - 1) / step
  }

  /** FrameCount is the least multiple of `step` that covers |n - len|. */
  lemma FrameCountIsCeiling(n: nat, len: nat, step: nat)
    requires step > 0
    ensures FrameCount(n, len, step) * step >= Dist(n, len)
    ensures FrameCount(n, len, step) > 0 ==> (FrameCount(n, len, step) - 1) * step < Dist(n, len)
    ensures FrameCount(n, len, step) == 0 <==> n == len
  {
    var d := Dist(n, len);
    var q, r := (d + step - 1) / step, (d + step - 1) % step;
    assert d + step - 1 == q * step + r && 0 <= r < step;
    assert q * step >= d;
    assert q > 0 ==> (q - 1) * step == q * step - step;
  }

  /** The padded signal, `k * step + len` samples long, is never shorter than
      the signal itself, so `np.zeros` gets a non-negative length. */
  lemma PaddingNonNegative(n: nat, len: nat, step: nat)
    requires step > 0
    ensures FrameCount(n, len, step) * step + len >= n
  {
    FrameCountIsCeiling(n, len, step);
  }

  /** Every index `i * step + j` of a frame lies inside the padded signal. */
  lemma FrameIndexInBounds(i: nat, j: nat, k: nat, step: nat, len: nat)
    requires i < k && j < len
    ensures i * step + j < k * step + len
  {
    assert i * step <= (k - 1) * step;
    assert (k - 1) * step == k * step - step;
  }

  function Zeros(n: nat): (z: seq<int>)
    ensures |z| == n && forall i :: 0 <= i < n ==> z[i] == 0
  {
    seq(n, _ => 0)
  }

  /** What `_framing` returns: the frames, row by row, and the frame length. */
  datatype Framed = Framed(frames: seq<seq<int>>, frameLength: nat)

  /** The `k` rows of `len` samples that start every `step` samples of
      `padded`: `padded[indices]` with `indices[i][j] == i * step + j`. */
  function FrameRows(padded: seq<int>, k: nat, step: nat, len: nat): (rows: seq<seq<int>>)
    requires |padded| == k * step + len
    ensures |rows| == k
    ensures forall i :: 0 <= i < k ==> |rows[i]| == len
    ensures forall i, j :: 0 <= i < k && 0 <= j < len ==> rows[i][j] == padded[i * step + j]
  {
    seq(k, i requires 0 <= i < k =>
      seq(len, j requires 0 <= j < len =>
        FrameIndexInBounds(i, j, k, step, len);
        padded[i * step + j]))
  }

  /** The frames of `data` for a given frame length and a positive step:
      the signal zero-padded to `k * step + len` samples, cut into `k` rows. */
  function FramesOf(data: seq<int>, len: nat, step: nat): (frames: seq<seq<int>>)
    requires step > 0
    ensures |frames| == FrameCount(|data|, len, step)
    ensures forall i :: 0 <= i < |frames| ==> |frames[i]| == len
    ensures forall i, j :: 0 <= i < |frames| && 0 <= j < len ==>
              frames[i][j] == if i * step + j < |data| then data[i * step + j] else 0
  {
    var k := FrameCount(|data|, len, step);
    PaddingNonNegative(|data|, len, step);
    var padded := data + Zeros(k * step + len - |data|);
    assert forall x :: 0 <= x < |padded| ==> padded[x] == if x < |data| then data[x] else 0;
    FrameRows(padded, k, step, len)
  }

  /** `_framing(data)` at sample rate `rate`.  Line 67 divides by the frame
      step, so a rate below 100 raises ZeroDivisionError. */
  function Framing(data: seq<int>, rate: nat): (r: Result<Framed>)
    ensures r.Err? <==> FrameStep(rate) == 0
    ensures r.Err? ==> r.error == ZeroDivisionError
  {
    if FrameStep(rate) == 0 then Err(ZeroDivisionError)
    else Ok(Framed(FramesOf(data, FrameLength(rate), FrameStep(rate)), FrameLength(rate)))
  }

  /** Framing yields at least one frame unless the signal is exactly one
      frame long (the comment on line 66 promises "at least one frame"; the
      ceiling of 0 is 0). */
  lemma FramingFrameCount(data: seq<int>, rate: nat)
    requires FrameStep(rate) > 0
    ensures Framing(data, rate).Ok?
    ensures |Framing(data, rate).value.frames| == 0 <==> |data| == FrameLength(rate)
  {
    FrameCountIsCeiling(|data|, FrameLength(rate), FrameStep(rate));
  }

  /** A signal shorter than one frame still yields a zero-padded frame. */
  lemma {:induction false} ShortSignalIsPadded(data: seq<int>, rate: nat)
    requires FrameStep(rate) > 0 && |data| < FrameLength(rate)
    ensures |Framing(data, rate).value.frames| >= 1
    ensures forall j :: |data| <= j < FrameLength(rate) ==> Framing(data, rate).value.frames[0][j] == 0
  {
    FramingFrameCount(data, rate);
  }

  // ---------------------------------------------------------------------
  // Dominant frequency of one frame (`_get_dominant_frequency`)
  // ---------------------------------------------------------------------

  /** `nfft = 2**14` */
  const Nfft: nat := 16384

  /** Length of `np.fft.rfft(frame, nfft)`: `nfft // 2 + 1`. */
  const SpectrumLength: nat := Nfft / 2 + 1

  /** Number of non-negative entries of `np.fft.fftfreq(SpectrumLength, d)`. */
  const NonNegativeBins: nat := (SpectrumLength - 1) / 2 + 1

  /** A power spectrum as line 101 computes it: one non-negative value per
      `rfft` bin. */
  type PowerSpectrum = s: seq<real> | |s| == SpectrumLength && forall k :: 0 <= k < |s| ==> 0.0 <= s[k]
    witness seq(SpectrumLength, _ => 0.0)

  /** `np.fft.fftfreq(n, 1 / rate)`: bin `i` is `i * rate / n` for the first
      `(n - 1) // 2 + 1` bins and `(i - n) * rate / n` after them. */
  function FftFreq(n: nat, rate: nat): seq<real>
    requires n > 0
  {
    seq(n, i requires 0 <= i < n =>
      (if i < (n - 1) / 2 + 1 then i else i - n) as real * rate as real / n as real)
  }

  /** `s[np.where(s >= 0)]`: the non-negative entries, in order. */
  function NonNegative(s: seq<real>): seq<real> {
    if s == [] then [] else (if s[0] >= 0.0 then [s[0]] else []) + NonNegative(s[1..])
  }

  /** Filtering a sequence that is non-negative up to `m` and negative after
      it keeps exactly its first `m` entries. */
  lemma {:induction false} NonNegativeOfSplit(s: seq<real>, m: nat)
    requires m <= |s|
    requires forall i :: 0 <= i < m ==> s[i] >= 0.0
    requires forall i :: m <= i < |s| ==> s[i] < 0.0
    ensures NonNegative(s) == s[..m]
  {
    if s != [] {
      if m > 0 {
        NonNegativeOfSplit(s[1..], m - 1);
        assert s[..m] == [s[0]] + s[1..][..m - 1];
      } else {
        NonNegativeOfSplit(s[1..], 0);
      }
    }
  }

  /** `freq // 2 + 1` */
  function HalvePlusOne(f: real): real {
    (f / 2.0).Floor as real + 1.0
  }

  /** Line 107: the mapped frequencies of the non-negative bins. */
  function MappedBins(rate: nat): seq<real> {
    var freqs := NonNegative(FftFreq(SpectrumLength, rate));
    seq(|freqs|, i requires 0 <= i < |freqs| => HalvePlusOne(freqs[i]))
  }

  /** Closed form of the bin mapping: bin `i` maps to
      `i * rate // (2 * SpectrumLength) + 1`. */
  function BinFrequency(i: nat, rate: nat): real {
    ((i * rate) / (2 * SpectrumLength) + 1) as real
  }

  /** A bin after the first `NonNegativeBins` has a negative frequency. */
  lemma NegativeBin(i: nat, rate: nat)
    requires NonNegativeBins <= i < SpectrumLength && rate > 0
    ensures FftFreq(SpectrumLength, rate)[i] < 0.0
  {
    var d := (i - SpectrumLength) as real;
    var p := d * rate as real;
    assert d <= -1.0;
    assert p <= -(rate as real);
    assert FftFreq(SpectrumLength, rate)[i] == p / SpectrumLength as real;
  }

  /** Halving a quotient doubles its divisor. */
  lemma HalfOfQuotient(a: real, b: real)
    requires b > 0.0
    ensures (a / b) / 2.0 == a / (2.0 * b)
  {
  }

  /** One of the first `NonNegativeBins` bins: non-negative, and mapped to
      its closed form. */
  lemma MappedBin(i: nat, rate: nat)
    requires i < NonNegativeBins
    ensures FftFreq(SpectrumLength, rate)[i] >= 0.0
    ensures HalvePlusOne(FftFreq(SpectrumLength, rate)[i]) == BinFrequency(i, rate)
  {
    var n := SpectrumLength;
    var a := i * rate;
    assert i as real * rate as real == a as real;
    assert FftFreq(n, rate)[i] == a as real / n as real;
    HalfOfQuotient(a as real, n as real);
    assert 2.0 * n as real == (2 * n) as real;
    FloorOfQuotient(a, 2 * n);
  }

  /** At a positive rate the filter keeps the first `NonNegativeBins` bins,
      and each maps to its closed form. */
  lemma MappedBinsClosedForm(rate: nat)
    requires rate > 0
    ensures |MappedBins(rate)| == NonNegativeBins
    ensures forall i :: 0 <= i < NonNegativeBins ==> MappedBins(rate)[i] == BinFrequency(i, rate)
  {
    var all := FftFreq(SpectrumLength, rate);
    forall i | NonNegativeBins <= i < SpectrumLength
      ensures all[i] < 0.0
    {
      NegativeBin(i, rate);
    }
    forall i | 0 <= i < NonNegativeBins
      ensures all[i] >= 0.0
    {
      MappedBin(i, rate);
    }
    NonNegativeOfSplit(all, NonNegativeBins);
    forall i | 0 <= i < NonNegativeBins
      ensures MappedBins(rate)[i] == BinFrequency(i, rate)
    {
      MappedBin(i, rate);
    }
  }

  /** A first index of the maximum of `s`. */
  predicate IsFirstPeak(s: seq<real>, k: nat) {
    k < |s| && (forall j :: 0 <= j < |s| ==> s[j] <= s[k]) && (forall j :: 0 <= j < k ==> s[j] < s[k])
  }

  /** `np.argmax(s)`: the first index of the maximum. */
  function FirstArgMax(s: seq<real>): (k: nat)
    requires s != []
    ensures IsFirstPeak(s, k)
  {
    if |s| == 1 then 0
    else
      var k := FirstArgMax(s[..|s| - 1]);
      if s[|s| - 1] > s[k] then |s| - 1 else k
  }

  /** `_get_dominant_frequency(frame)`: the power spectrum is truncated to the
      non-negative bins and the mapped frequency at its first peak is
      returned.  The result is a whole number of at least 1. */
  function DominantFrequency(frame: seq<int>, rate: nat, analyse: seq<int> -> PowerSpectrum): (r: real)
    requires rate > 0
    ensures r == BinFrequency(FirstArgMax(analyse(frame)[..NonNegativeBins]), rate)
    ensures 1.0 <= r && r == r.Floor as real
  {
    MappedBinsClosedForm(rate);
    var frequencies := MappedBins(rate);
    var k := FirstArgMax(analyse(frame)[..|frequencies|]);
    BinIsWhole(k, rate);
    frequencies[k]
  }

  lemma BinIsWhole(i: nat, rate: nat)
    ensures 1.0 <= BinFrequency(i, rate) && BinFrequency(i, rate) == BinFrequency(i, rate).Floor as real
  {
  }

  // ---------------------------------------------------------------------
  // Aggregation (`get_dominant_frequencies`)
  // ---------------------------------------------------------------------

  /** `np.round(x, 3)`, which NumPy computes as `rint(x * 1000) / 1000`. */
  function Round3(x: real): real {
    RoundHalfEven(x * 1000.0) as real / 1000.0
  }

  /** Rounding to three decimals leaves a whole number unchanged, so line 153
      has no effect on the mapped bin frequencies. */
  lemma Round3OfWhole(x: real)
    requires x == x.Floor as real
    ensures Round3(x) == x
  {
    var n := x.Floor;
    assert x * 1000.0 == (n * 1000) as real;
    RoundHalfEvenOfWhole(n * 1000);
  }

  predicate StrictlyIncreasing(s: seq<real>) {
    forall i, j :: 0 <= i < j < |s| ==> s[i] < s[j]
  }

  /** A head below every element of an increasing tail keeps it increasing. */
  lemma ConsIncreasing(h: real, t: seq<real>)
    requires StrictlyIncreasing(t) && forall y :: y in t ==> h < y
    ensures StrictlyIncreasing([h] + t)
  {
    var r := [h] + t;
    forall i, j | 0 <= i < j < |r|
      ensures r[i] < r[j]
    {
      assert r[j] == t[j - 1] && r[j] in t;
      if i > 0 {
        assert r[i] == t[i - 1];
      }
    }
  }

  /** Adds `x` to a strictly increasing sequence unless it is already there. */
  function InsertSorted(x: real, s: seq<real>): (r: seq<real>)
    requires StrictlyIncreasing(s)
    ensures StrictlyIncreasing(r)
    ensures forall y :: y in r <==> y == x || y in s
  {
    if s == [] then [x]
    else if x < s[0] then [x] + s
    else if x == s[0] then s
    else
      var rest := InsertSorted(x, s[1..]);
      assert forall y :: y in s[1..] ==> s[0] < y;
      assert forall y :: y in s <==> y == s[0] || y in s[1..];
      ConsIncreasing(s[0], rest);
      [s[0]] + rest
  }

  /** `np.unique(s)`: the distinct values of `s` in ascending order. */
  function Unique(s: seq<real>): (r: seq<real>)
    ensures StrictlyIncreasing(r)
    ensures forall y :: y in r <==> y in s
  {
    if s == [] then [] else InsertSorted(s[0], Unique(s[1..]))
  }

  /** A strictly increasing sequence is determined by its elements, so
      `Unique` is the only ascending duplicate-free listing of them. */
  lemma {:induction false} StrictlyIncreasingIsDeterminedByElements(a: seq<real>, b: seq<real>)
    requires StrictlyIncreasing(a) && StrictlyIncreasing(b)
    requires forall y :: y in a <==> y in b
    ensures a == b
  {
    if a == [] {
      if b != [] {
        HeadIsElement(b);
        assert false;
      }
    } else {
      assert a[0] in a && a[0] in b;
      assert b != [];
      assert b[0] in b && b[0] in a;
      assert a[0] <= b[0];
      assert b[0] <= a[0];
      forall y
        ensures y in a[1..] <==> y in b[1..]
      {
        if y in a[1..] { assert a[0] < y; assert y in b; }
        if y in b[1..] { assert b[0] < y; assert y in a; }
      }
      StrictlyIncreasingIsDeterminedByElements(a[1..], b[1..]);
      assert a == [a[0]] + a[1..] && b == [b[0]] + b[1..];
    }
  }

  lemma HeadIsElement(s: seq<real>)
    ensures s != [] ==> s[0] in s
  {
  }

  /** The rounded dominant frequency of every frame, in frame order. */
  function PerFrame(frames: seq<seq<int>>, rate: nat, analyse: seq<int> -> PowerSpectrum): (fs: seq<real>)
    requires rate > 0
    ensures |fs| == |frames|
  {
    seq(|frames|, i requires 0 <= i < |frames| => Round3(DominantFrequency(frames[i], rate, analyse)))
  }

  /** `get_dominant_frequencies()` on the buffer the last capture stored
      (`None` before any capture) at the rate it reported. */
  function GetDominantFrequencies(buffer: Option<seq<int>>, rate: nat, analyse: seq<int> -> PowerSpectrum)
    : (r: Result<seq<real>>)
    ensures buffer.None? ==> r == Err(ValueError)
    ensures buffer.Some? ==> (r.Err? <==> FrameStep(rate) == 0)
    ensures buffer.Some? && r.Err? ==> r.error == ZeroDivisionError
    ensures r.Ok? ==> StrictlyIncreasing(r.value)
  {
    if buffer.None? then Err(ValueError)
    else match Framing(buffer.value, rate)
      case Err(e) => Err(e)
      case Ok(framed) => Ok(Unique(PerFrame(framed.frames, rate, analyse)))
  }

  /** The aggregated set is exactly the set of per-frame dominant
      frequencies; each is a whole number of at least 1, and the set is empty
      exactly when the buffer is one frame long. */
  lemma DominantFrequenciesAreFrameValues(buffer: seq<int>, rate: nat, analyse: seq<int> -> PowerSpectrum)
    requires FrameStep(rate) > 0
    ensures var r := GetDominantFrequencies(Some(buffer), rate, analyse);
            var frames := FramesOf(buffer, FrameLength(rate), FrameStep(rate));
            && r.Ok?
            && (forall f :: f in r.value <==>
                  exists i :: 0 <= i < |frames| && f == DominantFrequency(frames[i], rate, analyse))
            && (forall f :: f in r.value ==> 1.0 <= f && f == f.Floor as real)
            && (r.value == [] <==> |buffer| == FrameLength(rate))
  {
    var frames := FramesOf(buffer, FrameLength(rate), FrameStep(rate));
    var fs := PerFrame(frames, rate, analyse);
    forall i | 0 <= i < |frames|
      ensures fs[i] == DominantFrequency(frames[i], rate, analyse)
    {
      Round3OfWhole(DominantFrequency(frames[i], rate, analyse));
    }
    FramingFrameCount(buffer, rate);
    var r := GetDominantFrequencies(Some(buffer), rate, analyse);
    assert r.value == Unique(fs);
  }

  // ---------------------------------------------------------------------
  // Note matcher (`get_note_from_frequency`)
  // ---------------------------------------------------------------------

  /** `abs(100 * round(np.sin((np.pi / np.log(2)) * np.log(freq / target)), 4))`
      for a detected frequency and a target: uninterpreted, but never
      negative. */
  type Distance = d: (real, int) -> real | forall f, t :: 0.0 <= d(f, t)
    witness (f: real, t: int) => 0.0

  /** `min([distance(freq, t) for t in targets])` */
  function MinDistance(f: real, targets: seq<int>, distance: Distance): (m: real)
    requires targets != []
    ensures exists k :: 0 <= k < |targets| && m == distance(f, targets[k])
    ensures forall k :: 0 <= k < |targets| ==> m <= distance(f, targets[k])
  {
    if |targets| == 1 then distance(f, targets[0])
    else
      var rest := MinDistance(f, targets[1..], distance);
      assert forall k :: 1 <= k < |targets| ==> targets[k] == targets[1..][k - 1];
      if distance(f, targets[0]) <= rest then distance(f, targets[0]) else rest
  }

  /** What one detected frequency adds to a note's weight: its least
      distance to the note's targets, with an exact 0 replaced by -100. */
  function Contribution(f: real, targets: seq<int>, distance: Distance): real
    requires targets != []
  {
    var m := MinDistance(f, targets, distance);
    if m == 0.0 then -100.0 else m
  }

  /** A contribution is the -100 bonus exactly when some target is at
      distance 0; otherwise it is that positive least distance. */
  lemma ContributionBonus(f: real, targets: seq<int>, distance: Distance)
    requires targets != []
    ensures Contribution(f, targets, distance) == -100.0 <==>
              exists k :: 0 <= k < |targets| && distance(f, targets[k]) == 0.0
    ensures Contribution(f, targets, distance) != -100.0 ==> 0.0 < Contribution(f, targets, distance)
  {
    var m := MinDistance(f, targets, distance);
    if exists k :: 0 <= k < |targets| && distance(f, targets[k]) == 0.0 {
      var k :| 0 <= k < |targets| && distance(f, targets[k]) == 0.0;
      assert m <= distance(f, targets[k]);
    }
  }

  /** The weight a note accumulates over `freqs`, summed left to right. */
  function Weight(targets: seq<int>, freqs: seq<real>, distance: Distance): real
    requires freqs == [] || targets != []
  {
    if freqs == [] then 0.0
    else Weight(targets, freqs[..|freqs| - 1], distance) + Contribution(freqs[|freqs| - 1], targets, distance)
  }

  /** Every weight can be computed: either there is nothing to weigh, or no
      note has an empty target list (otherwise `min([])` raises). */
  predicate Weighable(table: seq<NoteEntry>, freqs: seq<real>) {
    freqs == [] || forall i :: 0 <= i < |table| ==> table[i].targets != []
  }

  function Weights(table: seq<NoteEntry>, freqs: seq<real>, distance: Distance): (ws: seq<real>)
    requires Weighable(table, freqs)
    ensures |ws| == |table|
  {
    seq(|table|, i requires 0 <= i < |table| => Weight(table[i].targets, freqs, distance))
  }

  /** The first index of the minimum: the strict `<` of line 186 keeps the
      earliest of equally light notes. */
  function FirstMinimum(ws: seq<real>): (k: nat)
    requires ws != []
    ensures k < |ws|
    ensures forall j :: 0 <= j < |ws| ==> ws[k] <= ws[j]
    ensures forall j :: 0 <= j < k ==> ws[k] < ws[j]
  {
    if |ws| == 1 then 0
    else
      var k := FirstMinimum(ws[..|ws| - 1]);
      if ws[|ws| - 1] < ws[k] then |ws| - 1 else k
  }

  /** Weighing one more note extends the weights of the notes before it. */
  lemma WeightsOfNextNote(table: seq<NoteEntry>, freqs: seq<real>, distance: Distance, i: nat)
    requires i < |table| && Weighable(table[..i + 1], freqs)
    ensures Weighable(table[..i], freqs)
    ensures Weights(table[..i + 1], freqs, distance) ==
              Weights(table[..i], freqs, distance) + [Weight(table[i].targets, freqs, distance)]
  {
    assert forall k :: 0 <= k < i ==> table[..i][k] == table[..i + 1][k];
  }

  /** The first minimum after one more weight: the new weight wins only
      when it is strictly lighter. */
  lemma FirstMinimumOfSnoc(ws: seq<real>, w: real)
    requires ws != []
    ensures FirstMinimum(ws + [w]) ==
              if w < ws[FirstMinimum(ws)] then |ws| else FirstMinimum(ws)
  {
    assert (ws + [w])[..|ws|] == ws;
  }

  /** One pass of the outer loop of lines 174-188: the lightest of the first
      `i + 1` notes and its weight, from those of the first `i`. */
  lemma ClosestOfNextNote(table: seq<NoteEntry>, freqs: seq<real>, distance: Distance, i: nat, w: real)
    requires i < |table| && Weighable(table[..i], freqs) && (freqs == [] || table[i].targets != [])
    requires w == Weight(table[i].targets, freqs, distance)
    ensures Weighable(table[..i + 1], freqs)
    ensures var ws := Weights(table[..i + 1], freqs, distance);
            i == 0 ==> FirstMinimum(ws) == 0 && ws[0] == w
    ensures var ws := Weights(table[..i + 1], freqs, distance);
            var before := Weights(table[..i], freqs, distance);
            i > 0 ==>
              var k := FirstMinimum(before);
              if w < before[k] then FirstMinimum(ws) == i && ws[i] == w
              else FirstMinimum(ws) == k && ws[k] == before[k]
  {
    assert forall k :: 0 <= k < i ==> table[..i + 1][k] == table[..i][k];
    WeightsOfNextNote(table, freqs, distance, i);
    var ws := Weights(table[..i + 1], freqs, distance);
    var before := Weights(table[..i], freqs, distance);
    if i > 0 {
      FirstMinimumOfSnoc(before, w);
      assert ws[..i] == before;
    }
  }

  /** The inner loop of lines 178-184: one note's weight over the detected
      frequencies, or ValueError from `min([])` when the note has no target
      and there is something to weigh. */
  method NoteWeight(targets: seq<int>, frequencies: seq<real>, distance: Distance) returns (r: Result<real>)
    ensures frequencies != [] && targets == [] ==> r == Err(ValueError)
    ensures frequencies == [] || targets != [] ==> r == Ok(Weight(targets, frequencies, distance))
  {
    var weight := 0.0;
    var j := 0;
    while j < |frequencies|
      invariant 0 <= j <= |frequencies|
      invariant j > 0 ==> targets != []
      invariant weight == Weight(targets, frequencies[..j], distance)
    {
      if targets == [] {
        return Err(ValueError);
      }
      var m := MinDistance(frequencies[j], targets, distance);
      if m == 0.0 {
        m := -100.0;
      }
      weight := weight + m;
      assert frequencies[..j + 1][..j] == frequencies[..j];
      j := j + 1;
    }
    assert frequencies[..|frequencies|] == frequencies;
    return Ok(weight);
  }

  /** `get_note_from_frequency(note_frequencies, frequencies)`: `Some("rest")`
      when 1.0 was detected, `None` for an empty table, the first lightest
      note otherwise, and ValueError when `min` meets an empty target list. */
  method GetNoteFromFrequency(noteFrequencies: seq<NoteEntry>, frequencies: seq<real>, distance: Distance)
    returns (r: Result<Option<string>>)
    ensures 1.0 in frequencies ==> r == Ok(Some("rest"))
    ensures 1.0 !in frequencies && !Weighable(noteFrequencies, frequencies) ==> r == Err(ValueError)
    ensures 1.0 !in frequencies && Weighable(noteFrequencies, frequencies) ==>
              r == Ok(if noteFrequencies == [] then None
                      else Some(noteFrequencies[FirstMinimum(Weights(noteFrequencies, frequencies, distance))].name))
  {
    if 1.0 in frequencies {
      return Ok(Some("rest"));
    }
    var closestNote: Option<string> := None;
    var closestWeight: real := 0.0;   // stands for infinity while closestNote is None
    ghost var k: nat := 0;            // the index of closestNote
    var i := 0;
    while i < |noteFrequencies|
      invariant 0 <= i <= |noteFrequencies|
      invariant Weighable(noteFrequencies[..i], frequencies)
      invariant i == 0 <==> closestNote.None?
      invariant i > 0 ==> k == FirstMinimum(Weights(noteFrequencies[..i], frequencies, distance))
      invariant i > 0 ==> closestNote == Some(noteFrequencies[k].name)
      invariant i > 0 ==> closestWeight == Weights(noteFrequencies[..i], frequencies, distance)[k]
    {
      var weight := NoteWeight(noteFrequencies[i].targets, frequencies, distance);
      if weight.Err? {
        return Err(ValueError);
      }
      ClosestOfNextNote(noteFrequencies, frequencies, distance, i, weight.value);
      if closestNote.None? || weight.value < closestWeight {
        closestNote, closestWeight := Some(noteFrequencies[i].name), weight.value;
        k := i;
      }
      i := i + 1;
    }
    assert noteFrequencies[..i] == noteFrequencies;
    return Ok(closestNote);
  }

  /** With nothing detected every weight is 0, so the first note wins. */
  lemma NoFrequenciesPickFirstNote(table: seq<NoteEntry>, distance: Distance)
    requires table != []
    ensures FirstMinimum(Weights(table, [], distance)) == 0
  {
    var ws := Weights(table, [], distance);
    var k := FirstMinimum(ws);
    assert ws[k] == 0.0 && ws[0] == 0.0;
  }
}
