/**
 The MEGA65 random byte reader `rand8`.

 It reads the hardware noise register 32 times and folds bit 0 of every
 sample into one byte: each step shifts the byte left by one and puts the old
 top bit, XORed with the sample bit, into bit 0. After every sample it
 busy-waits until the raster line register shows a value other than the one
 it read just before waiting.

 The registers are not memory the model can hold still: every read of them
 may return a new value. So the values the program would see are injected,
 `noise[k]` being the k-th read of the noise register and `raster[j]` the j-th
 read of the raster register.
 */
module Mega65Entropy {
  import opened Memory

  /** Hardware noise register. */
  const NOISE_REG := 0xd6de
  /** Raster line register. */
  const RASTER_REG := 0xd052
  /** Number of samples folded into one byte. */
  const SAMPLES := 32

  // ---------------------------------------------------------------------------
  // The accumulator

  /** `v` rotated left by `n` positions, one position at a time. */
  function Rot(v: bv8, n: nat): bv8
  {
    if n == 0 then v else Rot(v, n - 1).RotateLeft(1)
  }

  /** One step of the loop body: `(r << 1) | (r >> 7) ^ (sample & 1)` on a u8, where `^` binds tighter than `|`. */
  function Step(r: bv8, sample: bv8): (r': bv8)
    ensures r' == Rot(r, 1) ^ (sample & 1)
  {
    (r << 1) | ((r >> 7) ^ (sample & 1))
  }

  /** `r` after one step per sample, in order. */
  function Accumulate(r: bv8, samples: seq<bv8>): bv8
    decreases |samples|
  {
    if |samples| == 0 then r else Accumulate(Step(r, samples[0]), samples[1..])
  }

  /** A further sample is one further step on the accumulated byte. */
  lemma {:induction false} AccumulateSnoc(r: bv8, samples: seq<bv8>, x: bv8)
    ensures Accumulate(r, samples + [x]) == Step(Accumulate(r, samples), x)
    decreases |samples|
  {
    if |samples| == 0 {
      assert ([] + [x])[1..] == [];
    } else {
      assert (samples + [x])[1..] == samples[1..] + [x];
      AccumulateSnoc(Step(r, samples[0]), samples[1..], x);
    }
  }

  /**
   The byte as a closed form: bit 0 of every sample, rotated left once for
   every sample that comes after it, all XORed together.
   */
  function Spread(samples: seq<bv8>): bv8
  {
    if |samples| == 0 then 0 else Rot(samples[0] & 1, |samples| - 1) ^ Spread(samples[1..])
  }

  /** Rotation distributes over XOR. */
  lemma {:induction false} RotXor(a: bv8, b: bv8, n: nat)
    ensures Rot(a ^ b, n) == Rot(a, n) ^ Rot(b, n)
  {
    if n > 0 {
      RotXor(a, b, n - 1);
      XorRotateLeft(Rot(a, n - 1), Rot(b, n - 1));
    }
  }

  lemma XorRotateLeft(a: bv8, b: bv8)
    ensures (a ^ b).RotateLeft(1) == a.RotateLeft(1) ^ b.RotateLeft(1)
  {
  }

  /** Rotating by one and then by `n` is rotating by `n + 1`. */
  lemma {:induction false} RotRot(a: bv8, n: nat)
    ensures Rot(Rot(a, 1), n) == Rot(a, n + 1)
  {
    if n > 0 {
      RotRot(a, n - 1);
    }
  }

  /** Rotating the byte 1 by `n` positions sets exactly bit `n % 8`. */
  lemma {:induction false} RotOne(n: nat)
    ensures Rot(1, n) == 1 << (n % 8)
  {
    if n > 0 {
      RotOne(n - 1);
      var k := (n - 1) % 8;
      if k == 7 {
        assert n % 8 == 0;
      } else {
        assert n % 8 == k + 1;
        assert (1 as bv8 << k).RotateLeft(1) == 1 << (k + 1);
      }
    }
  }

  /** Zero stays zero under rotation. */
  lemma {:induction false} RotZero(n: nat)
    ensures Rot(0, n) == 0
  {
    if n > 0 {
      RotZero(n - 1);
    }
  }

  /** The fold equals its closed form: the start value rotated once per sample, XOR the spread samples. */
  lemma {:induction false} AccumulateClosedForm(r: bv8, samples: seq<bv8>)
    ensures Accumulate(r, samples) == Rot(r, |samples|) ^ Spread(samples)
    decreases |samples|
  {
    if |samples| > 0 {
      var tail := samples[1..];
      AccumulateClosedForm(Step(r, samples[0]), tail);
      ClosedFormStep(r, samples[0], |tail|, Spread(tail));
    }
  }

  /** One step of `AccumulateClosedForm`: the first sample's step, rotated by the steps after it. */
  lemma ClosedFormStep(r: bv8, x: bv8, n: nat, rest: bv8)
    ensures Rot(Step(r, x), n) ^ rest == Rot(r, n + 1) ^ (Rot(x & 1, n) ^ rest)
  {
    RotStep(r, x, n);
  }

  /** A step followed by `n` rotations: the start value rotated `n + 1` times, XOR the sample bit rotated `n` times. */
  lemma RotStep(r: bv8, x: bv8, n: nat)
    ensures Rot(Step(r, x), n) == Rot(r, n + 1) ^ Rot(x & 1, n)
  {
    var a, b := Rot(r, 1), x & 1;
    assert Step(r, x) == a ^ b;
    RotXor(a, b, n);
    RotRot(r, n);
  }

  /** Only bit 0 of each sample reaches the result. */
  lemma {:induction false} OnlyBitZeroMatters(r: bv8, s: seq<bv8>, t: seq<bv8>)
    requires |s| == |t|
    requires forall k :: 0 <= k < |s| ==> s[k] & 1 == t[k] & 1
    ensures Accumulate(r, s) == Accumulate(r, t)
    decreases |s|
  {
    if |s| > 0 {
      OnlyBitZeroMatters(Step(r, s[0]), s[1..], t[1..]);
    }
  }

  /** Samples whose bit 0 is always clear accumulate to zero from zero. */
  lemma {:induction false} SilentNoiseGivesZero(samples: seq<bv8>)
    requires forall k :: 0 <= k < |samples| ==> samples[k] & 1 == 0
    ensures Accumulate(0, samples) == 0
  {
    if |samples| > 0 {
      SilentNoiseGivesZero(samples[1..]);
    }
  }

  /**
   Flipping bit 0 of sample `k` flips exactly one bit of the result: the bit
   `k` lands on after the `|s| - 1 - k` steps that follow it.
   */
  lemma {:induction false} OneSampleOneBit(r: bv8, s: seq<bv8>, k: nat)
    requires k < |s|
    ensures Accumulate(r, s[k := s[k] ^ 1]) == Accumulate(r, s) ^ Rot(1, |s| - 1 - k)
  {
    AccumulateClosedForm(r, s);
    AccumulateClosedForm(r, s[k := s[k] ^ 1]);
    SpreadFlip(s, k);
  }

  /** The closed form of `OneSampleOneBit`: flipping bit 0 of sample `k` flips the one bit it is spread to. */
  lemma {:induction false} SpreadFlip(s: seq<bv8>, k: nat)
    requires k < |s|
    ensures Spread(s[k := s[k] ^ 1]) == Spread(s) ^ Rot(1, |s| - 1 - k)
    decreases |s|, 1
  {
    if k == 0 {
      SpreadFlipFirst(s);
    } else {
      SpreadFlipTail(s, k);
    }
  }

  /** `SpreadFlip` for a later sample, by the claim for the samples after the first. */
  lemma {:induction false} SpreadFlipTail(s: seq<bv8>, k: nat)
    requires 0 < k < |s|
    ensures Spread(s[k := s[k] ^ 1]) == Spread(s) ^ Rot(1, |s| - 1 - k)
    decreases |s|, 0
  {
    SpreadFlip(s[1..], k - 1);
    SpreadFlipLater(s, k);
  }

  /** `SpreadFlip` for the first sample. */
  lemma SpreadFlipFirst(s: seq<bv8>)
    requires 0 < |s|
    ensures Spread(s[0 := s[0] ^ 1]) == Spread(s) ^ Rot(1, |s| - 1)
  {
    var t := s[0 := s[0] ^ 1];
    assert t[1..] == s[1..];
    SpreadFlipHead(s[0], |s| - 1, Spread(s[1..]));
  }

  /** `SpreadFlip` for a later sample, given it for the samples after the first. */
  lemma SpreadFlipLater(s: seq<bv8>, k: nat)
    requires 0 < k < |s|
    requires Spread(s[1..][k - 1 := s[1..][k - 1] ^ 1]) == Spread(s[1..]) ^ Rot(1, |s| - 1 - k)
    ensures Spread(s[k := s[k] ^ 1]) == Spread(s) ^ Rot(1, |s| - 1 - k)
  {
    assert s[k := s[k] ^ 1][1..] == s[1..][k - 1 := s[1..][k - 1] ^ 1];
  }

  /** Flipping bit 0 of the first sample flips its rotated contribution. */
  lemma SpreadFlipHead(x: bv8, n: nat, rest: bv8)
    ensures Rot((x ^ 1) & 1, n) ^ rest == (Rot(x & 1, n) ^ rest) ^ Rot(1, n)
  {
    assert (x ^ 1) & 1 == (x & 1) ^ 1;
    RotXor(x & 1, 1, n);
  }

  /** Starting from 0, as `rand8` does, the start value drops out of the closed form. */
  lemma Rand8ClosedForm(samples: seq<bv8>)
    ensures Accumulate(0, samples) == Spread(samples)
  {
    AccumulateClosedForm(0, samples);
    RotZero(|samples|);
  }

  /**
   With the 32 samples of `rand8`, sample `k` decides bit `(31 - k) % 8` of the
   result: flipping its bit 0 flips that bit and no other. So every result bit
   is the XOR of four sample bits.
   */
  lemma Rand8SampleBit(s: seq<bv8>, k: nat)
    requires |s| == SAMPLES && k < SAMPLES
    ensures Accumulate(0, s[k := s[k] ^ 1]) == Accumulate(0, s) ^ (1 << ((31 - k) % 8))
  {
    OneSampleOneBit(0, s, k);
    assert |s| - 1 - k == 31 - k;
    RotOne(31 - k);
  }

  /** Accumulating two runs of samples is accumulating the first, then the second from where it left off. */
  lemma {:induction false} AccumulateAppend(r: bv8, a: seq<bv8>, b: seq<bv8>)
    ensures Accumulate(r, a + b) == Accumulate(Accumulate(r, a), b)
    decreases |a|
  {
    if |a| == 0 {
      assert a + b == b;
    } else {
      assert (a + b)[1..] == a[1..] + b;
      AccumulateAppend(Step(r, a[0]), a[1..], b);
    }
  }

  /** Noise whose bit 0 is set on every third read, starting with the first. */
  function EveryThird(): (s: seq<bv8>)
    ensures |s| == SAMPLES
  {
    seq(SAMPLES, k requires 0 <= k < SAMPLES => if k % 3 == 0 then 1 else 0)
  }

  /** A fixed fixture: noise set on every third read yields 0x6d, passing 0x92, 0xdb and 0xff after each eight samples. */
  lemma Rand8EveryThird()
    ensures Accumulate(0, EveryThird()) == 0x6d
  {
    var p: seq<bv8>, q: seq<bv8>, r: seq<bv8> := [1, 0, 0, 1], [0, 0, 1, 0], [0, 1, 0, 0];
    EveryThirdBlocks(p, q, r);
    FoldEveryThirdBlocks(p, q, r);
  }

  /** The fixture cut into blocks of four: the pattern repeats every twelve reads. */
  lemma EveryThirdBlocks(p: seq<bv8>, q: seq<bv8>, r: seq<bv8>)
    requires p == [1, 0, 0, 1] && q == [0, 0, 1, 0] && r == [0, 1, 0, 0]
    ensures EveryThird() == p + (q + (r + (p + (q + (r + (p + q))))))
  {
  }

  /** Folding the blocks of the fixture four samples at a time. */
  lemma FoldEveryThirdBlocks(p: seq<bv8>, q: seq<bv8>, r: seq<bv8>)
    requires p == [1, 0, 0, 1] && q == [0, 0, 1, 0] && r == [0, 1, 0, 0]
    ensures Accumulate(0, p + (q + (r + (p + (q + (r + (p + q))))))) == 0x6d
  {
    FourSteps(0x00, p, q + (r + (p + (q + (r + (p + q))))), 0x09);
    FourSteps(0x09, q, r + (p + (q + (r + (p + q)))), 0x92);
    FourSteps(0x92, r, p + (q + (r + (p + q))), 0x2d);
    FourSteps(0x2d, p, q + (r + (p + q)), 0xdb);
    FourSteps(0xdb, q, r + (p + q), 0xbf);
    FourSteps(0xbf, r, p + q, 0xff);
    FourSteps(0xff, p, q, 0xf6);
    FourSteps(0xf6, q, [], 0x6d);
    assert q + [] == q;
  }

  /** Four concrete samples from a concrete start value, followed by more samples. */
  lemma FourSteps(r: bv8, block: seq<bv8>, rest: seq<bv8>, r': bv8)
    requires |block| == 4 && Step(Step(Step(Step(r, block[0]), block[1]), block[2]), block[3]) == r'
    ensures Accumulate(r, block + rest) == Accumulate(r', rest)
  {
    AccumulateAppend(r, block, rest);
    var r1 := Step(r, block[0]);
    var r2 := Step(r1, block[1]);
    var r3 := Step(r2, block[2]);
    assert Accumulate(r3, block[3..]) == r' by {
      assert block[3..][1..] == [];
    }
    assert Accumulate(r2, block[2..]) == r' by {
      assert block[2..][1..] == block[3..];
    }
    assert Accumulate(r1, block[1..]) == r' by {
      assert block[1..][1..] == block[2..];
    }
  }

  // ---------------------------------------------------------------------------
  // The raster busy-wait

  /** Some raster read from position `from` on returns a value other than `p`. */
  predicate ChangeAhead(raster: seq<bv8>, from: nat, p: bv8)
  {
    exists j :: from <= j < |raster| && raster[j] != p
  }

  /** The first raster read from position `from` on that returns a value other than `p`. */
  function FirstChange(raster: seq<bv8>, from: nat, p: bv8): (j: nat)
    requires ChangeAhead(raster, from, p)
    ensures from <= j < |raster| && raster[j] != p
    ensures forall k :: from <= k < j ==> raster[k] == p
    decreases |raster| - from
  {
    if raster[from] != p then from else FirstChange(raster, from + 1, p)
  }

  /** A busy wait whose reference value is read at position `at` terminates. */
  predicate CanWait(raster: seq<bv8>, at: nat)
  {
    at < |raster| && ChangeAhead(raster, at + 1, raster[at])
  }

  /** The position of the first raster read after a busy wait that starts at `at`. */
  function WaitEnd(raster: seq<bv8>, at: nat): (next: nat)
    requires CanWait(raster, at)
    ensures at + 2 <= next <= |raster|
  {
    FirstChange(raster, at + 1, raster[at]) + 1
  }

  /** How many busy waits, one after the other from position `at`, run to completion. */
  function WaitsAvailable(raster: seq<bv8>, at: nat): nat
    decreases |raster| - at
  {
    if CanWait(raster, at) then 1 + WaitsAvailable(raster, WaitEnd(raster, at)) else 0
  }

  /** The raster values one busy wait reads: a reference value, copies of it, then a different value. */
  predicate IsWait(w: seq<bv8>)
  {
    && |w| >= 2
    && w[|w| - 1] != w[0]
    && forall k :: 1 <= k < |w| - 1 ==> w[k] == w[0]
  }

  /** Read the raster line, then read it again until it shows another value. */
  method WaitForRasterChange(raster: seq<bv8>, at: nat) returns (wait: seq<bv8>, next: nat)
    requires CanWait(raster, at)
    ensures at < next <= |raster| && wait == raster[at..next]
    ensures IsWait(wait)
    ensures next == WaitEnd(raster, at)
  {
    var rasterPosition := raster[at];
    ghost var change := FirstChange(raster, at + 1, rasterPosition);
    var current := raster[at + 1];
    next := at + 2;
    while current == rasterPosition
      invariant at + 2 <= next <= change + 1
      invariant current == raster[next - 1]
      decreases change + 1 - next
    {
      current := raster[next];
      next := next + 1;
    }
    wait := raster[at..next];
  }

  // ---------------------------------------------------------------------------
  // rand8

  /** What one iteration of the sampling loop reads: one noise sample, then the raster values of its wait. */
  datatype Round = Round(sample: bv8, wait: seq<bv8>)

  /** The noise samples of `rounds`, in order. */
  function Samples(rounds: seq<Round>): seq<bv8>
  {
    if |rounds| == 0 then [] else Samples(rounds[..|rounds| - 1]) + [rounds[|rounds| - 1].sample]
  }

  /** The raster values read over all of `rounds`, in order. */
  function RasterReads(rounds: seq<Round>): seq<bv8>
  {
    if |rounds| == 0 then [] else RasterReads(rounds[..|rounds| - 1]) + rounds[|rounds| - 1].wait
  }

  /**
   `rand8`: fold 32 noise samples into a byte, waiting for the raster line to
   move on after each one. Returns the byte, what each iteration read, and how
   many raster reads were used.
   */
  method Rand8(noise: seq<bv8>, raster: seq<bv8>) returns (r: bv8, rounds: seq<Round>, used: nat)
    requires |noise| >= SAMPLES
    requires WaitsAvailable(raster, 0) >= SAMPLES
    ensures |rounds| == SAMPLES
    ensures Samples(rounds) == noise[..SAMPLES]
    ensures forall k :: 0 <= k < |rounds| ==> IsWait(rounds[k].wait)
    ensures RasterReads(rounds) <= raster && |RasterReads(rounds)| == used
    ensures r == Accumulate(0, noise[..SAMPLES])
    ensures forall k :: 0 <= k < |Bus(rounds)| ==> EntropyRead(Bus(rounds)[k])
    ensures ReadsAt(Bus(rounds), NOISE_REG) == noise[..SAMPLES]
    ensures ReadsAt(Bus(rounds), RASTER_REG) == RasterReads(rounds)
  {
    r, rounds, used := Rand8Loop(noise, raster);
    Rand8BusReadsOnly(rounds);
  }

  /** The loop of `rand8`: the rounds it takes and the byte it folds, without the bus view. */
  method Rand8Loop(noise: seq<bv8>, raster: seq<bv8>) returns (r: bv8, rounds: seq<Round>, used: nat)
    requires |noise| >= SAMPLES
    requires WaitsAvailable(raster, 0) >= SAMPLES
    ensures |rounds| == SAMPLES
    ensures Samples(rounds) == noise[..SAMPLES]
    ensures forall k :: 0 <= k < |rounds| ==> IsWait(rounds[k].wait)
    ensures RasterReads(rounds) <= raster && |RasterReads(rounds)| == used
    ensures r == Accumulate(0, noise[..SAMPLES])
  {
    r := 0;
    var steps := SAMPLES;
    rounds := [];
    used := 0;
    while steps > 0
      invariant 0 <= steps <= SAMPLES
      invariant |rounds| == SAMPLES - steps
      invariant Samples(rounds) == noise[..|rounds|]
      invariant forall k :: 0 <= k < |rounds| ==> IsWait(rounds[k].wait)
      invariant used <= |raster| && RasterReads(rounds) == raster[..used]
      invariant WaitsAvailable(raster, used) >= steps
      invariant r == Accumulate(0, noise[..|rounds|])
    {
      steps := steps - 1;
      var sample := noise[|rounds|];
      AccumulatePrefix(noise, |rounds|);
      r := Step(r, sample);
      var wait, next := WaitForRasterChange(raster, used);
      PrefixConcat(raster, used, next);
      RoundsSnoc(rounds, Round(sample, wait));
      rounds := rounds + [Round(sample, wait)];
      used := next;
    }
  }

  lemma RoundsSnoc(rounds: seq<Round>, round: Round)
    ensures Samples(rounds + [round]) == Samples(rounds) + [round.sample]
    ensures RasterReads(rounds + [round]) == RasterReads(rounds) + round.wait
  {
    assert (rounds + [round])[..|rounds|] == rounds;
  }

  /** Accumulating one more sample of `noise` is one more step. */
  lemma AccumulatePrefix(noise: seq<bv8>, i: nat)
    requires i < |noise|
    ensures noise[..i + 1] == noise[..i] + [noise[i]]
    ensures Accumulate(0, noise[..i + 1]) == Step(Accumulate(0, noise[..i]), noise[i])
  {
    assert noise[..i + 1] == noise[..i] + [noise[i]];
    AccumulateSnoc(0, noise[..i], noise[i]);
  }

  lemma PrefixConcat<T>(s: seq<T>, i: nat, j: nat)
    requires i <= j <= |s|
    ensures s[..j] == s[..i] + s[i..j]
  {
  }

  // ---------------------------------------------------------------------------
  // Bus view

  /** The bus transactions of one round: the noise read, then the raster reads of the wait. */
  function RoundBus(round: Round): seq<Access>
  {
    [Read(NOISE_REG, round.sample)] + RasterBus(round.wait)
  }

  /** Reads of the raster register returning the values of `w`, in order. */
  function RasterBus(w: seq<bv8>): seq<Access>
  {
    if |w| == 0 then [] else RasterBus(w[..|w| - 1]) + [Read(RASTER_REG, w[|w| - 1])]
  }

  /** The bus transactions of all rounds, in order. */
  function Bus(rounds: seq<Round>): seq<Access>
  {
    if |rounds| == 0 then [] else Bus(rounds[..|rounds| - 1]) + RoundBus(rounds[|rounds| - 1])
  }

  /** The values read from address `a` over `bus`, in order. */
  function ReadsAt(bus: seq<Access>, a: int): seq<bv8>
  {
    if |bus| == 0 then []
    else
      var last := bus[|bus| - 1];
      ReadsAt(bus[..|bus| - 1], a) + (if last.Read? && last.addr == a then [last.value] else [])
  }

  /** A transaction that reads one of the two registers `rand8` uses. */
  predicate EntropyRead(t: Access)
  {
    t.Read? && (t.addr == NOISE_REG || t.addr == RASTER_REG)
  }

  lemma {:induction false} ReadsAtAppend(x: seq<Access>, y: seq<Access>, a: int)
    ensures ReadsAt(x + y, a) == ReadsAt(x, a) + ReadsAt(y, a)
    decreases |y|
  {
    if |y| > 0 {
      var y' := y[..|y| - 1];
      assert (x + y)[..|x + y| - 1] == x + y';
      ReadsAtAppend(x, y', a);
    } else {
      assert x + y == x;
    }
  }

  /** The values a single transaction reads from `a`. */
  lemma ReadsAtSingle(t: Access, a: int)
    ensures ReadsAt([t], a) == if t.Read? && t.addr == a then [t.value] else []
  {
    assert [t][..0] == [];
  }

  /** The raster part of a round is one read of the raster register per wait value, in order. */
  lemma {:induction false} RasterBusShape(w: seq<bv8>)
    ensures |RasterBus(w)| == |w|
    ensures forall k :: 0 <= k < |w| ==> RasterBus(w)[k] == Read(RASTER_REG, w[k])
  {
    if |w| > 0 {
      RasterBusShape(w[..|w| - 1]);
    }
  }

  /** The raster part of a round reads exactly the wait's values from the raster register. */
  lemma {:induction false} RasterBusValues(w: seq<bv8>)
    ensures ReadsAt(RasterBus(w), RASTER_REG) == w
  {
    if |w| > 0 {
      var w', x := w[..|w| - 1], w[|w| - 1];
      var b, t := RasterBus(w'), Read(RASTER_REG, x);
      RasterBusValues(w');
      assert RasterBus(w) == b + [t];
      assert ReadsAt(b + [t], RASTER_REG) == ReadsAt(b, RASTER_REG) + [x] by {
        assert (b + [t])[..|b|] == b;
      }
      assert w' + [x] == w;
    }
  }

  /** The raster part of a round reads nothing from the noise register. */
  lemma {:induction false} RasterBusNoNoise(w: seq<bv8>)
    ensures ReadsAt(RasterBus(w), NOISE_REG) == []
  {
    if |w| > 0 {
      var b := RasterBus(w[..|w| - 1]);
      RasterBusNoNoise(w[..|w| - 1]);
      assert (b + [Read(RASTER_REG, w[|w| - 1])])[..|b|] == b;
    }
  }

  /** One round's transactions: the sample read from the noise register first, then one raster read per wait value. */
  lemma RoundBusOrder(round: Round)
    ensures |RoundBus(round)| == 1 + |round.wait|
    ensures RoundBus(round)[0] == Read(NOISE_REG, round.sample)
    ensures forall k :: 0 <= k < |round.wait| ==> RoundBus(round)[k + 1] == Read(RASTER_REG, round.wait[k])
  {
    RasterBusShape(round.wait);
  }

  /**
   One round reads its sample from the noise register first, then its wait
   from the raster register, one read per value, and nothing else.
   */
  lemma RoundBusReads(round: Round)
    ensures |RoundBus(round)| == 1 + |round.wait|
    ensures RoundBus(round)[0] == Read(NOISE_REG, round.sample)
    ensures forall k :: 0 <= k < |round.wait| ==> RoundBus(round)[k + 1] == Read(RASTER_REG, round.wait[k])
    ensures forall k :: 0 <= k < |RoundBus(round)| ==> EntropyRead(RoundBus(round)[k])
    ensures ReadsAt(RoundBus(round), NOISE_REG) == [round.sample]
    ensures ReadsAt(RoundBus(round), RASTER_REG) == round.wait
  {
    RoundBusOrder(round);
    forall k | 0 <= k < |RoundBus(round)|
      ensures EntropyRead(RoundBus(round)[k])
    {
      if k > 0 {
        assert RoundBus(round)[k] == Read(RASTER_REG, round.wait[k - 1]);
      }
    }
    var head := Read(NOISE_REG, round.sample);
    RasterBusValues(round.wait);
    RasterBusNoNoise(round.wait);
    ReadsAtAppend([head], RasterBus(round.wait), NOISE_REG);
    ReadsAtAppend([head], RasterBus(round.wait), RASTER_REG);
    ReadsAtSingle(head, NOISE_REG);
    ReadsAtSingle(head, RASTER_REG);
  }

  /**
   Reading the bus: `rand8` writes nothing and touches only the noise and
   raster registers; its reads of the noise register are the samples and its
   reads of the raster register are the waits, in order.
   */
  lemma {:induction false} Rand8BusReadsOnly(rounds: seq<Round>)
    ensures forall k :: 0 <= k < |Bus(rounds)| ==> EntropyRead(Bus(rounds)[k])
    ensures ReadsAt(Bus(rounds), NOISE_REG) == Samples(rounds)
    ensures ReadsAt(Bus(rounds), RASTER_REG) == RasterReads(rounds)
  {
    if |rounds| > 0 {
      var last := rounds[|rounds| - 1];
      var prefix := rounds[..|rounds| - 1];
      Rand8BusReadsOnly(prefix);
      RoundBusReads(last);
      ReadsAtAppend(Bus(prefix), RoundBus(last), NOISE_REG);
      ReadsAtAppend(Bus(prefix), RoundBus(last), RASTER_REG);
      BusAllReads(Bus(prefix), RoundBus(last));
    }
  }

  lemma BusAllReads(x: seq<Access>, y: seq<Access>)
    requires forall k :: 0 <= k < |x| ==> EntropyRead(x[k])
    requires forall k :: 0 <= k < |y| ==> EntropyRead(y[k])
    ensures forall k :: 0 <= k < |x + y| ==> EntropyRead((x + y)[k])
  {
  }
}
