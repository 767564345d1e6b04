/** Philips RC5: bi-phase coded bits, neighbouring halves at one level merged into a pulse, the
    opening space left out. The pulses determine the bits, and the packet the frame. */
module Rc5 {
  import opened Arithmetic
  import opened Bytes
  import opened Broadlink

  const HALF_BIT: u32 := 889
  const ADDRESS_BITS := 5
  const COMMAND_BITS := 6

  datatype Level = Mark | Space

  datatype Run = Run(level: Level, micros: nat)

  function Other(level: Level): Level { if level == Mark then Space else Mark }

  // ---------- the coding ----------

  /** The low `n` bits of a byte, the highest first. */
  function HighFirst(b: nat, n: nat): (bits: seq<bool>)
    ensures |bits| == n
  {
    if n == 0 then [] else [b / Pow2(n - 1) % 2 == 1] + HighFirst(b, n - 1)
  }

  function FrameBits(address: byte, command: byte, toggle: bool): (bits: seq<bool>)
    ensures |bits| == 14
  {
    [true, true, toggle] + HighFirst(address, ADDRESS_BITS) + HighFirst(command, COMMAND_BITS)
  }

  /** Each bit as its two halves: rising for a one, falling for a zero. */
  function Halves(bits: seq<bool>): (hs: seq<Level>)
    ensures |hs| == 2 * |bits|
    decreases |bits|
  {
    if bits == [] then []
    else Halves(bits[..|bits| - 1]) + if bits[|bits| - 1] then [Space, Mark] else [Mark, Space]
  }

  /** One more half at the end: the last run grows or a new one starts. */
  function Merge(runs: seq<Run>, level: Level): (more: seq<Run>)
    ensures |runs| <= |more| && more != []
  {
    var last := |runs| - 1;
    if runs != [] && runs[last].level == level
    then runs[..last] + [Run(level, runs[last].micros + HALF_BIT)]
    else runs + [Run(level, HALF_BIT)]
  }

  /** Neighbouring halves at the same level as one longer run. */
  function Runs(hs: seq<Level>): (runs: seq<Run>)
    ensures hs != [] ==> runs != []
    decreases |hs|
  {
    if hs == [] then [] else Merge(Runs(hs[..|hs| - 1]), hs[|hs| - 1])
  }

  /** The runs sent: an opening space is left out. */
  function Sent(runs: seq<Run>): seq<Run> {
    if runs != [] && runs[0].level == Space then runs[1..] else runs
  }

  /** Marks and spaces in turn, one or two halves each. */
  predicate Alternating(runs: seq<Run>) {
    && (forall i :: 0 <= i < |runs| ==> runs[i].micros == HALF_BIT || runs[i].micros == 2 * HALF_BIT)
    && (forall i :: 0 < i < |runs| ==> runs[i].level == Other(runs[i - 1].level))
  }

  /** The runs of coded bits alternate, and the last is a single half: two halves of a bit
      always differ. */
  lemma {:induction false} RunsOfBits(bits: seq<bool>)
    requires bits != []
    ensures var runs := Runs(Halves(bits));
            && Alternating(runs)
            && runs[|runs| - 1] == Run(if bits[|bits| - 1] then Mark else Space, HALF_BIT)
            && runs[0].level == (if bits[0] then Space else Mark)
            && |runs| > 1 && runs[0].micros == HALF_BIT
    decreases |bits|
  {
    hide Runs;
    var last := |bits| - 1;
    var b, before := bits[last], Halves(bits[..last]);
    var first, second := if b then Space else Mark, if b then Mark else Space;
    assert Halves(bits) == before + [first] + [second];
    RunsAppend(before, first);
    RunsAppend(before + [first], second);
    hide Halves, Alternating;
    if last > 0 {
      RunsOfBits(bits[..last]);
      assert bits[..last][0] == bits[0];
      OneBitMore(Runs(before), first);
    } else {
      NoHalves();
      assert bits[..0] == [];
      FirstBit(first);
    }
  }

  lemma NoHalves()
    ensures Halves([]) == [] && Runs([]) == []
  {
  }

  lemma RunsAppend(hs: seq<Level>, level: Level)
    ensures Runs(hs + [level]) == Merge(Runs(hs), level)
  {
    assert (hs + [level])[..|hs|] == hs;
  }

  lemma FirstBit(first: Level)
    ensures var runs := Merge(Merge([], first), Other(first));
            runs == [Run(first, HALF_BIT), Run(Other(first), HALF_BIT)] && Alternating(runs)
  {
  }

  /** The halves of one more bit: the first may lengthen the last run, the second never does. */
  lemma OneBitMore(runs: seq<Run>, first: Level)
    requires |runs| > 1 && Alternating(runs) && runs[|runs| - 1].micros == HALF_BIT && runs[0].micros == HALF_BIT
    ensures var more := Merge(Merge(runs, first), Other(first));
            && Alternating(more) && |more| > |runs|
            && more[|more| - 1] == Run(Other(first), HALF_BIT) && more[0] == runs[0]
  {
  }

  function Durations(runs: seq<Run>): (ds: seq<u32>)
    requires Alternating(runs)
    ensures |ds| == |runs|
  {
    seq(|runs|, i requires 0 <= i < |runs| => runs[i].micros)
  }

  /** The pulses sent for the bits. */
  function Pulses(bits: seq<bool>): (ds: seq<u32>)
  {
    if bits != [] then RunsOfBits(bits); Durations(Sent(Runs(Halves(bits)))) else []
  }

  // ---------- the loops ----------

  method PushBits(bits: seq<bool>, b: byte, n: nat) returns (more: seq<bool>)
    ensures more == bits + HighFirst(b, n)
  {
    more := bits;
    var left := n;
    while left > 0
      invariant 0 <= left <= n
      invariant more + HighFirst(b, left) == bits + HighFirst(b, n)
    {
      left := left - 1;
      more := more + [b / Pow2(left) % 2 == 1];
    }
  }

  method EncodeRc5(address: byte, command: byte, toggle: bool) returns (packet: seq<byte>)
    ensures packet == PacketOf(AllTicks(Pulses(FrameBits(address, command, toggle))))
  {
    var bits := [true];
    bits := bits + [true];
    bits := bits + [toggle];
    bits := PushBits(bits, address, ADDRESS_BITS);
    bits := PushBits(bits, command, COMMAND_BITS);
    assert bits == FrameBits(address, command, toggle);
    var durations := MergedPulses(bits);
    packet := Encode(durations);
  }

  method CodedHalves(bits: seq<bool>) returns (halves: seq<Level>)
    ensures halves == Halves(bits)
  {
    halves := [];
    for i := 0 to |bits|
      invariant halves == Halves(bits[..i])
    {
      assert bits[..i + 1][..i] == bits[..i];
      halves := halves + if bits[i] then [Space, Mark] else [Mark, Space];
    }
    assert bits[..|bits|] == bits;
  }

  method MergedRuns(halves: seq<Level>) returns (runs: seq<Run>)
    ensures runs == Runs(halves)
  {
    runs := [];
    for k := 0 to |halves|
      invariant runs == Runs(halves[..k])
    {
      hide Runs;
      assert halves[..k + 1] == halves[..k] + [halves[k]];
      RunsAppend(halves[..k], halves[k]);
      if runs != [] && runs[|runs| - 1].level == halves[k] {
        runs := runs[..|runs| - 1] + [Run(halves[k], runs[|runs| - 1].micros + HALF_BIT)];
      } else {
        runs := runs + [Run(halves[k], HALF_BIT)];
      }
    }
    assert halves[..|halves|] == halves;
  }

  method MergedPulses(bits: seq<bool>) returns (durations: seq<u32>)
    requires bits != []
    ensures durations == Pulses(bits)
  {
    hide Runs, Halves, Merge;
    var halves := CodedHalves(bits);
    var runs := MergedRuns(halves);
    RunsOfBits(bits);
    if runs != [] && runs[0].level == Space {
      runs := runs[1..];
    }
    durations := seq(|runs|, i requires 0 <= i < |runs| => runs[i].micros);
  }

  // ---------- reading the pulses ----------

  function Copies(level: Level, n: nat): (hs: seq<Level>)
    ensures |hs| == n
  {
    seq(n, i => level)
  }

  /** The level of the `i`-th of pulses that alternate from `level`. */
  function LevelAt(level: Level, i: nat): Level {
    if i % 2 == 0 then level else Other(level)
  }

  /** The halves of pulses that alternate from `level`. */
  function Expand(ds: seq<u32>, level: Level): (hs: seq<Level>)
    decreases |ds|
  {
    if ds == [] then []
    else
      var last := |ds| - 1;
      Expand(ds[..last], level) + Copies(LevelAt(level, last), ds[last] / HALF_BIT)
  }

  /** The bits of the halves, two by two. */
  function PairUp(hs: seq<Level>): (bits: seq<bool>) {
    if |hs| < 2 then [] else [hs[0] == Space] + PairUp(hs[2..])
  }

  /** What a receiver makes of the pulses: the opening space restored. */
  function BitsOf(ds: seq<u32>): seq<bool> {
    PairUp([Space] + Expand(ds, Mark))
  }

  lemma {:induction false} LevelsAlternate(runs: seq<Run>, i: nat)
    requires Alternating(runs) && i < |runs|
    ensures runs[i].level == LevelAt(runs[0].level, i)
  {
    if i > 0 {
      LevelsAlternate(runs, i - 1);
    }
  }

  /** The halves of a list of runs. */
  function ExpandRuns(runs: seq<Run>): seq<Level>
    decreases |runs|
  {
    if runs == [] then []
    else
      var last := |runs| - 1;
      ExpandRuns(runs[..last]) + Copies(runs[last].level, runs[last].micros / HALF_BIT)
  }

  /** Merging loses nothing: the runs of any halves expand to those halves. */
  lemma {:induction false} RunsExpand(hs: seq<Level>)
    ensures ExpandRuns(Runs(hs)) == hs
    decreases |hs|
  {
    if hs == [] {
    } else {
      hide Runs, ExpandRuns, Merge;
      var init, level := hs[..|hs| - 1], hs[|hs| - 1];
      assert init + [level] == hs;
      RunsExpand(init);
      RunsAppend(init, level);
      MergeExpands(Runs(init), level);
    }
  }

  lemma MergeExpands(runs: seq<Run>, level: Level)
    ensures ExpandRuns(Merge(runs, level)) == ExpandRuns(runs) + [level]
  {
    var last := |runs| - 1;
    var more := Merge(runs, level);
    if runs != [] && runs[last].level == level {
      var n := runs[last].micros / HALF_BIT;
      assert more[..last] == runs[..last];
      assert (runs[last].micros + HALF_BIT) / HALF_BIT == n + 1;
      assert Copies(level, n + 1) == Copies(level, n) + [level];
    } else {
      assert more[..|runs|] == runs;
      assert Copies(level, 1) == [level];
    }
  }

  /** Alternating runs need no levels but the first. */
  lemma {:induction false} DurationsExpand(runs: seq<Run>)
    requires Alternating(runs)
    ensures runs != [] ==> Expand(Durations(runs), runs[0].level) == ExpandRuns(runs)
    decreases |runs|
  {
    if runs != [] {
      var last := |runs| - 1;
      assert Durations(runs)[..last] == Durations(runs[..last]);
      LevelsAlternate(runs, last);
      DurationsExpand(runs[..last]);
    }
  }

  lemma {:induction false} PairUpHalves(bits: seq<bool>)
    ensures PairUp(Halves(bits)) == bits
    decreases |bits|
  {
    if bits != [] {
      var last := |bits| - 1;
      PairUpHalves(bits[..last]);
      PairUpAppend(Halves(bits[..last]), bits[last]);
    }
  }

  lemma {:induction false} PairUpAppend(hs: seq<Level>, b: bool)
    requires |hs| % 2 == 0
    ensures PairUp(hs + if b then [Space, Mark] else [Mark, Space]) == PairUp(hs) + [b]
  {
    var two := if b then [Space, Mark] else [Mark, Space];
    if hs == [] {
      assert [] + two == two;
    } else {
      PairUpAppend(hs[2..], b);
      assert (hs + two)[2..] == hs[2..] + two;
    }
  }

  /** A first pulse of one half, then the rest from the other level. */
  lemma {:induction false} ExpandFromTheFront(ds: seq<u32>, level: Level)
    requires ds != [] && ds[0] == HALF_BIT
    ensures Expand(ds, level) == [level] + Expand(ds[1..], Other(level))
    decreases |ds|
  {
    var last := |ds| - 1;
    if last == 0 {
      assert Copies(level, 1) == [level];
      assert ds[..0] == [];
    } else {
      ExpandFromTheFront(ds[..last], level);
      assert ds[..last][1..] == ds[1..][..last - 1];
      assert LevelAt(level, last) == LevelAt(Other(level), last - 1);
    }
  }

  lemma PulsesAreDurations(bits: seq<bool>)
    requires bits != [] && bits[0]
    ensures var runs := Runs(Halves(bits));
            && Alternating(runs) && |runs| > 1 && runs[0] == Run(Space, HALF_BIT)
            && Pulses(bits) == Durations(runs)[1..]
  {
    hide Runs, Halves;
    RunsOfBits(bits);
  }

  /** The pulses of any bits that start with a one alternate from a mark, last one or two
      halves each, and read back as exactly those bits. */
  lemma PulsesRoundTrip(bits: seq<bool>)
    requires bits != [] && bits[0]
    ensures BitsOf(Pulses(bits)) == bits
    ensures forall i :: 0 <= i < |Pulses(bits)| ==> Pulses(bits)[i] == 889 || Pulses(bits)[i] == 1778
    ensures var sent := Sent(Runs(Halves(bits)));
            |sent| == |Pulses(bits)| && forall i :: 0 <= i < |sent| ==> sent[i].level == LevelAt(Mark, i)
  {
    hide Runs, Halves, Expand, ExpandRuns, PairUp, Pulses;
    var runs := Runs(Halves(bits));
    PulsesAreDurations(bits);
    var ds := Durations(runs);
    RunsExpand(Halves(bits));
    DurationsExpand(runs);
    ExpandFromTheFront(ds, Space);
    PairUpHalves(bits);
    forall i | 0 <= i < |runs| - 1
      ensures runs[1..][i].level == LevelAt(Mark, i)
    {
      LevelsAlternate(runs, i + 1);
    }
  }

  // ---------- distinct frames ----------

  lemma {:induction false} HighFirstValue(b: nat, c: nat, n: nat)
    requires HighFirst(b, n) == HighFirst(c, n)
    ensures b % Pow2(n) == c % Pow2(n)
  {
    if n > 0 {
      assert HighFirst(b, n)[0] == HighFirst(c, n)[0];
      assert HighFirst(b, n)[1..] == HighFirst(b, n - 1) && HighFirst(c, n)[1..] == HighFirst(c, n - 1);
      HighFirstValue(b, c, n - 1);
      RemainderBit(b, Pow2(n - 1));
      RemainderBit(c, Pow2(n - 1));
    }
  }

  lemma HalvesHaveTicks()
    ensures Ticks(HALF_BIT) == 27 && Ticks(2 * HALF_BIT) == 54
  {
  }

  lemma PulsesFromTicks(a: seq<u32>, b: seq<u32>)
    requires forall i :: 0 <= i < |a| ==> a[i] == HALF_BIT || a[i] == 2 * HALF_BIT
    requires forall i :: 0 <= i < |b| ==> b[i] == HALF_BIT || b[i] == 2 * HALF_BIT
    requires PacketOf(AllTicks(a)) == PacketOf(AllTicks(b))
    ensures a == b
  {
    hide Ticks;
    HalvesHaveTicks();
    var p, q := PacketOf(AllTicks(a)), PacketOf(AllTicks(b));
    assert p[HEADER_LEN..] == EncodeTicks(AllTicks(a)) + TERMINATOR;
    assert q[HEADER_LEN..] == EncodeTicks(AllTicks(b)) + TERMINATOR;
    NonZeroTicksRoundTrip(AllTicks(a));
    NonZeroTicksRoundTrip(AllTicks(b));
    assert AllTicks(a) == AllTicks(b);
    forall i | 0 <= i < |a|
      ensures a[i] == b[i]
    {
      assert AllTicks(a)[i] == AllTicks(b)[i];
    }
  }

  /** The packet says the toggle, the five low address bits and the six low command bits:
      two presses give the same packet exactly when they agree on those. */
  lemma PacketsTellFramesApart(a: byte, c: byte, t: bool, a': byte, c': byte, t': bool)
    ensures PacketOf(AllTicks(Pulses(FrameBits(a, c, t)))) == PacketOf(AllTicks(Pulses(FrameBits(a', c', t'))))
            <==> a % 32 == a' % 32 && c % 64 == c' % 64 && t == t'
  {
    var x, y := FrameBits(a, c, t), FrameBits(a', c', t');
    PulsesRoundTrip(x);
    PulsesRoundTrip(y);
    assert Pow2(5) == 32 && Pow2(6) == 64;
    if PacketOf(AllTicks(Pulses(x))) == PacketOf(AllTicks(Pulses(y))) {
      PulsesFromTicks(Pulses(x), Pulses(y));
      assert x[2] == t && y[2] == t';
      assert x[3..8] == HighFirst(a, ADDRESS_BITS) && y[3..8] == HighFirst(a', ADDRESS_BITS);
      assert x[8..] == HighFirst(c, COMMAND_BITS) && y[8..] == HighFirst(c', COMMAND_BITS);
      HighFirstValue(a, a', 5);
      HighFirstValue(c, c', 6);
    }
    if a % 32 == a' % 32 && c % 64 == c' % 64 && t == t' {
      SameBits(a, a', 5);
      SameBits(c, c', 6);
    }
  }

  lemma {:induction false} SameBits(b: nat, c: nat, n: nat)
    requires b % Pow2(n) == c % Pow2(n)
    ensures HighFirst(b, n) == HighFirst(c, n)
  {
    if n > 0 {
      var p := Pow2(n - 1);
      RemainderBit(b, p);
      RemainderBit(c, p);
      SameBits(b, c, n - 1);
    }
  }

  // ---------- where everything lies ----------

  /** The number that bits spell, the highest first. */
  function Number(bits: seq<bool>): nat {
    if bits == [] then 0 else (if bits[0] then Pow2(|bits| - 1) else 0) + Number(bits[1..])
  }

  lemma {:induction false} NumberOfHighFirst(b: nat, n: nat)
    ensures Number(HighFirst(b, n)) == b % Pow2(n)
  {
    if n > 0 {
      NumberOfHighFirst(b, n - 1);
      RemainderBit(b, Pow2(n - 1));
      assert HighFirst(b, n)[1..] == HighFirst(b, n - 1);
    }
  }

  /** What a receiver of the pulses reads: two ones, the toggle, the low five bits of the address and
      the low six of the command. */
  lemma PressIsRead(address: byte, command: byte, toggle: bool)
    ensures var bits := BitsOf(Pulses(FrameBits(address, command, toggle)));
            && |bits| == 14 && bits[0] && bits[1] && bits[2] == toggle
            && Number(bits[3..8]) == address % 32 && Number(bits[8..14]) == command % 64
  {
    hide Pulses, BitsOf, HighFirst, Number;
    var bits := FrameBits(address, command, toggle);
    PulsesRoundTrip(bits);
    NumberOfHighFirst(address, 5);
    NumberOfHighFirst(command, 6);
    assert Pow2(5) == 32 && Pow2(6) == 64;
    assert bits[3..8] == HighFirst(address, ADDRESS_BITS) && bits[8..14] == HighFirst(command, COMMAND_BITS);
  }
}
