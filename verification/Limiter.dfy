/** Attempts per address in a fixed window. Times are nanoseconds of a clock that never steps back. */
module Limiter {
  import opened Bytes

  const SECOND := 1_000_000_000
  const PURGE_ABOVE := 10_000

  // ---------- what counts as one address ----------

  datatype Ip = V4(bits: nat) | V6(bits: nat)

  const TWO_32 := 0x1_0000_0000
  const TWO_64 := 0x1_0000_0000_0000_0000

  /** An IPv4 address written in IPv6: eighty zeros, sixteen ones, then its bits. */
  predicate Mapped(bits: nat) { bits / TWO_32 == 0xffff }

  /** An IPv4 address, or an IPv6 /64. */
  function AddressKey(ip: Ip): Ip {
    match ip
    case V4(bits) => ip
    case V6(bits) => if Mapped(bits) then V4(bits % TWO_32) else V6(bits - bits % TWO_64)
  }

  /** Two addresses count as one exactly when they are the same IPv4 address, however written, or
      share the upper 64 bits of an IPv6 one. */
  lemma OneAddressIff(a: Ip, b: Ip)
    ensures AddressKey(a) == AddressKey(b)
       <==> match (a, b)
            case (V4(x), V4(y)) => x == y
            case (V4(x), V6(y)) => y == 0xffff_0000_0000 + x % 0x1_0000_0000 && x < 0x1_0000_0000
            case (V6(x), V4(y)) => x == 0xffff_0000_0000 + y % 0x1_0000_0000 && y < 0x1_0000_0000
            case (V6(x), V6(y)) =>
              if x / 0x1_0000_0000 == 0xffff || y / 0x1_0000_0000 == 0xffff then x == y
              else x / 0x1_0000_0000_0000_0000 == y / 0x1_0000_0000_0000_0000
  {
  }

  // ---------- one address ----------

  /** When its window previous, and the attempts counted since. */
  datatype Slot = Slot(start: int, n: nat)

  function Blocked(slot: Option<Slot>, max: nat, window: nat, now: int): bool {
    slot.Some? && slot.value.n >= max && now - slot.value.start < window
  }

  /** How long the address is told to wait: whole seconds, one at least. */
  function Wait(slot: Slot, window: nat, now: int): nat {
    var elapsed := if now < slot.start then 0 else now - slot.start;
    var seconds := (if elapsed < window then window - elapsed else 0) / SECOND;
    if seconds < 1 then 1 else seconds
  }

  /** One more attempt: a window that is over starts again. */
  function Counted(slot: Option<Slot>, window: nat, now: int): Slot {
    var over := slot == None || now - slot.value.start >= window;
    var open := if over then Slot(now, 0) else slot.value;
    open.(n := open.n + 1)
  }

  /** The wait is rounded down: an address that waits as told is let in exactly when its window
      ends on a whole second from now, or within one. */
  lemma WaitIsEnoughIff(slot: Slot, max: nat, window: nat, now: int)
    requires slot.start <= now && Blocked(Some(slot), max, window, now)
    ensures var left := window - (now - slot.start);
            !Blocked(Some(slot), max, window, now + Wait(slot, window, now) * 1_000_000_000)
            <==> left < 1_000_000_000 || left % 1_000_000_000 == 0
  {
  }

  /** No one is told to wait less than a second, or longer than a window of a second or more, even by a
      clock behind the window's own start. */
  lemma WaitIsBounded(slot: Slot, window: nat, now: int)
    ensures 1 <= Wait(slot, window, now)
    ensures Wait(slot, window, now) == 1 || Wait(slot, window, now) * 1_000_000_000 <= window
    ensures now <= slot.start && window >= 1_000_000_000 ==> Wait(slot, window, now) == window / 1_000_000_000
  {
  }

  // ---------- the limiter ----------

  class Limiter {
    const max: nat
    const window: nat
    var slots: map<Ip, Slot>

    ghost function SlotOf(ip: Ip): Option<Slot>
      reads this
    {
      Find(slots, AddressKey(ip))
    }

    constructor (max: nat, window: nat)
      ensures this.max == max && this.window == window && slots == map[]
    {
      this.max, this.window, slots := max, window, map[];
    }

    /** `Err(seconds)` when the address must wait. */
    method Check(ip: Ip, now: int) returns (r: Result<(), nat>)
      ensures r.Err? <==> Blocked(SlotOf(ip), max, window, now)
      ensures r.Err? ==> r.error == Wait(SlotOf(ip).value, window, now)
    {
      var key := AddressKey(ip);
      if key in slots && slots[key].n >= max && now - slots[key].start < window {
        r := Err(Wait(slots[key], window, now));
      } else {
        r := Ok(());
      }
    }

    /** Counts an attempt; a map grown large first loses the windows that are over. */
    method Count(ip: Ip, now: int)
      modifies this
      ensures slots == PurgingStep(old(slots), window, AddressKey(ip), now)
    {
      if |slots| > PURGE_ABOVE {
        slots := map k | k in slots && now - slots[k].start < window :: slots[k];
      }
      var key := AddressKey(ip);
      if key !in slots {
        slots := slots[key := Slot(now, 0)];
      }
      if now - slots[key].start >= window {
        slots := slots[key := Slot(now, 0)];
      }
      slots := slots[key := slots[key].(n := slots[key].n + 1)];
    }

    /** Counts a failure. */
    method Fail(ip: Ip, now: int)
      modifies this
      ensures slots == PurgingStep(old(slots), window, AddressKey(ip), now)
    {
      Count(ip, now);
    }

    /** Counts this call, unless the address is over the limit. */
    method Hit(ip: Ip, now: int) returns (r: Result<(), nat>)
      modifies this
      ensures r.Err? <==> Blocked(old(SlotOf(ip)), max, window, now)
      ensures slots == if r.Ok? then PurgingStep(old(slots), window, AddressKey(ip), now) else old(slots)
    {
      r := Check(ip, now);
      if r.Err? {
        return;
      }
      Count(ip, now);
    }
  }

  // ---------- the purge is unobservable ----------

  function Find(slots: map<Ip, Slot>, key: Ip): Option<Slot> {
    if key in slots then Some(slots[key]) else None
  }

  function Purged(slots: map<Ip, Slot>, window: nat, now: int): map<Ip, Slot> {
    if |slots| > PURGE_ABOVE then map k | k in slots && now - slots[k].start < window :: slots[k] else slots
  }

  function PurgingStep(slots: map<Ip, Slot>, window: nat, key: Ip, now: int): map<Ip, Slot> {
    var kept := Purged(slots, window, now);
    kept[key := Counted(Find(kept, key), window, now)]
  }

  /** An attempt counted: whose, and when. */
  datatype Attempt = Attempt(key: Ip, at: int)

  function Purging(attempts: seq<Attempt>, window: nat): map<Ip, Slot> {
    if attempts == [] then map[]
    else var last := attempts[|attempts| - 1];
         PurgingStep(Purging(attempts[..|attempts| - 1], window), window, last.key, last.at)
  }

  /** A map of more than ten thousand addresses is purged by the next count: every other window over
      by now goes, and nothing else; a smaller one keeps them all. */
  lemma OnlyTheOverArePurged(slots: map<Ip, Slot>, window: nat, key: Ip, now: int)
    ensures var after := PurgingStep(slots, window, key, now);
            && key in after
            && (forall k :: k != key ==>
                  (k in after <==> k in slots && (|slots| <= 10_000 || now < slots[k].start + window)))
            && (forall k :: k in after && k != key ==> after[k] == slots[k])
            && after[key] == (if key in slots && now < slots[key].start + window
                              then Slot(slots[key].start, slots[key].n + 1) else Slot(now, 1))
  {
    var kept := Purged(slots, window, now);
    assert forall k :: k in kept ==> k in slots && kept[k] == slots[k];
  }

  /** A limiter of one address that never forgets: the attempts of the others do not exist. */
  function Alone(attempts: seq<Attempt>, window: nat, key: Ip): Option<Slot> {
    if attempts == [] then None
    else var last, before := attempts[|attempts| - 1], Alone(attempts[..|attempts| - 1], window, key);
         if last.key == key then Some(Counted(before, window, last.at)) else before
  }

  predicate InOrder(attempts: seq<Attempt>) {
    forall i, j :: 0 <= i < j < |attempts| ==> attempts[i].at <= attempts[j].at
  }

  predicate Past(attempts: seq<Attempt>, now: int) {
    forall i :: 0 <= i < |attempts| ==> attempts[i].at <= now
  }

  /** Whatever the interleaving of addresses and however large the map grew, what the limiter
      knows of an address is what a limiter of that address alone would know, or nothing when that
      window is over. */
  lemma {:induction false} EachAddressIsAlone(attempts: seq<Attempt>, window: nat, key: Ip, now: int)
    requires InOrder(attempts) && Past(attempts, now)
    ensures var known, alone := Find(Purging(attempts, window), key), Alone(attempts, window, key);
            known == alone || (known == None && now - alone.value.start >= window)
    decreases |attempts|
  {
    if attempts != [] {
      var before, last := attempts[..|attempts| - 1], attempts[|attempts| - 1];
      assert Past(before, last.at) && Past(before, now);
      EachAddressIsAlone(before, window, key, last.at);
    }
  }

  /** So every answer, the seconds to wait included, is the one a limiter that never forgets gives. */
  lemma PurgeIsUnobservable(attempts: seq<Attempt>, max: nat, window: nat, key: Ip, now: int)
    requires InOrder(attempts) && Past(attempts, now)
    ensures var known, alone := Find(Purging(attempts, window), key), Alone(attempts, window, key);
            && (Blocked(known, max, window, now) <==> Blocked(alone, max, window, now))
            && (Blocked(known, max, window, now) ==> Wait(known.value, window, now) == Wait(alone.value, window, now))
            && Counted(known, window, now) == Counted(alone, window, now)
  {
    EachAddressIsAlone(attempts, window, key, now);
  }

  // ---------- how many get in ----------

  /** What the callers of one address do: ask, count an attempt they were let make, or not count it
      after all. Asking and counting are two steps, and others may come between. */
  datatype Step = Ask(now: int) | Tally(now: int) | Drop

  /** The window's slot, the callers let in that have not counted yet, and the times counted. */
  datatype Gate = Gate(slot: Option<Slot>, inFlight: nat, counted: seq<int>, clock: int)

  function Do(g: Gate, max: nat, window: nat, step: Step): Gate {
    match step
    case Ask(now) =>
      if Blocked(g.slot, max, window, now) then g.(clock := now)
      else g.(inFlight := g.inFlight + 1, clock := now)
    case Tally(now) =>
      if g.inFlight == 0 then g
      else Gate(Some(Counted(g.slot, window, now)), g.inFlight - 1, g.counted + [now], now)
    case Drop => if g.inFlight == 0 then g else g.(inFlight := g.inFlight - 1)
  }

  function Passed(steps: seq<Step>, max: nat, window: nat): Gate {
    if steps == [] then Gate(None, 0, [], 0)
    else Do(Passed(steps[..|steps| - 1], max, window), max, window, steps[|steps| - 1])
  }

  /** The clock never steps back, and no more than `callers` are let in without having counted. */
  predicate Scheduled(steps: seq<Step>, max: nat, window: nat, callers: nat) {
    steps == [] ||
    (var before, last := steps[..|steps| - 1], steps[|steps| - 1];
     && Scheduled(before, max, window, callers)
     && (last.Drop? || last.now >= Passed(before, max, window).clock)
     && Passed(steps, max, window).inFlight <= callers)
  }

  function CountIn(times: seq<int>, from: int, to: int): nat {
    if times == [] then 0
    else CountIn(times[..|times| - 1], from, to) + if from <= times[|times| - 1] < to then 1 else 0
  }

  /** Counts of one address, as the limiter sees them. */
  function Of(key: Ip, times: seq<int>): seq<Attempt> {
    seq(|times|, i requires 0 <= i < |times| => Attempt(key, times[i]))
  }

  /** The gate's slot is the limiter's, for the attempts counted so far. */
  lemma {:induction false} GateIsTheLimiter(steps: seq<Step>, max: nat, window: nat, key: Ip)
    ensures var g := Passed(steps, max, window); g.slot == Alone(Of(key, g.counted), window, key)
  {
    if steps != [] {
      GateIsTheLimiter(steps[..|steps| - 1], max, window, key);
      var before, last := Passed(steps[..|steps| - 1], max, window), steps[|steps| - 1];
      if last.Tally? && before.inFlight > 0 {
        var attempts := Of(key, before.counted + [last.now]);
        assert attempts[..|attempts| - 1] == Of(key, before.counted);
      }
    }
  }

  /** No limit lets no one in: the first attempt of a window always passes. */
  function AtLeastOne(max: nat): nat {
    if max == 0 then 1 else max
  }

  /** How many a window may count when some callers overlap. */
  function Most(max: nat, callers: nat): int { AtLeastOne(max) + callers - 1 }

  /** Every count was made by now, in the window of the slot or before it; the slot counts those of
      its window, the window before held no more than it may, and those in flight will fit. */
  predicate Tidy(g: Gate, max: nat, window: nat, callers: nat) {
    && g.inFlight <= callers
    && match g.slot
       case None => g.counted == []
       case Some(s) =>
         (&& callers >= 1 && s.start <= g.clock
          && (forall i :: 0 <= i < |g.counted| ==> g.counted[i] <= g.clock && g.counted[i] < s.start + window)
          && s.n == CountIn(g.counted, s.start, s.start + window) <= Most(max, callers)
          && CountIn(g.counted, s.start - window + 1, s.start) <= Most(max, callers)
          && (g.clock - s.start < window ==> s.n + g.inFlight <= Most(max, callers)))
  }

  lemma CountOneMore(times: seq<int>, at: int, from: int, to: int)
    ensures CountIn(times + [at], from, to) == CountIn(times, from, to) + if from <= at < to then 1 else 0
  {
    assert (times + [at])[..|times|] == times;
  }

  /** A part of an interval holds no more than the whole. */
  lemma {:induction false} CountWithin(times: seq<int>, from: int, to: int, low: int, high: int)
    requires forall i :: 0 <= i < |times| && from <= times[i] < to ==> low <= times[i] < high
    ensures CountIn(times, from, to) <= CountIn(times, low, high)
  {
    if times != [] {
      CountWithin(times[..|times| - 1], from, to, low, high);
    }
  }

  lemma {:induction false} CountSplits(times: seq<int>, from: int, mid: int, to: int)
    requires from <= mid <= to
    ensures CountIn(times, from, to) == CountIn(times, from, mid) + CountIn(times, mid, to)
  {
    if times != [] {
      CountSplits(times[..|times| - 1], from, mid, to);
    }
  }

  lemma {:induction false} CountNone(times: seq<int>, from: int, to: int)
    requires forall i :: 0 <= i < |times| ==> !(from <= times[i] < to)
    ensures CountIn(times, from, to) == 0
  {
    if times != [] {
      CountNone(times[..|times| - 1], from, to);
    }
  }

  lemma TallyIsTidy(g: Gate, max: nat, window: nat, callers: nat, now: int)
    requires Tidy(g, max, window, callers) && window > 0 && now >= g.clock && g.inFlight > 0
    ensures Tidy(Do(g, max, window, Tally(now)), max, window, callers)
  {
    hide CountIn;
    var after := Do(g, max, window, Tally(now));
    var start := after.slot.value.start;
    CountOneMore(g.counted, now, start, start + window);
    CountOneMore(g.counted, now, start - window + 1, start);
    if start == now {
      if g.slot.Some? && now - g.slot.value.start >= window {
        var previous := g.slot.value.start;
        CountNone(g.counted, now, now + window);
        CountWithin(g.counted, now - window + 1, now, previous, previous + window);
      } else if g.slot == None {
        CountNone(g.counted, now, now + window);
        CountNone(g.counted, now - window + 1, now);
      }
    }
  }

  lemma StepIsTidy(g: Gate, max: nat, window: nat, callers: nat, step: Step)
    requires Tidy(g, max, window, callers) && window > 0 && (step.Drop? || step.now >= g.clock)
    requires Do(g, max, window, step).inFlight <= callers
    ensures Tidy(Do(g, max, window, step), max, window, callers)
  {
    hide CountIn;
    if step.Tally? && g.inFlight > 0 {
      TallyIsTidy(g, max, window, callers, step.now);
    }
  }

  lemma {:induction false} EveryRunIsTidy(steps: seq<Step>, max: nat, window: nat, callers: nat)
    requires Scheduled(steps, max, window, callers) && window > 0
    ensures Tidy(Passed(steps, max, window), max, window, callers)
  {
    hide Tidy, Do;
    if steps == [] {
      NobodyYet(max, window, callers);
    } else {
      EveryRunIsTidy(steps[..|steps| - 1], max, window, callers);
      StepIsTidy(Passed(steps[..|steps| - 1], max, window), max, window, callers, steps[|steps| - 1]);
    }
  }

  lemma NobodyYet(max: nat, window: nat, callers: nat)
    ensures Tidy(Gate(None, 0, [], 0), max, window, callers)
  {
  }

  /** An interval as long as the window meets two windows at most. */
  lemma {:induction false} AnyIntervalHoldsTwoWindows(steps: seq<Step>, max: nat, window: nat, callers: nat, from: int)
    requires Scheduled(steps, max, window, callers) && callers >= 1
    ensures CountIn(Passed(steps, max, window).counted, from, from + window) <= 2 * Most(max, callers)
  {
    hide Tidy, CountIn;
    var g := Passed(steps, max, window);
    if window == 0 {
      CountNone(g.counted, from, from);
    } else if steps == [] {
      CountNone(g.counted, from, from + window);
    } else {
      var before, step := Passed(steps[..|steps| - 1], max, window), steps[|steps| - 1];
      AnyIntervalHoldsTwoWindows(steps[..|steps| - 1], max, window, callers, from);
      EveryRunIsTidy(steps, max, window, callers);
      if step.Tally? && before.inFlight > 0 {
        CountOneMore(before.counted, step.now, from, from + window);
        if from <= step.now < from + window {
          LastIntervalHoldsTwoWindows(g, max, window, callers, from);
        }
      }
    }
  }

  /** An interval that reaches the clock meets the slot's window and the one before it. */
  lemma LastIntervalHoldsTwoWindows(g: Gate, max: nat, window: nat, callers: nat, from: int)
    requires Tidy(g, max, window, callers) && g.slot.Some? && from <= g.clock < from + window
    requires g.clock - g.slot.value.start < window
    ensures CountIn(g.counted, from, from + window) <= 2 * Most(max, callers)
  {
    hide CountIn;
    var start := g.slot.value.start;
    if from >= start {
      CountWithin(g.counted, from, from + window, start, start + window);
    } else {
      CountSplits(g.counted, from, start, from + window);
      CountWithin(g.counted, start, from + window, start, start + window);
      CountWithin(g.counted, from, start, start - window + 1, start);
    }
  }

  /** In every fixed window the address counts no more than its limit and the callers that
      overlapped: exactly the limit when each asks and counts before the next asks. */
  lemma AWindowHoldsTheLimit(steps: seq<Step>, max: nat, window: nat, callers: nat)
    requires Scheduled(steps, max, window, callers) && window > 0
    ensures var g := Passed(steps, max, window);
            g.slot.Some? ==>
              (&& CountIn(g.counted, g.slot.value.start, g.slot.value.start + window) == g.slot.value.n
               && g.slot.value.n <= Most(max, callers)
               && (callers == 1 ==> g.slot.value.n <= AtLeastOne(max)))
  {
    EveryRunIsTidy(steps, max, window, callers);
  }

  /** No one is refused for less: at least the limit was counted within the window before. */
  lemma RefusedWhenFull(steps: seq<Step>, max: nat, window: nat, callers: nat, now: int)
    requires Scheduled(steps, max, window, callers) && window > 0 && now >= Passed(steps, max, window).clock
    requires Blocked(Passed(steps, max, window).slot, max, window, now)
    ensures CountIn(Passed(steps, max, window).counted, now - window + 1, now + 1) >= max
  {
    hide CountIn;
    EveryRunIsTidy(steps, max, window, callers);
    var g := Passed(steps, max, window);
    var start := g.slot.value.start;
    CountWithin(g.counted, start, start + window, now - window + 1, now + 1);
  }

  lemma OneStepMore(steps: seq<Step>, step: Step, max: nat, window: nat, callers: nat)
    ensures Passed(steps + [step], max, window) == Do(Passed(steps, max, window), max, window, step)
    ensures Scheduled(steps + [step], max, window, callers)
       <==> && Scheduled(steps, max, window, callers)
            && (step.Drop? || step.now >= Passed(steps, max, window).clock)
            && Do(Passed(steps, max, window), max, window, step).inFlight <= callers
  {
    assert (steps + [step])[..|steps|] == steps;
  }

  /** Callers at the same instant: some ask and count one by one, then the others all ask before
      any of them counts. */
  function OneByOne(n: nat): seq<Step> {
    if n == 0 then [] else OneByOne(n - 1) + [Ask(0)] + [Tally(0)]
  }

  function AllAsk(n: nat, steps: seq<Step>): seq<Step> {
    if n == 0 then steps else AllAsk(n - 1, steps) + [Ask(0)]
  }

  function AllTally(n: nat, steps: seq<Step>): seq<Step> {
    if n == 0 then steps else AllTally(n - 1, steps) + [Tally(0)]
  }

  function Crowd(max: nat, callers: nat): seq<Step> {
    AllTally(callers, AllAsk(callers, OneByOne(AtLeastOne(max) - 1)))
  }

  /** A schedule, its callers in flight, and its count since time 0. */
  predicate Reaches(steps: seq<Step>, max: nat, window: nat, callers: nat, inFlight: nat, n: nat) {
    var g := Passed(steps, max, window);
    && Scheduled(steps, max, window, callers)
    && g.inFlight == inFlight && g.clock == 0 && g.slot == if n == 0 then None else Some(Slot(0, n))
  }

  lemma NoStepYet(max: nat, window: nat, callers: nat)
    ensures Reaches([], max, window, callers, 0, 0)
  {
  }

  lemma OneMoreAsks(steps: seq<Step>, max: nat, window: nat, callers: nat, inFlight: nat, n: nat)
    requires Reaches(steps, max, window, callers, inFlight, n)
    requires window > 0 && inFlight < callers && (n == 0 || n < max)
    ensures Reaches(steps + [Ask(0)], max, window, callers, inFlight + 1, n)
  {
    hide Scheduled, Passed;
    OneStepMore(steps, Ask(0), max, window, callers);
  }

  lemma OneMoreTallies(steps: seq<Step>, max: nat, window: nat, callers: nat, inFlight: nat, n: nat)
    requires Reaches(steps, max, window, callers, inFlight, n)
    requires window > 0 && 0 < inFlight <= callers
    ensures Reaches(steps + [Tally(0)], max, window, callers, inFlight - 1, n + 1)
  {
    hide Scheduled, Passed;
    OneStepMore(steps, Tally(0), max, window, callers);
  }

  lemma {:induction false} OneByOneCount(max: nat, window: nat, callers: nat, n: nat)
    requires window > 0 && callers >= 1 && n < AtLeastOne(max)
    ensures Reaches(OneByOne(n), max, window, callers, 0, n)
  {
    hide Reaches;
    if n == 0 {
      NoStepYet(max, window, callers);
    } else {
      OneByOneCount(max, window, callers, n - 1);
      OneMoreAsks(OneByOne(n - 1), max, window, callers, 0, n - 1);
      OneMoreTallies(OneByOne(n - 1) + [Ask(0)], max, window, callers, 1, n - 1);
    }
  }

  lemma {:induction false} AllMayAsk(max: nat, window: nat, callers: nat, steps: seq<Step>, n: nat, k: nat)
    requires window > 0 && k <= callers && n < AtLeastOne(max) && Reaches(steps, max, window, callers, 0, n)
    ensures Reaches(AllAsk(k, steps), max, window, callers, k, n)
    decreases k
  {
    hide Reaches;
    if k > 0 {
      AllMayAsk(max, window, callers, steps, n, k - 1);
      OneMoreAsks(AllAsk(k - 1, steps), max, window, callers, k - 1, n);
    }
  }

  lemma {:induction false} AllMayTally(max: nat, window: nat, callers: nat, steps: seq<Step>, n: nat, k: nat)
    requires window > 0 && k <= callers && Reaches(steps, max, window, callers, callers, n)
    ensures Reaches(AllTally(k, steps), max, window, callers, callers - k, n + k)
    decreases k
  {
    hide Reaches;
    if k > 0 {
      AllMayTally(max, window, callers, steps, n, k - 1);
      OneMoreTallies(AllTally(k - 1, steps), max, window, callers, callers - k + 1, n + k - 1);
    }
  }

  /** The bound on a window is reached, whatever the limit and however many callers overlap. */
  lemma TheMostIsReached(max: nat, window: nat, callers: nat)
    requires window > 0 && callers >= 1
    ensures Scheduled(Crowd(max, callers), max, window, callers)
    ensures Passed(Crowd(max, callers), max, window).slot == Some(Slot(0, Most(max, callers)))
  {
    var n := AtLeastOne(max) - 1;
    OneByOneCount(max, window, callers, n);
    AllMayAsk(max, window, callers, OneByOne(n), n, callers);
    AllMayTally(max, window, callers, AllAsk(callers, OneByOne(n)), n, callers);
    hide Scheduled, Passed, OneByOne, AllAsk, AllTally;
  }

  /** No window of any run counts more than the limit exactly when the limit lets someone in and
      no two callers overlap. */
  lemma TheLimitHoldsIff(max: nat, window: nat, callers: nat)
    requires window > 0 && callers >= 1
    ensures (forall steps | Scheduled(steps, max, window, callers) ::
               Passed(steps, max, window).slot.Some? ==> Passed(steps, max, window).slot.value.n <= max)
            <==> max >= 1 && callers == 1
  {
    hide Scheduled, Passed, Crowd;
    if max >= 1 && callers == 1 {
      forall steps | Scheduled(steps, max, window, callers)
        ensures Passed(steps, max, window).slot.Some? ==> Passed(steps, max, window).slot.value.n <= max
      {
        AWindowHoldsTheLimit(steps, max, window, callers);
      }
    } else {
      TheMostIsReached(max, window, callers);
    }
  }
}
