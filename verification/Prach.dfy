/** PRACH detection: a fixed-point noise floor with a warm-up of 100 updates, the repetition
    counters of the eMTC coverage enhancement levels, and the two callers of the same detector,
    the monolithic eNB and the CU of the split. */
module Prach {
  import Arith

  const LEVELS: nat := 4
  const WARM_UP: nat := 100

  /** What rx_prach0 leaves at index 0: four uint16. */
  datatype Measurement = Measurement(preamble: nat, energy: nat, delay: nat, avg: nat)
  {
    predicate Valid() { preamble < 65536 && energy < 65536 && delay < 65536 && avg < 65536 }
  }

  /** Thresholds, and per CE level whether it is enabled and its repetitions per attempt. */
  datatype Config = Config(threshold: int, thresholdBr: int, enabled: seq<bool>, repetitions: seq<nat>)
  {
    predicate Valid() {
      |enabled| == |repetitions| == LEVELS && forall i :: 0 <= i < LEVELS && enabled[i] ==> 0 < repetitions[i]
    }
  }

  /** An indication for the MAC: for legacy UEs, and for eMTC ones. */
  datatype Event =
    | Rach(sfnSf: nat, preamble: nat, timingAdvance: nat, rnti: nat)
    | RachBr(preamble: nat, timingAdvance: nat, rnti: nat)

  datatype State = State(i0: int, counter: nat, repetition: seq<nat>, firstFrame: seq<nat>, events: seq<Event>)
  {
    /** The noise floor stays in the range of its inputs, so that none of the int products of the
        filter overflows. */
    predicate Valid() {
      0 <= i0 < 65536 && counter <= WARM_UP && |repetition| == |firstFrame| == LEVELS
    }
  }

  /** One call of the procedure. `mask` says which CE levels have a PRACH opportunity now. */
  datatype Call = Call(br: bool, frame: nat, subframe: nat, mask: seq<bool>, m: Measurement)
  {
    predicate Valid() { subframe < 10 && |mask| == LEVELS && m.Valid() }
  }

  // The noise floor.

  /** ((x * 900) >> 10) + ((a * 124) >> 10) */
  function Filter(x: nat, a: nat): nat {
    x * 900 / 1024 + a * 124 / 1024
  }

  /** An update never exceeds both its old value and its input. */
  lemma FilterBounded(x: nat, a: nat)
    ensures Filter(x, a) <= x || Filter(x, a) <= a
  {
  }

  predicate InBand(x: nat, a: nat) { a - 16 <= x <= a }

  function Distance(x: nat, a: nat): nat { if x < a then a - x else x - a }

  lemma BandIsKept(x: nat, a: nat)
    requires InBand(x, a)
    ensures InBand(Filter(x, a), a)
  {
  }

  lemma FilterApproaches(x: nat, a: nat)
    requires !InBand(x, a)
    ensures InBand(Filter(x, a), a) || Distance(Filter(x, a), a) < Distance(x, a)
  {
  }

  function Filtered(x: nat, a: nat, n: nat): nat {
    if n == 0 then x else Filter(Filtered(x, a, n - 1), a)
  }

  lemma {:induction false} StillApproaching(x: nat, a: nat, n: nat)
    ensures InBand(Filtered(x, a, n), a) || Distance(Filtered(x, a, n), a) + n <= Distance(x, a)
  {
    if n > 0 {
      StillApproaching(x, a, n - 1);
      var y := Filtered(x, a, n - 1);
      if InBand(y, a) {
        BandIsKept(y, a);
      } else {
        FilterApproaches(y, a);
      }
    }
  }

  /** Under a constant input the floor is in the band below it after as many updates as it was
      away, and stays there. */
  lemma FilterSettles(x: nat, a: nat, n: nat)
    requires Distance(x, a) <= n
    ensures InBand(Filtered(x, a, n), a)
  {
    StillApproaching(x, a, n);
    assert Distance(Filtered(x, a, n), a) == 0 ==> InBand(Filtered(x, a, n), a);
  }

  /** The band cannot be narrower: truncation holds the floor 16 below this input for ever. */
  lemma {:induction false} BandIsTight(n: nat)
    ensures Filtered(223, 239, n) == 223
  {
    if n > 0 {
      BandIsTight(n - 1);
    }
  }

  // The procedures.

  /** The detector for legacy UEs. */
  function Detect(cfg: Config, st: State, frame: nat, subframe: nat, m: Measurement): (r: State)
    requires st.Valid() && m.Valid()
    ensures r.Valid()
  {
    if st.counter == WARM_UP && m.energy > st.i0 + cfg.threshold then
      st.(events := st.events + [Rach(frame * 16 + subframe, m.preamble, m.delay, 1 + subframe)])
    else
      st.(i0 := Filter(st.i0, m.avg), counter := if st.counter < WARM_UP then st.counter + 1 else WARM_UP)
  }

  /** A CE level's counter and first frame after an opportunity. */
  function Repeat(rep: nat, first: nat, n: nat, frame: nat): (nat, nat) {
    (if rep + 1 == n then 0 else rep + 1, if rep == 0 then frame else first)
  }

  function Receives(cfg: Config, mask: seq<bool>, i: nat): bool
    requires cfg.Valid() && |mask| == LEVELS && i < LEVELS
  {
    cfg.enabled[i] && mask[i]
  }

  /** ocp_rx_prach with br_flag set. */
  function RepeatAll(cfg: Config, st: State, mask: seq<bool>, frame: nat): (r: State)
    requires cfg.Valid() && st.Valid() && |mask| == LEVELS
    ensures r.Valid() && r.i0 == st.i0 && r.counter == st.counter && r.events == st.events
  {
    st.(repetition := seq(LEVELS, i requires 0 <= i < LEVELS =>
          if Receives(cfg, mask, i) then Repeat(st.repetition[i], st.firstFrame[i], cfg.repetitions[i], frame).0
          else st.repetition[i]),
        firstFrame := seq(LEVELS, i requires 0 <= i < LEVELS =>
          if Receives(cfg, mask, i) then Repeat(st.repetition[i], st.firstFrame[i], cfg.repetitions[i], frame).1
          else st.firstFrame[i]))
  }

  /** The RA-RNTI of an eMTC UE, section 5.1.4 of 3GPP TS 36.321 with f_id 0. */
  function RaRnti(subframe: nat, firstFrame: nat): nat { 1 + subframe + 60 * (firstFrame % 40) }

  /** The detector for eMTC UEs: reads the noise floor and the warm-up counter, changes neither. */
  function DetectBr(cfg: Config, st: State, subframe: nat, m: Measurement): (r: State)
    requires cfg.Valid() && st.Valid()
    ensures r.Valid() && r.i0 == st.i0 && r.counter == st.counter
  {
    if cfg.enabled[0] && st.counter == WARM_UP && m.energy > st.i0 + cfg.thresholdBr then
      st.(events := st.events + [RachBr(m.preamble, m.delay, RaRnti(subframe, st.firstFrame[0]))])
    else st
  }

  function Step(cfg: Config, st: State, c: Call): (r: State)
    requires cfg.Valid() && st.Valid() && c.Valid()
    ensures r.Valid()
  {
    if c.br then DetectBr(cfg, RepeatAll(cfg, st, c.mask, c.frame), c.subframe, c.m)
    else Detect(cfg, st, c.frame, c.subframe, c.m)
  }

  predicate AllValid(calls: seq<Call>) { forall j :: 0 <= j < |calls| ==> calls[j].Valid() }

  /** The monolithic eNB: legacy and eMTC calls in any order. */
  function Monolithic(cfg: Config, st: State, calls: seq<Call>): (r: State)
    requires cfg.Valid() && st.Valid() && AllValid(calls)
    ensures r.Valid()
  {
    if calls == [] then st else Step(cfg, Monolithic(cfg, st, calls[..|calls| - 1]), calls[|calls| - 1])
  }

  /** The calls for legacy UEs. */
  function Legacy(calls: seq<Call>): seq<Call> {
    if calls == [] then []
    else
      var n := |calls| - 1;
      Legacy(calls[..n]) + if calls[n].br then [] else [calls[n]]
  }

  function RachEvents(events: seq<Event>): seq<Event> {
    if events == [] then []
    else
      var n := |events| - 1;
      RachEvents(events[..n]) + if events[n].Rach? then [events[n]] else []
  }

  // The copy of the detector in the CU of the split.

  /** fs6_ul_t: four entries each, of which the detector for legacy UEs reads the first. */
  datatype UlHeader = UlHeader(maxPreamble: seq<nat>, maxEnergy: seq<nat>, maxDelay: seq<nat>, avgEnergy: seq<nat>)
  {
    predicate Valid() {
      |maxPreamble| == |maxEnergy| == |maxDelay| == |avgEnergy| == LEVELS && First().Valid()
    }

    function First(): Measurement
      requires |maxPreamble| == |maxEnergy| == |maxDelay| == |avgEnergy| == LEVELS
    {
      Measurement(maxPreamble[0], maxEnergy[0], maxDelay[0], avgEnergy[0])
    }
  }

  /** The body of prach_eNB_fromsplit, for either value of its br_flag. */
  function SplitBody(cfg: Config, st: State, frame: nat, subframe: nat, h: UlHeader, brFlag: bool): State
    requires cfg.Valid() && st.Valid() && h.Valid()
  {
    if brFlag then
      if cfg.enabled[0] && st.counter == 100 && h.maxEnergy[0] > st.i0 + cfg.thresholdBr then
        var rnti := 1 + subframe + 60 * (st.firstFrame[0] % 40);
        st.(events := st.events + [RachBr(h.maxPreamble[0], h.maxDelay[0], rnti)])
      else st
    else if st.counter == 100 && h.maxEnergy[0] > st.i0 + cfg.threshold then
      st.(events := st.events + [Rach(frame * 16 + subframe, h.maxPreamble[0], h.maxDelay[0], 1 + subframe)])
    else
      var updated := st.(i0 := st.i0 * 900 / 1024 + h.avgEnergy[0] * 124 / 1024);
      if updated.counter < 100 then updated.(counter := updated.counter + 1) else updated
  }

  /** The two copies do the same, the legacy and the eMTC branch. */
  lemma CopiesAgree(cfg: Config, st: State, frame: nat, subframe: nat, h: UlHeader)
    requires cfg.Valid() && st.Valid() && h.Valid()
    ensures SplitBody(cfg, st, frame, subframe, h, false) == Detect(cfg, st, frame, subframe, h.First())
    ensures SplitBody(cfg, st, frame, subframe, h, true) == DetectBr(cfg, st, subframe, h.First())
  {
  }

  /** prach_eNB_fromsplit: br_flag is a local variable that is 0. */
  function FromSplit(cfg: Config, st: State, frame: nat, subframe: nat, h: UlHeader): (r: State)
    requires cfg.Valid() && st.Valid() && h.Valid()
    ensures r.Valid()
  {
    CopiesAgree(cfg, st, frame, subframe, h);
    SplitBody(cfg, st, frame, subframe, h, false)
  }

  /** A subframe in which the CU looked at a header. */
  datatype Heard = Heard(frame: nat, subframe: nat, h: UlHeader)

  predicate AllHeard(heard: seq<Heard>) { forall j :: 0 <= j < |heard| ==> heard[j].h.Valid() }

  /** The CU of the split. */
  function Split(cfg: Config, st: State, heard: seq<Heard>): (r: State)
    requires cfg.Valid() && st.Valid() && AllHeard(heard)
    ensures r.Valid()
  {
    if heard == [] then st
    else
      var x := heard[|heard| - 1];
      FromSplit(cfg, Split(cfg, st, heard[..|heard| - 1]), x.frame, x.subframe, x.h)
  }

  /** The headers carry the measurements of these calls. */
  predicate Carry(heard: seq<Heard>, legacy: seq<Call>) {
    && |heard| == |legacy| && AllHeard(heard)
    && forall j :: 0 <= j < |heard| ==>
         heard[j].frame == legacy[j].frame && heard[j].subframe == legacy[j].subframe && heard[j].h.First() == legacy[j].m
  }

  lemma OneMoreEvent(events: seq<Event>, e: Event)
    ensures RachEvents(events + [e]) == RachEvents(events) + if e.Rach? then [e] else []
  {
    assert (events + [e])[..|events|] == events;
  }

  /** The two sides agree on everything the legacy detector has. */
  predicate SameRach(a: State, b: State) {
    a.i0 == b.i0 && a.counter == b.counter && RachEvents(a.events) == RachEvents(b.events)
  }

  lemma DetectKeepsSame(cfg: Config, a: State, b: State, c: Call)
    requires a.Valid() && b.Valid() && c.Valid() && SameRach(a, b)
    ensures SameRach(Detect(cfg, a, c.frame, c.subframe, c.m), Detect(cfg, b, c.frame, c.subframe, c.m))
  {
    var e := Rach(c.frame * 16 + c.subframe, c.m.preamble, c.m.delay, 1 + c.subframe);
    OneMoreEvent(a.events, e);
    OneMoreEvent(b.events, e);
  }

  lemma BrKeepsSame(cfg: Config, a: State, c: Call)
    requires cfg.Valid() && a.Valid() && c.Valid() && c.br
    ensures SameRach(Step(cfg, a, c), a)
  {
    var r := RepeatAll(cfg, a, c.mask, c.frame);
    OneMoreEvent(a.events, RachBr(c.m.preamble, c.m.delay, RaRnti(c.subframe, r.firstFrame[0])));
  }

  /** The split is transparent for RACH: from headers that carry the monolithic eNB's legacy
      measurements, the CU's copy has its noise floor, its warm-up counter and its indications
      after every call, however the eMTC calls are mixed in. */
  lemma {:induction false} SplitMatchesMonolithic(cfg: Config, st: State, calls: seq<Call>, heard: seq<Heard>)
    requires cfg.Valid() && st.Valid() && AllValid(calls) && Carry(heard, Legacy(calls))
    ensures SameRach(Monolithic(cfg, st, calls), Split(cfg, st, heard))
    decreases |calls|
  {
    if calls != [] {
      var n := |calls| - 1;
      var mono := Monolithic(cfg, st, calls[..n]);
      if calls[n].br {
        assert Legacy(calls) == Legacy(calls[..n]);
        SplitMatchesMonolithic(cfg, st, calls[..n], heard);
        BrKeepsSame(cfg, mono, calls[n]);
      } else {
        var k := |heard| - 1;
        assert Legacy(calls)[..k] == Legacy(calls[..n]) && Legacy(calls)[k] == calls[n];
        SplitMatchesMonolithic(cfg, st, calls[..n], heard[..k]);
        var split := Split(cfg, st, heard[..k]);
        CopiesAgree(cfg, split, heard[k].frame, heard[k].subframe, heard[k].h);
        DetectKeepsSame(cfg, mono, split, calls[n]);
      }
    }
  }

  /** Warm-up: until the hundredth legacy call there is no indication of either kind, and the
      counter tells how many there were. */
  lemma {:induction false} WarmUp(cfg: Config, st: State, calls: seq<Call>)
    requires cfg.Valid() && st.Valid() && st.counter == 0 && AllValid(calls)
    ensures var r, n := Monolithic(cfg, st, calls), |Legacy(calls)|;
            && (r.counter == if n < WARM_UP then n else WARM_UP)
            && (n < WARM_UP ==> r.events == st.events)
  {
    if calls != [] {
      WarmUp(cfg, st, calls[..|calls| - 1]);
    }
  }

  // Repetitions of a CE level.

  /** The frames in which a level received. */
  function Received(cfg: Config, calls: seq<Call>, i: nat): seq<nat>
    requires cfg.Valid() && AllValid(calls) && i < LEVELS
  {
    if calls == [] then []
    else
      var c := calls[|calls| - 1];
      Received(cfg, calls[..|calls| - 1], i) + if c.br && Receives(cfg, c.mask, i) then [c.frame] else []
  }

  /** After the receptions in these frames, n a group: the counter is the position in the group,
      the first frame is that of the latest group begun. */
  predicate Grouped(rep: nat, first: nat, frames: seq<nat>, n: nat)
    requires 0 < n
  {
    && rep == |frames| % n
    && (frames != [] ==> first == frames[(|frames| - 1) / n * n])
  }

  lemma NextInGroup(m: nat, n: nat)
    requires 0 < n
    ensures (m + 1) % n == if m % n + 1 == n then 0 else m % n + 1
    ensures m % n == 0 ==> m / n * n == m
    ensures 0 < m && m % n != 0 ==> m / n == (m - 1) / n
  {
    var q, r := m / n, m % n;
    assert m == n * q + r;
    if r + 1 == n {
      Arith.DivModUnique(m + 1, n, q + 1, 0);
    } else {
      Arith.DivModUnique(m + 1, n, q, r + 1);
    }
    if 0 < r {
      Arith.DivModUnique(m - 1, n, q, r - 1);
    }
  }

  lemma RepeatKeepsGroups(rep: nat, first: nat, frames: seq<nat>, n: nat, frame: nat)
    requires 0 < n && Grouped(rep, first, frames, n)
    ensures var r := Repeat(rep, first, n, frame); Grouped(r.0, r.1, frames + [frame], n)
  {
    NextInGroup(|frames|, n);
  }

  lemma StepKeepsGroups(cfg: Config, st: State, c: Call, i: nat, frames: seq<nat>)
    requires cfg.Valid() && st.Valid() && c.Valid() && i < LEVELS && cfg.enabled[i]
    requires Grouped(st.repetition[i], st.firstFrame[i], frames, cfg.repetitions[i])
    ensures var r, now := Step(cfg, st, c), if c.br && Receives(cfg, c.mask, i) then [c.frame] else [];
            Grouped(r.repetition[i], r.firstFrame[i], frames + now, cfg.repetitions[i])
  {
    if c.br && Receives(cfg, c.mask, i) {
      RepeatKeepsGroups(st.repetition[i], st.firstFrame[i], frames, cfg.repetitions[i], c.frame);
    } else {
      assert frames + [] == frames;
    }
  }

  /** Whatever calls there were, the counter of an enabled level is the number of its receptions
      modulo its repetitions, and its first frame the one that began the latest group. */
  lemma {:induction false} RepetitionsAreGrouped(cfg: Config, st: State, calls: seq<Call>, i: nat)
    requires cfg.Valid() && st.Valid() && AllValid(calls) && i < LEVELS && cfg.enabled[i] && st.repetition[i] == 0
    ensures var r := Monolithic(cfg, st, calls);
            Grouped(r.repetition[i], r.firstFrame[i], Received(cfg, calls, i), cfg.repetitions[i])
  {
    if calls != [] {
      var n := |calls| - 1;
      RepetitionsAreGrouped(cfg, st, calls[..n], i);
      StepKeepsGroups(cfg, Monolithic(cfg, st, calls[..n]), calls[n], i, Received(cfg, calls[..n], i));
    }
  }

  /** The RA-RNTI tells the subframe and the first frame modulo 40. */
  lemma RaRntiIsInjective(subframe: nat, first: nat, subframe': nat, first': nat)
    requires subframe < 10 && subframe' < 10
    ensures RaRnti(subframe, first) == RaRnti(subframe', first') <==> subframe == subframe' && first % 40 == first' % 40
  {
  }

  /** The eNB's PRACH state. */
  class Enb {
    const cfg: Config
    var prachI0: int
    var prachEnergyCounter: nat
    const repetitionNumber: array<nat>
    const firstFrame: array<nat>
    var events: seq<Event>

    ghost function View(): State
      reads this, repetitionNumber, firstFrame
    {
      State(prachI0, prachEnergyCounter, repetitionNumber[..], firstFrame[..], events)
    }

    ghost predicate Valid()
      reads this, repetitionNumber, firstFrame
    {
      cfg.Valid() && View().Valid() && repetitionNumber != firstFrame
    }

    constructor (cfg: Config)
      requires cfg.Valid()
      ensures Valid() && this.cfg == cfg && fresh(repetitionNumber) && fresh(firstFrame)
      ensures View() == State(0, 0, [0, 0, 0, 0], [0, 0, 0, 0], [])
    {
      this.cfg := cfg;
      prachI0, prachEnergyCounter, events := 0, 0, [];
      repetitionNumber := new nat[][0, 0, 0, 0];
      firstFrame := new nat[][0, 0, 0, 0];
    }

    /** The eMTC branch of ocp_rx_prach: count the repetitions of the active levels. */
    method OcpRxPrachBr(frame: nat, mask: seq<bool>)
      requires Valid() && |mask| == LEVELS
      modifies repetitionNumber, firstFrame
      ensures Valid() && View() == RepeatAll(cfg, old(View()), mask, frame)
    {
      ghost var st := View();
      ghost var r := RepeatAll(cfg, st, mask, frame);
      for i := 0 to LEVELS
        invariant forall k :: 0 <= k < i ==> repetitionNumber[k] == r.repetition[k] && firstFrame[k] == r.firstFrame[k]
        invariant forall k :: i <= k < LEVELS ==> repetitionNumber[k] == st.repetition[k] && firstFrame[k] == st.firstFrame[k]
      {
        if cfg.enabled[i] && mask[i] {
          if repetitionNumber[i] == 0 {
            firstFrame[i] := frame;
          }
          repetitionNumber[i] := repetitionNumber[i] + 1;
          if repetitionNumber[i] == cfg.repetitions[i] {
            repetitionNumber[i] := 0;
          }
        }
      }
      assert repetitionNumber[..] == r.repetition && firstFrame[..] == r.firstFrame;
    }

    /** prach_procedures_ocp. */
    method PrachProceduresOcp(br: bool, frame: nat, subframe: nat, mask: seq<bool>, m: Measurement)
      requires Valid() && Call(br, frame, subframe, mask, m).Valid()
      modifies this, repetitionNumber, firstFrame
      ensures Valid() && View() == Step(cfg, old(View()), Call(br, frame, subframe, mask, m))
    {
      if br {
        OcpRxPrachBr(frame, mask);
        if cfg.enabled[0] {
          if prachEnergyCounter == 100 && m.energy > prachI0 + cfg.thresholdBr {
            events := events + [RachBr(m.preamble, m.delay, 1 + subframe + 60 * (firstFrame[0] % 40))];
          }
        }
      } else if prachEnergyCounter == 100 && m.energy > prachI0 + cfg.threshold {
        events := events + [Rach(frame * 16 + subframe, m.preamble, m.delay, 1 + subframe)];
      } else {
        prachI0 := prachI0 * 900 / 1024 + m.avg * 124 / 1024;
        if prachEnergyCounter < 100 {
          prachEnergyCounter := prachEnergyCounter + 1;
        }
      }
    }

    /** prach_eNB_fromsplit. */
    method PrachFromSplit(frame: nat, subframe: nat, header: UlHeader)
      requires Valid() && header.Valid() && subframe < 10
      modifies this
      ensures Valid() && View() == FromSplit(cfg, old(View()), frame, subframe, header)
    {
      var maxPreamble, maxPreambleEnergy := header.maxPreamble, header.maxEnergy;
      var maxPreambleDelay, avgPreambleEnergy := header.maxDelay, header.avgEnergy;
      if prachEnergyCounter == 100 && maxPreambleEnergy[0] > prachI0 + cfg.threshold {
        var preamble := Rach(frame * 16 + subframe, maxPreamble[0], maxPreambleDelay[0], 1 + subframe);
        events := events + [preamble];
      } else {
        prachI0 := prachI0 * 900 / 1024 + avgPreambleEnergy[0] * 124 / 1024;
        if prachEnergyCounter < 100 {
          prachEnergyCounter := prachEnergyCounter + 1;
        }
      }
    }
  }
}
