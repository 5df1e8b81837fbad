/** RACH over the split: the DU measures and writes into the second header of the uplink, the CU
    reads the header of what arrived first and decides. */
module Fs6Rach {
  import opened Bytes
  import opened Fs6Zone
  import opened Fs6Arrival
  import opened Prach
  import Ul = Fs6Uplink

  /** max_preamble[0], max_preamble_energy[0], max_preamble_delay[0], avg_preamble_energy[0]: what
      rx_prach0 writes for a legacy measurement. */
  const RACH_FIELDS: seq<Field> := [Field(0, 2), Field(8, 2), Field(16, 2), Field(24, 2)]

  lemma RachFieldsAreLayout()
    ensures IsLayout(RACH_FIELDS, Ul.SECOND)
  {
  }

  function RachValues(m: Measurement): seq<nat> { [m.preamble, m.energy, m.delay, m.avg] }

  lemma RachFits(m: Measurement)
    requires m.Valid()
    ensures Fits(RACH_FIELDS, RachValues(m))
  {
    assert Pow256(2) == 65536;
  }

  /** The header holds this measurement. */
  ghost predicate HoldsRach(s: seq<byte>, m: Measurement) {
    |s| == Ul.SECOND && IsLayout(RACH_FIELDS, Ul.SECOND) && Fetch(s, RACH_FIELDS) == RachValues(m)
  }

  /** Four entries of an array of uint16. */
  function Four(s: seq<byte>, at: nat): (r: seq<nat>)
    requires at + 8 <= |s|
    ensures |r| == 4 && forall i :: 0 <= i < 4 ==> r[i] == U16(s, at + 2 * i) < 65536
  {
    [U16(s, at), U16(s, at + 2), U16(s, at + 4), U16(s, at + 6)]
  }

  function HeaderOf(s: seq<byte>): (h: UlHeader)
    requires |s| == Ul.SECOND
    ensures h.Valid()
  {
    UlHeader(Four(s, 0), Four(s, 8), Four(s, 16), Four(s, 24))
  }

  lemma RachArrives(s: seq<byte>, m: Measurement)
    requires HoldsRach(s, m)
    ensures HeaderOf(s).First() == m
  {
    var vs := Fetch(s, RACH_FIELDS);
    assert vs[0] == Get(s, 0, 2) && vs[1] == Get(s, 8, 2) && vs[2] == Get(s, 16, 2) && vs[3] == Get(s, 24, 2);
  }

  /** prach_eNB_tosplit: the measurement goes to the front of the DU's zone, in a PRACH subframe. */
  method PrachToSplit(zone: BufferZone, prach: bool, m: Measurement)
    requires zone.Valid() && zone.Leads(Ul.SECOND) && m.Valid()
    modifies zone.buf, zone`blocks
    ensures zone.Valid() && zone.Leads(Ul.SECOND) && |zone.blocks| == |old(zone.blocks)|
    ensures prach ==> HoldsRach(zone.Front(Ul.SECOND), m)
    ensures !prach ==> zone.Front(Ul.SECOND) == old(zone.Front(Ul.SECOND))
    ensures forall i :: 0 < i < |zone.blocks| ==> zone.blocks[i] == old(zone.blocks)[i]
    ensures zone.blocks != [] ==> zone.blocks[0][Ul.SECOND..] == old(zone.blocks)[0][Ul.SECOND..]
  {
    if prach {
      RachFieldsAreLayout();
      RachFits(m);
      FetchOfAssign(zone.Front(Ul.SECOND), RACH_FIELDS, RachValues(m));
      StoreFront(zone, Ul.SECOND, RACH_FIELDS, RachValues(m));
    }
  }

  /** The CU's view of the header. */
  method ReadHeader(buf: array<byte>) returns (h: UlHeader)
    requires HEADER + Ul.SECOND <= buf.Length
    ensures h == HeaderOf(buf[HEADER..HEADER + Ul.SECOND])
  {
    var arrays: seq<seq<nat>> := [];
    ghost var s := buf[HEADER..HEADER + Ul.SECOND];
    for a := 0 to 4
      invariant |arrays| == a && forall b :: 0 <= b < a ==> arrays[b] == Four(s, 8 * b)
    {
      var v0 := ReadU16(buf, HEADER + 8 * a);
      var v1 := ReadU16(buf, HEADER + 8 * a + 2);
      var v2 := ReadU16(buf, HEADER + 8 * a + 4);
      var v3 := ReadU16(buf, HEADER + 8 * a + 6);
      arrays := arrays + [[v0, v1, v2, v3]];
    }
    h := UlHeader(arrays[0], arrays[1], arrays[2], arrays[3]);
  }

  /** What the CU's detector makes of a header, in a PRACH subframe. */
  ghost predicate Decides(cfg: Config, st: State, st': State, prach: bool, frame: nat, subframe: nat, s: seq<byte>) {
    && cfg.Valid() && st.Valid() && |s| == Ul.SECOND
    && st' == if prach then FromSplit(cfg, st, frame, subframe, HeaderOf(s)) else st
  }

  /** What the monolithic eNB's detector makes of a measurement. */
  ghost predicate DecidesAlone(cfg: Config, st: State, st': State, prach: bool, frame: nat, subframe: nat, m: Measurement) {
    cfg.Valid() && st.Valid() && m.Valid() && st' == if prach then Detect(cfg, st, frame, subframe, m) else st
  }

  /** From its own header the CU decides as the monolithic eNB. */
  lemma DecidesTheSame(cfg: Config, st: State, st': State, prach: bool, frame: nat, subframe: nat, s: seq<byte>, m: Measurement)
    requires Decides(cfg, st, st', prach, frame, subframe, s) && m.Valid() && (prach ==> HoldsRach(s, m))
    ensures DecidesAlone(cfg, st, st', prach, frame, subframe, m)
  {
    if prach {
      RachArrives(s, m);
      CopiesAgree(cfg, st, frame, subframe, HeaderOf(s));
    }
  }

  /** The RACH part of UL_cu_fs6, on what was received. */
  method DecideRach(enb: Enb, buf: array<byte>, prach: bool, frame: nat, subframe: nat)
    requires enb.Valid() && HEADER + Ul.SECOND <= buf.Length && subframe < 10
    modifies enb
    ensures enb.Valid()
    ensures Decides(enb.cfg, old(enb.View()), enb.View(), prach, frame, subframe, buf[HEADER..HEADER + Ul.SECOND])
  {
    if prach {
      var header := ReadHeader(buf);
      enb.PrachFromSplit(frame, subframe, header);
    }
  }

  // Runs of uplink subframes.

  /** An uplink subframe: whether it has a PRACH opportunity, the DU's legacy measurement, the
      monolithic eNB's eMTC call, the blocks sent and their order of arrival. */
  datatype Uplink = Uplink(
    prach: bool, frame: nat, subframe: nat, m: Measurement, emtc: Call, cs: seq<seq<byte>>, order: seq<nat>)
  {
    /** The first block's second header is the DU's. */
    ghost predicate Valid() {
      && subframe < 10 && m.Valid() && emtc.Valid() && emtc.br
      && cs != [] && IsOrder(order, |cs|) && AllLed(cs, Ul.SECOND) && (prach ==> HoldsRach(cs[0][..Ul.SECOND], m))
    }

    /** The header the CU reads. */
    ghost function Heard(): UlHeader
      requires Valid()
    {
      HeaderOf(Arrange(cs, order)[0][..Ul.SECOND])
    }

    /** What prach_eNB does with the measurement in a monolithic eNB. */
    function Calls(): seq<Call> {
      if prach then [Call(false, frame, subframe, emtc.mask, m), emtc] else []
    }
  }

  ghost predicate AllUplinks(us: seq<Uplink>) { forall i :: 0 <= i < |us| ==> us[i].Valid() }

  function CallsOf(us: seq<Uplink>): seq<Call> {
    if us == [] then [] else CallsOf(us[..|us| - 1]) + us[|us| - 1].Calls()
  }

  ghost function HeardOf(us: seq<Uplink>): seq<Heard>
    requires AllUplinks(us)
  {
    if us == [] then []
    else
      var n := |us| - 1;
      HeardOf(us[..n]) + if us[n].prach then [Heard(us[n].frame, us[n].subframe, us[n].Heard())] else []
  }

  lemma LegacyOfTwo(calls: seq<Call>, c: Call, e: Call)
    requires !c.br && e.br
    ensures Legacy(calls + [c, e]) == Legacy(calls) + [c]
  {
    assert (calls + [c, e])[..|calls| + 1] == calls + [c];
    assert (calls + [c])[..|calls|] == calls;
  }

  lemma CarryMore(heard: seq<Heard>, legacy: seq<Call>, x: Heard, c: Call)
    requires Carry(heard, legacy) && x.h.Valid()
    requires x.frame == c.frame && x.subframe == c.subframe && x.h.First() == c.m
    ensures Carry(heard + [x], legacy + [c])
  {
  }

  lemma UplinkCarries(u: Uplink)
    requires u.Valid() && u.prach && u.order[0] == 0
    ensures u.Heard().First() == u.m
  {
    RachArrives(u.cs[0][..Ul.SECOND], u.m);
  }

  /** With the first block first, every header carries the DU's measurement. */
  lemma {:induction false} HeadersCarry(us: seq<Uplink>)
    requires AllUplinks(us) && forall i :: 0 <= i < |us| ==> us[i].order[0] == 0
    ensures AllValid(CallsOf(us)) && Carry(HeardOf(us), Legacy(CallsOf(us)))
  {
    if us != [] {
      var n, u := |us| - 1, us[|us| - 1];
      HeadersCarry(us[..n]);
      var calls, heard := CallsOf(us[..n]), HeardOf(us[..n]);
      if u.prach {
        var c := Call(false, u.frame, u.subframe, u.emtc.mask, u.m);
        assert CallsOf(us) == calls + [c, u.emtc];
        LegacyOfTwo(calls, c, u.emtc);
        UplinkCarries(u);
        CarryMore(heard, Legacy(calls), Heard(u.frame, u.subframe, u.Heard()), c);
      } else {
        assert CallsOf(us) == calls && HeardOf(us) == heard;
      }
    }
  }

  /** RACH is transparent over any run of uplink subframes in which the first block arrives first:
      the CU has the monolithic eNB's noise floor, warm-up counter and indications. */
  lemma RachIsTransparent(cfg: Config, st: State, us: seq<Uplink>)
    requires cfg.Valid() && st.Valid() && AllUplinks(us) && forall i :: 0 <= i < |us| ==> us[i].order[0] == 0
    ensures AllValid(CallsOf(us)) && AllHeard(HeardOf(us))
    ensures SameRach(Monolithic(cfg, st, CallsOf(us)), Split(cfg, st, HeardOf(us)))
  {
    HeadersCarry(us);
    SplitMatchesMonolithic(cfg, st, CallsOf(us), HeardOf(us));
  }

  /** Some header with this measurement. */
  function Filled(m: Measurement): (s: seq<byte>)
    requires m.Valid()
    ensures HoldsRach(s, m)
  {
    RachFieldsAreLayout();
    RachFits(m);
    var blank := seq(Ul.SECOND, _ => 0);
    FetchOfAssign(blank, RACH_FIELDS, RachValues(m));
    Assign(blank, RACH_FIELDS, RachValues(m))
  }

  /** Blocks whose headers hold another measurement than the first one's. */
  function Mixed(n: nat, m: Measurement, other: Measurement): (cs: seq<seq<byte>>)
    requires m.Valid() && other.Valid()
    ensures |cs| == n && forall i :: 0 <= i < n ==> cs[i] == if i == 0 then Filled(m) else Filled(other)
  {
    seq(n, i requires 0 <= i < n => if i == 0 then Filled(m) else Filled(other))
  }

  ghost predicate Hears(cs: seq<seq<byte>>, order: seq<nat>, m: Measurement)
    requires IsOrder(order, |cs|) && cs != [] && AllLed(cs, Ul.SECOND)
  {
    HeaderOf(Arrange(cs, order)[0][..Ul.SECOND]).First() == m
  }

  lemma MixedIsMisheard(order: seq<nat>, n: nat, m: Measurement, other: Measurement)
    requires 0 < n && IsOrder(order, n) && order[0] != 0 && m.Valid() && other.Valid() && m != other
    ensures var cs := Mixed(n, m, other); AllLed(cs, Ul.SECOND) && HoldsRach(cs[0][..Ul.SECOND], m) && !Hears(cs, order, m)
  {
    var cs := Mixed(n, m, other);
    assert cs[0] == Filled(m) && Arrange(cs, order)[0] == Filled(other);
    assert cs[0][..Ul.SECOND] == cs[0] && Filled(other)[..Ul.SECOND] == Filled(other);
    RachArrives(Filled(other), other);
  }

  /** The CU hears the DU's measurement, whatever else the blocks hold, if and only if the first block
      arrives first. */
  lemma RachHeardIff(order: seq<nat>, n: nat, m: Measurement)
    requires 0 < n && IsOrder(order, n) && m.Valid()
    ensures (forall cs: seq<seq<byte>> :: |cs| == n && AllLed(cs, Ul.SECOND) && HoldsRach(cs[0][..Ul.SECOND], m) ==>
               Hears(cs, order, m)) <==> order[0] == 0
  {
    if order[0] == 0 {
      forall cs: seq<seq<byte>> | |cs| == n && AllLed(cs, Ul.SECOND) && HoldsRach(cs[0][..Ul.SECOND], m)
        ensures Hears(cs, order, m)
      {
        RachArrives(cs[0][..Ul.SECOND], m);
      }
    } else {
      MixedIsMisheard(order, n, m, m.(preamble := if m.preamble == 0 then 1 else 0));
    }
  }

  /** After the warm-up, a header that is not the DU's makes the CU indicate a random access that
      nobody made, if it looks like one. */
  lemma FalseRach(cfg: Config, st: State, u: Uplink)
    requires cfg.Valid() && st.Valid() && st.counter == WARM_UP && u.Valid() && u.prach
    requires u.m.energy <= st.i0 + cfg.threshold < u.Heard().First().energy
    ensures AllUplinks([u]) && AllValid(CallsOf([u])) && AllHeard(HeardOf([u]))
    ensures RachEvents(Monolithic(cfg, st, CallsOf([u])).events) == RachEvents(st.events)
    ensures var x := u.Heard().First();
            RachEvents(Split(cfg, st, HeardOf([u])).events) ==
              RachEvents(st.events) + [Rach(u.frame * 16 + u.subframe, x.preamble, x.delay, 1 + u.subframe)]
  {
    OneSubframe(u);
    var c, x := u.Calls()[0], u.Heard().First();
    TwoCalls(cfg, st, c, u.emtc);
    BrKeepsSame(cfg, Detect(cfg, st, c.frame, c.subframe, c.m), u.emtc);
    OneHeard(cfg, st, Heard(u.frame, u.subframe, u.Heard()));
    CopiesAgree(cfg, st, u.frame, u.subframe, u.Heard());
    OneMoreEvent(st.events, Rach(u.frame * 16 + u.subframe, x.preamble, x.delay, 1 + u.subframe));
  }

  /** Two blocks that arrive swapped: the CU hears what lay under the second one. */
  lemma SwappedIsMisheard(frame: nat, subframe: nat, m: Measurement, left: Measurement, emtc: Call) returns (u: Uplink)
    requires subframe < 10 && m.Valid() && left.Valid() && emtc.Valid() && emtc.br
    ensures u.Valid() && u.prach && u.m == m && u.order == [1, 0] && u.cs == [Filled(m), Filled(left)]
    ensures u.Heard().First() == left
  {
    SwapIsOrder();
    var cs := [Filled(m), Filled(left)];
    u := Uplink(true, frame, subframe, m, emtc, cs, [1, 0]);
    assert |Filled(m)| == |Filled(left)| == Ul.SECOND;
    assert cs[0][..Ul.SECOND] == Filled(m) && cs[1][..Ul.SECOND] == Filled(left);
    RachArrives(Filled(left), left);
  }

  lemma OneSubframe(u: Uplink)
    requires u.Valid() && u.prach
    ensures AllUplinks([u]) && CallsOf([u]) == u.Calls() && HeardOf([u]) == [Heard(u.frame, u.subframe, u.Heard())]
  {
    assert [u][..0] == [];
    assert CallsOf([]) == [] && HeardOf([]) == [];
  }

  lemma TwoCalls(cfg: Config, st: State, c: Call, e: Call)
    requires cfg.Valid() && st.Valid() && c.Valid() && e.Valid()
    ensures AllValid([c, e]) && Monolithic(cfg, st, [c, e]) == Step(cfg, Step(cfg, st, c), e)
  {
    assert [c, e][..1] == [c] && [c][..0] == [];
    assert Monolithic(cfg, st, []) == st;
    assert Monolithic(cfg, st, [c]) == Step(cfg, st, c);
  }

  lemma OneHeard(cfg: Config, st: State, x: Heard)
    requires cfg.Valid() && st.Valid() && x.h.Valid()
    ensures AllHeard([x]) && Split(cfg, st, [x]) == FromSplit(cfg, st, x.frame, x.subframe, x.h)
  {
    assert [x][..0] == [];
    assert Split(cfg, st, []) == st;
  }
}
