/** Drag deltas accumulated in one atomic 32-bit word as two saturating 16-bit lanes. */
module PanLanes {

  const LANE := 0x1_0000

  type i16 = x: int | -0x8000 <= x < 0x8000
  type word = x: int | 0 <= x < LANE * LANE

  function ToUnsigned(x: i16): (u: nat)
    ensures u < LANE
  {
    if x < 0 then x + LANE else x
  }

  function ToSigned(u: nat): i16
    requires u < LANE
  {
    if u >= 0x8000 then u - LANE else u
  }

  function Pack(x: i16, y: i16): word {
    ToUnsigned(x) + ToUnsigned(y) * LANE
  }

  function UnpackX(w: word): i16 {
    ToSigned(w % LANE)
  }

  function UnpackY(w: word): i16 {
    ToSigned(w / LANE)
  }

  lemma PackUnpack(x: i16, y: i16)
    ensures UnpackX(Pack(x, y)) == x && UnpackY(Pack(x, y)) == y
  {
    var u, v := ToUnsigned(x), ToUnsigned(y);
    assert (u + v * LANE) % LANE == u && (u + v * LANE) / LANE == v;
  }

  lemma UnpackPack(w: word)
    ensures Pack(UnpackX(w), UnpackY(w)) == w
  {
    assert w == w % LANE + w / LANE * LANE;
  }

  /** The first lane is the low half of the word and the second the high half, both in two's complement. */
  lemma LanesOf(w: word)
    ensures UnpackX(w) == w % 65_536 || UnpackX(w) == w % 65_536 - 65_536
    ensures UnpackY(w) == w / 65_536 || UnpackY(w) == w / 65_536 - 65_536
  {
  }

  function Saturate(x: int): i16 {
    if x < -0x8000 then -0x8000 else if x >= 0x8000 then 0x7FFF else x
  }

  function Accumulate(current: word, delta: word): word {
    Pack(Saturate(UnpackX(current) + UnpackX(delta)), Saturate(UnpackY(current) + UnpackY(delta)))
  }

  // ----- interleaved submits and drains

  /** A submitted delta in lane units, or a drain that swaps the word for zero. */
  datatype Event = Submit(x: i16, y: i16) | Drain

  /** The word after one atomic event; an all-zero delta is not submitted. */
  function After(w: word, e: Event): word {
    match e
    case Submit(x, y) => if x == 0 && y == 0 then w else Accumulate(w, Pack(x, y))
    case Drain => 0
  }

  function AfterAll(w: word, events: seq<Event>): word {
    if events == [] then w else After(AfterAll(w, events[..|events| - 1]), events[|events| - 1])
  }

  // ----- one lane

  datatype Lane = X | Y

  function Value(w: word, lane: Lane): i16 {
    match lane case X => UnpackX(w) case Y => UnpackY(w)
  }

  function Delta(e: Event, lane: Lane): i16
    requires e.Submit?
  {
    match lane case X => e.x case Y => e.y
  }

  function Submitted(events: seq<Event>, lane: Lane): int {
    if events == [] then 0
    else
      var e := events[|events| - 1];
      Submitted(events[..|events| - 1], lane) + if e.Submit? then Delta(e, lane) else 0
  }

  /** Sum of what the drains returned. */
  function Drained(events: seq<Event>, lane: Lane): int {
    if events == [] then 0
    else
      var before := events[..|events| - 1];
      Drained(before, lane) + if events[|events| - 1].Drain? then Value(AfterAll(0, before), lane) else 0
  }

  /** Sum of what saturation cut off. */
  function Clipped(events: seq<Event>, lane: Lane): int {
    if events == [] then 0
    else
      var before, e := events[..|events| - 1], events[|events| - 1];
      Clipped(before, lane)
      + if e.Submit? then Excess(Value(AfterAll(0, before), lane) + Delta(e, lane)) else 0
  }

  function Excess(sum: int): int {
    sum - Saturate(sum)
  }

  /** No running sum of the lane leaves the 16-bit range. */
  ghost predicate StaysInRange(events: seq<Event>, lane: Lane) {
    events == [] ||
    (var before, e := events[..|events| - 1], events[|events| - 1];
     && StaysInRange(before, lane)
     && (e.Submit? ==> -0x8000 <= Value(AfterAll(0, before), lane) + Delta(e, lane) < 0x8000))
  }

  lemma SubmitMovesLane(w: word, e: Event, lane: Lane)
    requires e.Submit?
    ensures Value(After(w, e), lane) == Saturate(Value(w, lane) + Delta(e, lane))
    ensures -32_768 <= Value(w, lane) + Delta(e, lane) <= 32_767 ==>
              Value(After(w, e), lane) == Value(w, lane) + Delta(e, lane)
    ensures Value(w, lane) + Delta(e, lane) > 32_767 ==> Value(After(w, e), lane) == 32_767
    ensures Value(w, lane) + Delta(e, lane) < -32_768 ==> Value(After(w, e), lane) == -32_768
  {
    PackUnpack(e.x, e.y);
    PackUnpack(Saturate(UnpackX(w) + e.x), Saturate(UnpackY(w) + e.y));
  }

  /** Nothing is lost but what saturation cuts off: submitted equals drained plus pending plus clipped. */
  lemma {:induction false} PanIsConserved(events: seq<Event>, lane: Lane)
    ensures Submitted(events, lane) == Drained(events, lane) + Value(AfterAll(0, events), lane) + Clipped(events, lane)
    ensures StaysInRange(events, lane) ==> Clipped(events, lane) == 0
  {
    if events != [] {
      var before, e := events[..|events| - 1], events[|events| - 1];
      PanIsConserved(before, lane);
      if e.Submit? {
        SubmitMovesLane(AfterAll(0, before), e, lane);
      }
    }
  }

  /** The saturating sum of a series of deltas. */
  function SaturatingSum(events: seq<Event>, lane: Lane): i16
    requires forall i :: 0 <= i < |events| ==> events[i].Submit?
  {
    if events == [] then 0
    else Saturate(SaturatingSum(events[..|events| - 1], lane) + Delta(events[|events| - 1], lane))
  }

  /** What is pending is the saturating sum of the deltas since the last drain. */
  lemma {:induction false} PendingIsSinceLastDrain(before: seq<Event>, since: seq<Event>, lane: Lane)
    requires before == [] || before[|before| - 1].Drain?
    requires forall i :: 0 <= i < |since| ==> since[i].Submit?
    ensures Value(AfterAll(0, before + since), lane) == SaturatingSum(since, lane)
  {
    var all := before + since;
    if since == [] {
      assert all == before;
    } else {
      var rest, e := since[..|since| - 1], since[|since| - 1];
      assert all[..|all| - 1] == before + rest;
      PendingIsSinceLastDrain(before, rest, lane);
      SubmitMovesLane(AfterAll(0, before + rest), e, lane);
    }
  }
}
