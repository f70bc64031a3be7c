/** One writer and one reader of a shared region guarded by a sequence number, as
    interleaved atomic steps. The writer makes the number odd, stores cell by cell and
    publishes the next even number; the reader copies cells in any order it likes and
    keeps the copy only if the number was even and unchanged. */
module SeqLock {

  datatype Store<C, V> = Store(cell: C, value: V)

  /** A writer call in progress. `completes` is false for a call that returns an error half
      way, without the closing store of the sequence number. */
  datatype Writer<C, V> = Idle | Storing(odd: nat, todo: seq<Store<C, V>>, completes: bool)

  datatype Reader<!C, V> = Waiting | Copying(before: nat, copy: map<C, V>)

  datatype Accepted<!C, V> = Accepted(sequence: nat, copy: map<C, V>)

  /** `published` and `accepted` record the history; no step reads them. */
  datatype State<!C, V> = State(
    sequence: nat,
    memory: map<C, V>,
    writer: Writer<C, V>,
    reader: Reader<C, V>,
    published: map<nat, map<C, V>>,
    accepted: seq<Accepted<C, V>>)

  datatype Step<C, V> =
    | BeginWrite(todo: seq<Store<C, V>>, completes: bool)
    | StoreNext
    | EndWrite
    | BeginRead(last: nat)
    | Load(cell: C)
    | GiveUp
    | EndRead

  function WithLowBitSet(n: nat): nat {
    if n % 2 == 0 then n + 1 else n
  }

  function WithLowBitCleared(n: nat): nat {
    n - n % 2
  }

  /** The number a call begun at sequence n publishes. */
  function NextPublished(n: nat): nat {
    WithLowBitCleared(WithLowBitSet(n) + 1)
  }

  predicate Enabled<C(==), V>(s: State<C, V>, step: Step<C, V>) {
    match step
    case BeginWrite(_, _) => s.writer.Idle?
    case StoreNext => s.writer.Storing? && s.writer.todo != []
    case EndWrite => s.writer.Storing? && s.writer.todo == []
    case BeginRead(_) => s.reader.Waiting?
    case Load(c) => s.reader.Copying? && c in s.memory
    case GiveUp => s.reader.Copying?
    case EndRead => s.reader.Copying?
  }

  function Apply<C, V>(s: State<C, V>, step: Step<C, V>): State<C, V>
    requires Enabled(s, step)
  {
    match step
    case BeginWrite(todo, completes) =>
      s.(sequence := s.sequence + 1, writer := Storing(WithLowBitSet(s.sequence), todo, completes))
    case StoreNext =>
      var w := s.writer.todo[0];
      s.(memory := s.memory[w.cell := w.value], writer := s.writer.(todo := s.writer.todo[1..]))
    case EndWrite =>
      if s.writer.completes then
        var n := WithLowBitCleared(s.writer.odd + 1);
        s.(sequence := n, writer := Idle, published := s.published[n := s.memory])
      else s.(writer := Idle)
    case BeginRead(last) =>
      if s.sequence == 0 || s.sequence % 2 == 1 || s.sequence == last then s
      else s.(reader := Copying(s.sequence, map[]))
    case Load(c) => s.(reader := s.reader.(copy := s.reader.copy[c := s.memory[c]]))
    case GiveUp => s.(reader := Waiting)
    case EndRead =>
      if s.sequence == s.reader.before && s.sequence % 2 == 0 then
        s.(reader := Waiting, accepted := s.accepted + [Accepted(s.sequence, s.reader.copy)])
      else s.(reader := Waiting)
  }

  ghost predicate Agrees<C(!new), V>(copy: map<C, V>, memory: map<C, V>) {
    forall c :: c in copy ==> c in memory && copy[c] == memory[c]
  }

  ghost predicate Initial<C(!new), V>(s: State<C, V>) {
    && s.sequence % 2 == 0 && s.writer.Idle? && s.reader.Waiting?
    && s.published == map[s.sequence := s.memory] && s.accepted == []
  }

  /** What every step keeps, as long as calls begin at even numbers. */
  ghost predicate Inv<C(!new), V>(s: State<C, V>) {
    && (s.writer.Idle? && s.sequence % 2 == 0 ==> s.sequence in s.published && s.published[s.sequence] == s.memory)
    && (s.writer.Storing? ==> s.sequence % 2 == 1 && s.writer.odd == s.sequence)
    && (forall n :: n in s.published ==> n % 2 == 0 && n <= s.sequence)
    && (s.reader.Copying? ==>
          && s.reader.before in s.published && s.reader.before != 0
          && (s.reader.before == s.sequence ==> Agrees(s.reader.copy, s.memory)))
    && Whole(s)
  }

  /** Every copy the reader keeps is, cell for cell, what was published under its number. */
  ghost predicate Whole<C(!new), V>(s: State<C, V>) {
    forall i :: 0 <= i < |s.accepted| ==>
                  && 0 < s.accepted[i].sequence && s.accepted[i].sequence in s.published
                  && Agrees(s.accepted[i].copy, s.published[s.accepted[i].sequence])
  }

  lemma StepKeepsInv<C(!new), V>(s: State<C, V>, step: Step<C, V>)
    requires Inv(s) && Enabled(s, step) && (step.BeginWrite? ==> s.sequence % 2 == 0)
    ensures Inv(Apply(s, step))
    ensures Apply(s, step).sequence >= s.sequence
    ensures Agrees(s.published, Apply(s, step).published)
  {
    var t := Apply(s, step);
    if step.EndWrite? && s.writer.completes {
      assert t.sequence == s.sequence + 1 && t.sequence !in s.published;
      assert Agrees(s.published, t.published);
      forall i | 0 <= i < |t.accepted|
        ensures Agrees(t.accepted[i].copy, t.published[t.accepted[i].sequence])
      {
        assert s.accepted[i] == t.accepted[i];
      }
    }
  }

  ghost predicate Runs<C(!new), V>(s: State<C, V>, steps: seq<Step<C, V>>, t: State<C, V>)
    decreases |steps|
  {
    if steps == [] then s == t
    else Enabled(s, steps[0]) && Runs(Apply(s, steps[0]), steps[1..], t)
  }

  // ----- series of writer calls

  datatype Call<C, V> = Call(todo: seq<Store<C, V>>, completes: bool)

  /** The calls that begin in a series of steps. */
  function CallsOf<C, V>(steps: seq<Step<C, V>>): seq<Call<C, V>> {
    if steps == [] then []
    else (if steps[0].BeginWrite? then [Call(steps[0].todo, steps[0].completes)] else []) + CallsOf(steps[1..])
  }

  ghost predicate AllButLastComplete<C, V>(calls: seq<Call<C, V>>) {
    forall i :: 0 <= i < |calls| - 1 ==> calls[i].completes
  }

  /** No call has failed, and the one in progress will not. */
  ghost predicate Unbroken<C, V>(s: State<C, V>) {
    if s.writer.Idle? then s.sequence % 2 == 0 else s.writer.completes
  }

  ghost predicate Ready<C, V>(s: State<C, V>, calls: seq<Call<C, V>>) {
    calls != [] ==> Unbroken(s) && AllButLastComplete(calls)
  }

  lemma StepKeepsReady<C(!new), V>(s: State<C, V>, steps: seq<Step<C, V>>)
    requires Inv(s) && steps != [] && Enabled(s, steps[0]) && Ready(s, CallsOf(steps))
    ensures Inv(Apply(s, steps[0])) && Ready(Apply(s, steps[0]), CallsOf(steps[1..]))
    ensures Apply(s, steps[0]).sequence >= s.sequence
    ensures Agrees(s.published, Apply(s, steps[0]).published)
  {
    var calls, later := CallsOf(steps), CallsOf(steps[1..]);
    if steps[0].BeginWrite? {
      assert calls[1..] == later && calls[0].completes == steps[0].completes;
      assert later != [] ==> calls[0].completes;
      assert forall i :: 0 <= i < |later| ==> later[i] == calls[i + 1];
    } else {
      assert calls == later;
    }
    StepKeepsInv(s, steps[0]);
  }

  /** A copy the reader keeps is, cell for cell, what one single call published under that
      number, over every interleaving of calls none of which begins after a failed one. */
  lemma {:induction false} NoTornReads<C(!new), V>(s: State<C, V>, steps: seq<Step<C, V>>, t: State<C, V>)
    requires Inv(s) && Runs(s, steps, t) && Ready(s, CallsOf(steps))
    ensures Inv(t) && Whole(t)
    ensures Agrees(s.published, t.published)
    decreases |steps|
  {
    if steps != [] {
      StepKeepsReady(s, steps);
      NoTornReads(Apply(s, steps[0]), steps[1..], t);
    }
  }

  // ----- a reader that passes back its last sequence number

  function LastAccepted<C, V>(s: State<C, V>): nat {
    if s.accepted == [] then 0 else s.accepted[|s.accepted| - 1].sequence
  }

  ghost predicate PassesBack<C(!new), V>(s: State<C, V>, steps: seq<Step<C, V>>)
    decreases |steps|
  {
    steps == [] || (&& (steps[0].BeginRead? ==> steps[0].last == LastAccepted(s))
                    && (Enabled(s, steps[0]) ==> PassesBack(Apply(s, steps[0]), steps[1..])))
  }

  ghost predicate Increasing<C(!new), V>(s: State<C, V>) {
    && (forall i, j :: 0 <= i < j < |s.accepted| ==> s.accepted[i].sequence < s.accepted[j].sequence)
    && LastAccepted(s) <= s.sequence
    && (s.reader.Copying? ==> LastAccepted(s) < s.reader.before)
  }

  lemma LaterIncreases<C(!new), V>(accepted: seq<Accepted<C, V>>, last: nat, next: Accepted<C, V>)
    requires forall i, j :: 0 <= i < j < |accepted| ==> accepted[i].sequence < accepted[j].sequence
    requires accepted != [] ==> accepted[|accepted| - 1].sequence == last
    ensures last < next.sequence ==>
              forall i, j :: 0 <= i < j < |accepted + [next]| ==>
                (accepted + [next])[i].sequence < (accepted + [next])[j].sequence
  {
    assert forall i :: 0 <= i < |accepted| ==> accepted[i].sequence <= last;
  }

  lemma StepKeepsIncreasing<C(!new), V>(s: State<C, V>, step: Step<C, V>)
    requires Increasing(s) && Enabled(s, step) && Apply(s, step).sequence >= s.sequence
    requires step.BeginRead? ==> step.last == LastAccepted(s)
    ensures Increasing(Apply(s, step))
  {
    if step.EndRead? {
      LaterIncreases(s.accepted, LastAccepted(s), Accepted(s.sequence, s.reader.copy));
    } else {
      assert Apply(s, step).accepted == s.accepted;
    }
  }

  lemma {:induction false} AcceptedIncrease<C(!new), V>(s: State<C, V>, steps: seq<Step<C, V>>, t: State<C, V>)
    requires Inv(s) && Increasing(s) && Runs(s, steps, t) && PassesBack(s, steps) && Ready(s, CallsOf(steps))
    ensures Increasing(t)
    decreases |steps|
  {
    if steps != [] {
      StepKeepsReady(s, steps);
      StepKeepsIncreasing(s, steps[0]);
      AcceptedIncrease(Apply(s, steps[0]), steps[1..], t);
    }
  }

  // ----- a reader left alone

  lemma {:induction false} RunThen<C(!new), V>(s: State<C, V>, steps: seq<Step<C, V>>, t: State<C, V>, last: Step<C, V>)
    requires Runs(s, steps, t) && Enabled(t, last)
    ensures Runs(s, steps + [last], Apply(t, last))
    decreases |steps|
  {
    if steps == [] {
      assert (steps + [last])[1..] == [];
    } else {
      assert (steps + [last])[1..] == steps[1..] + [last];
      RunThen(Apply(s, steps[0]), steps[1..], t, last);
    }
  }

  ghost predicate OnlyReads<C(!new), V>(steps: seq<Step<C, V>>) {
    forall i :: 0 <= i < |steps| ==> steps[i].BeginRead? || steps[i].Load? || steps[i].EndRead?
  }

  ghost function Part<C(!new), V>(memory: map<C, V>, cells: set<C>): map<C, V>
    requires cells <= memory.Keys
  {
    map c | c in cells :: memory[c]
  }

  lemma {:induction false} LoadsRun<C(!new), V>(s: State<C, V>, cells: set<C>)
    returns (steps: seq<Step<C, V>>, t: State<C, V>)
    requires s.reader.Copying? && cells <= s.memory.Keys && s.reader.copy == map[]
    ensures Runs(s, steps, t) && OnlyReads(steps)
    ensures t == s.(reader := s.reader.(copy := Part(s.memory, cells)))
    decreases |cells|
  {
    if cells == {} {
      steps, t := [], s;
      assert Part(s.memory, cells) == s.reader.copy;
    } else {
      var c :| c in cells;
      var before, u := LoadsRun(s, cells - {c});
      steps, t := before + [Load(c)], Apply(u, Load(c));
      RunThen(s, before, u, Load(c));
      assert t.reader.copy == Part(s.memory, cells);
    }
  }

  lemma {:induction false} ReadsBeginNoCall<C(!new), V>(steps: seq<Step<C, V>>)
    requires OnlyReads(steps)
    ensures CallsOf(steps) == []
  {
    if steps != [] {
      assert steps[0].BeginRead? || steps[0].Load? || steps[0].EndRead?;
      ReadsBeginNoCall(steps[1..]);
    }
  }

  /** Whenever the number is even, a reader that has not seen it can copy any cells and, with no
      step of the writer in between, accepts them. */
  lemma QuietReadAccepts<C(!new), V>(s: State<C, V>, last: nat, cells: set<C>)
    returns (steps: seq<Step<C, V>>, t: State<C, V>)
    requires s.reader.Waiting? && s.sequence % 2 == 0 && s.sequence != 0 && s.sequence != last
    requires cells <= s.memory.Keys
    ensures Runs(s, steps, t) && OnlyReads(steps) && CallsOf(steps) == []
    ensures t == s.(accepted := s.accepted + [Accepted(s.sequence, Part(s.memory, cells))])
  {
    var begun := Apply(s, BeginRead(last));
    var loads, copied := LoadsRun(begun, cells);
    t := Apply(copied, EndRead);
    RunThen(begun, loads, copied, EndRead);
    steps := [BeginRead(last)] + (loads + [EndRead]);
    assert steps[1..] == loads + [EndRead];
    ReadsBeginNoCall(steps);
  }

  // ----- running a call to its end

  function ApplyStores<C, V>(memory: map<C, V>, todo: seq<Store<C, V>>): map<C, V>
    decreases |todo|
  {
    if todo == [] then memory else ApplyStores(memory[todo[0].cell := todo[0].value], todo[1..])
  }

  lemma {:induction false} ApplyStoresConcat<C(!new), V>(memory: map<C, V>, a: seq<Store<C, V>>, b: seq<Store<C, V>>)
    ensures ApplyStores(memory, a + b) == ApplyStores(ApplyStores(memory, a), b)
    decreases |a|
  {
    if a == [] {
      assert a + b == b;
    } else {
      assert (a + b)[1..] == a[1..] + b;
      ApplyStoresConcat(memory[a[0].cell := a[0].value], a[1..], b);
    }
  }

  /** Stores to different cells leave each cell with its own value and touch no other. */
  lemma {:induction false} DistinctStores<C(!new), V>(memory: map<C, V>, todo: seq<Store<C, V>>)
    requires forall i, j :: 0 <= i < j < |todo| ==> todo[i].cell != todo[j].cell
    ensures forall i :: 0 <= i < |todo| ==>
                          todo[i].cell in ApplyStores(memory, todo)
                          && ApplyStores(memory, todo)[todo[i].cell] == todo[i].value
    ensures forall c :: (forall i :: 0 <= i < |todo| ==> todo[i].cell != c) ==>
                          && (c in ApplyStores(memory, todo) <==> c in memory)
                          && (c in memory ==> ApplyStores(memory, todo)[c] == memory[c])
    decreases |todo|
  {
    if todo != [] {
      var next := memory[todo[0].cell := todo[0].value];
      var rest := todo[1..];
      DistinctStores(next, rest);
      forall i | 0 <= i < |todo|
        ensures todo[i].cell in ApplyStores(memory, todo) && ApplyStores(memory, todo)[todo[i].cell] == todo[i].value
      {
        if i == 0 {
          assert forall k :: 0 <= k < |rest| ==> rest[k].cell != todo[0].cell;
        } else {
          assert rest[i - 1] == todo[i];
        }
      }
      forall c | forall i :: 0 <= i < |todo| ==> todo[i].cell != c
        ensures (c in ApplyStores(memory, todo) <==> c in memory)
        ensures c in memory ==> ApplyStores(memory, todo)[c] == memory[c]
      {
        assert todo[0].cell != c;
        assert forall i :: 0 <= i < |rest| ==> rest[i] == todo[i + 1];
      }
    }
  }

  // ----- the parity assumption, exactly

  /** The sequence number after a call: published when it completes, one higher when it fails. */
  function AfterCall(n: nat, completes: bool): nat {
    if completes then NextPublished(n) else n + 1
  }

  /** A writer and a reader at rest, before anything was read. The number may be odd. */
  ghost predicate AtRest<C(!new), V>(s: State<C, V>) {
    && s.writer.Idle? && s.reader.Waiting? && s.accepted == []
    && s.published == if s.sequence % 2 == 0 then map[s.sequence := s.memory] else map[]
  }

  lemma {:induction false} StoresRun<C(!new), V>(s: State<C, V>) returns (steps: seq<Step<C, V>>, t: State<C, V>)
    requires s.writer.Storing?
    ensures Runs(s, steps, t) && CallsOf(steps) == []
    ensures t == s.(memory := ApplyStores(s.memory, s.writer.todo), writer := s.writer.(todo := []))
    decreases |s.writer.todo|
  {
    if s.writer.todo == [] {
      steps, t := [], s;
    } else {
      var rest;
      rest, t := StoresRun(Apply(s, StoreNext));
      steps := [StoreNext] + rest;
      assert steps[1..] == rest;
    }
  }

  lemma CallReturns<C(!new), V>(s: State<C, V>) returns (steps: seq<Step<C, V>>, t: State<C, V>)
    requires s.writer.Storing?
    ensures Runs(s, steps, t) && CallsOf(steps) == []
    ensures t == Apply(s.(memory := ApplyStores(s.memory, s.writer.todo), writer := s.writer.(todo := [])), EndWrite)
  {
    var storing, stored := StoresRun(s);
    t := Apply(stored, EndWrite);
    RunThen(s, storing, stored, EndWrite);
    CallsConcat(storing, [EndWrite]);
    steps := storing + [EndWrite];
  }

  /** A call that is left alone stores everything and leaves the number AfterCall says. */
  lemma CallRuns<C(!new), V>(s: State<C, V>, call: Call<C, V>) returns (steps: seq<Step<C, V>>, t: State<C, V>)
    requires s.writer.Idle?
    ensures Runs(s, steps, t) && CallsOf(steps) == [call]
    ensures t.writer.Idle? && t.memory == ApplyStores(s.memory, call.todo)
            && t.sequence == AfterCall(s.sequence, call.completes)
    ensures t.reader == s.reader && t.accepted == s.accepted
    ensures t.published == if call.completes then s.published[t.sequence := t.memory] else s.published
  {
    var begin := BeginWrite(call.todo, call.completes);
    var others;
    others, t := CallReturns(Apply(s, begin));
    steps := [begin] + others;
    assert steps[1..] == others;
  }

  lemma {:induction false} CallsConcat<C, V>(a: seq<Step<C, V>>, b: seq<Step<C, V>>)
    ensures CallsOf(a + b) == CallsOf(a) + CallsOf(b)
    decreases |a|
  {
    if a == [] {
      assert a + b == b;
    } else {
      assert (a + b)[1..] == a[1..] + b;
      CallsConcat(a[1..], b);
    }
  }

  lemma {:induction false} RunsCompose<C(!new), V>(s: State<C, V>, a: seq<Step<C, V>>, t: State<C, V>,
                                                   b: seq<Step<C, V>>, u: State<C, V>)
    requires Runs(s, a, t) && Runs(t, b, u)
    ensures Runs(s, a + b, u)
    decreases |a|
  {
    if a == [] {
      assert a + b == b;
    } else {
      assert (a + b)[1..] == a[1..] + b;
      RunsCompose(Apply(s, a[0]), a[1..], t, b, u);
    }
  }

  /** A call that begins at an odd number stores under an even one that nothing was published
      under, and a reader accepts that number while the call is still at work. */
  lemma OddCallExposed<C(!new), V>(s: State<C, V>, call: Call<C, V>) returns (steps: seq<Step<C, V>>, t: State<C, V>)
    requires s.writer.Idle? && s.reader.Waiting? && s.sequence % 2 == 1
    requires forall n :: n in s.published ==> n <= s.sequence
    ensures Runs(s, steps, t) && CallsOf(steps) == [call]
    ensures !Whole(t)
  {
    var begin := BeginWrite(call.todo, call.completes);
    var begun := Apply(s, begin);
    var reading := Apply(begun, BeginRead(0));
    t := Apply(reading, EndRead);
    steps := [begin, BeginRead(0), EndRead];
    assert steps[1..][1..][1..] == [];
    assert Runs(reading, steps[2..], t) && steps[1..][1..] == steps[2..];
    assert Runs(begun, steps[1..], t);
    assert CallsOf(steps[2..]) == CallsOf(steps[3..]) == [];
    assert CallsOf(steps[1..]) == CallsOf(steps[2..]);
    assert t.accepted[|s.accepted|].sequence !in t.published;
  }

  /** Such a copy can be wrong for good: if the call changes a cell, the reader may keep the old
      value under the very number the call then publishes the new one with. */
  lemma OddCallTears<C(!new), V>(s: State<C, V>, call: Call<C, V>, c: C)
    returns (steps: seq<Step<C, V>>, t: State<C, V>, a: Accepted<C, V>)
    requires s.writer.Idle? && s.reader.Waiting? && s.sequence % 2 == 1 && call.completes && c in s.memory
    requires c in ApplyStores(s.memory, call.todo) && ApplyStores(s.memory, call.todo)[c] != s.memory[c]
    ensures Runs(s, steps, t) && CallsOf(steps) == [call] && t.writer.Idle?
    ensures a in t.accepted && a.sequence == t.sequence && a.sequence in t.published
    ensures !Agrees(a.copy, t.published[a.sequence])
  {
    var begun := Apply(s, BeginWrite(call.todo, true));
    var reading, kept := QuietReadAccepts(begun, 0, {c});
    var storing;
    storing, t := CallReturns(kept);
    a := Accepted(s.sequence + 1, Part(s.memory, {c}));
    assert kept.accepted[|s.accepted|] == a;
    RunsCompose(begun, reading, kept, storing, t);
    CallsConcat(reading, storing);
    steps := [BeginWrite(call.todo, true)] + (reading + storing);
    assert steps[1..] == reading + storing;
  }

  /** Where a call begins after a failed one, or the first begins at an odd number, there is a
      run in which the reader accepts what was not published. */
  lemma {:induction false} BadSeriesExposed<C(!new), V>(s: State<C, V>, calls: seq<Call<C, V>>)
    returns (steps: seq<Step<C, V>>, t: State<C, V>)
    requires s.writer.Idle? && s.reader.Waiting? && forall n :: n in s.published ==> n <= s.sequence
    requires calls != [] && !(s.sequence % 2 == 0 && AllButLastComplete(calls))
    ensures Runs(s, steps, t) && CallsOf(steps) <= calls && !Whole(t)
    decreases |calls|
  {
    if s.sequence % 2 == 1 {
      steps, t := OddCallExposed(s, calls[0]);
    } else {
      var first, u := CallRuns(s, calls[0]);
      var later := calls[1..];
      assert calls[0].completes ==> !AllButLastComplete(later) by {
        if AllButLastComplete(later) {
          assert forall i :: 0 < i < |calls| - 1 ==> calls[i] == later[i - 1];
        }
      }
      var rest;
      rest, t := BadSeriesExposed(u, later);
      steps := first + rest;
      RunsCompose(s, first, u, rest, t);
      CallsConcat(first, rest);
      assert calls == [calls[0]] + later;
    }
  }

  /** In every interleaving of the calls, however far it gets, the reader keeps only what was
      published under the number it kept it with. */
  ghost predicate SafeSeries<C(!new), V(!new)>(s: State<C, V>, calls: seq<Call<C, V>>) {
    forall steps, t :: Runs(s, steps, t) && CallsOf(steps) <= calls ==> Whole(t)
  }

  /** A series of calls is safe exactly when it starts at an even number and no call but the
      last one fails. */
  lemma SafeExactly<C(!new), V(!new)>(s: State<C, V>, calls: seq<Call<C, V>>)
    requires AtRest(s)
    ensures SafeSeries(s, calls) <==> (calls == [] || (s.sequence % 2 == 0 && AllButLastComplete(calls)))
  {
    if calls == [] || (s.sequence % 2 == 0 && AllButLastComplete(calls)) {
      forall steps, t | Runs(s, steps, t) && CallsOf(steps) <= calls
        ensures Whole(t)
      {
        var done := CallsOf(steps);
        assert forall i :: 0 <= i < |done| ==> done[i] == calls[i];
        NoTornReads(s, steps, t);
      }
    } else {
      var steps, t := BadSeriesExposed(s, calls);
    }
  }
}
