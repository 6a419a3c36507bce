/** What a memory plan is for: running a graph on the shared buffers gives every node
    the inputs it would see if each tensor had storage of its own. */
module Execution {
  import opened SharedObjects
  import opened GreedyPlan
  import opened NaivePlan

  newtype Byte = x: int | 0 <= x < 256

  type Bytes = seq<Byte>

  /** One node of a straight-line graph: it reads some tensors, computes, and writes some. */
  datatype Step<T> = Step(inputs: seq<T>, outputs: seq<T>)

  /** What node i computes from the values it reads. */
  type Kernel = (nat, seq<Bytes>) -> seq<Bytes>

  /** The buffers the planner sized, one per memory id, and the storage of the tensors
      it did not plan. */
  datatype Memory<T(==)> = Memory(buffers: seq<Bytes>, unplanned: map<T, Bytes>)

  /** Everything about a graph that does not change while it runs. */
  datatype Setup<!T(==)> = Setup(steps: seq<Step<T>>, nbytes: T -> nat, places: map<T, Range>, lives: map<T, Request>)

  predicate Fits(buffers: seq<Bytes>, r: Range) {
    r.mem < |buffers| && r.offset + r.size <= |buffers[r.mem]|
  }

  ghost predicate AllFit<T(!new)>(s: Setup<T>, buffers: seq<Bytes>) {
    forall t :: t in s.places ==> Fits(buffers, s.places[t]) && s.nbytes(t) <= s.places[t].size
  }

  function Lookup<T>(store: map<T, Bytes>, t: T): Bytes {
    if t in store then store[t] else []
  }

  ghost function ReadFlat<T(!new)>(s: Setup<T>, m: Memory<T>, t: T): Bytes
    requires AllFit(s, m.buffers)
  {
    if t in s.places then
      var r := s.places[t];
      m.buffers[r.mem][r.offset..r.offset + s.nbytes(t)]
    else Lookup(m.unplanned, t)
  }

  function Splice(buffer: Bytes, offset: nat, v: Bytes): (b: Bytes)
    requires offset + |v| <= |buffer|
    ensures |b| == |buffer|
  {
    buffer[..offset] + v + buffer[offset + |v|..]
  }

  ghost function WriteFlat<T(!new)>(s: Setup<T>, m: Memory<T>, t: T, v: Bytes): (m': Memory<T>)
    requires AllFit(s, m.buffers) && |v| == s.nbytes(t)
    ensures AllFit(s, m'.buffers)
  {
    if t in s.places then
      var r := s.places[t];
      var m' := m.(buffers := m.buffers[r.mem := Splice(m.buffers[r.mem], r.offset, v)]);
      assert forall i :: 0 <= i < |m.buffers| ==> |m'.buffers[i]| == |m.buffers[i]|;
      m'
    else m.(unplanned := m.unplanned[t := v])
  }

  /** Values of the right sizes for the tensors. */
  ghost predicate Typed<T(!new)>(s: Setup<T>, ts: seq<T>, vs: seq<Bytes>) {
    |vs| == |ts| && forall k :: 0 <= k < |ts| ==> |vs[k]| == s.nbytes(ts[k])
  }

  ghost predicate WellTyped<T(!new)>(s: Setup<T>, kernel: Kernel) {
    forall i: nat, vs :: i < |s.steps| ==> Typed(s, s.steps[i].outputs, kernel(i, vs))
  }

  ghost function WriteAllFlat<T(!new)>(s: Setup<T>, m: Memory<T>, ts: seq<T>, vs: seq<Bytes>): (m': Memory<T>)
    requires AllFit(s, m.buffers) && Typed(s, ts, vs)
    ensures AllFit(s, m'.buffers)
  {
    if ts == [] then m
    else
      var n := |ts| - 1;
      WriteFlat(s, WriteAllFlat(s, m, ts[..n], vs[..n]), ts[n], vs[n])
  }

  ghost function WriteAllOwn<T>(store: map<T, Bytes>, ts: seq<T>, vs: seq<Bytes>): map<T, Bytes>
    requires |ts| == |vs|
  {
    if ts == [] then store
    else WriteAllOwn(store, ts[..|ts| - 1], vs[..|ts| - 1])[ts[|ts| - 1] := vs[|ts| - 1]]
  }

  ghost function ReadAllFlat<T(!new)>(s: Setup<T>, m: Memory<T>, ts: seq<T>): seq<Bytes>
    requires AllFit(s, m.buffers)
  {
    seq(|ts|, k requires 0 <= k < |ts| => ReadFlat(s, m, ts[k]))
  }

  ghost function ReadAllOwn<T>(store: map<T, Bytes>, ts: seq<T>): seq<Bytes> {
    seq(|ts|, k requires 0 <= k < |ts| => Lookup(store, ts[k]))
  }

  /** The planned run: the memory before node i. */
  ghost function RunFlat<T(!new)>(s: Setup<T>, kernel: Kernel, init: Memory<T>, i: nat): (m: Memory<T>)
    requires AllFit(s, init.buffers) && WellTyped(s, kernel) && i <= |s.steps|
    ensures AllFit(s, m.buffers)
  {
    if i == 0 then init
    else
      var m := RunFlat(s, kernel, init, i - 1);
      var step := s.steps[i - 1];
      WriteAllFlat(s, m, step.outputs, kernel(i - 1, ReadAllFlat(s, m, step.inputs)))
  }

  /** The reference run, in which every tensor has storage of its own. */
  ghost function RunOwn<T(!new)>(s: Setup<T>, kernel: Kernel, i: nat): map<T, Bytes>
    requires WellTyped(s, kernel) && i <= |s.steps|
  {
    if i == 0 then map[]
    else
      var store := RunOwn(s, kernel, i - 1);
      var step := s.steps[i - 1];
      WriteAllOwn(store, step.outputs, kernel(i - 1, ReadAllOwn(store, step.inputs)))
  }

  /** Tensor t has been written by a node before i. */
  ghost predicate Written<T(!new)>(s: Setup<T>, i: nat, t: T) {
    exists j: nat :: j < i && j < |s.steps| && t in s.steps[j].outputs
  }

  ghost predicate WrittenBeforeRead<T(!new)>(s: Setup<T>) {
    forall i: nat, t :: i < |s.steps| && t in s.steps[i].inputs ==> Written(s, i, t)
  }

  /** Lifetimes cover every node that touches the tensor. */
  ghost predicate Covered<T(!new)>(s: Setup<T>) {
    && s.lives.Keys == s.places.Keys
    && forall i: nat, t :: i < |s.steps| && (t in s.steps[i].inputs || t in s.steps[i].outputs) && t in s.lives ==>
         s.lives[t].LiveAt(i)
  }

  /** Tensors that live at the same time share no byte. */
  ghost predicate SafePlan<T(!new)>(s: Setup<T>) {
    && s.lives.Keys == s.places.Keys
    && forall t, u :: t in s.places && u in s.places && t != u && LiveTogether(s.lives[t], s.lives[u]) ==>
         !s.places[t].Overlaps(s.places[u])
  }

  ghost predicate NeededAt<T(!new)>(s: Setup<T>, i: nat, t: T) {
    t in s.lives ==> s.lives[t].end >= i
  }

  /** Before node i, the planned memory still holds every written tensor not yet past
      its lifetime. */
  ghost predicate Agree<T(!new)>(s: Setup<T>, i: nat, m: Memory<T>, store: map<T, Bytes>)
    requires AllFit(s, m.buffers)
  {
    forall t :: Written(s, i, t) && NeededAt(s, i, t) ==> ReadFlat(s, m, t) == Lookup(store, t)
  }

  lemma Spliced(buffer: Bytes, offset: nat, v: Bytes, lo: nat, hi: nat)
    requires offset + |v| <= |buffer| && lo <= hi <= |buffer|
    ensures lo == offset && hi == offset + |v| ==> Splice(buffer, offset, v)[lo..hi] == v
    ensures hi <= offset || offset + |v| <= lo || lo == hi || v == [] ==>
              Splice(buffer, offset, v)[lo..hi] == buffer[lo..hi]
  {
    var b := Splice(buffer, offset, v);
    assert forall k :: 0 <= k < |b| ==> b[k] == if offset <= k < offset + |v| then v[k - offset] else buffer[k];
  }

  /** A write is read back, and leaves alone every tensor whose bytes it does not share. */
  lemma WriteThenRead<T(!new)>(s: Setup<T>, m: Memory<T>, t: T, v: Bytes, u: T)
    requires AllFit(s, m.buffers) && |v| == s.nbytes(t)
    requires t != u && t in s.places && u in s.places ==> !s.places[t].Overlaps(s.places[u])
    ensures ReadFlat(s, WriteFlat(s, m, t, v), u) == if u == t then v else ReadFlat(s, m, u)
  {
    if t in s.places && u in s.places {
      var r, q := s.places[t], s.places[u];
      if u == t || r.mem == q.mem {
        Spliced(m.buffers[r.mem], r.offset, v, q.offset, q.offset + s.nbytes(u));
      }
    }
  }

  /** Writing a list of tensors, seen through a tensor that shares no byte with them. */
  lemma {:induction false} WritesThenRead<T(!new)>(s: Setup<T>, m: Memory<T>, ts: seq<T>, vs: seq<Bytes>,
                                                  store: map<T, Bytes>, u: T)
    requires AllFit(s, m.buffers) && Typed(s, ts, vs)
    requires forall t :: t in ts && t != u && t in s.places && u in s.places ==> !s.places[t].Overlaps(s.places[u])
    requires u in ts || ReadFlat(s, m, u) == Lookup(store, u)
    ensures ReadFlat(s, WriteAllFlat(s, m, ts, vs), u) == Lookup(WriteAllOwn(store, ts, vs), u)
  {
    hide AllFit;
    if ts != [] {
      var n := |ts| - 1;
      var m' := WriteAllFlat(s, m, ts[..n], vs[..n]);
      WriteThenRead(s, m', ts[n], vs[n], u);
      if u != ts[n] {
        WritesThenRead(s, m, ts[..n], vs[..n], store, u);
      }
    }
  }

  /** One node keeps the agreement. */
  lemma StepAgrees<T(!new)>(s: Setup<T>, kernel: Kernel, init: Memory<T>, i: nat)
    requires AllFit(s, init.buffers) && WellTyped(s, kernel) && i < |s.steps|
    requires Covered(s) && SafePlan(s) && WrittenBeforeRead(s)
    requires Agree(s, i, RunFlat(s, kernel, init, i), RunOwn(s, kernel, i))
    ensures ReadAllFlat(s, RunFlat(s, kernel, init, i), s.steps[i].inputs) ==
            ReadAllOwn(RunOwn(s, kernel, i), s.steps[i].inputs)
    ensures Agree(s, i + 1, RunFlat(s, kernel, init, i + 1), RunOwn(s, kernel, i + 1))
  {
    var m, store, step := RunFlat(s, kernel, init, i), RunOwn(s, kernel, i), s.steps[i];
    assert ReadAllFlat(s, m, step.inputs) == ReadAllOwn(store, step.inputs) by {
      forall k | 0 <= k < |step.inputs|
        ensures ReadFlat(s, m, step.inputs[k]) == Lookup(store, step.inputs[k])
      {
        assert Written(s, i, step.inputs[k]) && NeededAt(s, i, step.inputs[k]);
      }
    }
    var vs := kernel(i, ReadAllOwn(store, step.inputs));
    forall u | Written(s, i + 1, u) && NeededAt(s, i + 1, u)
      ensures ReadFlat(s, WriteAllFlat(s, m, step.outputs, vs), u) == Lookup(WriteAllOwn(store, step.outputs, vs), u)
    {
      if u !in step.outputs {
        var j: nat :| j < i + 1 && j < |s.steps| && u in s.steps[j].outputs;
        assert Written(s, i, u) && NeededAt(s, i, u);
        assert u in s.lives ==> s.lives[u].LiveAt(j) && s.lives[u].LiveAt(i);
      }
      WritesThenRead(s, m, step.outputs, vs, store, u);
    }
  }

  lemma NothingIsWritten<T(!new)>(s: Setup<T>, kernel: Kernel, init: Memory<T>)
    requires AllFit(s, init.buffers) && WellTyped(s, kernel)
    ensures Agree(s, 0, RunFlat(s, kernel, init, 0), RunOwn(s, kernel, 0))
  {
  }

  /** The refinement: every node of the planned run reads exactly what it reads when
      each tensor has its own storage, whatever the buffers held at the start. */
  lemma {:induction false} PlannedRunRefines<T(!new)>(s: Setup<T>, kernel: Kernel, init: Memory<T>, i: nat)
    requires AllFit(s, init.buffers) && WellTyped(s, kernel) && i <= |s.steps|
    requires Covered(s) && SafePlan(s) && WrittenBeforeRead(s)
    ensures Agree(s, i, RunFlat(s, kernel, init, i), RunOwn(s, kernel, i))
    ensures i < |s.steps| ==>
              ReadAllFlat(s, RunFlat(s, kernel, init, i), s.steps[i].inputs) ==
              ReadAllOwn(RunOwn(s, kernel, i), s.steps[i].inputs)
  {
    hide *;
    if i == 0 {
      NothingIsWritten(s, kernel, init);
    } else {
      PlannedRunRefines(s, kernel, init, i - 1);
      StepAgrees(s, kernel, init, i - 1);
    }
    if i < |s.steps| {
      StepAgrees(s, kernel, init, i);
    }
  }

  /** The planned tensors in the order they were served, each at its range. */
  ghost predicate PlacedInOrder<T(!new)>(s: Setup<T>, order: seq<T>, reqs: seq<Request>, ranges: seq<Range>) {
    && |order| == |reqs| == |ranges|
    && (forall i, j :: 0 <= i < j < |order| ==> order[i] != order[j])
    && s.lives.Keys == s.places.Keys == (set t | t in order)
    && forall k :: 0 <= k < |order| ==>
         s.lives[order[k]] == reqs[k] && s.places[order[k]] == ranges[k] && s.nbytes(order[k]) <= reqs[k].size
  }

  ghost function GreedyRanges(reqs: seq<Request>, input: seq<nat>): seq<Range> {
    seq(|reqs|, k requires 0 <= k < |reqs| => RangeOf(reqs, input, k))
  }

  ghost function NaiveRanges(reqs: seq<Request>, input: seq<nat>): seq<Range> {
    seq(|reqs|, k requires 0 <= k < |reqs| => NaiveRange(reqs, input, k))
  }

  ghost predicate Sized(buffers: seq<Bytes>, sizes: seq<nat>) {
    |buffers| == |sizes| && forall m :: 0 <= m < |sizes| ==> |buffers[m]| == sizes[m]
  }

  /** Ranges that stay apart while live, inside buffers of the reported sizes, make a
      plan the refinement applies to. */
  lemma OrderedPlanIsSafe<T(!new)>(s: Setup<T>, order: seq<T>, reqs: seq<Request>, ranges: seq<Range>,
                                   buffers: seq<Bytes>, input: seq<nat>, sizes: seq<nat>)
    requires PlacedInOrder(s, order, reqs, ranges) && Sized(buffers, sizes)
    requires forall k :: 0 <= k < |reqs| ==>
               reqs[k].mem < |sizes| && ranges[k].mem == reqs[k].mem && ranges[k].size == reqs[k].size &&
               ranges[k].Within(input, sizes)
    requires forall i, j :: 0 <= i < |reqs| && 0 <= j < |reqs| && i != j && LiveTogether(reqs[i], reqs[j]) ==>
               !ranges[i].Overlaps(ranges[j])
    ensures AllFit(s, buffers) && SafePlan(s)
  {
    forall t | t in s.places
      ensures Fits(buffers, s.places[t]) && s.nbytes(t) <= s.places[t].size
    {
      var k :| 0 <= k < |order| && order[k] == t;
    }
    forall t, u | t in s.places && u in s.places && t != u && LiveTogether(s.lives[t], s.lives[u])
      ensures !s.places[t].Overlaps(s.places[u])
    {
      var k :| 0 <= k < |order| && order[k] == t;
      var l :| 0 <= l < |order| && order[l] == u;
      assert !ranges[k].Overlaps(ranges[l]);
    }
  }

  /** Greedy plans are safe to run on, in whatever order the tensors were served. */
  lemma GreedyRunRefines<T(!new)>(s: Setup<T>, kernel: Kernel, init: Memory<T>, order: seq<T>,
                                  reqs: seq<Request>, input: seq<nat>, i: nat)
    requires AllValid(reqs) && PlacedInOrder(s, order, reqs, GreedyRanges(reqs, input))
    requires Sized(init.buffers, GreedySizes(reqs, input))
    requires Covered(s) && WrittenBeforeRead(s) && WellTyped(s, kernel) && i < |s.steps|
    ensures AllFit(s, init.buffers)
    ensures ReadAllFlat(s, RunFlat(s, kernel, init, i), s.steps[i].inputs) ==
            ReadAllOwn(RunOwn(s, kernel, i), s.steps[i].inputs)
  {
    hide *;
    GreedyRangesAreSafe(reqs, input);
    OrderedPlanIsSafe(s, order, reqs, GreedyRanges(reqs, input), init.buffers, input, GreedySizes(reqs, input));
    PlannedRunRefines(s, kernel, init, i);
  }

  lemma GreedyRangesAreSafe(reqs: seq<Request>, input: seq<nat>)
    requires AllValid(reqs)
    ensures var ranges, sizes := GreedyRanges(reqs, input), GreedySizes(reqs, input);
            && |ranges| == |reqs|
            && (forall k :: 0 <= k < |reqs| ==>
                  reqs[k].mem < |sizes| && ranges[k].mem == reqs[k].mem && ranges[k].size == reqs[k].size &&
                  ranges[k].Within(input, sizes))
            && forall i, j :: 0 <= i < |reqs| && 0 <= j < |reqs| && i != j && LiveTogether(reqs[i], reqs[j]) ==>
                 !ranges[i].Overlaps(ranges[j])
  {
    hide Greedy, OffsetOf, Range.Overlaps, Range.Within, ReportedSize, AllValid;
    forall k | 0 <= k < |reqs|
      ensures GreedyRanges(reqs, input)[k].Within(input, GreedySizes(reqs, input))
    {
      GreedyInBounds(reqs, input, k);
    }
    forall i, j | 0 <= i < |reqs| && 0 <= j < |reqs| && i != j && LiveTogether(reqs[i], reqs[j])
      ensures !GreedyRanges(reqs, input)[i].Overlaps(GreedyRanges(reqs, input)[j])
    {
      GreedyIsSafe(reqs, input, i, j);
    }
  }

  /** So are naive plans. */
  lemma NaiveRunRefines<T(!new)>(s: Setup<T>, kernel: Kernel, init: Memory<T>, order: seq<T>,
                                 reqs: seq<Request>, input: seq<nat>, i: nat)
    requires PlacedInOrder(s, order, reqs, NaiveRanges(reqs, input))
    requires Sized(init.buffers, NaiveSizes(reqs, input))
    requires Covered(s) && WrittenBeforeRead(s) && WellTyped(s, kernel) && i < |s.steps|
    ensures AllFit(s, init.buffers)
    ensures ReadAllFlat(s, RunFlat(s, kernel, init, i), s.steps[i].inputs) ==
            ReadAllOwn(RunOwn(s, kernel, i), s.steps[i].inputs)
  {
    hide *;
    NaiveRangesAreSafe(reqs, input);
    OrderedPlanIsSafe(s, order, reqs, NaiveRanges(reqs, input), init.buffers, input, NaiveSizes(reqs, input));
    PlannedRunRefines(s, kernel, init, i);
  }

  lemma NaiveRangesAreSafe(reqs: seq<Request>, input: seq<nat>)
    ensures var ranges, sizes := NaiveRanges(reqs, input), NaiveSizes(reqs, input);
            && |ranges| == |reqs|
            && (forall k :: 0 <= k < |reqs| ==>
                  reqs[k].mem < |sizes| && ranges[k].mem == reqs[k].mem && ranges[k].size == reqs[k].size &&
                  ranges[k].Within(input, sizes))
            && forall i, j :: 0 <= i < |reqs| && 0 <= j < |reqs| && i != j && LiveTogether(reqs[i], reqs[j]) ==>
                 !ranges[i].Overlaps(ranges[j])
  {
    hide NaiveOffset, Range.Overlaps, Range.Within;
    forall i, j | 0 <= i < |reqs| && 0 <= j < |reqs|
      ensures NaiveRanges(reqs, input)[i].Within(input, NaiveSizes(reqs, input))
      ensures i != j ==> !NaiveRanges(reqs, input)[i].Overlaps(NaiveRanges(reqs, input)[j])
    {
      NaiveIsSafe(reqs, input, i, j);
    }
  }
}
