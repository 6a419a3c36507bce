/** `greedy` and `naive` as they run: over a list of mutable tensor specs. Both are
    tied to the plans of modules GreedyPlan and NaivePlan. */
module MemoryPlanning {
  import opened Wrappers
  import opened TensorSpecs
  import opened SharedObjects
  import opened Sums
  import opened GreedyPlan
  import opened NaivePlan

  /** What a spec asks for once realigned; a spec without a memory id goes to 1. */
  function RequestFor(spec: TensorSpec, alignment: nat): Request
    requires alignment > 0
    requires spec.start.Some? && spec.end.Some?
    reads spec`start, spec`end, spec`memId
  {
    Request(if spec.memId.Some? then spec.memId.value else 1,
            CalculateAlignedNumBytes(spec.nbytes, alignment),
            spec.start.value, spec.end.value)
  }

  ghost predicate HaveLifetimes(specs: seq<TensorSpec>)
    reads specs`start, specs`end
  {
    forall i :: 0 <= i < |specs| ==>
      specs[i].start.Some? && specs[i].end.Some? && specs[i].start.value <= specs[i].end.value
  }

  ghost function Requests(specs: seq<TensorSpec>, alignment: nat): (reqs: seq<Request>)
    requires alignment > 0 && HaveLifetimes(specs)
    reads specs`start, specs`end, specs`memId
    ensures |reqs| == |specs|
    ensures forall i :: 0 <= i < |specs| ==> reqs[i] == RequestFor(specs[i], alignment)
    ensures AllValid(reqs)
  {
    if specs == [] then []
    else Requests(specs[..|specs| - 1], alignment) + [RequestFor(specs[|specs| - 1], alignment)]
  }

  /** The objects follow one another from `start` on. */
  ghost predicate Consecutive(objs: seq<SharedObject>, start: nat, segments: seq<Segment>)
    requires |objs| == |segments|
    reads objs`offset
  {
    forall k :: 0 <= k < |objs| ==> objs[k].offset == start + Sum(SizesOf(segments)[..k])
  }

  /** `materialize_buffer`: lay the objects of one memory out one after another. */
  method MaterializeBuffer(objs: seq<SharedObject>, inputTotalSize: nat, ghost m: nat) returns (totalSize: nat)
    requires Indexed(objs, m)
    modifies objs`offset
    ensures totalSize == inputTotalSize + Sum(SizesOf(Values(objs)))
    ensures Consecutive(objs, inputTotalSize, Values(objs))
  {
    hide Values, Sum;
    totalSize := inputTotalSize;
    ghost var sizes := SizesOf(Values(objs));
    SumOfNone(sizes);
    for n := 0 to |objs|
      invariant totalSize == inputTotalSize + Sum(sizes[..n])
      invariant forall k :: 0 <= k < n ==> objs[k].offset == inputTotalSize + Sum(sizes[..k])
    {
      var sobj := objs[n];
      assert sizes[n] == sobj.size;
      SumOfPrefix(sizes, n);
      sobj.offset := totalSize;
      totalSize := totalSize + sobj.size;
    }
    assert sizes[..|objs|] == sizes;
  }

  /** The specs still ask for `reqs`, and the first n have been realigned. */
  ghost predicate Realigned(specs: seq<TensorSpec>, alignment: nat, reqs: seq<Request>, n: nat)
    requires alignment > 0 && n <= |specs| == |reqs|
    reads specs`start, specs`end, specs`memId, specs`alignment
  {
    && (forall i :: 0 <= i < |specs| ==>
          specs[i].start.Some? && specs[i].end.Some? && RequestFor(specs[i], alignment) == reqs[i])
    && (forall i :: 0 <= i < n ==> specs[i].alignment == alignment && specs[i].memId == Some(reqs[i].mem))
  }

  /** The planner's dictionary holds the objects of plan p, all of them in `repr`. */
  ghost predicate Tables(objs: map<nat, seq<SharedObject>>, p: Plan, repr: set<SharedObject>)
    reads repr`size, repr`lastUsedIndex
  {
    && objs.Keys == p.objs.Keys
    && forall m :: m in objs ==>
         (forall o :: o in objs[m] ==> o in repr) && Indexed(objs[m], m) && Values(objs[m]) == p.objs[m]
  }

  /** Default the memory id of spec n and realign it. */
  method Realign(specs: seq<TensorSpec>, n: nat, alignment: nat, ghost reqs: seq<Request>) returns (r: Request)
    requires alignment > 0 && Distinct(specs) && n < |specs| == |reqs| && Realigned(specs, alignment, reqs, n)
    modifies specs`memId, specs`alignment
    ensures Realigned(specs, alignment, reqs, n + 1)
    ensures r == reqs[n]
  {
    var spec := specs[n];
    if spec.memId == None {
      spec.memId := Some(1);
    }
    spec.alignment := alignment;
    r := RequestFor(spec, alignment);
  }

  /** Serve one request from the objects of its memory. */
  method PlaceRequest(r: Request, objs: map<nat, seq<SharedObject>>, ghost p: Plan, ghost repr: set<SharedObject>)
    returns (objs': map<nat, seq<SharedObject>>, picked: SharedObject)
    requires Tables(objs, p, repr)
    modifies repr`size, repr`lastUsedIndex
    ensures Tables(objs', p.Serve(r), repr + {picked})
    ensures picked in repr || fresh(picked)
    ensures r.mem in objs' && p.SlotFor(r) < |objs'[r.mem]| && picked == objs'[r.mem][p.SlotFor(r)]
    ensures forall m :: m in objs ==> m in objs' && objs[m] <= objs'[m]
  {
    hide Values, Pick, PickIndex, Tables;
    var list := if r.mem in objs then objs[r.mem] else [];
    ListFacts(objs, p, repr, r.mem, list);
    var grown;
    grown, picked := PickSharedObj(list, r);
    objs' := objs[r.mem := grown];
    forall m | m in objs && m != r.mem
      ensures Values(objs[m]) == p.objs[m]
    {
      assert Values(objs[m]) == old(Values(objs[m]));
    }
    GrownTables(objs, p, repr, r, list, grown, picked);
  }

  /** What the dictionary says about the list of memory m and about the other lists. */
  lemma ListFacts(objs: map<nat, seq<SharedObject>>, p: Plan, repr: set<SharedObject>, m: nat, list: seq<SharedObject>)
    requires Tables(objs, p, repr) && list == if m in objs then objs[m] else []
    ensures Indexed(list, m) && Values(list) == p.ObjsOf(m)
    ensures objs.Keys == p.objs.Keys && forall o :: o in list ==> o in repr
    ensures forall k :: k in objs ==> Values(objs[k]) == p.objs[k] && Indexed(objs[k], k) && forall o :: o in objs[k] ==> o in repr
    ensures forall k :: k in objs && k != m ==> forall o :: o in objs[k] ==> o !in list
  {
    hide Values;
    assert m !in objs ==> Values([]) == [];
  }

  /** The dictionary with the list of one memory replaced. */
  lemma GrownTables(objs: map<nat, seq<SharedObject>>, p: Plan, repr: set<SharedObject>, r: Request,
                    list: seq<SharedObject>, grown: seq<SharedObject>, picked: SharedObject)
    requires objs.Keys == p.objs.Keys && Indexed(grown, r.mem)
    requires forall k :: k in objs ==> Indexed(objs[k], k) && forall o :: o in objs[k] ==> o in repr
    requires forall k :: k in objs && k != r.mem ==> Values(objs[k]) == p.objs[k]
    requires forall o :: o in list ==> o in repr
    requires list <= grown && |grown| <= |list| + 1 && picked.idx < |grown| && grown[picked.idx] == picked
    requires |grown| > |list| ==> picked.idx == |list|
    requires Values(grown) == Pick(p.ObjsOf(r.mem), r)
    ensures Tables(objs[r.mem := grown], p.Serve(r), repr + {picked})
  {
    hide Values, Pick, PickIndex, Indexed;
    GrownMembers(list, grown, picked);
  }

  lemma GrownMembers(list: seq<SharedObject>, grown: seq<SharedObject>, picked: SharedObject)
    requires list <= grown && |grown| <= |list| + 1 && picked.idx < |grown| && grown[picked.idx] == picked
    requires |grown| > |list| ==> picked.idx == |list|
    ensures forall o :: o in grown ==> o in list || o == picked
  {
    forall o | o in grown
      ensures o in list || o == picked
    {
      var i :| 0 <= i < |grown| && grown[i] == o;
      assert i < |list| ==> list[i] == o;
    }
  }

  /** `spec2obj` maps the first n specs to the objects at their slots. */
  ghost predicate Assigned(specs: seq<TensorSpec>, objs: map<nat, seq<SharedObject>>,
                           spec2obj: map<TensorSpec, SharedObject>, reqs: seq<Request>, slots: seq<nat>, n: nat)
    requires n <= |slots| && n <= |reqs| && n <= |specs|
  {
    forall i :: 0 <= i < n ==>
      && specs[i] in spec2obj
      && reqs[i].mem in objs && slots[i] < |objs[reqs[i].mem]|
      && spec2obj[specs[i]] == objs[reqs[i].mem][slots[i]]
  }

  lemma AssignOne(specs: seq<TensorSpec>, objs: map<nat, seq<SharedObject>>, objs': map<nat, seq<SharedObject>>,
                  spec2obj: map<TensorSpec, SharedObject>, picked: SharedObject,
                  reqs: seq<Request>, slots: seq<nat>, n: nat, k: nat)
    requires Distinct(specs) && n == |slots| && n < |reqs| == |specs|
    requires Assigned(specs, objs, spec2obj, reqs, slots, n)
    requires forall m :: m in objs ==> m in objs' && objs[m] <= objs'[m]
    requires reqs[n].mem in objs' && k < |objs'[reqs[n].mem]| && picked == objs'[reqs[n].mem][k]
    ensures Assigned(specs, objs', spec2obj[specs[n] := picked], reqs, slots + [k], n + 1)
  {
  }

  /** Serve request n and record the object of its spec. */
  method PlaceSpec(specs: seq<TensorSpec>, n: nat, r: Request, objs: map<nat, seq<SharedObject>>,
                   spec2obj: map<TensorSpec, SharedObject>, ghost reqs: seq<Request>, ghost repr: set<SharedObject>)
    returns (objs': map<nat, seq<SharedObject>>, spec2obj': map<TensorSpec, SharedObject>, ghost repr': set<SharedObject>)
    requires Distinct(specs) && n < |specs| == |reqs| && r == reqs[n]
    requires Tables(objs, Greedy(reqs[..n]), repr)
    requires Assigned(specs, objs, spec2obj, reqs, Greedy(reqs[..n]).slots, n)
    modifies repr`size, repr`lastUsedIndex
    ensures Tables(objs', Greedy(reqs[..n + 1]), repr')
    ensures Assigned(specs, objs', spec2obj', reqs, Greedy(reqs[..n + 1]).slots, n + 1)
    ensures forall o :: o in repr' ==> o in repr || fresh(o)
  {
    hide *;
    ghost var p := Greedy(reqs[..n]);
    GreedyStep(reqs, n);
    var picked;
    objs', picked := PlaceRequest(r, objs, p, repr);
    AssignOne(specs, objs, objs', spec2obj, picked, reqs, p.slots, n, p.SlotFor(reqs[n]));
    spec2obj', repr' := spec2obj[specs[n] := picked], repr + {picked};
  }

  lemma NothingPlaced(specs: seq<TensorSpec>, alignment: nat, reqs: seq<Request>)
    requires alignment > 0 && HaveLifetimes(specs) && reqs == Requests(specs, alignment)
    ensures Tables(map[], Greedy(reqs[..0]), {})
    ensures Assigned(specs, map[], map[], reqs, Greedy(reqs[..0]).slots, 0)
    ensures Realigned(specs, alignment, reqs, 0)
  {
  }

  /** The first loop of `greedy`. */
  method PlanObjects(specs: seq<TensorSpec>, alignment: nat, ghost reqs: seq<Request>)
    returns (objs: map<nat, seq<SharedObject>>, spec2obj: map<TensorSpec, SharedObject>, ghost repr: set<SharedObject>)
    requires alignment > 0 && Distinct(specs) && HaveLifetimes(specs)
    requires reqs == Requests(specs, alignment)
    modifies specs`memId, specs`alignment
    ensures fresh(repr) && Tables(objs, Greedy(reqs), repr)
    ensures Assigned(specs, objs, spec2obj, reqs, Greedy(reqs).slots, |specs|)
    ensures Realigned(specs, alignment, reqs, |specs|)
  {
    hide Tables, Assigned, Greedy, Realigned, Requests;
    objs, spec2obj, repr := map[], map[], {};
    NothingPlaced(specs, alignment, reqs);
    for n := 0 to |specs|
      invariant forall o :: o in repr ==> fresh(o)
      invariant Tables(objs, Greedy(reqs[..n]), repr)
      invariant Assigned(specs, objs, spec2obj, reqs, Greedy(reqs[..n]).slots, n)
      invariant Realigned(specs, alignment, reqs, n)
    {
      var r := Realign(specs, n, alignment, reqs);
      ghost var was := repr;
      objs, spec2obj, repr := PlaceSpec(specs, n, r, objs, spec2obj, reqs, repr);
      assert forall o :: o in repr && o !in was ==> fresh(o);
    }
    assert reqs[..|specs|] == reqs;
  }

  /** The list of starting sizes: absent and empty lists both mean zero everywhere. */
  function StartSizes(input: Option<seq<nat>>): seq<nat> {
    if input == None then [0, 0] else input.value
  }

  /** The size a memory starts at, as `greedy` looks it up. */
  function InputTotalSize(input: Option<seq<nat>>, mem: nat): (size: nat)
    ensures size == At(StartSizes(input), mem)
  {
    if input.Some? && |input.value| > 0 && |input.value| > mem then input.value[mem] else 0
  }

  ghost predicate LaidOut(objs: map<nat, seq<SharedObject>>, p: Plan, input: seq<nat>, done: set<nat>,
                          repr: set<SharedObject>)
    requires Tables(objs, p, repr)
    reads repr`size, repr`lastUsedIndex, repr`offset
  {
    forall m :: m in objs && m in done ==> Consecutive(objs[m], At(input, m), p.objs[m])
  }

  lemma ListsAreDisjoint(a: seq<SharedObject>, b: seq<SharedObject>, m: nat, m': nat)
    requires Indexed(a, m) && Indexed(b, m') && m != m'
    ensures forall o :: o in a ==> o !in b
  {
    forall o | o in a
      ensures o !in b
    {
      var k: nat :| k < |a| && a[k] == o;
      assert o.mem == m;
    }
  }

  /** Lay out the objects of one more memory. */
  method MaterializeOne(objs: map<nat, seq<SharedObject>>, mem: nat, input: Option<seq<nat>>, ghost done: set<nat>,
                        ghost p: Plan, ghost repr: set<SharedObject>)
    returns (total: nat)
    requires Tables(objs, p, repr) && mem in objs && mem !in done && LaidOut(objs, p, StartSizes(input), done, repr)
    modifies repr`offset
    ensures LaidOut(objs, p, StartSizes(input), done + {mem}, repr)
    ensures total == ReportedSize(p, StartSizes(input), mem)
  {
    hide Values, Sum, SizesOf, At, Consecutive;
    total := MaterializeBuffer(objs[mem], InputTotalSize(input, mem), mem);
    forall m | m in objs && m in done + {mem}
      ensures Consecutive(objs[m], At(StartSizes(input), m), p.objs[m])
    {
      if m != mem {
        ListsAreDisjoint(objs[m], objs[mem], m, mem);
        assert old(Consecutive(objs[m], At(StartSizes(input), m), p.objs[m]));
      }
    }
  }

  /** The second loop of `greedy`: lay out the objects memory by memory. */
  method Materialize(objs: map<nat, seq<SharedObject>>, top: nat, input: Option<seq<nat>>,
                     ghost p: Plan, ghost repr: set<SharedObject>)
    returns (totals: seq<nat>)
    requires Tables(objs, p, repr) && forall m :: m in objs ==> m <= top
    modifies repr`offset
    ensures LaidOut(objs, p, StartSizes(input), objs.Keys, repr)
    ensures |totals| == top + 1
    ensures forall m: nat :: m < |totals| ==> totals[m] == ReportedSize(p, StartSizes(input), m)
  {
    hide Tables, LaidOut, ReportedSize;
    totals := seq(top + 1, _ => 0);
    var todo := objs.Keys;
    NothingLaidOut(objs, p, StartSizes(input), repr);
    assert objs.Keys - todo == {};
    while todo != {}
      invariant todo <= objs.Keys
      invariant LaidOut(objs, p, StartSizes(input), objs.Keys - todo, repr)
      invariant |totals| == top + 1
      invariant forall m: nat :: m < |totals| && m in objs && m !in todo ==> totals[m] == ReportedSize(p, StartSizes(input), m)
      invariant forall m: nat :: m < |totals| && m !in objs ==> totals[m] == 0
      decreases |todo|
    {
      var mem :| mem in todo;
      var total := MaterializeOne(objs, mem, input, objs.Keys - todo, p, repr);
      assert objs.Keys - (todo - {mem}) == objs.Keys - todo + {mem};
      totals, todo := totals[mem := total], todo - {mem};
    }
    assert objs.Keys - todo == objs.Keys;
    forall m: nat | m < |totals| && m !in objs
      ensures ReportedSize(p, StartSizes(input), m) == 0
    {
      UnseenReportsNothing(objs, p, StartSizes(input), repr, m);
    }
  }

  lemma NothingLaidOut(objs: map<nat, seq<SharedObject>>, p: Plan, input: seq<nat>, repr: set<SharedObject>)
    requires Tables(objs, p, repr)
    ensures LaidOut(objs, p, input, {}, repr)
  {
  }

  lemma UnseenReportsNothing(objs: map<nat, seq<SharedObject>>, p: Plan, input: seq<nat>, repr: set<SharedObject>, m: nat)
    requires Tables(objs, p, repr) && m !in objs
    ensures ReportedSize(p, input, m) == 0
  {
  }

  /** `max(shared_objects.keys())`. */
  method MaxKey(keys: set<nat>) returns (k: nat)
    requires keys != {}
    ensures k in keys && forall m :: m in keys ==> m <= k
  {
    k :| k in keys;
    var rest := keys - {k};
    while rest != {}
      invariant rest <= keys && k in keys
      invariant forall m :: m in keys && m !in rest ==> m <= k
      decreases |rest|
    {
      var m :| m in rest;
      rest := rest - {m};
      if m > k {
        k := m;
      }
    }
  }

  /** The object a spec was mapped to has its slot and its offset. */
  lemma ObjectOfSlot(specs: seq<TensorSpec>, objs: map<nat, seq<SharedObject>>, spec2obj: map<TensorSpec, SharedObject>,
                     reqs: seq<Request>, input: seq<nat>, repr: set<SharedObject>, i: nat)
    requires i < |specs| == |reqs| && AllValid(reqs)
    requires Tables(objs, Greedy(reqs), repr) && LaidOut(objs, Greedy(reqs), input, objs.Keys, repr)
    requires Assigned(specs, objs, spec2obj, reqs, Greedy(reqs).slots, |specs|)
    ensures specs[i] in spec2obj && spec2obj[specs[i]].idx == Greedy(reqs).slots[i]
    ensures spec2obj[specs[i]].offset == OffsetOf(reqs, input, i)
  {
    hide Values, Sum, SizesOf, At, Greedy;
    SlotHolds(reqs, i);
  }

  /** The last loop of `greedy`: tell every spec its object and offset. */
  method AssignOffsets(specs: seq<TensorSpec>, objs: map<nat, seq<SharedObject>>, spec2obj: map<TensorSpec, SharedObject>,
                       ghost reqs: seq<Request>, ghost input: seq<nat>, ghost repr: set<SharedObject>)
    requires Distinct(specs) && |specs| == |reqs| && AllValid(reqs)
    requires Tables(objs, Greedy(reqs), repr) && LaidOut(objs, Greedy(reqs), input, objs.Keys, repr)
    requires Assigned(specs, objs, spec2obj, reqs, Greedy(reqs).slots, |specs|)
    modifies specs`memObjId, specs`memOffset
    ensures forall i: nat :: i < |specs| ==>
              && specs[i].memObjId == Some(Greedy(reqs).slots[i])
              && specs[i].memOffset == Some(OffsetOf(reqs, input, i))
  {
    hide Values, Sum, SizesOf, At, Greedy, Tables, LaidOut, Assigned, OffsetOf;
    forall i: nat | i < |specs|
      ensures specs[i] in spec2obj && spec2obj[specs[i]].idx == Greedy(reqs).slots[i]
      ensures spec2obj[specs[i]].offset == OffsetOf(reqs, input, i)
    {
      ObjectOfSlot(specs, objs, spec2obj, reqs, input, repr, i);
    }
    for n := 0 to |specs|
      invariant forall i: nat :: i < n ==>
                  && specs[i].memObjId == Some(Greedy(reqs).slots[i])
                  && specs[i].memOffset == Some(OffsetOf(reqs, input, i))
    {
      var sobj := spec2obj[specs[n]];
      specs[n].memObjId := Some(sobj.idx);
      specs[n].memOffset := Some(sobj.offset);
    }
  }

  lemma RequestsKept(specs: seq<TensorSpec>, alignment: nat, reqs: seq<Request>)
    requires alignment > 0 && HaveLifetimes(specs) && |reqs| == |specs|
    requires Realigned(specs, alignment, reqs, |specs|)
    ensures Requests(specs, alignment) == reqs
  {
  }

  lemma TableKeys(objs: map<nat, seq<SharedObject>>, reqs: seq<Request>, repr: set<SharedObject>)
    requires Tables(objs, Greedy(reqs), repr)
    ensures |objs| == 0 <==> reqs == []
    ensures objs != map[] ==> objs.Keys != {}
    ensures forall m :: m in objs ==> m <= MaxMem(reqs)
    ensures reqs != [] ==> MaxMem(reqs) in objs
  {
    SeenAll(reqs);
  }

  lemma TotalsAre(reqs: seq<Request>, input: seq<nat>, totals: seq<nat>)
    requires if reqs == [] then totals == [0, 0] else
               && |totals| == MaxMem(reqs) + 1
               && forall m: nat :: m < |totals| ==> totals[m] == ReportedSize(Greedy(reqs), input, m)
    ensures totals == GreedySizes(reqs, input)
  {
    hide Greedy, ReportedSize;
  }

  /** `greedy`: specs sharing no node in their lifetimes may share an object; every spec
      is told its object and its offset. */
  method GreedyAlgo(specs: seq<TensorSpec>, alignment: nat, input: Option<seq<nat>>) returns (totals: seq<nat>)
    requires alignment > 0 && Distinct(specs) && HaveLifetimes(specs)
    modifies specs`memId, specs`alignment, specs`memObjId, specs`memOffset
    ensures Requests(specs, alignment) == old(Requests(specs, alignment))
    ensures totals == GreedySizes(Requests(specs, alignment), StartSizes(input))
    ensures Realigned(specs, alignment, Requests(specs, alignment), |specs|)
    ensures forall i: nat :: i < |specs| ==>
              && specs[i].memObjId == Some(Greedy(Requests(specs, alignment)).slots[i])
              && specs[i].memOffset == Some(OffsetOf(Requests(specs, alignment), StartSizes(input), i))
  {
    hide *;
    ghost var reqs := Requests(specs, alignment);
    var objs, spec2obj;
    ghost var repr;
    objs, spec2obj, repr := PlanObjects(specs, alignment, reqs);
    RequestsKept(specs, alignment, reqs);
    TableKeys(objs, reqs, repr);
    if |objs| == 0 {
      totals := [0, 0];
    } else {
      var top := MaxKey(objs.Keys);
      totals := Materialize(objs, top, input, Greedy(reqs), repr);
      AssignOffsets(specs, objs, spec2obj, reqs, StartSizes(input), repr);
    }
    TotalsAre(reqs, StartSizes(input), totals);
  }

  /** `_allocate_buf`: extend the list of sizes up to the memory id, then take bytes
      from the end of that memory. */
  method AllocateBuf(bufsizes: seq<nat>, mem: nat, nbytes: nat) returns (sizes: seq<nat>, offset: nat)
    ensures offset == At(bufsizes, mem)
    ensures |sizes| == Max(|bufsizes|, mem + 1)
    ensures forall m: nat :: At(sizes, m) == At(bufsizes, m) + if m == mem then nbytes else 0
  {
    sizes := bufsizes;
    if mem >= |sizes| {
      sizes := sizes + seq(mem - |sizes| + 1, _ => 0);
    }
    offset := sizes[mem];
    sizes := sizes[mem := offset + nbytes];
  }

  /** The first n specs have the offsets of the naive plan. */
  ghost predicate HaveNaiveOffsets(specs: seq<TensorSpec>, reqs: seq<Request>, input: seq<nat>, n: nat)
    requires n <= |specs| == |reqs|
    reads specs`memOffset
  {
    forall i: nat :: i < n ==> specs[i].memOffset == Some(NaiveOffset(reqs, input, i))
  }

  lemma NothingAllocated(specs: seq<TensorSpec>, reqs: seq<Request>, input: seq<nat>)
    requires |specs| == |reqs|
    ensures NaiveSizes(reqs[..0], input) == input && HaveNaiveOffsets(specs, reqs, input, 0)
  {
  }

  /** One turn of naive's loop, once the spec is realigned. */
  method AllocateSpec(specs: seq<TensorSpec>, n: nat, r: Request, bufsizes: seq<nat>,
                      ghost reqs: seq<Request>, ghost input: seq<nat>)
    returns (sizes: seq<nat>)
    requires Distinct(specs) && n < |specs| == |reqs| && r == reqs[n]
    requires bufsizes == NaiveSizes(reqs[..n], input) && HaveNaiveOffsets(specs, reqs, input, n)
    modifies specs`memOffset
    ensures sizes == NaiveSizes(reqs[..n + 1], input) && HaveNaiveOffsets(specs, reqs, input, n + 1)
  {
    var offset;
    sizes, offset := AllocateBuf(bufsizes, r.mem, r.size);
    NaiveStep(reqs, input, n, sizes);
    specs[n].memOffset := Some(offset);
  }

  /** `naive`: every spec gets bytes of its own; objects are not assigned. */
  method NaiveAlgo(specs: seq<TensorSpec>, alignment: nat, input: Option<seq<nat>>) returns (bufsizes: seq<nat>)
    requires alignment > 0 && Distinct(specs) && HaveLifetimes(specs)
    modifies specs`memId, specs`alignment, specs`memOffset
    ensures Requests(specs, alignment) == old(Requests(specs, alignment))
    ensures bufsizes == NaiveSizes(Requests(specs, alignment), StartSizes(input))
    ensures Realigned(specs, alignment, Requests(specs, alignment), |specs|)
    ensures HaveNaiveOffsets(specs, Requests(specs, alignment), StartSizes(input), |specs|)
  {
    hide *;
    ghost var reqs := Requests(specs, alignment);
    NothingPlaced(specs, alignment, reqs);
    bufsizes := StartSizes(input);
    NothingAllocated(specs, reqs, bufsizes);
    for n := 0 to |specs|
      invariant Realigned(specs, alignment, reqs, n)
      invariant bufsizes == NaiveSizes(reqs[..n], StartSizes(input))
      invariant HaveNaiveOffsets(specs, reqs, StartSizes(input), n)
    {
      var r := Realign(specs, n, alignment, reqs);
      bufsizes := AllocateSpec(specs, n, r, bufsizes, reqs, StartSizes(input));
    }
    assert reqs[..|specs|] == reqs;
    RequestsKept(specs, alignment, reqs);
  }
}
