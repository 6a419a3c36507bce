/** The call protocol of the ETDump generator: five states, and the frames they leave open
    in the flatbuffer builder (`ETDumpGen`). */
module EtdumpGen {

  datatype State = Init | BlockCreated | AddingAllocators | AddingEvents | Done

  /** Frames the builder has open. A run-data table remembers which fields it has; the vector
      of run data, and then the frames around it, how many tables were finished in it. */
  datatype Frame =
    | Buffer(blocks: nat)
    | Root(blocks: nat)
    | RunDataVector(finished: nat)
    | RunData(named: bool, allocators: bool, events: bool)
    | AllocatorVector
    | EventVector

  datatype Builder = Building(stack: seq<Frame>) | Finished(blocks: nat) | Broken

  datatype Action =
    | StartBuffer | StartRoot | StartRunDataVector | StartRunData | AddName
    | StartAllocators | AddAllocator | EndAllocators
    | StartEvents | AddEntry | EndEvents
    | EndRunData | EndRunDataVector | EndRoot | EndBuffer

  function Top(stack: seq<Frame>): Frame {
    if stack == [] then Buffer(0) else stack[|stack| - 1]
  }

  function Pop(stack: seq<Frame>): seq<Frame> {
    if stack == [] then [] else stack[..|stack| - 1]
  }

  function Replace(stack: seq<Frame>, f: Frame): seq<Frame> {
    Pop(stack) + [f]
  }

  /** What the builder accepts: every frame is closed innermost first, a table sets a field
      once, a run-data table has its allocators before its events and is closed with a name. */
  predicate Accepts(stack: seq<Frame>, a: Action) {
    var f := Top(stack);
    match a
    case StartBuffer => stack == []
    case StartRoot => stack != [] && f.Buffer?
    case StartRunDataVector => stack != [] && f.Root?
    case StartRunData => stack != [] && f.RunDataVector?
    case AddName => stack != [] && f.RunData? && !f.named
    case StartAllocators => stack != [] && f.RunData? && !f.allocators && !f.events
    case AddAllocator => stack != [] && f == AllocatorVector
    case EndAllocators => stack != [] && f == AllocatorVector
    case StartEvents => stack != [] && f.RunData? && !f.events
    case AddEntry => stack != [] && f == EventVector
    case EndEvents => stack != [] && f == EventVector
    case EndRunData => |stack| >= 2 && f.RunData? && f.named && Top(Pop(stack)).RunDataVector?
    case EndRunDataVector => |stack| >= 2 && f.RunDataVector? && Top(Pop(stack)).Root?
    case EndRoot => |stack| >= 2 && f.Root? && Top(Pop(stack)).Buffer?
    case EndBuffer => |stack| == 1 && f.Buffer?
  }

  /** The frames after an accepted action. Finishing the vector of run data leaves its length
      behind, which becomes the number of blocks in the file. */
  function Effect(stack: seq<Frame>, a: Action): seq<Frame> {
    var f := Top(stack);
    match a
    case StartBuffer => stack + [Buffer(0)]
    case StartRoot => stack + [Root(0)]
    case StartRunDataVector => stack + [RunDataVector(0)]
    case StartRunData => stack + [RunData(false, false, false)]
    case AddName => if f.RunData? then Replace(stack, f.(named := true)) else stack
    case StartAllocators => if f.RunData? then Replace(stack, f.(allocators := true)) + [AllocatorVector] else stack
    case AddAllocator => stack
    case EndAllocators => Pop(stack)
    case StartEvents => if f.RunData? then Replace(stack, f.(events := true)) + [EventVector] else stack
    case AddEntry => stack
    case EndEvents => Pop(stack)
    case EndRunData =>
      var rest := Pop(stack);
      if Top(rest).RunDataVector? then Replace(rest, RunDataVector(Top(rest).finished + 1)) else stack
    case EndRunDataVector => if f.RunDataVector? then Replace(Pop(stack), Root(f.finished)) else stack
    case EndRoot => if f.Root? then Replace(Pop(stack), Buffer(f.blocks)) else stack
    case EndBuffer => Pop(stack)
  }

  function Do(b: Builder, a: Action): Builder {
    if b.Building? && Accepts(b.stack, a) then
      if a == EndBuffer then Finished(if Top(b.stack).Buffer? then Top(b.stack).blocks else 0)
      else Building(Effect(b.stack, a))
    else Broken
  }

  /** A whole sequence of actions on a new builder. */
  ghost function Perform(acts: seq<Action>): Builder {
    if acts == [] then Building([]) else Do(Perform(acts[..|acts| - 1]), acts[|acts| - 1])
  }

  /** Frames nest in one way only. */
  ghost predicate Nested(stack: seq<Frame>) {
    && |stack| <= 5
    && (|stack| > 0 ==> stack[0].Buffer?) && (|stack| > 1 ==> stack[1].Root?)
    && (|stack| > 2 ==> stack[2].RunDataVector?) && (|stack| > 3 ==> stack[3].RunData?)
    && (|stack| > 4 ==> stack[4].AllocatorVector? || stack[4].EventVector?)
  }

  /** The table being built, if any, has had its chance to list allocators. */
  ghost predicate NoMoreAllocators(stack: seq<Frame>) {
    Nested(stack) && (|stack| > 3 ==> stack[3].RunData? && (stack[3].allocators || stack[3].events))
  }

  lemma ActionNests(stack: seq<Frame>, a: Action)
    requires Nested(stack) && Accepts(stack, a)
    ensures Nested(Effect(stack, a))
    ensures NoMoreAllocators(stack) && a != StartRunData ==> a != StartAllocators && NoMoreAllocators(Effect(stack, a))
    ensures a == StartAllocators || a == StartEvents ==> NoMoreAllocators(Effect(stack, a))
  {
  }

  lemma {:induction false} NestingOf(acts: seq<Action>)
    ensures Perform(acts).Building? ==> Nested(Perform(acts).stack)
  {
    hide Accepts, Effect;
    if acts != [] && Perform(acts).Building? {
      NestingOf(acts[..|acts| - 1]);
      ActionNests(Perform(acts[..|acts| - 1]).stack, acts[|acts| - 1]);
    }
  }

  /** What went well as a whole went well at every action. */
  lemma {:induction false} ActionOf(acts: seq<Action>, n: nat)
    requires Perform(acts) != Broken && n < |acts|
    ensures var before := Perform(acts[..n]);
            && before.Building? && Nested(before.stack) && Accepts(before.stack, acts[n])
            && (acts[n] != EndBuffer ==> Perform(acts[..n + 1]) == Building(Effect(before.stack, acts[n])))
    decreases |acts| - n
  {
    hide Accepts, Effect, Nested;
    if n + 1 < |acts| {
      ActionOf(acts, n + 1);
    } else {
      assert acts[..n + 1] == acts;
    }
    assert acts[..n + 1][..n] == acts[..n];
    NestingOf(acts[..n]);
  }

  /** Until a new run-data table starts, there is no room for allocators. */
  lemma {:induction false} NoRoomSince(acts: seq<Action>, i: nat, n: nat)
    requires Perform(acts) != Broken && i < n < |acts| && (acts[i] == StartAllocators || acts[i] == StartEvents)
    requires forall m :: i < m < n ==> acts[m] != StartRunData
    ensures Perform(acts[..n]).Building? && NoMoreAllocators(Perform(acts[..n]).stack)
    decreases n
  {
    hide Accepts, Effect, Nested, NoMoreAllocators, Perform;
    ActionOf(acts, n - 1);
    ActionOf(acts, n);
    ActionNests(Perform(acts[..n - 1]).stack, acts[n - 1]);
    if i < n - 1 {
      NoRoomSince(acts, i, n - 1);
    }
    NotTheEnd(acts, n - 1);
  }

  lemma NotTheEnd(acts: seq<Action>, n: nat)
    requires Perform(acts) != Broken && n + 1 < |acts|
    ensures acts[n] != EndBuffer
  {
    hide Accepts, Effect, Nested;
    ActionOf(acts, n);
    ActionOf(acts, n + 1);
    assert acts[..n + 1][..n] == acts[..n];
  }

  /** Whatever actions the builder accepts, a block lists its allocators at most once, and
      before its events: another list of allocators needs a new run-data table. */
  lemma AllocatorsOnceAndFirst(acts: seq<Action>, i: nat, j: nat)
    requires Perform(acts) != Broken && i < j < |acts|
    requires (acts[i] == StartAllocators || acts[i] == StartEvents) && acts[j] == StartAllocators
    ensures exists m :: i < m < j && acts[m] == StartRunData
  {
    hide Accepts, Effect, Nested, NoMoreAllocators, Perform;
    ActionOf(acts, j);
    ActionNests(Perform(acts[..j]).stack, acts[j]);
    if forall m :: i < m < j ==> acts[m] != StartRunData {
      NoRoomSince(acts, i, j);
    }
  }

  /** What can come after a vector was opened, up to the action that closes it. */
  lemma {:induction false} InsideVector(acts: seq<Action>, n: nat, v: Frame, start: Action, add: Action)
    requires Perform(acts) != Broken && n < |acts|
    requires (v == EventVector && start == StartEvents && add == AddEntry) ||
             (v == AllocatorVector && start == StartAllocators && add == AddAllocator)
    requires Perform(acts[..n]).Building? && Perform(acts[..n]).stack != [] && Top(Perform(acts[..n]).stack) == v
    ensures exists i :: 0 <= i < n && Brackets(acts, i, n, start, add)
    decreases n
  {
    hide Accepts, Effect, Nested, Perform;
    if n == 0 {
      NothingOpen(acts);
    } else {
      ActionOf(acts, n - 1);
      NotTheEnd(acts, n - 1);
      TopAfter(Perform(acts[..n - 1]).stack, acts[n - 1], v);
      if acts[n - 1] == start {
        assert Brackets(acts, n - 1, n, start, add);
      } else {
        InsideVector(acts, n - 1, v, start, add);
        var i :| 0 <= i < n - 1 && Brackets(acts, i, n - 1, start, add);
        assert Brackets(acts, i, n, start, add);
      }
    }
  }

  /** Action i opens a vector, and from there up to n there are only elements of it. */
  ghost predicate Brackets(acts: seq<Action>, i: int, n: int, start: Action, add: Action) {
    0 <= i < n <= |acts| && acts[i] == start && forall m :: i < m < n ==> acts[m] == add
  }

  lemma NothingOpen(acts: seq<Action>)
    ensures Perform(acts[..0]) == Building([])
  {
  }

  /** A vector is innermost after an action that opens it, or after one of its elements. */
  lemma TopAfter(stack: seq<Frame>, a: Action, v: Frame)
    requires Nested(stack) && Accepts(stack, a) && (v == EventVector || v == AllocatorVector)
    requires Effect(stack, a) != [] && Top(Effect(stack, a)) == v
    ensures v == EventVector ==> a == StartEvents || (a == AddEntry && stack != [] && Top(stack) == v)
    ensures v == AllocatorVector ==> a == StartAllocators || (a == AddAllocator && stack != [] && Top(stack) == v)
  {
  }

  /** Whatever actions the builder accepts, events and allocators are only added to, and only
      close, a vector of theirs that was opened and that nothing has come between. */
  lemma ElementsAreInside(acts: seq<Action>, j: nat)
    requires Perform(acts) != Broken && j < |acts|
    ensures acts[j] == AddEntry || acts[j] == EndEvents ==> exists i :: 0 <= i < j && Brackets(acts, i, j, StartEvents, AddEntry)
    ensures acts[j] == AddAllocator || acts[j] == EndAllocators ==>
              exists i :: 0 <= i < j && Brackets(acts, i, j, StartAllocators, AddAllocator)
  {
    hide Effect, Nested, Perform;
    ActionOf(acts, j);
    if acts[j] == AddEntry || acts[j] == EndEvents {
      InsideVector(acts, j, EventVector, StartEvents, AddEntry);
    }
    if acts[j] == AddAllocator || acts[j] == EndAllocators {
      InsideVector(acts, j, AllocatorVector, StartAllocators, AddAllocator);
    }
  }

  /** The frames around a run-data table that comes after k others. */
  ghost function Block(k: nat, f: Frame): seq<Frame> {
    [Buffer(0), Root(0), RunDataVector(k), f]
  }

  /** The frames each state stands for. */
  ghost function Frames(state: State, blocks: nat, allocators: bool): seq<Frame> {
    var k := if blocks == 0 then 0 else blocks - 1;
    match state
    case Init => Block(k, RunData(false, false, false))
    case BlockCreated => Block(k, RunData(true, false, false))
    case AddingAllocators => Block(k, RunData(true, true, false)) + [AllocatorVector]
    case AddingEvents => Block(k, RunData(true, allocators, true)) + [EventVector]
    case Done => []
  }

  lemma Starting()
    ensures Do(Do(Do(Do(Building([]), StartBuffer), StartRoot), StartRunDataVector), StartRunData) ==
            Building(Frames(Init, 0, false))
  {
    assert Do(Building([]), StartBuffer) == Building([Buffer(0)]);
    assert Do(Building([Buffer(0)]), StartRoot) == Building([Buffer(0), Root(0)]);
    assert Do(Building([Buffer(0), Root(0)]), StartRunDataVector) == Building([Buffer(0), Root(0), RunDataVector(0)]);
    OpeningBlock(0);
  }

  lemma ClosingVector(k: nat, f: Frame, v: Frame)
    ensures v == EventVector ==> Do(Building(Block(k, f) + [v]), EndEvents) == Building(Block(k, f))
    ensures v == AllocatorVector ==> Do(Building(Block(k, f) + [v]), EndAllocators) == Building(Block(k, f))
    ensures v == AllocatorVector ==> Do(Building(Block(k, f) + [v]), EndRunData) == Broken
    ensures v == EventVector ==> Do(Building(Block(k, f) + [v]), AddEntry) == Building(Block(k, f) + [v])
    ensures v == AllocatorVector ==> Do(Building(Block(k, f) + [v]), AddAllocator) == Building(Block(k, f) + [v])
  {
  }

  lemma OpeningVector(k: nat, f: Frame)
    requires f.RunData? && !f.events
    ensures Do(Building(Block(k, f)), StartEvents) == Building(Block(k, f.(events := true)) + [EventVector])
    ensures !f.allocators ==>
              Do(Building(Block(k, f)), StartAllocators) == Building(Block(k, f.(allocators := true)) + [AllocatorVector])
  {
  }

  lemma ClosingBlock(k: nat, f: Frame)
    requires f.RunData? && f.named
    ensures Do(Building(Block(k, f)), EndRunData) == Building([Buffer(0), Root(0), RunDataVector(k + 1)])
  {
  }

  lemma OpeningBlock(k: nat)
    ensures Do(Building([Buffer(0), Root(0), RunDataVector(k)]), StartRunData) == Building(Block(k, RunData(false, false, false)))
  {
  }

  lemma NamingBlock(k: nat, f: Frame)
    requires f.RunData? && !f.named
    ensures Do(Building(Block(k, f)), AddName) == Building(Block(k, f.(named := true)))
  {
  }

  lemma ClosingFile(k: nat)
    ensures Do(Do(Do(Building([Buffer(0), Root(0), RunDataVector(k)]), EndRunDataVector), EndRoot), EndBuffer) == Finished(k)
  {
    assert Do(Building([Buffer(0), Root(0), RunDataVector(k)]), EndRunDataVector) == Building([Buffer(0), Root(k)]);
    assert Do(Building([Buffer(0), Root(k)]), EndRoot) == Building([Buffer(k)]);
  }

  lemma BrokenStays(a: Action)
    ensures Do(Broken, a) == Broken
  {
  }

  /** What a caller of the generator can do. Adding an event stands for ending a profiled
      region, logging a value and tracking an allocation; starting a delegate's event opens
      the events without adding one. */
  datatype Call = CreateBlock | TrackAllocator | StartDelegateEvent | AddEvent | GetData | Reset

  /** What opens the events in a state that allows it. */
  ghost function Opening(state: State): seq<Action> {
    if state == AddingEvents then [] else if state == AddingAllocators then [EndAllocators, StartEvents] else [StartEvents]
  }

  /** The two calls the states do not guard against. */
  ghost predicate Unguarded(state: State, c: Call) {
    (c == CreateBlock && state == AddingAllocators) || (c == GetData && state == Done)
  }

  /** Calls that are answered by aborting the process. */
  ghost predicate Aborts(state: State, c: Call) {
    || (c == TrackAllocator && state != BlockCreated && state != AddingAllocators)
    || ((c == AddEvent || c == StartDelegateEvent) && (state == Init || state == Done))
  }

  /** The state a call leads to, when it is answered at all. */
  ghost function Next(state: State, c: Call): State {
    match c
    case CreateBlock => BlockCreated
    case TrackAllocator => AddingAllocators
    case StartDelegateEvent => AddingEvents
    case AddEvent => AddingEvents
    case GetData => if state == Init then Init else Done
    case Reset => Init
  }

  ghost function StateAfter(state: State, calls: seq<Call>): State {
    if calls == [] then state else Next(StateAfter(state, calls[..|calls| - 1]), calls[|calls| - 1])
  }

  /** How a run of calls ends. */
  datatype End = Completed | Aborted | BuilderBroken

  class Generator {
    var state: State
    var numBlocks: nat
    var builder: Builder
    /** The actions since the builder was last reset. */
    ghost var acts: seq<Action>

    /** The open frames are those of the state: nothing is left open, nothing closed twice,
        and a finished file holds one run-data table per block. */
    ghost predicate Balanced()
      reads this
    {
      && builder == Perform(acts) && (state == Init <==> numBlocks == 0)
      && (state != Done ==> exists a :: builder == Building(Frames(state, numBlocks, a)))
      && (state == Done ==> builder == Finished(numBlocks))
    }

    constructor ()
      ensures Balanced() && state == Init
    {
      state, numBlocks, builder, acts := Init, 0, Building([]), [];
      new;
      DoReset();
    }

    method Act(a: Action)
      requires builder == Perform(acts)
      modifies this`builder, this`acts
      ensures builder == Do(old(builder), a) && builder == Perform(acts)
      ensures acts == old(acts) + [a]
    {
      builder := Do(builder, a);
      acts := acts + [a];
    }

    /** `reset`: works in every state, whatever the builder holds. */
    method DoReset()
      modifies this
      ensures Balanced() && state == Init && builder == Building(Frames(Init, 0, false))
      ensures acts == [StartBuffer, StartRoot, StartRunDataVector, StartRunData]
    {
      hide Do;
      state, numBlocks, builder, acts := Init, 0, Building([]), [];
      Act(StartBuffer);
      Act(StartRoot);
      Act(StartRunDataVector);
      Act(StartRunData);
      Starting();
      assert builder == Building(Frames(state, numBlocks, false));
    }

    /** `create_event_block`. With the allocators vector still open the builder is asked to
        close a table that is not the innermost frame. */
    method CreateEventBlock()
      requires Balanced()
      modifies this
      ensures old(state) != AddingAllocators ==> Balanced()
      ensures old(state) == AddingAllocators ==> builder == Broken
      ensures state == BlockCreated && numBlocks == (if old(state) == Done then 0 else old(numBlocks)) + 1
      ensures old(state) == Done ==> acts == [StartBuffer, StartRoot, StartRunDataVector, StartRunData, AddName]
      ensures old(state) != Done ==>
                acts == old(acts) + (if old(state) == AddingEvents then [EndEvents] else [])
                      + (if old(numBlocks) > 0 then [EndRunData, StartRunData] else []) + [AddName]
    {
      hide Do, Perform;
      ghost var k := if numBlocks == 0 then 0 else numBlocks - 1;
      ghost var a :| state == AddingEvents ==> builder == Building(Frames(AddingEvents, numBlocks, a));
      if state == AddingEvents {
        Act(EndEvents);
        ClosingVector(k, RunData(true, a, true), EventVector);
        ClosingBlock(k, RunData(true, a, true));
      } else if state == Done {
        DoReset();
      }
      if numBlocks > 0 {
        Act(EndRunData);
        ClosingBlock(k, RunData(true, false, false));
        ClosingVector(k, RunData(true, true, false), AllocatorVector);
        Act(StartRunData);
        OpeningBlock(k + 1);
        BrokenStays(StartRunData);
      }
      numBlocks := numBlocks + 1;
      Act(AddName);
      NamingBlock(numBlocks - 1, RunData(false, false, false));
      BrokenStays(AddName);
      state := BlockCreated;
      assert old(state) != AddingAllocators ==> builder == Building(Frames(state, numBlocks, false));
    }

    /** `check_ready_to_add_events`; false stands for an abort. */
    method CheckReadyToAddEvents() returns (ok: bool)
      requires Balanced()
      modifies this`state, this`builder, this`acts
      ensures ok <==> old(state) != Init && old(state) != Done
      ensures Balanced() && state == if ok then AddingEvents else old(state)
      ensures !ok ==> builder == old(builder) && acts == old(acts)
      ensures ok ==> acts == old(acts) + Opening(old(state))
    {
      hide Do, Perform;
      if state != AddingEvents {
        if state != AddingAllocators && state != BlockCreated {
          return false;
        }
        ghost var had := state == AddingAllocators;
        if state == AddingAllocators {
          Act(EndAllocators);
          ClosingVector(numBlocks - 1, RunData(true, true, false), AllocatorVector);
        }
        Act(StartEvents);
        OpeningVector(numBlocks - 1, RunData(true, had, false));
        state := AddingEvents;
        assert builder == Building(Frames(AddingEvents, numBlocks, had));
      }
      return true;
    }

    /** Ending a profiled region, logging a value, tracking an allocation; false stands for an abort. */
    method AddOneEvent() returns (ok: bool)
      requires Balanced()
      modifies this`state, this`builder, this`acts
      ensures ok <==> !Aborts(old(state), AddEvent)
      ensures acts == if ok then old(acts) + Opening(old(state)) + [AddEntry] else old(acts)
      ensures Balanced() && state == if ok then AddingEvents else old(state)
    {
      hide Do, Perform;
      ok := CheckReadyToAddEvents();
      if ok {
        ghost var a :| builder == Building(Frames(state, numBlocks, a));
        Act(AddEntry);
        ClosingVector(numBlocks - 1, RunData(true, a, true), EventVector);
      }
    }

    /** `track_allocator`; false stands for an abort. */
    method TrackOneAllocator() returns (ok: bool)
      requires Balanced()
      modifies this`state, this`builder, this`acts
      ensures ok <==> !Aborts(old(state), TrackAllocator)
      ensures ok ==> acts == old(acts) + (if old(state) == AddingAllocators then [] else [StartAllocators]) + [AddAllocator]
      ensures !ok ==> acts == old(acts)
      ensures Balanced() && state == if ok then AddingAllocators else old(state)
    {
      hide Do, Perform;
      if state != BlockCreated && state != AddingAllocators {
        return false;
      }
      if state != AddingAllocators {
        Act(StartAllocators);
        OpeningVector(numBlocks - 1, RunData(true, false, false));
        state := AddingAllocators;
      }
      Act(AddAllocator);
      ClosingVector(numBlocks - 1, RunData(true, true, false), AllocatorVector);
      assert builder == Building(Frames(AddingAllocators, numBlocks, false));
      return true;
    }

    /** `get_etdump_data`: false when there is nothing to return. A second call in a row closes
        frames that are no longer there. */
    method GetEtdumpData() returns (some: bool)
      requires Balanced()
      modifies this`state, this`builder, this`acts
      ensures some <==> old(state) != Init
      ensures old(state) != Done ==> Balanced()
      ensures old(state) == Done ==> builder == Broken
      ensures state == if some then Done else Init
      ensures some ==>
                acts == old(acts) + (if old(state) == AddingEvents then [EndEvents]
                                     else if old(state) == AddingAllocators then [EndAllocators] else [])
                      + [EndRunData, EndRunDataVector, EndRoot, EndBuffer]
      ensures !some ==> acts == old(acts)
    {
      hide Do, Perform;
      ghost var a :| state == AddingEvents ==> builder == Building(Frames(AddingEvents, numBlocks, a));
      if state == AddingEvents {
        Act(EndEvents);
        ClosingVector(numBlocks - 1, RunData(true, a, true), EventVector);
        ClosingBlock(numBlocks - 1, RunData(true, a, true));
      } else if state == AddingAllocators {
        Act(EndAllocators);
        ClosingVector(numBlocks - 1, RunData(true, true, false), AllocatorVector);
        ClosingBlock(numBlocks - 1, RunData(true, true, false));
      } else if state == Init {
        return false;
      }
      FinishedIsClosed(numBlocks);
      ClosingBlock(numBlocks - 1, RunData(true, false, false));
      ClosingFile(numBlocks);
      Act(EndRunData);
      Act(EndRunDataVector);
      Act(EndRoot);
      Act(EndBuffer);
      state := Done;
      return true;
    }

    /** Any run of calls, up to the first that aborts or breaks the builder. The builder stays
        balanced after every call; it breaks exactly at the first unguarded one. */
    method Serve(calls: seq<Call>) returns (n: nat, end: End)
      requires Balanced()
      modifies this
      ensures n <= |calls| && (end == Completed <==> n == |calls|)
      ensures forall i :: 0 <= i < n ==>
                var s := StateAfter(old(state), calls[..i]); !Aborts(s, calls[i]) && !Unguarded(s, calls[i])
      ensures end == Aborted ==> Aborts(StateAfter(old(state), calls[..n]), calls[n])
      ensures end == BuilderBroken <==> n < |calls| && Unguarded(StateAfter(old(state), calls[..n]), calls[n])
      ensures if end == BuilderBroken then builder == Broken else Balanced()
      ensures end == Completed ==> state == StateAfter(old(state), calls)
    {
      hide Do, Perform, Frames, Unguarded, Aborts, Balanced, Next;
      n := 0;
      while n < |calls|
        invariant n <= |calls| && Balanced() && state == StateAfter(old(state), calls[..n])
        invariant forall i :: 0 <= i < n ==>
                    var s := StateAfter(old(state), calls[..i]); !Aborts(s, calls[i]) && !Unguarded(s, calls[i])
      {
        assert calls[..n + 1][..n] == calls[..n];
        ghost var before := state;
        var ok := ServeOne(calls[n]);
        if !ok {
          return n, Aborted;
        }
        if !Unguarded(before, calls[n]) {
          BalancedIsWhole();
        }
        if builder == Broken {
          return n, BuilderBroken;
        }
        n := n + 1;
      }
      assert calls[..n] == calls;
      end := Completed;
    }

    lemma BalancedIsWhole()
      requires Balanced()
      ensures builder != Broken
    {
    }

    /** One call; false stands for an abort. */
    method ServeOne(c: Call) returns (ok: bool)
      requires Balanced()
      modifies this
      ensures ok <==> !Aborts(old(state), c)
      ensures !ok ==> !Unguarded(old(state), c)
      ensures ok ==> state == Next(old(state), c)
      ensures if Unguarded(old(state), c) then builder == Broken else Balanced()
    {
      ok := true;
      match c
      case CreateBlock => CreateEventBlock();
      case TrackAllocator => ok := TrackOneAllocator();
      case StartDelegateEvent => ok := CheckReadyToAddEvents();
      case AddEvent => ok := AddOneEvent();
      case GetData => var _ := GetEtdumpData();
      case Reset => DoReset();
    }
  }

  lemma FinishedIsClosed(n: nat)
    ensures Do(Do(Do(Do(Finished(n), EndRunData), EndRunDataVector), EndRoot), EndBuffer) == Broken
  {
  }
}
