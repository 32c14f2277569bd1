/** The lifetime probe: an allocator that takes over the release of one block of a session and must
    pass it on to the allocator that made the block. */
module Observer {
  import opened Texts

  /** Native allocators belong to OpenCV; Probe is the observer itself. */
  datatype Allocator = Native(id: nat) | Probe

  /** A live UMatData: who made it, who releases it (currAllocator), and its size. */
  datatype Block = Block(creator: Allocator, dispatcher: Allocator, size: nat)

  datatype Status = Ok | Nested | Inactive | StillLive

  /** What happened, for the record only. observed: made through the observer. */
  datatype Event =
    | Began(allocator: Allocator)
    | Made(block: nat, creator: Allocator, size: nat, external: bool, observed: bool)
    | Released(block: nat, taker: Allocator)

  /** The probe's variables, then the process around it: the default allocator, the live blocks, the
      events so far, and where among them the last session began. */
  datatype State = State(
    active: bool, defaultIsObserver: bool, upstream: Option<Allocator>,
    captured: bool, target: Option<nat>, size: nat, releases: nat,
    current: Option<Allocator>, blocks: map<nat, Block>, history: seq<Event>, started: nat)

  function Start(current: Option<Allocator>): State {
    State(false, false, None, false, None, 0, 0, current, map[], [], 0)
  }

  /** Whether a call to set the default allocator throws, and whether it took effect before that. */
  datatype Setting = Quiet | Throws(took: bool)

  function Set(s: State, allocator: Option<Allocator>, setting: Setting): State {
    if setting == Throws(false) then s else s.(current := allocator)
  }

  // ----- the entry points, as functions of the state

  function BeginStep(s: State, setting: Setting): (State, Status) {
    if s.active then (s, Nested)
    else if s.current.None? || s.current == Some(Probe) then (s.(upstream := None), Inactive)
    else
      var ready := s.(upstream := s.current, captured := false, target := None, size := 0, releases := 0);
      var set_ := Set(ready, Some(Probe), setting);
      if setting.Throws? then (set_.(active := false, upstream := None), Inactive)
      else
        (set_.(active := true, defaultIsObserver := true, history := s.history + [Began(s.current.value)],
               started := |s.history|), Ok)
  }

  function RestoreDefault(s: State, setting: Setting): (State, bool) {
    if s.defaultIsObserver && s.upstream.Some? then
      var set_ := Set(s, s.upstream, setting);
      if setting.Throws? then (set_, false) else (set_.(defaultIsObserver := false), true)
    else (s.(defaultIsObserver := false), true)
  }

  function RestoreStep(s: State, setting: Setting): (State, Status) {
    if !s.active then (s, Inactive)
    else
      var (restored, ok) := RestoreDefault(s, setting);
      (restored, if ok then Ok else Inactive)
  }

  function FinishStep(s: State, setting: Setting): (State, Status) {
    if !s.active then (s, Inactive)
    else
      var (restored, ok) := RestoreDefault(s, setting);
      if !ok then (restored, Inactive)
      else if restored.target.Some? then (restored, StillLive)
      else
        (restored.(active := false, defaultIsObserver := false, upstream := None, captured := false,
                   target := None, size := 0, releases := 0), Ok)
  }

  /** What a native allocator answers: nothing, or a block at an address not in use. */
  type Answer = Option<(nat, nat)>

  predicate Fresh(s: State, answer: Answer) {
    answer.Some? ==> answer.value.0 !in s.blocks
  }

  function NativeMake(s: State, allocator: Allocator, external: bool, observed: bool, address: nat, size: nat): State {
    s.(blocks := s.blocks[address := Block(allocator, allocator, size)],
       history := s.history + [Made(address, allocator, size, external, observed)])
  }

  function ObserverAllocate(s: State, external: bool, answer: Answer): (State, Option<nat>) {
    if s.upstream.None? || answer.None? then (s, None)
    else
      var (address, size) := answer.value;
      var made := NativeMake(s, s.upstream.value, external, true, address, size);
      if external || s.captured then (made, Some(address))
      else
        (made.(blocks := made.blocks[address := made.blocks[address].(dispatcher := Probe)],
               target := Some(address), size := size, captured := true), Some(address))
  }

  /** OpenCV asks the default allocator; without one, its standard allocator 0. */
  function AllocateStep(s: State, external: bool, answer: Answer): (State, Option<nat>) {
    match s.current
    case Some(Probe) => ObserverAllocate(s, external, answer)
    case Some(Native(id)) => NativeAllocate(s, Native(id), external, answer)
    case None => NativeAllocate(s, Native(0), external, answer)
  }

  function NativeAllocate(s: State, allocator: Allocator, external: bool, answer: Answer): (State, Option<nat>) {
    if answer.None? then (s, None)
    else (NativeMake(s, allocator, external, false, answer.value.0, answer.value.1), Some(answer.value.0))
  }

  /** A native allocator takes back a block. */
  function NativeRelease(s: State, block: nat, taker: Allocator): State {
    s.(blocks := s.blocks - {block}, history := s.history + [Released(block, taker)])
  }

  /** Without an upstream allocator nobody takes the block back. */
  function ObserverDeallocate(s: State, block: nat): State {
    var counted := if s.captured && s.target == Some(block) then s.(releases := s.releases + 1, target := None) else s;
    if s.upstream.Some? then NativeRelease(counted, block, s.upstream.value) else counted
  }

  /** The last reference to a block goes away. */
  function ReleaseStep(s: State, block: nat): State
    requires block in s.blocks
  {
    match s.blocks[block].dispatcher
    case Probe => ObserverDeallocate(s, block)
    case Native(id) => NativeRelease(s, block, Native(id))
  }

  // ----- runs

  datatype Call =
    | Begin(setting: Setting)
    | Restore(setting: Setting)
    | Finish(setting: Setting)
    | Allocate(external: bool, answer: Answer)
    | AllocateThroughObserver(external: bool, answer: Answer)
    | Release(block: nat)

  /** New blocks get unused addresses, and only live blocks are released. */
  predicate Possible(s: State, call: Call) {
    match call
    case Allocate(_, answer) => Fresh(s, answer)
    case AllocateThroughObserver(_, answer) => Fresh(s, answer)
    case Release(block) => block in s.blocks
    case _ => true
  }

  function Do(s: State, call: Call): State
    requires Possible(s, call)
  {
    match call
    case Begin(setting) => BeginStep(s, setting).0
    case Restore(setting) => RestoreStep(s, setting).0
    case Finish(setting) => FinishStep(s, setting).0
    case Allocate(external, answer) => AllocateStep(s, external, answer).0
    case AllocateThroughObserver(external, answer) => ObserverAllocate(s, external, answer).0
    case Release(block) => ReleaseStep(s, block)
  }

  /** The states along a run. */
  predicate IsRun(states: seq<State>, calls: seq<Call>) {
    |states| == |calls| + 1 && states[0].current != Some(Probe) && states[0] == Start(states[0].current) &&
    forall i :: 0 <= i < |calls| ==> StepsAt(states, calls, i)
  }

  predicate StepsAt(states: seq<State>, calls: seq<Call>, i: nat)
    requires i < |calls| && |states| == |calls| + 1
  {
    Possible(states[i], calls[i]) && states[i + 1] == Do(states[i], calls[i])
  }

  // ----- what every run keeps

  /** Whoever is to release a block can: its maker, or the observer with the maker upstream. */
  predicate BlockSafe(s: State, block: nat)
    requires block in s.blocks
  {
    var b := s.blocks[block];
    b.creator.Native? &&
    (b.dispatcher == Probe ==> s.target == Some(block) && s.upstream == Some(b.creator)) &&
    (b.dispatcher.Native? ==> b.dispatcher == b.creator)
  }

  predicate BlocksSafe(s: State) {
    forall block :: block in s.blocks ==> BlockSafe(s, block)
  }

  /** Outside a session every variable of the probe has its first value. */
  predicate Idle(s: State) {
    !s.active && !s.defaultIsObserver && s.upstream.None? && !s.captured && s.target.None? && s.size == 0 &&
    s.releases == 0
  }

  predicate InSession(s: State) {
    s.active && s.upstream.Some? && s.upstream.value.Native? &&
    (s.target.Some? ==> s.captured && s.target.value in s.blocks && s.blocks[s.target.value].dispatcher == Probe) &&
    (!s.captured ==> s.size == 0) &&
    s.releases == (if s.captured && s.target.None? then 1 else 0) &&
    (if s.defaultIsObserver then s.current == Some(Probe) || s.current == s.upstream else s.current == s.upstream)
  }

  predicate Shaped(s: State) {
    BlocksSafe(s) && (Idle(s) || InSession(s))
  }

  lemma BeginShaped(s: State, setting: Setting)
    requires Shaped(s)
    ensures Shaped(BeginStep(s, setting).0)
  {
    assert forall block :: block in s.blocks && !s.active ==> BlockSafe(s, block);
  }

  lemma RestoreShaped(s: State, setting: Setting)
    requires Shaped(s)
    ensures Shaped(RestoreStep(s, setting).0)
  {
    assert forall block :: block in s.blocks ==> BlockSafe(s, block);
  }

  lemma FinishShaped(s: State, setting: Setting)
    requires Shaped(s)
    ensures Shaped(FinishStep(s, setting).0)
  {
    assert forall block :: block in s.blocks ==> BlockSafe(s, block);
  }

  lemma ObserverShaped(s: State, external: bool, answer: Answer)
    requires Shaped(s) && Fresh(s, answer)
    ensures Shaped(ObserverAllocate(s, external, answer).0)
  {
    assert forall block :: block in s.blocks ==> BlockSafe(s, block);
  }

  lemma NativeShaped(s: State, allocator: Allocator, external: bool, answer: Answer)
    requires Shaped(s) && Fresh(s, answer) && allocator.Native?
    ensures Shaped(NativeAllocate(s, allocator, external, answer).0)
  {
    assert forall block :: block in s.blocks ==> BlockSafe(s, block);
  }

  lemma ReleaseShaped(s: State, block: nat)
    requires Shaped(s) && block in s.blocks
    ensures Shaped(ReleaseStep(s, block))
  {
    assert BlockSafe(s, block);
    assert forall b :: b in s.blocks ==> BlockSafe(s, b);
  }

  lemma StepShaped(s: State, call: Call)
    requires Shaped(s) && Possible(s, call)
    ensures Shaped(Do(s, call))
  {
    match call
    case Begin(setting) => BeginShaped(s, setting);
    case Restore(setting) => RestoreShaped(s, setting);
    case Finish(setting) => FinishShaped(s, setting);
    case Allocate(external, answer) =>
      if s.current == Some(Probe) {
        ObserverShaped(s, external, answer);
      } else {
        NativeShaped(s, s.current.GetOr(Native(0)), external, answer);
      }
    case AllocateThroughObserver(external, answer) => ObserverShaped(s, external, answer);
    case Release(block) => ReleaseShaped(s, block);
  }

  // ----- every release reaches the maker

  function LiveWith(live: map<nat, Allocator>, event: Event): map<nat, Allocator> {
    match event
    case Made(block, creator, _, _, _) => live[block := creator]
    case Released(block, _) => live - {block}
    case Began(_) => live
  }

  /** The live blocks and their makers, read off the events alone. */
  function LiveAfter(history: seq<Event>): map<nat, Allocator> {
    if history == [] then map[] else LiveWith(LiveAfter(history[..|history| - 1]), history[|history| - 1])
  }

  /** Every release so far was of a live block and went to the allocator that had made it. */
  predicate Faithful(history: seq<Event>) {
    history == [] ||
    (var before, event := history[..|history| - 1], history[|history| - 1];
     Faithful(before) && (event.Released? ==> event.block in LiveAfter(before) && LiveAfter(before)[event.block] == event.taker))
  }

  /** The events tell the truth about the live blocks. */
  predicate Recorded(s: State) {
    Faithful(s.history) && LiveAfter(s.history).Keys == s.blocks.Keys &&
    forall block :: block in s.blocks ==> LiveAfter(s.history)[block] == s.blocks[block].creator
  }

  lemma LiveSnoc(history: seq<Event>, event: Event)
    ensures LiveAfter(history + [event]) == LiveWith(LiveAfter(history), event)
    ensures Faithful(history + [event]) <==>
            Faithful(history) && (event.Released? ==> event.block in LiveAfter(history) && LiveAfter(history)[event.block] == event.taker)
  {
    assert (history + [event])[..|history|] == history;
  }

  lemma MakeRecorded(s: State, allocator: Allocator, external: bool, observed: bool, address: nat, size: nat)
    requires Recorded(s)
    ensures Recorded(NativeMake(s, allocator, external, observed, address, size))
  {
    LiveSnoc(s.history, Made(address, allocator, size, external, observed));
  }

  lemma TakenBackRecorded(s: State, block: nat, taker: Allocator)
    requires Recorded(s) && block in s.blocks && s.blocks[block].creator == taker
    ensures Recorded(NativeRelease(s, block, taker))
  {
    LiveSnoc(s.history, Released(block, taker));
  }

  lemma BeginRecorded(s: State, setting: Setting)
    requires Recorded(s)
    ensures Recorded(BeginStep(s, setting).0)
  {
    var s' := BeginStep(s, setting).0;
    BeginKeeps(s, setting);
    if s'.history != s.history {
      BeganRecorded(s, s', s.current.value);
    }
  }

  /** Beginning touches no block, and records at most itself. */
  lemma BeginKeeps(s: State, setting: Setting)
    ensures var s' := BeginStep(s, setting).0;
            s'.blocks == s.blocks &&
            (s'.history == s.history || (s.current.Some? && s'.history == s.history + [Began(s.current.value)]))
  {
  }

  lemma BeganRecorded(s: State, s': State, allocator: Allocator)
    requires Recorded(s) && s'.blocks == s.blocks && s'.history == s.history + [Began(allocator)]
    ensures Recorded(s')
  {
    LiveSnoc(s.history, Began(allocator));
  }

  lemma ObserverRecorded(s: State, external: bool, answer: Answer)
    requires Recorded(s)
    ensures Recorded(ObserverAllocate(s, external, answer).0)
  {
    if s.upstream.Some? && answer.Some? {
      MakeRecorded(s, s.upstream.value, external, true, answer.value.0, answer.value.1);
    }
  }

  lemma ReleaseRecorded(s: State, block: nat)
    requires Recorded(s) && Shaped(s) && block in s.blocks
    ensures Recorded(ReleaseStep(s, block))
  {
    assert BlockSafe(s, block);
    TakenBackRecorded(s, block, s.blocks[block].creator);
  }

  lemma StepRecorded(s: State, call: Call)
    requires Recorded(s) && Shaped(s) && Possible(s, call)
    ensures Recorded(Do(s, call))
  {
    match call
    case Begin(setting) => BeginRecorded(s, setting);
    case Allocate(external, answer) =>
      if s.current == Some(Probe) {
        ObserverRecorded(s, external, answer);
      } else if answer.Some? {
        MakeRecorded(s, s.current.GetOr(Native(0)), external, false, answer.value.0, answer.value.1);
      }
    case AllocateThroughObserver(external, answer) => ObserverRecorded(s, external, answer);
    case Release(block) => ReleaseRecorded(s, block);
    case _ =>
  }

  // ----- what the counters mean

  predicate Owned(event: Event) {
    event.Made? && event.observed && !event.external
  }

  /** Index of the first block of its own that OpenCV made through the observer. */
  function FirstOwned(part: seq<Event>): (r: Option<nat>)
    ensures r.Some? ==> r.value < |part| && Owned(part[r.value])
  {
    if part == [] then None
    else
      var before := FirstOwned(part[..|part| - 1]);
      if before.Some? then before else if Owned(part[|part| - 1]) then Some(|part| - 1) else None
  }

  predicate ReleasesAt(part: seq<Event>, j: int, block: nat) {
    0 <= j < |part| && part[j].Released? && part[j].block == block
  }

  /** The block made at i has been released since. */
  ghost predicate ReleasedSince(part: seq<Event>, i: nat)
    requires i < |part| && part[i].Made?
  {
    exists j :: i < j < |part| && ReleasesAt(part, j, part[i].block)
  }

  /** In a session that began with upstream, the events since say this of the probe's variables. */
  ghost predicate Told(upstream: Option<Allocator>, captured: bool, target: Option<nat>, size: nat, releases: nat, part: seq<Event>) {
    part != [] && upstream.Some? && part[0] == Began(upstream.value) &&
    match FirstOwned(part)
    case None => !captured
    case Some(i) =>
      captured && size == part[i].size &&
      if ReleasedSince(part, i) then releases == 1 && target.None? else releases == 0 && target == Some(part[i].block)
  }

  ghost predicate CountersTold(s: State) {
    s.active ==>
      s.started <= |s.history| &&
      Told(s.upstream, s.captured, s.target, s.size, s.releases, s.history[s.started..])
  }

  lemma FirstOwnedSnoc(part: seq<Event>, event: Event)
    ensures FirstOwned(part + [event]) ==
            if FirstOwned(part).Some? then FirstOwned(part) else if Owned(event) then Some(|part|) else None
  {
    assert (part + [event])[..|part|] == part;
  }

  lemma ReleasedSnoc(part: seq<Event>, event: Event, i: nat)
    requires i < |part| && part[i].Made?
    ensures ReleasedSince(part + [event], i) <==>
            ReleasedSince(part, i) || (event.Released? && event.block == part[i].block)
  {
    var part' := part + [event];
    if ReleasedSince(part, i) {
      var j :| i < j < |part| && ReleasesAt(part, j, part[i].block);
      assert ReleasesAt(part', j, part[i].block);
    }
    if event.Released? && event.block == part[i].block {
      assert ReleasesAt(part', |part|, part[i].block);
    }
    if ReleasedSince(part', i) {
      var j :| i < j < |part'| && ReleasesAt(part', j, part[i].block);
      assert j < |part| ==> ReleasesAt(part, j, part[i].block);
    }
  }

  lemma ToldOther(upstream: Option<Allocator>, captured: bool, target: Option<nat>, size: nat, releases: nat,
                  part: seq<Event>, event: Event)
    requires Told(upstream, captured, target, size, releases, part)
    requires Owned(event) ==> captured
    requires event.Released? ==> target != Some(event.block)
    ensures Told(upstream, captured, target, size, releases, part + [event])
  {
    FirstOwnedSnoc(part, event);
    if i :| FirstOwned(part) == Some(i) {
      ReleasedSnoc(part, event, i);
    }
  }

  lemma ToldCapture(upstream: Option<Allocator>, target: Option<nat>, size: nat, releases: nat, part: seq<Event>, event: Event)
    requires Told(upstream, false, target, size, releases, part) && Owned(event)
    ensures Told(upstream, true, Some(event.block), event.size, 0, part + [event])
  {
    FirstOwnedSnoc(part, event);
    var part' := part + [event];
    assert forall j :: |part| < j ==> !ReleasesAt(part', j, event.block);
  }

  lemma ToldRelease(upstream: Option<Allocator>, block: nat, size: nat, part: seq<Event>, event: Event)
    requires Told(upstream, true, Some(block), size, 0, part) && event.Released? && event.block == block
    ensures Told(upstream, true, None, size, 1, part + [event])
  {
    FirstOwnedSnoc(part, event);
    ReleasedSnoc(part, event, FirstOwned(part).value);
  }

  lemma PartSnoc(s: State, event: Event)
    requires s.started <= |s.history|
    ensures (s.history + [event])[s.started..] == s.history[s.started..] + [event]
  {
  }

  lemma BeginTold(s: State, setting: Setting)
    requires CountersTold(s)
    ensures CountersTold(BeginStep(s, setting).0)
  {
    var s' := BeginStep(s, setting).0;
    if s'.active && !s.active {
      var part := s'.history[s'.started..];
      assert part == [Began(s.current.value)];
      assert part[..0] == [];
      assert FirstOwned(part).None?;
    }
  }

  lemma NativeTold(s: State, allocator: Allocator, external: bool, address: nat, size: nat)
    requires CountersTold(s)
    ensures CountersTold(NativeMake(s, allocator, external, false, address, size))
  {
    if s.active {
      var event := Made(address, allocator, size, external, false);
      PartSnoc(s, event);
      ToldOther(s.upstream, s.captured, s.target, s.size, s.releases, s.history[s.started..], event);
    }
  }

  lemma ObserverTold(s: State, external: bool, answer: Answer)
    requires CountersTold(s) && Shaped(s)
    ensures CountersTold(ObserverAllocate(s, external, answer).0)
  {
    if s.active && answer.Some? {
      var (address, size) := answer.value;
      var event := Made(address, s.upstream.value, size, external, true);
      PartSnoc(s, event);
      if external || s.captured {
        ToldOther(s.upstream, s.captured, s.target, s.size, s.releases, s.history[s.started..], event);
      } else {
        ToldCapture(s.upstream, s.target, s.size, s.releases, s.history[s.started..], event);
      }
    }
  }

  lemma ReleaseTold(s: State, block: nat)
    requires CountersTold(s) && Shaped(s) && block in s.blocks
    ensures CountersTold(ReleaseStep(s, block))
  {
    assert BlockSafe(s, block);
    if s.active {
      var event := Released(block, s.blocks[block].creator);
      PartSnoc(s, event);
      if s.target == Some(block) {
        ToldRelease(s.upstream, block, s.size, s.history[s.started..], event);
      } else {
        ToldOther(s.upstream, s.captured, s.target, s.size, s.releases, s.history[s.started..], event);
      }
    }
  }

  lemma StepTold(s: State, call: Call)
    requires CountersTold(s) && Shaped(s) && Possible(s, call)
    ensures CountersTold(Do(s, call))
  {
    match call
    case Begin(setting) => BeginTold(s, setting);
    case Allocate(external, answer) =>
      if s.current == Some(Probe) {
        ObserverTold(s, external, answer);
      } else if answer.Some? {
        NativeTold(s, s.current.GetOr(Native(0)), external, answer.value.0, answer.value.1);
      }
    case AllocateThroughObserver(external, answer) => ObserverTold(s, external, answer);
    case Release(block) => ReleaseTold(s, block);
    case _ =>
  }

  // ----- over every run

  ghost predicate Good(s: State) {
    Shaped(s) && Recorded(s) && CountersTold(s)
  }

  lemma StepGood(s: State, call: Call)
    requires Good(s) && Possible(s, call)
    ensures Good(Do(s, call))
  {
    StepShaped(s, call);
    StepRecorded(s, call);
    StepTold(s, call);
  }

  /** In every state of every run: each block still live is released by its maker, directly or through
      the observer with the maker upstream, and then only as the session's target; every release so
      far reached the maker of a live block; and the counters tell the session's story. */
  lemma {:induction false} EveryRun(states: seq<State>, calls: seq<Call>, n: nat)
    requires IsRun(states, calls) && n < |states|
    ensures Good(states[n])
  {
    if n == 0 {
    } else {
      EveryRun(states, calls, n - 1);
      assert StepsAt(states, calls, n - 1);
      StepGood(states[n - 1], calls[n - 1]);
    }
  }

  /** No release is ever lost: whatever block goes away, its maker takes it back. */
  lemma NoReleaseLost(s: State, block: nat)
    requires Good(s) && block in s.blocks
    ensures var s' := ReleaseStep(s, block);
            s'.blocks == s.blocks - {block} && s'.history == s.history + [Released(block, s.blocks[block].creator)]
  {
    assert BlockSafe(s, block);
  }

  /** During a session the observer answers exactly as the allocator behind it does. */
  lemma AllocationTransparent(s: State, external: bool, answer: Answer)
    requires Good(s) && s.active && Fresh(s, answer)
    ensures var (s', made) := ObserverAllocate(s, external, answer);
            (answer.None? ==> made.None? && s' == s) &&
            (answer.Some? ==> made == Some(answer.value.0) && s'.blocks.Keys == s.blocks.Keys + {answer.value.0} &&
                              s'.blocks[answer.value.0].creator == s.upstream.value)
  {
  }

  /** The count is 1 exactly when the session's first block of OpenCV's own was released, else 0. */
  lemma CountIsReleaseOfFirst(s: State)
    requires Good(s) && s.active
    ensures var part := s.history[s.started..];
            s.releases == if FirstOwned(part).Some? && ReleasedSince(part, FirstOwned(part).value) then 1 else 0
    ensures var part := s.history[s.started..];
            s.target.Some? <==> FirstOwned(part).Some? && !ReleasedSince(part, FirstOwned(part).value)
  {
  }

  /** Finish succeeds exactly if the default allocator can be put back and no target is live; then
      the probe is as before its first session, and the allocator the session began with is the
      default again. */
  lemma FinishOk(s: State, setting: Setting)
    requires Good(s)
    ensures var (s', status) := FinishStep(s, setting);
            status == Ok <==> s.active && s.target.None? && !(s.defaultIsObserver && setting.Throws?)
    ensures var (s', status) := FinishStep(s, setting);
            status == Ok ==> Idle(s') && s'.current == Some(s.history[s.started].allocator) && s'.blocks == s.blocks
    ensures var (s', status) := FinishStep(s, setting);
            status != Ok ==> s'.active == s.active && s'.upstream == s.upstream && s'.target == s.target &&
                             s'.releases == s.releases && s'.captured == s.captured && s'.size == s.size &&
                             s'.blocks == s.blocks
  {
    if s.active {
      assert s.history[s.started..][0] == s.history[s.started];
    }
  }

  /** A session whose target is still live can finish once the target has been released. */
  lemma FinishAfterRelease(s: State, setting: Setting)
    requires Good(s) && FinishStep(s, setting).1 == StillLive
    ensures s.target.Some? && s.target.value in s.blocks
    ensures var waiting := FinishStep(s, setting).0;
            waiting.blocks == s.blocks && waiting.current == s.upstream &&
            FinishStep(ReleaseStep(waiting, s.target.value), Quiet).1 == Ok
  {
  }

  // ----- the entry points as they change the probe's variables

  class AllocationObserver {
    var active: bool
    var defaultIsObserver: bool
    var upstream: Option<Allocator>
    var captured: bool
    var target: Option<nat>
    var size: nat
    var releases: nat

    // OpenCV's side: the default allocator and the live blocks
    var current: Option<Allocator>
    var blocks: map<nat, Block>

    ghost var history: seq<Event>
    ghost var started: nat

    ghost function View(): State
      reads this
    {
      State(active, defaultIsObserver, upstream, captured, target, size, releases, current, blocks, history, started)
    }

    constructor (standard: Option<Allocator>)
      requires standard != Some(Probe)
      ensures View() == Start(standard) && Good(View())
    {
      active, defaultIsObserver, upstream := false, false, None;
      captured, target, size, releases := false, None, 0, 0;
      current, blocks, history, started := standard, map[], [], 0;
    }

    /** Mat::setDefaultAllocator */
    method SetDefault(allocator: Option<Allocator>, setting: Setting) returns (ok: bool)
      modifies this`current
      ensures View() == Set(old(View()), allocator, setting) && ok == setting.Quiet?
    {
      if setting != Throws(false) {
        current := allocator;
      }
      ok := setting.Quiet?;
    }

    method Begin(setting: Setting) returns (status: Status)
      modifies this
      ensures (View(), status) == BeginStep(old(View()), setting)
    {
      if active {
        return Nested;
      }
      upstream := current;
      if upstream.None? || upstream == Some(Probe) {
        upstream := None;
        return Inactive;
      }
      captured, target, size, releases := false, None, 0, 0;
      active := true;
      ghost var began, at := Began(current.value), |history|;
      var ok := SetDefault(Some(Probe), setting);
      if !ok {
        active := false;
        upstream := None;
        return Inactive;
      }
      defaultIsObserver := true;
      history, started := history + [began], at;
      status := Ok;
    }

    method RestoreDefaultAllocator(setting: Setting) returns (ok: bool)
      modifies this`current, this`defaultIsObserver
      ensures (View(), ok) == RestoreDefault(old(View()), setting)
    {
      if defaultIsObserver && upstream.Some? {
        ok := SetDefault(upstream, setting);
        if !ok {
          return;
        }
      }
      defaultIsObserver := false;
      ok := true;
    }

    method Restore(setting: Setting) returns (status: Status)
      modifies this`current, this`defaultIsObserver
      ensures (View(), status) == RestoreStep(old(View()), setting)
    {
      if !active {
        return Inactive;
      }
      var ok := RestoreDefaultAllocator(setting);
      status := if ok then Ok else Inactive;
    }

    method Finish(setting: Setting) returns (status: Status)
      modifies this
      ensures (View(), status) == FinishStep(old(View()), setting)
    {
      if !active {
        return Inactive;
      }
      var ok := RestoreDefaultAllocator(setting);
      if !ok {
        return Inactive;
      }
      if target.Some? {
        return StillLive;
      }
      active, defaultIsObserver, upstream := false, false, None;
      captured, target, size, releases := false, None, 0, 0;
      status := Ok;
    }

    /** Allocation_Observer::allocate; answer is what the upstream allocator returns if asked. */
    method ObserverAllocation(external: bool, answer: Answer) returns (block: Option<nat>)
      requires Fresh(View(), answer)
      modifies this
      ensures (View(), block) == ObserverAllocate(old(View()), external, answer)
    {
      if upstream.None? {
        return None;
      }
      if answer.None? {
        return None;
      }
      var (address, length) := answer.value;
      block := Some(address);
      blocks := blocks[address := Block(upstream.value, upstream.value, length)];
      history := history + [Made(address, upstream.value, length, external, true)];
      if external || captured {
        return;
      }
      blocks := blocks[address := blocks[address].(dispatcher := Probe)];
      target := block;
      size := blocks[address].size;
      captured := true;
    }

    /** Allocation_Observer::deallocate */
    method ObserverDeallocation(block: nat)
      modifies this
      ensures View() == ObserverDeallocate(old(View()), block)
    {
      if captured && target == Some(block) {
        releases := releases + 1;
        target := None;
      }
      if upstream.Some? {
        history := history + [Released(block, upstream.value)];
        blocks := blocks - {block};
      }
    }

    /** OpenCV's own allocation and release, dispatched as it does. */
    method Allocation(external: bool, answer: Answer) returns (block: Option<nat>)
      requires Fresh(View(), answer)
      modifies this
      ensures (View(), block) == AllocateStep(old(View()), external, answer)
    {
      if current == Some(Probe) {
        block := ObserverAllocation(external, answer);
      } else if answer.None? {
        block := None;
      } else {
        var allocator := current.GetOr(Native(0));
        blocks := blocks[answer.value.0 := Block(allocator, allocator, answer.value.1)];
        history := history + [Made(answer.value.0, allocator, answer.value.1, external, false)];
        block := Some(answer.value.0);
      }
    }

    method Deallocation(block: nat)
      requires block in blocks
      modifies this
      ensures View() == ReleaseStep(old(View()), block)
    {
      if blocks[block].dispatcher == Probe {
        ObserverDeallocation(block);
      } else {
        history := history + [Released(block, blocks[block].dispatcher)];
        blocks := blocks - {block};
      }
    }

    /** One event of a run. */
    method Perform(call: Call)
      requires Good(View()) && Possible(View(), call)
      modifies this
      ensures View() == Do(old(View()), call) && Good(View())
    {
      StepGood(View(), call);
      match call {
        case Begin(setting) => var _ := Begin(setting);
        case Restore(setting) => var _ := Restore(setting);
        case Finish(setting) => var _ := Finish(setting);
        case Allocate(external, answer) => var _ := Allocation(external, answer);
        case AllocateThroughObserver(external, answer) => var _ := ObserverAllocation(external, answer);
        case Release(block) => Deallocation(block);
      }
    }
  }
}
