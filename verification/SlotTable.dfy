/** The test trackers of native handles: two tables of 64 slots, one for views and one for borrow
    leases, with counters that wrap at 32 bits, refining plain multisets. */
module SlotTable {

  /** Handles are addresses; 0 is the null pointer and marks an empty slot. */
  type Handle = nat

  const SLOTS := 64
  const WORD := 0x1_0000_0000

  /** ++counter on a uint32_t */
  function Next(counter: nat): nat {
    (counter + 1) % WORD
  }

  /** The handles in the slots. */
  function Occupied(slots: seq<Handle>): multiset<Handle> {
    if slots == [] then multiset{}
    else Occupied(slots[..|slots| - 1]) + if slots[|slots| - 1] == 0 then multiset{} else multiset{slots[|slots| - 1]}
  }

  lemma {:induction false} OccupiedIn(slots: seq<Handle>, h: Handle)
    ensures h in Occupied(slots) <==> h != 0 && h in slots
  {
    if slots != [] {
      var n := |slots| - 1;
      OccupiedIn(slots[..n], h);
      assert slots == slots[..n] + [slots[n]];
    }
  }

  lemma {:induction false} Fill(slots: seq<Handle>, i: nat, h: Handle)
    requires i < |slots| && slots[i] == 0 && h != 0
    ensures Occupied(slots[i := h]) == Occupied(slots) + multiset{h}
  {
    var n, slots' := |slots| - 1, slots[i := h];
    if i < n {
      Fill(slots[..n], i, h);
      assert slots'[..n] == slots[..n][i := h];
    } else {
      assert slots'[..n] == slots[..n];
    }
  }

  lemma Empty(slots: seq<Handle>, i: nat)
    requires i < |slots| && slots[i] != 0
    ensures slots[i] in Occupied(slots) && Occupied(slots[i := 0]) == Occupied(slots) - multiset{slots[i]}
  {
    OccupiedIn(slots, slots[i]);
    Fill(slots[i := 0], i, slots[i]);
    assert slots[i := 0][i := slots[i]] == slots;
  }

  /** A table without a free slot holds as many handles as it has slots. */
  lemma {:induction false} OccupiedSize(slots: seq<Handle>)
    ensures |Occupied(slots)| <= |slots|
    ensures |Occupied(slots)| == |slots| <==> 0 !in slots
  {
    if slots != [] {
      var n := |slots| - 1;
      OccupiedSize(slots[..n]);
      assert slots == slots[..n] + [slots[n]];
    }
  }

  lemma TakeNothing(handles: multiset<Handle>, h: Handle)
    ensures h !in handles ==> handles - multiset{h} == handles
  {
  }

  lemma Cleared(slots: seq<Handle>, i: nat, recorded: nat)
    requires i < |slots| && slots[i] != 0 && |Occupied(slots)| <= recorded
    ensures slots[i] in Occupied(slots)
    ensures Occupied(slots[i := 0]) == Occupied(slots) - multiset{slots[i]}
    ensures |Occupied(slots[i := 0])| + 1 == |Occupied(slots)|
    ensures (recorded - |Occupied(slots[i := 0])|) % WORD == Next((recorded - |Occupied(slots)|) % WORD)
  {
    Empty(slots, i);
    OneMoreGone(recorded, |Occupied(slots)|);
  }

  lemma RoomLeft(slots: seq<Handle>, i: nat)
    requires i < |slots| == SLOTS && slots[i] == 0
    ensures |Occupied(slots)| < SLOTS && Next(|Occupied(slots)|) == |Occupied(slots)| + 1
  {
    OccupiedSize(slots);
  }

  class Table {
    const slots: array<Handle>
    var live: nat
    var destroyed: nat
    ghost var recorded: nat

    ghost function Contents(): multiset<Handle>
      reads this, slots
    {
      Occupied(slots[..])
    }

    /** The counters against the slots: the live count is exact, the sum holds modulo a word. */
    ghost predicate Valid()
      reads this, slots
    {
      slots.Length == SLOTS && live == |Contents()| && live <= recorded && destroyed == (recorded - live) % WORD
    }

    constructor ()
      ensures Valid() && Contents() == multiset{} && recorded == 0 && fresh(slots)
    {
      slots := new Handle[SLOTS](_ => 0);
      live, destroyed, recorded := 0, 0, 0;
      new;
      AllEmpty(slots[..]);
    }

    /** The search loop of both operations: the first slot with that content, or SLOTS. */
    method FirstSlot(content: Handle) returns (i: nat)
      requires Valid()
      ensures i <= SLOTS && content !in slots[..i] && (i < SLOTS ==> slots[i] == content)
      ensures i == SLOTS ==> content !in slots[..]
    {
      i := 0;
      while i < SLOTS && slots[i] != content
        invariant i <= SLOTS && content !in slots[..i]
      {
        i := i + 1;
      }
      assert slots[..SLOTS] == slots[..];
    }

    /** The first free slot takes the handle; false where the program aborts. */
    method Remember(h: Handle) returns (ok: bool)
      requires Valid()
      modifies this, slots
      ensures ok <==> h != 0 && |old(Contents())| < SLOTS
      ensures ok ==> Contents() == old(Contents()) + multiset{h} && recorded == old(recorded) + 1 && destroyed == old(destroyed)
      ensures !ok ==> slots[..] == old(slots[..]) && live == old(live) && destroyed == old(destroyed) && recorded == old(recorded)
      ensures Valid()
    {
      OccupiedSize(slots[..]);
      if h == 0 {
        return false;
      }
      var i := FirstSlot(0);
      if i == SLOTS {
        return false;
      }
      ghost var before := slots[..];
      Fill(before, i, h);
      slots[i] := h;
      assert slots[..] == before[i := h];
      RoomLeft(before, i);
      live := Next(live);
      recorded := recorded + 1;
      ok := true;
    }

    /** The first slot that holds the handle is cleared; a null pointer is in no slot. */
    method Forget(h: Handle)
      requires Valid()
      modifies this, slots
      ensures Valid() && Contents() == old(Contents()) - multiset{h} && recorded == old(recorded)
      ensures destroyed == if h in old(Contents()) then Next(old(destroyed)) else old(destroyed)
    {
      OccupiedIn(slots[..], h);
      TakeNothing(Contents(), h);
      if h == 0 {
        return;
      }
      var i := FirstSlot(h);
      if i < SLOTS {
        ClearSlot(i);
      }
    }

    method ClearSlot(i: nat)
      requires Valid() && i < SLOTS && slots[i] != 0
      modifies this, slots
      ensures Valid() && Contents() == old(Contents()) - multiset{old(slots[i])} && recorded == old(recorded)
      ensures destroyed == Next(old(destroyed))
    {
      ghost var before := slots[..];
      Cleared(before, i, recorded);
      slots[i] := 0;
      assert slots[..] == before[i := 0];
      live := live - 1;
      destroyed := Next(destroyed);
    }

    /** live + destroyed is the number of handles recorded, modulo a word. */
    lemma Balanced()
      requires Valid()
      ensures live <= SLOTS && (live + destroyed) % WORD == recorded % WORD
    {
      OccupiedSize(slots[..]);
      SumModulo(live, recorded - live);
    }
  }

  lemma {:induction false} AllEmpty(slots: seq<Handle>)
    requires forall i :: 0 <= i < |slots| ==> slots[i] == 0
    ensures Occupied(slots) == multiset{}
  {
    if slots != [] {
      AllEmpty(slots[..|slots| - 1]);
    }
  }

  lemma OneMoreGone(recorded: nat, live: nat)
    requires 0 < live <= recorded
    ensures (recorded - (live - 1)) % WORD == Next((recorded - live) % WORD)
  {
  }

  lemma SumModulo(a: nat, b: nat)
    ensures (a + b % WORD) % WORD == (a + b) % WORD
  {
  }

  // ----- both tables, driven by the wrapped entry points

  /** Each call with what the real entry point answers: success and the handle. */
  datatype Event =
    | Construct(boundary: nat, ok: bool, handle: Handle)
    | Acquire(ok: bool, handle: Handle)
    | Borrow
    | Destroy(handle: Handle)

  predicate Possible(event: Event) {
    event.Construct? ==> event.boundary < 4
  }

  /** The plain account of a run: the handles recorded and not destroyed since, and how often each
      entry point was called. */
  datatype Ledger = Ledger(views: multiset<Handle>, leases: multiset<Handle>, calls: seq<nat>, leaseCalls: nat, borrows: nat,
                           viewsRecorded: nat, leasesRecorded: nat)

  const NOTHING := Ledger(multiset{}, multiset{}, [0, 0, 0, 0], 0, 0, 0, 0)

  predicate Admits(handles: multiset<Handle>, h: Handle) {
    h != 0 && |handles| < SLOTS
  }

  /** Does the program abort on this event? Only on success without a handle, or without a free slot. */
  predicate Aborts(l: Ledger, event: Event) {
    match event
    case Construct(_, ok, h) => ok && !Admits(l.views, h)
    case Acquire(ok, h) => ok && !Admits(l.leases, h)
    case _ => false
  }

  function Account(l: Ledger, event: Event): (r: Ledger)
    requires |l.calls| == 4 && Possible(event)
    ensures |r.calls| == 4
  {
    match event
    case Construct(boundary, ok, h) =>
      var called := l.(calls := l.calls[boundary := l.calls[boundary] + 1]);
      if ok then called.(views := l.views + multiset{h}, viewsRecorded := l.viewsRecorded + 1) else called
    case Acquire(ok, h) =>
      var called := l.(leaseCalls := l.leaseCalls + 1);
      if ok then called.(leases := l.leases + multiset{h}, leasesRecorded := l.leasesRecorded + 1) else called
    case Borrow => l.(borrows := l.borrows + 1)
    case Destroy(h) => l.(views := l.views - multiset{h}, leases := l.leases - multiset{h})
  }

  /** Counters as the program holds them, in 32 bits. */
  function Wrapped(counts: seq<nat>): (r: seq<nat>)
    ensures |r| == |counts|
  {
    seq(|counts|, i requires 0 <= i < |counts| => counts[i] % WORD)
  }

  lemma CountedOnce(counts: seq<nat>, i: nat)
    requires i < |counts|
    ensures Wrapped(counts[i := counts[i] + 1]) == Wrapped(counts)[i := Next(Wrapped(counts)[i])]
  {
    NextModulo(counts[i]);
  }

  class Tracker {
    const views: Table
    const leases: Table
    const calls: array<nat>
    var leaseCalls: nat
    var borrows: nat
    ghost var ledger: Ledger

    ghost predicate Separate()
      reads this
    {
      views != leases && views.slots != leases.slots && calls != views.slots && calls != leases.slots
    }

    ghost predicate Counted()
      reads this, calls
    {
      calls.Length == 4 && |ledger.calls| == 4 && calls[..] == Wrapped(ledger.calls) &&
      leaseCalls == ledger.leaseCalls % WORD && borrows == ledger.borrows % WORD
    }

    ghost predicate ViewsHeld()
      reads this, views, views.slots
    {
      views.Valid() && views.Contents() == ledger.views && views.recorded == ledger.viewsRecorded
    }

    ghost predicate LeasesHeld()
      reads this, leases, leases.slots
    {
      leases.Valid() && leases.Contents() == ledger.leases && leases.recorded == ledger.leasesRecorded
    }

    ghost predicate Valid()
      reads this, views, leases, views.slots, leases.slots, calls
    {
      Separate() && Counted() && ViewsHeld() && LeasesHeld()
    }

    constructor ()
      ensures Valid() && ledger == NOTHING
      ensures fresh(views) && fresh(leases) && fresh(views.slots) && fresh(leases.slots) && fresh(calls)
    {
      views := new Table();
      leases := new Table();
      calls := new nat[4](_ => 0);
      leaseCalls, borrows, ledger := 0, 0, NOTHING;
      new;
      assert calls[..] == [0, 0, 0, 0];
    }

    method CountCall(boundary: nat)
      requires Valid() && boundary < 4
      modifies this`ledger, calls
      ensures Valid() && ledger == Account(old(ledger), Construct(boundary, false, 0))
    {
      CountedOnce(ledger.calls, boundary);
      ghost var before := calls[..];
      calls[boundary] := Next(calls[boundary]);
      assert calls[..] == before[boundary := Next(before[boundary])];
      ledger := Account(ledger, Construct(boundary, false, 0));
    }

    /** A wrapped constructor: counted on entry, remembered on success. */
    method ConstructView(boundary: nat, ok: bool, handle: Handle) returns (alive: bool)
      requires Valid() && boundary < 4
      modifies this`ledger, views, views.slots, calls
      ensures alive <==> !Aborts(old(ledger), Construct(boundary, ok, handle))
      ensures alive ==> Valid() && ledger == Account(old(ledger), Construct(boundary, ok, handle))
    {
      CountCall(boundary);
      alive := true;
      if ok {
        alive := RememberView(handle);
      }
    }

    method RememberView(handle: Handle) returns (alive: bool)
      requires Valid()
      modifies this`ledger, views, views.slots
      ensures alive <==> Admits(old(ledger).views, handle)
      ensures alive ==> Valid() && ledger == old(ledger).(views := old(ledger).views + multiset{handle},
                                                          viewsRecorded := old(ledger).viewsRecorded + 1)
    {
      alive := views.Remember(handle);
      ledger := ledger.(views := ledger.views + multiset{handle}, viewsRecorded := ledger.viewsRecorded + 1);
    }

    method RememberLease(handle: Handle) returns (alive: bool)
      requires Valid()
      modifies this`ledger, leases, leases.slots
      ensures alive <==> Admits(old(ledger).leases, handle)
      ensures alive ==> Valid() && ledger == old(ledger).(leases := old(ledger).leases + multiset{handle},
                                                          leasesRecorded := old(ledger).leasesRecorded + 1)
    {
      alive := leases.Remember(handle);
      ledger := ledger.(leases := ledger.leases + multiset{handle}, leasesRecorded := ledger.leasesRecorded + 1);
    }

    method CountLease()
      requires Valid()
      modifies this`ledger, this`leaseCalls
      ensures Valid() && ledger == Account(old(ledger), Acquire(false, 0))
    {
      NextModulo(ledger.leaseCalls);
      leaseCalls := Next(leaseCalls);
      ledger := Account(ledger, Acquire(false, 0));
    }

    /** The wrapped acquire_borrow_lease. */
    method AcquireLease(ok: bool, handle: Handle) returns (alive: bool)
      requires Valid()
      modifies this`ledger, this`leaseCalls, leases, leases.slots
      ensures alive <==> !Aborts(old(ledger), Acquire(ok, handle))
      ensures alive ==> Valid() && ledger == Account(old(ledger), Acquire(ok, handle))
    {
      CountLease();
      alive := true;
      if ok {
        alive := RememberLease(handle);
      }
    }

    method BorrowData()
      requires Valid()
      modifies this
      ensures Valid() && ledger == Account(old(ledger), Borrow)
    {
      borrows := Next(borrows);
      NextModulo(ledger.borrows);
      ledger := Account(ledger, Borrow);
    }

    /** r3h_forget_lease */
    method ForgetLease(handle: Handle)
      requires Valid()
      modifies this`ledger, leases, leases.slots
      ensures Valid() && ledger == old(ledger).(leases := old(ledger).leases - multiset{handle})
    {
      ghost var rest := ledger.(leases := ledger.leases - multiset{handle});
      leases.Forget(handle);
      ledger := rest;
    }

    method ForgetView(handle: Handle)
      requires Valid()
      modifies this`ledger, views, views.slots
      ensures Valid() && ledger == old(ledger).(views := old(ledger).views - multiset{handle})
    {
      ghost var rest := ledger.(views := ledger.views - multiset{handle});
      views.Forget(handle);
      ledger := rest;
    }

    /** The wrapped mat_destroy: a handle may be a lease, a view, or neither. */
    method DestroyHandle(handle: Handle)
      requires Valid()
      modifies this`ledger, views, leases, views.slots, leases.slots
      ensures Valid() && ledger == Account(old(ledger), Destroy(handle))
    {
      ForgetLease(handle);
      ForgetView(handle);
    }

    /** Any run from the start: the tracker survives exactly as long as the account says, and then the
        tables hold exactly the handles recorded and not destroyed since. */
    method Run(events: seq<Event>) returns (alive: bool)
      requires Valid() && ledger == NOTHING && forall e :: e in events ==> Possible(e)
      modifies this, views, leases, views.slots, leases.slots, calls
      ensures alive <==> Survives(events)
      ensures alive ==> Valid() && ledger == AccountAll(NOTHING, events)
    {
      alive := true;
      var i := 0;
      while i < |events|
        invariant i <= |events| && Valid() && ledger == AccountAll(NOTHING, events[..i]) && Survives(events[..i])
      {
        OneMoreEvent(events, i);
        alive := Perform(events[i]);
        if !alive {
          NeverAgain(events, i + 1);
          return;
        }
        i := i + 1;
      }
      assert events[..i] == events;
    }

    method Perform(event: Event) returns (alive: bool)
      requires Valid() && Possible(event)
      modifies this, views, leases, views.slots, leases.slots, calls
      ensures alive <==> !Aborts(old(ledger), event)
      ensures alive ==> Valid() && ledger == Account(old(ledger), event)
    {
      alive := true;
      match event {
        case Construct(boundary, ok, handle) => alive := ConstructView(boundary, ok, handle);
        case Acquire(ok, handle) => alive := AcquireLease(ok, handle);
        case Borrow => BorrowData();
        case Destroy(handle) => DestroyHandle(handle);
      }
    }
  }

  lemma OneMoreEvent(events: seq<Event>, i: nat)
    requires i < |events| && forall e :: e in events ==> Possible(e)
    ensures Possible(events[i])
    ensures AccountAll(NOTHING, events[..i + 1]) == Account(AccountAll(NOTHING, events[..i]), events[i])
    ensures Survives(events[..i + 1]) <==> Survives(events[..i]) && !Aborts(AccountAll(NOTHING, events[..i]), events[i])
  {
    assert events[..i + 1][..i] == events[..i] && events[i] in events;
  }

  lemma NextModulo(n: nat)
    ensures Next(n % WORD) == (n + 1) % WORD
  {
  }

  /** The account of a whole run, and whether it got through without an abort. */
  function AccountAll(l: Ledger, events: seq<Event>): (r: Ledger)
    requires |l.calls| == 4 && forall e :: e in events ==> Possible(e)
    ensures |r.calls| == 4
  {
    if events == [] then l else Account(AccountAll(l, events[..|events| - 1]), events[|events| - 1])
  }

  predicate Survives(events: seq<Event>)
    requires forall e :: e in events ==> Possible(e)
  {
    events == [] ||
    (Survives(events[..|events| - 1]) && !Aborts(AccountAll(NOTHING, events[..|events| - 1]), events[|events| - 1]))
  }

  /** A run that aborted stays aborted. */
  lemma {:induction false} NeverAgain(events: seq<Event>, n: nat)
    requires (forall e :: e in events ==> Possible(e)) && n <= |events| && !Survives(events[..n])
    ensures !Survives(events)
  {
    if n == |events| {
      assert events[..n] == events;
    } else {
      var shorter := events[..|events| - 1];
      assert shorter[..n] == events[..n];
      NeverAgain(shorter, n);
    }
  }

  /** Neither table is overfull, and no handle in it is null. */
  predicate InBounds(l: Ledger) {
    |l.views| <= SLOTS && |l.leases| <= SLOTS && 0 !in l.views && 0 !in l.leases &&
    |l.views| <= l.viewsRecorded && |l.leases| <= l.leasesRecorded
  }

  lemma StaysInBounds(l: Ledger, event: Event)
    requires |l.calls| == 4 && Possible(event) && InBounds(l) && !Aborts(l, event)
    ensures InBounds(Account(l, event))
  {
  }

  /** So it is in every state a surviving run reaches. */
  lemma {:induction false} NeverOverfull(events: seq<Event>)
    requires (forall e :: e in events ==> Possible(e)) && Survives(events)
    ensures InBounds(AccountAll(NOTHING, events))
  {
    if events != [] {
      var n := |events| - 1;
      assert events[n] in events;
      NeverOverfull(events[..n]);
      StaysInBounds(AccountAll(NOTHING, events[..n]), events[n]);
    }
  }
}
