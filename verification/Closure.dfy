/** The dependency closure of an executable: a worklist over shared libraries, found in the first
    directory that has them, and the check of the symbol versions they require of each other. */
module Closure {
  import opened Texts

  /** What the tools report of one file: the needed names in order, its qualified run directories
      (None if one is not allowed), the versions it requires per needed name, and those it defines. */
  datatype Item = Item(needed: seq<string>, runDirectories: Option<seq<string>>,
                       required: seq<(string, set<string>)>, defined: set<string>)

  /** The files that are proper ELF files, by resolved path; what stands in the directories, resolved,
      or None where it leads out of the root; and the standard directories. */
  datatype World = World(items: map<string, Item>, entries: map<(string, string), Option<string>>, standard: seq<string>)

  /** The first directory that has the name decides. */
  function FirstMatch(world: World, directories: seq<string>, name: string): Option<string> {
    if directories == [] then None
    else if (directories[0], name) in world.entries then world.entries[(directories[0], name)]
    else FirstMatch(world, directories[1..], name)
  }

  function Resolve(world: World, item: Item, name: string): Option<string> {
    if '/' in name || item.runDirectories.None? then None
    else FirstMatch(world, item.runDirectories.value + world.standard, name)
  }

  /** The libraries the names resolve to, in order; None if one does not resolve. */
  function Libraries(world: World, item: Item, names: seq<string>): (r: Option<seq<string>>)
    ensures r.Some? ==> |r.value| == |names| && forall i :: 0 <= i < |names| ==> Resolve(world, item, names[i]) == Some(r.value[i])
    ensures r.None? <==> exists i :: 0 <= i < |names| && Resolve(world, item, names[i]).None?
  {
    if names == [] then Some([])
    else
      var first, others := Resolve(world, item, names[0]), Libraries(world, item, names[1..]);
      if first.None? || others.None? then None else Some([first.value] + others.value)
  }

  /** The direct dependencies of a file; None if it cannot be accepted. */
  function Dependencies(world: World, path: string): Option<seq<string>> {
    if path !in world.items || world.items[path].runDirectories.None? then None
    else Libraries(world, world.items[path], world.items[path].needed)
  }

  // ----- reachability

  predicate Link(world: World, from: string, to: string) {
    Dependencies(world, from).Some? && to in Dependencies(world, from).value
  }

  predicate IsPath(world: World, start: seq<string>, path: seq<string>) {
    path != [] && path[0] in start && forall i :: 0 <= i < |path| - 1 ==> LinkAt(world, path, i)
  }

  predicate LinkAt(world: World, path: seq<string>, i: nat)
    requires i + 1 < |path|
  {
    Link(world, path[i], path[i + 1])
  }

  ghost predicate Reachable(world: World, start: seq<string>, item: string) {
    exists path :: IsPath(world, start, path) && path[|path| - 1] == item
  }

  lemma StartReachable(world: World, start: seq<string>, item: string)
    requires item in start
    ensures Reachable(world, start, item)
  {
    assert IsPath(world, start, [item]);
  }

  lemma LinkReachable(world: World, start: seq<string>, from: string, to: string)
    requires Reachable(world, start, from) && Link(world, from, to)
    ensures Reachable(world, start, to)
  {
    var path :| IsPath(world, start, path) && path[|path| - 1] == from;
    var longer := path + [to];
    forall i | 0 <= i < |longer| - 1
      ensures LinkAt(world, longer, i)
    {
      assert i < |path| - 1 ==> LinkAt(world, path, i);
    }
    assert longer[|longer| - 1] == to;
  }

  /** The set holds every dependency of its members. */
  predicate ClosedUnder(world: World, items: set<string>) {
    forall from :: from in items ==> Dependencies(world, from).Some? &&
                                     forall to :: to in Dependencies(world, from).value ==> to in items
  }

  /** A closed set that holds the start holds everything reachable. */
  lemma {:induction false} PathStays(world: World, start: seq<string>, items: set<string>, path: seq<string>, n: nat)
    requires ClosedUnder(world, items) && IsPath(world, start, path) && n < |path|
    requires forall s :: s in start ==> s in items
    ensures path[n] in items
  {
    if n > 0 {
      PathStays(world, start, items, path, n - 1);
      assert LinkAt(world, path, n - 1);
    }
  }

  lemma ClosedHoldsReachable(world: World, start: seq<string>, items: set<string>, item: string)
    requires ClosedUnder(world, items) && (forall s :: s in start ==> s in items) && Reachable(world, start, item)
    ensures item in items
  {
    var path :| IsPath(world, start, path) && path[|path| - 1] == item;
    PathStays(world, start, items, path, |path| - 1);
  }

  // ----- the worklist

  type Needed = map<string, string>

  ghost predicate RightNeeds(world: World, path: string, needed: Needed) {
    path in world.items &&
    (forall name :: name in needed <==> name in world.items[path].needed) &&
    forall name :: name in needed ==> Resolve(world, world.items[path], name) == Some(needed[name])
  }

  /** Every file of the closure is accepted and leads only to files that are there or still pending. */
  ghost predicate Explored(world: World, closure: map<string, Needed>, pending: seq<string>) {
    forall path :: path in closure ==> RightNeeds(world, path, closure[path]) && LeadsInto(world, path, closure.Keys, pending)
  }

  predicate LeadsInto(world: World, path: string, done: set<string>, pending: seq<string>) {
    Dependencies(world, path).Some? &&
    forall to :: to in Dependencies(world, path).value ==> to in done || to in pending
  }

  predicate Holds(start: seq<string>, done: set<string>, pending: seq<string>) {
    forall s :: s in start ==> s in done || s in pending
  }

  ghost predicate OnlyReachable(world: World, start: seq<string>, done: set<string>, pending: seq<string>) {
    forall item :: item in done || item in pending ==> Reachable(world, start, item)
  }

  ghost predicate Listed(order: seq<string>, done: set<string>) {
    (forall item :: item in order <==> item in done) && forall i, j :: 0 <= i < j < |order| ==> order[i] != order[j]
  }

  ghost predicate Exploring(world: World, start: seq<string>, done: map<string, Needed>, order: seq<string>, pending: seq<string>) {
    Explored(world, done, pending) && Holds(start, done.Keys, pending) && OnlyReachable(world, start, done.Keys, pending) &&
    Listed(order, done.Keys)
  }

  /** The loop of executable. It ends on every graph, cycles included; it fails exactly if something
      reachable cannot be accepted, and otherwise finds exactly what is reachable. */
  method Closure(world: World, start: seq<string>) returns (closure: Option<map<string, Needed>>, order: seq<string>)
    ensures closure.None? <==> exists item :: Reachable(world, start, item) && Dependencies(world, item).None?
    ensures closure.Some? ==> forall item :: item in closure.value <==> Reachable(world, start, item)
    ensures closure.Some? ==> ClosedUnder(world, closure.value.Keys)
    ensures closure.Some? ==> forall item :: item in closure.value ==> RightNeeds(world, item, closure.value[item])
    ensures closure.Some? ==> Listed(order, closure.value.Keys)
  {
    var done: map<string, Needed> := map[];
    var pending := start;
    order := [];
    AllStartReachable(world, start);
    while pending != []
      invariant Exploring(world, start, done, order, pending)
      decreases |world.items.Keys - done.Keys|, |pending|
    {
      var item := pending[|pending| - 1];
      ghost var before := pending;
      pending := pending[..|pending| - 1];
      if item in done {
        Skip(world, start, done, order, before);
      } else {
        var libraries, needed := ReadItem(world, item);
        if libraries.None? {
          Refuse(world, start, done, order, before);
          return None, [];
        }
        Visit(world, start, done, order, before, libraries.value, needed);
        LessToDo(world.items.Keys, done, item, needed);
        pending := pending + libraries.value;
        done := done[item := needed];
        order := order + [item];
      }
    }
    closure := Some(done);
    AllFound(world, start, done, order);
  }

  lemma LessToDo(all: set<string>, done: map<string, Needed>, item: string, needed: Needed)
    requires item in all && item !in done
    ensures |all - done[item := needed].Keys| < |all - done.Keys|
  {
    assert all - done[item := needed].Keys == (all - done.Keys) - {item};
  }

  lemma AllStartReachable(world: World, start: seq<string>)
    ensures Exploring(world, start, map[], [], start)
  {
    forall item | item in start
      ensures Reachable(world, start, item)
    {
      StartReachable(world, start, item);
    }
  }

  lemma Popped(pending: seq<string>)
    requires pending != []
    ensures forall x :: x in pending <==> x in pending[..|pending| - 1] || x == pending[|pending| - 1]
  {
    assert pending == pending[..|pending| - 1] + [pending[|pending| - 1]];
  }

  lemma StillLeads(world: World, closure: map<string, Needed>, pending: seq<string>, closure': map<string, Needed>, pending': seq<string>)
    requires Explored(world, closure, pending)
    requires forall path :: path in closure ==> path in closure' && closure'[path] == closure[path]
    requires forall x :: x in pending ==> x in closure' || x in pending'
    ensures forall path :: path in closure ==>
              RightNeeds(world, path, closure'[path]) && LeadsInto(world, path, closure'.Keys, pending')
  {
  }

  lemma Skip(world: World, start: seq<string>, done: map<string, Needed>, order: seq<string>, pending: seq<string>)
    requires pending != [] && Exploring(world, start, done, order, pending) && pending[|pending| - 1] in done
    ensures Exploring(world, start, done, order, pending[..|pending| - 1])
  {
    Popped(pending);
    StillLeads(world, done, pending, done, pending[..|pending| - 1]);
  }

  lemma Visit(world: World, start: seq<string>, done: map<string, Needed>, order: seq<string>, pending: seq<string>,
              libraries: seq<string>, needed: Needed)
    requires pending != [] && Exploring(world, start, done, order, pending)
    requires var item := pending[|pending| - 1];
             item !in done && Dependencies(world, item) == Some(libraries) && RightNeeds(world, item, needed)
    ensures var item := pending[|pending| - 1];
            Exploring(world, start, done[item := needed], order + [item], pending[..|pending| - 1] + libraries)
  {
    var item, done', pending' := pending[|pending| - 1], done[pending[|pending| - 1] := needed], pending[..|pending| - 1] + libraries;
    Popped(pending);
    NextReachable(world, start, item, libraries);
    StillLeads(world, done, pending, done', pending');
    Append(order, item, done.Keys);
    assert done'.Keys == done.Keys + {item};
    assert LeadsInto(world, item, done'.Keys, pending');
  }

  lemma Append(order: seq<string>, item: string, done: set<string>)
    requires Listed(order, done) && item !in done
    ensures Listed(order + [item], done + {item})
  {
  }

  lemma Refuse(world: World, start: seq<string>, done: map<string, Needed>, order: seq<string>, pending: seq<string>)
    requires pending != [] && Exploring(world, start, done, order, pending)
    requires Dependencies(world, pending[|pending| - 1]).None?
    ensures exists item :: Reachable(world, start, item) && Dependencies(world, item).None?
  {
    assert pending[|pending| - 1] in pending;
  }

  /** The part of the loop that resolves the needed names of one file. */
  method ReadItem(world: World, path: string) returns (libraries: Option<seq<string>>, needed: Needed)
    ensures libraries == Dependencies(world, path)
    ensures libraries.Some? ==> path in world.items && RightNeeds(world, path, needed)
  {
    needed := map[];
    if path !in world.items || world.items[path].runDirectories.None? {
      return None, needed;
    }
    var item := world.items[path];
    libraries := Some([]);
    var i := 0;
    while i < |item.needed|
      invariant i <= |item.needed| && libraries == Libraries(world, item, item.needed[..i]) && libraries.Some?
      invariant forall name :: name in needed <==> name in item.needed[..i]
      invariant forall name :: name in needed ==> Resolve(world, item, name) == Some(needed[name])
    {
      var name := item.needed[i];
      var library := Resolve(world, item, name);
      if library.None? {
        assert item.needed[i] == name;
        return None, needed;
      }
      OneMoreLibrary(world, item, item.needed[..i], name);
      assert item.needed[..i + 1] == item.needed[..i] + [name];
      needed := needed[name := library.value];
      libraries := Some(libraries.value + [library.value]);
      i := i + 1;
    }
    assert item.needed[..i] == item.needed;
  }

  lemma OneMoreLibrary(world: World, item: Item, names: seq<string>, name: string)
    requires Libraries(world, item, names).Some? && Resolve(world, item, name).Some?
    ensures Libraries(world, item, names + [name]) == Some(Libraries(world, item, names).value + [Resolve(world, item, name).value])
  {
    var all := names + [name];
    assert forall i :: 0 <= i < |names| ==> all[i] == names[i];
    var found, longer := Libraries(world, item, names).value, Libraries(world, item, all).value;
    assert longer == found + [Resolve(world, item, name).value];
  }

  lemma NextReachable(world: World, start: seq<string>, item: string, libraries: seq<string>)
    requires Reachable(world, start, item) && Dependencies(world, item) == Some(libraries)
    ensures forall to :: to in libraries ==> Reachable(world, start, to)
  {
    forall to | to in libraries
      ensures Reachable(world, start, to)
    {
      LinkReachable(world, start, item, to);
    }
  }

  lemma AllFound(world: World, start: seq<string>, closure: map<string, Needed>, order: seq<string>)
    requires Exploring(world, start, closure, order, [])
    ensures ClosedUnder(world, closure.Keys)
    ensures forall item :: item in closure <==> Reachable(world, start, item)
  {
    assert forall path :: path in closure ==> LeadsInto(world, path, closure.Keys, []);
    forall item | Reachable(world, start, item)
      ensures item in closure
    {
      ClosedHoldsReachable(world, start, closure.Keys, item);
    }
  }

  /** It is the least set that holds the start and all dependencies of its members. */
  lemma ReachableIsLeast(world: World, start: seq<string>, items: set<string>, closure: set<string>)
    requires forall item :: item in closure <==> Reachable(world, start, item)
    requires ClosedUnder(world, items) && forall s :: s in start ==> s in items
    ensures closure <= items && forall s :: s in start ==> s in closure
  {
    forall item | item in closure
      ensures item in items
    {
      ClosedHoldsReachable(world, start, items, item);
    }
    forall s | s in start
      ensures s in closure
    {
      StartReachable(world, start, s);
    }
  }

  // ----- symbol versions

  /** Every version the file requires under a name is defined by the library that name resolved to. */
  predicate VersionsMet(world: World, path: string) {
    path in world.items &&
    forall i :: 0 <= i < |world.items[path].required| ==> RequirementMet(world, world.items[path], world.items[path].required[i])
  }

  predicate RequirementMet(world: World, item: Item, requirement: (string, set<string>)) {
    var library := Resolve(world, item, requirement.0);
    requirement.0 in item.needed && library.Some? && library.value in world.items &&
    requirement.1 <= world.items[library.value].defined
  }

  function RequiredCount(required: seq<(string, set<string>)>): nat {
    if required == [] then 0 else RequiredCount(required[..|required| - 1]) + |required[|required| - 1].1|
  }

  function RequiredBy(world: World, path: string): nat {
    if path in world.items then RequiredCount(world.items[path].required) else 0
  }

  function TotalRequired(world: World, order: seq<string>): nat {
    if order == [] then 0 else TotalRequired(world, order[..|order| - 1]) + RequiredBy(world, order[|order| - 1])
  }

  method CheckItem(world: World, path: string, needed: Needed) returns (checked: Option<nat>)
    requires RightNeeds(world, path, needed) && forall name :: name in needed ==> needed[name] in world.items
    ensures checked.Some? <==> VersionsMet(world, path)
    ensures checked.Some? ==> checked.value == RequiredBy(world, path)
  {
    var required, count, i := world.items[path].required, 0, 0;
    while i < |required|
      invariant i <= |required| && count == RequiredCount(required[..i])
      invariant forall j :: 0 <= j < i ==> RequirementMet(world, world.items[path], required[j])
    {
      var (name, versions) := required[i];
      if name !in needed || !(versions <= world.items[needed[name]].defined) {
        return None;
      }
      assert required[..i + 1][..i] == required[..i];
      count := count + |versions|;
      i := i + 1;
    }
    assert required[..i] == required;
    checked := Some(count);
  }

  /** executable: the closure from the file and its loader, and the number of versions checked. It
      succeeds exactly if all that is reachable is accepted and finds its versions. */
  method Executable(world: World, path: string, loader: string) returns (result: Option<(map<string, Needed>, nat)>)
    ensures result.Some? <==>
            forall item :: Reachable(world, [path, loader], item) ==> Dependencies(world, item).Some? && VersionsMet(world, item)
    ensures result.Some? ==> forall item :: item in result.value.0 <==> Reachable(world, [path, loader], item)
    ensures result.Some? ==> exists order :: Listed(order, result.value.0.Keys) && result.value.1 == TotalRequired(world, order)
  {
    var closure, order := Closure(world, [path, loader]);
    if closure.None? {
      return None;
    }
    var checked := CheckAll(world, closure.value, order);
    if checked.None? {
      return None;
    }
    result := Some((closure.value, checked.value));
  }

  /** Every requirement of every file of the closure, counted. */
  method CheckAll(world: World, closure: map<string, Needed>, order: seq<string>) returns (checked: Option<nat>)
    requires ClosedUnder(world, closure.Keys) && Listed(order, closure.Keys)
    requires forall item :: item in closure ==> RightNeeds(world, item, closure[item])
    ensures checked.Some? <==> forall item :: item in closure ==> VersionsMet(world, item)
    ensures checked.Some? ==> checked.value == TotalRequired(world, order)
  {
    var count, i := 0, 0;
    while i < |order|
      invariant i <= |order| && count == TotalRequired(world, order[..i])
      invariant forall j :: 0 <= j < i ==> VersionsMet(world, order[j])
    {
      NeedsInside(world, closure, order[i]);
      var more := CheckItem(world, order[i], closure[order[i]]);
      if more.None? {
        return None;
      }
      assert order[..i + 1][..i] == order[..i];
      count := count + more.value;
      i := i + 1;
    }
    assert order[..i] == order;
    checked := Some(count);
  }

  lemma NeedsInside(world: World, closure: map<string, Needed>, path: string)
    requires ClosedUnder(world, closure.Keys) && path in closure
    requires forall item :: item in closure ==> RightNeeds(world, item, closure[item])
    ensures forall name :: name in closure[path] ==> closure[path][name] in world.items
  {
    var needed := closure[path];
    forall name | name in needed
      ensures needed[name] in world.items
    {
      var names := world.items[path].needed;
      var i :| 0 <= i < |names| && names[i] == name;
      assert Dependencies(world, path).value[i] == needed[name];
      assert needed[name] in Dependencies(world, path).value;
    }
  }
}
