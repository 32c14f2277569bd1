/** Name lookup for type marks: enclosing scopes first, then use clauses, and no guesses. */
module Resolution {
  import opened Texts

  /** A declaration of the source index. binds holds the names its own profile declares in front
      of a colon (parameters, discriminants, components). */
  datatype Declaration = Declaration(name: string, scope: string, start: nat, binds: set<string>)

  /** A declaration with the source text it is compared by. */
  datatype Indexed = Indexed(declaration: Declaration, full: string)

  /** One library package. uses is the sorted list of its use clauses. */
  datatype Source = Source(
    supported: bool, generic: bool, imports: set<string>, uses: seq<string>,
    formals: set<string>, members: map<string, seq<Declaration>>, declarations: seq<Indexed>)

  datatype Target = Target(file: string, anchor: string)

  type Sources = map<string, Source>
  type Targets = map<string, Target>

  datatype Outcome = Linked(identity: string) | Unsupported | Ambiguous

  const STANDARD: set<string> := {
    "integer", "natural", "positive", "boolean", "float", "long_float", "long_long_float", "character",
    "wide_character", "wide_wide_character", "string", "wide_string", "wide_wide_string", "duration"}

  /** The package itself and its ancestors, innermost first. */
  function Scopes(package: string): seq<string>
    decreases |package|
  {
    if package == "" then [] else [package] + Scopes(RPartitionAt(package, '.').0)
  }

  /** Where a reference stands: its package, and the line of its own declaration. */
  datatype Site = Site(package: string, line: nat)

  function MembersOf(source: Source, name: string): seq<Declaration> {
    if name in source.members then source.members[name] else []
  }

  /** Declarations of the own package count only if they come earlier. */
  function Visible(ds: seq<Declaration>, scope: string, site: Site): seq<Declaration> {
    if ds == [] then []
    else (if scope != site.package || ds[0].start < site.line then [ds[0]] else []) + Visible(ds[1..], scope, site)
  }

  function VisibleIn(sources: Sources, scope: string, name: string, site: Site): seq<Declaration> {
    if scope in sources then Visible(MembersOf(sources[scope], name), scope, site) else []
  }

  predicate Open(sources: Sources, scope: string, name: string) {
    scope in sources && sources[scope].supported && name !in sources[scope].formals
  }

  function Join(scope: string, name: string): string {
    scope + "." + name
  }

  /** The loop over enclosing scopes; None where it falls through. */
  function ThroughScopes(sources: Sources, targets: Targets, name: string, site: Site, scopes: seq<string>): Option<Outcome> {
    if scopes == [] then None
    else if !Open(sources, scopes[0], name) then Some(Unsupported)
    else
      var members := VisibleIn(sources, scopes[0], name, site);
      if members == [] then ThroughScopes(sources, targets, name, site, scopes[1..])
      else if |members| == 1 && Join(scopes[0], name) in targets then Some(Linked(Join(scopes[0], name)))
      else Some(Ambiguous)
  }

  predicate Usable(sources: Sources, source: Source, owner: string) {
    owner in source.imports && owner in sources && sources[owner].supported
  }

  predicate Offers(sources: Sources, owner: string, name: string)
    requires owner in sources
  {
    name in sources[owner].members || name in sources[owner].formals
  }

  /** The packages named in use clauses that declare the name; None if a clause is beyond support. */
  function Candidates(sources: Sources, source: Source, name: string, uses: seq<string>): Option<seq<string>> {
    if uses == [] then Some([])
    else if !Usable(sources, source, uses[0]) then None
    else
      match Candidates(sources, source, name, uses[1..])
      case None => None
      case Some(rest) => Some((if Offers(sources, uses[0], name) then [Join(uses[0], name)] else []) + rest)
  }

  function ThroughUses(sources: Sources, targets: Targets, source: Source, name: string): Outcome {
    if name in STANDARD then Unsupported
    else
      match Candidates(sources, source, name, source.uses)
      case None => Unsupported
      case Some(candidates) =>
        if |candidates| == 1 && candidates[0] in targets then Linked(candidates[0])
        else if candidates == [] then Unsupported else Ambiguous
  }

  function FirstPart(name: string): string {
    name[..IndexFrom(name, 0, '.')]
  }

  function Owner(name: string): string {
    RPartitionAt(name, '.').0
  }

  /** A selected name is given up if a scope in sight declares its first part. */
  predicate Clear(sources: Sources, scope: string, first: string, site: Site) {
    Open(sources, scope, first) && VisibleIn(sources, scope, first, site) == []
  }

  predicate AllClear(sources: Sources, scopes: seq<string>, first: string, site: Site) {
    forall k :: 0 <= k < |scopes| ==> Clear(sources, scopes[k], first, site)
  }

  /** The nearest scope that has a known, imported package of the owner's short name. */
  function ShortOwner(sources: Sources, source: Source, owner: string, scopes: seq<string>): Option<string> {
    if scopes == [] then None
    else
      var full := Join(scopes[0], owner);
      if full in sources && full in source.imports then Some(scopes[0])
      else ShortOwner(sources, source, owner, scopes[1..])
  }

  function Selected(sources: Sources, targets: Targets, source: Source, name: string, site: Site, scopes: seq<string>): Outcome {
    if !AllClear(sources, scopes, FirstPart(name), site) then Unsupported
    else
      var owner := Owner(name);
      var short := if '.' in owner then None else ShortOwner(sources, source, owner, scopes);
      match short
      case Some(scope) =>
        if Join(scope, owner) in sources && sources[Join(scope, owner)].generic && Join(scope, name) in targets
        then Linked(Join(scope, name)) else Unsupported
      case None =>
        if owner !in scopes && owner !in source.imports then Unsupported
        else if name in targets then Linked(name)
        else Unsupported
  }

  function Resolve(sources: Sources, targets: Targets, name: string, package: string, declaration: Declaration): Outcome
    requires package in sources
  {
    var source, site, scopes := sources[package], Site(package, declaration.start), Scopes(package);
    if !source.supported || name in source.formals then Unsupported
    else if FirstPart(name) in declaration.binds then Unsupported
    else if '.' in name then Selected(sources, targets, source, name, site, scopes)
    else
      match ThroughScopes(sources, targets, name, site, scopes)
      case Some(outcome) => outcome
      case None => ThroughUses(sources, targets, source, name)
  }

  // ----- simple names

  /** The scope is known and supported and has nothing of that name in sight. */
  predicate Silent(sources: Sources, scope: string, name: string, site: Site) {
    Open(sources, scope, name) && VisibleIn(sources, scope, name, site) == []
  }

  /** The scope is known and supported and has exactly one declaration of that name in sight. */
  predicate Declares(sources: Sources, scope: string, name: string, site: Site) {
    Open(sources, scope, name) && |VisibleIn(sources, scope, name, site)| == 1
  }

  /** scopes[k] is the nearest scope that declares the name, uniquely, and all nearer ones are silent. */
  predicate NearestDeclares(sources: Sources, scopes: seq<string>, k: nat, name: string, site: Site)
    requires k < |scopes|
  {
    (forall j :: 0 <= j < k ==> Silent(sources, scopes[j], name, site)) && Declares(sources, scopes[k], name, site)
  }

  lemma {:induction false} ScopesLink(sources: Sources, targets: Targets, name: string, site: Site, scopes: seq<string>)
    returns (k: nat)
    requires ThroughScopes(sources, targets, name, site, scopes).Some?
    requires ThroughScopes(sources, targets, name, site, scopes).value.Linked?
    ensures k < |scopes| && NearestDeclares(sources, scopes, k, name, site)
    ensures ThroughScopes(sources, targets, name, site, scopes).value == Linked(Join(scopes[k], name))
    ensures Join(scopes[k], name) in targets
  {
    if VisibleIn(sources, scopes[0], name, site) == [] {
      var i := ScopesLink(sources, targets, name, site, scopes[1..]);
      k := i + 1;
      assert scopes[1..][i] == scopes[k];
      forall j | 0 <= j < k
        ensures Silent(sources, scopes[j], name, site)
      {
        if j > 0 {
          assert scopes[1..][j - 1] == scopes[j];
        }
      }
    } else {
      k := 0;
    }
  }

  lemma {:induction false} ScopesFind(sources: Sources, targets: Targets, name: string, site: Site, scopes: seq<string>, k: nat)
    requires k < |scopes| && (forall j :: 0 <= j < k ==> Silent(sources, scopes[j], name, site))
    requires !Silent(sources, scopes[k], name, site)
    ensures ThroughScopes(sources, targets, name, site, scopes) == Some(
              if Declares(sources, scopes[k], name, site) && Join(scopes[k], name) in targets
              then Linked(Join(scopes[k], name))
              else if Open(sources, scopes[k], name) then Ambiguous else Unsupported)
  {
    if k > 0 {
      assert Silent(sources, scopes[0], name, site);
      assert forall j :: 0 <= j < k - 1 ==> scopes[1..][j] == scopes[j + 1];
      assert scopes[1..][k - 1] == scopes[k];
      ScopesFind(sources, targets, name, site, scopes[1..], k - 1);
    }
  }

  lemma {:induction false} ScopesFallThrough(sources: Sources, targets: Targets, name: string, site: Site, scopes: seq<string>)
    ensures ThroughScopes(sources, targets, name, site, scopes).None? <==>
            forall j :: 0 <= j < |scopes| ==> Silent(sources, scopes[j], name, site)
  {
    if scopes == [] {
    } else {
      ScopesFallThrough(sources, targets, name, site, scopes[1..]);
      if Silent(sources, scopes[0], name, site) {
        assert forall j :: 1 <= j < |scopes| ==> scopes[1..][j - 1] == scopes[j];
        if ThroughScopes(sources, targets, name, site, scopes).Some? {
          var j :| 0 <= j < |scopes[1..]| && !Silent(sources, scopes[1..][j], name, site);
          assert scopes[j + 1] == scopes[1..][j];
        }
      } else {
        assert !Silent(sources, scopes[0], name, site);
      }
    }
  }

  /** How many of the used packages declare the name. */
  function Providers(sources: Sources, name: string, uses: seq<string>): nat
    requires forall i :: 0 <= i < |uses| ==> uses[i] in sources
  {
    if uses == [] then 0
    else (if Offers(sources, uses[0], name) then 1 else 0) + Providers(sources, name, uses[1..])
  }

  predicate AllUsable(sources: Sources, source: Source, uses: seq<string>) {
    forall i :: 0 <= i < |uses| ==> Usable(sources, source, uses[i])
  }

  lemma {:induction false} CandidatesCounted(sources: Sources, source: Source, name: string, uses: seq<string>)
    ensures Candidates(sources, source, name, uses).Some? <==> AllUsable(sources, source, uses)
    ensures Candidates(sources, source, name, uses).Some? ==>
              var candidates := Candidates(sources, source, name, uses).value;
              |candidates| == Providers(sources, name, uses) &&
              forall c :: c in candidates <==>
                          exists i :: 0 <= i < |uses| && Offers(sources, uses[i], name) && c == Join(uses[i], name)
  {
    if uses == [] {
    } else {
      CandidatesCounted(sources, source, name, uses[1..]);
      assert forall i :: 1 <= i < |uses| ==> uses[1..][i - 1] == uses[i];
      if !AllUsable(sources, source, uses[1..]) {
        var i :| 0 <= i < |uses[1..]| && !Usable(sources, source, uses[1..][i]);
        assert uses[i + 1] == uses[1..][i];
      } else if Usable(sources, source, uses[0]) {
        CandidatesMembers(sources, source, name, uses);
      }
    }
  }

  lemma CandidatesMembers(sources: Sources, source: Source, name: string, uses: seq<string>)
    requires uses != [] && AllUsable(sources, source, uses)
    requires var rest := Candidates(sources, source, name, uses[1..]);
             rest.Some? && forall c :: c in rest.value <==>
               exists i :: 0 <= i < |uses[1..]| && Offers(sources, uses[1..][i], name) && c == Join(uses[1..][i], name)
    ensures var all := Candidates(sources, source, name, uses);
            all.Some? && forall c :: c in all.value <==>
              exists i :: 0 <= i < |uses| && Offers(sources, uses[i], name) && c == Join(uses[i], name)
  {
    var all, rest := Candidates(sources, source, name, uses), Candidates(sources, source, name, uses[1..]).value;
    assert Usable(sources, source, uses[0]);
    forall c
      ensures c in all.value <==> exists i :: 0 <= i < |uses| && Offers(sources, uses[i], name) && c == Join(uses[i], name)
    {
      if c in rest {
        var i :| 0 <= i < |uses[1..]| && Offers(sources, uses[1..][i], name) && c == Join(uses[1..][i], name);
        assert uses[i + 1] == uses[1..][i];
      }
      if exists i :: 0 <= i < |uses| && Offers(sources, uses[i], name) && c == Join(uses[i], name) {
        var i :| 0 <= i < |uses| && Offers(sources, uses[i], name) && c == Join(uses[i], name);
        if i > 0 {
          assert uses[1..][i - 1] == uses[i];
        }
      }
    }
  }

  /** A use clause links exactly when every clause is understood, the name is not a Standard one,
      and exactly one used package declares it. */
  lemma UseLinks(sources: Sources, targets: Targets, source: Source, name: string, identity: string)
    ensures ThroughUses(sources, targets, source, name) == Linked(identity) <==>
            name !in STANDARD && AllUsable(sources, source, source.uses) &&
            Providers(sources, name, source.uses) == 1 && identity in targets &&
            exists i :: 0 <= i < |source.uses| && Offers(sources, source.uses[i], name) &&
                        identity == Join(source.uses[i], name)
  {
    CandidatesCounted(sources, source, name, source.uses);
    var candidates := Candidates(sources, source, name, source.uses);
    if candidates.Some? && |candidates.value| == 1 {
      assert identity in candidates.value <==> candidates.value[0] == identity;
    }
  }

  /** A package other than the parameters' own names can be looked up at all. */
  predicate Looked(sources: Sources, name: string, package: string, declaration: Declaration)
    requires package in sources
  {
    sources[package].supported && name !in sources[package].formals && FirstPart(name) !in declaration.binds
  }

  /** The nearest scope that declares the name is identity's own. */
  predicate LinkedByScope(sources: Sources, scopes: seq<string>, name: string, site: Site, identity: string) {
    exists k :: 0 <= k < |scopes| && NearestDeclares(sources, scopes, k, name, site) && identity == Join(scopes[k], name)
  }

  predicate AllSilent(sources: Sources, scopes: seq<string>, name: string, site: Site) {
    forall j :: 0 <= j < |scopes| ==> Silent(sources, scopes[j], name, site)
  }

  lemma ScopesExact(sources: Sources, targets: Targets, name: string, site: Site, scopes: seq<string>, identity: string)
    ensures ThroughScopes(sources, targets, name, site, scopes) == Some(Linked(identity)) <==>
            LinkedByScope(sources, scopes, name, site, identity) && identity in targets
    ensures ThroughScopes(sources, targets, name, site, scopes).None? <==> AllSilent(sources, scopes, name, site)
  {
    ScopesFallThrough(sources, targets, name, site, scopes);
    if ThroughScopes(sources, targets, name, site, scopes) == Some(Linked(identity)) {
      var k := ScopesLink(sources, targets, name, site, scopes);
    } else if LinkedByScope(sources, scopes, name, site, identity) {
      var k :| 0 <= k < |scopes| && NearestDeclares(sources, scopes, k, name, site) && identity == Join(scopes[k], name);
      ScopesFind(sources, targets, name, site, scopes, k);
    }
  }

  /** Exactly which simple names are linked, through the enclosing scopes or a use clause. */
  lemma SimpleNameLinked(sources: Sources, targets: Targets, name: string, package: string,
                         declaration: Declaration, identity: string)
    requires package in sources && '.' !in name
    ensures var site, scopes, source := Site(package, declaration.start), Scopes(package), sources[package];
            Resolve(sources, targets, name, package, declaration) == Linked(identity) <==>
            Looked(sources, name, package, declaration) &&
            ((LinkedByScope(sources, scopes, name, site, identity) && identity in targets) ||
             (AllSilent(sources, scopes, name, site) && ThroughUses(sources, targets, source, name) == Linked(identity)))
  {
    ScopesExact(sources, targets, name, Site(package, declaration.start), Scopes(package), identity);
  }

  lemma NotBehind(sources: Sources, scopes: seq<string>, k: nat, j: nat, name: string, site: Site)
    requires k < |scopes| && j < |scopes| && NearestDeclares(sources, scopes, k, name, site)
    requires !Silent(sources, scopes[j], name, site)
    ensures k <= j
  {
  }

  /** A visible declaration in scope j keeps every scope behind j, and every use clause, from
      being linked. */
  lemma NearerBlocks(sources: Sources, targets: Targets, name: string, package: string,
                     declaration: Declaration, j: nat)
    requires package in sources && '.' !in name && j < |Scopes(package)|
    requires VisibleIn(sources, Scopes(package)[j], name, Site(package, declaration.start)) != []
    ensures var r := Resolve(sources, targets, name, package, declaration);
            r.Linked? ==> exists i :: 0 <= i <= j && r.identity == Join(Scopes(package)[i], name)
  {
    var site, scopes := Site(package, declaration.start), Scopes(package);
    var r := Resolve(sources, targets, name, package, declaration);
    assert !Silent(sources, scopes[j], name, site);
    if r.Linked? {
      SimpleNameLinked(sources, targets, name, package, declaration, r.identity);
      var k :| 0 <= k < |scopes| && NearestDeclares(sources, scopes, k, name, site) && r.identity == Join(scopes[k], name);
      NotBehind(sources, scopes, k, j, name, site);
    }
  }

  /** No scope encloses itself. */
  lemma {:induction false} ScopesShrink(package: string)
    ensures forall i :: 0 <= i < |Scopes(package)| ==> |Scopes(package)[i]| <= |package|
    ensures forall i, j :: 0 <= i < j < |Scopes(package)| ==> |Scopes(package)[j]| < |Scopes(package)[i]|
    decreases |package|
  {
    if package != "" {
      ScopesShrink(RPartitionAt(package, '.').0);
    }
  }

  /** One more declaration of that name in a scope. */
  function WithMember(sources: Sources, scope: string, name: string, d: Declaration): Sources
    requires scope in sources
  {
    var source := sources[scope];
    sources[scope := source.(members := source.members[name := MembersOf(source, name) + [d]])]
  }

  lemma {:induction false} VisibleSnoc(ds: seq<Declaration>, d: Declaration, scope: string, site: Site)
    ensures Visible(ds + [d], scope, site) ==
            Visible(ds, scope, site) + if scope != site.package || d.start < site.line then [d] else []
  {
    if ds == [] {
    } else {
      assert (ds + [d])[1..] == ds[1..] + [d];
      VisibleSnoc(ds[1..], d, scope, site);
    }
  }

  /** Declaring the name in a scope nearer than the one linked before turns the link to the nearer
      identity or removes it; it never leaves or creates a link to an outer one. */
  lemma NearerDeclarationWins(sources: Sources, targets: Targets, name: string, package: string,
                              declaration: Declaration, j: nat, k: nat, d: Declaration)
    requires package in sources && '.' !in name && j < k < |Scopes(package)| && Scopes(package)[j] in sources
    requires Resolve(sources, targets, name, package, declaration) == Linked(Join(Scopes(package)[k], name))
    requires NearestDeclares(sources, Scopes(package), k, name, Site(package, declaration.start))
    requires Scopes(package)[j] != package || d.start < declaration.start
    ensures var r := Resolve(WithMember(sources, Scopes(package)[j], name, d), targets, name, package, declaration);
            r == (if Join(Scopes(package)[j], name) in targets then Linked(Join(Scopes(package)[j], name)) else Ambiguous)
  {
    var site, scopes := Site(package, declaration.start), Scopes(package);
    var more := WithMember(sources, scopes[j], name, d);
    assert Silent(sources, scopes[j], name, site);
    VisibleSnoc(MembersOf(sources[scopes[j]], name), d, scopes[j], site);
    assert VisibleIn(more, scopes[j], name, site) == [d];
    ScopesShrink(package);
    forall i | 0 <= i < j
      ensures Silent(more, scopes[i], name, site)
    {
      assert Silent(sources, scopes[i], name, site);
    }
    ScopesFind(more, targets, name, site, scopes, j);
  }

  // ----- selected names

  lemma {:induction false} ShortOwnerNearest(sources: Sources, source: Source, owner: string, scopes: seq<string>)
    returns (k: nat)
    requires ShortOwner(sources, source, owner, scopes).Some?
    ensures k < |scopes| && ShortOwner(sources, source, owner, scopes) == Some(scopes[k])
    ensures Join(scopes[k], owner) in sources && Join(scopes[k], owner) in source.imports
    ensures forall j :: 0 <= j < k ==> !(Join(scopes[j], owner) in sources && Join(scopes[j], owner) in source.imports)
  {
    if Join(scopes[0], owner) in sources && Join(scopes[0], owner) in source.imports {
      k := 0;
    } else {
      var i := ShortOwnerNearest(sources, source, owner, scopes[1..]);
      k := i + 1;
      forall j | 0 <= j < k
        ensures !(Join(scopes[j], owner) in sources && Join(scopes[j], owner) in source.imports)
      {
        if j > 0 {
          assert scopes[1..][j - 1] == scopes[j];
        }
      }
    }
  }

  /** A linked selected name names a page target whose owner encloses the reference or is imported,
      or is the member of an imported instance named by its short name in the nearest scope that has
      one; and no scope in sight declares anything under the name's first part. */
  lemma SelectedNameLinked(sources: Sources, targets: Targets, name: string, package: string, declaration: Declaration)
    requires package in sources && '.' in name
    requires Resolve(sources, targets, name, package, declaration).Linked?
    ensures var identity := Resolve(sources, targets, name, package, declaration).identity;
            var scopes, source := Scopes(package), sources[package];
            identity in targets && AllClear(sources, scopes, FirstPart(name), Site(package, declaration.start)) &&
            ((identity == name && (Owner(name) in scopes || Owner(name) in source.imports)) ||
             (exists k :: 0 <= k < |scopes| && identity == Join(scopes[k], name) &&
                          Join(scopes[k], Owner(name)) in source.imports &&
                          Join(scopes[k], Owner(name)) in sources && sources[Join(scopes[k], Owner(name))].generic &&
                          forall j :: 0 <= j < k ==> !(Join(scopes[j], Owner(name)) in sources &&
                                                       Join(scopes[j], Owner(name)) in source.imports)))
  {
    var scopes, source := Scopes(package), sources[package];
    if '.' !in Owner(name) && ShortOwner(sources, source, Owner(name), scopes).Some? {
      var k := ShortOwnerNearest(sources, source, Owner(name), scopes);
    }
  }
}
