/** The history router of the documentation shell: the outer address names a package and perhaps a
    symbol, a frame shows the page, and a mark shows the package in the list. */
module Router {
  import opened Texts

  datatype Item = Item(name: string, path: string)

  datatype Symbol = Symbol(name: string, item: Item, hash: string)

  /** The query of the outer address: all values given for package and for symbol. */
  datatype Query = Query(packages: seq<string>, symbols: seq<string>)

  /** An address a frame can show; own tells whether it has the origin of the shell. */
  datatype Location = Location(own: bool, path: string, search: string, hash: string)

  datatype Site = Site(byName: map<string, Item>, byPath: map<string, Item>,
                       symbols: map<string, Symbol>, destinations: map<string, Symbol>, fallback: Item)

  function ItemUrl(item: Item): Location {
    Location(true, item.path, "", "")
  }

  function SymbolUrl(symbol: Symbol): Location {
    Location(true, symbol.item.path, "", symbol.hash)
  }

  function Key(symbol: Symbol): string {
    symbol.item.path + symbol.hash
  }

  predicate Listed(site: Site, item: Item) {
    item.path in site.byPath && site.byPath[item.path] == item
  }

  predicate Known(site: Site, symbol: Symbol) {
    LowerCase(symbol.name) in site.symbols && site.symbols[LowerCase(symbol.name)] == symbol
  }

  predicate IsHash(hash: string) {
    hash != "" && hash[0] == '#'
  }

  /** What the set-up loops establish before anything is handled. */
  ghost predicate WellFormed(site: Site) {
    (forall k :: k in site.byName ==> LowerCase(site.byName[k].name) == k && Listed(site, site.byName[k])) &&
    (forall p :: p in site.byPath ==> PathRight(site, p)) &&
    (forall k :: k in site.symbols ==> SymbolRight(site, k)) &&
    (forall d :: d in site.destinations ==> Key(site.destinations[d]) == d && Known(site, site.destinations[d])) &&
    Listed(site, site.fallback)
  }

  predicate PathRight(site: Site, path: string)
    requires path in site.byPath
  {
    var item := site.byPath[path];
    item.path == path && '#' !in path && LowerCase(item.name) in site.byName && site.byName[LowerCase(item.name)] == item
  }

  predicate SymbolRight(site: Site, name: string)
    requires name in site.symbols
  {
    var symbol := site.symbols[name];
    LowerCase(symbol.name) == name && IsHash(symbol.hash) && Listed(site, symbol.item) &&
    Key(symbol) in site.destinations && site.destinations[Key(symbol)] == symbol
  }

  // ----- the set-up loops

  /** A link of the package list or of the type list, with the tests that are not modelled further. */
  datatype Link = Link(name: string, url: Location, right: bool)

  const FALLBACK := "opencv.core"

  function ItemOf(link: Link): Item {
    Item(link.name, link.url.path)
  }

  predicate PackageLink(link: Link) {
    link.right && link.url.own && link.url.search == "" && link.url.hash == ""
  }

  predicate PackageRepeats(links: seq<Link>, j: nat, i: nat)
    requires j < |links| && i < |links|
  {
    LowerCase(links[j].name) == LowerCase(links[i].name) || links[j].url.path == links[i].url.path
  }

  /** Every link is as it should be, and no two name one package or lead to one page. */
  predicate PackagesFit(links: seq<Link>) {
    (forall i :: 0 <= i < |links| ==> PackageLink(links[i])) &&
    forall i, j :: 0 <= j < i < |links| ==> !PackageRepeats(links, j, i)
  }

  predicate NamedAt(links: seq<Link>, j: nat, name: string)
    requires j < |links|
  {
    LowerCase(links[j].name) == name
  }

  predicate PlacedAt(links: seq<Link>, j: nat, path: string)
    requires j < |links|
  {
    links[j].url.path == path
  }

  /** The maps hold the first n links and nothing else. */
  predicate PackagesRead(links: seq<Link>, n: nat, names: map<string, Item>, paths: map<string, Item>)
    requires n <= |links|
  {
    (forall j: nat :: j < n ==> PackageHeld(links[j], names, paths)) &&
    (forall k :: k in names ==> exists j: nat :: j < n && NamedAt(links, j, k)) &&
    (forall p :: p in paths ==> exists j: nat :: j < n && PlacedAt(links, j, p))
  }

  predicate PackageHeld(link: Link, names: map<string, Item>, paths: map<string, Item>) {
    LowerCase(link.name) in names && names[LowerCase(link.name)] == ItemOf(link) &&
    link.url.path in paths && paths[link.url.path] == ItemOf(link)
  }

  /** The link can be taken: it is right, and new by name and by page. */
  predicate TakesPackage(link: Link, names: map<string, Item>, paths: map<string, Item>) {
    PackageLink(link) && LowerCase(link.name) !in names && link.url.path !in paths
  }

  function WithName(names: map<string, Item>, link: Link): map<string, Item> {
    names[LowerCase(link.name) := ItemOf(link)]
  }

  function WithPath(paths: map<string, Item>, link: Link): map<string, Item> {
    paths[link.url.path := ItemOf(link)]
  }

  lemma PackageStillHeld(links: seq<Link>, j: nat, n: nat, names: map<string, Item>, paths: map<string, Item>)
    requires j < |links| && n < |links| && PackageHeld(links[j], names, paths) && TakesPackage(links[n], names, paths)
    ensures PackageHeld(links[j], WithName(names, links[n]), WithPath(paths, links[n])) && !PackageRepeats(links, j, n)
  {
  }

  lemma OtherPackagesSame(links: seq<Link>, n: nat, names: map<string, Item>, paths: map<string, Item>)
    requires n < |links| && PackagesRead(links, n, names, paths)
    ensures forall k :: k in WithName(names, links[n]) ==> exists j: nat :: j < n + 1 && NamedAt(links, j, k)
    ensures forall p :: p in WithPath(paths, links[n]) ==> exists j: nat :: j < n + 1 && PlacedAt(links, j, p)
  {
    assert NamedAt(links, n, LowerCase(links[n].name)) && PlacedAt(links, n, links[n].url.path);
  }

  lemma PackageNowHeld(link: Link, names: map<string, Item>, paths: map<string, Item>)
    ensures PackageHeld(link, WithName(names, link), WithPath(paths, link))
  {
  }

  lemma PackagesHeld(links: seq<Link>, n: nat, names: map<string, Item>, paths: map<string, Item>)
    requires n < |links| && PackagesRead(links, n, names, paths) && TakesPackage(links[n], names, paths)
    ensures forall j: nat :: j < n + 1 ==> PackageHeld(links[j], WithName(names, links[n]), WithPath(paths, links[n]))
    ensures forall j: nat :: j < n ==> !PackageRepeats(links, j, n)
  {
    forall j: nat | j < n
      ensures PackageHeld(links[j], WithName(names, links[n]), WithPath(paths, links[n])) && !PackageRepeats(links, j, n)
    {
      PackageStillHeld(links, j, n, names, paths);
    }
    PackageNowHeld(links[n], names, paths);
  }

  lemma PackageAdded(links: seq<Link>, n: nat, names: map<string, Item>, paths: map<string, Item>)
    requires n < |links| && PackagesRead(links, n, names, paths) && TakesPackage(links[n], names, paths)
    ensures PackagesRead(links, n + 1, WithName(names, links[n]), WithPath(paths, links[n]))
    ensures forall j: nat :: j < n ==> !PackageRepeats(links, j, n)
  {
    PackagesHeld(links, n, names, paths);
    OtherPackagesSame(links, n, names, paths);
  }

  lemma PackageRefused(links: seq<Link>, n: nat, names: map<string, Item>, paths: map<string, Item>)
    requires n < |links| && PackagesRead(links, n, names, paths)
    requires !TakesPackage(links[n], names, paths)
    ensures !PackagesFit(links)
  {
    if LowerCase(links[n].name) in names {
      var j: nat :| j < n && NamedAt(links, j, LowerCase(links[n].name));
      assert PackageRepeats(links, j, n);
    } else if links[n].url.path in paths {
      var j: nat :| j < n && PlacedAt(links, j, links[n].url.path);
      assert PackageRepeats(links, j, n);
    }
  }

  /** What a turn of the package loop keeps. */
  lemma OnePackage(links: seq<Link>, n: nat, names: map<string, Item>, paths: map<string, Item>)
    requires n < |links| && TakesPackage(links[n], names, paths) && '#' !in links[n].url.path
    requires PackagesRight(names, paths) && PackagesRead(links, n, names, paths) && PackagesFit(links[..n])
    ensures PackagesRight(WithName(names, links[n]), WithPath(paths, links[n]))
    ensures PackagesRead(links, n + 1, WithName(names, links[n]), WithPath(paths, links[n])) && PackagesFit(links[..n + 1])
  {
    MorePackages(names, paths, ItemOf(links[n]));
    PackageAdded(links, n, names, paths);
    OneMoreFits(links, n);
  }

  lemma NoPackageYet(links: seq<Link>)
    ensures PackagesRight(map[], map[]) && PackagesRead(links, 0, map[], map[]) && PackagesFit(links[..0])
  {
  }

  /** The package loop and the tests behind it. */
  method ReadPackages(links: seq<Link>, expected: nat) returns (names: map<string, Item>, paths: map<string, Item>, ok: bool)
    requires forall l :: l in links ==> '#' !in l.url.path
    ensures ok <==> PackagesFit(links) && |links| == expected && exists j: nat :: j < |links| && NamedAt(links, j, FALLBACK)
    ensures ok ==> PackagesRead(links, |links|, names, paths) && PackagesRight(names, paths) && FALLBACK in names
  {
    names, paths, ok := map[], map[], false;
    NoPackageYet(links);
    var i := 0;
    while i < |links|
      invariant i <= |links| && !ok && PackagesRight(names, paths) && PackagesRead(links, i, names, paths)
      invariant PackagesFit(links[..i])
    {
      var link := links[i];
      if !TakesPackage(link, names, paths) {
        PackageRefused(links, i, names, paths);
        return;
      }
      assert link in links;
      OnePackage(links, i, names, paths);
      names, paths := WithName(names, link), WithPath(paths, link);
      i := i + 1;
    }
    assert links[..i] == links;
    ok := |links| == expected && FALLBACK in names;
    FallbackNamed(links, names, paths);
  }

  lemma OneMoreFits(links: seq<Link>, n: nat)
    requires n < |links| && PackagesFit(links[..n]) && PackageLink(links[n])
    requires forall j: nat :: j < n ==> !PackageRepeats(links, j, n)
    ensures PackagesFit(links[..n + 1])
  {
    var more := links[..n + 1];
    forall i | 0 <= i < |more|
      ensures PackageLink(more[i])
    {
      if i < n {
        assert PackageLink(links[..n][i]);
      }
    }
    forall i, j | 0 <= j < i < |more|
      ensures !PackageRepeats(more, j, i)
    {
      if i < n {
        assert !PackageRepeats(links[..n], j, i);
      } else {
        assert !PackageRepeats(links, j, n);
      }
    }
  }

  lemma FallbackNamed(links: seq<Link>, names: map<string, Item>, paths: map<string, Item>)
    requires PackagesRead(links, |links|, names, paths)
    ensures FALLBACK in names <==> exists j: nat :: j < |links| && NamedAt(links, j, FALLBACK)
  {
    if j: nat :| j < |links| && NamedAt(links, j, FALLBACK) {
      assert PackageHeld(links[j], names, paths);
    }
  }

  ghost predicate PackagesRight(names: map<string, Item>, paths: map<string, Item>) {
    (forall k :: k in names ==> LowerCase(names[k].name) == k && names[k].path in paths && paths[names[k].path] == names[k]) &&
    forall p :: p in paths ==> paths[p].path == p && '#' !in p && LowerCase(paths[p].name) in names &&
                               names[LowerCase(paths[p].name)] == paths[p]
  }

  lemma MorePackages(names: map<string, Item>, paths: map<string, Item>, item: Item)
    requires PackagesRight(names, paths) && LowerCase(item.name) !in names && item.path !in paths && '#' !in item.path
    ensures PackagesRight(names[LowerCase(item.name) := item], paths[item.path := item])
  {
  }

  function OwnerOf(link: Link): string {
    LowerCase(RPartitionAt(link.name, '.').0)
  }

  predicate TypeLink(names: map<string, Item>, link: Link) {
    OwnerOf(link) in names && link.right && link.url.own && link.url.path == names[OwnerOf(link)].path &&
    link.url.search == "" && link.url.hash != ""
  }

  function SymbolOf(names: map<string, Item>, link: Link): Symbol
    requires TypeLink(names, link)
  {
    Symbol(link.name, names[OwnerOf(link)], link.url.hash)
  }

  predicate SymbolRepeats(links: seq<Link>, j: nat, i: nat)
    requires j < |links| && i < |links|
  {
    LowerCase(links[j].name) == LowerCase(links[i].name) ||
    links[j].url.path + links[j].url.hash == links[i].url.path + links[i].url.hash
  }

  /** Every link leads into the page of its package, and no two name one type or lead to one place. */
  predicate SymbolsFit(names: map<string, Item>, links: seq<Link>) {
    (forall i :: 0 <= i < |links| ==> TypeLink(names, links[i])) &&
    forall i, j :: 0 <= j < i < |links| ==> !SymbolRepeats(links, j, i)
  }

  predicate LeadsTo(links: seq<Link>, j: nat, key: string)
    requires j < |links|
  {
    links[j].url.path + links[j].url.hash == key
  }

  /** The symbols are those of the first n links and no others. */
  predicate SymbolsRead(site: Site, links: seq<Link>, n: nat)
    requires n <= |links|
  {
    (forall j: nat :: j < n ==> SymbolHeld(site, links[j])) &&
    (forall k :: k in site.symbols ==> exists j: nat :: j < n && NamedAt(links, j, k)) &&
    (forall d :: d in site.destinations ==> exists j: nat :: j < n && LeadsTo(links, j, d))
  }

  predicate SymbolHeld(site: Site, link: Link) {
    TypeLink(site.byName, link) &&
    LowerCase(link.name) in site.symbols && site.symbols[LowerCase(link.name)] == SymbolOf(site.byName, link) &&
    link.url.path + link.url.hash in site.destinations &&
    site.destinations[link.url.path + link.url.hash] == SymbolOf(site.byName, link)
  }

  /** The link can be taken: it is right, and new by name and by place. */
  predicate Takes(site: Site, link: Link) {
    TypeLink(site.byName, link) && LowerCase(link.name) !in site.symbols &&
    link.url.path + link.url.hash !in site.destinations
  }

  lemma StillHeld(site: Site, link: Link, more: Link)
    requires SymbolHeld(site, link) && Takes(site, more)
    ensures SymbolHeld(WithSymbol(site, SymbolOf(site.byName, more)), link)
  {
  }

  lemma NowHeld(site: Site, link: Link)
    requires Takes(site, link)
    ensures SymbolHeld(WithSymbol(site, SymbolOf(site.byName, link)), link)
  {
  }

  lemma NoRepeat(site: Site, links: seq<Link>, j: nat, n: nat)
    requires j < |links| && n < |links| && SymbolHeld(site, links[j]) && Takes(site, links[n])
    ensures !SymbolRepeats(links, j, n)
  {
  }

  lemma OthersSame(site: Site, links: seq<Link>, n: nat)
    requires n < |links| && SymbolsRead(site, links, n) && Takes(site, links[n])
    ensures var site' := WithSymbol(site, SymbolOf(site.byName, links[n]));
            (forall k :: k in site'.symbols ==> exists j: nat :: j < n + 1 && NamedAt(links, j, k)) &&
            (forall d :: d in site'.destinations ==> exists j: nat :: j < n + 1 && LeadsTo(links, j, d))
  {
    assert NamedAt(links, n, LowerCase(links[n].name)) && LeadsTo(links, n, links[n].url.path + links[n].url.hash);
  }

  lemma SymbolAdded(site: Site, links: seq<Link>, n: nat)
    requires n < |links| && SymbolsRead(site, links, n) && Takes(site, links[n])
    ensures SymbolsRead(WithSymbol(site, SymbolOf(site.byName, links[n])), links, n + 1)
    ensures forall j: nat :: j < n ==> !SymbolRepeats(links, j, n)
  {
    forall j: nat | j < n
      ensures SymbolHeld(WithSymbol(site, SymbolOf(site.byName, links[n])), links[j]) && !SymbolRepeats(links, j, n)
    {
      StillHeld(site, links[j], links[n]);
      NoRepeat(site, links, j, n);
    }
    NowHeld(site, links[n]);
    OthersSame(site, links, n);
  }

  lemma SymbolRefused(site: Site, links: seq<Link>, n: nat)
    requires n < |links| && SymbolsRead(site, links, n)
    requires !Takes(site, links[n])
    ensures !SymbolsFit(site.byName, links)
  {
    if LowerCase(links[n].name) in site.symbols {
      var j: nat :| j < n && NamedAt(links, j, LowerCase(links[n].name));
      assert SymbolRepeats(links, j, n);
    } else if links[n].url.path + links[n].url.hash in site.destinations {
      var j: nat :| j < n && LeadsTo(links, j, links[n].url.path + links[n].url.hash);
      assert SymbolRepeats(links, j, n);
    }
  }

  lemma OneMoreSymbol(names: map<string, Item>, links: seq<Link>, n: nat)
    requires n < |links| && SymbolsFit(names, links[..n]) && TypeLink(names, links[n])
    requires forall j: nat :: j < n ==> !SymbolRepeats(links, j, n)
    ensures SymbolsFit(names, links[..n + 1])
  {
    var more := links[..n + 1];
    forall i | 0 <= i < |more|
      ensures TypeLink(names, more[i])
    {
      if i < n {
        assert TypeLink(names, links[..n][i]);
      }
    }
    forall i, j | 0 <= j < i < |more|
      ensures !SymbolRepeats(more, j, i)
    {
      if i < n {
        assert !SymbolRepeats(links[..n], j, i);
      } else {
        assert !SymbolRepeats(links, j, n);
      }
    }
  }

  /** What a turn of the symbol loop keeps. */
  lemma OneTaken(site: Site, links: seq<Link>, n: nat)
    requires n < |links| && Takes(site, links[n]) && IsHash(links[n].url.hash)
    requires WellFormed(site) && SymbolsRead(site, links, n) && SymbolsFit(site.byName, links[..n])
    ensures var site' := WithSymbol(site, SymbolOf(site.byName, links[n]));
            WellFormed(site') && SymbolsRead(site', links, n + 1) && SymbolsFit(site.byName, links[..n + 1])
  {
    SymbolAdded(site, links, n);
    OneMoreSymbol(site.byName, links, n);
    MoreSymbols(site, SymbolOf(site.byName, links[n]));
  }

  lemma NoSymbolYet(names: map<string, Item>, paths: map<string, Item>, links: seq<Link>)
    requires PackagesRight(names, paths) && FALLBACK in names
    ensures var site := Site(names, paths, map[], map[], names[FALLBACK]);
            WellFormed(site) && SymbolsRead(site, links, 0) && SymbolsFit(names, links[..0])
  {
  }

  lemma SomeSymbol(site: Site, links: seq<Link>)
    requires SymbolsRead(site, links, |links|)
    ensures site.symbols != map[] <==> links != []
  {
    if links != [] {
      assert SymbolHeld(site, links[0]);
    }
  }

  /** The symbol loop. */
  method ReadSymbols(links: seq<Link>, names: map<string, Item>, paths: map<string, Item>)
    returns (site: Site, ok: bool)
    requires PackagesRight(names, paths) && FALLBACK in names
    requires forall l :: l in links ==> l.url.hash == "" || IsHash(l.url.hash)
    ensures ok <==> SymbolsFit(names, links) && links != []
    ensures ok ==> WellFormed(site) && SymbolsRead(site, links, |links|) &&
                   site.byName == names && site.byPath == paths && site.fallback == names[FALLBACK]
  {
    site, ok := Site(names, paths, map[], map[], names[FALLBACK]), false;
    NoSymbolYet(names, paths, links);
    var i := 0;
    while i < |links|
      invariant i <= |links| && !ok && WellFormed(site) && SymbolsRead(site, links, i) && SymbolsFit(names, links[..i])
      invariant site.byName == names && site.byPath == paths && site.fallback == names[FALLBACK]
    {
      var link := links[i];
      if !Takes(site, link) {
        SymbolRefused(site, links, i);
        return;
      }
      assert link in links;
      OneTaken(site, links, i);
      site := WithSymbol(site, SymbolOf(names, link));
      i := i + 1;
    }
    assert links[..i] == links;
    ok := site.symbols != map[];
    SomeSymbol(site, links);
  }

  function WithSymbol(site: Site, symbol: Symbol): Site {
    site.(symbols := site.symbols[LowerCase(symbol.name) := symbol], destinations := site.destinations[Key(symbol) := symbol])
  }

  lemma MoreSymbols(site: Site, symbol: Symbol)
    requires WellFormed(site) && LowerCase(symbol.name) !in site.symbols && Key(symbol) !in site.destinations
    requires IsHash(symbol.hash) && Listed(site, symbol.item)
    ensures WellFormed(WithSymbol(site, symbol))
  {
    var site' := WithSymbol(site, symbol);
    assert forall p :: p in site'.byPath ==> PathRight(site, p) && PathRight(site', p);
    forall k | k in site'.symbols
      ensures SymbolRight(site', k)
    {
      if k in site.symbols {
        assert SymbolRight(site, k);
      }
    }
  }

  // ----- outer and requested

  /** The query outer writes. */
  function QueryOf(item: Item, symbol: Option<Symbol>): Query {
    Query([item.name], if symbol.Some? then [symbol.value.name] else [])
  }

  datatype Request = Request(item: Item, symbol: Option<Symbol>)

  function Requested(site: Site, query: Query): Request {
    if query.symbols != [] then
      if |query.symbols| == 1 && LowerCase(query.symbols[0]) in site.symbols then
        var symbol := site.symbols[LowerCase(query.symbols[0])];
        if |query.packages| == 0 || (|query.packages| == 1 && LowerCase(query.packages[0]) == LowerCase(symbol.item.name))
        then Request(symbol.item, Some(symbol)) else Request(site.fallback, None)
      else Request(site.fallback, None)
    else if |query.packages| == 1 && LowerCase(query.packages[0]) in site.byName
         then Request(site.byName[LowerCase(query.packages[0])], None)
    else Request(site.fallback, None)
  }

  /** A package of the list, with a symbol of that package or none. */
  predicate Valid(site: Site, r: Request) {
    Listed(site, r.item) && (r.symbol.Some? ==> Known(site, r.symbol.value) && r.symbol.value.item == r.item)
  }

  /** requested reads back what outer wrote. */
  lemma RequestedInvertsOuter(site: Site, r: Request)
    requires WellFormed(site) && Valid(site, r)
    ensures Requested(site, QueryOf(r.item, r.symbol)) == r
  {
    assert PathRight(site, r.item.path);
  }

  /** Whatever the query, the answer is a listed package with a symbol of its own or none. */
  lemma RequestedValid(site: Site, query: Query)
    requires WellFormed(site)
    ensures Valid(site, Requested(site, query))
  {
    if |query.symbols| == 1 && LowerCase(query.symbols[0]) in site.symbols {
      assert SymbolRight(site, LowerCase(query.symbols[0]));
    }
  }

  predicate Canonical(site: Site, query: Query) {
    query == QueryOf(Requested(site, query).item, Requested(site, query).symbol)
  }

  // ----- frames and destinations

  function Destination(site: Site, path: string, hash: string): Option<Symbol> {
    if path + hash in site.destinations then Some(site.destinations[path + hash]) else None
  }

  lemma HashPlace(path: string, hash: string)
    requires '#' !in path && (hash == "" || IsHash(hash))
    ensures IndexFrom(path + hash, 0, '#') == |path|
  {
    var s := path + hash;
    assert forall j :: 0 <= j < |path| ==> s[j] == path[j];
    if hash != "" {
      assert s[|path|] == hash[0];
    }
  }

  lemma SplitAtHash(a: string, b: string, x: string, y: string)
    requires a + x == b + y && '#' !in a && '#' !in b && (x == "" || IsHash(x)) && (y == "" || IsHash(y))
    ensures a == b && x == y
  {
    HashPlace(a, x);
    HashPlace(b, y);
    var s, t := a + x, b + y;
    assert s[..|a|] == a && t[..|b|] == b && s[|a|..] == x && t[|b|..] == y;
  }

  /** The package and symbol a page of the site stands for belong together. */
  lemma PageRequest(site: Site, path: string, hash: string)
    requires WellFormed(site) && path in site.byPath && (hash == "" || IsHash(hash))
    ensures Valid(site, Request(site.byPath[path], Destination(site, path, hash)))
    ensures hash == "" ==> Destination(site, path, hash).None?
  {
    assert PathRight(site, path);
    var symbol := Destination(site, path, hash);
    if symbol.Some? {
      var s := symbol.value;
      assert Known(site, s) && SymbolRight(site, LowerCase(s.name)) && PathRight(site, s.item.path);
      SplitAtHash(s.item.path, path, s.hash, hash);
    }
  }

  function RequestUrl(r: Request): Location {
    if r.symbol.Some? then SymbolUrl(r.symbol.value) else ItemUrl(r.item)
  }

  /** The page a request leads to stands for that request. */
  lemma RequestPage(site: Site, r: Request)
    requires WellFormed(site) && Valid(site, r)
    ensures var url := RequestUrl(r);
            url.path in site.byPath && site.byPath[url.path] == r.item && Destination(site, url.path, url.hash) == r.symbol
  {
    if r.symbol.Some? {
      assert SymbolRight(site, LowerCase(r.symbol.value.name));
    } else {
      PageRequest(site, r.item.path, "");
      assert r.item.path + "" == r.item.path;
    }
  }

  // ----- the router

  class Shell {
    const site: Site
    var entries: seq<Query>     // the session history, as far as it is the shell's
    var current: nat
    var frame: Location
    var marked: Option<Item>

    /** Every entry is one outer wrote. */
    ghost predicate Good()
      reads this
    {
      WellFormed(site) && current < |entries| && (frame.hash == "" || IsHash(frame.hash)) &&
      forall i :: 0 <= i < |entries| ==> Canonical(site, entries[i])
    }

    function Now(): Request
      requires current < |entries|
      reads this
    {
      Requested(site, entries[current])
    }

    /** The mark, the address and the frame speak of the same package and symbol. */
    predicate Settled()
      requires current < |entries|
      reads this
    {
      marked == Some(Now().item) && frame.own && frame.path in site.byPath && site.byPath[frame.path] == Now().item &&
      Destination(site, frame.path, frame.hash) == Now().symbol
    }

    /** The shell opened at an address with any query: the address becomes canonical and the frame
        follows. */
    constructor (site_: Site, query: Query, page: Location)
      requires WellFormed(site_) && page.own && (page.hash == "" || IsHash(page.hash))
      ensures Good() && Settled() && entries == [QueryOf(Requested(site_, query).item, Requested(site_, query).symbol)]
      ensures site == site_ && Now() == Requested(site_, query)
    {
      site, entries, current, frame, marked := site_, [query], 0, page, None;
      new;
      RequestedValid(site, query);
      RequestPage(site, Now());
      Restore();
      HashKept(site, Now());
      Load();
    }

    method Mark(item: Item)
      modifies this`marked
      ensures marked == Some(item)
    {
      marked := Some(item);
    }

    /** outer(item, "pushState", symbol) */
    method Push(item: Item, symbol: Option<Symbol>)
      requires current < |entries|
      modifies this`entries, this`current
      ensures current < |entries| && entries[current] == QueryOf(item, symbol)
      ensures old(entries[current]) == QueryOf(item, symbol) ==> entries == old(entries) && current == old(current)
      ensures old(entries[current]) != QueryOf(item, symbol) ==>
                entries == old(entries[..current + 1]) + [QueryOf(item, symbol)] && current == old(current) + 1
    {
      var query := entries[current];
      if |query.packages| == 1 && query.packages[0] == item.name &&
         |query.symbols| == (if symbol.Some? then 1 else 0) && (symbol.None? || query.symbols[0] == symbol.value.name) {
        SameQuery(query, item, symbol);
        return;
      }
      entries := entries[..current + 1] + [QueryOf(item, symbol)];
      current := current + 1;
    }

    /** outer(item, "replaceState", symbol) */
    method Replace(item: Item, symbol: Option<Symbol>)
      requires current < |entries|
      modifies this`entries
      ensures entries == old(entries)[current := QueryOf(item, symbol)]
    {
      var query := entries[current];
      if |query.packages| == 1 && query.packages[0] == item.name &&
         |query.symbols| == (if symbol.Some? then 1 else 0) && (symbol.None? || query.symbols[0] == symbol.value.name) {
        SameQuery(query, item, symbol);
        return;
      }
      entries := entries[current := QueryOf(item, symbol)];
    }

    /** restore. Reading the address of a foreign frame throws, so such a frame is left alone. */
    method Restore()
      requires WellFormed(site) && current < |entries|
      modifies this`entries, this`frame, this`marked
      ensures entries == old(entries)[current := QueryOf(old(Now()).item, old(Now()).symbol)] && Now() == old(Now())
      ensures marked == Some(Now().item)
      ensures frame == if old(frame).own then RequestUrl(Now()) else old(frame)
    {
      var request := Requested(site, entries[current]);
      RequestedValid(site, entries[current]);
      RequestedInvertsOuter(site, request);
      Mark(request.item);
      Replace(request.item, request.symbol);
      var url := RequestUrl(request);
      if frame.own && frame != url {
        frame := url;
      }
    }

    /** navigate; false where the address is left to the browser. */
    method Navigate(url: Location) returns (accepted: bool)
      requires Good() && (url.hash == "" || IsHash(url.hash))
      modifies this
      ensures accepted <==> url.own && url.path in site.byPath && url.search == ""
      ensures !accepted ==> entries == old(entries) && current == old(current) && frame == old(frame) && marked == old(marked)
      ensures accepted ==>
                Good() && Settled() && frame == url && Now() == Request(site.byPath[url.path], Destination(site, url.path, url.hash)) &&
                PushedOnce(old(entries), old(current), entries, current, QueryOf(Now().item, Now().symbol))
    {
      accepted := url.own && url.path in site.byPath && url.search == "";
      if accepted {
        ShowPage(url);
        frame := url;
      }
    }

    /** What navigate and the load handler share: mark the page's package and push its query. */
    method ShowPage(url: Location)
      requires Good() && url.path in site.byPath && (url.hash == "" || IsHash(url.hash))
      modifies this`entries, this`current, this`marked
      ensures Good() && Now() == Request(site.byPath[url.path], Destination(site, url.path, url.hash))
      ensures marked == Some(Now().item)
      ensures PushedOnce(old(entries), old(current), entries, current, QueryOf(Now().item, Now().symbol))
    {
      var item, symbol := site.byPath[url.path], Destination(site, url.path, url.hash);
      PageRequest(site, url.path, url.hash);
      RequestedInvertsOuter(site, Request(item, symbol));
      Mark(item);
      Push(item, symbol);
    }

    /** The load handler of the frame; pages outside the list are ignored. */
    method Load()
      requires Good()
      modifies this`entries, this`current, this`marked
      ensures Good()
      ensures !(frame.own && frame.path in site.byPath) ==>
                entries == old(entries) && current == old(current) && marked == old(marked)
      ensures frame.own && frame.path in site.byPath ==>
                Settled() && PushedOnce(old(entries), old(current), entries, current, QueryOf(Now().item, Now().symbol))
      ensures old(Settled()) ==> entries == old(entries) && current == old(current) && marked == old(marked)
    {
      if frame.own && frame.path in site.byPath {
        ShowPage(frame);
      }
    }

    /** A click on a link that the router takes, and the load of the frame. */
    method Click(url: Location) returns (accepted: bool)
      requires Good() && (url.hash == "" || IsHash(url.hash))
      modifies this
      ensures Good() && (accepted <==> url.own && url.path in site.byPath && url.search == "")
      ensures !accepted ==> entries == old(entries) && current == old(current) && frame == old(frame) && marked == old(marked)
      ensures accepted ==>
                Settled() && Now() == Request(site.byPath[url.path], Destination(site, url.path, url.hash)) &&
                PushedOnce(old(entries), old(current), entries, current, QueryOf(Now().item, Now().symbol))
    {
      accepted := Navigate(url);
      if accepted {
        Load();
      }
    }

    /** The frame goes to a page by itself. */
    method Wander(page: Location)
      requires Good() && (page.hash == "" || IsHash(page.hash))
      modifies this
      ensures Good() && frame == page
      ensures page.own && page.path in site.byPath ==>
                Settled() && PushedOnce(old(entries), old(current), entries, current, QueryOf(Now().item, Now().symbol))
      ensures !(page.own && page.path in site.byPath) ==>
                entries == old(entries) && current == old(current) && marked == old(marked)
    {
      frame := page;
      Load();
    }

    /** Any sequence of user events, each with the loads it causes. */
    method Run(events: seq<Event>)
      requires Good() && frame.own && Settled() && forall e :: e in events ==> Fits(site, e)
      modifies this
      ensures Good() && Settled() && History(entries, current) == HistoryAfter(site, old(History(entries, current)), events)
    {
      assert events[..0] == [];
      for i := 0 to |events|
        invariant Good() && Settled() && frame.own
        invariant History(entries, current) == HistoryAfter(site, old(History(entries, current)), events[..i])
      {
        assert events[i] in events;
        EventBehind(site, old(History(entries, current)), events, i);
        Handle(events[i]);
      }
      assert events[..|events|] == events;
    }

    /** One event with the loads it causes. */
    method Handle(event: Event)
      requires Good() && frame.own && Settled() && Fits(site, event)
      modifies this
      ensures Good() && Settled() && frame.own
      ensures History(entries, current) == HistoryBy(site, old(History(entries, current)), event)
    {
      match event {
        case Follow(url) => var _ := Click(url);
        case Go(to) =>
          if to < |entries| {
            Traverse(to);
          }
        case Reshow => Show();
        case InFrame(page) => Wander(page);
      }
    }

    /** Back or Forward to another entry, the handler of popstate, and the load of the frame. */
    method Traverse(to: nat)
      requires Good() && to < |entries|
      modifies this
      ensures Good() && entries == old(entries) && current == to
      ensures old(frame).own ==> Settled() && frame == RequestUrl(Now())
      ensures !old(frame).own ==> marked == Some(Now().item) && frame == old(frame)
    {
      current := to;
      Show();
    }

    /** pageshow, and the load of the frame. */
    method Show()
      requires Good()
      modifies this
      ensures Good() && entries == old(entries) && current == old(current)
      ensures old(frame).own ==> Settled() && frame == RequestUrl(Now())
      ensures !old(frame).own ==> marked == Some(Now().item) && frame == old(frame)
    {
      RequestedValid(site, entries[current]);
      RequestPage(site, Now());
      Restore();
      assert entries == old(entries);
      HashKept(site, Now());
      Load();
    }
  }

  // ----- the history of a run

  datatype History = History(entries: seq<Query>, current: nat)

  /** The query of a page of the list. */
  function PageQuery(site: Site, page: Location): Query
    requires page.path in site.byPath
  {
    QueryOf(site.byPath[page.path], Destination(site, page.path, page.hash))
  }

  function Pushed(h: History, query: Query): History {
    if h.current >= |h.entries| || h.entries[h.current] == query then h
    else History(h.entries[..h.current + 1] + [query], h.current + 1)
  }

  /** A page of the list is put behind the present entry, Back and Forward only move, and all else is
      no matter of the history. */
  function HistoryBy(site: Site, h: History, event: Event): History {
    match event
    case Follow(url) => if url.own && url.path in site.byPath && url.search == "" then Pushed(h, PageQuery(site, url)) else h
    case Go(to) => if to < |h.entries| then h.(current := to) else h
    case Reshow => h
    case InFrame(page) => if page.own && page.path in site.byPath then Pushed(h, PageQuery(site, page)) else h
  }

  function HistoryAfter(site: Site, h: History, events: seq<Event>): History
    decreases |events|
  {
    if events == [] then h else HistoryAfter(site, HistoryBy(site, h, events[0]), events[1..])
  }

  lemma {:induction false} EventLast(site: Site, h: History, events: seq<Event>, last: Event)
    ensures HistoryAfter(site, h, events + [last]) == HistoryBy(site, HistoryAfter(site, h, events), last)
    decreases |events|
  {
    if events == [] {
      assert [] + [last] == [last] && [last][1..] == [];
    } else {
      EventLast(site, HistoryBy(site, h, events[0]), events[1..], last);
      assert (events + [last])[1..] == events[1..] + [last];
    }
  }

  lemma EventBehind(site: Site, h: History, events: seq<Event>, i: nat)
    requires i < |events|
    ensures HistoryAfter(site, h, events[..i + 1]) == HistoryBy(site, HistoryAfter(site, h, events[..i]), events[i])
  {
    assert events[..i + 1] == events[..i] + [events[i]];
    EventLast(site, h, events[..i], events[i]);
  }

  /** The pages a run may put into the history. */
  function Visited(events: seq<Event>): nat {
    if events == [] then 0 else (if events[0].Follow? || events[0].InFrame? then 1 else 0) + Visited(events[1..])
  }

  /** The entry furthest back that a run is at. */
  function Furthest(site: Site, h: History, events: seq<Event>): nat
    decreases |events|
  {
    if events == [] then h.current
    else
      var further := Furthest(site, HistoryBy(site, h, events[0]), events[1..]);
      if h.current < further then h.current else further
  }

  lemma FurthestStep(site: Site, h: History, event: Event, low: nat)
    requires h.current < |h.entries| && low <= h.current && low <= HistoryBy(site, h, event).current
    ensures var h' := HistoryBy(site, h, event);
            h'.current < |h'.entries| && |h'.entries| <= |h.entries| + (if event.Follow? || event.InFrame? then 1 else 0) &&
            h'.entries[..low + 1] == h.entries[..low + 1]
  {
  }

  lemma {:induction false} FurthestIsReached(site: Site, h: History, events: seq<Event>)
    requires h.current < |h.entries|
    ensures Furthest(site, h, events) <= h.current && Furthest(site, h, events) < |HistoryAfter(site, h, events).entries|
    ensures HistoryAfter(site, h, events).current < |HistoryAfter(site, h, events).entries|
    decreases |events|
  {
    if events != [] {
      FurthestStep(site, h, events[0], 0);
      FurthestIsReached(site, HistoryBy(site, h, events[0]), events[1..]);
    }
  }

  /** A run adds at most one entry for every page it shows, and the entries up to the one furthest
      back that it is at stay as they were. */
  lemma {:induction false} HistoryKept(site: Site, h: History, events: seq<Event>)
    requires h.current < |h.entries|
    ensures var h', low := HistoryAfter(site, h, events), Furthest(site, h, events);
            |h'.entries| <= |h.entries| + Visited(events) && low < |h'.entries| && low <= h.current &&
            h'.entries[..low + 1] == h.entries[..low + 1]
    decreases |events|
  {
    FurthestIsReached(site, h, events);
    if events != [] {
      var next := HistoryBy(site, h, events[0]);
      FurthestStep(site, h, events[0], 0);
      HistoryKept(site, next, events[1..]);
      FurthestIsReached(site, next, events[1..]);
      var low := Furthest(site, h, events);
      FurthestStep(site, h, events[0], low);
      assert next.entries[..Furthest(site, next, events[1..]) + 1][..low + 1] == next.entries[..low + 1];
    }
  }

  datatype Event = Follow(url: Location) | Go(to: nat) | Reshow | InFrame(page: Location)

  /** The frame only wanders to pages of the list; such an address is what a browser reports. */
  predicate Fits(site: Site, event: Event) {
    match event
    case Follow(url) => url.hash == "" || IsHash(url.hash)
    case InFrame(page) => page.own && page.path in site.byPath && (page.hash == "" || IsHash(page.hash))
    case _ => true
  }

  lemma SameQuery(query: Query, item: Item, symbol: Option<Symbol>)
    requires |query.packages| == 1 && query.packages[0] == item.name
    requires |query.symbols| == (if symbol.Some? then 1 else 0) && (symbol.None? || query.symbols[0] == symbol.value.name)
    ensures query == QueryOf(item, symbol)
  {
  }

  lemma HashKept(site: Site, r: Request)
    requires WellFormed(site) && Valid(site, r)
    ensures RequestUrl(r).hash == "" || IsHash(RequestUrl(r).hash)
  {
    if r.symbol.Some? {
      assert SymbolRight(site, LowerCase(r.symbol.value.name));
    }
  }

  /** One entry for a new package or symbol, in place of those ahead; none for the present one. */
  predicate PushedOnce(entries: seq<Query>, current: nat, entries': seq<Query>, current': nat, query: Query) {
    current < |entries| &&
    if entries[current] == query then entries' == entries && current' == current
    else entries' == entries[..current + 1] + [query] && current' == current + 1
  }
}
