/** The Merkle check that a header listing covers a pinned Git subtree completely. */
module TreeProof {
  import opened Texts
  import opened GitTree

  const TREE_MODE := "040000"
  const CORE := "modules" + "/" + "core"
  const INCLUDE := CORE + "/" + "include"
  const SUBTREE := INCLUDE + "/" + "opencv2"

  /** One non-tree entry with its full path. */
  datatype Listed = Listed(mode: string, id: string, path: string)

  datatype ProofTree = ProofTree(sha: string, entries: seq<Entry>)
  type Proof = map<string, ProofTree>

  // ----- the check

  ghost function Longest(paths: set<string>): (n: nat)
    ensures forall p :: p in paths ==> |p| <= n
  {
    if paths == {} then 0
    else
      var p :| p in paths;
      var rest := Longest(paths - {p});
      if |p| > rest then |p| else rest
  }

  /** The nested descend: it needs no assumption on the proof map to terminate, since every
      recursive call names a recorded path longer than the one before. */
  function Descend(proof: Proof, path: string, entries: seq<Entry>): Option<seq<Listed>>
    decreases Longest(proof.Keys) - |path|, |entries|
  {
    if entries == [] then Some([])
    else
      var e, child := entries[0], path + "/" + entries[0].name;
      var first := if e.mode != TREE_MODE then Some([Listed(e.mode, e.id, child)])
                   else if child in proof then Descend(proof, child, proof[child].entries)
                   else None;
      match (first, Descend(proof, path, entries[1..]))
      case (Some(here), Some(rest)) => Some(here + rest)
      case _ => None
  }

  predicate Connected(proof: Proof, path: string)
    requires path in proof
  {
    var (parent, name) := RPartition(path);
    parent in proof && Entry(TREE_MODE, proof[path].sha, name) in proof[parent].entries
  }

  predicate Authentic(digest: string -> string, proof: Proof, path: string)
    requires path in proof
  {
    TreeHash(digest, proof[path].entries) == Some(proof[path].sha) && (path != "" ==> Connected(proof, path))
  }

  predicate Rooted(digest: string -> string, proof: Proof, pin: string) {
    (forall path :: path in proof ==> Authentic(digest, proof, path)) && "" in proof && proof[""].sha == pin
  }

  predicate Accepts(digest: string -> string, proof: Proof, listing: seq<Listed>, pin: string) {
    Rooted(digest, proof, pin) && SUBTREE in proof &&
    var expected := Descend(proof, SUBTREE, proof[SUBTREE].entries);
    expected.Some? && multiset(expected.value) == multiset(listing)
  }

  /** What the descent into entries adds to an accumulated list. */
  function Extended(all: seq<Listed>, found: Option<seq<Listed>>): Option<seq<Listed>> {
    match found
    case Some(more) => Some(all + more)
    case None => None
  }

  function DescendEntry(proof: Proof, path: string, e: Entry): Option<seq<Listed>> {
    var child := path + "/" + e.name;
    if e.mode != TREE_MODE then Some([Listed(e.mode, e.id, child)])
    else if child in proof then Descend(proof, child, proof[child].entries)
    else None
  }

  lemma DescendStep(proof: Proof, path: string, entries: seq<Entry>, i: nat, all: seq<Listed>)
    requires i < |entries|
    ensures var here := DescendEntry(proof, path, entries[i]);
            Extended(all, Descend(proof, path, entries[i..])) ==
            if here.None? then None else Extended(all + here.value, Descend(proof, path, entries[i + 1..]))
  {
    assert entries[i..][1..] == entries[i + 1..] && entries[i..][0] == entries[i];
    var here, rest := DescendEntry(proof, path, entries[i]), Descend(proof, path, entries[i + 1..]);
    if here.Some? && rest.Some? {
      assert all + (here.value + rest.value) == (all + here.value) + rest.value;
    }
  }

  method DescendInto(proof: Proof, path: string, expected: seq<Listed>) returns (r: Option<seq<Listed>>)
    requires path in proof
    ensures r == Extended(expected, Descend(proof, path, proof[path].entries))
    decreases Longest(proof.Keys) - |path|
  {
    var entries, all := proof[path].entries, expected;
    ghost var whole := Extended(expected, Descend(proof, path, entries));
    assert entries[0..] == entries;
    for i := 0 to |entries|
      invariant whole == Extended(all, Descend(proof, path, entries[i..]))
    {
      var e := entries[i];
      var child := path + "/" + e.name;
      DescendStep(proof, path, entries, i, all);
      if e.mode == TREE_MODE {
        if child !in proof {
          return None;
        }
        var deeper := DescendInto(proof, child, all);
        match deeper {
          case None => return None;
          case Some(longer) => all := longer;
        }
      } else {
        all := all + [Listed(e.mode, e.id, child)];
      }
    }
    assert all + [] == all;
    return Some(all);
  }

  /** Every failure of the program (its own and the missing-key ones) is a rejection. */
  method CheckTreeProof(digest: string -> string, proof: Proof, listing: seq<Listed>, pin: string)
    returns (accepted: bool)
    ensures accepted == Accepts(digest, proof, listing, pin)
  {
    var pending := proof.Keys;
    while pending != {}
      invariant pending <= proof.Keys
      invariant forall path :: path in proof && path !in pending ==> Authentic(digest, proof, path)
    {
      var path :| path in pending;
      var sha := GitTreeHash(digest, proof[path].entries);
      if sha != Some(proof[path].sha) {
        return false;
      }
      if path != "" {
        var (parent, name) := RPartition(path);
        if parent !in proof || Entry(TREE_MODE, proof[path].sha, name) !in proof[parent].entries {
          return false;
        }
      }
      pending := pending - {path};
    }
    if "" !in proof || proof[""].sha != pin || SUBTREE !in proof {
      return false;
    }
    var expected := DescendInto(proof, SUBTREE, []);
    match expected {
      case None => return false;
      case Some(entries) =>
        assert [] + Descend(proof, SUBTREE, proof[SUBTREE].entries).value == entries;
        return multiset(entries) == multiset(listing);
    }
  }

  // ----- the pinned tree itself

  /** A Git object as the census sees it: a tree, or anything else with its identifier. */
  datatype Object = Leaf(id: string) | Tree(children: seq<Child>)
  datatype Child = Child(mode: string, name: string, content: Object)

  ghost function Id(digest: string -> string, o: Object): string {
    match o
    case Leaf(id) => id
    case Tree(children) => TreeHash(digest, Spell(digest, children)).GetOr("")
  }

  ghost function Spell(digest: string -> string, children: seq<Child>): (r: seq<Entry>)
    ensures |r| == |children|
    ensures forall i :: 0 <= i < |r| ==>
              r[i] == Entry(children[i].mode, Id(digest, children[i].content), children[i].name)
  {
    if children == [] then []
    else [Entry(children[0].mode, Id(digest, children[0].content), children[0].name)] + Spell(digest, children[1..])
  }

  ghost predicate NameInTree(name: string) {
    name != "" && '/' !in name && '\0' !in name
  }

  /** What Git guarantees of a tree it stores. */
  ghost predicate WellFormed(o: Object) {
    match o
    case Leaf(id) => IsDigest(id)
    case Tree(children) =>
      (forall i :: 0 <= i < |children| ==>
                     NameInTree(children[i].name) && CanonicalMode(children[i].mode) &&
                     (if children[i].content.Tree? then children[i].mode == TREE_MODE else children[i].mode[0] == '1')) &&
      (forall i, j :: 0 <= i < j < |children| ==> children[i].name != children[j].name) &&
      (forall i :: 0 <= i < |children| ==> WellFormed(children[i].content))
  }

  ghost function Find(children: seq<Child>, name: string): Option<Object> {
    if children == [] then None
    else if children[0].name == name then Some(children[0].content)
    else Find(children[1..], name)
  }

  /** The object at a path of the pinned tree. */
  ghost function Locate(root: Object, path: string): Option<Object>
    decreases |path|
  {
    if path == "" then Some(root)
    else
      var (parent, name) := RPartition(path);
      match Locate(root, parent)
      case Some(Tree(children)) => Find(children, name)
      case _ => None
  }

  ghost predicate TreeAt(root: Object, path: string) {
    var o := Locate(root, path);
    o.Some? && o.value.Tree?
  }

  ghost function ChildrenAt(root: Object, path: string): seq<Child>
    requires TreeAt(root, path)
  {
    Locate(root, path).value.children
  }

  /** All non-tree entries below children, with their paths: the truth the listing must cover. */
  ghost function Census(children: seq<Child>, path: string): seq<Listed> {
    if children == [] then []
    else
      var c, place := children[0], path + "/" + children[0].name;
      (match c.content
       case Tree(grandchildren) => Census(grandchildren, place)
       case Leaf(id) => [Listed(c.mode, id, place)]) + Census(children[1..], path)
  }

  ghost predicate HexDigests(digest: string -> string) {
    forall s :: IsDigest(digest(s))
  }

  /** No recorded tree is a second preimage of a tree of the pinned one. */
  ghost predicate NoCollision(digest: string -> string, proof: Proof, root: Object) {
    forall path, place :: path in proof && TreeAt(root, place) &&
                           proof[path].sha == Id(digest, Locate(root, place).value) ==>
                             Payload(proof[path].entries) == Payload(Spell(digest, ChildrenAt(root, place)))
  }

  /** The trees recorded on the way to a path can be decoded. */
  ghost predicate DecodableAbove(proof: Proof, path: string)
    decreases |path|
  {
    path == "" ||
    var parent := RPartition(path).0;
    parent in proof && AllDecodable(proof[parent].entries) && DecodableAbove(proof, parent)
  }

  /** The bytes in front of the identifier of a directory. */
  function DirectoryText(name: string): string {
    "40000 " + name + "\0"
  }

  ghost predicate Cut(payload: Option<string>, front: string, text: string, behind: string) {
    payload == Some(front + text + behind)
  }

  ghost predicate EntryBegins(entries: seq<Entry>, front: string) {
    exists i: nat :: i <= |entries| && Payload(entries[..i]) == Some(front)
  }

  /** In the payload of a true tree, the text that names a directory stands at the beginning of entries only. */
  ghost predicate Unmistaken(digest: string -> string, children: seq<Child>, name: string) {
    forall front, behind ::
      Cut(Payload(Spell(digest, children)), front, DirectoryText(name), behind) ==> EntryBegins(Spell(digest, children), front)
  }

  /** On the way to a path, every recorded tree can be decoded or the true one cannot be mistaken. */
  ghost predicate Sure(digest: string -> string, proof: Proof, root: Object, path: string)
    decreases |path|
  {
    path == "" ||
    var (parent, name) := RPartition(path);
    parent in proof && Sure(digest, proof, root, parent) &&
    (AllDecodable(proof[parent].entries) ||
     ('\0' !in name && TreeAt(root, parent) && Unmistaken(digest, ChildrenAt(root, parent), name)))
  }

  /** A proof that passed the hash and connection checks against a genuine pinned tree. */
  ghost predicate Setting(digest: string -> string, proof: Proof, root: Object) {
    root.Tree? && WellFormed(root) && HexDigests(digest) &&
    NoCollision(digest, proof, root) && Rooted(digest, proof, Id(digest, root))
  }

  // ----- every recorded tree is the tree at its path

  lemma {:induction false} FindIndex(children: seq<Child>, i: nat)
    requires i < |children|
    requires forall j, k :: 0 <= j < k < |children| ==> children[j].name != children[k].name
    ensures Find(children, children[i].name) == Some(children[i].content)
  {
    if i > 0 {
      assert children[0].name != children[i].name;
      FindIndex(children[1..], i - 1);
    }
  }

  lemma SpellCanonicalAt(digest: string -> string, children: seq<Child>, i: nat)
    requires WellFormed(Tree(children)) && HexDigests(digest) && i < |children|
    ensures Canonical(Spell(digest, children)[i]) && Decodable(Spell(digest, children)[i])
  {
    WellFormedChild(children, i);
    SpelledCanonical(digest, children[i], Spell(digest, children)[i]);
  }

  lemma SpelledCanonical(digest: string -> string, c: Child, e: Entry)
    requires WellFormed(c.content) && HexDigests(digest) && NameInTree(c.name) && CanonicalMode(c.mode)
    requires e == Entry(c.mode, Id(digest, c.content), c.name)
    ensures Canonical(e) && Decodable(e)
  {
    IdIsDigest(digest, c.content);
    DigestDecodes(e.id);
    CanonicalModeSpaceFree(e.mode);
  }

  lemma DigestDecodes(id: string)
    requires IsDigest(id)
    ensures FromHex(id).Some? && |FromHex(id).value| == ID_BYTES
  {
    FromHexLower(id);
  }

  lemma SpellCanonical(digest: string -> string, children: seq<Child>)
    requires WellFormed(Tree(children)) && HexDigests(digest)
    ensures AllDecodable(Spell(digest, children))
  {
    forall i | 0 <= i < |children|
      ensures Decodable(Spell(digest, children)[i])
    {
      SpellCanonicalAt(digest, children, i);
    }
  }

  lemma WellFormedChild(children: seq<Child>, i: nat)
    requires WellFormed(Tree(children)) && i < |children|
    ensures NameInTree(children[i].name) && CanonicalMode(children[i].mode)
    ensures children[i].mode == TREE_MODE <==> children[i].content.Tree?
    ensures WellFormed(children[i].content)
  {
  }

  lemma CanonicalModeSpaceFree(mode: string)
    requires CanonicalMode(mode)
    ensures ' ' !in mode
  {
  }

  lemma {:induction false} IdIsDigest(digest: string -> string, o: Object)
    requires WellFormed(o) && HexDigests(digest)
    ensures IsDigest(Id(digest, o))
    decreases o, 1
  {
    match o
    case Leaf(_) =>
    case Tree(children) =>
      IdsDecode(digest, children);
  }

  lemma {:induction false} IdsDecode(digest: string -> string, children: seq<Child>)
    requires HexDigests(digest)
    requires forall i :: 0 <= i < |children| ==> WellFormed(children[i].content)
    ensures Payload(Spell(digest, children)).Some?
    decreases children, 0
  {
    if children == [] {
    } else {
      IdIsDigest(digest, children[0].content);
      FromHexLower(Id(digest, children[0].content));
      IdsDecode(digest, children[1..]);
      assert Spell(digest, children)[1..] == Spell(digest, children[1..]);
    }
  }

  /** Entries with one another's payload agree on mode value, name and identifier bytes. */
  lemma NormalAt(a: seq<Entry>, b: seq<Entry>, i: nat)
    requires NormalList(a) == NormalList(b) && i < |a|
    ensures |a| == |b| && Normal(a[i]) == Normal(b[i])
  {
    assert |a| == |NormalList(a)| == |NormalList(b)| == |b|;
    assert NormalList(a)[i] == Normal(a[i]) && NormalList(b)[i] == Normal(b[i]);
  }

  /** Recorded under the identifier of a pinned tree means having that tree's payload. */
  lemma SamePayload(digest: string -> string, proof: Proof, root: Object, path: string, place: string)
    requires Setting(digest, proof, root) && path in proof
    requires TreeAt(root, place) && WellFormed(Locate(root, place).value)
    requires proof[path].sha == Id(digest, Locate(root, place).value)
    ensures Payload(proof[path].entries) == Payload(Spell(digest, ChildrenAt(root, place)))
    ensures AllDecodable(proof[path].entries) ==>
              NormalList(proof[path].entries) == NormalList(Spell(digest, ChildrenAt(root, place)))
  {
    SpellCanonical(digest, ChildrenAt(root, place));
    if AllDecodable(proof[path].entries) {
      PayloadInjective(proof[path].entries, Spell(digest, ChildrenAt(root, place)));
    }
  }

  lemma {:induction false} Located(digest: string -> string, proof: Proof, root: Object, path: string)
    requires Setting(digest, proof, root) && path in proof && Sure(digest, proof, root, path)
    ensures TreeAt(root, path) && WellFormed(Locate(root, path).value)
    ensures proof[path].sha == Id(digest, Locate(root, path).value)
    ensures Payload(proof[path].entries) == Payload(Spell(digest, ChildrenAt(root, path)))
    ensures AllDecodable(proof[path].entries) ==>
              NormalList(proof[path].entries) == NormalList(Spell(digest, ChildrenAt(root, path)))
    decreases |path|
  {
    if path == "" {
    } else {
      var (parent, name) := RPartition(path);
      assert Authentic(digest, proof, path) && Connected(proof, path);
      Located(digest, proof, root, parent);
      LocatedBelow(digest, proof, root, path);
    }
    SamePayload(digest, proof, root, path, path);
  }

  lemma LocatedBelow(digest: string -> string, proof: Proof, root: Object, path: string)
    requires HexDigests(digest) && path in proof && path != "" && Authentic(digest, proof, path)
    requires var parent := RPartition(path).0;
             parent in proof && TreeAt(root, parent) && WellFormed(Locate(root, parent).value) &&
             Payload(proof[parent].entries) == Payload(Spell(digest, ChildrenAt(root, parent)))
    requires Sure(digest, proof, root, path)
    ensures TreeAt(root, path) && WellFormed(Locate(root, path).value)
    ensures proof[path].sha == Id(digest, Locate(root, path).value)
  {
    var (parent, name) := RPartition(path);
    RecordedDigest(digest, proof, path);
    SpellCanonical(digest, ChildrenAt(root, parent));
    var o: Object;
    if AllDecodable(proof[parent].entries) {
      PayloadInjective(proof[parent].entries, Spell(digest, ChildrenAt(root, parent)));
      o := ChildNamed(digest, proof[parent].entries, ChildrenAt(root, parent), proof[path].sha, name);
    } else {
      o := ChildCut(digest, proof[parent].entries, ChildrenAt(root, parent), proof[path].sha, name);
    }
    assert Locate(root, path) == Some(o);
  }

  lemma {:induction false} PayloadJoin(a: seq<Entry>, b: seq<Entry>)
    ensures Payload(a + b) == match (Payload(a), Payload(b)) { case (Some(x), Some(y)) => Some(x + y) case _ => None }
  {
    if a == [] {
      assert a + b == b;
      if Payload(b).Some? {
        assert "" + Payload(b).value == Payload(b).value;
      }
    } else {
      PayloadJoin(a[1..], b);
      assert (a + b)[0] == a[0] && (a + b)[1..] == a[1..] + b;
      if EntryBytes(a[0]).Some? && Payload(a[1..]).Some? && Payload(b).Some? {
        ThreeParts(EntryBytes(a[0]).value, Payload(a[1..]).value, Payload(b).value);
      }
    }
  }

  lemma ThreeParts(a: string, b: string, c: string)
    ensures a + (b + c) == a + b + c
  {
  }

  /** Where an entry of a directory stands in the payload. */
  lemma DirectoryCut(recorded: seq<Entry>, j: nat, sha: string, name: string) returns (front: string, tail: string)
    requires j < |recorded| && recorded[j] == Entry(TREE_MODE, sha, name) && Payload(recorded).Some? && FromHex(sha).Some?
    ensures Cut(Payload(recorded), front, DirectoryText(name), FromHex(sha).value + tail)
  {
    assert recorded == recorded[..j] + recorded[j..];
    PayloadJoin(recorded[..j], recorded[j..]);
    assert recorded[j..][0] == recorded[j] && recorded[j..][1..] == recorded[j + 1..];
    front, tail := Payload(recorded[..j]).value, Payload(recorded[j + 1..]).value;
    DirectoryBytes(sha, name);
    FourParts(front, DirectoryText(name), FromHex(sha).value, tail);
  }

  lemma DirectoryBytes(sha: string, name: string)
    requires FromHex(sha).Some?
    ensures EntryBytes(Entry(TREE_MODE, sha, name)) == Some(DirectoryText(name) + FromHex(sha).value)
  {
    assert TREE_MODE[1..] == "40000";
    assert StripZeros(TREE_MODE) == "40000";
    assert "40000" + " " == "40000 ";
  }

  lemma FourParts(a: string, b: string, c: string, d: string)
    ensures a + (b + c + d) == a + b + (c + d)
  {
  }

  /** What follows the front of a payload is the payload of the entries behind. */
  lemma BehindCut(entries: seq<Entry>, i: nat, front: string, behind: string)
    requires i <= |entries| && Payload(entries) == Some(front + behind) && Payload(entries[..i]) == Some(front)
    ensures Payload(entries[i..]) == Some(behind)
  {
    assert entries == entries[..i] + entries[i..];
    PayloadJoin(entries[..i], entries[i..]);
    var rest := Payload(entries[i..]).value;
    assert (front + rest)[|front|..] == rest && (front + behind)[|front|..] == behind;
  }

  lemma TextRegrouped(name: string, id: string, tail: string)
    ensures DirectoryText(name) + (id + tail) == "40000" + " " + name + "\0" + id + tail
  {
    assert "40000" + " " == "40000 ";
  }

  lemma DirectoryDecodes(name: string, id: string, tail: string, payload: string)
    requires '\0' !in name && |id| == ID_BYTES && payload == DirectoryText(name) + (id + tail) && Decode(payload).Some?
    ensures Decode(payload).value != [] && Decode(payload).value[0] == Stored("40000", name, id)
  {
    TextRegrouped(name, id, tail);
    DecodeFirst("40000", name, id, tail, payload);
  }

  lemma DirectoryNormal(sha: string, name: string)
    requires FromHex(sha).Some?
    ensures Normal(Entry(TREE_MODE, sha, name)) == Stored("40000", name, FromHex(sha).value)
  {
    assert TREE_MODE[1..] == "40000";
  }

  /** The first entry of a payload that begins with a directory. */
  lemma {:induction false} FirstDirectory(entries: seq<Entry>, sha: string, name: string, tail: string)
    requires AllDecodable(entries) && IsDigest(sha) && '\0' !in name && FromHex(sha).Some?
    requires Payload(entries) == Some(DirectoryText(name) + (FromHex(sha).value + tail))
    ensures entries != [] && Normal(entries[0]) == Normal(Entry(TREE_MODE, sha, name))
  {
    DigestDecodes(sha);
    DecodePayload(entries);
    DirectoryDecodes(name, FromHex(sha).value, tail, Payload(entries).value);
    DirectoryNormal(sha, name);
    FirstNormal(entries);
  }

  lemma FirstNormal(entries: seq<Entry>)
    ensures NormalList(entries) != [] ==> entries != [] && NormalList(entries)[0] == Normal(entries[0])
  {
  }

  lemma BeginsThere(entries: seq<Entry>, front: string, text: string, behind: string) returns (i: nat)
    requires Cut(Payload(entries), front, text, behind) && EntryBegins(entries, front)
    ensures i <= |entries| && Payload(entries[i..]) == Some(text + behind)
  {
    i :| i <= |entries| && Payload(entries[..i]) == Some(front);
    ThreeParts(front, text, behind);
    BehindCut(entries, i, front, text + behind);
  }

  lemma AtBeginning(digest: string -> string, children: seq<Child>, name: string, front: string, behind: string)
    requires Unmistaken(digest, children, name) && Cut(Payload(Spell(digest, children)), front, DirectoryText(name), behind)
    ensures EntryBegins(Spell(digest, children), front)
  {
  }

  /** Where a tree entry stands in the true payload, entries begin, if its text cannot be mistaken. */
  lemma DirectoryBegins(digest: string -> string, recorded: seq<Entry>, children: seq<Child>, sha: string, name: string)
    returns (i: nat, tail: string)
    requires Payload(recorded).Some? && FromHex(sha).Some?
    requires Payload(recorded) == Payload(Spell(digest, children)) && Unmistaken(digest, children, name)
    requires Entry(TREE_MODE, sha, name) in recorded
    ensures i <= |Spell(digest, children)|
    ensures Payload(Spell(digest, children)[i..]) == Some(DirectoryText(name) + (FromHex(sha).value + tail))
  {
    var j :| 0 <= j < |recorded| && recorded[j] == Entry(TREE_MODE, sha, name);
    var front: string;
    front, tail := DirectoryCut(recorded, j, sha, name);
    AtBeginning(digest, children, name, front, FromHex(sha).value + tail);
    i := BeginsThere(Spell(digest, children), front, DirectoryText(name), FromHex(sha).value + tail);
  }

  /** So it names a child. */
  lemma SpelledThere(digest: string -> string, recorded: seq<Entry>, children: seq<Child>, sha: string, name: string)
    returns (i: nat)
    requires WellFormed(Tree(children)) && HexDigests(digest) && IsDigest(sha) && '\0' !in name
    requires Payload(recorded) == Payload(Spell(digest, children)) && Unmistaken(digest, children, name)
    requires Entry(TREE_MODE, sha, name) in recorded
    ensures i < |children| && Spell(digest, children)[i] == Entry(TREE_MODE, sha, name)
  {
    var tail: string;
    SpellCanonical(digest, children);
    SpelledSome(digest, children);
    FromHexLower(sha);
    i, tail := DirectoryBegins(digest, recorded, children, sha, name);
    SuffixDirectory(Spell(digest, children), i, sha, name, tail);
    SpelledAt(digest, children, i, sha, name);
  }

  lemma SpelledSome(digest: string -> string, children: seq<Child>)
    requires AllDecodable(Spell(digest, children))
    ensures Payload(Spell(digest, children)).Some?
  {
    DecodePayload(Spell(digest, children));
  }

  lemma SpelledAt(digest: string -> string, children: seq<Child>, i: nat, sha: string, name: string)
    requires WellFormed(Tree(children)) && HexDigests(digest) && IsDigest(sha) && i < |children|
    requires Normal(Spell(digest, children)[i]) == Normal(Entry(TREE_MODE, sha, name))
    ensures Spell(digest, children)[i] == Entry(TREE_MODE, sha, name)
  {
    SpellCanonicalAt(digest, children, i);
    DirectoryCanonical(sha, name);
    CanonicalNormal(Spell(digest, children)[i], Entry(TREE_MODE, sha, name));
  }

  lemma SuffixDirectory(entries: seq<Entry>, i: nat, sha: string, name: string, tail: string)
    requires AllDecodable(entries) && IsDigest(sha) && '\0' !in name && FromHex(sha).Some? && i <= |entries|
    requires Payload(entries[i..]) == Some(DirectoryText(name) + (FromHex(sha).value + tail))
    ensures i < |entries| && Normal(entries[i]) == Normal(Entry(TREE_MODE, sha, name))
  {
    FirstDirectory(entries[i..], sha, name, tail);
  }

  lemma DirectoryCanonical(sha: string, name: string)
    requires IsDigest(sha)
    ensures Canonical(Entry(TREE_MODE, sha, name))
  {
  }

  lemma ChildCut(digest: string -> string, recorded: seq<Entry>, children: seq<Child>, sha: string, name: string)
    returns (o: Object)
    requires WellFormed(Tree(children)) && HexDigests(digest) && IsDigest(sha) && '\0' !in name
    requires Payload(recorded) == Payload(Spell(digest, children)) && Unmistaken(digest, children, name)
    requires Entry(TREE_MODE, sha, name) in recorded
    ensures Find(children, name) == Some(o) && o.Tree? && WellFormed(o) && Id(digest, o) == sha
  {
    var i := SpelledThere(digest, recorded, children, sha, name);
    WellFormedChild(children, i);
    FindIndex(children, i);
    o := children[i].content;
  }

  /** The tree entry by which a recorded tree hangs below its parent is a child of the parent. */
  lemma ChildNamed(digest: string -> string, recorded: seq<Entry>, children: seq<Child>, sha: string, name: string)
    returns (o: Object)
    requires WellFormed(Tree(children)) && HexDigests(digest) && IsDigest(sha)
    requires NormalList(recorded) == NormalList(Spell(digest, children))
    requires Entry(TREE_MODE, sha, name) in recorded
    ensures Find(children, name) == Some(o) && o.Tree? && WellFormed(o) && Id(digest, o) == sha
  {
    var i :| 0 <= i < |recorded| && recorded[i] == Entry(TREE_MODE, sha, name);
    o := TreeEntryChild(digest, recorded, children, i);
  }

  lemma TreeEntryChild(digest: string -> string, recorded: seq<Entry>, children: seq<Child>, i: nat) returns (o: Object)
    requires WellFormed(Tree(children)) && HexDigests(digest)
    requires NormalList(recorded) == NormalList(Spell(digest, children))
    requires i < |recorded| && recorded[i].mode == TREE_MODE && IsDigest(recorded[i].id)
    ensures Find(children, recorded[i].name) == Some(o) && o.Tree? && WellFormed(o) && Id(digest, o) == recorded[i].id
  {
    EntryNamesChild(digest, recorded, children, i);
    WellFormedChild(children, i);
    FindIndex(children, i);
    o := children[i].content;
  }

  lemma RecordedDigest(digest: string -> string, proof: Proof, path: string)
    requires HexDigests(digest) && path in proof && Authentic(digest, proof, path)
    ensures IsDigest(proof[path].sha)
  {
  }

  /** A canonically spelled tree entry of a recorded tree is the child of that name. */
  lemma EntryNamesChild(digest: string -> string, recorded: seq<Entry>, children: seq<Child>, i: nat)
    requires WellFormed(Tree(children)) && HexDigests(digest)
    requires NormalList(recorded) == NormalList(Spell(digest, children))
    requires i < |recorded| && Canonical(recorded[i])
    ensures i < |children| && recorded[i] == Spell(digest, children)[i]
    ensures recorded[i].name == children[i].name && recorded[i].id == Id(digest, children[i].content)
    ensures recorded[i].mode == TREE_MODE <==> children[i].content.Tree?
  {
    NormalAt(recorded, Spell(digest, children), i);
    SpellCanonicalAt(digest, children, i);
    CanonicalNormal(recorded[i], Spell(digest, children)[i]);
    WellFormedChild(children, i);
  }

  // ----- the census is exact precisely on plain spellings

  /** Every entry the descent meets is spelled with a six-digit mode, a lower-case identifier and a
      name without NUL. */
  predicate VisitedPlain(proof: Proof, path: string, entries: seq<Entry>)
    decreases Longest(proof.Keys) - |path|, |entries|
  {
    entries == [] ||
    (Plain(entries[0]) &&
     (entries[0].mode == TREE_MODE ==>
        var child := path + "/" + entries[0].name;
        child in proof && VisitedPlain(proof, child, proof[child].entries)) &&
     VisitedPlain(proof, path, entries[1..]))
  }

  lemma {:induction false} VisitedDecodes(proof: Proof, path: string, entries: seq<Entry>)
    requires VisitedPlain(proof, path, entries)
    ensures AllDecodable(entries) && forall e :: e in entries ==> Plain(e)
    decreases |entries|
  {
    if entries == [] {
    } else {
      PlainDecodes(entries[0]);
      VisitedDecodes(proof, path, entries[1..]);
      assert entries == [entries[0]] + entries[1..];
    }
  }

  /** What is known of a recorded tree the descent has reached. */
  ghost predicate Reached(digest: string -> string, proof: Proof, root: Object, path: string) {
    Setting(digest, proof, root) && path in proof && Sure(digest, proof, root, path)
  }

  /** And decoded. */
  ghost predicate Decoded(digest: string -> string, proof: Proof, root: Object, path: string) {
    Reached(digest, proof, root, path) && AllDecodable(proof[path].entries)
  }

  predicate CanonicalListed(l: Listed) {
    CanonicalMode(l.mode) && IsDigest(l.id)
  }

  /** The child of a located tree that a canonical tree entry names is located below it. */
  lemma ChildLocated(digest: string -> string, proof: Proof, root: Object, path: string, k: nat)
    requires Decoded(digest, proof, root, path) && k < |proof[path].entries|
    requires Canonical(proof[path].entries[k])
    ensures TreeAt(root, path) && k < |ChildrenAt(root, path)|
    ensures var (e, c) := (proof[path].entries[k], ChildrenAt(root, path)[k]);
            e.name == c.name && e.mode == c.mode && e.id == Id(digest, c.content) &&
            (e.mode == TREE_MODE <==> c.content.Tree?) &&
            Locate(root, path + "/" + e.name) == Some(c.content) && '/' !in e.name
  {
    Located(digest, proof, root, path);
    var children := ChildrenAt(root, path);
    EntryNamesChild(digest, proof[path].entries, children, k);
    WellFormedChild(children, k);
    FindIndex(children, k);
    RPartitionJoin(path, children[k].name);
  }

  lemma ChildReached(digest: string -> string, proof: Proof, root: Object, path: string, name: string)
    requires Decoded(digest, proof, root, path) && '/' !in name && path + "/" + name in proof
    ensures Reached(digest, proof, root, path + "/" + name)
  {
    RPartitionJoin(path, name);
  }

  lemma EntryCount(digest: string -> string, proof: Proof, root: Object, path: string)
    requires Decoded(digest, proof, root, path)
    ensures TreeAt(root, path) && |ChildrenAt(root, path)| == |proof[path].entries|
  {
    Located(digest, proof, root, path);
    assert |proof[path].entries| == |NormalList(proof[path].entries)|;
  }

  ghost function CensusOf(c: Child, path: string): seq<Listed> {
    match c.content
    case Tree(grandchildren) => Census(grandchildren, path + "/" + c.name)
    case Leaf(id) => [Listed(c.mode, id, path + "/" + c.name)]
  }

  lemma CensusStep(children: seq<Child>, path: string, k: nat)
    requires k < |children|
    ensures Census(children[k..], path) == CensusOf(children[k], path) + Census(children[k + 1..], path)
  {
    assert children[k..][0] == children[k] && children[k..][1..] == children[k + 1..];
  }

  lemma VisitedStep(proof: Proof, path: string, entries: seq<Entry>, k: nat)
    requires k < |entries|
    ensures VisitedPlain(proof, path, entries[k..]) <==>
            Plain(entries[k]) &&
            (entries[k].mode == TREE_MODE ==>
               var child := path + "/" + entries[k].name;
               child in proof && VisitedPlain(proof, child, proof[child].entries)) &&
            VisitedPlain(proof, path, entries[k + 1..])
  {
    assert entries[k..][0] == entries[k] && entries[k..][1..] == entries[k + 1..];
  }

  lemma {:induction false} DescendIsCensus(digest: string -> string, proof: Proof, root: Object, path: string, k: nat)
    requires Decoded(digest, proof, root, path) && k <= |proof[path].entries|
    requires VisitedPlain(proof, path, proof[path].entries[k..])
    ensures TreeAt(root, path) && |ChildrenAt(root, path)| == |proof[path].entries|
    ensures Descend(proof, path, proof[path].entries[k..]) == Some(Census(ChildrenAt(root, path)[k..], path))
    decreases Longest(proof.Keys) - |path|, |proof[path].entries| - k
  {
    EntryCount(digest, proof, root, path);
    if k < |proof[path].entries| {
      VisitedStep(proof, path, proof[path].entries, k);
      DescendIsCensus(digest, proof, root, path, k + 1);
      EntryIsCensus(digest, proof, root, path, k);
      DescendStep(proof, path, proof[path].entries, k, []);
      CensusStep(ChildrenAt(root, path), path, k);
    }
  }

  lemma {:induction false} EntryIsCensus(digest: string -> string, proof: Proof, root: Object, path: string, k: nat)
    requires Decoded(digest, proof, root, path) && k < |proof[path].entries|
    requires Canonical(proof[path].entries[k])
    requires var e := proof[path].entries[k];
             e.mode == TREE_MODE ==>
               path + "/" + e.name in proof &&
               VisitedPlain(proof, path + "/" + e.name, proof[path + "/" + e.name].entries)
    ensures TreeAt(root, path) && k < |ChildrenAt(root, path)|
    ensures DescendEntry(proof, path, proof[path].entries[k]) == Some(CensusOf(ChildrenAt(root, path)[k], path))
    decreases Longest(proof.Keys) - |path|, |proof[path].entries| - k, 0
  {
    ChildLocated(digest, proof, root, path, k);
    var e, c := proof[path].entries[k], ChildrenAt(root, path)[k];
    if e.mode == TREE_MODE {
      var child := path + "/" + e.name;
      ChildReached(digest, proof, root, path, e.name);
      VisitedDecodes(proof, child, proof[child].entries);
      assert proof[child].entries[0..] == proof[child].entries;
      DescendIsCensus(digest, proof, root, child, 0);
      assert c.content.children[0..] == c.content.children;
    }
  }

  // ----- conversely, an exact listing leaves room for no other spelling

  /** p lies under path. */
  predicate Under(p: string, path: string) {
    |path| < |p| && p[..|path|] == path && p[|path|] == '/'
  }

  lemma UnderJoin(path: string, a: string, b: string)
    ensures path + "/" + a == path + "/" + b <==> a == b
    ensures Under(path + "/" + a, path + "/" + b) <==> Under(a, b)
    ensures Under(path + "/" + a, path)
  {
    var p, q := path + "/" + a, path + "/" + b;
    assert p[|path| + 1..] == a && q[|path| + 1..] == b;
    if Under(a, b) {
      assert p[..|q|] == path + "/" + a[..|b|];
    }
    if Under(p, q) {
      assert a[..|b|] == p[..|q|][|path| + 1..] == b;
    }
  }

  lemma UnderTwice(p: string, path: string, name: string)
    requires Under(p, path + "/" + name)
    ensures Under(p, path)
  {
    var front := path + "/" + name;
    assert p[..|path|] == p[..|front|][..|path|];
    assert p[|path|] == p[..|front|][|path|];
  }

  /** Two directories above one path are one, or one lies under the other. */
  lemma UnderBoth(p: string, a: string, b: string)
    requires Under(p, a) && Under(p, b)
    ensures a == b || Under(a, b) || Under(b, a)
  {
    if |a| < |b| {
      assert a == b[..|a|];
      assert p[..|b|][|a|] == p[|a|];
    } else if |b| < |a| {
      assert b == a[..|b|];
      assert p[..|a|][|b|] == p[|b|];
    }
  }

  lemma NotUnder(name: string, path: string)
    requires '/' !in name
    ensures !Under(name, path)
  {
  }

  /** What a listed path tells of the entry it comes from. */
  ghost predicate ComesFrom(l: Listed, path: string, e: Entry) {
    if e.mode == TREE_MODE then Under(l.path, path + "/" + e.name)
    else l == Listed(e.mode, e.id, path + "/" + e.name)
  }

  lemma {:induction false} DescendUnder(proof: Proof, path: string, entries: seq<Entry>)
    requires Descend(proof, path, entries).Some?
    ensures forall l :: l in Descend(proof, path, entries).value ==> Under(l.path, path)
    decreases Longest(proof.Keys) - |path|, |entries|
  {
    if entries == [] {
    } else {
      var e, child := entries[0], path + "/" + entries[0].name;
      DescendUnder(proof, path, entries[1..]);
      UnderJoin(path, e.name, e.name);
      if e.mode == TREE_MODE {
        DescendUnder(proof, child, proof[child].entries);
        forall l | l in Descend(proof, child, proof[child].entries).value
          ensures Under(l.path, path)
        {
          UnderTwice(l.path, path, e.name);
        }
      }
    }
  }

  lemma EntryUnder(proof: Proof, path: string, e: Entry, l: Listed)
    requires DescendEntry(proof, path, e).Some? && l in DescendEntry(proof, path, e).value
    ensures ComesFrom(l, path, e)
  {
    if e.mode == TREE_MODE {
      DescendUnder(proof, path + "/" + e.name, proof[path + "/" + e.name].entries);
    }
  }

  /** Everything listed comes from one of the entries. */
  lemma {:induction false} FromEntry(proof: Proof, path: string, entries: seq<Entry>, l: Listed) returns (k: nat)
    requires Descend(proof, path, entries).Some? && l in Descend(proof, path, entries).value
    ensures k < |entries| && DescendEntry(proof, path, entries[k]).Some?
    ensures l in DescendEntry(proof, path, entries[k]).value
    decreases |entries|
  {
    if l in DescendEntry(proof, path, entries[0]).value {
      k := 0;
    } else {
      k := FromEntry(proof, path, entries[1..], l);
      k := k + 1;
    }
  }

  lemma {:induction false} EntryListed(proof: Proof, path: string, entries: seq<Entry>, k: nat)
    requires Descend(proof, path, entries).Some? && k < |entries|
    ensures DescendEntry(proof, path, entries[k]).Some?
    ensures forall l :: l in DescendEntry(proof, path, entries[k]).value ==> l in Descend(proof, path, entries).value
    decreases |entries|
  {
    if k > 0 {
      EntryListed(proof, path, entries[1..], k - 1);
    }
  }

  // ----- the census

  /** No directory is empty. */
  ghost predicate Populated(o: Object) {
    match o
    case Leaf(_) => true
    case Tree(children) => children != [] && forall i :: 0 <= i < |children| ==> Populated(children[i].content)
  }

  ghost predicate TrueListed(l: Listed) {
    CanonicalListed(l) && l.mode[0] == '1' && '\0' !in l.path
  }

  lemma CensusHas(children: seq<Child>, path: string, i: nat)
    requires i < |children|
    ensures forall l :: l in CensusOf(children[i], path) ==> l in Census(children, path)
  {
    CensusSuffix(children, path, 0, i);
    assert children[0..] == children;
    CensusStep(children, path, i);
  }

  lemma {:induction false} CensusSuffix(children: seq<Child>, path: string, a: nat, b: nat)
    requires a <= b <= |children|
    ensures forall l :: l in Census(children[b..], path) ==> l in Census(children[a..], path)
    decreases b - a
  {
    if a < b {
      CensusSuffix(children, path, a + 1, b);
      CensusStep(children, path, a);
    }
  }

  lemma {:induction false} CensusUnder(children: seq<Child>, path: string)
    ensures forall l :: l in Census(children, path) ==> Under(l.path, path)
  {
    if children == [] {
    } else {
      var c, place := children[0], path + "/" + children[0].name;
      UnderJoin(path, c.name, c.name);
      if c.content.Tree? {
        CensusUnder(c.content.children, place);
        forall l | l in Census(c.content.children, place)
          ensures Under(l.path, path)
        {
          UnderTwice(l.path, path, c.name);
        }
      }
      CensusUnder(children[1..], path);
    }
  }

  lemma {:induction false} PopulatedShows(o: Object, path: string) returns (l: Listed)
    requires o.Tree? && Populated(o)
    ensures l in Census(o.children, path)
    decreases o
  {
    var c, place := o.children[0], path + "/" + o.children[0].name;
    assert Populated(c.content);
    if c.content.Tree? {
      l := PopulatedShows(c.content, place);
    } else {
      l := Listed(c.mode, c.content.id, place);
    }
  }

  lemma {:induction false} CensusTrue(children: seq<Child>, path: string)
    requires '\0' !in path && forall i :: 0 <= i < |children| ==>
               NameInTree(children[i].name) && CanonicalMode(children[i].mode) && WellFormed(children[i].content) &&
               (children[i].content.Leaf? ==> children[i].mode[0] == '1')
    ensures forall l :: l in Census(children, path) ==> TrueListed(l)
  {
    if children == [] {
    } else {
      var c, place := children[0], path + "/" + children[0].name;
      assert WellFormed(c.content);
      if c.content.Tree? {
        CensusTrue(c.content.children, place);
      }
      CensusTrue(children[1..], path);
    }
  }

  // ----- weighing payloads

  function SumTo(ws: seq<nat>, n: nat): nat
    requires n <= |ws|
  {
    if n == 0 then 0 else SumTo(ws, n - 1) + ws[n - 1]
  }

  function Weight(e: Entry): nat {
    |EntryBytes(e).GetOr("")|
  }

  function Weights(entries: seq<Entry>): (ws: seq<nat>)
    ensures |ws| == |entries| && forall i :: 0 <= i < |ws| ==> ws[i] == Weight(entries[i])
  {
    seq(|entries|, i requires 0 <= i < |entries| => Weight(entries[i]))
  }

  lemma {:induction false} PayloadWeighs(entries: seq<Entry>, k: nat)
    requires k <= |entries| && Payload(entries[k..]).Some?
    ensures SumTo(Weights(entries), |entries|) == SumTo(Weights(entries), k) + |Payload(entries[k..]).value|
    ensures forall j :: k <= j < |entries| ==> EntryBytes(entries[j]).Some?
    decreases |entries| - k
  {
    if k < |entries| {
      assert entries[k..][0] == entries[k] && entries[k..][1..] == entries[k + 1..];
      PayloadWeighs(entries, k + 1);
    }
  }

  /** The sum of the weights whose place is in s. */
  ghost function SumIn(ws: seq<nat>, s: set<nat>, n: nat): nat
    requires n <= |ws|
  {
    if n == 0 then 0 else SumIn(ws, s, n - 1) + if n - 1 in s then ws[n - 1] else 0
  }

  lemma {:induction false} SumInPart(ws: seq<nat>, s: set<nat>, n: nat)
    requires n <= |ws| && forall j :: 0 <= j < |ws| ==> ws[j] > 0
    ensures SumIn(ws, s, n) <= SumTo(ws, n)
    ensures SumIn(ws, s, n) == SumTo(ws, n) ==> forall j :: 0 <= j < n ==> j in s
  {
    if n > 0 {
      SumInPart(ws, s, n - 1);
    }
  }

  lemma {:induction false} SumInAdd(ws: seq<nat>, s: set<nat>, x: nat, n: nat)
    requires n <= |ws| && x !in s && x < |ws|
    ensures SumIn(ws, s + {x}, n) == SumIn(ws, s, n) + if x < n then ws[x] else 0
  {
    if n > 0 {
      SumInAdd(ws, s, x, n - 1);
    }
  }

  ghost function Image(rho: seq<nat>, n: nat): set<nat>
    requires n <= |rho|
  {
    set i | 0 <= i < n :: rho[i]
  }

  ghost predicate Injective(rho: seq<nat>) {
    forall i, j :: 0 <= i < j < |rho| ==> rho[i] != rho[j]
  }

  /** Different places with at least the weights of others, and with all others' weight together. */
  lemma {:induction false} ImageSum(a: seq<nat>, b: seq<nat>, rho: seq<nat>, n: nat)
    requires |rho| == |b| && Injective(rho) && n <= |b|
    requires forall i :: 0 <= i < |rho| ==> rho[i] < |a| && a[rho[i]] >= b[i]
    ensures SumIn(a, Image(rho, n), |a|) >= SumTo(b, n)
    ensures SumIn(a, Image(rho, n), |a|) == SumTo(b, n) ==> forall i :: 0 <= i < n ==> a[rho[i]] == b[i]
  {
    if n == 0 {
      SumInNothing(a, |a|);
    } else {
      ImageSum(a, b, rho, n - 1);
      assert Image(rho, n) == Image(rho, n - 1) + {rho[n - 1]};
      SumInAdd(a, Image(rho, n - 1), rho[n - 1], |a|);
    }
  }

  lemma {:induction false} SumInNothing(ws: seq<nat>, n: nat)
    requires n <= |ws|
    ensures SumIn(ws, {}, n) == 0
  {
    if n > 0 {
      SumInNothing(ws, n - 1);
    }
  }

  /** Then nothing is left over, and every weight is met exactly. */
  lemma NothingLeftOver(a: seq<nat>, b: seq<nat>, rho: seq<nat>)
    requires |rho| == |b| && Injective(rho) && SumTo(a, |a|) == SumTo(b, |b|)
    requires forall i :: 0 <= i < |rho| ==> rho[i] < |a| && a[rho[i]] >= b[i]
    requires forall j :: 0 <= j < |a| ==> a[j] > 0
    ensures forall i :: 0 <= i < |b| ==> a[rho[i]] == b[i]
    ensures forall j :: 0 <= j < |a| ==> j in Image(rho, |b|)
  {
    ImageSum(a, b, rho, |b|);
    SumInPart(a, Image(rho, |b|), |a|);
  }

  // ----- every child of the true tree has an entry that stands for it

  ghost predicate StandsFor(e: Entry, c: Child, spelled: Entry) {
    (e.name == c.name || Under(e.name, c.name)) && Weight(e) >= Weight(spelled) &&
    (Weight(e) == Weight(spelled) ==> Plain(e) && e.name == c.name)
  }

  /** All that is listed is true of some tree, and all of this tree is listed. */
  ghost predicate Covers(listed: seq<Listed>, children: seq<Child>, path: string) {
    (forall l :: l in listed ==> TrueListed(l)) && (forall l :: l in Census(children, path) ==> l in listed)
  }

  lemma PlainWeight(e: Entry)
    requires Plain(e)
    ensures Weight(e) == |StripZeros(e.mode)| + |e.name| + 22
  {
    FromHexLower(e.id);
  }

  lemma LeafStands(proof: Proof, path: string, entries: seq<Entry>, c: Child, spelled: Entry) returns (j: nat)
    requires Descend(proof, path, entries).Some? && c.content.Leaf? && NameInTree(c.name)
    requires spelled == Entry(c.mode, c.content.id, c.name)
    requires var l := Listed(c.mode, c.content.id, path + "/" + c.name);
             l in Descend(proof, path, entries).value && TrueListed(l)
    ensures j < |entries| && StandsFor(entries[j], c, spelled)
  {
    var l := Listed(c.mode, c.content.id, path + "/" + c.name);
    j := FromEntry(proof, path, entries, l);
    EntryUnder(proof, path, entries[j], l);
    UnderJoin(path, c.name, entries[j].name);
    NotUnder(c.name, entries[j].name);
    UnderJoin(path, c.name, c.name);
    assert '\0' !in c.name by {
      assert forall k :: 0 <= k < |c.name| ==> l.path[|path| + 1 + k] == c.name[k];
    }
  }

  /** Everything above a recorded path is recorded. */
  lemma {:induction false} RecordedAbove(digest: string -> string, proof: Proof, p: string, above: string)
    requires forall q :: q in proof ==> Authentic(digest, proof, q)
    requires p in proof && Under(p, above)
    ensures above in proof
    decreases |p|
  {
    var parent := RPartition(p).0;
    assert Authentic(digest, proof, p) && Connected(proof, p);
    ParentUnder(p, above);
    if parent != above {
      RecordedAbove(digest, proof, parent, above);
    }
  }

  lemma ParentUnder(p: string, above: string)
    requires Under(p, above)
    ensures var parent := RPartition(p).0; |parent| < |p| && (parent == above || Under(parent, above))
  {
    var k := LastIndex(p, '/');
    assert k >= |above|;
    assert p[..k][..|above|] == above;
  }

  /** A recorded directory is spelled out once in its parent. */
  lemma RecordedSpelled(digest: string -> string, proof: Proof, path: string, name: string) returns (j: nat)
    requires HexDigests(digest) && path in proof && '/' !in name && path + "/" + name in proof
    requires Authentic(digest, proof, path + "/" + name)
    ensures j < |proof[path].entries| && proof[path].entries[j].mode == TREE_MODE && proof[path].entries[j].name == name
    ensures IsDigest(proof[path].entries[j].id)
  {
    j := ConnectedEntry(digest, proof, path, name);
  }

  /** A child tree is connected by an entry of its own name. */
  lemma ConnectedEntry(digest: string -> string, proof: Proof, path: string, name: string) returns (j: nat)
    requires path in proof && '/' !in name && path + "/" + name in proof && Authentic(digest, proof, path + "/" + name)
    ensures j < |proof[path].entries| && proof[path].entries[j] == Entry(TREE_MODE, proof[path + "/" + name].sha, name)
  {
    var child, entries := path + "/" + name, proof[path].entries;
    RPartitionJoin(path, name);
    assert Connected(proof, child);
    j :| 0 <= j < |entries| && entries[j] == Entry(TREE_MODE, proof[child].sha, name);
  }

  lemma DirectoryStands(digest: string -> string, proof: Proof, path: string, c: Child, spelled: Entry, l: Listed)
    returns (j: nat)
    requires HexDigests(digest) && path in proof && (forall q :: q in proof ==> Authentic(digest, proof, q))
    requires Descend(proof, path, proof[path].entries).Some? && NameInTree(c.name)
    requires spelled.mode == TREE_MODE && spelled.name == c.name && Plain(spelled)
    requires l in Descend(proof, path, proof[path].entries).value && TrueListed(l) && Under(l.path, path + "/" + c.name)
    ensures j < |proof[path].entries| && StandsFor(proof[path].entries[j], c, spelled)
  {
    var entries := proof[path].entries;
    j := FromEntry(proof, path, entries, l);
    var e := entries[j];
    EntryUnder(proof, path, e, l);
    UnderJoin(path, e.name, c.name);
    UnderJoin(path, c.name, e.name);
    PlainWeight(spelled);
    if e.mode != TREE_MODE {
      LeafWeight(e, path, l);
      assert TREE_MODE[1..] == "40000";
    } else {
      UnderBoth(l.path, path + "/" + e.name, path + "/" + c.name);
      NotUnder(c.name, e.name);
      assert path + "/" + e.name in proof;
      if e.name != c.name {
        RecordedAbove(digest, proof, path + "/" + e.name, path + "/" + c.name);
      }
      j := RecordedSpelled(digest, proof, path, c.name);
      PlainWeight(entries[j]);
    }
  }

  lemma LeafWeight(e: Entry, path: string, l: Listed)
    requires l == Listed(e.mode, e.id, path + "/" + e.name) && TrueListed(l)
    ensures Plain(e) && Weight(e) == |e.name| + 28
  {
    assert forall k :: 0 <= k < |e.name| ==> l.path[|path| + 1 + k] == e.name[k];
    PlainWeight(e);
  }

  lemma ChildStands(digest: string -> string, proof: Proof, path: string, children: seq<Child>, i: nat) returns (j: nat)
    requires HexDigests(digest) && path in proof && (forall q :: q in proof ==> Authentic(digest, proof, q))
    requires WellFormed(Tree(children)) && Populated(Tree(children)) && i < |children|
    requires Descend(proof, path, proof[path].entries).Some?
    requires Covers(Descend(proof, path, proof[path].entries).value, children, path)
    ensures j < |proof[path].entries| && StandsFor(proof[path].entries[j], children[i], Spell(digest, children)[i])
  {
    WellFormedChild(children, i);
    CensusHas(children, path, i);
    if children[i].content.Leaf? {
      j := LeafStands(proof, path, proof[path].entries, children[i], Spell(digest, children)[i]);
    } else {
      j := TreeStands(digest, proof, path, children, i);
    }
  }

  lemma TreeStands(digest: string -> string, proof: Proof, path: string, children: seq<Child>, i: nat) returns (j: nat)
    requires HexDigests(digest) && path in proof && (forall q :: q in proof ==> Authentic(digest, proof, q))
    requires WellFormed(Tree(children)) && Populated(Tree(children)) && i < |children| && children[i].content.Tree?
    requires Descend(proof, path, proof[path].entries).Some?
    requires Covers(Descend(proof, path, proof[path].entries).value, children, path)
    ensures j < |proof[path].entries| && StandsFor(proof[path].entries[j], children[i], Spell(digest, children)[i])
  {
    var c := children[i];
    assert Populated(c.content);
    WellFormedChild(children, i);
    var l := ShownBelow(children, path, i);
    SpellCanonicalAt(digest, children, i);
    j := DirectoryStands(digest, proof, path, c, Spell(digest, children)[i], l);
  }

  /** Something of a directory is in the census, under its name. */
  lemma ShownBelow(children: seq<Child>, path: string, i: nat) returns (l: Listed)
    requires i < |children| && children[i].content.Tree? && Populated(children[i].content)
    ensures l in Census(children, path) && Under(l.path, path + "/" + children[i].name)
  {
    var c := children[i];
    CensusHas(children, path, i);
    l := PopulatedShows(c.content, path + "/" + c.name);
    CensusUnder(c.content.children, path + "/" + c.name);
  }

  lemma StandsForOne(e: Entry, c: Child, d: Child)
    requires '/' !in c.name && '/' !in d.name
    requires e.name == c.name || Under(e.name, c.name)
    requires e.name == d.name || Under(e.name, d.name)
    ensures c.name == d.name
  {
    NotUnder(c.name, d.name);
    NotUnder(d.name, c.name);
    if e.name != c.name && e.name != d.name {
      UnderBoth(e.name, c.name, d.name);
    }
  }

  ghost predicate Standing(digest: string -> string, entries: seq<Entry>, children: seq<Child>, rho: seq<nat>)
    requires |rho| <= |children|
  {
    forall i :: 0 <= i < |rho| ==> rho[i] < |entries| && StandsFor(entries[rho[i]], children[i], Spell(digest, children)[i])
  }

  lemma AllStand(digest: string -> string, proof: Proof, path: string, children: seq<Child>) returns (rho: seq<nat>)
    requires HexDigests(digest) && path in proof && (forall q :: q in proof ==> Authentic(digest, proof, q))
    requires WellFormed(Tree(children)) && Populated(Tree(children))
    requires Descend(proof, path, proof[path].entries).Some?
    requires Covers(Descend(proof, path, proof[path].entries).value, children, path)
    ensures |rho| == |children| && Standing(digest, proof[path].entries, children, rho)
  {
    rho := [];
    for i := 0 to |children|
      invariant |rho| == i && Standing(digest, proof[path].entries, children, rho)
    {
      var j := ChildStands(digest, proof, path, children, i);
      OneMoreStands(digest, proof[path].entries, children, rho, j);
      rho := rho + [j];
    }
  }

  lemma OneMoreStands(digest: string -> string, entries: seq<Entry>, children: seq<Child>, rho: seq<nat>, j: nat)
    requires |rho| < |children| && Standing(digest, entries, children, rho) && j < |entries|
    requires StandsFor(entries[j], children[|rho|], Spell(digest, children)[|rho|])
    ensures Standing(digest, entries, children, rho + [j])
  {
  }

  lemma StandApart(digest: string -> string, entries: seq<Entry>, children: seq<Child>, rho: seq<nat>)
    requires WellFormed(Tree(children)) && |rho| == |children| && Standing(digest, entries, children, rho)
    ensures Injective(rho)
  {
    forall i, j | 0 <= i < j < |rho|
      ensures rho[i] != rho[j]
    {
      WellFormedChild(children, i);
      WellFormedChild(children, j);
      if rho[i] == rho[j] {
        StandsForOne(entries[rho[i]], children[i], children[j]);
      }
    }
  }

  lemma SameWeight(a: seq<Entry>, b: seq<Entry>)
    requires Payload(a).Some? && Payload(a) == Payload(b)
    ensures SumTo(Weights(a), |a|) == SumTo(Weights(b), |b|)
    ensures forall j :: 0 <= j < |a| ==> Weights(a)[j] > 0
  {
    assert a[0..] == a && b[0..] == b;
    PayloadWeighs(a, 0);
    PayloadWeighs(b, 0);
    forall j | 0 <= j < |a|
      ensures Weights(a)[j] > 0
    {
      BytesWeigh(a[j]);
    }
  }

  lemma BytesWeigh(e: Entry)
    requires EntryBytes(e).Some?
    ensures Weight(e) > 0
  {
  }

  lemma StandingIsPlain(digest: string -> string, entries: seq<Entry>, children: seq<Child>, rho: seq<nat>)
    requires |rho| == |children| && Standing(digest, entries, children, rho) && Injective(rho)
    requires Payload(entries).Some? && Payload(entries) == Payload(Spell(digest, children))
    ensures AllDecodable(entries) && forall e :: e in entries ==> Plain(e)
  {
    var spelled := Spell(digest, children);
    SameWeight(entries, spelled);
    NothingLeftOver(Weights(entries), Weights(spelled), rho);
    forall j | 0 <= j < |entries|
      ensures Plain(entries[j]) && Decodable(entries[j])
    {
      assert j in Image(rho, |rho|);
      var i :| 0 <= i < |rho| && rho[i] == j;
      assert Weights(entries)[rho[i]] == Weights(spelled)[i];
      PlainDecodes(entries[j]);
    }
  }

  /** So a recorded tree that covers the true one, with its payload, is spelled plainly. */
  lemma CoveringIsPlain(digest: string -> string, proof: Proof, path: string, children: seq<Child>)
    requires HexDigests(digest) && path in proof && (forall q :: q in proof ==> Authentic(digest, proof, q))
    requires WellFormed(Tree(children)) && Populated(Tree(children))
    requires Descend(proof, path, proof[path].entries).Some?
    requires Covers(Descend(proof, path, proof[path].entries).value, children, path)
    requires Payload(proof[path].entries) == Payload(Spell(digest, children))
    ensures AllDecodable(proof[path].entries) && forall e :: e in proof[path].entries ==> Plain(e)
  {
    var rho := AllStand(digest, proof, path, children);
    StandApart(digest, proof[path].entries, children, rho);
    SpellCanonical(digest, children);
    DecodePayload(Spell(digest, children));
    StandingIsPlain(digest, proof[path].entries, children, rho);
  }

  /** And its directories cover the true ones. */
  lemma ChildCovers(digest: string -> string, proof: Proof, root: Object, path: string, k: nat)
    requires Decoded(digest, proof, root, path) && (forall e :: e in proof[path].entries ==> Plain(e))
    requires k < |proof[path].entries| && proof[path].entries[k].mode == TREE_MODE
    requires TreeAt(root, path) && Descend(proof, path, proof[path].entries).Some?
    requires Covers(Descend(proof, path, proof[path].entries).value, ChildrenAt(root, path), path)
    ensures var child := path + "/" + proof[path].entries[k].name;
            child in proof && Reached(digest, proof, root, child) && TreeAt(root, child) &&
            k < |ChildrenAt(root, path)| && Locate(root, child) == Some(ChildrenAt(root, path)[k].content) &&
            Descend(proof, child, proof[child].entries).Some? &&
            Covers(Descend(proof, child, proof[child].entries).value, ChildrenAt(root, child), child)
  {
    var entries := proof[path].entries;
    var child := path + "/" + entries[k].name;
    assert entries[k] in entries;
    EntryListed(proof, path, entries, k);
    ChildLocated(digest, proof, root, path, k);
    ChildReached(digest, proof, root, path, entries[k].name);
    CensusHas(ChildrenAt(root, path), path, k);
    CensusUnder(ChildrenAt(root, child), child);
    forall l | l in Census(ChildrenAt(root, child), child)
      ensures l in Descend(proof, child, proof[child].entries).value
    {
      var j := FromEntry(proof, path, entries, l);
      assert entries[j] in entries;
      ChildLocated(digest, proof, root, path, j);
      EntryUnder(proof, path, entries[j], l);
      SameDirectory(l, path, entries[j].name, entries[k].name);
    }
  }

  lemma SameDirectory(l: Listed, path: string, a: string, b: string)
    requires '/' !in a && '/' !in b && Under(l.path, path + "/" + b)
    ensures l.path != path + "/" + a
    ensures Under(l.path, path + "/" + a) ==> a == b
  {
    UnderJoin(path, a, b);
    UnderJoin(path, b, a);
    NotUnder(a, b);
    NotUnder(b, a);
    if Under(l.path, path + "/" + a) {
      UnderBoth(l.path, path + "/" + a, path + "/" + b);
    }
  }

  lemma {:induction false} AllVisited(proof: Proof, path: string, entries: seq<Entry>)
    requires forall e :: e in entries ==> Plain(e)
    requires forall e :: e in entries && e.mode == TREE_MODE ==>
               path + "/" + e.name in proof && VisitedPlain(proof, path + "/" + e.name, proof[path + "/" + e.name].entries)
    ensures VisitedPlain(proof, path, entries)
    decreases |entries|
  {
    if entries == [] {
    } else {
      assert entries[0] in entries && forall e :: e in entries[1..] ==> e in entries;
      AllVisited(proof, path, entries[1..]);
    }
  }

  lemma {:induction false} CoveringVisits(digest: string -> string, proof: Proof, root: Object, path: string)
    requires Reached(digest, proof, root, path) && Descend(proof, path, proof[path].entries).Some?
    requires TreeAt(root, path) && Populated(Locate(root, path).value)
    requires Covers(Descend(proof, path, proof[path].entries).value, ChildrenAt(root, path), path)
    ensures VisitedPlain(proof, path, proof[path].entries)
    decreases Longest(proof.Keys) - |path|
  {
    var entries := proof[path].entries;
    Located(digest, proof, root, path);
    CoveringIsPlain(digest, proof, path, ChildrenAt(root, path));
    forall e | e in entries && e.mode == TREE_MODE
      ensures path + "/" + e.name in proof && VisitedPlain(proof, path + "/" + e.name, proof[path + "/" + e.name].entries)
    {
      var k :| 0 <= k < |entries| && entries[k] == e;
      ChildCovers(digest, proof, root, path, k);
      assert Populated(ChildrenAt(root, path)[k].content);
      CoveringVisits(digest, proof, root, path + "/" + e.name);
    }
    AllVisited(proof, path, entries);
  }

  lemma ChildrenTrue(children: seq<Child>)
    requires WellFormed(Tree(children)) && '\0' !in SUBTREE
    ensures forall l :: l in Census(children, SUBTREE) ==> TrueListed(l)
  {
    forall i | 0 <= i < |children|
      ensures NameInTree(children[i].name) && CanonicalMode(children[i].mode) && WellFormed(children[i].content)
      ensures children[i].content.Leaf? ==> children[i].mode[0] == '1'
    {
      WellFormedChild(children, i);
    }
    CensusTrue(children, SUBTREE);
  }

  lemma SubtreeName()
    ensures '\0' !in SUBTREE
  {
    assert '\0' !in CORE && '\0' !in INCLUDE;
  }

  lemma SubtreeTrue(digest: string -> string, proof: Proof, root: Object)
    requires Reached(digest, proof, root, SUBTREE)
    ensures TreeAt(root, SUBTREE)
    ensures forall l :: l in Census(ChildrenAt(root, SUBTREE), SUBTREE) ==> TrueListed(l)
  {
    Located(digest, proof, root, SUBTREE);
    SubtreeName();
    ChildrenTrue(ChildrenAt(root, SUBTREE));
  }

  /** None of the directories on the way to the subtree can be mistaken: a matter of the pinned tree alone. */
  ghost predicate WayClear(digest: string -> string, root: Object) {
    forall path :: OnTheWay(path) ==> ClearAt(digest, root, path)
  }

  ghost predicate ClearAt(digest: string -> string, root: Object, path: string) {
    path != "" && TreeAt(root, RPartition(path).0) ==>
      Unmistaken(digest, ChildrenAt(root, RPartition(path).0), RPartition(path).1)
  }

  lemma WayGoesUp(path: string)
    requires OnTheWay(path) && path != ""
    ensures OnTheWay(RPartition(path).0) && '\0' !in RPartition(path).1 && |RPartition(path).0| < |path|
  {
    AncestorNames();
    assert |CORE| < |INCLUDE| < |SUBTREE|;
  }

  lemma SureAbove(digest: string -> string, proof: Proof, root: Object, path: string)
    requires Setting(digest, proof, root) && WayClear(digest, root) && OnTheWay(path) && path != ""
    requires '\0' !in RPartition(path).1 && RPartition(path).0 in proof && Sure(digest, proof, root, RPartition(path).0)
    ensures Sure(digest, proof, root, path)
  {
    Located(digest, proof, root, RPartition(path).0);
    assert ClearAt(digest, root, path);
  }

  /** Then the recorded trees above the subtree need not be decodable. */
  lemma {:induction false} ClearIsSure(digest: string -> string, proof: Proof, root: Object, path: string)
    requires Setting(digest, proof, root) && WayClear(digest, root) && OnTheWay(path) && path in proof
    ensures Sure(digest, proof, root, path)
    decreases |path|
  {
    if path != "" {
      WayGoesUp(path);
      assert Authentic(digest, proof, path) && Connected(proof, path);
      ClearIsSure(digest, proof, root, RPartition(path).0);
      SureAbove(digest, proof, root, path);
    }
  }

  lemma {:induction false} DecodableIsSure(digest: string -> string, proof: Proof, root: Object, path: string)
    requires DecodableAbove(proof, path)
    ensures Sure(digest, proof, root, path)
    decreases |path|
  {
    if path != "" {
      DecodableIsSure(digest, proof, root, RPartition(path).0);
    }
  }

  /** The way to the subtree: no directory on it can be mistaken, or the trees recorded for it can be decoded. */
  ghost predicate WayRead(digest: string -> string, proof: Proof, root: Object) {
    WayClear(digest, root) || DecodableAbove(proof, SUBTREE)
  }

  lemma WayIsSure(digest: string -> string, proof: Proof, root: Object)
    requires Setting(digest, proof, root) && SUBTREE in proof && WayRead(digest, proof, root)
    ensures Sure(digest, proof, root, SUBTREE)
  {
    if WayClear(digest, root) {
      ClearIsSure(digest, proof, root, SUBTREE);
    } else {
      DecodableIsSure(digest, proof, root, SUBTREE);
    }
  }

  /** Whatever listing the check accepts covers the pinned subtree exactly if every entry met by the
      descent is spelled plainly; and, where no directory is empty, only if. */
  lemma AcceptedListingExact(digest: string -> string, proof: Proof, root: Object, listing: seq<Listed>)
    requires Setting(digest, proof, root) && Accepts(digest, proof, listing, Id(digest, root))
    requires WayRead(digest, proof, root)
    ensures TreeAt(root, SUBTREE)
    ensures var exact := multiset(listing) == multiset(Census(ChildrenAt(root, SUBTREE), SUBTREE));
            (VisitedPlain(proof, SUBTREE, proof[SUBTREE].entries) ==> exact) &&
            (Populated(Locate(root, SUBTREE).value) ==>
               (exact <==> VisitedPlain(proof, SUBTREE, proof[SUBTREE].entries)))
  {
    var entries := proof[SUBTREE].entries;
    assert entries[0..] == entries;
    WayIsSure(digest, proof, root);
    SubtreeTrue(digest, proof, root);
    var children := ChildrenAt(root, SUBTREE);
    assert children[0..] == children;
    if VisitedPlain(proof, SUBTREE, entries) {
      VisitedDecodes(proof, SUBTREE, entries);
      DescendIsCensus(digest, proof, root, SUBTREE, 0);
    } else if Populated(Locate(root, SUBTREE).value) && multiset(listing) == multiset(Census(children, SUBTREE)) {
      var listed := Descend(proof, SUBTREE, entries).value;
      forall l
        ensures l in listed <==> l in Census(children, SUBTREE)
      {
        assert l in listed <==> l in multiset(listed);
        assert l in Census(children, SUBTREE) <==> l in multiset(Census(children, SUBTREE));
      }
      CoveringVisits(digest, proof, root, SUBTREE);
    }
  }

  /** Two plainly spelled proofs of one pinned tree accept only the same listing. */
  lemma AcceptedListingsAgree(digest: string -> string, root: Object,
                              proof: Proof, listing: seq<Listed>, proof': Proof, listing': seq<Listed>)
    requires Setting(digest, proof, root) && Accepts(digest, proof, listing, Id(digest, root))
    requires Setting(digest, proof', root) && Accepts(digest, proof', listing', Id(digest, root))
    requires WayRead(digest, proof, root) && VisitedPlain(proof, SUBTREE, proof[SUBTREE].entries)
    requires WayRead(digest, proof', root) && VisitedPlain(proof', SUBTREE, proof'[SUBTREE].entries)
    ensures multiset(listing) == multiset(listing')
  {
    AcceptedListingExact(digest, proof, root, listing);
    AcceptedListingExact(digest, proof', root, listing');
  }

  // ----- an honest proof is accepted

  /** The paths of all trees strictly below a tree with these children. */
  ghost function Below(children: seq<Child>, path: string): set<string> {
    if children == [] then {}
    else
      var place := path + "/" + children[0].name;
      (match children[0].content
       case Tree(grandchildren) => {place} + Below(grandchildren, place)
       case Leaf(_) => {}) + Below(children[1..], path)
  }

  ghost predicate OnTheWay(path: string) {
    path == "" || path == "modules" || path == CORE || path == INCLUDE || path == SUBTREE
  }

  /** The subtree's root and its ancestors. */
  ghost function Way(): (r: set<string>)
    ensures forall path :: path in r <==> OnTheWay(path)
  {
    {"", "modules", CORE, INCLUDE, SUBTREE}
  }

  ghost function HonestPaths(root: Object): set<string> {
    Way() +
    if TreeAt(root, SUBTREE) then Below(ChildrenAt(root, SUBTREE), SUBTREE) else {}
  }

  /** tree_proof: the ancestors and all descendant trees, as Git prints them. */
  ghost function Honest(digest: string -> string, root: Object): Proof {
    map path | path in HonestPaths(root) && TreeAt(root, path) ::
      ProofTree(Id(digest, Locate(root, path).value), Spell(digest, ChildrenAt(root, path)))
  }

  lemma {:induction false} FindGives(children: seq<Child>, name: string) returns (i: nat)
    requires Find(children, name).Some?
    ensures i < |children| && children[i].name == name && Find(children, name) == Some(children[i].content)
  {
    if children[0].name == name {
      i := 0;
    } else {
      i := FindGives(children[1..], name);
      i := i + 1;
    }
  }

  lemma ParentIsTree(root: Object, path: string)
    requires TreeAt(root, path) && path != "" && root.Tree? && WellFormed(root)
    ensures TreeAt(root, RPartition(path).0)
  {
  }

  lemma AncestorNames()
    ensures RPartition("modules") == ("", "modules") && RPartition(CORE) == ("modules", "core")
    ensures RPartition(INCLUDE) == (CORE, "include") && RPartition(SUBTREE) == (INCLUDE, "opencv2")
  {
    RPartitionJoin(INCLUDE, "opencv2");
    RPartitionJoin(CORE, "include");
    RPartitionJoin("modules", "core");
  }

  lemma AncestorsAreTrees(root: Object)
    requires root.Tree? && WellFormed(root) && TreeAt(root, SUBTREE)
    ensures TreeAt(root, "") && TreeAt(root, "modules") && TreeAt(root, CORE) && TreeAt(root, INCLUDE)
  {
    AncestorNames();
    ParentIsTree(root, SUBTREE);
    ParentIsTree(root, INCLUDE);
    ParentIsTree(root, CORE);
  }

  lemma {:induction false} LocatedWellFormed(root: Object, path: string)
    requires root.Tree? && WellFormed(root) && Locate(root, path).Some?
    ensures WellFormed(Locate(root, path).value)
    decreases |path|
  {
    if path == "" {
    } else {
      var (parent, name) := RPartition(path);
      LocatedWellFormed(root, parent);
      var children := Locate(root, parent).value.children;
      var i := FindGives(children, name);
      WellFormedChild(children, i);
    }
  }

  lemma BelowStep(children: seq<Child>, path: string, k: nat)
    requires k < |children|
    ensures var c := children[k];
            Below(children[k..], path) ==
            (if c.content.Tree? then {path + "/" + c.name} + Below(c.content.children, path + "/" + c.name) else {})
            + Below(children[k + 1..], path)
  {
    assert children[k..][0] == children[k] && children[k..][1..] == children[k + 1..];
  }

  lemma ChildPlace(root: Object, path: string, all: seq<Child>, k: nat)
    requires Locate(root, path) == Some(Tree(all)) && WellFormed(Tree(all)) && k < |all|
    ensures RPartition(path + "/" + all[k].name) == (path, all[k].name)
    ensures Locate(root, path + "/" + all[k].name) == Some(all[k].content)
  {
    WellFormedChild(all, k);
    RPartitionJoin(path, all[k].name);
    FindIndex(all, k);
  }

  /** Trees below are located, and their parents are the tree itself or below it too. */
  lemma {:induction false} BelowLocated(root: Object, path: string, all: seq<Child>, k: nat, p: string)
    requires Locate(root, path) == Some(Tree(all)) && WellFormed(Tree(all)) && k <= |all|
    requires p in Below(all[k..], path)
    ensures p != "" && TreeAt(root, p)
    ensures RPartition(p).0 == path || RPartition(p).0 in Below(all[k..], path)
    decreases all, |all| - k
  {
    BelowStep(all, path, k);
    var c, place := all[k], path + "/" + all[k].name;
    ChildPlace(root, path, all, k);
    WellFormedChild(all, k);
    if c.content.Tree? && p in Below(c.content.children, place) {
      assert c.content.children[0..] == c.content.children;
      BelowLocated(root, place, c.content.children, 0, p);
    } else if p in Below(all[k + 1..], path) {
      BelowLocated(root, path, all, k + 1, p);
    }
  }

  lemma TreesBelow(root: Object, path: string)
    requires root.Tree? && WellFormed(root) && TreeAt(root, SUBTREE)
    requires path in Below(ChildrenAt(root, SUBTREE), SUBTREE)
    ensures path != "" && TreeAt(root, path)
    ensures RPartition(path).0 == SUBTREE || RPartition(path).0 in Below(ChildrenAt(root, SUBTREE), SUBTREE)
  {
    LocatedWellFormed(root, SUBTREE);
    var children := ChildrenAt(root, SUBTREE);
    assert children[0..] == children;
    BelowLocated(root, SUBTREE, children, 0, path);
  }

  lemma WayIsTrees(root: Object, path: string)
    requires root.Tree? && WellFormed(root) && TreeAt(root, SUBTREE) && OnTheWay(path)
    ensures TreeAt(root, path)
    ensures path != "" ==> OnTheWay(RPartition(path).0) && RPartition(path).0 != SUBTREE
  {
    AncestorsAreTrees(root);
    AncestorNames();
    assert |CORE| < |INCLUDE| < |SUBTREE|;
  }

  lemma HonestKeys(digest: string -> string, root: Object, path: string)
    requires root.Tree? && WellFormed(root) && TreeAt(root, SUBTREE) && path in HonestPaths(root)
    ensures TreeAt(root, path) && path in Honest(digest, root)
    ensures path != "" ==> RPartition(path).0 in HonestPaths(root)
  {
    if path in Below(ChildrenAt(root, SUBTREE), SUBTREE) {
      TreesBelow(root, path);
    } else {
      WayIsTrees(root, path);
    }
  }

  lemma HonestAuthentic(digest: string -> string, root: Object, path: string)
    requires root.Tree? && WellFormed(root) && TreeAt(root, SUBTREE) && HexDigests(digest)
    requires path in Honest(digest, root)
    ensures Authentic(digest, Honest(digest, root), path)
  {
    var proof := Honest(digest, root);
    HonestKeys(digest, root, path);
    LocatedWellFormed(root, path);
    SpellCanonical(digest, ChildrenAt(root, path));
    DecodePayload(Spell(digest, ChildrenAt(root, path)));
    if path != "" {
      var (parent, name) := RPartition(path);
      HonestKeys(digest, root, parent);
      LocatedWellFormed(root, parent);
      var children := ChildrenAt(root, parent);
      var i := FindGives(children, name);
      WellFormedChild(children, i);
      assert Spell(digest, children)[i] == Entry(TREE_MODE, proof[path].sha, name);
    }
  }

  lemma {:induction false} HonestDescend(digest: string -> string, root: Object, path: string, all: seq<Child>, k: nat)
    requires root.Tree? && WellFormed(root) && TreeAt(root, SUBTREE)
    requires Locate(root, path) == Some(Tree(all)) && WellFormed(Tree(all)) && k <= |all|
    requires Below(all[k..], path) <= HonestPaths(root)
    ensures Descend(Honest(digest, root), path, Spell(digest, all)[k..]) == Some(Census(all[k..], path))
    decreases all, |all| - k
  {
    if k < |all| {
      var proof, c, place := Honest(digest, root), all[k], path + "/" + all[k].name;
      BelowStep(all, path, k);
      CensusStep(all, path, k);
      DescendStep(proof, path, Spell(digest, all), k, []);
      WellFormedChild(all, k);
      HonestDescend(digest, root, path, all, k + 1);
      if c.content.Tree? {
        ChildPlace(root, path, all, k);
        HonestKeys(digest, root, place);
        var grandchildren := c.content.children;
        assert grandchildren[0..] == grandchildren;
        assert Spell(digest, grandchildren)[0..] == Spell(digest, grandchildren);
        HonestDescend(digest, root, place, grandchildren, 0);
      }
    }
  }

  /** What Git prints for the pinned tree is accepted with its full listing, in any order. */
  lemma HonestAccepted(digest: string -> string, root: Object, listing: seq<Listed>)
    requires root.Tree? && WellFormed(root) && TreeAt(root, SUBTREE) && HexDigests(digest)
    requires multiset(listing) == multiset(Census(ChildrenAt(root, SUBTREE), SUBTREE))
    ensures Accepts(digest, Honest(digest, root), listing, Id(digest, root))
  {
    forall path | path in Honest(digest, root)
      ensures Authentic(digest, Honest(digest, root), path)
    {
      HonestAuthentic(digest, root, path);
    }
    HonestKeys(digest, root, "");
    HonestKeys(digest, root, SUBTREE);
    var all := ChildrenAt(root, SUBTREE);
    LocatedWellFormed(root, SUBTREE);
    assert all[0..] == all && Spell(digest, all)[0..] == Spell(digest, all);
    HonestDescend(digest, root, SUBTREE, all, 0);
  }

  // ----- why the spelling matters

  /** The same entries with the padding zero of tree modes left out. */
  ghost function Unpadded(entries: seq<Entry>): (r: seq<Entry>)
    ensures |r| == |entries|
    ensures forall i :: 0 <= i < |r| ==> r[i] == (if entries[i].mode == TREE_MODE then entries[i].(mode := "40000") else entries[i])
  {
    seq(|entries|, i requires 0 <= i < |entries| =>
      if entries[i].mode == TREE_MODE then entries[i].(mode := "40000") else entries[i])
  }

  lemma {:induction false} UnpaddedPayload(entries: seq<Entry>)
    ensures Payload(Unpadded(entries)) == Payload(entries)
  {
    if entries == [] {
    } else {
      UnpaddedPayload(entries[1..]);
      assert Unpadded(entries)[1..] == Unpadded(entries[1..]);
      if entries[0].mode == TREE_MODE {
        assert TREE_MODE[1..] == "40000";
      }
    }
  }

  /** A proof of the ancestors alone, with other entries of the same payload for the subtree. */
  ghost function Shallow(digest: string -> string, root: Object, entries: seq<Entry>): Proof {
    map path | path in Way() && TreeAt(root, path) ::
      ProofTree(Id(digest, Locate(root, path).value), if path == SUBTREE then entries else Spell(digest, ChildrenAt(root, path)))
  }

  ghost function ShallowListing(entries: seq<Entry>): (r: seq<Listed>)
    ensures |r| == |entries|
    ensures forall i :: 0 <= i < |r| ==> r[i] == Listed(entries[i].mode, entries[i].id, SUBTREE + "/" + entries[i].name)
  {
    seq(|entries|, i requires 0 <= i < |entries| =>
      Listed(entries[i].mode, entries[i].id, SUBTREE + "/" + entries[i].name))
  }

  lemma {:induction false} ShallowDescend(proof: Proof, entries: seq<Entry>)
    requires forall i :: 0 <= i < |entries| ==> entries[i].mode != TREE_MODE
    ensures Descend(proof, SUBTREE, entries) == Some(ShallowListing(entries))
  {
    if entries == [] {
    } else {
      ShallowDescend(proof, entries[1..]);
      assert ShallowListing(entries) == [ShallowListing(entries)[0]] + ShallowListing(entries[1..]);
    }
  }

  /** Entries without directories and with the payload of the true ones. */
  ghost predicate Flat(digest: string -> string, root: Object, entries: seq<Entry>)
    requires TreeAt(root, SUBTREE)
  {
    Payload(entries) == Payload(Spell(digest, ChildrenAt(root, SUBTREE))) &&
    forall i :: 0 <= i < |entries| ==> entries[i].mode != TREE_MODE
  }

  lemma ShallowAuthentic(digest: string -> string, root: Object, entries: seq<Entry>, path: string)
    requires root.Tree? && WellFormed(root) && TreeAt(root, SUBTREE) && HexDigests(digest) && Flat(digest, root, entries)
    requires path in Shallow(digest, root, entries)
    ensures Authentic(digest, Shallow(digest, root, entries), path)
  {
    WayIsTrees(root, path);
    HonestAuthentic(digest, root, path);
    if path != "" {
      var parent := RPartition(path).0;
      WayIsTrees(root, parent);
      assert Shallow(digest, root, entries)[parent].entries == Honest(digest, root)[parent].entries;
    }
  }

  lemma ShallowAccepted(digest: string -> string, root: Object, entries: seq<Entry>)
    requires root.Tree? && WellFormed(root) && TreeAt(root, SUBTREE) && HexDigests(digest) && Flat(digest, root, entries)
    ensures Accepts(digest, Shallow(digest, root, entries), ShallowListing(entries), Id(digest, root))
  {
    forall path | path in Shallow(digest, root, entries)
      ensures Authentic(digest, Shallow(digest, root, entries), path)
    {
      ShallowAuthentic(digest, root, entries, path);
    }
    WayIsTrees(root, "");
    assert "" in Way() && SUBTREE in Way();
    ShallowDescend(Shallow(digest, root, entries), entries);
  }

  /** Mode "40000" hashes like "040000" but is not taken for a tree: whenever the subtree has a
      directory, a proof and listing that leave out everything inside it are accepted. */
  lemma UnpaddedModeHidesDirectories(digest: string -> string, root: Object, k: nat)
    requires root.Tree? && WellFormed(root) && TreeAt(root, SUBTREE) && HexDigests(digest)
    requires k < |ChildrenAt(root, SUBTREE)| && ChildrenAt(root, SUBTREE)[k].content.Tree?
    ensures var children := ChildrenAt(root, SUBTREE);
            var entries := Unpadded(Spell(digest, children));
            Accepts(digest, Shallow(digest, root, entries), ShallowListing(entries), Id(digest, root)) &&
            multiset(ShallowListing(entries)) != multiset(Census(children, SUBTREE))
  {
    var children := ChildrenAt(root, SUBTREE);
    var entries := Unpadded(Spell(digest, children));
    UnpaddedPayload(Spell(digest, children));
    ShallowAccepted(digest, root, entries);
    LocatedWellFormed(root, SUBTREE);
    SubtreeName();
    ChildrenTrue(children);
    Omits(Census(children, SUBTREE), ShallowListing(entries), k);
  }

  /** A listing with something untrue is not the census. */
  lemma Omits(census: seq<Listed>, listing: seq<Listed>, k: nat)
    requires k < |listing| && !TrueListed(listing[k]) && forall l :: l in census ==> TrueListed(l)
    ensures multiset(listing) != multiset(census)
  {
    assert listing[k] in multiset(listing) && listing[k] !in multiset(census);
  }

  // ----- and why NUL does

  /** Two entries as one: the second one's name, and the first one's identifier, are swallowed by a
      name behind a NUL. */
  function Swallowing(a: Entry, b: Entry): Entry {
    Entry(a.mode, b.id, a.name + "\0" + FromHex(a.id).GetOr("") + StripZeros(b.mode) + " " + b.name)
  }

  lemma SwallowingBytes(a: Entry, b: Entry)
    requires FromHex(a.id).Some? && FromHex(b.id).Some?
    ensures Payload([Swallowing(a, b)]) == Payload([a, b])
  {
    var ma, ia, mb, ib := StripZeros(a.mode), FromHex(a.id).value, StripZeros(b.mode), FromHex(b.id).value;
    assert [a, b][1..] == [b] && [b][1..] == [] && [Swallowing(a, b)][1..] == [];
    assert Payload([b]) == Some(EntryBytes(b).value + "");
    assert Payload([Swallowing(a, b)]) == Some(EntryBytes(Swallowing(a, b)).value + "");
    SevenParts(ma, a.name, ia, mb, b.name, ib);
  }

  lemma SevenParts(ma: string, na: string, ia: string, mb: string, nb: string, ib: string)
    ensures ma + " " + (na + "\0" + ia + mb + " " + nb) + "\0" + ib + "" ==
            (ma + " " + na + "\0" + ia) + ((mb + " " + nb + "\0" + ib) + "")
  {
  }

  ghost function Swallowed(entries: seq<Entry>): seq<Entry>
    requires |entries| >= 2
  {
    [Swallowing(entries[0], entries[1])] + entries[2..]
  }

  lemma FirstTwo(entries: seq<Entry>)
    requires |entries| >= 2
    ensures [entries[0], entries[1]] + entries[2..] == entries
  {
  }

  lemma SwallowedPayload(entries: seq<Entry>)
    requires |entries| >= 2 && FromHex(entries[0].id).Some? && FromHex(entries[1].id).Some?
    ensures Payload(Swallowed(entries)) == Payload(entries)
  {
    SwallowingBytes(entries[0], entries[1]);
    PayloadJoin([Swallowing(entries[0], entries[1])], entries[2..]);
    PayloadJoin([entries[0], entries[1]], entries[2..]);
    FirstTwo(entries);
  }

  lemma SwallowedFlat(digest: string -> string, root: Object, entries: seq<Entry>)
    requires TreeAt(root, SUBTREE) && entries == Spell(digest, ChildrenAt(root, SUBTREE)) && |entries| >= 2
    requires AllDecodable(entries) && forall i :: 0 <= i < |entries| ==> Canonical(entries[i]) && entries[i].mode != TREE_MODE
    ensures Flat(digest, root, Swallowed(entries)) && forall e :: e in Swallowed(entries) ==> Canonical(e)
  {
    SwallowedPayload(entries);
  }

  lemma LeavesAreNoTrees(digest: string -> string, children: seq<Child>)
    requires WellFormed(Tree(children)) && HexDigests(digest) && forall i :: 0 <= i < |children| ==> children[i].content.Leaf?
    ensures forall i :: 0 <= i < |children| ==>
              Canonical(Spell(digest, children)[i]) && Spell(digest, children)[i].mode != TREE_MODE
  {
    forall i | 0 <= i < |children|
      ensures Canonical(Spell(digest, children)[i]) && Spell(digest, children)[i].mode != TREE_MODE
    {
      SpellCanonicalAt(digest, children, i);
      WellFormedChild(children, i);
    }
  }

  lemma SwallowedOmits(census: seq<Listed>, entries: seq<Entry>)
    requires |entries| >= 2 && forall l :: l in census ==> TrueListed(l)
    ensures multiset(ShallowListing(Swallowed(entries))) != multiset(census)
  {
    var a, b, listing := entries[0], entries[1], ShallowListing(Swallowed(entries));
    NulShows(SUBTREE + "/", a.name, FromHex(a.id).GetOr("") + StripZeros(b.mode) + " " + b.name, listing[0].path);
    Omits(census, listing, 0);
  }

  /** In a subtree of files alone, a proof in canonical modes and identifiers is accepted that spells the
      first two files as one. */
  lemma SwallowedNameHidesFile(digest: string -> string, root: Object)
    requires root.Tree? && WellFormed(root) && TreeAt(root, SUBTREE) && HexDigests(digest)
    requires |ChildrenAt(root, SUBTREE)| >= 2
    requires forall i :: 0 <= i < |ChildrenAt(root, SUBTREE)| ==> ChildrenAt(root, SUBTREE)[i].content.Leaf?
    ensures var children := ChildrenAt(root, SUBTREE);
            var entries := Swallowed(Spell(digest, children));
            Accepts(digest, Shallow(digest, root, entries), ShallowListing(entries), Id(digest, root)) &&
            (forall e :: e in entries ==> Canonical(e)) &&
            multiset(ShallowListing(entries)) != multiset(Census(children, SUBTREE))
  {
    var children := ChildrenAt(root, SUBTREE);
    LocatedWellFormed(root, SUBTREE);
    SpellCanonical(digest, children);
    LeavesAreNoTrees(digest, children);
    SwallowedFlat(digest, root, Spell(digest, children));
    ShallowAccepted(digest, root, Swallowed(Spell(digest, children)));
    SubtreeName();
    ChildrenTrue(children);
    SwallowedOmits(Census(children, SUBTREE), Spell(digest, children));
  }

  lemma NulShows(front: string, a: string, b: string, path: string)
    requires path == front + (a + "\0" + b)
    ensures '\0' in path
  {
    assert path[|front| + |a|] == '\0';
  }

  // ----- names and identifiers that cannot be mistaken

  predicate EndsIn(s: string, tail: string) {
    |tail| <= |s| && s[|s| - |tail|..] == tail
  }

  ghost predicate Holds(s: string, text: string) {
    exists p: nat :: At(s, p, text)
  }

  predicate Shaped(e: Stored) {
    e.mode != "" && |e.mode| <= 6 && ' ' !in e.mode && '\0' !in e.mode && '\0' !in e.name
  }

  /** What an entry stores neither ends with nor holds the text of that directory. */
  ghost predicate Ordinary(e: Stored, name: string) {
    Shaped(e) && e.mode[0] != '0' && (|e.mode| == 6 ==> e.mode[1..] != "40000") &&
    !EndsIn(e.name, "40000 " + name) && !Holds(e.id, DirectoryText(name))
  }

  function StoredBytes(e: Stored): string {
    e.mode + " " + e.name + "\0" + e.id
  }

  function NulPlace(e: Stored): nat {
    |e.mode| + 1 + |e.name|
  }

  lemma StoredAt(e: Stored, rest: string)
    ensures var b := StoredBytes(e) + rest;
            NulPlace(e) < |StoredBytes(e)| <= |b| && b[NulPlace(e)] == '\0' && b[|e.mode|] == ' ' &&
            b[NulPlace(e) + 1..|StoredBytes(e)|] == e.id
    ensures var b := StoredBytes(e) + rest;
            (forall j :: 0 <= j < |e.mode| ==> b[j] == e.mode[j]) &&
            (forall j :: |e.mode| < j < NulPlace(e) ==> b[j] == e.name[j - |e.mode| - 1])
  {
  }

  lemma TextIs(name: string)
    requires '\0' !in name
    ensures var t := DirectoryText(name);
            |t| == 7 + |name| && t[..6] == "40000 " && t[0] == '4' && (forall k :: 1 <= k < 5 ==> t[k] == '0') && t[5] == ' ' &&
            (forall k :: 6 <= k < |t| - 1 ==> t[k] == name[k - 6]) && t[|t| - 1] == '\0' &&
            (forall k :: 0 <= k < |t| - 1 ==> t[k] != '\0')
  {
  }

  /** The character k of the text, where the text stands. */
  lemma TextStands(b: string, f: nat, t: string)
    requires At(b, f, t)
    ensures f + |t| <= |b| && forall k :: 0 <= k < |t| ==> b[f + k] == t[k]
  {
    forall k | 0 <= k < |t|
      ensures b[f + k] == t[k]
    {
      assert b[f..f + |t|][k] == b[f + k];
    }
  }

  /** A text that begins inside mode or name ends where the name ends. */
  lemma EndsWithName(e: Stored, rest: string, f: nat, name: string)
    requires Shaped(e) && '\0' !in name && f <= NulPlace(e) && At(StoredBytes(e) + rest, f, DirectoryText(name))
    ensures f + 6 + |name| == NulPlace(e)
  {
    var b, t := StoredBytes(e) + rest, DirectoryText(name);
    StoredAt(e, rest);
    TextIs(name);
    TextStands(b, f, t);
    NoNulInFront(e, rest);
    FirstNul(b, f, t, NulPlace(e));
  }

  /** Both have their first NUL at one place. */
  lemma FirstNul(b: string, f: nat, t: string, n: nat)
    requires t != "" && t[|t| - 1] == '\0' && (forall k :: 0 <= k < |t| - 1 ==> t[k] != '\0')
    requires f <= n < |b| && b[n] == '\0' && (forall j :: 0 <= j < n ==> b[j] != '\0')
    requires f + |t| <= |b| && forall k :: 0 <= k < |t| ==> b[f + k] == t[k]
    ensures f + |t| - 1 == n
  {
    assert forall j :: f <= j < f + |t| ==> b[j] == t[j - f] by {
      forall j | f <= j < f + |t|
        ensures b[j] == t[j - f]
      {
        assert b[f + (j - f)] == t[j - f];
      }
    }
  }

  lemma NoNulInFront(e: Stored, rest: string)
    requires Shaped(e)
    ensures |StoredBytes(e) + rest| > NulPlace(e)
    ensures forall j :: 0 <= j < NulPlace(e) ==> (StoredBytes(e) + rest)[j] != '\0'
  {
    StoredAt(e, rest);
  }

  /** If it begins inside the mode, the mode ends in that of a directory. */
  lemma InsideMode(e: Stored, rest: string, f: nat, name: string)
    requires Shaped(e) && '\0' !in name && 0 < f <= |e.mode| && At(StoredBytes(e) + rest, f, DirectoryText(name))
    ensures |e.mode| == 6 && e.mode[1..] == "40000"
  {
    var b, t := StoredBytes(e) + rest, DirectoryText(name);
    StoredAt(e, rest);
    TextIs(name);
    TextStands(b, f, t);
    assert b[f + (|e.mode| - f)] == t[|e.mode| - f];
    assert b[f + 5] == ' ';
    assert |e.mode| == f + 5;
    assert "40000" == t[..6][..5];
    assert forall k :: 0 <= k < 5 ==> e.mode[1..][k] == b[f + k];
  }

  lemma InsideName(e: Stored, rest: string, f: nat, name: string)
    requires Shaped(e) && '\0' !in name && |e.mode| < f <= NulPlace(e) && At(StoredBytes(e) + rest, f, DirectoryText(name))
    ensures EndsIn(e.name, "40000 " + name)
  {
    var b, t := StoredBytes(e) + rest, DirectoryText(name);
    EndsWithName(e, rest, f, name);
    StoredAt(e, rest);
    TextStands(b, f, t);
    var tail, k := "40000 " + name, f - |e.mode| - 1;
    assert t == tail + "\0";
    assert |e.name| - |tail| == k;
    assert forall j :: 0 <= j < |tail| ==> e.name[k..][j] == b[f + j] == t[j] == tail[j];
    assert e.name[k..] == tail;
  }

  /** If it begins in the identifier, it stands there, or runs into the next entry; then the name holds a blank. */
  lemma InsideId(e: Stored, rest: string, f: nat, name: string)
    requires Shaped(e) && '\0' !in name && NulPlace(e) < f && f + 7 + |name| <= |StoredBytes(e)|
    requires At(StoredBytes(e) + rest, f, DirectoryText(name))
    ensures Holds(e.id, DirectoryText(name))
  {
    var b, t := StoredBytes(e) + rest, DirectoryText(name);
    StoredAt(e, rest);
    TextIs(name);
    var p: nat := f - NulPlace(e) - 1;
    assert b[NulPlace(e) + 1..|StoredBytes(e)|][p..p + |t|] == b[f..f + |t|];
    assert At(e.id, p, t);
  }

  /** An entry cannot begin like the rest of the text, unless the name holds a blank. */
  lemma RestOfText(next: Stored, more: string, k: nat, name: string)
    requires Shaped(next) && '\0' !in name && 0 < k < 7 + |name|
    requires var r, t := StoredBytes(next) + more, DirectoryText(name);
             |t| - k <= |r| && forall j :: 0 <= j < |t| - k ==> r[j] == t[k + j]
    ensures next.mode[0] == '0' || ' ' in name
  {
    var r, t := StoredBytes(next) + more, DirectoryText(name);
    StoredAt(next, more);
    TextIs(name);
    assert r[|t| - 1 - k] == '\0';
    assert |t| - 1 - k >= NulPlace(next);
    assert r[0] == t[k];
    assert r[|next.mode|] == t[k + |next.mode|];
  }

  lemma IntoNext(e: Stored, rest: string, f: nat, name: string)
    requires '\0' !in name && f < |StoredBytes(e)| < f + 7 + |name|
    requires At(StoredBytes(e) + rest, f, DirectoryText(name))
    ensures var k, t := |StoredBytes(e)| - f, DirectoryText(name);
            |t| - k <= |rest| && forall j :: 0 <= j < |t| - k ==> rest[j] == t[k + j]
  {
    var b, t, n := StoredBytes(e) + rest, DirectoryText(name), |StoredBytes(e)|;
    TextStands(b, f, t);
    forall j | 0 <= j < |t| - (n - f)
      ensures rest[j] == t[n - f + j]
    {
      assert b[f + (n - f + j)] == rest[j];
    }
  }

  ghost predicate NextIs(rest: string, next: Stored, more: string, name: string) {
    Ordinary(next, name) && rest == StoredBytes(next) + more
  }

  /** So the text stands at the beginning of the entry, or behind it. */
  lemma NotInside(e: Stored, rest: string, f: nat, name: string)
    requires Ordinary(e, name) && '\0' !in name && ' ' !in name && At(StoredBytes(e) + rest, f, DirectoryText(name))
    requires rest == "" || exists next: Stored, more :: NextIs(rest, next, more, name)
    ensures f == 0 || |StoredBytes(e)| <= f
  {
    if 0 < f <= |e.mode| {
      InsideMode(e, rest, f, name);
    } else if |e.mode| < f <= NulPlace(e) {
      InsideName(e, rest, f, name);
    } else if NulPlace(e) < f < |StoredBytes(e)| {
      if f + 7 + |name| <= |StoredBytes(e)| {
        InsideId(e, rest, f, name);
      } else {
        IntoNext(e, rest, f, name);
        if rest != "" {
          var next: Stored, more :| NextIs(rest, next, more, name);
          RestOfText(next, more, |StoredBytes(e)| - f, name);
        }
      }
    }
  }

  ghost predicate AllOrdinary(entries: seq<Entry>, name: string) {
    forall i :: 0 <= i < |entries| ==> FromHex(entries[i].id).Some? && Ordinary(Normal(entries[i]), name)
  }

  lemma FirstBytes(entries: seq<Entry>, name: string)
    requires AllOrdinary(entries, name) && entries != [] && Payload(entries).Some?
    ensures Payload(entries[1..]).Some?
    ensures Payload(entries).value == StoredBytes(Normal(entries[0])) + Payload(entries[1..]).value
    ensures Ordinary(Normal(entries[0]), name) && AllOrdinary(entries[1..], name)
  {
    assert FromHex(entries[0].id).Some?;
    assert EntryBytes(entries[0]) == Some(StoredBytes(Normal(entries[0])));
  }

  lemma NothingOrNext(entries: seq<Entry>, name: string)
    requires AllOrdinary(entries, name) && Payload(entries).Some?
    ensures Payload(entries).value == "" || exists next: Stored, more :: NextIs(Payload(entries).value, next, more, name)
  {
    if entries != [] {
      FirstBytes(entries, name);
      assert NextIs(Payload(entries).value, Normal(entries[0]), Payload(entries[1..]).value, name);
    }
  }

  lemma FrontBegins(entries: seq<Entry>, first: string, front: string)
    requires entries != [] && EntryBytes(entries[0]) == Some(first) && EntryBegins(entries[1..], front)
    ensures EntryBegins(entries, first + front)
  {
    var i: nat :| i <= |entries[1..]| && Payload(entries[1..][..i]) == Some(front);
    assert entries[..i + 1][0] == entries[0] && entries[..i + 1][1..] == entries[1..][..i];
    assert Payload(entries[..i + 1]) == Some(first + front);
  }

  lemma CutBehind(first: string, rest: string, front: string, text: string, behind: string)
    requires first + rest == front + text + behind && |first| <= |front|
    ensures front == first + front[|first|..] && rest == front[|first|..] + text + behind
  {
    var all := first + rest;
    assert all[..|first|] == first && all[..|first|] == front[..|first|];
    assert all[|first|..] == rest;
  }

  lemma {:induction false} OrdinaryBegins(entries: seq<Entry>, front: string, behind: string, name: string)
    requires AllOrdinary(entries, name) && '\0' !in name && ' ' !in name
    requires Cut(Payload(entries), front, DirectoryText(name), behind)
    ensures EntryBegins(entries, front)
    decreases |entries|
  {
    TextAt(front, DirectoryText(name), behind);
    if entries != [] {
      FirstBytes(entries, name);
      NothingOrNext(entries[1..], name);
      var e, rest := Normal(entries[0]), Payload(entries[1..]).value;
      NotInside(e, rest, |front|, name);
      if front == "" {
        assert Payload(entries[..0]) == Some("");
      } else {
        CutBehind(StoredBytes(e), rest, front, DirectoryText(name), behind);
        OrdinaryBegins(entries[1..], front[|StoredBytes(e)|..], behind, name);
        FrontBegins(entries, StoredBytes(e), front[|StoredBytes(e)|..]);
      }
    }
  }

  lemma TextAt(front: string, text: string, behind: string)
    ensures At(front + text + behind, |front|, text) && |front + text + behind| >= |text|
  {
  }

  /** A directory without blanks in its name cannot be mistaken, if no other name in its tree ends in its
      text, no identifier holds it, and no mode ends like that of a directory. */
  lemma OrdinaryUnmistaken(digest: string -> string, children: seq<Child>, name: string)
    requires WellFormed(Tree(children)) && HexDigests(digest) && '\0' !in name && ' ' !in name
    requires forall i :: 0 <= i < |children| ==> OrdinaryChild(digest, children[i], name)
    ensures Unmistaken(digest, children, name)
  {
    var spelled := Spell(digest, children);
    forall i | 0 <= i < |spelled|
      ensures FromHex(spelled[i].id).Some? && Ordinary(Normal(spelled[i]), name)
    {
      WellFormedChild(children, i);
      OneOrdinary(digest, children[i], name);
    }
    forall front, behind | Cut(Payload(spelled), front, DirectoryText(name), behind)
      ensures EntryBegins(spelled, front)
    {
      OrdinaryBegins(spelled, front, behind, name);
    }
  }

  ghost predicate OrdinaryChild(digest: string -> string, c: Child, name: string) {
    c.mode != "140000" && !EndsIn(c.name, "40000 " + name) &&
    !Holds(FromHex(Id(digest, c.content)).GetOr(""), DirectoryText(name))
  }

  lemma OneOrdinary(digest: string -> string, c: Child, name: string)
    requires HexDigests(digest) && WellFormed(Tree([c])) && OrdinaryChild(digest, c, name)
    ensures var e := Entry(c.mode, Id(digest, c.content), c.name);
            FromHex(e.id).Some? && Ordinary(Normal(e), name)
  {
    WellFormedChild([c], 0);
    IdIsDigest(digest, c.content);
    FromHexLower(Id(digest, c.content));
    CanonicalModeSpaceFree(c.mode);
    ModeStripped(c.mode);
  }

  lemma ModeStripped(mode: string)
    requires CanonicalMode(mode) && (mode == TREE_MODE || mode[0] == '1') && mode != "140000"
    ensures var m := StripZeros(mode);
            m != "" && |m| <= 6 && m[0] != '0' && ' ' !in m && '\0' !in m && (|m| == 6 ==> m[1..] != "40000")
  {
  }

  // ----- and why the way must be clear

  const MODULES := "modules"
  const FOO := "foo40000 modules"

  /** "40000 foo" in hexadecimal. */
  const FOO_HEX := "343030" + ("303020" + "666f6f")

  /** The pinned tree: a file, and a directory whose name ends like the text of another. */
  ghost function Disguised(file: Child, tree: Object): Object {
    Tree([file, Child(TREE_MODE, FOO, tree)])
  }

  /** What it is taken for. */
  ghost function Lone(tree: Object): Object {
    Tree([Child(TREE_MODE, MODULES, tree)])
  }

  /** The same bytes, cut elsewhere: the identifier of the file swallows the first part of the name. */
  ghost function Disguise(digest: string -> string, file: Child, tree: Object): seq<Entry> {
    [Entry(file.mode, Id(digest, file.content) + FOO_HEX, file.name), Entry(TREE_MODE, Id(digest, tree), MODULES)]
  }

  ghost function Misled(digest: string -> string, file: Child, tree: Object): Proof {
    Honest(digest, Lone(tree))["" := ProofTree(Id(digest, Disguised(file, tree)), Disguise(digest, file, tree))]
  }

  lemma {:induction false} FromHexJoin(a: string, b: string)
    requires |a| % 2 == 0 && (forall i :: 0 <= i < |a| ==> LowerHex(a[i])) && FromHex(b).Some?
    ensures FromHex(a).Some? && FromHex(a + b) == Some(FromHex(a).value + FromHex(b).value)
  {
    if a == "" {
      assert a + b == b && "" + FromHex(b).value == FromHex(b).value;
    } else {
      FromHexJoin(a[2..], b);
      assert (a + b)[2..] == a[2..] + b && (a + b)[0] == a[0] && (a + b)[1] == a[1];
      var c := (16 * HexValue(a[0]).value + HexValue(a[1]).value) as char;
      assert [c] + (FromHex(a[2..]).value + FromHex(b).value) == [c] + FromHex(a[2..]).value + FromHex(b).value;
    }
  }

  function Byte(high: char, low: char): char
    requires LowerHex(high) && LowerHex(low)
  {
    (16 * HexValue(high).value + HexValue(low).value) as char
  }

  lemma HexPair(high: char, low: char, rest: string)
    requires LowerHex(high) && LowerHex(low) && FromHex(rest).Some?
    ensures FromHex([high, low] + rest) == Some([Byte(high, low)] + FromHex(rest).value)
  {
    assert ([high, low] + rest)[2..] == rest;
  }

  lemma HexTriple(s: string)
    requires |s| == 6 && forall i :: 0 <= i < 6 ==> LowerHex(s[i])
    ensures FromHex(s) == Some([Byte(s[0], s[1]), Byte(s[2], s[3]), Byte(s[4], s[5])])
  {
    HexPair(s[4], s[5], "");
    HexPair(s[2], s[3], [s[4], s[5]] + "");
    HexPair(s[0], s[1], [s[2], s[3]] + ([s[4], s[5]] + ""));
    assert s == [s[0], s[1]] + ([s[2], s[3]] + ([s[4], s[5]] + ""));
    var a, b, c := Byte(s[0], s[1]), Byte(s[2], s[3]), Byte(s[4], s[5]);
    assert [a] + ([b] + ([c] + "")) == [a, b, c];
  }

  lemma FooTriples()
    ensures FromHex("343030") == Some("400") && FromHex("303020") == Some("00 ") && FromHex("666f6f") == Some("foo")
  {
    HexTriple("343030");
    HexTriple("303020");
    HexTriple("666f6f");
  }

  lemma FooBytes()
    ensures FromHex(FOO_HEX) == Some("40000 foo")
  {
    FooTriples();
    TriplesJoin("343030", "303020", "666f6f");
    FooJoins();
  }

  lemma FooJoins()
    ensures "400" + ("00 " + "foo") == "40000 foo"
  {
  }

  lemma TriplesJoin(a: string, b: string, c: string)
    requires |a| == |b| == |c| == 6 && forall i :: 0 <= i < 6 ==> LowerHex(a[i]) && LowerHex(b[i]) && LowerHex(c[i])
    ensures FromHex(a).Some? && FromHex(b).Some? && FromHex(c).Some?
    ensures FromHex(a + (b + c)) == Some(FromHex(a).value + (FromHex(b).value + FromHex(c).value))
  {
    FromHexLower(c);
    FromHexJoin(b, c);
    FromHexJoin(a, b + c);
  }

  lemma TwoBytes(a: Entry, b: Entry)
    requires EntryBytes(a).Some? && EntryBytes(b).Some?
    ensures Payload([a, b]) == Some(EntryBytes(a).value + EntryBytes(b).value)
  {
    assert [a, b][1..] == [b] && [b][1..] == [];
    assert Payload([b]) == Some(EntryBytes(b).value + "");
    assert EntryBytes(b).value + "" == EntryBytes(b).value;
  }

  lemma CutElsewhere(front: string, id: string, text: string, foo: string, last: string, tree: string)
    ensures (front + id) + ((text + (foo + text + last) + "\0") + tree) == (front + (id + (text + foo))) + ((text + last + "\0") + tree)
  {
  }

  lemma FooParts()
    ensures FOO == "foo" + "40000 " + MODULES && "40000 foo" == "40000 " + "foo"
  {
  }

  /** The bytes of the disguise are those of the pinned tree. */
  lemma DisguisedBytes(file: Entry, tree: string)
    requires FromHex(file.id).Some? && IsDigest(file.id) && FromHex(tree).Some?
    ensures Payload([file, Entry(TREE_MODE, tree, FOO)]) ==
            Payload([file.(id := file.id + FOO_HEX), Entry(TREE_MODE, tree, MODULES)])
    ensures Payload([file, Entry(TREE_MODE, tree, FOO)]).Some?
  {
    FooBytes();
    FooParts();
    FromHexJoin(file.id, FOO_HEX);
    DirectoryBytes(tree, FOO);
    DirectoryBytes(tree, MODULES);
    TwoBytes(file, Entry(TREE_MODE, tree, FOO));
    TwoBytes(file.(id := file.id + FOO_HEX), Entry(TREE_MODE, tree, MODULES));
    CutElsewhere(StripZeros(file.mode) + " " + file.name + "\0", FromHex(file.id).value, "40000 ", "foo", MODULES, FromHex(tree).value);
  }

  lemma DisguisePayload(digest: string -> string, file: Child, tree: Object)
    requires HexDigests(digest) && WellFormed(Disguised(file, tree))
    ensures TreeHash(digest, Disguise(digest, file, tree)) == Some(Id(digest, Disguised(file, tree)))
  {
    var children := [file, Child(TREE_MODE, FOO, tree)];
    WellFormedChild(children, 0);
    WellFormedChild(children, 1);
    IdIsDigest(digest, file.content);
    IdIsDigest(digest, tree);
    FromHexLower(Id(digest, file.content));
    FromHexLower(Id(digest, tree));
    assert Spell(digest, children) == [Entry(file.mode, Id(digest, file.content), file.name), Entry(TREE_MODE, Id(digest, tree), FOO)];
    DisguisedBytes(Entry(file.mode, Id(digest, file.content), file.name), Id(digest, tree));
  }

  /** The descent into the subtree never looks at the root. */
  lemma {:induction false} DescendSame(proof: Proof, proof': Proof, path: string, entries: seq<Entry>)
    requires proof.Keys == proof'.Keys && forall p :: p in proof && p != "" ==> proof[p] == proof'[p]
    ensures Descend(proof, path, entries) == Descend(proof', path, entries)
    decreases Longest(proof.Keys) - |path|, |entries|
  {
    if entries != [] {
      var child := path + "/" + entries[0].name;
      if entries[0].mode == TREE_MODE && child in proof {
        DescendSame(proof, proof', child, proof[child].entries);
      }
      DescendSame(proof, proof', path, entries[1..]);
    }
  }

  lemma LoneWellFormed(file: Child, tree: Object)
    requires WellFormed(Disguised(file, tree))
    ensures WellFormed(Lone(tree))
  {
    WellFormedChild([file, Child(TREE_MODE, FOO, tree)], 1);
  }

  lemma MisledAuthentic(digest: string -> string, file: Child, tree: Object, path: string)
    requires HexDigests(digest) && WellFormed(Disguised(file, tree)) && TreeAt(Lone(tree), SUBTREE)
    requires path in Misled(digest, file, tree)
    ensures Authentic(digest, Misled(digest, file, tree), path)
  {
    if path == "" {
      DisguisePayload(digest, file, tree);
    } else {
      LoneWellFormed(file, tree);
      HonestAuthentic(digest, Lone(tree), path);
      if RPartition(path).0 == "" {
        assert Honest(digest, Lone(tree))[""].entries == [Entry(TREE_MODE, Id(digest, tree), MODULES)];
      }
    }
  }

  /** The directory "foo40000 modules" is taken for "modules": a proof is accepted though there is no
      such subtree in the pinned tree at all. */
  lemma MistakenDirectory(digest: string -> string, file: Child, tree: Object, listing: seq<Listed>)
    requires HexDigests(digest) && WellFormed(Disguised(file, tree)) && file.content.Leaf? && TreeAt(Lone(tree), SUBTREE)
    requires multiset(listing) == multiset(Census(ChildrenAt(Lone(tree), SUBTREE), SUBTREE))
    ensures Accepts(digest, Misled(digest, file, tree), listing, Id(digest, Disguised(file, tree)))
    ensures !TreeAt(Disguised(file, tree), SUBTREE)
  {
    LoneWellFormed(file, tree);
    HonestAccepted(digest, Lone(tree), listing);
    MisledRooted(digest, file, tree);
    MisledAccepted(digest, Honest(digest, Lone(tree)), ProofTree(Id(digest, Disguised(file, tree)), Disguise(digest, file, tree)),
                   listing, Id(digest, Lone(tree)), Id(digest, Disguised(file, tree)));
    NoModules(file, tree);
  }

  lemma MisledAccepted(digest: string -> string, proof: Proof, top: ProofTree, listing: seq<Listed>, pin: string, pin': string)
    requires Accepts(digest, proof, listing, pin) && Rooted(digest, proof["" := top], pin')
    ensures Accepts(digest, proof["" := top], listing, pin')
  {
    var proof' := proof["" := top];
    assert proof'.Keys == proof.Keys;
    AcceptedAs(digest, proof, proof', listing, pin, pin');
  }

  lemma MisledRooted(digest: string -> string, file: Child, tree: Object)
    requires HexDigests(digest) && WellFormed(Disguised(file, tree)) && TreeAt(Lone(tree), SUBTREE)
    ensures Rooted(digest, Misled(digest, file, tree), Id(digest, Disguised(file, tree)))
  {
    forall path | path in Misled(digest, file, tree)
      ensures Authentic(digest, Misled(digest, file, tree), path)
    {
      MisledAuthentic(digest, file, tree, path);
    }
  }

  /** Two proofs that differ in the root alone accept the same listings, each under its own pin. */
  lemma AcceptedAs(digest: string -> string, proof: Proof, proof': Proof, listing: seq<Listed>, pin: string, pin': string)
    requires Accepts(digest, proof, listing, pin) && Rooted(digest, proof', pin')
    requires proof.Keys == proof'.Keys && forall p :: p in proof && p != "" ==> proof[p] == proof'[p]
    ensures Accepts(digest, proof', listing, pin')
  {
    SubtreeBelow();
    DescendSame(proof, proof', SUBTREE, proof[SUBTREE].entries);
  }

  lemma SubtreeBelow()
    ensures SUBTREE != ""
  {
  }

  lemma NamesDiffer()
    ensures FOO != MODULES
  {
    assert |FOO| != |MODULES|;
  }

  lemma NoModules(file: Child, tree: Object)
    requires WellFormed(Disguised(file, tree)) && file.content.Leaf?
    ensures !TreeAt(Disguised(file, tree), SUBTREE)
  {
    var root := Disguised(file, tree);
    NamesDiffer();
    if TreeAt(root, SUBTREE) {
      AncestorsAreTrees(root);
      AncestorNames();
      var children := root.children;
      var i := FindGives(children, MODULES);
    }
  }
}
