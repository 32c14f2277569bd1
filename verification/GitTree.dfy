/** Git tree objects: the byte payload that is hashed, and its unique decoding. */
module GitTree {
  import opened Texts

  const ID_BYTES := 20

  /** One entry of a recorded tree, spelled as the proof file spells it. */
  datatype Entry = Entry(mode: string, id: string, name: string)

  /** What the payload retains of an entry. */
  datatype Stored = Stored(mode: string, name: string, id: string)

  /** str.lstrip("0") */
  function StripZeros(s: string): string {
    if s != "" && s[0] == '0' then StripZeros(s[1..]) else s
  }

  function HexValue(c: char): (v: Option<nat>)
    ensures v.Some? ==> v.value < 16
  {
    if '0' <= c <= '9' then Some((c - '0') as nat)
    else if 'a' <= c <= 'f' then Some((c - 'a') as nat + 10)
    else if 'A' <= c <= 'F' then Some((c - 'A') as nat + 10)
    else None
  }

  /** bytes.fromhex: both letter cases, and white space between (never inside) byte pairs. */
  function FromHex(s: string): Option<string> {
    if s == "" then Some("")
    else if AsciiSpace(s[0]) then FromHex(s[1..])
    else if |s| == 1 then None
    else
      match (HexValue(s[0]), HexValue(s[1]), FromHex(s[2..]))
      case (Some(high), Some(low), Some(rest)) => Some([(16 * high + low) as char] + rest)
      case _ => None
  }

  /** The bytes one entry contributes; None where bytes.fromhex raises. */
  function EntryBytes(e: Entry): Option<string> {
    match FromHex(e.id)
    case Some(id) => Some(StripZeros(e.mode) + " " + e.name + "\0" + id)
    case None => None
  }

  function Payload(entries: seq<Entry>): Option<string> {
    if entries == [] then Some("")
    else
      match (EntryBytes(entries[0]), Payload(entries[1..]))
      case (Some(first), Some(rest)) => Some(first + rest)
      case _ => None
  }

  /** The object header in front of the payload. */
  function Frame(payload: string): string {
    "tree " + Decimal(|payload|) + "\0" + payload
  }

  /** The loop of git_tree_hash; digest is SHA-1 followed by hexdigest. */
  function TreeHash(digest: string -> string, entries: seq<Entry>): Option<string> {
    match Payload(entries)
    case Some(payload) => Some(digest(Frame(payload)))
    case None => None
  }

  method GitTreeHash(digest: string -> string, entries: seq<Entry>) returns (r: Option<string>)
    ensures r == TreeHash(digest, entries)
  {
    var payload := "";
    assert entries[0..] == entries;
    assert Payload(entries).Some? ==> "" + Payload(entries).value == Payload(entries).value;
    for i := 0 to |entries|
      invariant Payload(entries) ==
                match Payload(entries[i..]) { case Some(rest) => Some(payload + rest) case None => None }
    {
      assert entries[i..][1..] == entries[i + 1..];
      match EntryBytes(entries[i]) {
        case Some(bytes) =>
          ghost var before := payload;
          payload := payload + bytes;
          assert Payload(entries[i + 1..]).Some? ==>
              before + (bytes + Payload(entries[i + 1..]).value) == payload + Payload(entries[i + 1..]).value;
        case None => return None;
      }
    }
    assert payload + "" == payload;
    return Some(digest(Frame(payload)));
  }

  // ----- unique decoding

  function Normal(e: Entry): Stored {
    Stored(StripZeros(e.mode), e.name, match FromHex(e.id) { case Some(id) => id case None => "" })
  }

  function NormalList(entries: seq<Entry>): (r: seq<Stored>)
    ensures |r| == |entries|
    ensures forall i :: 0 <= i < |r| ==> r[i] == Normal(entries[i])
  {
    seq(|entries|, i requires 0 <= i < |entries| => Normal(entries[i]))
  }

  /** An entry whose bytes can be told apart from its neighbours'. */
  predicate Decodable(e: Entry) {
    ' ' !in e.mode && '\0' !in e.name && FromHex(e.id).Some? && |FromHex(e.id).value| == ID_BYTES
  }

  predicate AllDecodable(entries: seq<Entry>) {
    forall i :: 0 <= i < |entries| ==> Decodable(entries[i])
  }

  /** Read a payload back: a mode up to a space, a name up to a NUL, then twenty bytes. */
  function Decode(payload: string): Option<seq<Stored>>
    decreases |payload|
  {
    if payload == "" then Some([])
    else
      var space := IndexFrom(payload, 0, ' ');
      if space == |payload| then None else
      var nul := IndexFrom(payload, space + 1, '\0');
      if nul + 1 + ID_BYTES > |payload| then None else
      match Decode(payload[nul + 1 + ID_BYTES..])
      case Some(rest) =>
        Some([Stored(payload[..space], payload[space + 1..nul], payload[nul + 1..nul + 1 + ID_BYTES])] + rest)
      case None => None
  }

  lemma IndexAfter(prefix: string, c: char, rest: string, s: string, i: nat)
    requires i <= |prefix| && forall j :: i <= j < |prefix| ==> prefix[j] != c
    requires s == prefix + [c] + rest
    ensures IndexFrom(s, i, c) == |prefix|
  {
    assert s[|prefix|] == c;
    assert forall j :: 0 <= j < |prefix| ==> s[j] == prefix[j];
  }

  lemma StripZerosSuffix(s: string)
    ensures forall c :: c in StripZeros(s) ==> c in s
  {
  }

  lemma Pieces(mode: string, name: string, id: string, tail: string, payload: string)
    requires payload == mode + " " + name + "\0" + id + tail
    ensures payload == mode + [' '] + (name + "\0" + id + tail) == mode + " " + name + ['\0'] + (id + tail)
    ensures payload[..|mode|] == mode && payload[|mode| + 1..|mode| + 1 + |name|] == name
    ensures payload[|mode| + |name| + 2..|mode| + |name| + 2 + |id|] == id && payload[|mode| + |name| + 2 + |id|..] == tail
  {
  }

  lemma PiecesFound(mode: string, name: string, id: string, tail: string, payload: string)
    requires ' ' !in mode && '\0' !in name && payload == mode + " " + name + "\0" + id + tail
    ensures |mode| < |payload| && IndexFrom(payload, 0, ' ') == |mode|
    ensures IndexFrom(payload, |mode| + 1, '\0') == |mode| + 1 + |name|
  {
    Pieces(mode, name, id, tail, payload);
    IndexAfter(mode, ' ', name + "\0" + id + tail, payload, 0);
    IndexAfter(mode + " " + name, '\0', id + tail, payload, |mode| + 1);
  }

  /** Decoding takes off one entry's bytes. */
  lemma DecodeFirst(mode: string, name: string, id: string, tail: string, payload: string)
    requires ' ' !in mode && '\0' !in name && |id| == ID_BYTES && payload == mode + " " + name + "\0" + id + tail
    ensures Decode(payload) ==
            match Decode(tail) { case Some(rest) => Some([Stored(mode, name, id)] + rest) case None => None }
  {
    PiecesFound(mode, name, id, tail, payload);
    Pieces(mode, name, id, tail, payload);
  }

  /** Decoding what was encoded gives the entries back, up to leading zeros of the mode
      and the spelling of the identifier. */
  lemma {:induction false} DecodePayload(entries: seq<Entry>)
    requires AllDecodable(entries)
    ensures Payload(entries).Some? && Decode(Payload(entries).value) == Some(NormalList(entries))
  {
    if entries == [] {
    } else {
      DecodePayload(entries[1..]);
      var e, tail := entries[0], Payload(entries[1..]).value;
      StripZerosSuffix(e.mode);
      DecodeFirst(StripZeros(e.mode), e.name, FromHex(e.id).value, tail, EntryBytes(e).value + tail);
      assert NormalList(entries) == [Normal(e)] + NormalList(entries[1..]);
    }
  }

  lemma {:induction false} PayloadOfNormal(a: seq<Entry>, b: seq<Entry>)
    requires AllDecodable(a) && AllDecodable(b)
    requires NormalList(a) == NormalList(b)
    ensures Payload(a) == Payload(b)
  {
    assert |a| == |NormalList(a)| == |NormalList(b)| == |b|;
    if a != [] {
      assert Normal(a[0]) == NormalList(a)[0] == NormalList(b)[0] == Normal(b[0]);
      assert NormalList(a[1..]) == NormalList(a)[1..] == NormalList(b)[1..] == NormalList(b[1..]);
      PayloadOfNormal(a[1..], b[1..]);
    }
  }

  /** Two decodable entry lists have the same payload exactly when they agree entry by entry. */
  lemma PayloadInjective(a: seq<Entry>, b: seq<Entry>)
    requires AllDecodable(a) && AllDecodable(b)
    ensures Payload(a) == Payload(b) <==> NormalList(a) == NormalList(b)
  {
    DecodePayload(a);
    DecodePayload(b);
    if NormalList(a) == NormalList(b) {
      PayloadOfNormal(a, b);
    }
  }

  /** The length in the header does not blur payloads. */
  lemma FrameInjective(a: string, b: string)
    requires Frame(a) == Frame(b)
    ensures a == b
  {
    var s := Frame(a);
    assert forall n: nat :: '\0' !in "tree " + Decimal(n);
    IndexAfter("tree " + Decimal(|a|), '\0', a, s, 0);
    IndexAfter("tree " + Decimal(|b|), '\0', b, s, 0);
    assert |"tree " + Decimal(|a|)| == |"tree " + Decimal(|b|)|;
    assert s[|"tree " + Decimal(|a|)| + 1..] == a;
    assert s[|"tree " + Decimal(|b|)| + 1..] == b;
  }

  // ----- canonical spellings

  predicate OctalDigit(c: char) {
    '0' <= c <= '7'
  }

  predicate CanonicalMode(mode: string) {
    |mode| == 6 && forall i :: 0 <= i < 6 ==> OctalDigit(mode[i])
  }

  predicate LowerHex(c: char) {
    '0' <= c <= '9' || 'a' <= c <= 'f'
  }

  /** A hexadecimal digest as hexdigest prints it. */
  predicate IsDigest(id: string) {
    |id| == 2 * ID_BYTES && forall i :: 0 <= i < |id| ==> LowerHex(id[i])
  }

  predicate Canonical(e: Entry) {
    CanonicalMode(e.mode) && IsDigest(e.id)
  }

  /** Spelled as Git prints it: then it is also decodable. */
  predicate Plain(e: Entry) {
    Canonical(e) && '\0' !in e.name
  }

  lemma PlainDecodes(e: Entry)
    requires Plain(e)
    ensures Decodable(e)
  {
    FromHexLower(e.id);
  }

  lemma {:induction false} StripZerosLength(s: string, t: string)
    requires |s| == |t| && StripZeros(s) == StripZeros(t)
    ensures s == t
  {
    StripZerosShort(s);
    StripZerosShort(t);
    if s != "" {
      if s[0] == '0' && t[0] == '0' {
        StripZerosLength(s[1..], t[1..]);
        assert s == [s[0]] + s[1..] && t == [t[0]] + t[1..];
      } else if s[0] == '0' {
        StripZerosShort(s[1..]);
      } else if t[0] == '0' {
        StripZerosShort(t[1..]);
      }
    }
  }

  lemma StripZerosShort(s: string)
    ensures |StripZeros(s)| <= |s|
  {
  }

  lemma {:induction false} FromHexLower(s: string)
    requires |s| % 2 == 0 && forall i :: 0 <= i < |s| ==> LowerHex(s[i])
    ensures FromHex(s).Some? && |FromHex(s).value| == |s| / 2
  {
    if s != "" {
      FromHexLower(s[2..]);
    }
  }

  lemma {:induction false} FromHexInjective(s: string, t: string)
    requires |s| % 2 == 0 && forall i :: 0 <= i < |s| ==> LowerHex(s[i])
    requires |t| % 2 == 0 && forall i :: 0 <= i < |t| ==> LowerHex(t[i])
    requires FromHex(s) == FromHex(t)
    ensures s == t
  {
    FromHexLower(s);
    FromHexLower(t);
    if s != "" {
      var a, b := FromHex(s).value, FromHex(t).value;
      FromHexLower(s[2..]);
      FromHexLower(t[2..]);
      assert a[0] == b[0] && a[1..] == b[1..];
      assert a[1..] == FromHex(s[2..]).value && b[1..] == FromHex(t[2..]).value;
      FromHexInjective(s[2..], t[2..]);
      PairInjective(HexValue(s[0]).value, HexValue(s[1]).value, HexValue(t[0]).value, HexValue(t[1]).value);
      assert s == [s[0], s[1]] + s[2..] && t == [t[0], t[1]] + t[2..];
    }
  }

  lemma PairInjective(a: nat, b: nat, c: nat, d: nat)
    requires a < 16 && b < 16 && c < 16 && d < 16
    requires (16 * a + b) as char == (16 * c + d) as char
    ensures a == c && b == d
  {
    assert 16 * a + b == 16 * c + d;
  }

  lemma DigestInjective(s: string, t: string)
    requires IsDigest(s) && IsDigest(t) && FromHex(s) == FromHex(t)
    ensures s == t
  {
    FromHexInjective(s, t);
  }

  /** On canonical spellings the payload determines the entries themselves. */
  lemma CanonicalNormal(a: Entry, b: Entry)
    requires Canonical(a) && Canonical(b) && Normal(a) == Normal(b)
    ensures a == b
  {
    StripZerosLength(a.mode, b.mode);
    FromHexLower(a.id);
    FromHexLower(b.id);
    DigestInjective(a.id, b.id);
  }
}
