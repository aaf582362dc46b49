/** The manifest: a salted set of 16-byte keys, one per archived entry, with
    its line-oriented text form. The memory-hard hash that turns an entry into
    a key is a parameter `kdf` (any deterministic function of the entry, the
    salt and the hash settings). */
module Manifests {
  import opened Wrappers
  import opened Text
  import Hex

  const KeyLength: nat := 16
  const DefaultParallelism: U32 := 8
  const DefaultMemCost: U32 := 0x4_0000  // 1 << 18
  const DefaultTimeCost: U32 := 3

  /** `[u8; KEY_LENGTH]`: salts and keys. */
  type Key = s: seq<byte> | |s| == KeyLength witness seq(16, i => 0)

  datatype Error =
    | ParseIntError              // a header field is not the decimal text of a u32
    | InvalidAlgorithm           // algorithm tag other than 1
    | InvalidVariant             // argon2 variant tag other than 0, 1, 2
    | InvalidVersion             // argon2 version tag other than 0x10, 0x13
    | NotEnoughValues            // the header ran out of fields
    | InvalidHex(cause: Hex.HexError)
    | BadSaltLength              // the salt does not decode to 16 bytes
    | BadKeyLength               // a key line does not decode to 16 bytes

  /** The hashing scheme tag that leads the header. */
  datatype Algorithm = Argon2 {
    function AsU32(): U32 {
      1
    }

    static function FromU32(v: U32): (r: Result<Algorithm, Error>)
      ensures r.Success? <==> v == Argon2.AsU32()
      ensures r.Success? ==> r.value.AsU32() == v
      ensures r.Failure? ==> r.error == InvalidAlgorithm
    {
      if v == 1 then Success(Argon2) else Failure(InvalidAlgorithm)
    }
  }

  /** `argon2::Variant` and its numeric tags. */
  datatype Variant = Argon2d | Argon2i | Argon2id {
    function AsU32(): U32 {
      match this
      case Argon2d => 0
      case Argon2i => 1
      case Argon2id => 2
    }

    static function FromU32(v: U32): (r: Result<Variant, Error>)
      ensures forall x: Variant :: x.AsU32() == v ==> r == Success(x)
      ensures r.Success? ==> r.value.AsU32() == v
      ensures r.Failure? ==> r.error == InvalidVariant
    {
      if v == 0 then Success(Argon2d)
      else if v == 1 then Success(Argon2i)
      else if v == 2 then Success(Argon2id)
      else Failure(InvalidVariant)
    }
  }

  /** `argon2::Version` and its numeric tags. */
  datatype Version = Version10 | Version13 {
    function AsU32(): U32 {
      match this
      case Version10 => 0x10
      case Version13 => 0x13
    }

    static function FromU32(v: U32): (r: Result<Version, Error>)
      ensures forall x: Version :: x.AsU32() == v ==> r == Success(x)
      ensures r.Success? ==> r.value.AsU32() == v
      ensures r.Failure? ==> r.error == InvalidVersion
    {
      if v == 0x10 then Success(Version10)
      else if v == 0x13 then Success(Version13)
      else Failure(InvalidVersion)
    }
  }

  /** The hash settings `gen_key` hands to Argon2. */
  datatype HashConfig = HashConfig(lanes: U32, memCost: U32, timeCost: U32, variant: Variant, version: Version)

  /** The identity of a filesystem entry: relative path, modification time, owner, group and mode. */
  datatype Entry = Entry(path: seq<string>, modified: int, uid: U32, gid: U32, mode: U32)

  /** Serializing an entry and hashing it with Argon2 under a salt and settings. */
  type KeyDerivation = (Entry, Key, HashConfig) -> Key

  /** The value of a manifest: what `#[derive(Eq)]` compares. */
  datatype ManifestData = ManifestData(
    salt: Key,
    keys: set<Key>,
    lanes: U32,
    memCost: U32,
    timeCost: U32,
    variant: Variant,
    version: Version)
  {
    function Config(): HashConfig {
      HashConfig(lanes, memCost, timeCost, variant, version)
    }

    /** `gen_key`: the key of `e` under this manifest's salt and settings. */
    function GenKey(kdf: KeyDerivation, e: Entry): Key {
      kdf(e, salt, Config())
    }

    /** `contains`: the entry's key under this salt and these settings is stored. */
    predicate Contains(kdf: KeyDerivation, e: Entry)
      ensures keys == {} ==> !Contains(kdf, e)
    {
      GenKey(kdf, e) in keys
    }

    /** Adds the key of `e`: afterwards `e` is contained, everything contained
        before still is, and only the key set changed. */
    function Insert(kdf: KeyDerivation, e: Entry): (r: ManifestData)
      ensures r.Contains(kdf, e)
      ensures r == this.(keys := r.keys)
      ensures forall e' :: Contains(kdf, e') ==> r.Contains(kdf, e')
      ensures forall e' :: r.Contains(kdf, e') <==> Contains(kdf, e') || GenKey(kdf, e') == GenKey(kdf, e)
    {
      this.(keys := keys + {GenKey(kdf, e)})
    }
  }

  /** The key of an entry depends on the salt and the hash settings alone,
      never on the keys already stored; so two manifests that agree on salt,
      settings and keys agree on every entry. */
  lemma KeyIgnoresStoredKeys(m: ManifestData, n: ManifestData, kdf: KeyDerivation, e: Entry)
    requires n.salt == m.salt && n.Config() == m.Config()
    ensures n.GenKey(kdf, e) == m.GenKey(kdf, e)
    ensures n.keys == m.keys ==> (n.Contains(kdf, e) <==> m.Contains(kdf, e))
  {
  }

  /** Inserting the same entry twice is the same as inserting it once. */
  lemma InsertIdempotent(m: ManifestData, kdf: KeyDerivation, e: Entry)
    ensures m.Insert(kdf, e).Insert(kdf, e) == m.Insert(kdf, e)
  {
  }

  // ---------------------------------------------------------------------------
  // Key order: `Ord` of `[u8; 16]`, which orders the `BTreeSet`
  // ---------------------------------------------------------------------------

  /** Strict lexicographic order on byte strings. */
  predicate Below(a: seq<byte>, b: seq<byte>) {
    |b| > 0 && (|a| == 0 || a[0] < b[0] || (a[0] == b[0] && Below(a[1..], b[1..])))
  }

  lemma {:induction false} BelowAsymmetric(a: seq<byte>, b: seq<byte>)
    requires Below(a, b)
    ensures !Below(b, a)
  {
    if |a| > 0 && a[0] == b[0] && Below(a[1..], b[1..]) {
      BelowAsymmetric(a[1..], b[1..]);
    }
  }

  lemma {:induction false} BelowTransitive(a: seq<byte>, b: seq<byte>, c: seq<byte>)
    requires Below(a, b) && Below(b, c)
    ensures Below(a, c)
  {
    if |a| > 0 && a[0] == b[0] && b[0] == c[0] {
      BelowTransitive(a[1..], b[1..], c[1..]);
    }
  }

  lemma {:induction false} BelowTotal(a: seq<byte>, b: seq<byte>)
    requires a != b
    ensures Below(a, b) || Below(b, a)
  {
    if |a| > 0 && |b| > 0 && a[0] == b[0] {
      assert a == [a[0]] + a[1..] && b == [b[0]] + b[1..];
      BelowTotal(a[1..], b[1..]);
    }
  }

  /** `k` is the smallest key of `s`. */
  predicate IsLeast(k: Key, s: set<Key>) {
    k in s && forall j :: j in s && j != k ==> Below(k, j)
  }

  lemma {:induction false} LeastExists(s: set<Key>)
    requires s != {}
    ensures exists k :: IsLeast(k, s)
    decreases s
  {
    var x :| x in s;
    if s == {x} {
      assert IsLeast(x, s);
    } else {
      LeastExists(s - {x});
      var m: Key :| IsLeast(m, s - {x});
      if Below(x, m) {
        forall j | j in s && j != x
          ensures Below(x, j)
        {
          if j != m {
            BelowTransitive(x, m, j);
          }
        }
        assert IsLeast(x, s);
      } else {
        BelowTotal(x, m);
        assert IsLeast(m, s);
      }
    }
  }

  lemma LeastUnique(s: set<Key>)
    ensures forall a: Key, b: Key :: IsLeast(a, s) && IsLeast(b, s) ==> a == b
  {
    forall a: Key, b: Key | IsLeast(a, s) && IsLeast(b, s)
      ensures a == b
    {
      if a != b {
        BelowAsymmetric(a, b);
      }
    }
  }

  /** The keys of `s` in the order a `BTreeSet` iterates them: strictly ascending. */
  ghost function SortedKeys(s: set<Key>): (r: seq<Key>)
    ensures |r| == |s|
    ensures forall k :: k in r <==> k in s
    ensures forall i, j :: 0 <= i < j < |r| ==> Below(r[i], r[j])
    decreases s
  {
    if s == {} then []
    else
      LeastExists(s);
      var k :| IsLeast(k, s);
      [k] + SortedKeys(s - {k})
  }

  lemma SortedKeysFirst(s: set<Key>, k: Key)
    requires IsLeast(k, s)
    ensures SortedKeys(s) == [k] + SortedKeys(s - {k})
  {
    LeastUnique(s);
  }

  // ---------------------------------------------------------------------------
  // The text form written by `serialize`
  // ---------------------------------------------------------------------------

  /** The seven header fields: algorithm, variant, version, time cost, memory
      cost, lanes, salt. */
  function HeaderFields(d: ManifestData): seq<string> {
    [ Decimal(Argon2.AsU32()), Decimal(d.variant.AsU32()), Decimal(d.version.AsU32()),
      Decimal(d.timeCost), Decimal(d.memCost), Decimal(d.lanes), Hex.Encode(d.salt) ]
  }

  function HeaderLine(d: ManifestData): string {
    Join(HeaderFields(d), ' ') + "\n"
  }

  function KeyLine(k: Key): string {
    Hex.Encode(k) + "\n"
  }

  function KeyLines(ks: seq<Key>): string {
    if ks == [] then [] else KeyLine(ks[0]) + KeyLines(ks[1..])
  }

  /** The whole text `serialize` writes for `d`. */
  ghost function Serialized(d: ManifestData): string {
    HeaderLine(d) + KeyLines(SortedKeys(d.keys))
  }

  /** The key lines of a set start with the line of its least key. */
  lemma KeyLinesFirst(s: set<Key>, k: Key)
    requires IsLeast(k, s)
    ensures KeyLines(SortedKeys(s)) == KeyLine(k) + KeyLines(SortedKeys(s - {k}))
  {
    SortedKeysFirst(s, k);
    var sorted := SortedKeys(s);
    assert sorted[0] == k && sorted[1..] == SortedKeys(s - {k});
  }

  /** Writing the line of the least key leaves the rest of the set to write. */
  lemma SerializeStep(text: string, rest: set<Key>, k: Key, whole: string)
    requires IsLeast(k, rest)
    requires text + KeyLines(SortedKeys(rest)) == whole
    ensures (text + KeyLine(k)) + KeyLines(SortedKeys(rest - {k})) == whole
  {
    KeyLinesFirst(rest, k);
  }

  // ---------------------------------------------------------------------------
  // The text form read by `deserialize`
  // ---------------------------------------------------------------------------

  /** `Vec::reverse`. */
  function Reverse<T>(s: seq<T>): (r: seq<T>)
    ensures |r| == |s|
    ensures forall i :: 0 <= i < |s| ==> r[i] == s[|s| - 1 - i]
  {
    if s == [] then [] else Reverse(s[1..]) + [s[0]]
  }

  /** `Vec::pop`, a missing value becoming "not enough values". */
  function Pop<T>(v: seq<T>): (r: Result<(T, seq<T>), Error>)
    ensures r.Success? <==> |v| > 0
    ensures r.Success? ==> r.value.1 + [r.value.0] == v
    ensures r.Failure? ==> r.error == NotEnoughValues
  {
    if v == [] then Failure(NotEnoughValues) else Success((v[|v| - 1], v[..|v| - 1]))
  }

  /** The header fields are consumed first to last (the code reverses the
      vector of fields and pops from its end; `TakeFieldIsPop` shows the two
      agree). */
  function TakeField(fields: seq<string>): (r: Result<(string, seq<string>), Error>)
    ensures r.Success? <==> fields != []
    ensures r.Success? ==> r.value == (fields[0], fields[1..])
    ensures r.Failure? ==> r.error == NotEnoughValues
  {
    if fields == [] then Failure(NotEnoughValues) else Success((fields[0], fields[1..]))
  }

  /** Taking the front field is popping the reversed vector, and what is left
      is the reversal of what is left. */
  lemma TakeFieldIsPop(fields: seq<string>)
    ensures TakeField(fields).Failure? ==> Pop(Reverse(fields)) == Failure(NotEnoughValues)
    ensures TakeField(fields).Success? ==>
      Pop(Reverse(fields)) == Success((TakeField(fields).value.0, Reverse(TakeField(fields).value.1)))
  {
    if fields != [] {
      var r := Reverse(fields);
      assert r[..|r| - 1] == Reverse(fields[1..]);
    }
  }

  /** `str::parse::<u32>` with its error converted. */
  function Number(s: string): (r: Result<U32, Error>)
    ensures r.Success? <==> ParseU32(s).Some?
    ensures r.Success? ==> ParseU32(s) == Some(r.value)
    ensures r.Failure? ==> r.error == ParseIntError
  {
    match ParseU32(s)
    case Some(n) => Success(n)
    case None => Failure(ParseIntError)
  }

  /** `pop(&mut parts)?.parse()?` */
  function TakeNumber(fields: seq<string>): (r: Result<(U32, seq<string>), Error>)
    ensures r.Success? <==> fields != [] && ParseU32(fields[0]).Some?
    ensures r.Success? ==> r.value == (ParseU32(fields[0]).value, fields[1..])
    ensures r.Failure? ==> r.error == if fields == [] then NotEnoughValues else ParseIntError
  {
    var f :- TakeField(fields);
    var n :- Number(f.0);
    Success((n, f.1))
  }

  /** `hex::decode` of a field followed by the 16-byte length check. */
  function DecodeKey(field: string, wrongLength: Error): (r: Result<Key, Error>)
    ensures r.Success? <==> Hex.Decode(field).Success? && |Hex.Decode(field).value| == KeyLength
    ensures r.Success? ==> Hex.Decode(field) == Success(r.value)
    ensures Hex.Decode(field).Failure? ==> r == Failure(InvalidHex(Hex.Decode(field).error))
    ensures Hex.Decode(field).Success? && |Hex.Decode(field).value| != KeyLength ==> r == Failure(wrongLength)
  {
    match Hex.Decode(field)
    case Failure(e) => Failure(InvalidHex(e))
    case Success(bytes) => if |bytes| == KeyLength then Success(bytes) else Failure(wrongLength)
  }

  /** The first three header fields: algorithm tag, argon2 variant, argon2 version. */
  function ParseTags(fields: seq<string>): (r: Result<(Variant, Version), Error>)
    ensures r.Success? ==>
      && |fields| >= 3
      && ParseU32(fields[0]) == Some(Argon2.AsU32())
      && ParseU32(fields[1]) == Some(r.value.0.AsU32())
      && ParseU32(fields[2]) == Some(r.value.1.AsU32())
    ensures r.Failure? ==> r.error in {NotEnoughValues, ParseIntError, InvalidAlgorithm, InvalidVariant, InvalidVersion}
    ensures fields != [] && ParseU32(fields[0]) != Some(1) ==> r.Failure? && r.error in {ParseIntError, InvalidAlgorithm}
  {
    var a :- TakeNumber(fields);
    var algorithm :- Algorithm.FromU32(a.0);
    var b :- TakeNumber(a.1);
    var variant :- Variant.FromU32(b.0);
    var c :- TakeNumber(b.1);
    var version :- Version.FromU32(c.0);
    Success((variant, version))
  }

  /** Header fields four to six: time cost, memory cost, lanes. */
  function ParseCosts(fields: seq<string>): (r: Result<(U32, U32, U32), Error>)
    ensures r.Success? ==>
      && |fields| >= 3
      && ParseU32(fields[0]) == Some(r.value.0)
      && ParseU32(fields[1]) == Some(r.value.1)
      && ParseU32(fields[2]) == Some(r.value.2)
    ensures r.Failure? ==> r.error in {NotEnoughValues, ParseIntError}
  {
    var time :- TakeNumber(fields);
    var mem :- TakeNumber(time.1);
    var lanes :- TakeNumber(mem.1);
    Success((time.0, mem.0, lanes.0))
  }

  /** The seventh header field: the salt in hex, which must decode to 16 bytes. */
  function ParseSalt(fields: seq<string>): (r: Result<Key, Error>)
    ensures r.Success? <==> fields != [] && DecodeKey(fields[0], BadSaltLength).Success?
    ensures r.Success? ==> Hex.Decode(fields[0]) == Success(r.value)
    ensures r.Failure? ==> r.error in {NotEnoughValues, BadSaltLength} || r.error.InvalidHex?
  {
    var f :- TakeField(fields);
    DecodeKey(f.0, BadSaltLength)
  }

  /** Every field of a short header parses as a `u32`, and the tags among
      them (algorithm, variant, version) are ones the parser accepts. */
  predicate TagsAccepted(fields: seq<string>) {
    && (forall i :: 0 <= i < |fields| ==> ParseU32(fields[i]).Some?)
    && (|fields| > 0 ==> ParseU32(fields[0]) == Some(1))
    && (|fields| > 1 ==> ParseU32(fields[1]).value in {0, 1, 2})
    && (|fields| > 2 ==> ParseU32(fields[2]).value in {0x10, 0x13})
  }

  /** The trimmed header fields in order; fields after the seventh are ignored. */
  function ParseHeaderFields(fields: seq<string>): (r: Result<ManifestData, Error>)
    ensures r.Success? ==>
      && |fields| >= 7
      && r.value.keys == {}
      && ParseU32(fields[0]) == Some(Argon2.AsU32())
      && ParseU32(fields[1]) == Some(r.value.variant.AsU32())
      && ParseU32(fields[2]) == Some(r.value.version.AsU32())
      && ParseU32(fields[3]) == Some(r.value.timeCost)
      && ParseU32(fields[4]) == Some(r.value.memCost)
      && ParseU32(fields[5]) == Some(r.value.lanes)
      && Hex.Decode(fields[6]) == Success(r.value.salt)
    ensures |fields| < 7 ==> r.Failure? && r.error in {NotEnoughValues, ParseIntError, InvalidAlgorithm, InvalidVariant, InvalidVersion}
    ensures fields != [] && ParseU32(fields[0]) != Some(1) ==> r.Failure? && r.error in {ParseIntError, InvalidAlgorithm}
  {
    var tags :- ParseTags(fields);
    var costs :- ParseCosts(fields[3..]);
    var salt :- ParseSalt(fields[6..]);
    Success(ManifestData(salt, {}, costs.2, costs.1, costs.0, tags.0, tags.1))
  }

  /** Fewer than three fields: the tags run out exactly when every field present is accepted. */
  lemma ShortTags(fields: seq<string>)
    requires |fields| < 3
    ensures ParseTags(fields).Failure?
    ensures ParseTags(fields).error == NotEnoughValues <==> TagsAccepted(fields)
  {
    if |fields| == 2 {
      assert fields[1..][1..] == [];
    }
  }

  /** Three fields or more: the tags fail only on a field they read. */
  lemma LongTags(fields: seq<string>)
    requires |fields| >= 3
    ensures ParseTags(fields).Success? <==> TagsAccepted(fields[..3])
    ensures ParseTags(fields).Failure? ==> ParseTags(fields).error != NotEnoughValues
  {
    assert fields[1..][1..] == fields[2..];
  }

  /** At most three cost fields: they are read when there are three and each
      is a `u32`; otherwise they fail, with "not enough values" exactly when
      each field present is a `u32`. */
  lemma ShortCosts(g: seq<string>)
    requires |g| <= 3
    ensures ParseCosts(g).Success? <==> |g| == 3 && forall i :: 0 <= i < |g| ==> ParseU32(g[i]).Some?
    ensures ParseCosts(g).Failure? ==>
      (ParseCosts(g).error == NotEnoughValues <==> forall i :: 0 <= i < |g| ==> ParseU32(g[i]).Some?)
  {
    if |g| >= 2 {
      assert g[1..][1..] == g[2..];
    }
  }

  /** From three fields on, acceptance is that of the three tags plus a `u32`
      in every later field. */
  lemma TagsAcceptedSplit(fields: seq<string>)
    requires |fields| >= 3
    ensures TagsAccepted(fields) <==>
      TagsAccepted(fields[..3]) && forall i :: 3 <= i < |fields| ==> ParseU32(fields[i]).Some?
  {
    assert forall i :: 0 <= i < 3 ==> fields[i] == fields[..3][i];
  }

  /** Between three and six fields with accepted tags: the costs decide. */
  lemma ShortAfterTags(fields: seq<string>)
    requires 3 <= |fields| < 7 && ParseTags(fields).Success?
    ensures ParseHeaderFields(fields) == Failure(NotEnoughValues) <==>
      forall i :: 3 <= i < |fields| ==> ParseU32(fields[i]).Some?
  {
    var g := fields[3..];
    ShortCosts(g);
    if |fields| == 6 {
      assert fields[6..] == [];
    }
    assert forall i :: 3 <= i < |fields| ==> fields[i] == g[i - 3];
  }

  /** Fewer than seven fields end in "not enough values" exactly when each is
      a `u32` and the tags among them are accepted. */
  lemma ShortHeaderFields(fields: seq<string>)
    requires |fields| < 7
    ensures ParseHeaderFields(fields) == Failure(NotEnoughValues) <==> TagsAccepted(fields)
  {
    if |fields| < 3 {
      ShortTags(fields);
    } else {
      LongTags(fields);
      TagsAcceptedSplit(fields);
      if ParseTags(fields).Success? {
        ShortAfterTags(fields);
      }
    }
  }

  /** The header line: split on single spaces, each piece trimmed. */
  function ParseHeader(line: string): (r: Result<ManifestData, Error>)
    ensures r.Success? ==> r.value.keys == {} && |Split(line, ' ')| >= 7
    ensures |Split(line, ' ')| < 7 ==>
      (r == Failure(NotEnoughValues) <==> TagsAccepted(TrimAll(Split(line, ' '))))
  {
    var fields := TrimAll(Split(line, ' '));
    if |fields| < 7 then
      ShortHeaderFields(fields);
      ParseHeaderFields(fields)
    else
      ParseHeaderFields(fields)
  }

  /** One key per remaining line; the first bad line fails the whole parse. */
  function ParseKeyLines(lines: seq<string>, m: ManifestData): (r: Result<ManifestData, Error>)
    ensures r.Success? ==> r.value == m.(keys := r.value.keys) && m.keys <= r.value.keys
    ensures r.Failure? ==> r.error == BadKeyLength || r.error.InvalidHex?
  {
    if lines == [] then Success(m)
    else
      var key :- DecodeKey(Trim(lines[0]), BadKeyLength);
      ParseKeyLines(lines[1..], m.(keys := m.keys + {key}))
  }

  /** `deserialize` reads the header line, then the key lines that follow it. */
  lemma ParseStart(text: string)
    ensures var header := ParseHeader(ReadLine(text).0);
      Parse(text) == if header.Failure? then Failure(header.error)
                     else ParseKeyLines(Lines(ReadLine(text).1), header.value)
  {
  }

  /** Parsing the lines of a non-empty body: its first line decides, then the rest. */
  lemma NextKeyLine(body: string, m: ManifestData)
    requires body != []
    ensures var key := DecodeKey(Trim(ReadLine(body).0), BadKeyLength);
      ParseKeyLines(Lines(body), m) ==
        if key.Failure? then Failure(key.error)
        else ParseKeyLines(Lines(ReadLine(body).1), m.(keys := m.keys + {key.value}))
  {
    var (line, next) := ReadLine(body);
    assert Lines(body) == [line] + Lines(next);
    assert (([line] + Lines(next))[1..]) == Lines(next);
  }

  /** What `deserialize` returns for a text. */
  function Parse(text: string): (r: Result<ManifestData, Error>)
    ensures ParseHeader(ReadLine(text).0).Failure? ==> r == Failure(ParseHeader(ReadLine(text).0).error)
    ensures text == [] ==> r == Failure(ParseIntError)
  {
    var (header, body) := ReadLine(text);
    var m :- ParseHeader(header);
    ParseKeyLines(Lines(body), m)
  }

  /** The bytes of each line that decodes, collected. */
  ghost function DecodedKeys(lines: seq<string>): set<seq<byte>> {
    if lines == [] then {}
    else
      var first := Hex.Decode(Trim(lines[0]));
      (if first.Success? then {first.value} else {}) + DecodedKeys(lines[1..])
  }

  // ---------------------------------------------------------------------------
  // Round trip
  // ---------------------------------------------------------------------------

  /** Header fields that carry the values of `d` parse to `d` with no keys. */
  lemma HeaderFieldsComplete(fields: seq<string>, d: ManifestData)
    requires |fields| >= 7
    requires ParseU32(fields[0]) == Some(Argon2.AsU32())
    requires ParseU32(fields[1]) == Some(d.variant.AsU32())
    requires ParseU32(fields[2]) == Some(d.version.AsU32())
    requires ParseU32(fields[3]) == Some(d.timeCost)
    requires ParseU32(fields[4]) == Some(d.memCost)
    requires ParseU32(fields[5]) == Some(d.lanes)
    requires Hex.Decode(fields[6]) == Success(d.salt)
    ensures ParseHeaderFields(fields) == Success(d.(keys := {}))
  {
    assert fields[1..][1..] == fields[2..];
    assert fields[3..][1..] == fields[4..] && fields[4..][1..] == fields[5..];
  }

  lemma HeaderFieldsPlain(d: ManifestData)
    ensures forall i :: 0 <= i < 7 ==> Plain(HeaderFields(d)[i])
  {
    DecimalPlain(Argon2.AsU32());
    DecimalPlain(d.variant.AsU32());
    DecimalPlain(d.version.AsU32());
    DecimalPlain(d.timeCost);
    DecimalPlain(d.memCost);
    DecimalPlain(d.lanes);
    Hex.EncodePlain(d.salt);
  }

  /** The header line splits back into its seven fields. */
  lemma HeaderFieldsBack(d: ManifestData)
    ensures TrimAll(Split(HeaderLine(d), ' ')) == HeaderFields(d)
  {
    HeaderFieldsPlain(d);
    SplitTrimJoin(HeaderFields(d));
  }

  /** Each header field reads back as the value it was written from. */
  lemma HeaderFieldsValues(d: ManifestData)
    ensures var fs := HeaderFields(d);
      && ParseU32(fs[0]) == Some(Argon2.AsU32())
      && ParseU32(fs[1]) == Some(d.variant.AsU32())
      && ParseU32(fs[2]) == Some(d.version.AsU32())
      && ParseU32(fs[3]) == Some(d.timeCost)
      && ParseU32(fs[4]) == Some(d.memCost)
      && ParseU32(fs[5]) == Some(d.lanes)
      && Hex.Decode(fs[6]) == Success(d.salt)
  {
    ParseDecimal(Argon2.AsU32());
    ParseDecimal(d.variant.AsU32());
    ParseDecimal(d.version.AsU32());
    ParseDecimal(d.timeCost);
    ParseDecimal(d.memCost);
    ParseDecimal(d.lanes);
    Hex.DecodeEncode(d.salt);
  }

  lemma HeaderRoundTrip(d: ManifestData)
    ensures ParseHeader(HeaderLine(d)) == Success(d.(keys := {}))
  {
    HeaderFieldsBack(d);
    HeaderFieldsValues(d);
    HeaderFieldsComplete(HeaderFields(d), d);
  }

  /** The key lines, one string per key. */
  function KeyLineList(ks: seq<Key>): (r: seq<string>)
    ensures |r| == |ks|
    ensures forall i :: 0 <= i < |ks| ==> r[i] == KeyLine(ks[i])
  {
    if ks == [] then [] else [KeyLine(ks[0])] + KeyLineList(ks[1..])
  }

  lemma {:induction false} LinesOfKeyLines(ks: seq<Key>)
    ensures Lines(KeyLines(ks)) == KeyLineList(ks)
  {
    if ks != [] {
      Hex.EncodePlain(ks[0]);
      PlainAvoids(Hex.Encode(ks[0]), '\n');
      ReadLineOf(Hex.Encode(ks[0]), KeyLines(ks[1..]));
      LinesOfKeyLines(ks[1..]);
    }
  }

  lemma KeyLineDecodes(k: Key)
    ensures DecodeKey(Trim(KeyLine(k)), BadKeyLength) == Success(k)
  {
    Hex.EncodePlain(k);
    TrimPlain(Hex.Encode(k));
    Hex.DecodeEncode(k);
  }

  /** The keys of a sequence, as a set. */
  function KeySet(ks: seq<Key>): (r: set<Key>)
    ensures forall k :: k in r <==> k in ks
  {
    if ks == [] then {} else {ks[0]} + KeySet(ks[1..])
  }

  lemma {:induction false} KeyLinesRoundTrip(ks: seq<Key>, m: ManifestData)
    ensures ParseKeyLines(KeyLineList(ks), m) == Success(m.(keys := m.keys + KeySet(ks)))
  {
    if ks != [] {
      var m' := m.(keys := m.keys + {ks[0]});
      assert ParseKeyLines(KeyLineList(ks), m) == ParseKeyLines(KeyLineList(ks[1..]), m') by {
        KeyLineDecodes(ks[0]);
        assert KeyLineList(ks)[1..] == KeyLineList(ks[1..]);
      }
      KeyLinesRoundTrip(ks[1..], m');
      assert m'.keys + KeySet(ks[1..]) == m.keys + KeySet(ks) by {
        assert KeySet(ks) == {ks[0]} + KeySet(ks[1..]);
      }
    } else {
      assert m.(keys := m.keys + {}) == m;
    }
  }

  /** The first line of the serialized text is the header line. */
  lemma SerializedHeader(d: ManifestData)
    ensures ReadLine(Serialized(d)) == (HeaderLine(d), KeyLines(SortedKeys(d.keys)))
  {
    var fs := HeaderFields(d);
    HeaderFieldsPlain(d);
    forall i | 0 <= i < 7
      ensures '\n' !in fs[i]
    {
      PlainAvoids(fs[i], '\n');
    }
    JoinAvoids(fs, ' ', '\n');
    ReadLineOf(Join(fs, ' '), KeyLines(SortedKeys(d.keys)));
  }

  /** The key lines of a set, read back into a manifest with no keys, give it that set. */
  lemma BodyRoundTrip(keys: set<Key>, m: ManifestData)
    requires m.keys == {}
    ensures ParseKeyLines(Lines(KeyLines(SortedKeys(keys))), m) == Success(m.(keys := keys))
  {
    var sorted := SortedKeys(keys);
    assert Lines(KeyLines(sorted)) == KeyLineList(sorted) by {
      LinesOfKeyLines(sorted);
    }
    assert ParseKeyLines(KeyLineList(sorted), m) == Success(m.(keys := keys)) by {
      KeyLinesRoundTrip(sorted, m);
      assert m.keys + KeySet(sorted) == keys;
    }
  }

  /** `deserialize(serialize(m)) == m` for every salt, setting and key set. */
  lemma RoundTrip(d: ManifestData)
    ensures Parse(Serialized(d)) == Success(d)
  {
    SerializedHeader(d);
    HeaderRoundTrip(d);
    BodyRoundTrip(d.keys, d.(keys := {}));
  }

  /** `serialize` writes one header line, led by algorithm tag 1, then one line
      of 32 lowercase hex digits per key, in strictly ascending key order. */
  lemma SerializedLines(d: ManifestData)
    ensures var sorted := SortedKeys(d.keys);
      && Lines(Serialized(d)) == [HeaderLine(d)] + KeyLineList(sorted)
      && HeaderFields(d)[0] == "1"
      && (forall i, j :: 0 <= i < j < |sorted| ==> Below(sorted[i], sorted[j]))
      && KeySet(sorted) == d.keys
    ensures forall k: Key :: |KeyLine(k)| == 2 * KeyLength + 1 && forall i :: 0 <= i < 2 * KeyLength ==> Hex.IsLowerHex(KeyLine(k)[i])
  {
    var sorted := SortedKeys(d.keys);
    SerializedHeader(d);
    LinesOfKeyLines(sorted);
    assert KeySet(sorted) == d.keys;
  }

  // ---------------------------------------------------------------------------
  // Rejection rules
  // ---------------------------------------------------------------------------

  /** A first header field that is not the tag 1 is refused. */
  lemma RejectsUnknownAlgorithm(text: string)
    requires ParseU32(Trim(Split(ReadLine(text).0, ' ')[0])) != Some(1)
    ensures Parse(text).Failure?
    ensures Parse(text).error in {ParseIntError, InvalidAlgorithm}
  {
    var line := ReadLine(text).0;
    var fields := TrimAll(Split(line, ' '));
    assert fields[0] == Trim(Split(line, ' ')[0]);
    assert ParseHeader(line) == ParseHeaderFields(fields);
    assert ParseHeaderFields(fields).Failure?;
  }

  /** A header of fewer than seven fields is refused: with "not enough values"
      exactly when every field present is a `u32` and the tags among them are
      accepted. */
  lemma RejectsShortHeader(text: string)
    requires |Split(ReadLine(text).0, ' ')| < 7
    ensures Parse(text).Failure?
    ensures Parse(text).error in {NotEnoughValues, ParseIntError, InvalidAlgorithm, InvalidVariant, InvalidVersion}
    ensures Parse(text) == Failure(NotEnoughValues) <==> TagsAccepted(TrimAll(Split(ReadLine(text).0, ' ')))
  {
    var fields := TrimAll(Split(ReadLine(text).0, ' '));
    assert |fields| < 7;
  }

  lemma {:induction false} KeyLinesParsed(lines: seq<string>, m: ManifestData)
    requires ParseKeyLines(lines, m).Success?
    ensures var r := ParseKeyLines(lines, m).value;
      && r == m.(keys := r.keys)
      && r.keys == m.keys + DecodedKeys(lines)
      && forall line :: line in lines ==>
           Hex.Decode(Trim(line)).Success? && |Hex.Decode(Trim(line)).value| == KeyLength
  {
    if lines != [] {
      var key := DecodeKey(Trim(lines[0]), BadKeyLength).value;
      var m' := m.(keys := m.keys + {key});
      assert ParseKeyLines(lines, m) == ParseKeyLines(lines[1..], m');
      KeyLinesParsed(lines[1..], m');
      assert forall line :: line in lines ==> line == lines[0] || line in lines[1..];
    }
  }

  /** What a header line that parses holds: at least seven fields, the first
      seven carrying tag 1 and the settings and salt of the result. */
  lemma HeaderShape(line: string)
    requires ParseHeader(line).Success?
    ensures var fields := Split(line, ' ');
      var d := ParseHeader(line).value;
      && |fields| >= 7
      && d.keys == {}
      && ParseU32(Trim(fields[0])) == Some(Argon2.AsU32())
      && ParseU32(Trim(fields[1])) == Some(d.variant.AsU32())
      && ParseU32(Trim(fields[2])) == Some(d.version.AsU32())
      && ParseU32(Trim(fields[3])) == Some(d.timeCost)
      && ParseU32(Trim(fields[4])) == Some(d.memCost)
      && ParseU32(Trim(fields[5])) == Some(d.lanes)
      && Hex.Decode(Trim(fields[6])) == Success(d.salt)
  {
  }

  /** A successful `deserialize` took its settings and salt from the header
      line (see `HeaderShape`). */
  lemma ParsedHeader(text: string)
    requires Parse(text).Success?
    ensures ParseHeader(ReadLine(text).0) == Success(Parse(text).value.(keys := {}))
  {
    var m := SplitParse(text);
    KeyLinesParsed(Lines(ReadLine(text).1), m);
  }

  /** A successful `deserialize` read lines that each decode to a 16-byte key,
      and its key set is exactly those keys. */
  lemma ParsedKeys(text: string)
    requires Parse(text).Success?
    ensures var lines := Lines(ReadLine(text).1);
      && Parse(text).value.keys == DecodedKeys(lines)
      && forall line :: line in lines ==>
           Hex.Decode(Trim(line)).Success? && |Hex.Decode(Trim(line)).value| == KeyLength
  {
    var lines := Lines(ReadLine(text).1);
    var m := SplitParse(text);
    KeyLinesParsed(lines, m);
  }

  /** A text that parses has a header that parses, followed by key lines. */
  lemma SplitParse(text: string) returns (m: ManifestData)
    requires Parse(text).Success?
    ensures ParseHeader(ReadLine(text).0) == Success(m) && m.keys == {}
    ensures Parse(text) == ParseKeyLines(Lines(ReadLine(text).1), m)
  {
    m := ParseHeader(ReadLine(text).0).value;
  }

  /** A salt that does not decode to exactly 16 bytes is refused. */
  lemma RejectsBadSalt(text: string)
    requires var fields := Split(ReadLine(text).0, ' ');
      |fields| >= 7 && (Hex.Decode(Trim(fields[6])).Failure? || |Hex.Decode(Trim(fields[6])).value| != KeyLength)
    ensures Parse(text).Failure?
  {
    if Parse(text).Success? {
      ParsedHeader(text);
      HeaderShape(ReadLine(text).0);
    }
  }

  /** A key line that does not decode to exactly 16 bytes is refused. */
  lemma RejectsBadKeyLine(text: string, line: string)
    requires line in Lines(ReadLine(text).1)
    requires Hex.Decode(Trim(line)).Failure? || |Hex.Decode(Trim(line)).value| != KeyLength
    ensures Parse(text).Failure?
  {
    if Parse(text).Success? {
      ParsedKeys(text);
    }
  }

  /** In particular a blank line, which decodes to no bytes, is refused. */
  lemma RejectsBlankLine(text: string, line: string)
    requires line in Lines(ReadLine(text).1)
    requires Trim(line) == []
    ensures Parse(text).Failure?
  {
    assert Hex.Decode([]) == Success([]);
    RejectsBadKeyLine(text, line);
  }

  // ---------------------------------------------------------------------------
  // The manifest object
  // ---------------------------------------------------------------------------

  class Manifest {
    var salt: Key
    var keys: set<Key>
    var lanes: U32
    var memCost: U32
    var timeCost: U32
    var variant: Variant
    var version: Version

    function Data(): ManifestData
      reads this
    {
      ManifestData(salt, keys, lanes, memCost, timeCost, variant, version)
    }

    /** `Manifest::new`, with the salt the system's random source produced. */
    constructor New(randomSalt: Key)
      ensures salt == randomSalt && keys == {}
      ensures variant == Argon2i && version == Version13
      ensures timeCost == 3 && memCost == 0x4_0000 && lanes == 8
      ensures forall kdf, e :: !Data().Contains(kdf, e)
    {
      salt := randomSalt;
      keys := {};
      variant := Argon2i;
      version := Version13;
      timeCost := DefaultTimeCost;
      memCost := DefaultMemCost;
      lanes := DefaultParallelism;
    }

    /** The struct literal that `deserialize` builds from a parsed header. */
    constructor FromData(d: ManifestData)
      ensures Data() == d
    {
      salt := d.salt;
      keys := d.keys;
      lanes := d.lanes;
      memCost := d.memCost;
      timeCost := d.timeCost;
      variant := d.variant;
      version := d.version;
    }

    /** `deserialize`: the header, then one key per line until nothing is left. */
    static method Deserialize(text: string) returns (r: Result<Manifest, Error>)
      ensures r.Failure? ==> Parse(text) == Failure(r.error)
      ensures r.Success? ==> fresh(r.value) && Parse(text) == Success(r.value.Data())
    {
      var (header, rest) := ReadLine(text);
      var parsed := ParseHeader(header);
      ParseStart(text);
      if parsed.Failure? {
        return Failure(parsed.error);
      }
      var manifest := new Manifest.FromData(parsed.value);
      var read := manifest.ReadKeys(rest);
      if read.Fail? {
        return Failure(read.error);
      }
      return Success(manifest);
    }

    /** The loop of `deserialize` over the lines after the header: each
        line's key is added until a line does not decode to a key. */
    method ReadKeys(body: string) returns (r: Outcome<Error>)
      modifies this`keys
      ensures ParseKeyLines(Lines(body), old(Data())) == if r.Pass? then Success(Data()) else Failure(r.error)
    {
      var rest := body;
      while rest != []
        invariant ParseKeyLines(Lines(rest), Data()) == ParseKeyLines(Lines(body), old(Data()))
        decreases |rest|
      {
        var (line, next) := ReadLine(rest);
        var key := DecodeKey(Trim(line), BadKeyLength);
        NextKeyLine(rest, Data());
        if key.Failure? {
          return Fail(key.error);
        }
        ghost var before := Data();
        keys := keys + {key.value};
        assert Data() == before.(keys := before.keys + {key.value});
        rest := next;
      }
      return Pass;
    }

    /** `serialize`: the header line, then the keys in ascending order. */
    method Serialize() returns (text: string)
      ensures text == Serialized(Data())
    {
      ghost var whole := Serialized(Data());
      text := HeaderLine(Data());
      var rest := keys;
      while rest != {}
        invariant text + KeyLines(SortedKeys(rest)) == whole
        decreases rest
      {
        LeastExists(rest);
        var k: Key :| IsLeast(k, rest);
        SerializeStep(text, rest, k, whole);
        text := text + KeyLine(k);
        rest := rest - {k};
      }
    }

    /** `insert`: adds the entry's key; nothing but the key set changes. */
    method Insert(kdf: KeyDerivation, e: Entry)
      modifies this`keys
      ensures Data() == old(Data()).Insert(kdf, e)
      ensures Contains(kdf, e)
    {
      keys := keys + {Data().GenKey(kdf, e)};
    }

    predicate Contains(kdf: KeyDerivation, e: Entry)
      reads this
      ensures keys == {} ==> !Contains(kdf, e)
    {
      Data().Contains(kdf, e)
    }
  }
}
