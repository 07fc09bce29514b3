/**
 The keys values are sealed with, as settings list them, and the sealed form that names its key. Encryption is the
 abstract one of section 2.1 of RFC 5116: a key, a nonce and associated data seal and open.
 */
module Keyring {
  import opened Common

  const FORMAT_V1 := 1
  const FORMAT_V2 := 2
  const NONCE_BYTES: nat := 12
  const KEY_BYTES: nat := 32
  const MAX_KEY_ID_BYTES: nat := 255
  const LEGACY: Bytes := [108, 101, 103, 97, 99, 121]

  // ---------- Reading the settings ----------

  // One entry of the setting, its spaces trimmed: no text at all, text without a colon, or a key id and a key.
  datatype Entry = Blank | NoPair | Pair(kid: Bytes, encoded: Bytes)

  datatype Ring = Ring(primary: Bytes, keys: map<Bytes, Bytes>)

  datatype Error = NoKeyId | BadKeyId | TwiceTaken | BadKey | Differs | NoKeys | BadFormat | UnknownKeyId | NotAuthentic
  datatype Result<+T> = Ok(value: T) | Err(error: Error)

  // Base64 into a key, or nothing when it is neither base64 nor 32 bytes.
  type Decode = Bytes -> Option<Bytes>

  ghost predicate IsDecode(decode: Decode) {
    forall e: Bytes :: decode(e).Some? ==> |decode(e).value| == KEY_BYTES
  }

  function Added(decode: Decode, ring: Ring, kid: Bytes, encoded: Bytes): Result<Ring> {
    if kid == [] || |kid| > MAX_KEY_ID_BYTES then Err(BadKeyId)
    else if kid in ring.keys then Err(TwiceTaken)
    else if decode(encoded).None? then Err(BadKey)
    else Ok(Ring(if ring.primary == [] then kid else ring.primary, ring.keys[kid := decode(encoded).value]))
  }

  function EntriesAdded(decode: Decode, ring: Ring, entries: seq<Entry>): Result<Ring>
    decreases |entries|
  {
    if entries == [] then Ok(ring)
    else
      match entries[0]
      case Blank => EntriesAdded(decode, ring, entries[1..])
      case NoPair => Err(NoKeyId)
      case Pair(kid, encoded) =>
        match Added(decode, ring, kid, encoded)
        case Err(error) => Err(error)
        case Ok(more) => EntriesAdded(decode, more, entries[1..])
  }

  // The key of the setting that came before the ring; listing the same key under a name makes it superfluous.
  function LegacyAdded(decode: Decode, ring: Ring, legacy: Option<Bytes>): Result<Ring> {
    if legacy.None? then Ok(ring)
    else if LEGACY !in ring.keys then Added(decode, ring, LEGACY, legacy.value)
    else if decode(legacy.value).None? then Err(BadKey)
    else if decode(legacy.value).value != ring.keys[LEGACY] then Err(Differs)
    else Ok(ring)
  }

  function Parsed(decode: Decode, entries: seq<Entry>, legacy: Option<Bytes>): Result<Ring> {
    match EntriesAdded(decode, Ring([], map[]), entries)
    case Err(error) => Err(error)
    case Ok(ring) =>
      match LegacyAdded(decode, ring, legacy)
      case Err(error) => Err(error)
      case Ok(full) => if full.primary == [] then Err(NoKeys) else Ok(full)
  }

  class Keys {
    const decode: Decode
    var primary: Bytes
    var keys: map<Bytes, Bytes>

    function View(): Ring
      reads this
    {
      Ring(primary, keys)
    }

    constructor (decode: Decode)
      ensures this.decode == decode && View() == Ring([], map[])
    {
      this.decode, primary, keys := decode, [], map[];
    }

    method Add(kid: Bytes, encoded: Bytes) returns (error: Option<Error>)
      modifies this
      ensures match Added(decode, old(View()), kid, encoded)
              case Err(e) => error == Some(e) && View() == old(View())
              case Ok(ring) => error == None && View() == ring
    {
      if kid == [] || |kid| > MAX_KEY_ID_BYTES {
        return Some(BadKeyId);
      }
      if kid in keys {
        return Some(TwiceTaken);
      }
      var key := decode(encoded);
      if key.None? {
        return Some(BadKey);
      }
      keys := keys[kid := key.value];
      if primary == [] {
        primary := kid;
      }
      return None;
    }

    method AddLegacy(legacy: Option<Bytes>) returns (error: Option<Error>)
      modifies this
      ensures match LegacyAdded(decode, old(View()), legacy)
              case Err(e) => error == Some(e) && View() == old(View())
              case Ok(ring) => error == None && View() == ring
    {
      if legacy.None? {
        return None;
      }
      if LEGACY !in keys {
        error := Add(LEGACY, legacy.value);
        return;
      }
      var key := decode(legacy.value);
      if key.None? {
        return Some(BadKey);
      }
      return if key.value != keys[LEGACY] then Some(Differs) else None;
    }
  }

  method Parse(decode: Decode, entries: seq<Entry>, legacy: Option<Bytes>) returns (r: Result<Ring>)
    ensures r == Parsed(decode, entries, legacy)
  {
    var ring := new Keys(decode);
    var rest := entries;
    while rest != []
      invariant ring.decode == decode
      invariant EntriesAdded(decode, ring.View(), rest) == EntriesAdded(decode, Ring([], map[]), entries)
      decreases |rest|
    {
      match rest[0] {
        case Blank =>
        case NoPair => return Err(NoKeyId);
        case Pair(kid, encoded) =>
          var error := ring.Add(kid, encoded);
          if error.Some? {
            return Err(error.value);
          }
      }
      rest := rest[1..];
    }
    var error := ring.AddLegacy(legacy);
    if error.Some? {
      return Err(error.value);
    }
    return if ring.primary == [] then Err(NoKeys) else Ok(ring.View());
  }

  // ---------- What a ring that parses holds ----------

  predicate IsSound(ring: Ring) {
    && (ring.primary == [] <==> ring.keys == map[]) && (ring.primary != [] ==> ring.primary in ring.keys)
    && forall kid | kid in ring.keys :: 0 < |kid| <= MAX_KEY_ID_BYTES && |ring.keys[kid]| == KEY_BYTES
  }

  lemma {:induction false} EntriesKeepSound(decode: Decode, ring: Ring, entries: seq<Entry>)
    requires IsDecode(decode) && IsSound(ring)
    ensures var r := EntriesAdded(decode, ring, entries);
            r.Ok? ==> IsSound(r.value) && ring.keys.Keys <= r.value.keys.Keys
                      && (forall kid :: kid in ring.keys ==> r.value.keys[kid] == ring.keys[kid])
                      && (ring.primary != [] ==> r.value.primary == ring.primary)
    decreases |entries|
  {
    if entries != [] {
      match entries[0]
      case Blank => EntriesKeepSound(decode, ring, entries[1..]);
      case NoPair =>
      case Pair(kid, encoded) =>
        var added := Added(decode, ring, kid, encoded);
        if added.Ok? {
          EntriesKeepSound(decode, added.value, entries[1..]);
        }
    }
  }

  // A ring that parses has a primary key, well-formed ids and whole keys.
  lemma ParsedIsSound(decode: Decode, entries: seq<Entry>, legacy: Option<Bytes>)
    requires IsDecode(decode) && Parsed(decode, entries, legacy).Ok?
    ensures IsSound(Parsed(decode, entries, legacy).value) && Parsed(decode, entries, legacy).value.primary != []
  {
    EntriesKeepSound(decode, Ring([], map[]), entries);
  }

  // ---------- Which settings parse, and to what ----------

  predicate IsGood(decode: Decode, entry: Entry) {
    entry.Blank? || (entry.Pair? && 0 < |entry.kid| <= 255 && decode(entry.encoded).Some?)
  }

  // Every entry is blank or a key under an id of its own.
  predicate AreGood(decode: Decode, taken: set<Bytes>, entries: seq<Entry>) {
    && (forall i :: 0 <= i < |entries| ==> IsGood(decode, entries[i]))
    && (forall i :: 0 <= i < |entries| && entries[i].Pair? ==> entries[i].kid !in taken)
    && (forall i, j :: 0 <= i < j < |entries| && entries[i].Pair? && entries[j].Pair? ==>
          entries[i].kid != entries[j].kid)
  }

  ghost predicate IsListed(decode: Decode, entries: seq<Entry>, kid: Bytes, key: Bytes) {
    exists i ::
      0 <= i < |entries| && entries[i].Pair? && entries[i].kid == kid && decode(entries[i].encoded) == Some(key)
  }

  predicate HasKey(ring: Ring, kid: Bytes, key: Bytes) {
    kid in ring.keys && ring.keys[kid] == key
  }

  lemma GoodBehind(decode: Decode, taken: set<Bytes>, entries: seq<Entry>)
    requires entries != []
    ensures AreGood(decode, taken, entries) <==>
      && IsGood(decode, entries[0])
      && AreGood(decode, if entries[0].Pair? then taken + {entries[0].kid} else taken, entries[1..])
      && (entries[0].Pair? ==> entries[0].kid !in taken)
  {
    var more := if entries[0].Pair? then taken + {entries[0].kid} else taken;
    if AreGood(decode, more, entries[1..]) && IsGood(decode, entries[0]) {
      forall i | 0 <= i < |entries| ensures IsGood(decode, entries[i]) {
        assert i > 0 ==> entries[i] == entries[1..][i - 1];
      }
      forall i | 0 < i < |entries| && entries[i].Pair? ensures entries[i].kid !in more {
        assert entries[i] == entries[1..][i - 1];
      }
      forall i, j | 0 < i < j < |entries| && entries[i].Pair? && entries[j].Pair?
        ensures entries[i].kid != entries[j].kid
      {
        assert entries[i] == entries[1..][i - 1] && entries[j] == entries[1..][j - 1];
      }
    }
  }

  lemma ListedBehind(decode: Decode, entries: seq<Entry>, kid: Bytes, key: Bytes)
    requires entries != []
    ensures IsListed(decode, entries, kid, key) <==>
      || (entries[0].Pair? && entries[0].kid == kid && decode(entries[0].encoded) == Some(key))
      || IsListed(decode, entries[1..], kid, key)
  {
    if IsListed(decode, entries[1..], kid, key) {
      var i :| 0 <= i < |entries[1..]| && entries[1..][i].Pair? && entries[1..][i].kid == kid
               && decode(entries[1..][i].encoded) == Some(key);
      assert entries[i + 1] == entries[1..][i];
    }
    if IsListed(decode, entries, kid, key) {
      var i :| 0 <= i < |entries| && entries[i].Pair? && entries[i].kid == kid
               && decode(entries[i].encoded) == Some(key);
      assert i > 0 ==> entries[1..][i - 1] == entries[i];
    }
  }

  lemma {:induction false} EntriesAddedExactly(decode: Decode, ring: Ring, entries: seq<Entry>, kid: Bytes, key: Bytes)
    ensures var r := EntriesAdded(decode, ring, entries);
            && (r.Ok? <==> AreGood(decode, ring.keys.Keys, entries))
            && (r.Ok? ==>
                  (HasKey(r.value, kid, key) <==> HasKey(ring, kid, key) || IsListed(decode, entries, kid, key)))
    decreases |entries|
  {
    if entries != [] {
      GoodBehind(decode, ring.keys.Keys, entries);
      ListedBehind(decode, entries, kid, key);
      match entries[0]
      case Blank => EntriesAddedExactly(decode, ring, entries[1..], kid, key);
      case NoPair =>
      case Pair(_, _) =>
        var added := Added(decode, ring, entries[0].kid, entries[0].encoded);
        if added.Ok? {
          assert added.value.keys.Keys == ring.keys.Keys + {entries[0].kid};
          EntriesAddedExactly(decode, added.value, entries[1..], kid, key);
        }
    }
  }

  predicate IsFirstPair(entries: seq<Entry>, i: int) {
    0 <= i < |entries| && entries[i].Pair? && forall j :: 0 <= j < i ==> !entries[j].Pair?
  }

  // The first key listed is the one to seal with.
  lemma {:induction false} FirstIsPrimary(decode: Decode, ring: Ring, entries: seq<Entry>)
    requires EntriesAdded(decode, ring, entries).Ok?
    ensures var r := EntriesAdded(decode, ring, entries).value;
            && (ring.primary != [] ==> r.primary == ring.primary)
            && (ring.primary == [] ==> (forall i :: IsFirstPair(entries, i) ==> r.primary == entries[i].kid))
            && (ring.primary == [] && (forall i :: 0 <= i < |entries| ==> !entries[i].Pair?) ==> r.primary == [])
    decreases |entries|
  {
    if entries != [] {
      var rest := entries[1..];
      var next := if entries[0].Pair? then Added(decode, ring, entries[0].kid, entries[0].encoded).value else ring;
      FirstIsPrimary(decode, next, rest);
      forall i | IsFirstPair(entries, i) ensures i == 0 || IsFirstPair(rest, i - 1) {
        assert forall j :: 0 < j <= i ==> rest[j - 1] == entries[j];
      }
      assert forall i :: 0 <= i < |rest| ==> rest[i] == entries[i + 1];
    }
  }

  // What the ring holds once the entries are read.
  lemma ReadExactly(decode: Decode, entries: seq<Entry>)
    requires IsDecode(decode)
    ensures var r := EntriesAdded(decode, Ring([], map[]), entries);
            && (r.Ok? <==> AreGood(decode, {}, entries))
            && (r.Ok? ==>
                  && (forall kid, key :: HasKey(r.value, kid, key) <==> IsListed(decode, entries, kid, key))
                  && IsSound(r.value)
                  && (forall i :: IsFirstPair(entries, i) ==> r.value.primary == entries[i].kid)
                  && (r.value.primary == [] <==> forall i :: 0 <= i < |entries| ==> !entries[i].Pair?))
  {
    var start: Ring := Ring([], map[]);
    assert start.keys.Keys == {};
    EntriesAddedExactly(decode, start, entries, [], []);
    if EntriesAdded(decode, start, entries).Ok? {
      forall kid, key
        ensures HasKey(EntriesAdded(decode, start, entries).value, kid, key) <==> IsListed(decode, entries, kid, key)
      {
        EntriesAddedExactly(decode, start, entries, kid, key);
      }
      EntriesKeepSound(decode, start, entries);
      FirstIsPrimary(decode, start, entries);
      SomePairExactly(entries);
      assert forall i :: IsFirstPair(entries, i) ==> IsGood(decode, entries[i]) && entries[i].kid != [];
    }
  }

  /**
   The settings parse exactly when every entry does, under an id of its own, when the old single key does and differs
   from no key listed as the legacy one, and when there is a key at all.
   */
  lemma ParsesExactly(decode: Decode, entries: seq<Entry>, legacy: Option<Bytes>)
    requires IsDecode(decode)
    ensures Parsed(decode, entries, legacy).Ok? <==>
      && AreGood(decode, {}, entries)
      && (legacy.Some? ==>
            && decode(legacy.value).Some?
            && forall k :: IsListed(decode, entries, LEGACY, k) ==> decode(legacy.value) == Some(k))
      && (legacy.Some? || exists i :: 0 <= i < |entries| && entries[i].Pair?)
  {
    ReadExactly(decode, entries);
    var read := EntriesAdded(decode, Ring([], map[]), entries);
    if read.Ok? {
      var ring := read.value;
      LegacyKey(decode, ring, legacy, [], []);
      if LEGACY in ring.keys {
        assert HasKey(ring, LEGACY, ring.keys[LEGACY]);
      }
      assert forall k :: IsListed(decode, entries, LEGACY, k) <==> HasKey(ring, LEGACY, k);
    }
  }

  // The ring then holds the keys listed and the old one, each under its id, and seals with the one listed first.
  lemma ParsedExactly(decode: Decode, entries: seq<Entry>, legacy: Option<Bytes>, kid: Bytes, key: Bytes)
    requires IsDecode(decode) && Parsed(decode, entries, legacy).Ok?
    ensures HasKey(Parsed(decode, entries, legacy).value, kid, key) <==>
      IsListed(decode, entries, kid, key) || (kid == LEGACY && legacy.Some? && decode(legacy.value) == Some(key))
    ensures forall i :: IsFirstPair(entries, i) ==> Parsed(decode, entries, legacy).value.primary == entries[i].kid
  {
    ReadExactly(decode, entries);
    LegacyKey(decode, EntriesAdded(decode, Ring([], map[]), entries).value, legacy, kid, key);
  }

  lemma {:induction false} SomePairExactly(entries: seq<Entry>)
    ensures (exists i :: 0 <= i < |entries| && entries[i].Pair?) <==> exists i :: IsFirstPair(entries, i)
  {
    if i :| 0 <= i < |entries| && entries[i].Pair? {
      var j: nat := 0;
      while !entries[j].Pair?
        invariant 0 <= j <= i && forall k :: 0 <= k < j ==> !entries[k].Pair?
        decreases i - j
      {
        j := j + 1;
      }
      assert IsFirstPair(entries, j);
    }
  }

  lemma LegacyKey(decode: Decode, ring: Ring, legacy: Option<Bytes>, kid: Bytes, key: Bytes)
    requires ring.primary == [] <==> ring.keys == map[]
    ensures var r := LegacyAdded(decode, ring, legacy);
            && (r.Ok? <==> legacy.None? || (decode(legacy.value).Some?
                             && (LEGACY in ring.keys ==> ring.keys[LEGACY] == decode(legacy.value).value)))
            && (r.Ok? ==>
                  && (HasKey(r.value, kid, key) <==>
                        || HasKey(ring, kid, key)
                        || (kid == LEGACY && legacy.Some? && decode(legacy.value) == Some(key)))
                  && (r.value.primary == [] <==> ring.primary == [] && legacy.None?)
                  && (ring.primary != [] ==> r.value.primary == ring.primary))
  {
    assert |LEGACY| == 6;
  }

  // What more rings to start from, the more keys the same settings end with.
  lemma {:induction false} MoreKeysStay(decode: Decode, less: Ring, more: Ring, entries: seq<Entry>)
    requires Lists(more, less)
    requires EntriesAdded(decode, less, entries).Ok? && EntriesAdded(decode, more, entries).Ok?
    ensures Lists(EntriesAdded(decode, more, entries).value, EntriesAdded(decode, less, entries).value)
    decreases |entries|
  {
    if entries != [] {
      match entries[0]
      case Blank => MoreKeysStay(decode, less, more, entries[1..]);
      case Pair(kid, encoded) =>
        MoreKeysStay(decode, Added(decode, less, kid, encoded).value, Added(decode, more, kid, encoded).value,
                     entries[1..]);
    }
  }

  // Every key of the one is in the other.
  ghost predicate Lists(ring: Ring, other: Ring) {
    forall kid :: kid in other.keys ==> kid in ring.keys && ring.keys[kid] == other.keys[kid]
  }

  // A new key put first becomes the one to seal with, and every key listed before stays listed.
  lemma RotationKeepsKeys(decode: Decode, kid: Bytes, encoded: Bytes, entries: seq<Entry>, legacy: Option<Bytes>)
    requires IsDecode(decode) && Parsed(decode, entries, legacy).Ok?
    requires Parsed(decode, [Pair(kid, encoded)] + entries, legacy).Ok?
    ensures var old_, new_ :=
              Parsed(decode, entries, legacy).value, Parsed(decode, [Pair(kid, encoded)] + entries, legacy).value;
            new_.primary == kid && Lists(new_, old_)
  {
    var start := Added(decode, Ring([], map[]), kid, encoded).value;
    assert ([Pair(kid, encoded)] + entries)[1..] == entries;
    EntriesKeepSound(decode, start, entries);
    MoreKeysStay(decode, Ring([], map[]), start, entries);
  }

  // ---------- Sealing and opening ----------

  datatype Aead = Aead(seal: (Bytes, Bytes, Bytes, Bytes) -> Bytes, open: (Bytes, Bytes, Bytes, Bytes) -> Option<Bytes>)

  // Opening undoes sealing, under the same key, nonce and associated data.
  ghost predicate IsAead(aead: Aead) {
    forall k: Bytes, n: Bytes, p: Bytes, a: Bytes ::
      aead.seal(k, n, p, a) != [] && aead.open(k, n, aead.seal(k, n, p, a), a) == Some(p)
  }

  // Under another key or other associated data nothing opens.
  ghost predicate IsAuthentic(aead: Aead) {
    forall k: Bytes, n: Bytes, p: Bytes, a: Bytes, l: Bytes, b: Bytes ::
      aead.open(l, n, aead.seal(k, n, p, a), b).Some? ==> l == k && b == a
  }

  function Sealed(aead: Aead, ring: Ring, nonce: Bytes, plain: Bytes, aad: Bytes): Bytes
    requires ring.primary in ring.keys && |ring.primary| <= MAX_KEY_ID_BYTES
  {
    [FORMAT_V2, |ring.primary|] + (ring.primary + (nonce + aead.seal(ring.keys[ring.primary], nonce, plain, aad)))
  }

  // The key id and what follows the header.
  function SplitSealed(sealed: Bytes): (parts: Option<(Bytes, Bytes)>)
    ensures parts.Some? ==> |parts.value.1| > NONCE_BYTES
  {
    if sealed == [] then None
    else if sealed[0] == FORMAT_V1 then WithBody(LEGACY, sealed[1..])
    else if sealed[0] != FORMAT_V2 then None
    else if |sealed| < 2 || sealed[1] == 0 then None
    else
      var end := 2 + sealed[1] as int;
      if |sealed| < end then None else WithBody(sealed[2..end], sealed[end..])
  }

  function WithBody(kid: Bytes, body: Bytes): (parts: Option<(Bytes, Bytes)>)
    ensures parts.Some? ==> |parts.value.1| > NONCE_BYTES
  {
    if |body| <= NONCE_BYTES then None else Some((kid, body))
  }

  function Opened(aead: Aead, ring: Ring, sealed: Bytes, aad: Bytes): Result<Bytes> {
    var parts := SplitSealed(sealed);
    if parts.None? then Err(BadFormat)
    else
      var (kid, body) := parts.value;
      if kid !in ring.keys then Err(UnknownKeyId)
      else
        var plain := aead.open(ring.keys[kid], body[..NONCE_BYTES], body[NONCE_BYTES..], aad);
        if plain.None? then Err(NotAuthentic) else Ok(plain.value)
  }

  // The two formats, byte by byte: the first names no key, the second says how long the id in front is.
  predicate IsSealedAs(sealed: Bytes, kid: Bytes, body: Bytes) {
    || (sealed == [1] + body && kid == LEGACY)
    || (0 < |kid| <= 255 && sealed == [2, |kid|] + (kid + body))
  }

  // What is sealed in neither format, or with too little behind its header for a nonce, is refused.
  lemma SplitExactly(sealed: Bytes, kid: Bytes, body: Bytes)
    ensures SplitSealed(sealed) == Some((kid, body)) <==> |body| > 12 && IsSealedAs(sealed, kid, body)
  {
    if IsSealedAs(sealed, kid, body) {
      if sealed[0] == 1 {
        assert sealed[1..] == body;
      } else {
        assert sealed[2..] == kid + body && sealed[2..2 + |kid|] == kid && sealed[2 + |kid|..] == body;
      }
    }
    if SplitSealed(sealed) == Some((kid, body)) {
      assert sealed == [sealed[0]] + sealed[1..];
      if sealed[0] == 2 {
        var end := 2 + sealed[1] as int;
        assert sealed == [2, sealed[1]] + (sealed[2..end] + sealed[end..]);
      }
    }
  }

  lemma SplitFindsTheKey(kid: Bytes, nonce: Bytes, text: Bytes)
    requires 0 < |kid| <= MAX_KEY_ID_BYTES && |nonce| == NONCE_BYTES && text != []
    ensures SplitSealed([FORMAT_V2, |kid|] + (kid + (nonce + text))) == Some((kid, nonce + text))
  {
    var sealed := [FORMAT_V2, |kid|] + (kid + (nonce + text));
    assert sealed[2..] == kid + (nonce + text);
    assert sealed[2..2 + |kid|] == kid && sealed[2 + |kid|..] == nonce + text;
  }

  // Which refusal a value meets: neither format, a key id the ring does not list, or text that is not authentic.
  lemma OpenedByItsKey(aead: Aead, ring: Ring, sealed: Bytes, kid: Bytes, body: Bytes, aad: Bytes)
    requires IsSealedAs(sealed, kid, body)
    ensures Opened(aead, ring, sealed, aad) ==
      if |body| <= 12 then Err(BadFormat)
      else if kid !in ring.keys then Err(UnknownKeyId)
      else
        match aead.open(ring.keys[kid], body[..12], body[12..], aad)
        case None => Err(NotAuthentic)
        case Some(plain) => Ok(plain)
  {
    SplitExactly(sealed, kid, body);
    if |body| <= 12 && SplitSealed(sealed).Some? {
      var (k, b) := SplitSealed(sealed).value;
      SplitExactly(sealed, k, b);
      SameFormat(sealed, kid, body, k, b);
    }
  }

  lemma SameFormat(sealed: Bytes, kid: Bytes, body: Bytes, k: Bytes, b: Bytes)
    requires IsSealedAs(sealed, kid, body) && IsSealedAs(sealed, k, b)
    ensures kid == k && body == b
  {
    if sealed[0] == 1 {
      assert sealed[1..] == body && sealed[1..] == b;
    } else {
      assert sealed[1] == |kid| && sealed[1] == |k|;
      assert sealed[2..2 + |k|] == kid && sealed[2..2 + |k|] == k;
      assert sealed[2 + |k|..] == body && sealed[2 + |k|..] == b;
    }
  }

  /**
   What one ring sealed, another opens if and only if it lists the sealing key under the same id and the associated
   data is the same; and then to exactly what was sealed.
   */
  lemma OpensExactly(aead: Aead, a: Ring, b: Ring, nonce: Bytes, plain: Bytes, aad: Bytes, other: Bytes)
    requires IsAead(aead) && IsAuthentic(aead) && IsSound(a) && a.primary != [] && |nonce| == NONCE_BYTES
    ensures var r := Opened(aead, b, Sealed(aead, a, nonce, plain, aad), other);
            && (r.Ok? <==> a.primary in b.keys && b.keys[a.primary] == a.keys[a.primary] && other == aad)
            && (r.Ok? ==> r.value == plain)
  {
    var text := aead.seal(a.keys[a.primary], nonce, plain, aad);
    SplitFindsTheKey(a.primary, nonce, text);
    assert (nonce + text)[..NONCE_BYTES] == nonce && (nonce + text)[NONCE_BYTES..] == text;
  }

  // Format 1 names no key: it opens exactly under a ring that holds that key as the legacy one.
  lemma OldFormatOpensExactly(aead: Aead, key: Bytes, b: Ring, nonce: Bytes, plain: Bytes, aad: Bytes)
    requires IsAead(aead) && IsAuthentic(aead) && |nonce| == NONCE_BYTES
    ensures var r := Opened(aead, b, [FORMAT_V1] + (nonce + aead.seal(key, nonce, plain, aad)), aad);
            r == Ok(plain) <==> LEGACY in b.keys && b.keys[LEGACY] == key
  {
    var body := nonce + aead.seal(key, nonce, plain, aad);
    assert ([FORMAT_V1] + body)[1..] == body;
    assert body[..NONCE_BYTES] == nonce && body[NONCE_BYTES..] == aead.seal(key, nonce, plain, aad);
  }

  // After a rotation everything sealed before still opens.
  lemma RotationKeepsOpening(decode: Decode, aead: Aead, kid: Bytes, encoded: Bytes, entries: seq<Entry>,
                             legacy: Option<Bytes>, nonce: Bytes, plain: Bytes, aad: Bytes)
    requires IsDecode(decode) && IsAead(aead) && IsAuthentic(aead) && |nonce| == NONCE_BYTES
    requires Parsed(decode, entries, legacy).Ok? && Parsed(decode, [Pair(kid, encoded)] + entries, legacy).Ok?
    ensures var old_, new_ :=
              Parsed(decode, entries, legacy).value, Parsed(decode, [Pair(kid, encoded)] + entries, legacy).value;
            && IsSound(old_) && old_.primary in old_.keys
            && Opened(aead, new_, Sealed(aead, old_, nonce, plain, aad), aad) == Ok(plain)
  {
    ParsedIsSound(decode, entries, legacy);
    RotationKeepsKeys(decode, kid, encoded, entries, legacy);
    OpensExactly(aead, Parsed(decode, entries, legacy).value,
                 Parsed(decode, [Pair(kid, encoded)] + entries, legacy).value, nonce, plain, aad, aad);
  }
}
