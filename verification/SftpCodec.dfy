/**
  The payload codec of the SFTP client: big-endian numbers, length-prefixed strings,
  attributes (section 5 of draft-ietf-secsh-filexfer-02) and the name, status and version
  responses (sections 4 and 7).

  Each parser is a function from the bytes that remain to a value and the bytes left over.
  The encodings are what a server sends; a parser is proved to accept exactly them.
 */
module SftpCodec {
  import opened Wrappers

  type Bytes = seq<byte>

  const U32_LIMIT := 0x1_0000_0000
  const MAX_NAMES := 500 + 2
  const MAX_EXTENDED := 32
  const SFTP_VERSION := 3

  datatype Error = ProtocolError | NonUtf8Name | ListLimitExceeded | VersionUnsupported

  type Parsed<T> = Result<(T, Bytes), Error>

  // ---------- Encodings ----------

  // The attributes on the wire; an absent field has its flag clear.
  datatype WireAttrs = WireAttrs(
    size: Option<nat>, owner: Option<(nat, nat)>, permissions: Option<nat>, times: Option<(nat, nat)>,
    extended: Option<seq<(Bytes, Bytes)>>)

  datatype WireName = WireName(filename: Bytes, longname: Bytes, attrs: WireAttrs)

  function BigEndian(n: nat, width: nat): Bytes
  {
    if width == 0 then [] else BigEndian(n / 256, width - 1) + [n % 256]
  }

  function Value(bytes: Bytes): nat
  {
    if bytes == [] then 0 else 256 * Value(bytes[..|bytes| - 1]) + bytes[|bytes| - 1]
  }

  function Power(width: nat): nat
  {
    if width == 0 then 1 else 256 * Power(width - 1)
  }

  function U32(n: nat): Bytes
  {
    BigEndian(n, 4)
  }

  function Prefixed(value: Bytes): Bytes
  {
    U32(|value|) + value
  }

  function Flag(present: bool, bit: nat): nat
  {
    if present then bit else 0
  }

  function Flags(a: WireAttrs): nat
  {
    Flag(a.size.Some?, 1) + Flag(a.owner.Some?, 2) + Flag(a.permissions.Some?, 4) + Flag(a.times.Some?, 8)
    + Flag(a.extended.Some?, 0x8000_0000)
  }

  function EncodePair(pair: (nat, nat)): Bytes
  {
    U32(pair.0) + U32(pair.1)
  }

  function EncodeMany<T>(encode: T -> Bytes, items: seq<T>): Bytes
  {
    if items == [] then [] else encode(items[0]) + EncodeMany(encode, items[1..])
  }

  function EncodeEntry(entry: (Bytes, Bytes)): Bytes
  {
    Prefixed(entry.0) + Prefixed(entry.1)
  }

  function EncodeExtended(entries: seq<(Bytes, Bytes)>): Bytes
  {
    U32(|entries|) + EncodeMany(EncodeEntry, entries)
  }

  function EncodeOptionalNumber(value: Option<nat>, width: nat): Bytes
  {
    if value.Some? then BigEndian(value.value, width) else []
  }

  function EncodeOptionalPair(value: Option<(nat, nat)>): Bytes
  {
    if value.Some? then EncodePair(value.value) else []
  }

  function EncodeOptionalExtended(value: Option<seq<(Bytes, Bytes)>>): Bytes
  {
    if value.Some? then EncodeExtended(value.value) else []
  }

  function EncodeOwnership(size: Option<nat>, owner: Option<(nat, nat)>): Bytes
  {
    EncodeOptionalNumber(size, 8) + EncodeOptionalPair(owner)
  }

  function EncodeModes(permissions: Option<nat>, times: Option<(nat, nat)>): Bytes
  {
    EncodeOptionalNumber(permissions, 4) + EncodeOptionalPair(times)
  }

  function EncodeFields(a: WireAttrs): Bytes
  {
    EncodeOwnership(a.size, a.owner) + (EncodeModes(a.permissions, a.times) + EncodeOptionalExtended(a.extended))
  }

  function EncodeAttrs(a: WireAttrs): Bytes
  {
    U32(Flags(a)) + EncodeFields(a)
  }

  function EncodeName(name: WireName): Bytes
  {
    Prefixed(name.filename) + (Prefixed(name.longname) + EncodeAttrs(name.attrs))
  }

  function EncodeNames(names: seq<WireName>): Bytes
  {
    U32(|names|) + EncodeMany(EncodeName, names)
  }

  function EncodeStatus(status: nat, message: Bytes, language: Bytes): Bytes
  {
    U32(status) + (Prefixed(message) + Prefixed(language))
  }

  function EncodeVersion(extensions: seq<(Bytes, Bytes)>): Bytes
  {
    U32(SFTP_VERSION) + EncodeMany(EncodeEntry, extensions)
  }

  // ---------- Parsers ----------

  // What the client keeps of the attributes.
  datatype Attrs = Attrs(size: Option<nat>, permissions: Option<nat>, modified: Option<nat>)

  datatype Name = Name(filename: Bytes, attrs: Attrs)

  function Take(s: Bytes, length: nat): Parsed<Bytes>
  {
    if length <= |s| then Ok((s[..length], s[length..])) else Err(ProtocolError)
  }

  function ParseNumber(s: Bytes, width: nat): Parsed<nat>
  {
    var (bytes, rest) :- Take(s, width);
    Ok((Value(bytes), rest))
  }

  function ParseU32(s: Bytes): Parsed<nat>
  {
    ParseNumber(s, 4)
  }

  function ParseBytes(s: Bytes): Parsed<Bytes>
  {
    var (length, rest) :- ParseU32(s);
    Take(rest, length)
  }

  // The length of the well-formed sequence at the start, or 0: section 4 of RFC 3629.
  function SequenceLength(s: Bytes): (n: nat)
    ensures n <= |s|
  {
    if s == [] then 0
    else if s[0] < 0x80 then 1
    else if |s| >= 2 && 0xC2 <= s[0] <= 0xDF && Tail(s[1]) then 2
    else if |s| >= 3 && 0xE0 <= s[0] <= 0xEF && Tail(s[1]) && Tail(s[2])
            && (s[0] == 0xE0 ==> s[1] >= 0xA0) && (s[0] == 0xED ==> s[1] < 0xA0) then 3
    else if |s| >= 4 && 0xF0 <= s[0] <= 0xF4 && Tail(s[1]) && Tail(s[2]) && Tail(s[3])
            && (s[0] == 0xF0 ==> s[1] >= 0x90) && (s[0] == 0xF4 ==> s[1] < 0x90) then 4
    else 0
  }

  // String::from_utf8
  predicate Utf8(s: Bytes)
  {
    s == [] || (SequenceLength(s) > 0 && Utf8(s[SequenceLength(s)..]))
  }

  predicate Tail(b: byte)
  {
    0x80 <= b <= 0xBF
  }

  function ParseString(s: Bytes): Parsed<Bytes>
  {
    var (bytes, rest) :- ParseBytes(s);
    if Utf8(bytes) then Ok((bytes, rest)) else Err(NonUtf8Name)
  }

  // Which fields a flag word announces.
  datatype Present = Present(size: bool, owner: bool, permissions: bool, times: bool, extended: bool)

  // The bits of a 32-bit word without its highest one.
  function Low(word: nat): nat
  {
    if word < 0x8000_0000 then word else word - 0x8000_0000
  }

  predicate KnownFlags(word: nat)
  {
    Low(word) < 16
  }

  function Announced(word: nat): Present
    requires KnownFlags(word)
  {
    var low := Low(word);
    Present(low % 2 == 1, low in {2, 3, 6, 7, 10, 11, 14, 15}, 4 <= low < 8 || 12 <= low, low >= 8, word >= 0x8000_0000)
  }

  function ParsePair(s: Bytes): Parsed<(nat, nat)>
  {
    var (first, middle) :- ParseU32(s);
    var (second, rest) :- ParseU32(middle);
    Ok(((first, second), rest))
  }

  function ParseOptionalNumber(s: Bytes, present: bool, width: nat): Parsed<Option<nat>>
  {
    if !present then Ok((None, s))
    else
      var (value, rest) :- ParseNumber(s, width);
      Ok((Some(value), rest))
  }

  function ParseOptionalPair(s: Bytes, present: bool): Parsed<Option<(nat, nat)>>
  {
    if !present then Ok((None, s))
    else
      var (value, rest) :- ParsePair(s);
      Ok((Some(value), rest))
  }

  function ParseOptionalExtended(s: Bytes, present: bool): Parsed<Option<seq<(Bytes, Bytes)>>>
  {
    if !present then Ok((None, s))
    else
      var (value, rest) :- ParseExtended(s);
      Ok((Some(value), rest))
  }

  function ParseEntry(s: Bytes): Parsed<(Bytes, Bytes)>
  {
    var (kind, afterKind) :- ParseBytes(s);
    var (data, rest) :- ParseBytes(afterKind);
    Ok(((kind, data), rest))
  }

  function ParseMany<T>(parse: Bytes -> Parsed<T>, s: Bytes, count: nat): Parsed<seq<T>>
    decreases count
  {
    if count == 0 then Ok(([], s))
    else
      var (item, afterItem) :- parse(s);
      var (items, rest) :- ParseMany(parse, afterItem, count - 1);
      Ok(([item] + items, rest))
  }

  function ParseExtended(s: Bytes): Parsed<seq<(Bytes, Bytes)>>
  {
    var (count, rest) :- ParseU32(s);
    if count > MAX_EXTENDED then Err(ProtocolError) else ParseMany(ParseEntry, rest, count)
  }

  function ParseOwnership(s: Bytes, present: Present): Parsed<(Option<nat>, Option<(nat, nat)>)>
  {
    var (size, afterSize) :- ParseOptionalNumber(s, present.size, 8);
    var (owner, rest) :- ParseOptionalPair(afterSize, present.owner);
    Ok(((size, owner), rest))
  }

  function ParseModes(s: Bytes, present: Present): Parsed<(Option<nat>, Option<(nat, nat)>)>
  {
    var (permissions, afterPermissions) :- ParseOptionalNumber(s, present.permissions, 4);
    var (times, rest) :- ParseOptionalPair(afterPermissions, present.times);
    Ok(((permissions, times), rest))
  }

  function ParseFields(s: Bytes, present: Present): Parsed<WireAttrs>
  {
    var (ownership, afterOwner) :- ParseOwnership(s, present);
    var (modes, afterTimes) :- ParseModes(afterOwner, present);
    var (extended, rest) :- ParseOptionalExtended(afterTimes, present.extended);
    Ok((WireAttrs(ownership.0, ownership.1, modes.0, modes.1, extended), rest))
  }

  // `parse_attrs`, with the fields it drops.
  function ParseWireAttrs(s: Bytes): Parsed<WireAttrs>
  {
    var (word, fields) :- ParseU32(s);
    if KnownFlags(word) then ParseFields(fields, Announced(word)) else Err(ProtocolError)
  }

  function Kept(a: WireAttrs): Attrs
  {
    Attrs(a.size, a.permissions, if a.times.Some? then Some(a.times.value.1) else None)
  }

  function ParseName(s: Bytes): Parsed<WireName>
  {
    var (filename, afterName) :- ParseString(s);
    var (longname, afterLong) :- ParseBytes(afterName);
    var (attrs, rest) :- ParseWireAttrs(afterLong);
    Ok((WireName(filename, longname, attrs), rest))
  }

  function Finish<T>(parsed: (T, Bytes)): Result<T, Error>
  {
    if parsed.1 == [] then Ok(parsed.0) else Err(ProtocolError)
  }

  function ParseWireNames(payload: Bytes): Result<seq<WireName>, Error>
  {
    var (count, rest) :- ParseU32(payload);
    if count > MAX_NAMES then Err(ListLimitExceeded)
    else
      var parsed :- ParseMany(ParseName, rest, count);
      Finish(parsed)
  }

  function KeptName(name: WireName): Name
  {
    Name(name.filename, Kept(name.attrs))
  }

  function KeptNames(names: seq<WireName>): seq<Name>
  {
    seq(|names|, i requires 0 <= i < |names| => KeptName(names[i]))
  }

  function ParseNames(payload: Bytes): Result<seq<Name>, Error>
  {
    var names :- ParseWireNames(payload);
    Ok(KeptNames(names))
  }

  function ParseAttrs(payload: Bytes): Result<Attrs, Error>
  {
    var parsed :- ParseWireAttrs(payload);
    var attrs :- Finish(parsed);
    Ok(Kept(attrs))
  }

  function ParseWireStatus(s: Bytes): Parsed<(nat, Bytes, Bytes)>
  {
    var (status, afterStatus) :- ParseU32(s);
    var (message, afterMessage) :- ParseBytes(afterStatus);
    var (language, rest) :- ParseBytes(afterMessage);
    Ok(((status, message, language), rest))
  }

  function ParseStatus(payload: Bytes): Result<nat, Error>
  {
    var parsed :- ParseWireStatus(payload);
    var status :- Finish(parsed);
    Ok(status.0)
  }

  // ---------- What can be encoded ----------

  predicate IsU32(n: nat)
  {
    n < U32_LIMIT
  }

  predicate Short(value: Bytes)
  {
    IsU32(|value|)
  }

  predicate ShortEntry(entry: (Bytes, Bytes))
  {
    Short(entry.0) && Short(entry.1)
  }

  predicate All<T>(ok: T -> bool, items: seq<T>)
  {
    forall i :: 0 <= i < |items| ==> ok(items[i])
  }

  predicate Encodable(a: WireAttrs)
  {
    && (a.size.Some? ==> a.size.value < U32_LIMIT * U32_LIMIT)
    && (a.owner.Some? ==> IsU32(a.owner.value.0) && IsU32(a.owner.value.1))
    && (a.permissions.Some? ==> IsU32(a.permissions.value))
    && (a.times.Some? ==> IsU32(a.times.value.0) && IsU32(a.times.value.1))
    && (a.extended.Some? ==> |a.extended.value| <= MAX_EXTENDED && All(ShortEntry, a.extended.value))
  }

  predicate EncodableName(name: WireName)
  {
    Short(name.filename) && Utf8(name.filename) && Short(name.longname) && Encodable(name.attrs)
  }

  predicate EncodableNames(names: seq<WireName>)
  {
    |names| <= MAX_NAMES && All(EncodableName, names)
  }

  // ---------- Numbers ----------

  lemma {:induction false} ValueOfBigEndian(n: nat, width: nat)
    requires n < Power(width)
    ensures |BigEndian(n, width)| == width && Value(BigEndian(n, width)) == n
  {
    if width > 0 {
      ValueOfBigEndian(n / 256, width - 1);
      assert BigEndian(n, width)[..width - 1] == BigEndian(n / 256, width - 1);
    }
  }

  lemma {:induction false} BigEndianOfValue(bytes: Bytes)
    ensures BigEndian(Value(bytes), |bytes|) == bytes && Value(bytes) < Power(|bytes|)
  {
    if bytes != [] {
      BigEndianOfValue(bytes[..|bytes| - 1]);
      assert bytes == bytes[..|bytes| - 1] + [bytes[|bytes| - 1]];
    }
  }

  lemma Powers()
    ensures Power(4) == U32_LIMIT && Power(8) == U32_LIMIT * U32_LIMIT
  {
    assert Power(2) == 0x1_0000;
    assert Power(6) == 0x1_0000_0000_0000;
  }

  lemma NumberForward(n: nat, width: nat, rest: Bytes)
    requires n < Power(width)
    ensures ParseNumber(BigEndian(n, width) + rest, width) == Ok((n, rest))
  {
    ValueOfBigEndian(n, width);
    assert (BigEndian(n, width) + rest)[..width] == BigEndian(n, width);
    assert (BigEndian(n, width) + rest)[width..] == rest;
  }

  lemma NumberBackward(s: Bytes, width: nat)
    requires ParseNumber(s, width).Ok?
    ensures var (n, rest) := ParseNumber(s, width).value; n < Power(width) && s == BigEndian(n, width) + rest
  {
    BigEndianOfValue(s[..width]);
  }

  lemma U32Forward(n: nat, rest: Bytes)
    requires IsU32(n)
    ensures ParseU32(U32(n) + rest) == Ok((n, rest))
  {
    Powers();
    NumberForward(n, 4, rest);
  }

  lemma U32Backward(s: Bytes)
    requires ParseU32(s).Ok?
    ensures var (n, rest) := ParseU32(s).value; IsU32(n) && s == U32(n) + rest
  {
    Powers();
    NumberBackward(s, 4);
  }

  // ---------- Strings and pairs ----------

  lemma BytesForward(value: Bytes, rest: Bytes)
    requires Short(value)
    ensures ParseBytes(Prefixed(value) + rest) == Ok((value, rest))
  {
    Associative(U32(|value|), value, rest);
    U32Forward(|value|, value + rest);
    assert (value + rest)[..|value|] == value && (value + rest)[|value|..] == rest;
  }

  lemma BytesBackward(s: Bytes)
    requires ParseBytes(s).Ok?
    ensures var (value, rest) := ParseBytes(s).value; Short(value) && s == Prefixed(value) + rest
  {
    U32Backward(s);
    var (value, rest) := ParseBytes(s).value;
    Associative(U32(|value|), value, rest);
    assert ParseU32(s).value.1 == value + rest;
  }

  lemma PairForward(pair: (nat, nat), rest: Bytes)
    requires IsU32(pair.0) && IsU32(pair.1)
    ensures ParsePair(EncodePair(pair) + rest) == Ok((pair, rest))
  {
    Associative(U32(pair.0), U32(pair.1), rest);
    U32Forward(pair.0, U32(pair.1) + rest);
    U32Forward(pair.1, rest);
  }

  lemma PairBackward(s: Bytes)
    requires ParsePair(s).Ok?
    ensures var (pair, rest) := ParsePair(s).value; IsU32(pair.0) && IsU32(pair.1) && s == EncodePair(pair) + rest
  {
    var (pair, rest) := ParsePair(s).value;
    U32Backward(s);
    U32Backward(ParseU32(s).value.1);
    Associative(U32(pair.0), U32(pair.1), rest);
  }

  lemma EntryForward(entry: (Bytes, Bytes), rest: Bytes)
    requires ShortEntry(entry)
    ensures ParseEntry(EncodeEntry(entry) + rest) == Ok((entry, rest))
  {
    Associative(Prefixed(entry.0), Prefixed(entry.1), rest);
    BytesForward(entry.0, Prefixed(entry.1) + rest);
    BytesForward(entry.1, rest);
  }

  lemma EntryBackward(s: Bytes)
    requires ParseEntry(s).Ok?
    ensures var (entry, rest) := ParseEntry(s).value; ShortEntry(entry) && s == EncodeEntry(entry) + rest
  {
    var (entry, rest) := ParseEntry(s).value;
    BytesBackward(s);
    BytesBackward(ParseBytes(s).value.1);
    Associative(Prefixed(entry.0), Prefixed(entry.1), rest);
  }

  // ---------- Repetition ----------

  // The parser accepts exactly the encodings of good items, and consumes exactly them.
  ghost predicate Inverse<T(!new)>(parse: Bytes -> Parsed<T>, encode: T -> Bytes, ok: T -> bool)
  {
    && (forall item, rest :: ok(item) ==> parse(encode(item) + rest) == Ok((item, rest)))
    && (forall s :: parse(s).Ok? ==> ok(parse(s).value.0) && s == encode(parse(s).value.0) + parse(s).value.1)
  }

  lemma ManyCons<T>(encode: T -> Bytes, ok: T -> bool, item: T, items: seq<T>, rest: Bytes)
    ensures EncodeMany(encode, [item] + items) + rest == encode(item) + (EncodeMany(encode, items) + rest)
    ensures All(ok, [item] + items) <==> ok(item) && All(ok, items)
  {
    var all := [item] + items;
    assert all[0] == item && all[1..] == items;
    Associative(encode(item), EncodeMany(encode, items), rest);
    if All(ok, all) {
      assert forall i :: 0 <= i < |items| ==> items[i] == all[i + 1];
    }
  }

  lemma {:induction false} ManyForward<T(!new)>(parse: Bytes -> Parsed<T>, encode: T -> Bytes, ok: T -> bool, items: seq<T>, rest: Bytes)
    requires Inverse(parse, encode, ok) && All(ok, items)
    ensures ParseMany(parse, EncodeMany(encode, items) + rest, |items|) == Ok((items, rest))
  {
    if items == [] {
      assert EncodeMany(encode, items) + rest == rest;
    } else {
      assert [items[0]] + items[1..] == items;
      ManyCons(encode, ok, items[0], items[1..], rest);
      ManyForward(parse, encode, ok, items[1..], rest);
    }
  }

  lemma {:induction false} ManyBackward<T(!new)>(parse: Bytes -> Parsed<T>, encode: T -> Bytes, ok: T -> bool, s: Bytes, count: nat)
    requires Inverse(parse, encode, ok) && ParseMany(parse, s, count).Ok?
    ensures var (items, rest) := ParseMany(parse, s, count).value;
            |items| == count && All(ok, items) && s == EncodeMany(encode, items) + rest
    decreases count
  {
    if count == 0 {
      assert EncodeMany(encode, []) + s == s;
    } else {
      var (item, afterItem) := parse(s).value;
      ManyBackward(parse, encode, ok, afterItem, count - 1);
      var (items, rest) := ParseMany(parse, afterItem, count - 1).value;
      ManyCons(encode, ok, item, items, rest);
    }
  }

  lemma EntriesInverse()
    ensures Inverse(ParseEntry, EncodeEntry, ShortEntry)
  {
    forall entry, rest | ShortEntry(entry)
      ensures ParseEntry(EncodeEntry(entry) + rest) == Ok((entry, rest))
    {
      EntryForward(entry, rest);
    }
    forall s | ParseEntry(s).Ok?
      ensures ShortEntry(ParseEntry(s).value.0) && s == EncodeEntry(ParseEntry(s).value.0) + ParseEntry(s).value.1
    {
      EntryBackward(s);
    }
  }

  // ---------- Attributes ----------

  function PresentIn(a: WireAttrs): Present
  {
    Present(a.size.Some?, a.owner.Some?, a.permissions.Some?, a.times.Some?, a.extended.Some?)
  }

  // A known word has no bit set among bits 4 to 30.
  lemma KnownAreBits(word: nat)
    requires IsU32(word)
    ensures KnownFlags(word) <==> word % 0x8000_0000 / 16 == 0
  {
    assert Low(word) == word % 0x8000_0000;
  }

  // The fields announced by a known word are its bits 0 to 3 and 31.
  lemma AnnouncedAreBits(word: nat)
    requires IsU32(word) && KnownFlags(word)
    ensures Announced(word).size == (word % 2 == 1) && Announced(word).owner == (word / 2 % 2 == 1)
    ensures Announced(word).permissions == (word / 4 % 2 == 1) && Announced(word).times == (word / 8 % 2 == 1)
    ensures Announced(word).extended == (word / 0x8000_0000 == 1)
  {
    LowBits(word, Low(word));
  }

  // Bits 0 to 3 are those of the low part.
  lemma LowBits(word: nat, low: nat)
    requires low < 16 && (word == low || word == low + 0x8000_0000)
    ensures word % 2 == low % 2 && word / 2 % 2 == low / 2 % 2 && word / 4 % 2 == low / 4 % 2 && word / 8 % 2 == low / 8 % 2
  {
  }

  lemma FlagsAnnounce(a: WireAttrs)
    ensures IsU32(Flags(a)) && KnownFlags(Flags(a)) && Announced(Flags(a)) == PresentIn(a)
  {
  }

  lemma AnnouncedFlags(a: WireAttrs, word: nat)
    requires IsU32(word) && KnownFlags(word) && Announced(word) == PresentIn(a)
    ensures Flags(a) == word
  {
  }

  lemma OptionalNumberForward(value: Option<nat>, width: nat, rest: Bytes)
    requires value.Some? ==> value.value < Power(width)
    ensures ParseOptionalNumber(EncodeOptionalNumber(value, width) + rest, value.Some?, width) == Ok((value, rest))
  {
    if value.Some? {
      NumberForward(value.value, width, rest);
    } else {
      assert [] + rest == rest;
    }
  }

  lemma OptionalNumberBackward(s: Bytes, present: bool, width: nat)
    requires ParseOptionalNumber(s, present, width).Ok?
    ensures var (value, rest) := ParseOptionalNumber(s, present, width).value;
            value.Some? == present && (present ==> value.value < Power(width)) && s == EncodeOptionalNumber(value, width) + rest
  {
    if present {
      NumberBackward(s, width);
    } else {
      assert [] + s == s;
    }
  }

  lemma OptionalPairForward(value: Option<(nat, nat)>, rest: Bytes)
    requires value.Some? ==> IsU32(value.value.0) && IsU32(value.value.1)
    ensures ParseOptionalPair(EncodeOptionalPair(value) + rest, value.Some?) == Ok((value, rest))
  {
    if value.Some? {
      PairForward(value.value, rest);
    } else {
      assert [] + rest == rest;
    }
  }

  lemma OptionalPairBackward(s: Bytes, present: bool)
    requires ParseOptionalPair(s, present).Ok?
    ensures var (value, rest) := ParseOptionalPair(s, present).value;
            && value.Some? == present && (present ==> IsU32(value.value.0) && IsU32(value.value.1))
            && s == EncodeOptionalPair(value) + rest
  {
    if present {
      PairBackward(s);
    } else {
      assert [] + s == s;
    }
  }

  lemma ExtendedForward(entries: seq<(Bytes, Bytes)>, rest: Bytes)
    requires |entries| <= MAX_EXTENDED && All(ShortEntry, entries)
    ensures ParseExtended(EncodeExtended(entries) + rest) == Ok((entries, rest))
  {
    Associative(U32(|entries|), EncodeMany(EncodeEntry, entries), rest);
    U32Forward(|entries|, EncodeMany(EncodeEntry, entries) + rest);
    EntriesInverse();
    ManyForward(ParseEntry, EncodeEntry, ShortEntry, entries, rest);
  }

  lemma ExtendedBackward(s: Bytes)
    requires ParseExtended(s).Ok?
    ensures var (entries, rest) := ParseExtended(s).value;
            |entries| <= MAX_EXTENDED && All(ShortEntry, entries) && s == EncodeExtended(entries) + rest
  {
    U32Backward(s);
    var (count, tail) := ParseU32(s).value;
    EntriesInverse();
    ManyBackward(ParseEntry, EncodeEntry, ShortEntry, tail, count);
    var (entries, rest) := ParseMany(ParseEntry, tail, count).value;
    Associative(U32(count), EncodeMany(EncodeEntry, entries), rest);
  }

  lemma OptionalExtendedForward(value: Option<seq<(Bytes, Bytes)>>, rest: Bytes)
    requires value.Some? ==> |value.value| <= MAX_EXTENDED && All(ShortEntry, value.value)
    ensures ParseOptionalExtended(EncodeOptionalExtended(value) + rest, value.Some?) == Ok((value, rest))
  {
    if value.Some? {
      ExtendedForward(value.value, rest);
    } else {
      assert [] + rest == rest;
    }
  }

  lemma OptionalExtendedBackward(s: Bytes, present: bool)
    requires ParseOptionalExtended(s, present).Ok?
    ensures var (value, rest) := ParseOptionalExtended(s, present).value;
            && value.Some? == present && (present ==> |value.value| <= MAX_EXTENDED && All(ShortEntry, value.value))
            && s == EncodeOptionalExtended(value) + rest
  {
    if present {
      ExtendedBackward(s);
    } else {
      assert [] + s == s;
    }
  }

  lemma OwnershipForward(a: WireAttrs, rest: Bytes)
    requires Encodable(a)
    ensures ParseOwnership(EncodeOwnership(a.size, a.owner) + rest, PresentIn(a)) == Ok(((a.size, a.owner), rest))
  {
    Powers();
    Associative(EncodeOptionalNumber(a.size, 8), EncodeOptionalPair(a.owner), rest);
    OptionalNumberForward(a.size, 8, EncodeOptionalPair(a.owner) + rest);
    OptionalPairForward(a.owner, rest);
  }

  lemma ModesForward(a: WireAttrs, rest: Bytes)
    requires Encodable(a)
    ensures ParseModes(EncodeModes(a.permissions, a.times) + rest, PresentIn(a)) == Ok(((a.permissions, a.times), rest))
  {
    Powers();
    Associative(EncodeOptionalNumber(a.permissions, 4), EncodeOptionalPair(a.times), rest);
    OptionalNumberForward(a.permissions, 4, EncodeOptionalPair(a.times) + rest);
    OptionalPairForward(a.times, rest);
  }

  lemma FieldsForward(a: WireAttrs, rest: Bytes)
    requires Encodable(a)
    ensures ParseFields(EncodeFields(a) + rest, PresentIn(a)) == Ok((a, rest))
  {
    var ownership, modes := EncodeOwnership(a.size, a.owner), EncodeModes(a.permissions, a.times);
    var extended := EncodeOptionalExtended(a.extended);
    Associative(ownership, modes + extended, rest);
    Associative(modes, extended, rest);
    OwnershipForward(a, modes + (extended + rest));
    ModesForward(a, extended + rest);
    OptionalExtendedForward(a.extended, rest);
  }

  // For every combination of flags, the encoding is parsed back and exactly consumed.
  lemma AttrsForward(a: WireAttrs, rest: Bytes)
    requires Encodable(a)
    ensures ParseWireAttrs(EncodeAttrs(a) + rest) == Ok((a, rest))
  {
    FlagsAnnounce(a);
    Associative(U32(Flags(a)), EncodeFields(a), rest);
    U32Forward(Flags(a), EncodeFields(a) + rest);
    FieldsForward(a, rest);
  }

  lemma OwnershipBackward(s: Bytes, present: Present)
    requires ParseOwnership(s, present).Ok?
    ensures var ((size, owner), rest) := ParseOwnership(s, present).value;
            && size.Some? == present.size && owner.Some? == present.owner
            && (size.Some? ==> size.value < U32_LIMIT * U32_LIMIT)
            && (owner.Some? ==> IsU32(owner.value.0) && IsU32(owner.value.1))
            && s == EncodeOwnership(size, owner) + rest
  {
    Powers();
    OptionalNumberBackward(s, present.size, 8);
    var (size, afterSize) := ParseOptionalNumber(s, present.size, 8).value;
    OptionalPairBackward(afterSize, present.owner);
    var (owner, rest) := ParseOptionalPair(afterSize, present.owner).value;
    Associative(EncodeOptionalNumber(size, 8), EncodeOptionalPair(owner), rest);
  }

  lemma ModesBackward(s: Bytes, present: Present)
    requires ParseModes(s, present).Ok?
    ensures var ((permissions, times), rest) := ParseModes(s, present).value;
            && permissions.Some? == present.permissions && times.Some? == present.times
            && (permissions.Some? ==> IsU32(permissions.value))
            && (times.Some? ==> IsU32(times.value.0) && IsU32(times.value.1))
            && s == EncodeModes(permissions, times) + rest
  {
    Powers();
    OptionalNumberBackward(s, present.permissions, 4);
    var (permissions, afterPermissions) := ParseOptionalNumber(s, present.permissions, 4).value;
    OptionalPairBackward(afterPermissions, present.times);
    var (times, rest) := ParseOptionalPair(afterPermissions, present.times).value;
    Associative(EncodeOptionalNumber(permissions, 4), EncodeOptionalPair(times), rest);
  }

  lemma FieldsBackward(s: Bytes, present: Present)
    requires ParseFields(s, present).Ok?
    ensures var (a, rest) := ParseFields(s, present).value; Encodable(a) && present == PresentIn(a) && s == EncodeFields(a) + rest
  {
    OwnershipBackward(s, present);
    var (ownership, afterOwner) := ParseOwnership(s, present).value;
    ModesBackward(afterOwner, present);
    var (modes, afterTimes) := ParseModes(afterOwner, present).value;
    OptionalExtendedBackward(afterTimes, present.extended);
    var (extended, rest) := ParseOptionalExtended(afterTimes, present.extended).value;
    var encoded := EncodeModes(modes.0, modes.1);
    Associative(EncodeOwnership(ownership.0, ownership.1), encoded + EncodeOptionalExtended(extended), rest);
    Associative(encoded, EncodeOptionalExtended(extended), rest);
  }

  // Whatever the parser accepts is an encoding.
  lemma AttrsBackward(s: Bytes)
    requires ParseWireAttrs(s).Ok?
    ensures var (a, rest) := ParseWireAttrs(s).value; Encodable(a) && s == EncodeAttrs(a) + rest
  {
    U32Backward(s);
    var (word, fields) := ParseU32(s).value;
    FieldsBackward(fields, Announced(word));
    var (a, rest) := ParseFields(fields, Announced(word)).value;
    AnnouncedFlags(a, word);
    Associative(U32(word), EncodeFields(a), rest);
  }

  // ---------- Names ----------

  lemma NameSplit(name: WireName, rest: Bytes)
    ensures EncodeName(name) + rest == Prefixed(name.filename) + (Prefixed(name.longname) + (EncodeAttrs(name.attrs) + rest))
  {
    Associative(Prefixed(name.filename), Prefixed(name.longname) + EncodeAttrs(name.attrs), rest);
    Associative(Prefixed(name.longname), EncodeAttrs(name.attrs), rest);
  }

  lemma NameForward(name: WireName, rest: Bytes)
    requires EncodableName(name)
    ensures ParseName(EncodeName(name) + rest) == Ok((name, rest))
  {
    NameSplit(name, rest);
    BytesForward(name.filename, Prefixed(name.longname) + (EncodeAttrs(name.attrs) + rest));
    BytesForward(name.longname, EncodeAttrs(name.attrs) + rest);
    AttrsForward(name.attrs, rest);
  }

  lemma NameBackward(s: Bytes)
    requires ParseName(s).Ok?
    ensures var (name, rest) := ParseName(s).value; EncodableName(name) && s == EncodeName(name) + rest
  {
    BytesBackward(s);
    var (filename, afterName) := ParseBytes(s).value;
    BytesBackward(afterName);
    var (longname, afterLong) := ParseBytes(afterName).value;
    AttrsBackward(afterLong);
    var (attrs, rest) := ParseWireAttrs(afterLong).value;
    NameSplit(WireName(filename, longname, attrs), rest);
  }

  lemma NamesInverse()
    ensures Inverse(ParseName, EncodeName, EncodableName)
  {
    forall name, rest | EncodableName(name)
      ensures ParseName(EncodeName(name) + rest) == Ok((name, rest))
    {
      NameForward(name, rest);
    }
    forall s | ParseName(s).Ok?
      ensures EncodableName(ParseName(s).value.0) && s == EncodeName(ParseName(s).value.0) + ParseName(s).value.1
    {
      NameBackward(s);
    }
  }

  /**
    For every name list within the limit, parsing its encoding returns the kept fields.
   */
  lemma NamesRoundTrip(names: seq<WireName>)
    requires EncodableNames(names)
    ensures ParseNames(EncodeNames(names)) == Ok(KeptNames(names))
  {
    var list := EncodeMany(EncodeName, names);
    assert list + [] == list;
    NamesForward(names, []);
    assert EncodeNames(names) + [] == EncodeNames(names);
  }

  lemma NamesForward(names: seq<WireName>, rest: Bytes)
    requires EncodableNames(names)
    ensures ParseWireNames(EncodeNames(names) + rest) == if rest == [] then Ok(names) else Err(ProtocolError)
  {
    var list := EncodeMany(EncodeName, names);
    Associative(U32(|names|), list, rest);
    U32Forward(|names|, list + rest);
    NamesInverse();
    ManyForward(ParseName, EncodeName, EncodableName, names, rest);
  }

  lemma NamesBackward(payload: Bytes)
    requires ParseWireNames(payload).Ok?
    ensures var names := ParseWireNames(payload).value; EncodableNames(names) && payload == EncodeNames(names)
  {
    U32Backward(payload);
    var (count, rest) := ParseU32(payload).value;
    NamesInverse();
    ManyBackward(ParseName, EncodeName, EncodableName, rest, count);
    var names := ParseMany(ParseName, rest, count).value.0;
    assert EncodeMany(EncodeName, names) + [] == EncodeMany(EncodeName, names);
  }

  // The name payloads that are accepted are exactly the encodings of name lists.
  lemma NamesAccepted(payload: Bytes)
    ensures ParseNames(payload).Ok? <==> exists names :: EncodableNames(names) && payload == EncodeNames(names)
  {
    if ParseNames(payload).Ok? {
      NamesBackward(payload);
    }
    forall names | EncodableNames(names) && payload == EncodeNames(names)
      ensures ParseNames(payload).Ok?
    {
      NamesRoundTrip(names);
    }
  }

  /**
    An accepted name payload has no accepted proper prefix and no accepted extension.
   */
  lemma NamesPrefixFree(payload: Bytes, more: Bytes)
    requires ParseNames(payload).Ok? && more != []
    ensures ParseNames(payload + more) == Err(ProtocolError)
  {
    NamesBackward(payload);
    NamesForward(ParseWireNames(payload).value, more);
  }

  // The same for a response that carries attributes only.
  lemma AttrsAccepted(payload: Bytes)
    ensures ParseAttrs(payload).Ok? <==> exists a :: Encodable(a) && payload == EncodeAttrs(a)
  {
    if ParseAttrs(payload).Ok? {
      AttrsBackward(payload);
      var a := ParseWireAttrs(payload).value.0;
      assert EncodeAttrs(a) + [] == EncodeAttrs(a);
      assert Encodable(a) && payload == EncodeAttrs(a);
    }
    forall a | Encodable(a) && payload == EncodeAttrs(a)
      ensures ParseAttrs(payload).Ok?
    {
      AttrsRoundTrip(a);
    }
  }

  lemma AttrsRoundTrip(a: WireAttrs)
    requires Encodable(a)
    ensures ParseAttrs(EncodeAttrs(a)) == Ok(Kept(a))
  {
    assert EncodeAttrs(a) + [] == EncodeAttrs(a);
    AttrsForward(a, []);
  }

  // ---------- Status ----------

  lemma StatusForward(status: nat, message: Bytes, language: Bytes, rest: Bytes)
    requires IsU32(status) && Short(message) && Short(language)
    ensures ParseWireStatus(EncodeStatus(status, message, language) + rest) == Ok(((status, message, language), rest))
  {
    Associative(U32(status), Prefixed(message) + Prefixed(language), rest);
    Associative(Prefixed(message), Prefixed(language), rest);
    U32Forward(status, Prefixed(message) + (Prefixed(language) + rest));
    BytesForward(message, Prefixed(language) + rest);
    BytesForward(language, rest);
  }

  lemma StatusRoundTrip(status: nat, message: Bytes, language: Bytes)
    requires IsU32(status) && Short(message) && Short(language)
    ensures ParseStatus(EncodeStatus(status, message, language)) == Ok(status)
  {
    assert EncodeStatus(status, message, language) + [] == EncodeStatus(status, message, language);
    StatusForward(status, message, language, []);
  }

  predicate IsStatus(payload: Bytes, status: nat, message: Bytes, language: Bytes)
  {
    IsU32(status) && Short(message) && Short(language) && payload == EncodeStatus(status, message, language)
  }

  lemma StatusAccepted(payload: Bytes)
    ensures ParseStatus(payload).Ok? <==> exists status, message, language :: IsStatus(payload, status, message, language)
  {
    if ParseStatus(payload).Ok? {
      U32Backward(payload);
      var (status, afterStatus) := ParseU32(payload).value;
      BytesBackward(afterStatus);
      var (message, afterMessage) := ParseBytes(afterStatus).value;
      BytesBackward(afterMessage);
      var (language, rest) := ParseBytes(afterMessage).value;
      assert Prefixed(language) + [] == Prefixed(language);
      assert IsStatus(payload, status, message, language);
    }
    forall status, message, language | IsStatus(payload, status, message, language)
      ensures ParseStatus(payload).Ok?
    {
      StatusRoundTrip(status, message, language);
    }
  }

  /**
    An accepted status payload has no accepted proper prefix and no accepted extension.
   */
  lemma StatusPrefixFree(payload: Bytes, more: Bytes)
    requires ParseStatus(payload).Ok? && more != []
    ensures ParseStatus(payload + more) == Err(ProtocolError)
  {
    StatusAccepted(payload);
    var status, message, language :| IsStatus(payload, status, message, language);
    StatusForward(status, message, language, more);
  }

  // ---------- The version response ----------

  // "fsync@openssh.com" and "posix-rename@openssh.com" in ASCII.
  const FSYNC: Bytes := [102, 115, 121, 110, 99, 64, 111, 112, 101, 110, 115, 115, 104, 46, 99, 111, 109]
  const POSIX_RENAME: Bytes := [112, 111, 115, 105, 120, 45, 114, 101, 110, 97, 109, 101, 64, 111, 112, 101, 110, 115, 115, 104, 46, 99, 111, 109]

  datatype Extensions = Extensions(fsync: bool, posixRename: bool)

  function ParseExtension(s: Bytes): Parsed<(Bytes, Bytes)>
  {
    var (name, afterName) :- ParseString(s);
    var (data, rest) :- ParseBytes(afterName);
    Ok(((name, data), rest))
  }

  // Items until the bytes are used up, at most `budget` of them.
  function ParseAll<T>(parse: Bytes -> Parsed<T>, s: Bytes, budget: nat): Result<seq<T>, Error>
    decreases budget
  {
    if s == [] then Ok([])
    else if budget == 0 then Err(ProtocolError)
    else
      var (item, rest) :- parse(s);
      var items :- ParseAll(parse, rest, budget - 1);
      Ok([item] + items)
  }

  function Supported(extensions: seq<(Bytes, Bytes)>): Extensions
  {
    Extensions(exists i :: 0 <= i < |extensions| && extensions[i].0 == FSYNC,
               exists i :: 0 <= i < |extensions| && extensions[i].0 == POSIX_RENAME)
  }

  function ParseVersion(payload: Bytes): Result<Extensions, Error>
  {
    var (version, rest) :- ParseU32(payload);
    if version != SFTP_VERSION then Err(VersionUnsupported)
    else
      var extensions :- ParseAll(ParseExtension, rest, MAX_EXTENDED);
      Ok(Supported(extensions))
  }

  predicate GoodExtension(extension: (Bytes, Bytes))
  {
    ShortEntry(extension) && Utf8(extension.0)
  }

  lemma ExtensionsInverse()
    ensures Inverse(ParseExtension, EncodeEntry, GoodExtension)
  {
    forall entry, rest | GoodExtension(entry)
      ensures ParseExtension(EncodeEntry(entry) + rest) == Ok((entry, rest))
    {
      Associative(Prefixed(entry.0), Prefixed(entry.1), rest);
      BytesForward(entry.0, Prefixed(entry.1) + rest);
      BytesForward(entry.1, rest);
    }
    forall s | ParseExtension(s).Ok?
      ensures GoodExtension(ParseExtension(s).value.0) && s == EncodeEntry(ParseExtension(s).value.0) + ParseExtension(s).value.1
    {
      EntryBackward(s);
    }
  }

  lemma {:induction false} AllForward<T(!new)>(parse: Bytes -> Parsed<T>, encode: T -> Bytes, ok: T -> bool, items: seq<T>, budget: nat)
    requires Inverse(parse, encode, ok) && All(ok, items) && |items| <= budget
    requires forall item :: encode(item) != []
    ensures ParseAll(parse, EncodeMany(encode, items), budget) == Ok(items)
  {
    if items != [] {
      assert [items[0]] + items[1..] == items;
      AllForward(parse, encode, ok, items[1..], budget - 1);
    }
  }

  lemma {:induction false} AllBackward<T(!new)>(parse: Bytes -> Parsed<T>, encode: T -> Bytes, ok: T -> bool, s: Bytes, budget: nat)
    requires Inverse(parse, encode, ok) && ParseAll(parse, s, budget).Ok?
    ensures var items := ParseAll(parse, s, budget).value;
            |items| <= budget && All(ok, items) && s == EncodeMany(encode, items)
    decreases budget
  {
    if s != [] {
      var (item, rest) := parse(s).value;
      AllBackward(parse, encode, ok, rest, budget - 1);
      var items := ParseAll(parse, rest, budget - 1).value;
      ManyCons(encode, ok, item, items, []);
    }
  }

  predicate IsVersion(payload: Bytes, extensions: seq<(Bytes, Bytes)>)
  {
    |extensions| <= MAX_EXTENDED && All(GoodExtension, extensions) && payload == EncodeVersion(extensions)
  }

  /**
    A version response is accepted exactly when it is the encoding of version 3 and at most
    32 extensions with UTF-8 names, and the client then supports what is announced.
   */
  lemma VersionAccepted(payload: Bytes, supported: Extensions)
    ensures ParseVersion(payload) == Ok(supported)
            <==> exists extensions :: IsVersion(payload, extensions) && supported == Supported(extensions)
  {
    ExtensionsInverse();
    if ParseVersion(payload) == Ok(supported) {
      U32Backward(payload);
      AllBackward(ParseExtension, EncodeEntry, GoodExtension, ParseU32(payload).value.1, MAX_EXTENDED);
      assert IsVersion(payload, ParseAll(ParseExtension, ParseU32(payload).value.1, MAX_EXTENDED).value);
    }
    forall extensions | IsVersion(payload, extensions) && supported == Supported(extensions)
      ensures ParseVersion(payload) == Ok(supported)
    {
      U32Forward(SFTP_VERSION, EncodeMany(EncodeEntry, extensions));
      AllForward(ParseExtension, EncodeEntry, GoodExtension, extensions, MAX_EXTENDED);
    }
  }
}
