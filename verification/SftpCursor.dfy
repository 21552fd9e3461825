/**
  The decoder as the client runs it: a cursor over the payload, advanced field by field.
 */
module SftpCursor {
  import opened Wrappers
  import opened SftpCodec

  // What a parser returns, without what it leaves.
  function ValueOf<T>(parsed: Parsed<T>): Result<T, Error>
  {
    if parsed.Ok? then Ok(parsed.value.0) else Err(parsed.error)
  }

  // The result of a repetition, with items parsed before it.
  function After<T>(items: seq<T>, parsed: Parsed<seq<T>>): Parsed<seq<T>>
  {
    if parsed.Ok? then Ok((items + parsed.value.0, parsed.value.1)) else parsed
  }

  class Cursor {
    const bytes: Bytes
    var position: nat

    ghost predicate Valid()
      reads this
    {
      position <= |bytes|
    }

    function Remaining(): Bytes
      requires Valid()
      reads this
    {
      bytes[position..]
    }

    constructor (bytes: Bytes)
      ensures Valid() && Remaining() == bytes
    {
      this.bytes := bytes;
      position := 0;
    }

    // The cursor did what the parser does to the bytes that remained.
    twostate predicate Did<T>(new parsed: Parsed<T>, new r: Result<T, Error>)
      requires Valid()
      reads this
    {
      r == ValueOf(parsed) && (parsed.Ok? ==> Remaining() == parsed.value.1)
    }

    method TakeBytes(length: nat) returns (r: Result<Bytes, Error>)
      requires Valid()
      modifies this
      ensures Valid() && Did(Take(old(Remaining()), length), r)
      ensures r.Err? ==> position == old(position)
    {
      var end := position + length;
      if end > |bytes| {
        return Err(ProtocolError);
      }
      assert bytes[position..end] == Remaining()[..length] && bytes[end..] == Remaining()[length..];
      r := Ok(bytes[position..end]);
      position := end;
    }

    method ReadNumber(width: nat) returns (r: Result<nat, Error>)
      requires Valid()
      modifies this
      ensures Valid() && Did(ParseNumber(old(Remaining()), width), r)
    {
      var taken :- TakeBytes(width);
      var value: nat, i: nat := 0, 0;
      while i < |taken|
        invariant 0 <= i <= |taken| && value == Value(taken[..i])
      {
        value := 256 * value + taken[i];
        i := i + 1;
        assert taken[..i][..i - 1] == taken[..i - 1];
      }
      assert taken[..i] == taken;
      r := Ok(value);
    }

    method ReadBytes() returns (r: Result<Bytes, Error>)
      requires Valid()
      modifies this
      ensures Valid() && Did(ParseBytes(old(Remaining())), r)
    {
      var length :- ReadNumber(4);
      r := TakeBytes(length);
    }

    method ReadString() returns (r: Result<Bytes, Error>)
      requires Valid()
      modifies this
      ensures Valid() && Did(ParseString(old(Remaining())), r)
    {
      var value :- ReadBytes();
      r := if Utf8(value) then Ok(value) else Err(NonUtf8Name);
    }

    method ReadPair() returns (r: Result<(nat, nat), Error>)
      requires Valid()
      modifies this
      ensures Valid() && Did(ParsePair(old(Remaining())), r)
    {
      var first :- ReadNumber(4);
      var second :- ReadNumber(4);
      r := Ok((first, second));
    }

    method ReadEntry() returns (r: Result<(Bytes, Bytes), Error>)
      requires Valid()
      modifies this
      ensures Valid() && Did(ParseEntry(old(Remaining())), r)
    {
      var kind :- ReadBytes();
      var data :- ReadBytes();
      r := Ok((kind, data));
    }

    method ReadEntries(count: nat) returns (r: Result<seq<(Bytes, Bytes)>, Error>)
      requires Valid()
      modifies this
      ensures Valid() && Did(ParseMany(ParseEntry, old(Remaining()), count), r)
    {
      ghost var parsed := ParseMany(ParseEntry, Remaining(), count);
      var entries: seq<(Bytes, Bytes)>, left := [], count;
      Nothing(parsed);
      while left > 0
        invariant Valid() && parsed == After(entries, ParseMany(ParseEntry, Remaining(), left))
      {
        ghost var before := Remaining();
        var entry :- ReadEntry();
        Another(ParseEntry, entries, before, entry, Remaining(), left);
        entries, left := entries + [entry], Fewer(left);
      }
      r := Ok(entries);
      assert entries + [] == entries;
    }

    method ReadExtended() returns (r: Result<seq<(Bytes, Bytes)>, Error>)
      requires Valid()
      modifies this
      ensures Valid() && Did(ParseExtended(old(Remaining())), r)
    {
      var count :- ReadNumber(4);
      if count > MAX_EXTENDED {
        return Err(ProtocolError);
      }
      r := ReadEntries(count);
    }

    method ReadAttrs() returns (r: Result<WireAttrs, Error>)
      requires Valid()
      modifies this
      ensures Valid() && Did(ParseWireAttrs(old(Remaining())), r)
    {
      var word :- ReadNumber(4);
      if !KnownFlags(word) {
        return Err(ProtocolError);
      }
      var present := Announced(word);
      var ownership :- ReadOwnership(present);
      var modes :- ReadModes(present);
      var extended: Option<seq<(Bytes, Bytes)>> := None;
      if present.extended {
        var entries :- ReadExtended();
        extended := Some(entries);
      }
      r := Ok(WireAttrs(ownership.0, ownership.1, modes.0, modes.1, extended));
    }

    method ReadOwnership(present: Present) returns (r: Result<(Option<nat>, Option<(nat, nat)>), Error>)
      requires Valid()
      modifies this
      ensures Valid() && Did(ParseOwnership(old(Remaining()), present), r)
    {
      var size: Option<nat>, owner: Option<(nat, nat)> := None, None;
      if present.size {
        var value :- ReadNumber(8);
        size := Some(value);
      }
      if present.owner {
        var pair :- ReadPair();
        owner := Some(pair);
      }
      r := Ok((size, owner));
    }

    method ReadModes(present: Present) returns (r: Result<(Option<nat>, Option<(nat, nat)>), Error>)
      requires Valid()
      modifies this
      ensures Valid() && Did(ParseModes(old(Remaining()), present), r)
    {
      var permissions: Option<nat>, times: Option<(nat, nat)> := None, None;
      if present.permissions {
        var value :- ReadNumber(4);
        permissions := Some(value);
      }
      if present.times {
        var pair :- ReadPair();
        times := Some(pair);
      }
      r := Ok((permissions, times));
    }

    method ReadName() returns (r: Result<WireName, Error>)
      requires Valid()
      modifies this
      ensures Valid() && Did(ParseName(old(Remaining())), r)
    {
      var filename :- ReadString();
      var longname :- ReadBytes();
      var attrs :- ReadAttrs();
      r := Ok(WireName(filename, longname, attrs));
    }

    // Reads names, of which it keeps what the client shows.
    method ReadNames(count: nat) returns (r: Result<seq<Name>, Error>)
      requires Valid()
      modifies this
      ensures Valid()
      ensures match ParseMany(ParseName, old(Remaining()), count)
              case Err(error) => r == Err(error)
              case Ok((wire, rest)) => r == Ok(KeptNames(wire)) && Remaining() == rest
    {
      ghost var parsed, wire: seq<WireName> := ParseMany(ParseName, Remaining(), count), [];
      var names: seq<Name>, left := [], count;
      Nothing(parsed);
      while left > 0
        invariant Valid() && names == KeptNames(wire)
        invariant parsed == After(wire, ParseMany(ParseName, Remaining(), left))
      {
        ghost var before := Remaining();
        var name :- ReadName();
        Another(ParseName, wire, before, name, Remaining(), left);
        KeptGrow(wire, name);
        names := names + [KeptName(name)];
        wire, left := wire + [name], Fewer(left);
      }
      r := Ok(names);
      assert wire + [] == wire;
    }

    method ReadExtension() returns (r: Result<(Bytes, Bytes), Error>)
      requires Valid()
      modifies this
      ensures Valid() && Did(ParseExtension(old(Remaining())), r)
    {
      var name :- ReadString();
      var data :- ReadBytes();
      r := Ok((name, data));
    }

    // Reads extensions to the end, at most `budget`, and notes the two the client uses.
    method ReadExtensions(budget: nat) returns (r: Result<Extensions, Error>)
      requires Valid()
      modifies this
      ensures match ParseAll(ParseExtension, old(Remaining()), budget)
              case Err(error) => r == Err(error)
              case Ok(extensions) => r == Ok(Supported(extensions))
    {
      ghost var parsed := ParseAll(ParseExtension, Remaining(), budget);
      ghost var seen: seq<(Bytes, Bytes)> := [];
      var supported, left: nat := Extensions(false, false), budget;
      NothingFirst(parsed);
      while Remaining() != []
        invariant Valid() && supported == Supported(seen)
        invariant parsed == Following(seen, ParseAll(ParseExtension, Remaining(), left))
        decreases left
      {
        if left == 0 {
          return Err(ProtocolError);
        }
        ghost var before := Remaining();
        var extension :- ReadExtension();
        Next(ParseExtension, seen, before, extension, Remaining(), left);
        left := Fewer(left);
        SupportedGrows(seen, extension);
        supported := Noted(supported, extension.0);
        seen := seen + [extension];
      }
      assert seen + [] == seen;
      r := Ok(supported);
    }
  }

  lemma NothingFirst<T>(parsed: Result<seq<T>, Error>)
    ensures Following([], parsed) == parsed
  {
    if parsed.Ok? {
      assert [] + parsed.value == parsed.value;
    }
  }

  lemma Nothing<T>(parsed: Parsed<seq<T>>)
    ensures After([], parsed) == parsed
  {
    if parsed.Ok? {
      assert [] + parsed.value.0 == parsed.value.0;
    }
  }

  lemma Another<T>(parse: Bytes -> Parsed<T>, items: seq<T>, s: Bytes, item: T, rest: Bytes, count: nat)
    requires count > 0 && parse(s) == Ok((item, rest))
    ensures After(items, ParseMany(parse, s, count)) == After(items + [item], ParseMany(parse, rest, Fewer(count)))
  {
    var parsed := ParseMany(parse, rest, count - 1);
    if parsed.Ok? {
      Associative(items, [item], parsed.value.0);
    }
  }

  method DecodeNames(payload: Bytes) returns (r: Result<seq<Name>, Error>)
    ensures r == ParseNames(payload)
  {
    var cursor := new Cursor(payload);
    var count :- cursor.ReadNumber(4);
    if count > MAX_NAMES {
      return Err(ListLimitExceeded);
    }
    var names :- cursor.ReadNames(count);
    r := if cursor.position == |cursor.bytes| then Ok(names) else Err(ProtocolError);
  }

  method DecodeAttrs(payload: Bytes) returns (r: Result<Attrs, Error>)
    ensures r == ParseAttrs(payload)
  {
    var cursor := new Cursor(payload);
    var attrs :- cursor.ReadAttrs();
    r := if cursor.position == |cursor.bytes| then Ok(Kept(attrs)) else Err(ProtocolError);
  }

  method DecodeStatus(payload: Bytes) returns (r: Result<nat, Error>)
    ensures r == ParseStatus(payload)
  {
    var cursor := new Cursor(payload);
    var status :- cursor.ReadNumber(4);
    var message :- cursor.ReadBytes();
    var language :- cursor.ReadBytes();
    r := if cursor.position == |cursor.bytes| then Ok(status) else Err(ProtocolError);
  }

  method DecodeVersion(payload: Bytes) returns (r: Result<Extensions, Error>)
    ensures r == ParseVersion(payload)
  {
    var cursor := new Cursor(payload);
    var version :- cursor.ReadNumber(4);
    if version != SFTP_VERSION {
      return Err(VersionUnsupported);
    }
    r := cursor.ReadExtensions(MAX_EXTENDED);
  }

  function Following<T>(items: seq<T>, parsed: Result<seq<T>, Error>): Result<seq<T>, Error>
  {
    if parsed.Ok? then Ok(items + parsed.value) else parsed
  }

  function Fewer(n: nat): nat
    requires n > 0
  {
    n - 1
  }

  lemma Next<T>(parse: Bytes -> Parsed<T>, items: seq<T>, s: Bytes, item: T, rest: Bytes, budget: nat)
    requires budget > 0 && s != [] && parse(s) == Ok((item, rest))
    ensures Following(items, ParseAll(parse, s, budget)) == Following(items + [item], ParseAll(parse, rest, Fewer(budget)))
  {
    var parsed := ParseAll(parse, rest, budget - 1);
    if parsed.Ok? {
      Associative(items, [item], parsed.value);
    }
  }

  lemma KeptGrow(wire: seq<WireName>, name: WireName)
    ensures KeptNames(wire + [name]) == KeptNames(wire) + [KeptName(name)]
  {
  }

  function Noted(supported: Extensions, name: Bytes): Extensions
  {
    if name == FSYNC then supported.(fsync := true)
    else if name == POSIX_RENAME then supported.(posixRename := true)
    else supported
  }

  lemma SupportedGrows(seen: seq<(Bytes, Bytes)>, extension: (Bytes, Bytes))
    ensures Supported(seen + [extension]) == Noted(Supported(seen), extension.0)
  {
    var all := seen + [extension];
    assert all[|seen|] == extension && forall i :: 0 <= i < |seen| ==> all[i] == seen[i];
    assert |FSYNC| != |POSIX_RENAME|;
  }
}
