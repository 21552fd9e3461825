/**
  The Base32 text of TOTP secrets and recovery codes: a shift-register encoder with a
  32-bit accumulator, proved to emit the 5-bit groups of section 6 of RFC 4648 without
  padding characters, and its inverse.
 */
module Base32 {
  import opened Wrappers

  const ALPHABET := "ABCDEFGHIJKLMNOPQRSTUVWXYZ234567"
  const REGISTER := 32

  // ---------- Bit strings, most significant bit first ----------

  type Bits = seq<bool>

  type Quintet = x: nat | x < 32

  type Octet = x: nat | x < 256

  function Pow2(n: nat): (p: nat)
    ensures p > 0
  {
    if n == 0 then 1 else 2 * Pow2(n - 1)
  }

  function ToBits(x: nat, width: nat): (bits: Bits)
    ensures |bits| == width
  {
    if width == 0 then [] else ToBits(x / 2, width - 1) + [x % 2 == 1]
  }

  function FromBits(bits: Bits): nat
  {
    if bits == [] then 0 else 2 * FromBits(bits[..|bits| - 1]) + if bits[|bits| - 1] then 1 else 0
  }

  lemma {:induction false} FromToBits(x: nat, width: nat)
    requires x < Pow2(width)
    ensures FromBits(ToBits(x, width)) == x
  {
    if width > 0 {
      FromToBits(x / 2, width - 1);
      assert ToBits(x, width)[..width - 1] == ToBits(x / 2, width - 1);
    }
  }

  lemma {:induction false} ToFromBits(bits: Bits)
    ensures FromBits(bits) < Pow2(|bits|)
    ensures ToBits(FromBits(bits), |bits|) == bits
  {
    if bits != [] {
      ToFromBits(bits[..|bits| - 1]);
    }
  }

  // `x << n`, `x >> n` and the low `n` bits of `x`.
  function ShiftLeft(x: nat, n: nat): nat
  {
    if n == 0 then x else 2 * ShiftLeft(x, n - 1)
  }

  function ShiftRight(x: nat, n: nat): nat
  {
    if n == 0 then x else ShiftRight(x / 2, n - 1)
  }

  function Low(x: nat, n: nat): (r: nat)
    ensures r < Pow2(n)
  {
    if n == 0 then 0 else 2 * Low(x / 2, n - 1) + x % 2
  }

  // Shifting is multiplying by a power of two, and the low bits are the remainder.
  lemma {:induction false} ShiftIsProduct(x: nat, n: nat)
    ensures ShiftLeft(x, n) == x * Pow2(n)
  {
    if n > 0 {
      ShiftIsProduct(x, n - 1);
      assert x * (2 * Pow2(n - 1)) == 2 * (x * Pow2(n - 1));
    }
  }

  lemma {:induction false} ShiftsSplit(x: nat, n: nat)
    ensures x == ShiftLeft(ShiftRight(x, n), n) + Low(x, n)
  {
    if n > 0 {
      ShiftsSplit(x / 2, n - 1);
    }
  }

  // Two numbers side by side.
  lemma {:induction false} ToBitsConcat(high: nat, low: nat, a: nat, b: nat)
    requires low < Pow2(b)
    ensures ToBits(ShiftLeft(high, b) + low, a + b) == ToBits(high, a) + ToBits(low, b)
  {
    if b > 0 {
      var half := ShiftLeft(high, b - 1);
      ToBitsConcat(high, low / 2, a, b - 1);
      assert (2 * half + low) / 2 == half + low / 2 && (2 * half + low) % 2 == low % 2;
      assert ToBits(high, a) + (ToBits(low / 2, b - 1) + [low % 2 == 1]) == ToBits(high, a) + ToBits(low / 2, b - 1) + [low % 2 == 1];
    }
  }

  function Zeros(n: nat): Bits
  {
    ToBits(0, n)
  }

  // A bit string of a width sees only the low bits of the number.
  lemma {:induction false} Truncated(x: nat, n: nat, width: nat)
    requires width <= n
    ensures ToBits(Low(x, n), width) == ToBits(x, width)
  {
    if width > 0 {
      Truncated(x / 2, n - 1, width - 1);
      assert Low(x, n) / 2 == Low(x / 2, n - 1) && Low(x, n) % 2 == x % 2;
    }
  }

  // The bits above the lowest ones.
  lemma {:induction false} HighBits(x: nat, rest: nat, width: nat)
    ensures ToBits(x, rest + width) == ToBits(ShiftRight(x, rest), width) + ToBits(x, rest)
  {
    if rest == 0 {
      assert ToBits(x, width) + [] == ToBits(x, width);
    } else {
      HighBits(x / 2, rest - 1, width);
      assert ToBits(x, rest + width) == ToBits(x / 2, rest - 1 + width) + [x % 2 == 1];
      Associative(ToBits(ShiftRight(x, rest), width), ToBits(x / 2, rest - 1), [x % 2 == 1]);
    }
  }

  // ---------- Groups ----------

  function Pack(groups: seq<nat>, width: nat): Bits
  {
    if groups == [] then [] else Pack(groups[..|groups| - 1], width) + ToBits(groups[|groups| - 1], width)
  }

  lemma {:induction false} PackLength(groups: seq<nat>, width: nat)
    ensures |Pack(groups, width)| == width * |groups|
  {
    if groups != [] {
      PackLength(groups[..|groups| - 1], width);
      assert width * |groups| == width * (|groups| - 1) + width;
    }
  }

  // The complete groups; an incomplete last one is ignored.
  function Unpack(bits: Bits, width: nat): seq<nat>
    requires width > 0
  {
    if |bits| < width then [] else [FromBits(bits[..width])] + Unpack(bits[width..], width)
  }

  lemma PackAppend(groups: seq<nat>, group: nat, width: nat)
    ensures Pack(groups + [group], width) == Pack(groups, width) + ToBits(group, width)
  {
    assert (groups + [group])[..|groups|] == groups;
  }

  lemma {:induction false} PackPrepend(group: nat, groups: seq<nat>, width: nat)
    ensures Pack([group] + groups, width) == ToBits(group, width) + Pack(groups, width)
  {
    if groups == [] {
      assert [group] + groups == [group];
      assert [group][..0] == [];
    } else {
      var last := |groups| - 1;
      PackPrepend(group, groups[..last], width);
      assert ([group] + groups)[..|groups|] == [group] + groups[..last];
      assert ToBits(group, width) + (Pack(groups[..last], width) + ToBits(groups[last], width))
          == (ToBits(group, width) + Pack(groups[..last], width)) + ToBits(groups[last], width);
    }
  }

  // Unpacking recovers the groups, whatever incomplete group follows.
  lemma {:induction false} UnpackPack(groups: seq<nat>, rest: Bits, width: nat)
    requires width > 0 && |rest| < width
    requires forall i :: 0 <= i < |groups| ==> groups[i] < Pow2(width)
    ensures Unpack(Pack(groups, width) + rest, width) == groups
  {
    if groups == [] {
      assert Pack(groups, width) + rest == rest;
    } else {
      var tail := groups[1..];
      assert groups == [groups[0]] + tail;
      PackPrepend(groups[0], tail, width);
      Associative(ToBits(groups[0], width), Pack(tail, width), rest);
      UnpackStep(ToBits(groups[0], width), Pack(tail, width) + rest, width);
      FromToBits(groups[0], width);
      UnpackPack(tail, rest, width);
    }
  }

  lemma UnpackStep(group: Bits, rest: Bits, width: nat)
    requires width > 0 && |group| == width
    ensures Unpack(group + rest, width) == [FromBits(group)] + Unpack(rest, width)
  {
    assert (group + rest)[..width] == group && (group + rest)[width..] == rest;
  }

  lemma {:induction false} PackUnpack(bits: Bits, width: nat, count: nat)
    requires width > 0 && |bits| == width * count
    ensures Pack(Unpack(bits, width), width) == bits && |Unpack(bits, width)| == count
    ensures forall i :: 0 <= i < |Unpack(bits, width)| ==> Unpack(bits, width)[i] < Pow2(width)
  {
    if count > 0 {
      assert width * count == width * (count - 1) + width;
      var group, rest := bits[..width], bits[width..];
      assert bits == group + rest;
      PackUnpack(rest, width, count - 1);
      UnpackStep(group, rest, width);
      PackPrepend(FromBits(group), Unpack(rest, width), width);
      ToFromBits(group);
    }
  }

  // ---------- The reference ----------

  function ByteBits(input: seq<byte>): (bits: Bits)
    ensures |bits| == 8 * |input|
  {
    PackLength(Numbers(input), 8);
    Pack(Numbers(input), 8)
  }

  function PadWidth(n: nat): nat
  {
    if (8 * n) % 5 == 0 then 0 else 5 - (8 * n) % 5
  }

  lemma PadLength(n: nat)
    ensures n + (if n % 5 == 0 then 0 else 5 - n % 5) == 5 * ((n + 4) / 5)
  {
  }

  function Padded(input: seq<byte>): (bits: Bits)
    ensures |bits| == 5 * ((8 * |input| + 4) / 5)
  {
    PadLength(8 * |input|);
    ByteBits(input) + Zeros(PadWidth(|input|))
  }

  // The quintets of RFC 4648: the input bits, zero-filled to a multiple of five.
  function Quintets(input: seq<byte>): (groups: seq<Quintet>)
    ensures |groups| == (8 * |input| + 4) / 5
  {
    PackUnpack(Padded(input), 5, (8 * |input| + 4) / 5);
    SmallPowers();
    Unpack(Padded(input), 5)
  }

  function Chars(groups: seq<Quintet>): string
  {
    seq(|groups|, i requires 0 <= i < |groups| => ALPHABET[groups[i]])
  }

  function Encoded(input: seq<byte>): (text: string)
    ensures |text| == (8 * |input| + 4) / 5
  {
    Chars(Quintets(input))
  }

  // ---------- The shift register ----------

  lemma SmallPowers()
    ensures Pow2(5) == 32 && Pow2(8) == 256
  {
    assert Pow2(4) == 16;
  }

  // The 32-bit register: `(buffer << width) | value`, and `(buffer >> rest) & mask`.
  function Push(buffer: nat, value: nat, width: nat): nat
  {
    Low(ShiftLeft(buffer, width) + value, REGISTER)
  }

  function Peek(buffer: nat, rest: nat, width: nat): (group: nat)
    ensures group < Pow2(width)
  {
    Low(ShiftRight(buffer, rest), width)
  }

  function PeekLeft(buffer: nat, bits: nat): Quintet
    requires bits < 5
  {
    SmallPowers();
    Low(Low(ShiftLeft(buffer, 5 - bits), REGISTER), 5)
  }

  // Shifting a value into the register appends its bits to the pending ones, although the
  // register forgets its top bits.
  lemma ShiftIn(buffer: nat, bits: nat, value: nat, width: nat)
    requires value < Pow2(width) && bits + width <= REGISTER
    ensures ToBits(Push(buffer, value, width), bits + width) == ToBits(buffer, bits) + ToBits(value, width)
  {
    Truncated(ShiftLeft(buffer, width) + value, REGISTER, bits + width);
    ToBitsConcat(buffer, value, bits, width);
  }

  // Reading the oldest pending bits takes them off the front.
  lemma ShiftOut(buffer: nat, rest: nat, width: nat)
    ensures ToBits(buffer, rest + width) == ToBits(Peek(buffer, rest, width), width) + ToBits(buffer, rest)
  {
    HighBits(buffer, rest, width);
    Truncated(ShiftRight(buffer, rest), width, width);
  }

  // The register and what was emitted so far, after one value was shifted in.
  lemma Absorb(emitted: Bits, consumed: seq<nat>, pending: Bits, value: nat, width: nat)
    requires emitted + pending == Pack(consumed, width)
    ensures emitted + (pending + ToBits(value, width)) == Pack(consumed + [value], width)
  {
    PackAppend(consumed, value, width);
    Associative(emitted, pending, ToBits(value, width));
  }

  // ... and after one group was emitted.
  lemma Emit(groups: seq<nat>, buffer: nat, rest: nat, width: nat)
    ensures Pack(groups, width) + ToBits(buffer, rest + width) == Pack(groups + [Peek(buffer, rest, width)], width) + ToBits(buffer, rest)
  {
    var group := Peek(buffer, rest, width);
    ShiftOut(buffer, rest, width);
    PackAppend(groups, group, width);
    Associative(Pack(groups, width), ToBits(group, width), ToBits(buffer, rest));
  }

  function Numbers(input: seq<byte>): (numbers: seq<nat>)
    ensures |numbers| == |input| && forall i :: 0 <= i < |input| ==> numbers[i] == input[i] < 256
  {
    seq(|input|, i requires 0 <= i < |input| => input[i] as nat)
  }

  // Takes complete groups off the register.
  method Drain(before: seq<nat>, buffer: nat, pending: nat, to: nat) returns (groups: seq<nat>, bits: nat)
    requires 0 < to && forall i :: 0 <= i < |before| ==> before[i] < Pow2(to)
    ensures bits < to && Pack(groups, to) + ToBits(buffer, bits) == Pack(before, to) + ToBits(buffer, pending)
    ensures forall i :: 0 <= i < |groups| ==> groups[i] < Pow2(to)
  {
    groups, bits := before, pending;
    while bits >= to
      invariant Pack(groups, to) + ToBits(buffer, bits) == Pack(before, to) + ToBits(buffer, pending)
      invariant forall i :: 0 <= i < |groups| ==> groups[i] < Pow2(to)
    {
      bits := bits - to;
      Emit(groups, buffer, bits, to);
      groups := groups + [Peek(buffer, bits, to)];
    }
  }

  // Shifts one value in, and takes off what is complete.
  method Feed(before: seq<nat>, register: nat, pending: nat, value: nat, from: nat, to: nat, ghost consumed: seq<nat>)
    returns (groups: seq<nat>, buffer: nat, bits: nat)
    requires pending < to && from + to <= REGISTER && value < Pow2(from)
    requires Pack(before, to) + ToBits(register, pending) == Pack(consumed, from)
    requires forall i :: 0 <= i < |before| ==> before[i] < Pow2(to)
    ensures bits < to && Pack(groups, to) + ToBits(buffer, bits) == Pack(consumed + [value], from)
    ensures forall i :: 0 <= i < |groups| ==> groups[i] < Pow2(to)
  {
    buffer := ShiftInto(register, pending, value, from);
    Absorb(Pack(before, to), consumed, ToBits(register, pending), value, from);
    assert Pack(before, to) + ToBits(buffer, pending + from) == Pack(consumed + [value], from);
    groups, bits := Drain(before, buffer, pending + from, to);
  }

  method ShiftInto(register: nat, ghost pending: nat, value: nat, width: nat) returns (buffer: nat)
    requires value < Pow2(width) && pending + width <= REGISTER
    ensures ToBits(buffer, pending + width) == ToBits(register, pending) + ToBits(value, width)
  {
    buffer := Push(register, value, width);
    ShiftIn(register, pending, value, width);
  }

  // The register loop of both directions: values of one width are shifted in, groups of
  // another width are taken off as soon as they are complete.
  method Regroup(values: seq<nat>, from: nat, to: nat) returns (groups: seq<nat>, buffer: nat, bits: nat)
    requires 0 < to && from + to <= REGISTER
    requires forall i :: 0 <= i < |values| ==> values[i] < Pow2(from)
    ensures bits < to && Pack(groups, to) + ToBits(buffer, bits) == Pack(values, from)
    ensures forall i :: 0 <= i < |groups| ==> groups[i] < Pow2(to)
  {
    groups, buffer, bits := [], 0, 0;
    ghost var consumed: seq<nat> := [];
    for i := 0 to |values|
      invariant bits < to && |consumed| == i && consumed <= values
      invariant Pack(groups, to) + ToBits(buffer, bits) == Pack(consumed, from)
      invariant forall k :: 0 <= k < |groups| ==> groups[k] < Pow2(to)
    {
      groups, buffer, bits := Feed(groups, buffer, bits, values[i], from, to, consumed);
      consumed := consumed + [values[i]];
    }
    assert consumed == values;
  }

  // `base32`: the register loop emits exactly the reference text.
  method Encode(input: seq<byte>) returns (output: string)
    ensures output == Encoded(input)
  {
    SmallPowers();
    var groups, buffer, bits := Regroup(Numbers(input), 8, 5);
    FullQuintets(input, groups, buffer, bits);
    output := Chars(groups);
    if bits > 0 {
      var index := PeekLeft(buffer, bits);
      CharsAppend(groups, index);
      output := output + [ALPHABET[index]];
    }
  }

  lemma CharsAppend(groups: seq<Quintet>, index: Quintet)
    ensures Chars(groups + [index]) == Chars(groups) + [ALPHABET[index]]
  {
  }

  // The end of the loop: the pending bits, zero-filled, complete the reference.
  lemma FullQuintets(input: seq<byte>, groups: seq<Quintet>, buffer: nat, bits: nat)
    requires bits < 5 && Pack(groups, 5) + ToBits(buffer, bits) == ByteBits(input)
    ensures Quintets(input) == if bits == 0 then groups else groups + [PeekLeft(buffer, bits)]
  {
    SmallPowers();
    PackLength(groups, 5);
    var total := |Pack(groups, 5) + ToBits(buffer, bits)|;
    assert total == 5 * |groups| + bits && total == 8 * |input|;
    ModFive(|input|, |groups|, bits);
    if bits == 0 {
      NoPadding(ByteBits(input), ToBits(buffer, 0), Pack(groups, 5));
      UnpackPack(groups, [], 5);
    } else {
      var last := PeekLeft(buffer, bits);
      LastQuintet(buffer, bits);
      PackAppend(groups, last, 5);
      Associative(Pack(groups, 5), ToBits(buffer, bits), Zeros(5 - bits));
      NoPadding(Pack(groups + [last], 5), [], Pack(groups + [last], 5));
      UnpackPack(groups + [last], [], 5);
    }
  }

  lemma ModFive(n: nat, groups: nat, bits: nat)
    requires 8 * n == 5 * groups + bits && bits < 5
    ensures (8 * n) % 5 == bits
  {
  }

  lemma NoPadding(all: Bits, rest: Bits, packed: Bits)
    requires packed + rest == all && rest == []
    ensures all + Zeros(0) == packed + [] == all == packed
  {
  }

  // The final group: the pending bits followed by zeroes.
  lemma LastQuintet(buffer: nat, bits: nat)
    requires 0 < bits < 5
    ensures ToBits(PeekLeft(buffer, bits), 5) == ToBits(buffer, bits) + Zeros(5 - bits)
  {
    var shifted := ShiftLeft(buffer, 5 - bits);
    Truncated(Low(shifted, REGISTER), 5, 5);
    Truncated(shifted, REGISTER, 5);
    ToBitsConcat(buffer, 0, bits, 5 - bits);
  }

  // ---------- Decoding ----------

  function Index(c: char): Option<Quintet>
  {
    if 'A' <= c <= 'Z' then Some((c - 'A') as nat)
    else if '2' <= c <= '7' then Some((c - '2') as nat + 26)
    else None
  }

  predicate Valid(text: string)
  {
    forall i :: 0 <= i < |text| ==> Index(text[i]).Some?
  }

  function Indices(text: string): (indices: seq<Quintet>)
    requires Valid(text)
    ensures |indices| == |text|
  {
    seq(|text|, i requires 0 <= i < |text| => Index(text[i]).value)
  }

  // The complete octets of the text; trailing bits are ignored.
  function Decoded(text: string): Option<seq<nat>>
  {
    if Valid(text) then Some(Unpack(Pack(Indices(text), 5), 8)) else None
  }

  lemma AlphabetIndex(group: Quintet)
    ensures Index(ALPHABET[group]) == Some(group)
  {
  }

  lemma IndicesOfChars(groups: seq<Quintet>)
    ensures Valid(Chars(groups)) && Indices(Chars(groups)) == groups
  {
    forall i | 0 <= i < |groups|
      ensures Index(Chars(groups)[i]) == Some(groups[i])
    {
      AlphabetIndex(groups[i]);
    }
  }

  /**
    The round trip: for every byte string, decoding the encoded text returns the input.
   */
  lemma DecodeEncode(input: seq<byte>)
    ensures Decoded(Encoded(input)) == Some(Numbers(input))
  {
    IndicesOfChars(Quintets(input));
    SmallPowers();
    PackUnpack(Padded(input), 5, (8 * |input| + 4) / 5);
    UnpackPack(Numbers(input), Zeros(PadWidth(|input|)), 8);
  }

  // Different inputs have different texts.
  lemma EncodeInjective(left: seq<byte>, right: seq<byte>)
    requires Encoded(left) == Encoded(right)
    ensures left == right
  {
    DecodeEncode(left);
    DecodeEncode(right);
    assert forall i :: 0 <= i < |left| ==> left[i] == Numbers(left)[i];
  }

  // `decode_base32`
  method Decode(text: string) returns (output: Option<seq<nat>>)
    ensures output == Decoded(text)
  {
    var indices: seq<Quintet> := [];
    for i := 0 to |text|
      invariant |indices| == i && forall k :: 0 <= k < i ==> Index(text[k]) == Some(indices[k])
    {
      var index := Index(text[i]);
      if index.None? {
        return None;
      }
      indices := indices + [index.value];
    }
    assert indices == Indices(text);
    SmallPowers();
    var groups, buffer, bits := Regroup(indices, 5, 8);
    UnpackPack(groups, ToBits(buffer, bits), 8);
    output := Some(groups);
  }

  // ---------- Recovery codes ----------

  // `chunks(5)` joined with dashes, as shown to the user.
  function Grouped(raw: string): string
  {
    if |raw| <= 5 then raw else raw[..5] + "-" + Grouped(raw[5..])
  }

  predicate IsSeparator(c: char) { c in {'-', ' ', '\t', '\n', '\r', 12 as char} }

  function Upper(c: char): char
  {
    if 'a' <= c <= 'z' then c - 'a' + 'A' else c
  }

  // What `recovery_digest` feeds to the hash.
  function Normalised(code: string): string
  {
    if code == "" then ""
    else Kept(code[0]) + Normalised(code[1..])
  }

  function Kept(c: char): string
  {
    if IsSeparator(c) then "" else [Upper(c)]
  }

  lemma {:induction false} NormalisedConcat(left: string, right: string)
    ensures Normalised(left + right) == Normalised(left) + Normalised(right)
  {
    if left == "" {
      assert left + right == right;
    } else {
      var all := left + right;
      NormalisedConcat(left[1..], right);
      assert all[0] == left[0] && all[1..] == left[1..] + right;
      Associative(Kept(left[0]), Normalised(left[1..]), Normalised(right));
    }
  }

  lemma {:induction false} NormalisedPlain(text: string)
    requires Valid(text)
    ensures Normalised(text) == text
  {
    if text != "" {
      NormalisedPlain(text[1..]);
      assert Index(text[0]).Some?;
    }
  }

  lemma {:induction false} NormalisedGrouped(raw: string)
    requires Valid(raw)
    ensures Normalised(Grouped(raw)) == raw
  {
    if |raw| <= 5 {
      NormalisedPlain(raw);
    } else {
      NormalisedGrouped(raw[5..]);
      NormalisedPlain(raw[..5]);
      NormalisedConcat(raw[..5] + "-", Grouped(raw[5..]));
      NormalisedConcat(raw[..5], "-");
      assert Normalised("-") == "" + Normalised("");
    }
  }

  /**
    Grouping is undone: the code shown to the user hashes to the same digest as the raw
    code, and two codes shown for different random bytes never hash the same text.
   */
  lemma RecoveryCodeRoundTrip(random: seq<byte>)
    ensures Normalised(Grouped(Encoded(random))) == Encoded(random)
    ensures Decoded(Normalised(Grouped(Encoded(random)))) == Some(Numbers(random))
  {
    IndicesOfChars(Quintets(random));
    NormalisedGrouped(Encoded(random));
    DecodeEncode(random);
  }

  // `recovery_digest`, up to the hash: the loop skips separators and upper-cases the rest.
  method Normalise(code: string) returns (text: string)
    ensures text == Normalised(code)
  {
    text := "";
    for i := 0 to |code|
      invariant text == Normalised(code[..i])
    {
      NormalisedConcat(code[..i], [code[i]]);
      assert code[..i] + [code[i]] == code[..i + 1];
      assert [code[i]][1..] == "";
      if !IsSeparator(code[i]) {
        text := text + [Upper(code[i])];
      }
    }
    assert code[..|code|] == code;
  }
}
