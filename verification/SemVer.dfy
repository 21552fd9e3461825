/**
  Semantic versions: the comparison used on release headings, its agreement with section 11
  of Semantic Versioning 2.0.0 on unbounded naturals, and the grammar that is accepted.
 */
module SemVer {
  import opened Wrappers
  import opened Text
  import opened Order

  datatype Version = Version(original: string, core: seq<string>, prerelease: Option<seq<string>>)

  // ---------- Comparisons ----------

  // `numeric_cmp`
  function NumericCmp(left: string, right: string): Ordering
  {
    Then(Compare(|left|, |right|), TextCmp(left, right))
  }

  predicate Digit(c: char)
  {
    '0' <= c <= '9'
  }

  predicate Numeric(s: string)
  {
    forall i :: 0 <= i < |s| ==> Digit(s[i])
  }

  function IdentifierCmp(left: string, right: string): Ordering
  {
    if Numeric(left) && Numeric(right) then NumericCmp(left, right)
    else if Numeric(left) then Less
    else if Numeric(right) then Greater
    else TextCmp(left, right)
  }

  function PrereleaseCmp(left: seq<string>, right: seq<string>): Ordering
  {
    if left == [] || right == [] then Compare(|left|, |right|)
    else Then(IdentifierCmp(left[0], right[0]), PrereleaseCmp(left[1..], right[1..]))
  }

  function OptionCmp(left: Option<seq<string>>, right: Option<seq<string>>): Ordering
  {
    match (left, right)
    case (None, None) => Equal
    case (None, Some(_)) => Greater
    case (Some(_), None) => Less
    case (Some(l), Some(r)) => PrereleaseCmp(l, r)
  }

  predicate HasCore(v: Version)
  {
    |v.core| == 3
  }

  function PrecedenceCmp(v: Version, w: Version): Ordering
    requires HasCore(v) && HasCore(w)
  {
    Then(NumericCmp(v.core[0], w.core[0]), Then(NumericCmp(v.core[1], w.core[1]),
      Then(NumericCmp(v.core[2], w.core[2]), OptionCmp(v.prerelease, w.prerelease))))
  }

  // ---------- The order laws ----------

  lemma NumericOrder(a: string, b: string, c: string)
    ensures NumericCmp(b, a) == Flip(NumericCmp(a, b))
    ensures Composes(NumericCmp(a, b), NumericCmp(b, c), NumericCmp(a, c))
  {
    TextOrder(a, b, c);
  }

  lemma IdentifierOrder(a: string, b: string, c: string)
    ensures IdentifierCmp(b, a) == Flip(IdentifierCmp(a, b))
    ensures Composes(IdentifierCmp(a, b), IdentifierCmp(b, c), IdentifierCmp(a, c))
  {
    TextOrder(a, b, c);
    NumericOrder(a, b, c);
  }

  lemma {:induction false} PrereleaseOrder(a: seq<string>, b: seq<string>, c: seq<string>)
    ensures PrereleaseCmp(b, a) == Flip(PrereleaseCmp(a, b))
    ensures Composes(PrereleaseCmp(a, b), PrereleaseCmp(b, c), PrereleaseCmp(a, c))
  {
    if a != [] && b != [] && c != [] {
      IdentifierOrder(a[0], b[0], c[0]);
      PrereleaseOrder(a[1..], b[1..], c[1..]);
    } else if a != [] && b != [] {
      IdentifierOrder(a[0], b[0], "");
      PrereleaseOrder(a[1..], b[1..], []);
    }
  }

  lemma OptionOrder(a: Option<seq<string>>, b: Option<seq<string>>, c: Option<seq<string>>)
    ensures OptionCmp(b, a) == Flip(OptionCmp(a, b))
    ensures Composes(OptionCmp(a, b), OptionCmp(b, c), OptionCmp(a, c))
  {
    PrereleaseOrder(if a.Some? then a.value else [], if b.Some? then b.value else [], if c.Some? then c.value else []);
  }

  /**
    `precedence_cmp` is a total preorder: comparing the other way round flips the result,
    and two comparisons compose.
   */
  lemma PrecedenceIsTotalPreorder(a: Version, b: Version, c: Version)
    requires HasCore(a) && HasCore(b) && HasCore(c)
    ensures PrecedenceCmp(a, a) == Equal
    ensures PrecedenceCmp(b, a) == Flip(PrecedenceCmp(a, b))
    ensures Composes(PrecedenceCmp(a, b), PrecedenceCmp(b, c), PrecedenceCmp(a, c))
  {
    NumericOrder(a.core[0], b.core[0], c.core[0]);
    NumericOrder(a.core[1], b.core[1], c.core[1]);
    NumericOrder(a.core[2], b.core[2], c.core[2]);
    OptionOrder(a.prerelease, b.prerelease, c.prerelease);
    SelfEqual(a);
  }

  lemma SelfEqual(a: Version)
    requires HasCore(a)
    ensures PrecedenceCmp(a, a) == Equal
  {
    NumericOrder(a.core[0], a.core[0], a.core[0]);
    NumericOrder(a.core[1], a.core[1], a.core[1]);
    NumericOrder(a.core[2], a.core[2], a.core[2]);
    OptionOrder(a.prerelease, a.prerelease, a.prerelease);
  }

  // ---------- Digit strings as naturals ----------

  function Value(s: string): nat
    requires Numeric(s)
  {
    if s == "" then 0 else 10 * Value(s[..|s| - 1]) + (s[|s| - 1] - '0') as nat
  }

  function Power(n: nat): nat
  {
    if n == 0 then 1 else 10 * Power(n - 1)
  }

  // A numeral without leading zeroes.
  predicate Canonical(s: string)
  {
    s != "" && Numeric(s) && (|s| > 1 ==> s[0] != '0')
  }

  lemma {:induction false} ValueBounds(s: string)
    requires Numeric(s)
    ensures Value(s) < Power(|s|)
    ensures s != "" && s[0] != '0' ==> Power(|s| - 1) <= Value(s)
  {
    if s != "" {
      ValueBounds(s[..|s| - 1]);
    }
  }

  lemma {:induction false} PowerGrows(m: nat, n: nat)
    requires m <= n
    ensures 1 <= Power(m) <= Power(n)
  {
    if m < n {
      PowerGrows(m, n - 1);
    } else if m > 0 {
      PowerGrows(m - 1, m - 1);
    }
  }

  // Of texts of one length, the last character decides after the rest.
  lemma {:induction false} TextCmpLast(left: string, right: string)
    requires |left| == |right| > 0
    ensures var n := |left| - 1;
            TextCmp(left, right) == Then(TextCmp(left[..n], right[..n]), Compare(left[n] as int, right[n] as int))
  {
    var n := |left| - 1;
    if n > 0 {
      TextCmpLast(left[1..], right[1..]);
      assert left[1..][..n - 1] == left[..n][1..] && right[1..][..n - 1] == right[..n][1..];
    }
  }

  lemma {:induction false} SameLengthIsNumeric(left: string, right: string)
    requires Numeric(left) && Numeric(right) && |left| == |right|
    ensures TextCmp(left, right) == Compare(Value(left), Value(right))
  {
    if left != "" {
      var n := |left| - 1;
      SameLengthIsNumeric(left[..n], right[..n]);
      TextCmpLast(left, right);
    }
  }

  /**
    Comparing numerals by length and then as text is comparing unbounded naturals.
   */
  lemma NumericCmpIsNatural(left: string, right: string)
    requires Canonical(left) && Canonical(right)
    ensures NumericCmp(left, right) == Compare(Value(left), Value(right))
  {
    if |left| == |right| {
      SameLengthIsNumeric(left, right);
    } else if |left| < |right| {
      ShorterIsSmaller(left, right);
    } else {
      ShorterIsSmaller(right, left);
    }
  }

  lemma ShorterIsSmaller(left: string, right: string)
    requires Canonical(left) && Canonical(right) && |left| < |right|
    ensures Value(left) < Value(right)
  {
    ValueBounds(left);
    ValueBounds(right);
    PowerGrows(|left|, |right| - 1);
  }


  // ---------- Section 11 of Semantic Versioning 2.0.0 ----------

  // A pre-release identifier as section 11.4 reads it.
  datatype Identifier = Number(n: nat) | Letters(text: string)

  function Meaning(s: string): Identifier
  {
    if Numeric(s) then Number(Value(s)) else Letters(s)
  }

  function Meanings(identifiers: seq<string>): seq<Identifier>
  {
    seq(|identifiers|, i requires 0 <= i < |identifiers| => Meaning(identifiers[i]))
  }

  // The first difference decides; without one, the shorter is lower.
  ghost predicate LowerAt<T(!new)>(lower: (T, T) -> bool, a: seq<T>, b: seq<T>, k: nat)
  {
    && k <= |a| && k <= |b| && a[..k] == b[..k]
    && ((k == |a| && k < |b|) || (k < |a| && k < |b| && lower(a[k], b[k])))
  }

  ghost predicate LexLower<T(!new)>(lower: (T, T) -> bool, a: seq<T>, b: seq<T>)
  {
    exists k :: LowerAt(lower, a, b, k)
  }

  predicate CharLower(a: char, b: char)
  {
    a < b
  }

  predicate NatLower(a: nat, b: nat)
  {
    a < b
  }

  // Sections 11.4.1 to 11.4.3
  ghost predicate IdentifierLower(a: Identifier, b: Identifier)
  {
    match (a, b)
    case (Number(m), Number(n)) => m < n
    case (Number(_), Letters(_)) => true
    case (Letters(_), Number(_)) => false
    case (Letters(s), Letters(t)) => LexLower(CharLower, s, t)
  }

  function Numbers(v: Version): seq<nat>
    requires HasCore(v) && forall i :: 0 <= i < 3 ==> Numeric(v.core[i])
  {
    [Value(v.core[0]), Value(v.core[1]), Value(v.core[2])]
  }

  predicate GoodIdentifier(s: string)
  {
    Numeric(s) ==> Canonical(s)
  }

  // What a parsed version satisfies.
  predicate WellFormed(v: Version)
  {
    && HasCore(v) && (forall i :: 0 <= i < 3 ==> Canonical(v.core[i]))
    && (v.prerelease.Some? ==> forall i :: 0 <= i < |v.prerelease.value| ==> GoodIdentifier(v.prerelease.value[i]))
  }

  // Sections 11.2 to 11.4
  ghost predicate Lower(v: Version, w: Version)
    requires WellFormed(v) && WellFormed(w)
  {
    || LexLower(NatLower, Numbers(v), Numbers(w))
    || (Numbers(v) == Numbers(w) && PrereleaseLower(v.prerelease, w.prerelease))
  }

  ghost predicate PrereleaseLower(a: Option<seq<string>>, b: Option<seq<string>>)
  {
    a.Some? && (b.None? || LexLower((x, y) => IdentifierLower(x, y), Meanings(a.value), Meanings(b.value)))
  }

  ghost predicate SamePrecedence(v: Version, w: Version)
    requires WellFormed(v) && WellFormed(w)
  {
    Numbers(v) == Numbers(w) && SamePrerelease(v.prerelease, w.prerelease)
  }

  predicate SamePrerelease(a: Option<seq<string>>, b: Option<seq<string>>)
  {
    a.Some? == b.Some? && (a.Some? ==> Meanings(a.value) == Meanings(b.value))
  }

  lemma LexCons<T(!new)>(lower: (T, T) -> bool, a: seq<T>, b: seq<T>)
    requires a != [] && b != []
    ensures LexLower(lower, a, b) <==> lower(a[0], b[0]) || (a[0] == b[0] && LexLower(lower, a[1..], b[1..]))
  {
    if LexLower(lower, a, b) {
      var k: nat :| LowerAt(lower, a, b, k);
      if k > 0 {
        assert a[0] == a[..k][0] && b[0] == b[..k][0];
        assert a[1..][..k - 1] == a[..k][1..] && b[1..][..k - 1] == b[..k][1..];
        assert LowerAt(lower, a[1..], b[1..], k - 1);
      }
    }
    if lower(a[0], b[0]) {
      assert LowerAt(lower, a, b, 0);
    }
    if a[0] == b[0] && LexLower(lower, a[1..], b[1..]) {
      var k: nat :| LowerAt(lower, a[1..], b[1..], k);
      assert a[..k + 1] == [a[0]] + a[1..][..k] && b[..k + 1] == [b[0]] + b[1..][..k];
      assert LowerAt(lower, a, b, k + 1);
    }
  }

  lemma LexEmpty<T(!new)>(lower: (T, T) -> bool, a: seq<T>, b: seq<T>)
    requires a == [] || b == []
    ensures LexLower(lower, a, b) <==> |a| < |b|
  {
    if |a| < |b| {
      assert LowerAt(lower, a, b, 0);
    }
  }

  lemma {:induction false} TextCmpIsAscii(left: string, right: string)
    ensures TextCmp(left, right) == Less <==> LexLower(CharLower, left, right)
  {
    if left == "" || right == "" {
      LexEmpty(CharLower, left, right);
    } else {
      LexCons(CharLower, left, right);
      TextCmpIsAscii(left[1..], right[1..]);
    }
  }

  lemma IdentifierCmpIsSection11(left: string, right: string)
    requires GoodIdentifier(left) && GoodIdentifier(right)
    ensures IdentifierCmp(left, right) == Less <==> IdentifierLower(Meaning(left), Meaning(right))
    ensures IdentifierCmp(left, right) == Equal <==> Meaning(left) == Meaning(right)
  {
    if Numeric(left) && Numeric(right) {
      NumericCmpIsNatural(left, right);
    } else if !Numeric(left) && !Numeric(right) {
      TextCmpIsAscii(left, right);
      TextEqual(left, right);
    }
  }

  lemma {:induction false} PrereleaseCmpIsSection11(left: seq<string>, right: seq<string>)
    requires forall i :: 0 <= i < |left| ==> GoodIdentifier(left[i])
    requires forall i :: 0 <= i < |right| ==> GoodIdentifier(right[i])
    ensures PrereleaseCmp(left, right) == Less <==> LexLower((x, y) => IdentifierLower(x, y), Meanings(left), Meanings(right))
    ensures PrereleaseCmp(left, right) == Equal <==> Meanings(left) == Meanings(right)
  {
    ghost var lower := (x, y) => IdentifierLower(x, y);
    if left == [] || right == [] {
      LexEmpty(lower, Meanings(left), Meanings(right));
    } else {
      LexCons(lower, Meanings(left), Meanings(right));
      IdentifierCmpIsSection11(left[0], right[0]);
      PrereleaseCmpIsSection11(left[1..], right[1..]);
      assert Meanings(left) == [Meaning(left[0])] + Meanings(left[1..]);
      assert Meanings(right) == [Meaning(right[0])] + Meanings(right[1..]);
    }
  }

  function CoreCmp(v: Version, w: Version): Ordering
    requires HasCore(v) && HasCore(w)
  {
    Then(NumericCmp(v.core[0], w.core[0]), Then(NumericCmp(v.core[1], w.core[1]), NumericCmp(v.core[2], w.core[2])))
  }

  lemma CoreCmpIsSection11(v: Version, w: Version)
    requires WellFormed(v) && WellFormed(w)
    ensures CoreCmp(v, w) == Less <==> LexLower(NatLower, Numbers(v), Numbers(w))
    ensures CoreCmp(v, w) == Equal <==> Numbers(v) == Numbers(w)
  {
    var a, b := Numbers(v), Numbers(w);
    NumericCmpIsNatural(v.core[0], w.core[0]);
    NumericCmpIsNatural(v.core[1], w.core[1]);
    NumericCmpIsNatural(v.core[2], w.core[2]);
    LexCons(NatLower, a, b);
    LexCons(NatLower, a[1..], b[1..]);
    LexCons(NatLower, a[1..][1..], b[1..][1..]);
    LexEmpty(NatLower, a[1..][1..][1..], b[1..][1..][1..]);
    assert a == b <==> a[0] == b[0] && a[1] == b[1] && a[2] == b[2];
  }

  lemma OptionCmpIsSection11(a: Option<seq<string>>, b: Option<seq<string>>)
    requires a.Some? ==> forall i :: 0 <= i < |a.value| ==> GoodIdentifier(a.value[i])
    requires b.Some? ==> forall i :: 0 <= i < |b.value| ==> GoodIdentifier(b.value[i])
    ensures OptionCmp(a, b) == Less <==> PrereleaseLower(a, b)
    ensures OptionCmp(a, b) == Equal <==> SamePrerelease(a, b)
  {
    if a.Some? && b.Some? {
      PrereleaseCmpIsSection11(a.value, b.value);
    }
  }

  /**
    On well-formed versions `precedence_cmp` is the precedence of section 11, with numbers
    of any size.
   */
  lemma PrecedenceIsSection11(v: Version, w: Version)
    requires WellFormed(v) && WellFormed(w)
    ensures PrecedenceCmp(v, w) == Less <==> Lower(v, w)
    ensures PrecedenceCmp(v, w) == Equal <==> SamePrecedence(v, w)
    ensures PrecedenceCmp(v, w) == Greater <==> Lower(w, v)
  {
    CoreCmpIsSection11(v, w);
    CoreCmpIsSection11(w, v);
    OptionCmpIsSection11(v.prerelease, w.prerelease);
    OptionCmpIsSection11(w.prerelease, v.prerelease);
    PrecedenceIsTotalPreorder(v, w, v);
    assert PrecedenceCmp(v, w) == Then(CoreCmp(v, w), OptionCmp(v.prerelease, w.prerelease));
    assert PrecedenceCmp(w, v) == Then(CoreCmp(w, v), OptionCmp(w.prerelease, v.prerelease));
  }

  // ---------- Parsing ----------

  predicate Space(c: char)
  {
    c == ' ' || '\t' <= c <= '\r'
  }

  predicate IdentifierChar(c: char)
  {
    Digit(c) || 'a' <= c <= 'z' || 'A' <= c <= 'Z' || c == '-'
  }

  // One identifier of `validate_identifiers`.
  predicate ValidIdentifier(s: string, rejectLeadingZero: bool)
  {
    && s != "" && (forall i :: 0 <= i < |s| ==> IdentifierChar(s[i]))
    && !(rejectLeadingZero && Numeric(s) && |s| > 1 && s[0] == '0')
  }

  predicate AllIdentifiers(parts: seq<string>, rejectLeadingZero: bool)
  {
    forall part :: part in parts ==> ValidIdentifier(part, rejectLeadingZero)
  }

  // `validate_identifiers`
  predicate ValidIdentifiers(value: string, rejectLeadingZero: bool)
  {
    value != "" && AllIdentifiers(Split(value, '.'), rejectLeadingZero)
  }

  predicate ValidCore(parts: seq<string>)
  {
    |parts| == 3 && forall part :: part in parts ==> Canonical(part)
  }

  // The part before the build metadata.
  function ParseRelease(original: string, release: string): Option<Version>
  {
    var (core, prerelease) := match SplitOnce(release, '-')
                              case Some(pair) => (pair.0, Some(pair.1))
                              case None => (release, None);
    var parts := Split(core, '.');
    if !ValidCore(parts) then None
    else
      match prerelease
      case None => Some(Version(original, parts, None))
      case Some(identifiers) =>
        if ValidIdentifiers(identifiers, true) then Some(Version(original, parts, Some(Split(identifiers, '.')))) else None
  }

  // `SemVer::parse`; the reasons of a refusal are left out.
  function Parse(value: string): Option<Version>
  {
    if value == "" || Space(value[0]) || Space(value[|value| - 1]) then None
    else
      match SplitOnce(value, '+')
      case None => ParseRelease(value, value)
      case Some(pair) =>
        if '+' in pair.1 || !ValidIdentifiers(pair.1, false) then None else ParseRelease(value, pair.0)
  }

  // ---------- The grammar of sections 2, 9 and 10 ----------

  datatype Form = Form(core: seq<string>, prerelease: Option<seq<string>>, build: Option<seq<string>>)

  predicate Grammatical(f: Form)
  {
    && ValidCore(f.core)
    && (f.prerelease.Some? ==> f.prerelease.value != [] && AllIdentifiers(f.prerelease.value, true))
    && (f.build.Some? ==> f.build.value != [] && AllIdentifiers(f.build.value, false))
  }

  function RenderRelease(core: seq<string>, prerelease: Option<seq<string>>): string
  {
    if prerelease.None? then Join(core, '.') else Join(core, '.') + ['-'] + Join(prerelease.value, '.')
  }

  function Render(f: Form): string
  {
    var release := RenderRelease(f.core, f.prerelease);
    if f.build.None? then release else release + ['+'] + Join(f.build.value, '.')
  }

  // Joined texts have only the characters of the parts, and the separator.
  lemma {:induction false} JoinChars(parts: seq<string>, c: char)
    requires c != '.' && forall part :: part in parts ==> c !in part
    ensures c !in Join(parts, '.')
  {
    if |parts| > 1 {
      JoinChars(parts[1..], c);
    }
  }

  lemma JoinedIdentifiers(parts: seq<string>, rejectLeadingZero: bool)
    requires parts != [] && AllIdentifiers(parts, rejectLeadingZero)
    ensures ValidIdentifiers(Join(parts, '.'), rejectLeadingZero) && Split(Join(parts, '.'), '.') == parts
    ensures '+' !in Join(parts, '.')
  {
    forall part | part in parts
      ensures '.' !in part && '+' !in part
    {
      assert ValidIdentifier(part, rejectLeadingZero);
    }
    SplitJoin(parts, '.');
    JoinChars(parts, '+');
    assert ValidIdentifier(parts[0], rejectLeadingZero);
    assert Split("", '.') == [""];
  }

  lemma JoinedCore(core: seq<string>)
    requires ValidCore(core)
    ensures Split(Join(core, '.'), '.') == core
    ensures '+' !in Join(core, '.') && '-' !in Join(core, '.')
  {
    forall part | part in core
      ensures '.' !in part && '+' !in part && '-' !in part
    {
      assert Canonical(part);
    }
    SplitJoin(core, '.');
    JoinChars(core, '+');
    JoinChars(core, '-');
  }

  lemma ReleaseForward(original: string, core: seq<string>, prerelease: Option<seq<string>>)
    requires Grammatical(Form(core, prerelease, None))
    ensures ParseRelease(original, RenderRelease(core, prerelease)) == Some(Version(original, core, prerelease))
    ensures '+' !in RenderRelease(core, prerelease)
  {
    JoinedCore(core);
    if prerelease.Some? {
      JoinedIdentifiers(prerelease.value, true);
      SplitOnceAt(Join(core, '.'), '-', Join(prerelease.value, '.'));
    }
  }

  lemma ReleaseBackward(original: string, release: string)
    requires ParseRelease(original, release).Some?
    ensures var v := ParseRelease(original, release).value;
            && v.original == original && Grammatical(Form(v.core, v.prerelease, None))
            && release == RenderRelease(v.core, v.prerelease)
  {
    match SplitOnce(release, '-')
    case None => JoinSplit(release, '.');
    case Some(pair) =>
      JoinSplit(pair.0, '.');
      JoinSplit(pair.1, '.');
  }

  // Rendered forms neither start nor end with a space.
  lemma RenderedIsTrimmed(f: Form)
    requires Grammatical(f)
    ensures var value := Render(f); value != "" && !Space(value[0]) && !Space(value[|value| - 1])
  {
    var release := RenderRelease(f.core, f.prerelease);
    assert Canonical(f.core[0]);
    JoinEnds(f.core);
    if f.prerelease.Some? {
      JoinEnds(f.prerelease.value);
    }
    if f.build.Some? {
      JoinEnds(f.build.value);
    }
  }

  predicate Plain(s: string)
  {
    s != "" && forall i :: 0 <= i < |s| ==> !Space(s[i])
  }

  lemma {:induction false} JoinEnds(parts: seq<string>)
    requires parts != [] && forall part :: part in parts ==> Plain(part)
    ensures var joined := Join(parts, '.'); joined != "" && !Space(joined[0]) && !Space(joined[|joined| - 1])
  {
    assert Plain(parts[0]);
    if |parts| > 1 {
      JoinEnds(parts[1..]);
    }
  }

  /**
    Every text of the grammar is accepted, and read as the form it was rendered from.
   */
  lemma ParseRender(f: Form)
    requires Grammatical(f)
    ensures Parse(Render(f)) == Some(Version(Render(f), f.core, f.prerelease))
  {
    var value := Render(f);
    RenderedIsTrimmed(f);
    ReleaseForward(value, f.core, f.prerelease);
    if f.build.Some? {
      JoinedIdentifiers(f.build.value, false);
      SplitOnceAt(RenderRelease(f.core, f.prerelease), '+', Join(f.build.value, '.'));
    }
  }

  // Nothing else is accepted.
  lemma ParsedIsRendered(value: string) returns (f: Form)
    requires Parse(value).Some?
    ensures Grammatical(f) && value == Render(f) && Parse(value) == Some(Version(value, f.core, f.prerelease))
  {
    match SplitOnce(value, '+')
    case None =>
      ReleaseBackward(value, value);
      f := Form(Parse(value).value.core, Parse(value).value.prerelease, None);
    case Some(pair) =>
      ReleaseBackward(value, pair.0);
      JoinSplit(pair.1, '.');
      f := Form(Parse(value).value.core, Parse(value).value.prerelease, Some(Split(pair.1, '.')));
  }

  /**
    `SemVer::parse` accepts exactly the texts of sections 2, 9 and 10, and what it returns
    is well-formed.
   */
  lemma ParseIsTheGrammar(value: string)
    ensures Parse(value).Some? <==> exists f :: Grammatical(f) && value == Render(f)
    ensures Parse(value).Some? ==> WellFormed(Parse(value).value) && Parse(value).value.original == value
  {
    if Parse(value).Some? {
      var f := ParsedIsRendered(value);
      if f.prerelease.Some? {
        forall i | 0 <= i < |f.prerelease.value|
          ensures GoodIdentifier(f.prerelease.value[i])
        {
          assert ValidIdentifier(f.prerelease.value[i], true);
        }
      }
    }
    forall f | Grammatical(f) && value == Render(f)
      ensures Parse(value).Some?
    {
      ParseRender(f);
    }
  }

  // ---------- The loops ----------

  method PrereleaseCompare(left: seq<string>, right: seq<string>) returns (o: Ordering)
    ensures o == PrereleaseCmp(left, right)
  {
    var i := 0;
    while i < |left| && i < |right|
      invariant i <= |left| && i <= |right|
      invariant PrereleaseCmp(left, right) == PrereleaseCmp(left[i..], right[i..])
    {
      var leftNumeric, rightNumeric := Numeric(left[i]), Numeric(right[i]);
      var ordering := match (leftNumeric, rightNumeric)
                      case (true, true) => NumericCmp(left[i], right[i])
                      case (true, false) => Less
                      case (false, true) => Greater
                      case (false, false) => TextCmp(left[i], right[i]);
      if ordering != Equal {
        return ordering;
      }
      i := i + 1;
      assert left[i - 1..][1..] == left[i..] && right[i - 1..][1..] == right[i..];
    }
    o := Compare(|left|, |right|);
  }

  method PrecedenceCompare(v: Version, w: Version) returns (o: Ordering)
    requires HasCore(v) && HasCore(w)
    ensures o == PrecedenceCmp(v, w)
  {
    for i := 0 to 3
      invariant forall k :: 0 <= k < i ==> NumericCmp(v.core[k], w.core[k]) == Equal
    {
      var ordering := NumericCmp(v.core[i], w.core[i]);
      if ordering != Equal {
        return ordering;
      }
    }
    match (v.prerelease, w.prerelease)
    case (None, None) => o := Equal;
    case (None, Some(_)) => o := Greater;
    case (Some(_), None) => o := Less;
    case (Some(left), Some(right)) => o := PrereleaseCompare(left, right);
  }

  // The pairs of neighbours that `validate_changelog` reports, by the index of the first.
  method OutOfOrder(versions: seq<Version>) returns (failures: seq<nat>)
    requires forall i :: 0 <= i < |versions| ==> HasCore(versions[i])
    ensures forall i: nat :: i in failures <==> Misplaced(versions, i)
    ensures failures == [] <==> NewestFirst(versions)
  {
    failures := [];
    var i := 0;
    while i + 1 < |versions|
      invariant 0 <= i
      invariant forall k: nat :: k in failures <==> k < i && Misplaced(versions, k)
    {
      var ordering := PrecedenceCompare(versions[i], versions[i + 1]);
      if ordering != Greater {
        failures := failures + [i];
      }
      i := i + 1;
    }
    NeighboursSuffice(versions);
    if failures != [] {
      assert Misplaced(versions, failures[0]);
    } else {
      assert forall k: nat :: !Misplaced(versions, k);
    }
  }

  // Every release comes before every older one.
  ghost predicate NewestFirst(versions: seq<Version>)
    requires forall i :: 0 <= i < |versions| ==> HasCore(versions[i])
  {
    forall i, j :: 0 <= i < j < |versions| ==> PrecedenceCmp(versions[i], versions[j]) == Greater
  }

  ghost predicate NeighboursDescend(versions: seq<Version>)
    requires forall i :: 0 <= i < |versions| ==> HasCore(versions[i])
  {
    forall i: nat :: !Misplaced(versions, i)
  }

  // A release that does not come strictly before the next heading's.
  predicate Misplaced(versions: seq<Version>, i: nat)
    requires forall k :: 0 <= k < |versions| ==> HasCore(versions[k])
  {
    i + 1 < |versions| && PrecedenceCmp(versions[i], versions[i + 1]) != Greater
  }

  /**
    Comparing neighbours is enough: then all pairs are strictly decreasing.
   */
  lemma NeighboursSuffice(versions: seq<Version>)
    requires forall i :: 0 <= i < |versions| ==> HasCore(versions[i])
    ensures NeighboursDescend(versions) <==> NewestFirst(versions)
  {
    assert NewestFirst(versions) ==> forall i: nat :: i + 1 < |versions| ==> !Misplaced(versions, i);
    if NeighboursDescend(versions) {
      forall i, j | 0 <= i < j < |versions|
        ensures PrecedenceCmp(versions[i], versions[j]) == Greater
      {
        Descends(versions, i, j);
      }
    }
  }

  lemma {:induction false} Descends(versions: seq<Version>, i: nat, j: nat)
    requires forall k :: 0 <= k < |versions| ==> HasCore(versions[k])
    requires NeighboursDescend(versions) && i < j < |versions|
    ensures PrecedenceCmp(versions[i], versions[j]) == Greater
    decreases j
  {
    assert !Misplaced(versions, j - 1);
    if i + 1 < j {
      Descends(versions, i, j - 1);
      PrecedenceIsTotalPreorder(versions[i], versions[j - 1], versions[j]);
    }
  }
}
