/**
 Where the newness of src/cloud.rs:592-614 is the precedence of section 11 of Semantic
 Versioning 2.0.0, and where it is not.
 */
module VersionPrecedence {
  import opened Common
  import opened ReleaseVersions

  // ----------------------------------------------------- Semantic Versioning

  /** A version of sections 2, 9 and 10: its pre-release identifiers, none for a release, and
      what stands behind a `+`. */
  datatype SemVer = SemVer(major: nat, minor: nat, patch: nat, tag: seq<string>, build: Option<string>)

  predicate IdentifierChar(c: char) {
    IsDigit(c) || 'A' <= c <= 'Z' || 'a' <= c <= 'z' || c == '-'
  }

  /** Section 9: not empty, and a number has no leading zero. */
  predicate Identifier(a: string) {
    a != "" && (forall k :: 0 <= k < |a| ==> IdentifierChar(a[k])) && (Numeric(a) && |a| > 1 ==> a[0] != '0')
  }

  predicate Tag(x: seq<string>) {
    forall k :: 0 <= k < |x| ==> Identifier(x[k])
  }

  /** The identifiers with dots between them. */
  function Dotted(x: seq<string>): string {
    if x == [] then "" else if |x| == 1 then x[0] else x[0] + ("." + Dotted(x[1..]))
  }

  function BuildText(v: SemVer): string {
    if v.build.None? then "" else "+" + v.build.value
  }

  function Base(v: SemVer): string {
    PrintBase(Version(v.major, v.minor, v.patch, None))
  }

  function Text(v: SemVer): string {
    Base(v) + ((if v.tag == [] then "" else "-" + Dotted(v.tag)) + BuildText(v))
  }

  // Section 11: numbers by value and below the others, which go by their bytes.
  predicate IdentifierLess(a: string, b: string) {
    if Numeric(a) && Numeric(b) then DigitsValue(a) < DigitsValue(b)
    else if Numeric(a) || Numeric(b) then Numeric(a)
    else Less(a, b)
  }

  /** Section 11: the first identifiers that differ decide, else the shorter list is lower. */
  predicate TagLess(x: seq<string>, y: seq<string>) {
    y != [] && (x == [] || if x[0] == y[0] then TagLess(x[1..], y[1..]) else IdentifierLess(x[0], y[0]))
  }

  /** Section 11: a pre-release is below its release, and build text does not matter. */
  predicate Precedes(v: SemVer, w: SemVer) {
    var a, b := Version(v.major, v.minor, v.patch, None), Version(w.major, w.minor, w.patch, None);
    BaseLess(a, b) || (SameBase(a, b) && v.tag != [] && (w.tag == [] || TagLess(v.tag, w.tag)))
  }

  // ------------------------------------------------------------- the misreadings

  predicate ProperPrefix(a: string, b: string) {
    |a| < |b| && b[..|a|] == a
  }

  /** Two identifiers neither of which begins the other: a longer number has the smaller
      digits, or a number has the larger text. */
  predicate NumberMisread(a: string, b: string) {
    !ProperPrefix(a, b) && !ProperPrefix(b, a)
    && if Numeric(a) && Numeric(b) then (|a| < |b| && Less(b, a)) || (|b| < |a| && Less(a, b))
       else (Numeric(a) && Less(b, a)) || (Numeric(b) && Less(a, b))
  }

  /** One identifier goes on with a hyphen where the other's tag goes on with its next
      identifier. */
  predicate HyphenMisread(x: seq<string>, y: seq<string>)
    requires x != [] && y != []
  {
    (|x| > 1 && ProperPrefix(x[0], y[0]) && y[0][|x[0]|] == '-')
    || (|y| > 1 && ProperPrefix(y[0], x[0]) && x[0][|y[0]|] == '-')
  }

  /** The string order of the two tags is not their precedence: decided where they differ. */
  predicate Misread(x: seq<string>, y: seq<string>) {
    x != [] && y != [] &&
    if x[0] == y[0] then Misread(x[1..], y[1..]) else NumberMisread(x[0], y[0]) || HyphenMisread(x, y)
  }

  /** `parse_version` reads the version: its numbers fit, and no build text follows a release. */
  predicate Readable(v: SemVer) {
    v.major < U64_LIMIT && v.minor < U64_LIMIT && v.patch < U64_LIMIT && (v.tag == [] ==> v.build.None?)
  }

  // ------------------------------------------------------------------ strings

  lemma {:induction false} LessAfterPrefix(p: string, a: string, b: string)
    ensures Less(p + a, p + b) <==> Less(a, b)
  {
    if p == "" {
      assert p + a == a && p + b == b;
    } else {
      assert (p + a)[1..] == p[1..] + a && (p + b)[1..] == p[1..] + b;
      LessAfterPrefix(p[1..], a, b);
    }
  }

  /** The first position where two strings, neither beginning the other, differ. */
  lemma {:induction false} FirstDifference(a: string, b: string) returns (k: nat)
    requires a != b && !ProperPrefix(a, b) && !ProperPrefix(b, a)
    ensures k < |a| && k < |b| && a[..k] == b[..k] && a[k] != b[k]
  {
    if a[0] != b[0] {
      k := 0;
    } else {
      assert a == [a[0]] + a[1..] && b == [b[0]] + b[1..];
      k := FirstDifference(a[1..], b[1..]);
      k := k + 1;
      assert a[..k] == [a[0]] + a[1..][..k - 1] && b[..k] == [b[0]] + b[1..][..k - 1];
    }
  }

  lemma LessAt(a: string, b: string, k: nat)
    requires k < |a| && k < |b| && a[..k] == b[..k] && a[k] != b[k]
    ensures Less(a, b) <==> a[k] < b[k]
  {
    LessAfterPrefix(a[..k], a[k..], b[k..]);
    assert a == a[..k] + a[k..] && b == a[..k] + b[k..];
  }

  /** What follows two strings does not matter when neither begins the other. */
  lemma LessWithTails(a: string, b: string, s: string, t: string)
    requires a != b && !ProperPrefix(a, b) && !ProperPrefix(b, a)
    ensures Less(a + s, b + t) <==> Less(a, b)
  {
    var k := FirstDifference(a, b);
    LessAt(a, b, k);
    assert (a + s)[..k] == a[..k] && (b + t)[..k] == b[..k];
    LessAt(a + s, b + t, k);
  }

  /** When one begins the other, what follows it decides. */
  lemma LessPastPrefix(a: string, b: string, s: string, t: string)
    requires ProperPrefix(a, b)
    ensures Less(a + s, b + t) <==> s == "" || s[0] < b[|a|] || (s[0] == b[|a|] && Less(s[1..], b[|a| + 1..] + t))
    ensures Less(b + t, a + s) <==> s != "" && (b[|a|] < s[0] || (s[0] == b[|a|] && Less(b[|a| + 1..] + t, s[1..])))
  {
    var rest := b[|a|..] + t;
    assert b + t == a + rest && rest[1..] == b[|a| + 1..] + t;
    LessAfterPrefix(a, s, rest);
    LessAfterPrefix(a, rest, s);
  }

  // ------------------------------------------------------------------ numbers

  function Power(n: nat): (p: nat)
    ensures p > 0
  {
    if n == 0 then 1 else 10 * Power(n - 1)
  }

  lemma {:induction false} ValueIsBounded(a: string)
    requires Numeric(a)
    ensures DigitsValue(a) < Power(|a|)
    ensures a != "" && a[0] != '0' ==> DigitsValue(a) >= Power(|a| - 1)
    decreases |a|
  {
    if a != "" {
      var n := |a| - 1;
      assert IsDigit(a[n]);
      ValueIsBounded(a[..n]);
      if n > 0 {
        assert a[..n][0] == a[0];
      }
    }
  }

  lemma {:induction false} PowerGrows(m: nat, n: nat)
    requires m <= n
    ensures Power(m) <= Power(n)
  {
    if m < n { PowerGrows(m, n - 1); }
  }

  /** Numbers of one length compare as their texts do. */
  lemma {:induction false} SameLengthOrder(a: string, b: string)
    requires Numeric(a) && Numeric(b) && |a| == |b|
    ensures DigitsValue(a) < DigitsValue(b) <==> Less(a, b)
    ensures DigitsValue(a) == DigitsValue(b) <==> a == b
    decreases |a|
  {
    if a != "" {
      var n := |a| - 1;
      var p, q := a[..n], b[..n];
      SameLengthOrder(p, q);
      assert a == p + [a[n]] && b == q + [b[n]] && IsDigit(a[n]) && IsDigit(b[n]);
      if p == q {
        LessAfterPrefix(p, [a[n]], [b[n]]);
        OneCharLess(a[n], b[n]);
      } else {
        LessWithTails(p, q, [a[n]], [b[n]]);
      }
    }
  }

  lemma OneCharLess(c: char, d: char)
    ensures Less([c], [d]) <==> c < d
  {
    assert !Less([c][1..], [d][1..]);
  }

  lemma ShorterIsSmaller(a: string, b: string)
    requires Identifier(a) && Identifier(b) && Numeric(a) && Numeric(b) && |a| < |b|
    ensures DigitsValue(a) < DigitsValue(b)
  {
    ValueIsBounded(a);
    ValueIsBounded(b);
    PowerGrows(|a|, |b| - 1);
  }

  // --------------------------------------------------------------- identifiers

  /** Neither begins the other: precedence and string order differ by the numbers alone. */
  lemma ApartIdentifiers(a: string, b: string)
    requires Identifier(a) && Identifier(b) && a != b && !ProperPrefix(a, b) && !ProperPrefix(b, a)
    ensures (IdentifierLess(a, b) <==> Less(a, b)) <==> !NumberMisread(a, b)
  {
    LessIsTotal(a, b);
    LessIsStrict(a, b);
    if Numeric(a) && Numeric(b) {
      if |a| == |b| {
        SameLengthOrder(a, b);
      } else if |a| < |b| {
        ShorterIsSmaller(a, b);
      } else {
        ShorterIsSmaller(b, a);
      }
    }
  }

  /** An identifier precedes the longer ones it begins. */
  lemma PrefixPrecedes(a: string, b: string)
    requires Identifier(a) && Identifier(b) && ProperPrefix(a, b)
    ensures IdentifierLess(a, b) && !IdentifierLess(b, a)
  {
    assert a + "" == a && b + "" == b;
    LessPastPrefix(a, b, "", "");
    LessIsStrict(a, b);
    if Numeric(b) {
      assert Numeric(a) by {
        forall k | 0 <= k < |a| ensures IsDigit(a[k]) { assert a[k] == b[..|a|][k] == b[k]; }
      }
      ShorterIsSmaller(a, b);
    }
  }

  /** What follows the first identifier of a tag. */
  function After(x: seq<string>): (s: string)
    requires x != []
    ensures Dotted(x) == x[0] + s && (s == "" <==> |x| == 1) && (s != "" ==> s[0] == '.')
  {
    if |x| == 1 then (assert x[0] + "" == x[0]; "") else "." + Dotted(x[1..])
  }

  /** First identifiers that differ: string order is precedence unless misread. */
  lemma FirstIdentifiersDiffer(x: seq<string>, y: seq<string>)
    requires Tag(x) && Tag(y) && x != [] && y != [] && x[0] != y[0]
    ensures (Less(Dotted(x), Dotted(y)) <==> TagLess(x, y)) <==> !Misread(x, y)
  {
    var a, b := x[0], y[0];
    if ProperPrefix(a, b) {
      assert IdentifierChar(b[|a|]);
      LessPastPrefix(a, b, After(x), After(y));
      PrefixPrecedes(a, b);
    } else if ProperPrefix(b, a) {
      assert IdentifierChar(a[|b|]);
      LessPastPrefix(b, a, After(y), After(x));
      PrefixPrecedes(b, a);
    } else {
      LessWithTails(a, b, After(x), After(y));
      ApartIdentifiers(a, b);
    }
  }

  /** The string order of two tags is their precedence if and only if they are not misread. */
  lemma {:induction false} TagOrderIff(x: seq<string>, y: seq<string>)
    requires Tag(x) && Tag(y) && x != [] && y != [] && x != y
    ensures (Less(Dotted(x), Dotted(y)) <==> TagLess(x, y)) <==> !Misread(x, y)
    decreases |x|
  {
    if x[0] != y[0] {
      FirstIdentifiersDiffer(x, y);
    } else {
      LessAfterPrefix(x[0], After(x), After(y));
      if |x| > 1 && |y| > 1 {
        assert x[1..] != y[1..] by { assert x == [x[0]] + x[1..] && y == [y[0]] + y[1..]; }
        TagOrderIff(x[1..], y[1..]);
        LessAfterPrefix(".", Dotted(x[1..]), Dotted(y[1..]));
      } else {
        assert |x| == 1 && |y| == 1 ==> x == y;
      }
    }
  }

  /** Every character of a tag is above `+`, which starts the build text. */
  lemma {:induction false} TagChars(x: seq<string>)
    requires Tag(x)
    ensures forall k :: 0 <= k < |Dotted(x)| ==> Dotted(x)[k] > '+'
    decreases |x|
  {
    if |x| > 1 { TagChars(x[1..]); }
    if x != [] {
      forall k | 0 <= k < |x[0]| ensures x[0][k] > '+' { assert IdentifierChar(x[0][k]); }
    }
  }

  lemma {:induction false} DottedIsInjective(x: seq<string>, y: seq<string>)
    requires Tag(x) && Tag(y) && x != [] && y != [] && Dotted(x) == Dotted(y)
    ensures x == y
    decreases |x|
  {
    FirstDot(x);
    FirstDot(y);
    var n := |x[0]|;
    assert x[0] == Dotted(x)[..n] == y[0];
    assert After(x) == Dotted(x)[n..] == After(y);
    if |x| > 1 {
      assert Dotted(x[1..]) == After(x)[1..] && Dotted(y[1..]) == After(y)[1..];
      DottedIsInjective(x[1..], y[1..]);
      assert x == [x[0]] + x[1..] && y == [y[0]] + y[1..];
    }
  }

  lemma FirstDot(x: seq<string>)
    requires Tag(x) && x != []
    ensures IndexOf(Dotted(x), '.') == |x[0]|
  {
    forall k | 0 <= k < |x[0]| ensures x[0][k] != '.' { assert IdentifierChar(x[0][k]); }
    IndexOfFirst(x[0], '.', if |x| == 1 then "" else Dotted(x[1..]));
  }

  /** Build text decides only between equal tags. */
  lemma BuildComesLast(s: string, t: string, m: string, n: string)
    requires forall k :: 0 <= k < |s| ==> s[k] > '+'
    requires forall k :: 0 <= k < |t| ==> t[k] > '+'
    requires (m != "" ==> m[0] == '+') && (n != "" ==> n[0] == '+')
    ensures Less(s + m, t + n) <==> if s == t then Less(m, n) else Less(s, t)
  {
    if s == t {
      LessAfterPrefix(s, m, n);
    } else if ProperPrefix(s, t) {
      BuildAfterPrefix(s, t, m, n);
    } else if ProperPrefix(t, s) {
      BuildAfterPrefix(t, s, n, m);
    } else {
      LessWithTails(s, t, m, n);
    }
  }

  lemma BuildAfterPrefix(s: string, t: string, m: string, n: string)
    requires ProperPrefix(s, t) && t[|s|] > '+' && (m != "" ==> m[0] == '+')
    ensures Less(s + m, t + n) && !Less(t + n, s + m) && Less(s, t) && !Less(t, s)
  {
    LessPastPrefix(s, t, m, n);
    LessPastPrefix(s, t, "", "");
    assert s + "" == s && t + "" == t;
  }

  // ------------------------------------------------------------------- reading

  function Read(v: SemVer): Version {
    Version(v.major, v.minor, v.patch, if v.tag == [] then None else Some(Dotted(v.tag) + BuildText(v)))
  }

  lemma ReadableReadsBack(v: SemVer)
    requires Readable(v)
    ensures ParseVersion(Text(v)) == Some(Read(v))
  {
    PrintReadsBack(Read(v));
    TextIsPrint(v);
  }

  lemma TextIsPrint(v: SemVer)
    requires v.tag == [] ==> v.build.None?
    ensures Text(v) == Print(Read(v))
  {
    assert PrintBase(Read(v)) == Base(v);
    if v.tag == [] {
      assert "" + "" == "";
    } else {
      assert ("-" + Dotted(v.tag)) + BuildText(v) == "-" + (Dotted(v.tag) + BuildText(v));
    }
  }

  lemma UnreadableIsRefused(v: SemVer)
    requires !Readable(v)
    ensures ParseVersion(Text(v)) == None
  {
    if v.tag == [] && v.build.Some? {
      BuildOnARelease(Version(v.major, v.minor, v.patch, None), v.build.value);
      assert "" + BuildText(v) == BuildText(v);
    } else {
      TextIsPrint(v);
      BaseReadsBack(Read(v));
      PrintCutsAtTheTag(PrintBase(Read(v)), Read(v).pre);
      LongIsRefused(Read(v), Text(v));
    }
  }

  lemma LongIsRefused(v: Version, s: string)
    requires v.major >= U64_LIMIT || v.minor >= U64_LIMIT || v.patch >= U64_LIMIT
    requires |PrintBase(v)| <= |s| && s[..|PrintBase(v)|] == PrintBase(v) && IndexOf(s, '-') == |PrintBase(v)|
    ensures ParseVersion(s) == None
  {
    BaseReadsBack(v);
    LongNumber(v.major);
    LongNumber(v.minor);
    LongNumber(v.patch);
  }

  lemma LongNumber(n: nat)
    ensures ParseU64(Decimal(n)).Some? <==> n < U64_LIMIT
  {
    DecimalReadsBack(n);
    assert IsDigit(Decimal(n)[0]);
  }

  /** A `+` behind the third number makes it unreadable. */
  lemma BuildOnARelease(v: Version, build: string)
    ensures ParseVersion(PrintBase(v) + ("+" + build)) == None
  {
    var s := PrintBase(v) + ("+" + build);
    var i := IndexOf(s, '-');
    var base, rest := PrintBase(v), "+" + build;
    BaseReadsBack(v);
    HyphenIsBehind(base, rest);
    var tail := rest[..i - |base|];
    assert s[..i] == base + tail;
    SplitWithTail(v, tail);
    PlusInside(v.patch, tail);
  }

  lemma HyphenIsBehind(base: string, rest: string)
    requires '-' !in base && rest != "" && rest[0] != '-'
    ensures IndexOf(base + rest, '-') > |base|
  {
    forall k | 0 <= k < |base| ensures (base + rest)[k] != '-' {
      assert base[k] in base;
    }
    assert IndexOf(base + rest, '-') >= |base|;
  }

  lemma SplitWithTail(v: Version, tail: string)
    ensures Split(PrintBase(v) + tail, '.')
            == [Decimal(v.major), Decimal(v.minor)] + Split(Decimal(v.patch) + tail, '.')
  {
    NoPunctuation(v.major);
    NoPunctuation(v.minor);
    SplitThree(Decimal(v.major), Decimal(v.minor), Decimal(v.patch), tail);
  }

  lemma SplitThree(a: string, b: string, c: string, tail: string)
    requires '.' !in a && '.' !in b
    ensures Split((a + ("." + (b + ("." + c)))) + tail, '.') == [a, b] + Split(c + tail, '.')
  {
    Regrouped(b, c, tail);
    Regrouped(a, b + ("." + c), tail);
    SplitFirst(b, '.', c + tail);
    SplitFirst(a, '.', b + ("." + (c + tail)));
  }

  lemma Regrouped(a: string, b: string, tail: string)
    ensures (a + ("." + b)) + tail == a + ("." + (b + tail))
  {
  }

  lemma PlusInside(n: nat, tail: string)
    requires tail != "" && tail[0] == '+'
    ensures ParseU64(Split(Decimal(n) + tail, '.')[0]) == None
  {
    var d := Decimal(n);
    var s := d + tail;
    NoPunctuation(n);
    var i := IndexOf(s, '.');
    assert i > |d| by {
      assert forall k :: 0 <= k < |d| ==> s[k] == d[k];
      assert s[|d|] == '+';
    }
    var part := s[..i];
    assert s[..|s|] == s && Split(s, '.')[0] == part;
    assert part[0] == d[0] && IsDigit(d[0]);
    NoNumber(part, |d|);
  }

  lemma NoNumber(s: string, k: nat)
    requires 0 < k < |s| && !IsDigit(s[k]) && s[0] != '+'
    ensures ParseU64(s) == None
  {
    assert !Numeric(s);
  }

  // ------------------------------------------------------------------ newness

  predicate SameNumbers(v: SemVer, w: SemVer) {
    v.major == w.major && v.minor == w.minor && v.patch == w.patch
  }

  /** Both can be read, and both are releases or both are pre-releases. */
  predicate Compared(v: SemVer, w: SemVer) {
    Readable(v) && Readable(w) && (v.tag == []) == (w.tag == [])
  }

  /** Two pre-releases of one release whose texts are in another order than their tags. */
  predicate TextMisleads(v: SemVer, w: SemVer) {
    SameNumbers(v, w) && v.tag != [] && w.tag != []
    && if v.tag == w.tag then Less(BuildText(v), BuildText(w)) else Misread(v.tag, w.tag)
  }

  lemma {:induction false} TagLessIsIrreflexive(x: seq<string>)
    ensures !TagLess(x, x)
  {
    if x != [] { TagLessIsIrreflexive(x[1..]); }
  }

  lemma TagAndBuildOrder(v: SemVer, w: SemVer)
    requires Tag(v.tag) && Tag(w.tag) && v.tag != [] && w.tag != []
    ensures (Less(Dotted(v.tag) + BuildText(v), Dotted(w.tag) + BuildText(w)) <==> TagLess(v.tag, w.tag))
            <==> !if v.tag == w.tag then Less(BuildText(v), BuildText(w)) else Misread(v.tag, w.tag)
  {
    TagChars(v.tag);
    TagChars(w.tag);
    BuildComesLast(Dotted(v.tag), Dotted(w.tag), BuildText(v), BuildText(w));
    if v.tag == w.tag {
      TagLessIsIrreflexive(v.tag);
    } else {
      if Dotted(v.tag) == Dotted(w.tag) { DottedIsInjective(v.tag, w.tag); }
      TagOrderIff(v.tag, w.tag);
    }
  }

  lemma NewerReadsTexts(v: SemVer, w: SemVer)
    ensures IsNewer(Text(v), Text(w)) <==>
              Compared(v, w) && if !SameNumbers(v, w) then BaseLess(Read(v), Read(w))
                                else v.tag != [] && Less(Dotted(v.tag) + BuildText(v), Dotted(w.tag) + BuildText(w))
  {
    if Readable(v) { ReadableReadsBack(v); } else { UnreadableIsRefused(v); }
    if Readable(w) { ReadableReadsBack(w); } else { UnreadableIsRefused(w); }
  }

  /** `is_newer_version` is the precedence of section 11 for two versions it compares if and
      only if the text does not mislead it. Versions it does not compare are never newer. */
  lemma NewerIsPrecedenceIff(v: SemVer, w: SemVer)
    requires Tag(v.tag) && Tag(w.tag)
    ensures !Compared(v, w) ==> !IsNewer(Text(v), Text(w))
    ensures Compared(v, w) ==> ((IsNewer(Text(v), Text(w)) <==> Precedes(v, w)) <==> !TextMisleads(v, w))
  {
    NewerReadsTexts(v, w);
    if v.tag != [] && w.tag != [] { TagAndBuildOrder(v, w); }
  }

  // One input for every way to differ.

  function Beta(tag: seq<string>, build: Option<string>): SemVer {
    SemVer(1, 0, 0, tag, build)
  }

  lemma {:induction false} TagLessIsAsymmetric(x: seq<string>, y: seq<string>)
    requires TagLess(x, y)
    ensures !TagLess(y, x)
  {
    if x != [] {
      if x[0] == y[0] { TagLessIsAsymmetric(x[1..], y[1..]); } else { LessIsStrict(x[0], y[0]); }
    }
  }

  lemma {:induction false} MisreadIsSymmetric(x: seq<string>, y: seq<string>)
    requires Misread(x, y)
    ensures Misread(y, x)
  {
    if x[0] == y[0] { MisreadIsSymmetric(x[1..], y[1..]); }
  }

  /** The lower of two misread tags is taken for the newer one. */
  lemma MisreadIsReversed(x: seq<string>, y: seq<string>)
    requires Tag(x) && Tag(y) && x != [] && TagLess(x, y) && Misread(x, y)
    ensures Reversed(Beta(x, None), Beta(y, None))
  {
    TagLessIsIrreflexive(x);
    TagLessIsAsymmetric(x, y);
    MisreadIsSymmetric(x, y);
    NewerIsPrecedenceIff(Beta(x, None), Beta(y, None));
    NewerIsPrecedenceIff(Beta(y, None), Beta(x, None));
  }

  predicate Reversed(v: SemVer, w: SemVer) {
    Precedes(v, w) && !IsNewer(Text(v), Text(w)) && IsNewer(Text(w), Text(v))
  }

  lemma Lowercase(a: string)
    requires a != "" && forall k :: 0 <= k < |a| ==> 'a' <= a[k] <= 'z'
    ensures Identifier(a) && !Numeric(a)
  {
    assert !IsDigit(a[0]);
  }

  /** A number against a longer one: beta.10 is taken for older than beta.9. */
  lemma TenIsTakenForLess()
    ensures Reversed(Beta(["beta", "9"], None), Beta(["beta", "10"], None))
  {
    var x, y := ["beta", "9"], ["beta", "10"];
    Lowercase("beta");
    ShorterIsSmaller("9", "10");
    LessAt("10", "9", 0);
    assert x[1..] == ["9"] && y[1..] == ["10"];
    MisreadIsReversed(x, y);
  }

  /** A number against a text: `2` is below `1a`, and taken for newer. */
  lemma NumberIsTakenForMore()
    ensures Reversed(Beta(["2"], None), Beta(["1a"], None))
  {
    assert !IsDigit("1a"[1]);
    LessAt("1a", "2", 0);
    MisreadIsReversed(["2"], ["1a"]);
  }

  /** A hyphen against a dot: `alpha.1` is below `alpha-1`, and taken for newer. */
  lemma HyphenIsTakenForLess()
    ensures Reversed(Beta(["alpha", "1"], None), Beta(["alpha-1"], None))
  {
    Lowercase("alpha");
    assert !IsDigit("alpha-1"[0]) && "alpha-1"[..5] == "alpha";
    PrefixPrecedes("alpha", "alpha-1");
    MisreadIsReversed(["alpha", "1"], ["alpha-1"]);
  }

  /** Build text, which has no precedence, makes a version newer. */
  lemma BuildIsTakenForNewer()
    ensures var v, w := Beta(["beta"], Some("1")), Beta(["beta"], Some("2"));
            !Precedes(v, w) && IsNewer(Text(v), Text(w))
  {
    Lowercase("beta");
    NewerIsPrecedenceIff(Beta(["beta"], Some("1")), Beta(["beta"], Some("2")));
    LessAfterPrefix("+", "1", "2");
    TagLessIsIrreflexive(["beta"]);
  }

  /** What it does not compare: a pre-release and its release, and a release with build text. */
  lemma SomeReleasesAreNeverNewer()
    ensures var v, w := Beta(["beta"], None), Beta([], None);
            Precedes(v, w) && !IsNewer(Text(v), Text(w))
    ensures var v, w := Beta([], None), SemVer(1, 0, 1, [], Some("5"));
            Precedes(v, w) && !IsNewer(Text(v), Text(w))
  {
    Lowercase("beta");
    NewerIsPrecedenceIff(Beta(["beta"], None), Beta([], None));
    NewerIsPrecedenceIff(Beta([], None), SemVer(1, 0, 1, [], Some("5")));
  }
}
