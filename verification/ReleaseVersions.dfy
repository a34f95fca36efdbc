/** Version order and upgrade classification (src/cloud.rs). */
module ReleaseVersions {
  import opened Common

  const U64_LIMIT := 0x1_0000_0000_0000_0000

  predicate IsDigit(c: char) {
    '0' <= c <= '9'
  }

  predicate Numeric(s: string) {
    forall k :: 0 <= k < |s| ==> IsDigit(s[k])
  }

  function DigitsValue(s: string): nat
    requires Numeric(s)
  {
    if s == "" then 0
    else
      var n := |s| - 1;
      assert IsDigit(s[n]);
      10 * DigitsValue(s[..n]) + (s[n] as nat - '0' as nat)
  }

  /** `str::parse::<u64>`: an optional `+`, at least one digit, below 2^64. */
  function ParseU64(s: string): Option<nat> {
    var digits := if s != "" && s[0] == '+' then s[1..] else s;
    if digits == "" || !Numeric(digits) then None
    else if DigitsValue(digits) >= U64_LIMIT then None
    else Some(DigitsValue(digits))
  }

  function IndexOf(s: string, c: char): (i: nat)
    ensures i <= |s| && (i < |s| ==> s[i] == c) && forall k :: 0 <= k < i ==> s[k] != c
  {
    if s == "" || s[0] == c then 0 else 1 + IndexOf(s[1..], c)
  }

  /** `str::split`. */
  function Split(s: string, c: char): (parts: seq<string>)
    ensures |parts| > 0
    decreases |s|
  {
    var i := IndexOf(s, c);
    if i == |s| then [s] else [s[..i]] + Split(s[i + 1..], c)
  }

  /** A parsed version; `pre` is what follows the first `-`. */
  datatype Version = Version(major: nat, minor: nat, patch: nat, pre: Option<string>)

  /** `parse_version`: three numeric parts are required, further parts are ignored. */
  function ParseVersion(v: string): Option<Version> {
    var i := IndexOf(v, '-');
    var pre := if i == |v| then None else Some(v[i + 1..]);
    var parts := Split(v[..i], '.');
    if |parts| < 3 then None
    else
      match (ParseU64(parts[0]), ParseU64(parts[1]), ParseU64(parts[2]))
      case (Some(a), Some(b), Some(c)) => Some(Version(a, b, c, pre))
      case _ => None
  }

  predicate BaseLess(a: Version, b: Version) {
    a.major < b.major || (a.major == b.major && (a.minor < b.minor || (a.minor == b.minor && a.patch < b.patch)))
  }

  predicate SameBase(a: Version, b: Version) {
    a.major == b.major && a.minor == b.minor && a.patch == b.patch
  }

  predicate SameChannel(a: Version, b: Version) {
    a.pre.Some? == b.pre.Some?
  }

  /** `is_newer_version`. */
  predicate IsNewer(current: string, latest: string) {
    match (ParseVersion(current), ParseVersion(latest))
    case (Some(c), Some(l)) =>
      if !SameChannel(c, l) then false
      else if !SameBase(l, c) then BaseLess(c, l)
      else c.pre.Some? && l.pre.Some? && Less(c.pre.value, l.pre.value)
    case _ => false
  }

  datatype BumpKind = NoBump | Patch | Minor | Major

  /** `bump_kind`. */
  function Bump(old_: string, new_: string): BumpKind {
    match ParseVersion(new_)
    case None => NoBump
    case Some(n) =>
      match ParseVersion(old_)
      case None => if n.pre == None then Major else NoBump
      case Some(o) =>
        if !SameChannel(o, n) then NoBump
        else if !IsNewer(old_, new_) then NoBump
        else if n.major != o.major then Major
        else if n.minor != o.minor then Minor
        else Patch
  }

  /** The two-part parse local to `is_newer_minor_version`. */
  function ParseMinor(v: string): Option<(nat, nat)> {
    var parts := Split(v[..IndexOf(v, '-')], '.');
    if |parts| < 2 then None
    else
      match (ParseU64(parts[0]), ParseU64(parts[1]))
      case (Some(a), Some(b)) => Some((a, b))
      case _ => None
  }

  /** `is_newer_minor_version`. */
  predicate IsNewerMinor(current: string, latest: string) {
    IsNewer(current, latest) &&
    match (ParseMinor(current), ParseMinor(latest))
    case (Some(c), Some(l)) => c.0 < l.0 || (c.0 == l.0 && c.1 < l.1)
    case _ => true
  }

  function Rank(k: BumpKind): nat {
    match k
    case NoBump => 0
    case Patch => 1
    case Minor => 2
    case Major => 3
  }

  function Larger(a: BumpKind, b: BumpKind): BumpKind {
    if Rank(a) >= Rank(b) then a else b
  }

  // --------------------------------------------------- printing and parsing

  function Decimal(n: nat): (s: string)
    ensures s != "" && Numeric(s)
  {
    var d := ['0' + (n % 10) as char];
    if n < 10 then d else Decimal(n / 10) + d
  }

  lemma {:induction false} DecimalReadsBack(n: nat)
    ensures DigitsValue(Decimal(n)) == n
    decreases n
  {
    var s := Decimal(n);
    if n >= 10 {
      DecimalReadsBack(n / 10);
      assert s[..|s| - 1] == Decimal(n / 10);
    } else {
      assert s[..|s| - 1] == "";
    }
    assert s[|s| - 1] as nat == '0' as nat + n % 10;
  }

  lemma NumberReadsBack(n: nat)
    requires n < U64_LIMIT
    ensures ParseU64(Decimal(n)) == Some(n)
  {
    DecimalReadsBack(n);
    assert IsDigit(Decimal(n)[0]);
  }

  lemma IndexOfFirst(a: string, c: char, b: string)
    requires c !in a
    ensures IndexOf(a, c) == |a| && IndexOf(a + ([c] + b), c) == |a|
  {
    if a != "" {
      assert (a + ([c] + b))[1..] == a[1..] + ([c] + b);
      IndexOfFirst(a[1..], c, b);
    } else {
      assert a + ([c] + b) == [c] + b;
    }
  }

  lemma SplitFirst(a: string, c: char, b: string)
    requires c !in a
    ensures Split(a, c) == [a] && Split(a + ([c] + b), c) == [a] + Split(b, c)
  {
    IndexOfFirst(a, c, b);
    var s := a + ([c] + b);
    assert s[..|a|] == a && s[|a| + 1..] == b;
  }

  function PrintBase(v: Version): string {
    Decimal(v.major) + ("." + (Decimal(v.minor) + ("." + Decimal(v.patch))))
  }

  function TagText(pre: Option<string>): string {
    if pre == None then "" else "-" + pre.value
  }

  function Print(v: Version): string {
    PrintBase(v) + TagText(v.pre)
  }

  lemma NoPunctuation(n: nat)
    ensures '.' !in Decimal(n) && '-' !in Decimal(n)
  {
    forall k | 0 <= k < |Decimal(n)| ensures Decimal(n)[k] !in {'.', '-'} {
      assert IsDigit(Decimal(n)[k]);
    }
  }

  lemma BaseReadsBack(v: Version)
    ensures Split(PrintBase(v), '.') == [Decimal(v.major), Decimal(v.minor), Decimal(v.patch)]
    ensures '-' !in PrintBase(v)
  {
    NoPunctuation(v.major);
    NoPunctuation(v.minor);
    NoPunctuation(v.patch);
    SplitFirst(Decimal(v.patch), '.', "");
    SplitFirst(Decimal(v.minor), '.', Decimal(v.patch));
    SplitFirst(Decimal(v.major), '.', Decimal(v.minor) + ("." + Decimal(v.patch)));
  }

  lemma PrintCutsAtTheTag(base: string, pre: Option<string>)
    requires '-' !in base
    ensures var s := base + TagText(pre);
            && |base| <= |s| && s[..|base|] == base && IndexOf(s, '-') == |base|
            && pre == if |s| == |base| then None else Some(s[|base| + 1..])
  {
    if pre == None {
      IndexOfFirst(base, '-', "");
      assert base + "" == base;
    } else {
      IndexOfFirst(base, '-', pre.value);
      assert TagText(pre) == ['-'] + pre.value;
      assert (base + (['-'] + pre.value))[|base| + 1..] == pre.value;
    }
  }

  lemma ParsedParts(base: string, v: Version, a: string, b: string, c: string)
    requires '-' !in base && Split(base, '.') == [a, b, c]
    requires ParseU64(a) == Some(v.major) && ParseU64(b) == Some(v.minor) && ParseU64(c) == Some(v.patch)
    ensures ParseVersion(base + TagText(v.pre)) == Some(v)
  {
    PrintCutsAtTheTag(base, v.pre);
  }

  lemma NumbersReadBack(v: Version)
    requires v.major < U64_LIMIT && v.minor < U64_LIMIT && v.patch < U64_LIMIT
    ensures ParseU64(Decimal(v.major)) == Some(v.major) && ParseU64(Decimal(v.minor)) == Some(v.minor)
    ensures ParseU64(Decimal(v.patch)) == Some(v.patch)
  {
    NumberReadsBack(v.major);
    NumberReadsBack(v.minor);
    NumberReadsBack(v.patch);
  }

  /** Every version, whatever its pre-release tag, parses back from its printed form. */
  lemma PrintReadsBack(v: Version)
    requires v.major < U64_LIMIT && v.minor < U64_LIMIT && v.patch < U64_LIMIT
    ensures ParseVersion(Print(v)) == Some(v)
  {
    NumbersReadBack(v);
    BaseReadsBack(v);
    ParsedParts(PrintBase(v), v, Decimal(v.major), Decimal(v.minor), Decimal(v.patch));
  }

  /** A number is read with or without a plus sign, and only below 2^64. */
  lemma NumbersAreRead(n: nat)
    ensures ParseU64(Decimal(n)) == ParseU64(['+'] + Decimal(n)) == if n < U64_LIMIT then Some(n) else None
    ensures ParseU64("") == ParseU64("+") == None
  {
    DecimalReadsBack(n);
    assert IsDigit(Decimal(n)[0]) && (['+'] + Decimal(n))[1..] == Decimal(n);
    assert "+"[1..] == "";
  }

  /** Further parts of a version are ignored, ... */
  lemma FurtherPartsAreIgnored(v: Version, more: string)
    requires v.major < U64_LIMIT && v.minor < U64_LIMIT && v.patch < U64_LIMIT && '-' !in more
    ensures ParseVersion(PrintBase(v) + ("." + more) + TagText(v.pre)) == Some(v)
  {
    NumbersReadBack(v);
    BaseReadsBack(v);
    MoreParts(Decimal(v.major), Decimal(v.minor), Decimal(v.patch), v, more);
    ManyParts(PrintBase(v) + ("." + more), v,
              [Decimal(v.major), Decimal(v.minor), Decimal(v.patch)] + Split(more, '.'));
  }

  lemma MoreParts(a: string, b: string, c: string, v: Version, more: string)
    requires a == Decimal(v.major) && b == Decimal(v.minor) && c == Decimal(v.patch)
    ensures Split(PrintBase(v) + ("." + more), '.') == [a, b, c] + Split(more, '.')
  {
    NoPunctuation(v.major);
    NoPunctuation(v.minor);
    NoPunctuation(v.patch);
    ThreeAnd(a, b, c, more);
  }

  lemma ThreeAnd(a: string, b: string, c: string, more: string)
    requires '.' !in a && '.' !in b && '.' !in c
    ensures Split(a + ("." + (b + ("." + c))) + ("." + more), '.') == [a, b, c] + Split(more, '.')
  {
    SplitFirst(c, '.', more);
    SplitFirst(b, '.', c + ("." + more));
    SplitFirst(a, '.', b + ("." + (c + ("." + more))));
    Reassociated(a, b, c, ".", "." + more);
    ThreeInFront(a, b, c, Split(more, '.'));
  }

  lemma Reassociated(a: string, b: string, c: string, dot: string, rest: string)
    ensures a + (dot + (b + (dot + c))) + rest == a + (dot + (b + (dot + (c + rest))))
  {
    assert dot + c + rest == dot + (c + rest);
    assert b + (dot + c) + rest == b + (dot + (c + rest));
    assert dot + (b + (dot + c)) + rest == dot + (b + (dot + (c + rest)));
  }

  lemma ThreeInFront(a: string, b: string, c: string, parts: seq<string>)
    ensures [a] + ([b] + ([c] + parts)) == [a, b, c] + parts
  {
  }

  /** ... a missing one is not. */
  lemma TwoPartsAreNotEnough(major: nat, minor: nat, pre: Option<string>)
    ensures ParseVersion(Decimal(major) + ("." + Decimal(minor)) + TagText(pre)) == None
  {
    var a, b := Decimal(major), Decimal(minor);
    NoPunctuation(major);
    NoPunctuation(minor);
    SplitFirst(b, '.', "");
    SplitFirst(a, '.', b);
    PrintCutsAtTheTag(a + ("." + b), pre);
  }

  lemma ManyParts(base: string, v: Version, parts: seq<string>)
    requires '-' !in base && Split(base, '.') == parts && |parts| >= 3 && ParseU64(parts[0]) == Some(v.major)
    requires ParseU64(parts[1]) == Some(v.minor) && ParseU64(parts[2]) == Some(v.patch)
    ensures ParseVersion(base + TagText(v.pre)) == Some(v)
  {
    PrintCutsAtTheTag(base, v.pre);
  }

  // ------------------------------------------------------------- properties

  /** Newness is a strict order: nothing is newer than itself, never both ways, and a
      chain of updates is an update. */
  lemma NewerIsStrictOrder(a: string, b: string, c: string)
    ensures !IsNewer(a, a)
    ensures IsNewer(a, b) ==> !IsNewer(b, a)
    ensures IsNewer(a, b) && IsNewer(b, c) ==> IsNewer(a, c)
  {
    if ParseVersion(a).Some? && ParseVersion(a).value.pre.Some? {
      var x := ParseVersion(a).value.pre.value;
      LessIsStrict(x, x);
      if ParseVersion(b).Some? && ParseVersion(b).value.pre.Some? {
        var y := ParseVersion(b).value.pre.value;
        LessIsStrict(x, y);
        if IsNewer(a, b) && IsNewer(b, c) && Less(x, y) && Less(y, ParseVersion(c).value.pre.value) {
          LessIsTransitive(x, y, ParseVersion(c).value.pre.value);
        }
      }
    }
  }

  /** Two parseable versions are comparable, or parse alike, exactly within one channel. */
  lemma NewerIsTotalWithinAChannel(a: string, b: string)
    requires ParseVersion(a).Some? && ParseVersion(b).Some?
    ensures SameChannel(ParseVersion(a).value, ParseVersion(b).value) <==>
              IsNewer(a, b) || IsNewer(b, a) || ParseVersion(a) == ParseVersion(b)
  {
    var x, y := ParseVersion(a).value.pre, ParseVersion(b).value.pre;
    if x.Some? && y.Some? { LessIsTotal(x.value, y.value); }
  }

  /** An update in two steps calls for exactly the maintenance of its larger step. */
  lemma BumpsCompose(a: string, b: string, c: string)
    requires IsNewer(a, b) && IsNewer(b, c)
    ensures Bump(a, c) == Larger(Bump(a, b), Bump(b, c))
  {
    NewerIsStrictOrder(a, b, c);
  }

  /** Between parseable versions a bump is reported exactly when the new one is newer. */
  lemma BumpIffNewer(a: string, b: string)
    requires ParseVersion(a).Some?
    ensures Bump(a, b) != NoBump <==> IsNewer(a, b)
  {
  }

  /** Which bump it is, for two printed versions: the first number that differs, within one
      channel and upwards only; between pre-releases of one base, a patch. */
  lemma BumpNamesTheFirstDifference(o: Version, n: Version)
    requires o.major < U64_LIMIT && o.minor < U64_LIMIT && o.patch < U64_LIMIT
    requires n.major < U64_LIMIT && n.minor < U64_LIMIT && n.patch < U64_LIMIT
    ensures var k, same := Bump(Print(o), Print(n)), o.pre.Some? <==> n.pre.Some?;
            && (k == Major <==> same && n.major > o.major)
            && (k == Minor <==> same && n.major == o.major && n.minor > o.minor)
            && (k == Patch <==>
                  same && n.major == o.major && n.minor == o.minor
                  && (n.patch > o.patch
                      || (n.patch == o.patch && o.pre.Some? && n.pre.Some? && Less(o.pre.value, n.pre.value))))
  {
    PrintReadsBack(o);
    PrintReadsBack(n);
  }

  /** Over a version that cannot be read, every stable release is a major one. */
  lemma BumpOverUnreadable(old_: string, n: Version)
    requires ParseVersion(old_) == None && n.major < U64_LIMIT && n.minor < U64_LIMIT && n.patch < U64_LIMIT
    ensures Bump(old_, Print(n)) == if n.pre == None then Major else NoBump
  {
    PrintReadsBack(n);
  }

  /** The update notice's own two-part parser agrees with the classification. */
  lemma NewerMinorIffMinorOrMajor(a: string, b: string)
    requires ParseVersion(a).Some? && ParseVersion(b).Some?
    ensures IsNewerMinor(a, b) <==> Bump(a, b) in {Minor, Major}
  {
    MinorAgrees(a);
    MinorAgrees(b);
  }

  lemma MinorAgrees(v: string)
    requires ParseVersion(v).Some?
    ensures ParseMinor(v) == Some((ParseVersion(v).value.major, ParseVersion(v).value.minor))
  {
  }
}
