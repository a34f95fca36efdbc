/**
 Peeling leading noise off a command (src/hooks.rs): `rtk`/`sudo`/`time`/`nice`
 wrappers, `NAME=value` assignments and a leading `cd ... &&` or `cd ... ;`.
 */
module CommandPrefixes {
  import opened Common
  import opened ShellScan

  const DISABLE_HOOK := "TOKENSAVE_DISABLE_GREP_HOOK"

  // ------------------------------------------------------------ assignments

  predicate IsNameStart(c: char) {
    'a' <= c <= 'z' || 'A' <= c <= 'Z' || c == '_'
  }

  predicate IsNameChar(c: char) {
    IsNameStart(c) || '0' <= c <= '9'
  }

  /** The position of the `=` ending a name, scanning from `i`. */
  function NameEnd(s: string, i: nat): (eq: Option<nat>)
    requires i <= |s|
    ensures eq.Some? ==> i <= eq.value < |s| && s[eq.value] == '='
    ensures eq.Some? ==> forall k :: i <= k < eq.value ==> IsNameChar(s[k])
    decreases |s| - i
  {
    if i == |s| then None
    else if s[i] == '=' then Some(i)
    else if IsNameChar(s[i]) then NameEnd(s, i + 1) else None
  }

  /** The first unquoted white space from `i` on; quotes toggle, without escapes. */
  function ValueEnd(s: string, i: nat, inSingle: bool, inDouble: bool): (end: Option<nat>)
    requires i <= |s|
    ensures end.Some? ==> i <= end.value < |s| && IsSpace(s[end.value])
    decreases |s| - i
  {
    if i == |s| then None
    else if s[i] == '\'' && !inDouble then ValueEnd(s, i + 1, !inSingle, inDouble)
    else if s[i] == '"' && !inSingle then ValueEnd(s, i + 1, inSingle, !inDouble)
    else if IsSpace(s[i]) && !inSingle && !inDouble then Some(i)
    else ValueEnd(s, i + 1, inSingle, inDouble)
  }

  lemma FourParts(s: string, eq: nat, end: nat)
    requires eq < end <= |s| && s[eq] == '='
    ensures s == s[..eq] + "=" + s[eq + 1..end] + s[end..]
  {
    assert s[..eq] + "=" == s[..eq + 1];
    assert s[..eq + 1] + s[eq + 1..end] == s[..end];
  }

  /** A leading `NAME=value` followed by white space, as name, value and remainder. */
  function LeadingAssignment(s: string): (r: Option<(string, string, string)>)
    ensures r.Some? ==> var (name, value, after) := r.value;
              && s == name + "=" + value + after
              && name != "" && IsNameStart(name[0]) && (forall c :: c in name ==> IsNameChar(c))
              && after != "" && IsSpace(after[0])
  {
    if s == "" || !IsNameStart(s[0]) then None
    else
      match NameEnd(s, 1)
      case None => None
      case Some(eq) =>
        match ValueEnd(s, eq + 1, false, false)
        case None => None
        case Some(end) =>
          FourParts(s, eq, end);
          Some((s[..eq], s[eq + 1..end], s[end..]))
  }

  /** `parse_leading_env_assignment`: its two loops. */
  method ParseLeadingEnvAssignment(s: string) returns (r: Option<(string, string, string)>)
    ensures r == LeadingAssignment(s)
  {
    if s == "" || !IsNameStart(s[0]) {
      return None;
    }
    var eq := 1;
    while eq < |s| && s[eq] != '='
      invariant eq <= |s| && NameEnd(s, 1) == NameEnd(s, eq)
    {
      if !IsNameChar(s[eq]) {
        return None;
      }
      eq := eq + 1;
    }
    if eq == |s| {
      return None;
    }
    var inSingle, inDouble := false, false;
    var i := eq + 1;
    while i < |s|
      invariant eq < i <= |s| && NameEnd(s, 1) == Some(eq)
      invariant ValueEnd(s, eq + 1, false, false) == ValueEnd(s, i, inSingle, inDouble)
    {
      if s[i] == '\'' && !inDouble {
        inSingle := !inSingle;
      } else if s[i] == '"' && !inSingle {
        inDouble := !inDouble;
      } else if IsSpace(s[i]) && !inSingle && !inDouble {
        ParsedAssignment(s, eq, Some(i));
        return Some((s[..eq], s[eq + 1..i], s[i..]));
      }
      i := i + 1;
    }
    ParsedAssignment(s, eq, None);
    r := None;
  }

  lemma ParsedAssignment(s: string, eq: nat, end: Option<nat>)
    requires s != "" && IsNameStart(s[0]) && NameEnd(s, 1) == Some(eq)
    requires eq < |s| && ValueEnd(s, eq + 1, false, false) == end
    ensures LeadingAssignment(s) ==
            if end == None then None else Some((s[..eq], s[eq + 1..end.value], s[end.value..]))
  {
  }

  // -------------------------------------------------------------- leading cd

  datatype Separator = NoSeparator | Refused | Found(at: nat, width: nat)

  /** The first unquoted separator from `i`: a pipe or a lone `&` refuses. */
  function CdSeparator(s: string, i: nat, q: Mode): (r: Separator)
    requires i <= |s|
    ensures r.Found? ==> i <= r.at && 0 < r.width && r.at + r.width <= |s|
    decreases |s| - i
  {
    if i == |s| then NoSeparator
    else if q == Single then CdSeparator(s, i + 1, if s[i] == '\'' then Bare else Single)
    else if q == Double then CdSeparator(s, i + 1, if s[i] == '"' then Bare else Double)
    else if s[i] == '\'' then CdSeparator(s, i + 1, Single)
    else if s[i] == '"' then CdSeparator(s, i + 1, Double)
    else if s[i] == '|' then Refused
    else if s[i] == ';' then Found(i, 1)
    else if s[i] == '&' then if CharAt(s, i + 1, '&') then Found(i, 2) else Refused
    else CdSeparator(s, i + 1, Bare)
  }

  /** Where the argument of a `cd` ends: here a lone `&` is part of it. */
  function CdArgEnd(s: string, i: nat, q: Mode): (end: nat)
    requires i <= |s|
    ensures i <= end <= |s|
    decreases |s| - i
  {
    if i == |s| then i
    else if q == Single then CdArgEnd(s, i + 1, if s[i] == '\'' then Bare else Single)
    else if q == Double then CdArgEnd(s, i + 1, if s[i] == '"' then Bare else Double)
    else if s[i] == '\'' then CdArgEnd(s, i + 1, Single)
    else if s[i] == '"' then CdArgEnd(s, i + 1, Double)
    else if s[i] in {';', '|'} || (s[i] == '&' && CharAt(s, i + 1, '&')) then i
    else CdArgEnd(s, i + 1, Bare)
  }

  function CdArgument(s: string): Option<string> {
    if !HasCd(s) then None
    else
      var after := TrimStart(s[2..]);
      if after == "" then None
      else
        var path := TrimEnd(after[..CdArgEnd(after, 0, Bare)]);
        if path == "" then None else Some(path)
  }

  /** A leading `cd` with its argument and the remainder after `&&` or `;`. */
  function LeadingCd(s: string): (r: Option<(string, string)>)
    ensures r.Some? ==> |s| >= 3 && s[0] == 'c' && s[1] == 'd' && IsSpace(s[2])
    ensures r.Some? ==> |r.value.1| < |s| && r.value.1 == s[|s| - |r.value.1|..]
  {
    if !HasCd(s) || |s| < 3 || !IsSpace(s[2]) then None
    else
      match CdSeparator(s, 0, Bare)
      case Found(at, width) =>
        (match CdArgument(s)
         case None => None
         case Some(arg) => Some((arg, s[at + width..])))
      case _ => None
  }

  // ---------------------------------------------------------------- peeling

  /** What is taken off, `at` being the position of the separator behind a `cd`. */
  datatype Item =
    | Wrapper(text: string)
    | Assignment(name: string, value: string, text: string)
    | ChangeDir(arg: string, text: string, at: nat)

  const WRAPPERS := 4

  /** `s` starts with `rtk `, `sudo `, `time ` or `nice `, in this order. */
  predicate HasWrapper(s: string, k: nat)
    requires k < WRAPPERS
  {
    |s| >= WidthOf(k) && s[WidthOf(k) - 1] == ' ' &&
    match k
    case 0 => s[0] == 'r' && s[1] == 't' && s[2] == 'k'
    case 1 => s[0] == 's' && s[1] == 'u' && s[2] == 'd' && s[3] == 'o'
    case 2 => s[0] == 't' && s[1] == 'i' && s[2] == 'm' && s[3] == 'e'
    case _ => s[0] == 'n' && s[1] == 'i' && s[2] == 'c' && s[3] == 'e'
  }

  function WidthOf(k: nat): nat {
    if k == 0 then 4 else 5
  }

  predicate HasCd(s: string) {
    |s| >= 2 && s[0] == 'c' && s[1] == 'd'
  }

  /** What was taken off the front of `s` to leave `after`. */
  function Taken(s: string, after: string): string {
    if |after| <= |s| then s[..|s| - |after|] else ""
  }

  predicate Trimmed(s: string) {
    s == "" || !IsSpace(s[0])
  }

  function WrapperWidth(s: string): nat {
    if HasWrapper(s, 0) then 4
    else if HasWrapper(s, 1) || HasWrapper(s, 2) || HasWrapper(s, 3) then 5 else 0
  }

  /** The item leading `s`, and the trimmed remainder. */
  function Head(s: string): (r: Option<(Item, string)>)
    ensures r.Some? ==> |r.value.1| < |s|
  {
    if WrapperWidth(s) > 0 then
      var after := TrimStart(s[WrapperWidth(s)..]);
      Some((Wrapper(Taken(s, after)), after))
    else if LeadingAssignment(s).Some? then
      var (name, value, after) := LeadingAssignment(s).value;
      var rest := TrimStart(after);
      Some((Assignment(name, value, Taken(s, rest)), rest))
    else if LeadingCd(s).Some? then
      var (arg, after) := LeadingCd(s).value;
      var rest := TrimStart(after);
      Some((ChangeDir(arg, Taken(s, rest), CdSeparator(s, 0, Bare).at), rest))
    else None
  }

  /** Taking off one item after another until none leads. */
  function Peel(s: string): (r: (seq<Item>, string))
    decreases |s|
  {
    var h := Head(s);
    if h == None then ([], s)
    else
      var (items, rest) := Peel(h.value.1);
      ([h.value.0] + items, rest)
  }

  function Texts(items: seq<Item>): string {
    if items == [] then "" else items[0].text + Texts(items[1..])
  }

  /** `eq_ignore_ascii_case("false")`. */
  predicate IsFalseWord(v: string) {
    |v| == 5 && v[0] in {'f', 'F'} && v[1] in {'a', 'A'} && v[2] in {'l', 'L'}
    && v[3] in {'s', 'S'} && v[4] in {'e', 'E'}
  }

  predicate IsTruthy(v: string) {
    v != "" && v != "0" && !IsFalseWord(v)
  }

  /** Strips one layer of matching quotes. */
  function Unquote(v: string): string {
    if |v| >= 2 && v[0] in {'\'', '"'} && v[|v| - 1] == v[0] then v[1..|v| - 1] else v
  }

  /** The last assignment to the opt-out variable wins. */
  predicate OptsOut(items: seq<Item>) {
    items != [] &&
    var n := |items| - 1;
    if items[n].Assignment? && items[n].name == DISABLE_HOOK then IsTruthy(Unquote(items[n].value))
    else OptsOut(items[..n])
  }

  /** Only the first `cd` counts. */
  function FirstCd(items: seq<Item>): Option<string> {
    if items == [] then None
    else
      var n := |items| - 1;
      if FirstCd(items[..n]).Some? then FirstCd(items[..n])
      else if items[n].ChangeDir? then Some(items[n].arg) else None
  }

  predicate SetsOptOut(item: Item) {
    item.Assignment? && item.name == DISABLE_HOOK
  }

  /** Item `i` is the last assignment to the opt-out variable. */
  predicate LastOptOut(items: seq<Item>, i: nat)
    requires i < |items|
  {
    SetsOptOut(items[i]) && forall j :: i < j < |items| ==> !SetsOptOut(items[j])
  }

  function LowerCase(s: string): (t: string)
    ensures |t| == |s|
  {
    seq(|s|, k requires 0 <= k < |s| => if 'A' <= s[k] <= 'Z' then s[k] + 32 as char else s[k])
  }

  /** `value` is `v`, bare or in one pair of quotes. */
  ghost predicate Quotes(value: string, v: string) {
    if |value| >= 2 && value[0] == value[|value| - 1] && value[0] in {'\'', '"'}
    then exists q :: value == [q] + v + [q]
    else value == v
  }

  /** Anything but nothing, `0` and `false` in any case. */
  ghost predicate SwitchesOff(value: string) {
    exists v :: Quotes(value, v) && |v| > 0 && v != ['0'] && LowerCase(v) != ['f', 'a', 'l', 's', 'e']
  }

  ghost predicate OptOutAt(items: seq<Item>, i: nat)
    requires i < |items|
  {
    LastOptOut(items, i) && SwitchesOff(items[i].value)
  }

  ghost predicate OptedOutBy(items: seq<Item>) {
    exists i :: 0 <= i < |items| && OptOutAt(items, i)
  }

  lemma LowerCaseIsFalse(v: string)
    ensures LowerCase(v) == ['f', 'a', 'l', 's', 'e'] <==> IsFalseWord(v)
  {
    if |v| == 5 {
      var t := LowerCase(v);
      assert t == [t[0], t[1], t[2], t[3], t[4]];
    }
  }

  lemma UnquoteIff(value: string, v: string)
    ensures Quotes(value, v) <==> Unquote(value) == v
  {
    if |value| >= 2 && value[0] == value[|value| - 1] && value[0] in {'\'', '"'} {
      var q, n := value[0], |value| - 1;
      assert value == [q] + value[1..n] + [q];
      if Quotes(value, v) {
        var p :| value == [p] + v + [p];
        assert v == value[1..n];
      }
    }
  }

  lemma TruthyIff(value: string)
    ensures IsTruthy(Unquote(value)) <==> SwitchesOff(value)
  {
    var u := Unquote(value);
    UnquoteIff(value, u);
    LowerCaseIsFalse(u);
    forall v | Quotes(value, v) ensures v == u {
      UnquoteIff(value, v);
    }
  }

  /** The flag returned is on exactly when the last assignment to the opt-out variable
      switches the hook off. */
  lemma {:induction false} OptsOutIff(items: seq<Item>)
    ensures OptsOut(items) <==> OptedOutBy(items)
    decreases |items|
  {
    if items != [] {
      var n := |items| - 1;
      if SetsOptOut(items[n]) {
        TruthyIff(items[n].value);
        assert LastOptOut(items, n);
        assert OptOutAt(items, n) <==> SwitchesOff(items[n].value);
      } else {
        OptsOutIff(items[..n]);
        LastIsEarlier(items);
      }
    }
  }

  lemma LastIsEarlier(items: seq<Item>)
    requires items != [] && !SetsOptOut(items[|items| - 1])
    ensures OptedOutBy(items) <==> OptedOutBy(items[..|items| - 1])
  {
    var n := |items| - 1;
    if OptedOutBy(items) {
      var i :| 0 <= i < |items| && OptOutAt(items, i);
      SameLast(items, i);
    }
    if OptedOutBy(items[..n]) {
      var i :| 0 <= i < n && OptOutAt(items[..n], i);
      SameLast(items, i);
    }
  }

  lemma SameLast(items: seq<Item>, i: nat)
    requires i < |items| - 1 && !SetsOptOut(items[|items| - 1])
    ensures OptOutAt(items, i) <==> OptOutAt(items[..|items| - 1], i)
  {
    var n := |items| - 1;
    assert forall j :: i <= j < n ==> items[..n][j] == items[j];
    if LastOptOut(items[..n], i) {
      forall j | i < j < |items| ensures !SetsOptOut(items[j]) {
        if j < n { assert items[..n][j] == items[j]; }
      }
    }
  }

  /** The directory of the first `cd`, if there is one. */
  predicate FirstCdIs(items: seq<Item>, cd: Option<string>) {
    match cd
    case None => forall i :: 0 <= i < |items| ==> !items[i].ChangeDir?
    case Some(arg) =>
      exists i :: 0 <= i < |items| && items[i].ChangeDir? && items[i].arg == arg
                  && forall j :: 0 <= j < i ==> !items[j].ChangeDir?
  }

  lemma {:induction false} FirstCdIff(items: seq<Item>)
    ensures FirstCdIs(items, FirstCd(items))
    ensures forall cd :: FirstCdIs(items, cd) ==> cd == FirstCd(items)
    decreases |items|
  {
    if items != [] {
      var n := |items| - 1;
      FirstCdIff(items[..n]);
      assert forall i :: 0 <= i < n ==> items[..n][i] == items[i];
      if FirstCd(items[..n]).Some? {
        var i :| 0 <= i < n && items[..n][i].ChangeDir? && items[..n][i].arg == FirstCd(items[..n]).value
                 && forall j :: 0 <= j < i ==> !items[..n][j].ChangeDir?;
        assert items[i].ChangeDir? && forall j :: 0 <= j < i ==> !items[j].ChangeDir?;
      }
    }
  }

  datatype Stripped = Stripped(rest: string, disablesHook: bool, cdTarget: Option<string>)

  /** What `strip_command_prefixes` returns. */
  function Strip(command: string): Stripped {
    var (items, rest) := Peel(TrimStart(command));
    Stripped(rest, OptsOut(items), FirstCd(items))
  }

  /** `items` have been taken off `s`, `rest` is to be looked at next. */
  ghost predicate Peeling(s: string, items: seq<Item>, rest: string) {
    Trimmed(rest) && Peel(s) == (items + Peel(rest).0, Peel(rest).1)
  }

  lemma HeadIsTrimmed(s: string)
    requires Head(s).Some?
    ensures Trimmed(Head(s).value.1)
  {
    if WrapperWidth(s) > 0 {
      TrimStartIsSuffix(s[WrapperWidth(s)..]);
    } else if LeadingAssignment(s).Some? {
      TrimStartIsSuffix(LeadingAssignment(s).value.2);
    } else {
      TrimStartIsSuffix(LeadingCd(s).value.1);
    }
  }

  lemma PeelUnfolds(s: string)
    requires Head(s).Some?
    ensures Peel(s) == ([Head(s).value.0] + Peel(Head(s).value.1).0, Peel(Head(s).value.1).1)
  {
  }

  lemma ConsAfter(items: seq<Item>, item: Item, more: seq<Item>)
    ensures items + ([item] + more) == (items + [item]) + more
  {
  }

  lemma PeelOn(s: string, items: seq<Item>, rest: string)
    requires Peeling(s, items, rest) && Head(rest).Some?
    ensures Peeling(s, items + [Head(rest).value.0], Head(rest).value.1)
  {
    HeadIsTrimmed(rest);
    PeelUnfolds(rest);
    ConsAfter(items, Head(rest).value.0, Peel(Head(rest).value.1).0);
  }

  lemma FlagsAppend(done: seq<Item>, item: Item)
    ensures OptsOut(done + [item]) == (if item.Assignment? && item.name == DISABLE_HOOK
                                       then IsTruthy(Unquote(item.value)) else OptsOut(done))
    ensures FirstCd(done + [item]) == (if FirstCd(done).Some? then FirstCd(done)
                                       else if item.ChangeDir? then Some(item.arg) else None)
  {
    assert (done + [item])[..|done|] == done;
  }

  lemma WrappersExclude(s: string, k: nat)
    requires k < WRAPPERS && HasWrapper(s, k)
    ensures LeadingAssignment(s) == None && LeadingCd(s) == None && WrapperWidth(s) == WidthOf(k)
  {
    NoEqualsBefore(s, 1, WidthOf(k) - 1);
  }

  lemma WrapperLeads(s: string, k: nat)
    requires k < WRAPPERS && HasWrapper(s, k)
    ensures Head(s).Some? && Head(s).value.0.Wrapper? && Head(s).value.1 == TrimStart(s[WidthOf(k)..])
  {
    WrappersExclude(s, k);
  }

  lemma NoEqualsBefore(s: string, i: nat, n: nat)
    requires i <= n < |s| && s[n] == ' ' && forall k :: i <= k < n ==> s[k] != '='
    ensures NameEnd(s, i) == None
    decreases n - i
  {
    if i < n { NoEqualsBefore(s, i + 1, n); }
  }

  lemma CdExcludes(s: string)
    requires LeadingCd(s).Some?
    ensures LeadingAssignment(s) == None && WrapperWidth(s) == 0
    ensures Head(s).Some? && Head(s).value.0.ChangeDir? && Head(s).value.0.arg == LeadingCd(s).value.0
    ensures Head(s).value.1 == TrimStart(LeadingCd(s).value.1)
  {
    assert NameEnd(s, 2) == None;
    assert NameEnd(s, 1) == None;
    assert s[0] == 'c';
  }

  lemma AssignmentLeads(s: string)
    requires LeadingAssignment(s).Some?
    ensures WrapperWidth(s) == 0
    ensures var (name, value, after) := LeadingAssignment(s).value;
            Head(s).Some? && Head(s).value.0.Assignment? && Head(s).value.0.name == name
            && Head(s).value.0.value == value && Head(s).value.1 == TrimStart(after)
  {
    forall j: nat | j < WRAPPERS ensures !HasWrapper(s, j) {
      if HasWrapper(s, j) { WrappersExclude(s, j); }
    }
  }

  lemma TakeWrapper(s: string, items: seq<Item>, rest: string, k: nat) returns (item: Item)
    requires Peeling(s, items, rest) && k < WRAPPERS && HasWrapper(rest, k)
    ensures item.Wrapper? && Peeling(s, items + [item], TrimStart(rest[WidthOf(k)..]))
    ensures |TrimStart(rest[WidthOf(k)..])| < |rest|
    ensures OptsOut(items + [item]) == OptsOut(items) && FirstCd(items + [item]) == FirstCd(items)
  {
    WrapperLeads(rest, k);
    PeelOn(s, items, rest);
    item := Head(rest).value.0;
    FlagsAppend(items, item);
  }

  /** The wrappers tried in order, once each. */
  method StripWrappers(start: string) returns (rest: string, advanced: bool, ghost items: seq<Item>)
    requires Trimmed(start)
    ensures Peeling(start, items, rest) && WrappersOnly(items)
    ensures if advanced then |rest| < |start| else rest == start && items == [] && WrapperWidth(rest) == 0
  {
    rest, advanced, items := start, false, [];
    PeelingStarts(start);
    for k := 0 to WRAPPERS
      invariant Stripping(start, items, rest, advanced, k)
    {
      items := StripOne(start, items, rest, advanced, k);
      if HasWrapper(rest, k) {
        rest, advanced := TrimStart(rest[WidthOf(k)..]), true;
      }
    }
    StripEnds(start, items, rest, advanced);
  }

  /** The loop over the wrappers, `k` of them tried. */
  ghost predicate Stripping(start: string, items: seq<Item>, rest: string, advanced: bool, k: nat) {
    Peeling(start, items, rest) && WrappersOnly(items)
    && if advanced then |rest| < |start| else rest == start && items == [] && NoWrapperBelow(rest, k)
  }

  lemma StripOne(start: string, items: seq<Item>, rest: string, advanced: bool, k: nat) returns (more: seq<Item>)
    requires k < WRAPPERS && Stripping(start, items, rest, advanced, k)
    ensures if HasWrapper(rest, k) then Stripping(start, more, TrimStart(rest[WidthOf(k)..]), true, k + 1)
            else Stripping(start, more, rest, advanced, k + 1)
  {
    more := items;
    if HasWrapper(rest, k) {
      var item := TakeWrapper(start, items, rest, k);
      more := items + [item];
    }
  }

  lemma StripEnds(start: string, items: seq<Item>, rest: string, advanced: bool)
    requires Stripping(start, items, rest, advanced, WRAPPERS)
    ensures Peeling(start, items, rest) && WrappersOnly(items)
    ensures if advanced then |rest| < |start| else rest == start && items == [] && WrapperWidth(rest) == 0
  {
    if !advanced { NoWrapper(rest); }
  }

  predicate WrappersOnly(items: seq<Item>) {
    !OptsOut(items) && FirstCd(items) == None && forall k :: 0 <= k < |items| ==> items[k].Wrapper?
  }

  predicate NoWrapperBelow(s: string, k: nat) {
    forall j :: 0 <= j < k && j < WRAPPERS ==> !HasWrapper(s, j)
  }

  lemma NoWrapper(s: string)
    requires NoWrapperBelow(s, WRAPPERS)
    ensures WrapperWidth(s) == 0
  {
  }

  lemma PeelingStarts(s: string)
    requires Trimmed(s)
    ensures Peeling(s, [], s)
  {
    assert [] + Peel(s).0 == Peel(s).0;
  }

  lemma PeelThrough(s: string, items: seq<Item>, mid: string, more: seq<Item>, rest: string)
    requires Peeling(s, items, mid) && Peeling(mid, more, rest)
    ensures Peeling(s, items + more, rest)
  {
    assert items + (more + Peel(rest).0) == (items + more) + Peel(rest).0;
  }

  lemma WrappersKeepFlags(done: seq<Item>, more: seq<Item>)
    requires forall k :: 0 <= k < |more| ==> more[k].Wrapper?
    ensures OptsOut(done + more) == OptsOut(done) && FirstCd(done + more) == FirstCd(done)
  {
    if more == [] {
      assert done + more == done;
    } else {
      var n := |more| - 1;
      WrappersKeepFlags(done, more[..n]);
      assert done + more == (done + more[..n]) + [more[n]];
      FlagsAppend(done + more[..n], more[n]);
    }
  }

  lemma TakeWrappers(s: string, items: seq<Item>, mid: string, more: seq<Item>, rest: string)
    requires Peeling(s, items, mid) && Peeling(mid, more, rest)
    requires forall k :: 0 <= k < |more| ==> more[k].Wrapper?
    ensures Peeling(s, items + more, rest)
    ensures OptsOut(items + more) == OptsOut(items) && FirstCd(items + more) == FirstCd(items)
  {
    PeelThrough(s, items, mid, more, rest);
    WrappersKeepFlags(items, more);
  }

  lemma TakeAssignment(s: string, items: seq<Item>, rest: string) returns (item: Item)
    requires Peeling(s, items, rest) && LeadingAssignment(rest).Some?
    ensures var (name, value, after) := LeadingAssignment(rest).value;
            && Peeling(s, items + [item], TrimStart(after)) && |after| < |rest|
            && OptsOut(items + [item]) == (if name == DISABLE_HOOK then IsTruthy(Unquote(value)) else OptsOut(items))
            && FirstCd(items + [item]) == FirstCd(items)
  {
    AssignmentLeads(rest);
    PeelOn(s, items, rest);
    item := Head(rest).value.0;
    FlagsAppend(items, item);
  }

  lemma TakeCd(s: string, items: seq<Item>, rest: string) returns (item: Item)
    requires Peeling(s, items, rest) && LeadingCd(rest).Some?
    ensures var (arg, after) := LeadingCd(rest).value;
            && Peeling(s, items + [item], TrimStart(after)) && |after| < |rest|
            && OptsOut(items + [item]) == OptsOut(items)
            && FirstCd(items + [item]) == (if FirstCd(items).Some? then FirstCd(items) else Some(arg))
  {
    CdExcludes(rest);
    PeelOn(s, items, rest);
    item := Head(rest).value.0;
    FlagsAppend(items, item);
  }

  lemma NothingLeads(s: string)
    requires WrapperWidth(s) == 0 && LeadingAssignment(s) == None && LeadingCd(s) == None
    ensures Peel(s) == ([], s)
  {
  }

  /** `strip_command_prefixes`: one pass tries the wrappers, an assignment and a `cd` in
      turn, and passes repeat until none advances. That fixed-point loop computes `Strip`. */
  method StripCommandPrefixes(command: string) returns (r: Stripped)
    ensures r == Strip(command)
  {
    var rest := TrimStart(command);
    ghost var start := rest;
    var disablesHook, cdTarget := false, None;
    TrimStartIsSuffix(command);
    ghost var items: seq<Item>, item: Item := [], Wrapper("");
    assert [] + Peel(start).0 == Peel(start).0;
    var advanced := true;
    while advanced
      invariant Peeling(start, items, rest)
      invariant disablesHook == OptsOut(items) && cdTarget == FirstCd(items)
      invariant !advanced ==> Peel(rest) == ([], rest)
      decreases |rest|, advanced
    {
      ghost var more;
      ghost var mid := rest;
      rest, advanced, more := StripWrappers(rest);
      TakeWrappers(start, items, mid, more, rest);
      items := items + more;
      var assignment := ParseLeadingEnvAssignment(rest);
      if assignment.Some? {
        item := TakeAssignment(start, items, rest);
        items := items + [item];
        var (name, value, after) := assignment.value;
        if name == DISABLE_HOOK {
          disablesHook := IsTruthy(Unquote(value));
        }
        rest := TrimStart(after);
        advanced := true;
      }
      var cd := LeadingCd(rest);
      if cd.Some? {
        item := TakeCd(start, items, rest);
        items := items + [item];
        if cdTarget == None {
          cdTarget := Some(cd.value.0);
        }
        rest := TrimStart(cd.value.1);
        advanced := true;
      }
      if !advanced { NothingLeads(rest); }
    }
    assert items + [] == items;
    r := Stripped(rest, disablesHook, cdTarget);
  }

  // ------------------------------------------------------- what stripping is

  /** Trimming a suffix of `s` leaves a suffix of `s`. */
  lemma TrimmedSuffix(s: string, mid: string)
    requires |mid| <= |s| && mid == s[|s| - |mid|..]
    ensures var after := TrimStart(mid);
            |after| <= |s| && after == s[|s| - |after|..] && Taken(s, after) + after == s
  {
    TrimStartIsSuffix(mid);
    var after := TrimStart(mid);
    assert after == s[|s| - |after|..];
  }

  lemma HeadIsPrefix(s: string)
    requires Head(s).Some?
    ensures Head(s).value.0.text + Head(s).value.1 == s
  {
    if WrapperWidth(s) > 0 {
      TrimmedSuffix(s, s[WrapperWidth(s)..]);
    } else if LeadingAssignment(s).Some? {
      TrimmedSuffix(s, LeadingAssignment(s).value.2);
    } else {
      TrimmedSuffix(s, LeadingCd(s).value.1);
    }
  }

  lemma TextsCons(item: Item, items: seq<Item>, rest: string)
    ensures Texts([item] + items) + rest == item.text + (Texts(items) + rest)
  {
    assert ([item] + items)[1..] == items;
  }

  lemma {:induction false} PeelKeepsText(s: string)
    requires Trimmed(s)
    ensures Texts(Peel(s).0) + Peel(s).1 == s && Trimmed(Peel(s).1) && Head(Peel(s).1) == None
    decreases |s|
  {
    if Head(s).Some? {
      var (item, after) := Head(s).value;
      HeadIsPrefix(s);
      HeadIsTrimmed(s);
      PeelKeepsText(after);
      assert Peel(s) == ([item] + Peel(after).0, Peel(after).1);
      TextsCons(item, Peel(after).0, Peel(after).1);
    } else {
      assert Peel(s) == ([], s);
      assert Texts([]) + s == s;
    }
  }

  lemma SpacesBefore(s: string)
    ensures var t := TrimStart(s);
            s == s[..|s| - |t|] + t && forall k :: 0 <= k < |s| - |t| ==> IsSpace(s[k])
  {
    TrimStartIsSuffix(s);
  }

  lemma FixedWhenNothingLeads(s: string)
    requires Trimmed(s) && Head(s) == None
    ensures Strip(s) == Stripped(s, false, None)
  {
    assert TrimStart(s) == s;
    assert Peel(s) == ([], s);
  }

  /** The remainder is a suffix of the command: white space and the peeled items come
      before it. Stripping it again changes nothing. */
  lemma StripIsASuffixAndFixed(command: string)
    ensures var t := TrimStart(command);
            var rest := Strip(command).rest;
            && command == command[..|command| - |t|] + t
            && (forall k :: 0 <= k < |command| - |t| ==> IsSpace(command[k]))
            && t == Texts(Peel(t).0) + rest
            && Strip(rest) == Stripped(rest, false, None)
  {
    SpacesBefore(command);
    TrimStartIsSuffix(command);
    PeelKeepsText(TrimStart(command));
    FixedWhenNothingLeads(Strip(command).rest);
  }
}
