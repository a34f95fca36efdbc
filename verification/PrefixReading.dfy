/**
 Peeling undoes prefixing (`strip_command_prefixes` in src/hooks.rs): a wrapper, a plain
 assignment or a plain `cd` written in front of a command is taken off again, and nothing
 else about the command changes but what that prefix says.
 */
module PrefixReading {
  import opened Common
  import opened ShellScan
  import opened CommandPrefixes

  // ------------------------------------------------- one more item in front

  predicate AnySets(items: seq<Item>) {
    exists i :: 0 <= i < |items| && SetsOptOut(items[i])
  }

  lemma LastSets(front: seq<Item>, last: Item)
    ensures AnySets(front + [last]) <==> AnySets(front) || SetsOptOut(last)
  {
    var items := front + [last];
    assert items[|front|] == last && forall i :: 0 <= i < |front| ==> items[i] == front[i];
    if AnySets(front) {
      var i :| 0 <= i < |front| && SetsOptOut(front[i]);
      assert SetsOptOut(items[i]);
    }
  }

  lemma FrontAndLast(items: seq<Item>)
    requires items != []
    ensures items == items[..|items| - 1] + [items[|items| - 1]]
  {
  }

  lemma {:induction false} FlagBehind(item: Item, items: seq<Item>)
    ensures OptsOut([item] + items) ==
            if AnySets(items) then OptsOut(items) else SetsOptOut(item) && IsTruthy(Unquote(item.value))
    decreases |items|
  {
    if items == [] {
      assert [item] + items == [] + [item];
      FlagsAppend([], item);
    } else {
      var front, last := items[..|items| - 1], items[|items| - 1];
      FrontAndLast(items);
      FlagBehind(item, front);
      LastSets(front, last);
      assert [item] + items == ([item] + front) + [last];
      FlagsAppend([item] + front, last);
      FlagsAppend(front, last);
    }
  }

  lemma {:induction false} CdBehind(item: Item, items: seq<Item>)
    ensures FirstCd([item] + items) == if item.ChangeDir? then Some(item.arg) else FirstCd(items)
    decreases |items|
  {
    if items == [] {
      assert [item] + items == [] + [item];
      FlagsAppend([], item);
    } else {
      var front, last := items[..|items| - 1], items[|items| - 1];
      FrontAndLast(items);
      CdBehind(item, front);
      assert [item] + items == ([item] + front) + [last];
      FlagsAppend([item] + front, last);
      FlagsAppend(front, last);
    }
  }

  lemma {:induction false} OptingOutIsSet(items: seq<Item>)
    ensures OptsOut(items) ==> AnySets(items)
    decreases |items|
  {
    if items != [] {
      var front, last := items[..|items| - 1], items[|items| - 1];
      OptingOutIsSet(front);
      FrontAndLast(items);
      LastSets(front, last);
    }
  }

  /** Some assignment of the command itself names the opt-out variable. */
  predicate AssignsOptOut(command: string) {
    AnySets(Peel(TrimStart(command)).0)
  }

  lemma StripBehind(s: string, command: string)
    requires Trimmed(s) && Head(s).Some? && Head(s).value.1 == TrimStart(command)
    ensures var item, st := Head(s).value.0, Strip(command);
            Strip(s) == Stripped(
              st.rest,
              if AssignsOptOut(command) then st.disablesHook else SetsOptOut(item) && IsTruthy(Unquote(item.value)),
              if item.ChangeDir? then Some(item.arg) else st.cdTarget)
  {
    assert TrimStart(s) == s;
    PeelUnfolds(s);
    FlagBehind(Head(s).value.0, Peel(TrimStart(command)).0);
    CdBehind(Head(s).value.0, Peel(TrimStart(command)).0);
  }

  // -------------------------------------------------------------- wrappers

  lemma WrapperShows(s: string, k: nat)
    requires k < WRAPPERS && WrapperWord(k) <= s
    ensures |WrapperWord(k)| == WidthOf(k) && HasWrapper(s, k) && Trimmed(s)
  {
    var w := WrapperWord(k);
    assert forall i :: 0 <= i < |w| ==> s[i] == w[i];
  }

  function WrapperWord(k: nat): string {
    if k == 0 then "rtk " else if k == 1 then "sudo " else if k == 2 then "time " else "nice "
  }

  /** A wrapper changes nothing. */
  lemma WrapperIsPeeled(k: nat, command: string)
    requires k < WRAPPERS
    ensures Strip(WrapperWord(k) + command) == Strip(command)
  {
    var w := WrapperWord(k);
    var s := w + command;
    assert s[|w|..] == command;
    WrapperShows(s, k);
    WrapperLeads(s, k);
    StripBehind(s, command);
    OptingOutIsSet(Peel(TrimStart(command)).0);
  }

  // ----------------------------------------------------------- assignments

  predicate Identifier(name: string) {
    name != "" && IsNameStart(name[0]) && forall c :: c in name ==> IsNameChar(c)
  }

  predicate PlainValue(value: string) {
    forall c :: c in value ==> c != '\'' && c != '"' && !IsSpace(c)
  }

  lemma {:induction false} NameEndAt(s: string, i: nat, eq: nat)
    requires i <= eq < |s| && s[eq] == '=' && forall k :: i <= k < eq ==> IsNameChar(s[k])
    ensures NameEnd(s, i) == Some(eq)
    decreases eq - i
  {
    if i < eq {
      assert IsNameChar(s[i]);
      NameEndAt(s, i + 1, eq);
    }
  }

  lemma {:induction false} ValueEndAt(s: string, i: nat, end: nat)
    requires i <= end < |s| && IsSpace(s[end])
    requires forall k :: i <= k < end ==> s[k] != '\'' && s[k] != '"' && !IsSpace(s[k])
    ensures ValueEnd(s, i, false, false) == Some(end)
    decreases end - i
  {
    if i < end {
      ValueEndAt(s, i + 1, end);
    }
  }

  lemma AssignmentIsRead(name: string, value: string, command: string)
    requires Identifier(name) && PlainValue(value)
    ensures LeadingAssignment(name + "=" + value + " " + command) == Some((name, value, " " + command))
  {
    var s := name + "=" + value + " " + command;
    var eq := |name|;
    var end := eq + 1 + |value|;
    assert s[..eq] == name && s[eq] == '=' && s[eq + 1..end] == value && s[end..] == " " + command;
    assert forall k :: 0 <= k < eq ==> s[k] == name[k] && name[k] in name;
    assert forall k :: eq < k < end ==> s[k] == value[k - eq - 1] && value[k - eq - 1] in value;
    NameEndAt(s, 1, eq);
    ValueEndAt(s, eq + 1, end);
    ParsedAssignment(s, eq, Some(end));
  }

  lemma SpaceThen(command: string)
    ensures TrimStart(" " + command) == TrimStart(command)
  {
    assert (" " + command)[1..] == command;
  }

  /** A plain assignment changes nothing but, for the opt-out variable, the flag, unless the
      command assigns that itself. */
  lemma AssignmentIsPeeled(name: string, value: string, command: string)
    requires Identifier(name) && PlainValue(value)
    ensures var st := Strip(command);
            Strip(name + "=" + value + " " + command) == Stripped(
              st.rest,
              if name == DISABLE_HOOK && !AssignsOptOut(command) then IsTruthy(value) else st.disablesHook,
              st.cdTarget)
  {
    var s := name + "=" + value + " " + command;
    AssignmentIsRead(name, value, command);
    AssignmentLeads(s);
    SpaceThen(command);
    assert s[0] == name[0];
    StripBehind(s, command);
    OptingOutIsSet(Peel(TrimStart(command)).0);
    if value != "" {
      assert value[0] in value;
    }
  }

  // ------------------------------------------------------------------- cd

  predicate PlainPath(dir: string) {
    dir != "" && forall c :: c in dir ==> c !in {'\'', '"', ';', '|', '&'} && !IsSpace(c)
  }

  lemma {:induction false} CdSeparatorAt(s: string, i: nat, at: nat, width: nat)
    requires i <= at && 0 < width && at + width <= |s|
    requires forall k :: i <= k < at ==> s[k] !in {'\'', '"', ';', '|', '&'}
    requires (width == 1 && s[at] == ';') || (width == 2 && s[at] == '&' && s[at + 1] == '&')
    ensures CdSeparator(s, i, Bare) == Found(at, width)
    decreases at - i
  {
    if i < at {
      CdSeparatorAt(s, i + 1, at, width);
    }
  }

  lemma {:induction false} CdArgEndAt(s: string, i: nat, at: nat)
    requires i <= at < |s| && forall k :: i <= k < at ==> s[k] !in {'\'', '"', ';', '|', '&'}
    requires s[at] == ';' || (s[at] == '&' && CharAt(s, at + 1, '&'))
    ensures CdArgEnd(s, i, Bare) == at
    decreases at - i
  {
    if i < at {
      CdArgEndAt(s, i + 1, at);
    }
  }

  lemma ArgumentIsRead(s: string, dir: string, sep: string, rest: string)
    requires PlainPath(dir) && (sep == ";" || sep == "&&")
    requires s == "cd " + (dir + (" " + (sep + rest)))
    ensures CdArgument(s) == Some(dir)
  {
    var after := dir + (" " + (sep + rest));
    PathThenSeparator(after, dir, sep, rest);
    assert s[2..] == " " + after;
    SpaceThen(after);
    assert TrimStart(after) == after;
    TrimEndsSpace(dir);
  }

  lemma PathThenSeparator(after: string, dir: string, sep: string, rest: string)
    requires PlainPath(dir) && (sep == ";" || sep == "&&") && after == dir + (" " + (sep + rest))
    ensures CdArgEnd(after, 0, Bare) == |dir| + 1 && after[..|dir| + 1] == dir + " " && !IsSpace(after[0])
  {
    var at := |dir| + 1;
    assert after[0] == dir[0] && dir[0] in dir;
    assert after[at] == sep[0] && (sep == "&&" ==> after[at + 1] == '&');
    assert forall k :: 0 <= k < |dir| ==> after[k] == dir[k] && dir[k] in dir;
    CdArgEndAt(after, 0, at);
  }

  lemma TrimEndsSpace(dir: string)
    requires PlainPath(dir)
    ensures TrimEnd(dir + " ") == dir
  {
    assert (dir + " ")[..|dir|] == dir;
    assert dir[|dir| - 1] in dir;
  }

  lemma CdIsRead(s: string, dir: string, sep: string, rest: string)
    requires PlainPath(dir) && (sep == ";" || sep == "&&")
    requires s == "cd " + (dir + (" " + (sep + rest)))
    ensures LeadingCd(s) == Some((dir, rest)) && Trimmed(s)
  {
    ArgumentIsRead(s, dir, sep, rest);
    assert s[0] == 'c' && s[1] == 'd' && s[2] == ' ';
    SeparatorIsRead(s, dir, sep, rest);
  }

  lemma SeparatorIsRead(s: string, dir: string, sep: string, rest: string)
    requires PlainPath(dir) && (sep == ";" || sep == "&&")
    requires s == "cd " + (dir + (" " + (sep + rest)))
    ensures CdSeparator(s, 0, Bare) == Found(4 + |dir|, |sep|)
    ensures 4 + |dir| + |sep| <= |s| && s[4 + |dir| + |sep|..] == rest
  {
    var at := 4 + |dir|;
    assert s[0] == 'c' && s[1] == 'd' && s[2] == ' ' && s[3 + |dir|] == ' ';
    assert forall k :: 3 <= k < 3 + |dir| ==> s[k] == dir[k - 3] && dir[k - 3] in dir;
    assert s[at] == sep[0] && (sep == "&&" ==> s[at + 1] == '&');
    CdSeparatorAt(s, 0, at, |sep|);
  }

  /** A plain `cd` before `&&` or `;` changes nothing but the directory. */
  lemma CdIsPeeled(dir: string, sep: string, command: string)
    requires PlainPath(dir) && (sep == ";" || sep == "&&")
    ensures Strip("cd " + (dir + (" " + (sep + command))))
            == Strip(command).(cdTarget := Some(dir))
  {
    var s := "cd " + (dir + (" " + (sep + command)));
    CdIsRead(s, dir, sep, command);
    CdExcludes(s);
    StripBehind(s, command);
    OptingOutIsSet(Peel(TrimStart(command)).0);
  }
}
