/**
 The NQN grammar that create requests are checked against: the regular expression
 ^nqn\.[0-9]{4}-[0-9]{2}(\.[a-zA-Z0-9]+)+(:[a-zA-Z0-9-.]+)+$ in three forms that are shown to
 agree: its denotation, a parser into syntax trees, and a single left-to-right scan.
 */
module Nqn {
  import opened Common

  datatype CharClass = Exactly(c: char) | Digit | Alnum | AlnumDashDot

  predicate InClass(c: char, cc: CharClass) {
    match cc
    case Exactly(d) => c == d
    case Digit => '0' <= c <= '9'
    case Alnum => IsAlnum(c)
    case AlnumDashDot => IsAlnum(c) || c == '-' || c == '.'
  }

  predicate IsAlnum(c: char) {
    'a' <= c <= 'z' || 'A' <= c <= 'Z' || '0' <= c <= '9'
  }

  // ---------------------------------------------------------------- the regular expression

  datatype Regex =
    | Fixed(classes: seq<CharClass>)
    | Cat(left: Regex, right: Regex)
    | Plus(body: Regex)

  predicate MatchesFixed(classes: seq<CharClass>, s: string) {
    |s| == |classes| && forall i :: 0 <= i < |s| ==> InClass(s[i], classes[i])
  }

  /** The whole of s is in the language of r. */
  ghost predicate Matches(r: Regex, s: string)
    decreases r, |s|
  {
    match r
    case Fixed(classes) => MatchesFixed(classes, s)
    case Cat(left, right) =>
      exists i :: 0 <= i <= |s| && Matches(left, s[..i]) && Matches(right, s[i..])
    case Plus(body) =>
      || Matches(body, s)
      || exists i :: 0 < i < |s| && Matches(body, s[..i]) && Matches(r, s[i..])
  }

  const HEAD := [
    Exactly('n'), Exactly('q'), Exactly('n'), Exactly('.'),
    Digit, Digit, Digit, Digit, Exactly('-'), Digit, Digit
  ]

  function Repeated(sep: char, cc: CharClass): Regex {
    Plus(Cat(Fixed([Exactly(sep)]), Plus(Fixed([cc]))))
  }

  const NQN_REGEX := Cat(Fixed(HEAD), Cat(Repeated('.', Alnum), Repeated(':', AlnumDashDot)))

  // ---------------------------------------------------------------- syntax trees

  datatype Tree = Tree(year: string, month: string, labels: seq<string>, parts: seq<string>)

  predicate IsGroup(cc: CharClass, s: string) {
    s != "" && forall i :: 0 <= i < |s| ==> InClass(s[i], cc)
  }

  predicate AreGroups(cc: CharClass, groups: seq<string>) {
    groups == [] || (IsGroup(cc, groups[0]) && AreGroups(cc, groups[1..]))
  }

  predicate IsTree(t: Tree) {
    && MatchesFixed([Digit, Digit, Digit, Digit], t.year)
    && MatchesFixed([Digit, Digit], t.month)
    && t.labels != [] && AreGroups(Alnum, t.labels)
    && t.parts != [] && AreGroups(AlnumDashDot, t.parts)
  }

  /** The groups, each behind its separator, followed by the given rest. */
  function PrintGroups(sep: char, groups: seq<string>, rest: string): string {
    if groups == [] then rest else [sep] + (groups[0] + PrintGroups(sep, groups[1..], rest))
  }

  function PrintHead(year: string, month: string): string {
    "nqn." + (year + ("-" + month))
  }

  function Print(t: Tree): string {
    PrintHead(t.year, t.month) + PrintGroups('.', t.labels, PrintGroups(':', t.parts, ""))
  }

  lemma {:induction false} PrintGroupsAppends(sep: char, groups: seq<string>, rest: string)
    ensures PrintGroups(sep, groups, rest) == PrintGroups(sep, groups, "") + rest
  {
    if groups != [] {
      PrintGroupsAppends(sep, groups[1..], rest);
      assert [sep] + (groups[0] + (PrintGroups(sep, groups[1..], "") + rest))
          == ([sep] + (groups[0] + PrintGroups(sep, groups[1..], ""))) + rest;
    }
  }

  // ---------------------------------------------------------------- parser

  /** Where the longest run of characters of the class that starts at i ends. */
  function RunEnd(cc: CharClass, s: string, i: nat): (end: nat)
    requires i <= |s|
    ensures i <= end <= |s|
    decreases |s| - i
  {
    if i < |s| && InClass(s[i], cc) then RunEnd(cc, s, i + 1) else i
  }

  /** The separated groups found from position i on, and the position behind them. */
  function ParseGroups(sep: char, cc: CharClass, s: string, i: nat): (r: (seq<string>, nat))
    requires i <= |s|
    ensures i <= r.1 <= |s|
    decreases |s| - i
  {
    if i + 1 < |s| && s[i] == sep && InClass(s[i + 1], cc) then
      var j := RunEnd(cc, s, i + 1);
      var (groups, end) := ParseGroups(sep, cc, s, j);
      ([s[i + 1..j]] + groups, end)
    else
      ([], i)
  }

  function Parse(s: string): Option<Tree> {
    if |s| < 11 || !MatchesFixed(HEAD, s[..11]) then None
    else
      var (labels, i) := ParseGroups('.', Alnum, s, 11);
      var (parts, end) := ParseGroups(':', AlnumDashDot, s, i);
      if labels == [] || parts == [] || end != |s| then None
      else Some(Tree(s[4..8], s[9..11], labels, parts))
  }

  // ---------------------------------------------------------------- scanner

  datatype ScanState = Head(read: nat) | DotStart | InLabel | ColonStart | InPart | Dead

  function Next(q: ScanState, c: char): ScanState {
    match q
    case Head(n) =>
      if n < 11 && InClass(c, HEAD[n]) then Head(n + 1)
      else if n == 11 && c == '.' then DotStart
      else Dead
    case DotStart => if IsAlnum(c) then InLabel else Dead
    case InLabel =>
      if IsAlnum(c) then InLabel else if c == '.' then DotStart else if c == ':' then ColonStart else Dead
    case ColonStart => if InClass(c, AlnumDashDot) then InPart else Dead
    case InPart => if InClass(c, AlnumDashDot) then InPart else if c == ':' then ColonStart else Dead
    case Dead => Dead
  }

  /** One pass over s from position i on, in constant space. */
  predicate Scan(q: ScanState, s: string, i: nat)
    requires i <= |s|
    decreases |s| - i
  {
    if i == |s| then q == InPart else Scan(Next(q, s[i]), s, i + 1)
  }

  /** What the create handler's validation asks of an NQN, besides its length. */
  predicate IsNqn(s: string) {
    Scan(Head(0), s, 0)
  }

  // ---------------------------------------------------------------- round trip

  lemma {:induction false} RunEndIsMaximal(cc: CharClass, s: string, i: nat)
    requires i <= |s|
    ensures var end := RunEnd(cc, s, i);
            && (forall k :: i <= k < end ==> InClass(s[k], cc))
            && (end < |s| ==> !InClass(s[end], cc))
    decreases |s| - i
  {
    if i < |s| && InClass(s[i], cc) { RunEndIsMaximal(cc, s, i + 1); }
  }

  lemma {:induction false} ParsedGroupsAreGroups(sep: char, cc: CharClass, s: string, i: nat)
    requires i <= |s|
    ensures AreGroups(cc, ParseGroups(sep, cc, s, i).0)
    decreases |s| - i
  {
    if i + 1 < |s| && s[i] == sep && InClass(s[i + 1], cc) {
      var j := RunEnd(cc, s, i + 1);
      RunEndIsMaximal(cc, s, i + 1);
      ParsedGroupsAreGroups(sep, cc, s, j);
      assert IsGroup(cc, s[i + 1..j]);
      var groups := ParseGroups(sep, cc, s, j).0;
      assert ([s[i + 1..j]] + groups)[1..] == groups;
    }
  }

  lemma PrintFirstGroup(sep: char, group: string, groups: seq<string>, rest: string)
    ensures PrintGroups(sep, [group] + groups, rest) == [sep] + (group + PrintGroups(sep, groups, rest))
  {
  }

  lemma CutTwice(s: string, i: nat, j: nat)
    requires i < j <= |s|
    ensures s[i..] == [s[i]] + (s[i + 1..j] + s[j..])
  {
  }

  lemma {:induction false} PrintParsedGroups(sep: char, cc: CharClass, s: string, i: nat)
    requires i <= |s|
    ensures var (groups, end) := ParseGroups(sep, cc, s, i);
            PrintGroups(sep, groups, s[end..]) == s[i..]
    decreases |s| - i
  {
    if i + 1 < |s| && s[i] == sep && InClass(s[i + 1], cc) {
      var j := RunEnd(cc, s, i + 1);
      var (groups, end) := ParseGroups(sep, cc, s, j);
      PrintParsedGroups(sep, cc, s, j);
      PrintFirstGroup(sep, s[i + 1..j], groups, s[end..]);
      CutTwice(s, i, j);
    }
  }

  lemma SliceAfter(s: string, i: nat, c: char, group: string, rest: string)
    requires i <= |s| && s[i..] == [c] + (group + rest)
    ensures i + 1 + |group| + |rest| == |s|
    ensures s[i] == c && s[i + 1..i + 1 + |group|] == group && s[i + 1 + |group|..] == rest
  {
  }

  lemma RunEndOfGroup(cc: CharClass, s: string, i: nat, group: string, rest: string)
    requires IsGroup(cc, group)
    requires i + |group| <= |s| && s[i..i + |group|] == group && s[i + |group|..] == rest
    requires rest == "" || !InClass(rest[0], cc)
    ensures RunEnd(cc, s, i) == i + |group|
    ensures i < |s| && InClass(s[i], cc)
  {
    RunEndIsMaximal(cc, s, i);
    var j := i + |group|;
    assert forall k :: i <= k < j ==> s[k] == group[k - i];
    assert rest != "" ==> s[j] == rest[0];
  }

  lemma ParseFirstGroup(sep: char, cc: CharClass, s: string, i: nat, group: string, rest: string)
    requires i <= |s| && s[i..] == [sep] + (group + rest)
    requires IsGroup(cc, group) && (rest == "" || !InClass(rest[0], cc))
    ensures i + 1 + |group| <= |s| && s[i + 1 + |group|..] == rest
    ensures var (groups, end) := ParseGroups(sep, cc, s, i + 1 + |group|);
            ParseGroups(sep, cc, s, i) == ([group] + groups, end)
  {
    SliceAfter(s, i, sep, group, rest);
    RunEndOfGroup(cc, s, i + 1, group, rest);
  }

  lemma ParseNothing(sep: char, cc: CharClass, s: string, i: nat, rest: string)
    requires i <= |s| && s[i..] == rest && (rest == "" || rest[0] != sep)
    ensures ParseGroups(sep, cc, s, i) == ([], |s| - |rest|)
  {
  }

  lemma FirstAndRest(groups: seq<string>)
    requires groups != []
    ensures groups == [groups[0]] + groups[1..]
  {
  }

  lemma TailStops(sep: char, cc: CharClass, groups: seq<string>, rest: string)
    requires !InClass(sep, cc) && (rest == "" || !InClass(rest[0], cc))
    ensures var tail := PrintGroups(sep, groups, rest); tail == "" || !InClass(tail[0], cc)
  {
  }

  lemma {:induction false} ParsePrintedGroups(
      sep: char, cc: CharClass, s: string, i: nat, groups: seq<string>, rest: string)
    requires i <= |s| && s[i..] == PrintGroups(sep, groups, rest)
    requires AreGroups(cc, groups) && !InClass(sep, cc)
    requires rest == "" || (rest[0] != sep && !InClass(rest[0], cc))
    ensures ParseGroups(sep, cc, s, i) == (groups, |s| - |rest|)
    decreases |groups|
  {
    if groups == [] {
      ParseNothing(sep, cc, s, i, rest);
    } else {
      var group, tail := groups[0], PrintGroups(sep, groups[1..], rest);
      TailStops(sep, cc, groups[1..], rest);
      ParseFirstGroup(sep, cc, s, i, group, tail);
      ParsePrintedGroups(sep, cc, s, i + 1 + |group|, groups[1..], rest);
      FirstAndRest(groups);
    }
  }

  lemma HeadSplits(h: string)
    requires MatchesFixed(HEAD, h)
    ensures h == PrintHead(h[4..8], h[9..11])
    ensures MatchesFixed([Digit, Digit, Digit, Digit], h[4..8]) && MatchesFixed([Digit, Digit], h[9..11])
  {
  }

  /** The fixed-length head is built from its year and month, and gives them back. */
  lemma HeadJoins(year: string, month: string)
    requires |year| == 4 && |month| == 2
    ensures var h := PrintHead(year, month);
            |h| == 11 && h[..4] == "nqn." && h[4..8] == year && h[8] == '-' && h[9..11] == month
  {
  }

  lemma HeadMatches(year: string, month: string)
    requires MatchesFixed([Digit, Digit, Digit, Digit], year) && MatchesFixed([Digit, Digit], month)
    ensures MatchesFixed(HEAD, PrintHead(year, month))
  {
    var h := PrintHead(year, month);
    HeadJoins(year, month);
    assert h[0] == h[..4][0] && h[1] == h[..4][1] && h[2] == h[..4][2] && h[3] == h[..4][3];
    assert h[4] == year[0] && h[5] == year[1] && h[6] == year[2] && h[7] == year[3];
    assert h[9] == month[0] && h[10] == month[1];
  }

  lemma SlicesOfHead(h: string, tail: string)
    requires |h| == 11
    ensures var s := h + tail;
            s[..11] == h && s[11..] == tail && s[4..8] == h[4..8] && s[9..11] == h[9..11]
  {
  }

  lemma PrintedHead(t: Tree)
    requires IsTree(t)
    ensures var s := Print(t);
            && |s| >= 11 && MatchesFixed(HEAD, s[..11])
            && s[4..8] == t.year && s[9..11] == t.month
            && s[11..] == PrintGroups('.', t.labels, PrintGroups(':', t.parts, ""))
  {
    HeadJoins(t.year, t.month);
    HeadMatches(t.year, t.month);
    SlicesOfHead(PrintHead(t.year, t.month), PrintGroups('.', t.labels, PrintGroups(':', t.parts, "")));
  }

  /** Printing then parsing is the identity on trees, so no accepted string has two splits. */
  lemma ParsePrint(t: Tree)
    requires IsTree(t)
    ensures Parse(Print(t)) == Some(t)
  {
    var s := Print(t);
    var tail := PrintGroups(':', t.parts, "");
    PrintedHead(t);
    ParsePrintedGroups('.', Alnum, s, 11, t.labels, tail);
    PrintGroupsAppends('.', t.labels, tail);
    ParsePrintedGroups(':', AlnumDashDot, s, |s| - |tail|, t.parts, "");
  }

  /** Parsing then printing is the identity on accepted strings. */
  lemma PrintParse(s: string)
    requires Parse(s).Some?
    ensures IsTree(Parse(s).value)
    ensures Print(Parse(s).value) == s
  {
    var h := s[..11];
    HeadSplits(h);
    assert s[4..8] == h[4..8] && s[9..11] == h[9..11];
    assert s == h + s[11..];
    var (labels, i) := ParseGroups('.', Alnum, s, 11);
    PrintParsedGroups('.', Alnum, s, 11);
    PrintParsedGroups(':', AlnumDashDot, s, i);
    ParsedGroupsAreGroups('.', Alnum, s, 11);
    ParsedGroupsAreGroups(':', AlnumDashDot, s, i);
  }

  /** Every accepted string splits into year, month, labels and parts in exactly one way. */
  lemma Unambiguous(t: Tree, u: Tree)
    requires IsTree(t) && IsTree(u) && Print(t) == Print(u)
    ensures t == u
  {
    ParsePrint(t);
    ParsePrint(u);
  }

  // ---------------------------------------------------------------- scanner agrees with parser

  lemma {:induction false} DeadRejects(s: string, i: nat)
    requires i <= |s|
    ensures !Scan(Dead, s, i)
    decreases |s| - i
  {
    if i < |s| { DeadRejects(s, i + 1); }
  }

  /** The colon groups from position i on reach the end of s. */
  predicate PartsReachEnd(s: string, i: nat)
    requires i <= |s|
  {
    ParseGroups(':', AlnumDashDot, s, i).1 == |s|
  }

  lemma {:induction false} ScanParts(s: string, i: nat)
    requires i <= |s|
    ensures Scan(InPart, s, i) <==> PartsReachEnd(s, RunEnd(AlnumDashDot, s, i))
    decreases |s| - i
  {
    if i < |s| {
      DeadRejects(s, i + 1);
      if InClass(s[i], AlnumDashDot) {
        ScanParts(s, i + 1);
      } else if s[i] == ':' && i + 1 < |s| {
        ScanPartStart(s, i);
      }
    }
  }

  lemma {:induction false} ScanPartStart(s: string, i: nat)
    requires i + 1 < |s| && s[i] == ':'
    ensures Scan(ColonStart, s, i + 1) <==> InClass(s[i + 1], AlnumDashDot) && PartsReachEnd(s, i)
    decreases |s| - i - 1
  {
    DeadRejects(s, i + 2);
    if InClass(s[i + 1], AlnumDashDot) { ScanParts(s, i + 2); }
  }

  /** Label groups from position i on, then at least one colon group, and nothing behind. */
  predicate ParsesTail(s: string, i: nat)
    requires i <= |s|
  {
    var (labels, j) := ParseGroups('.', Alnum, s, i);
    ParseGroups(':', AlnumDashDot, s, j).0 != [] && PartsReachEnd(s, j)
  }

  lemma {:induction false} ScanLabels(s: string, i: nat)
    requires i <= |s|
    ensures Scan(InLabel, s, i) <==> ParsesTail(s, RunEnd(Alnum, s, i))
    decreases |s| - i
  {
    if i < |s| {
      DeadRejects(s, i + 1);
      if IsAlnum(s[i]) {
        ScanLabels(s, i + 1);
      } else if s[i] == '.' && i + 1 < |s| {
        ScanLabelStart(s, i);
      } else if s[i] == ':' && i + 1 < |s| {
        ScanPartStart(s, i);
      }
    }
  }

  lemma {:induction false} ScanLabelStart(s: string, i: nat)
    requires i + 1 < |s| && s[i] == '.'
    ensures Scan(DotStart, s, i + 1) <==> IsAlnum(s[i + 1]) && ParsesTail(s, i)
    decreases |s| - i - 1
  {
    DeadRejects(s, i + 2);
    if IsAlnum(s[i + 1]) { ScanLabels(s, i + 2); }
  }

  lemma {:induction false} ScanHead(s: string, n: nat)
    requires n <= 11 && n <= |s|
    ensures Scan(Head(n), s, n) <==>
            |s| >= 11 && (forall k :: n <= k < 11 ==> InClass(s[k], HEAD[k])) && Scan(Head(11), s, 11)
    decreases 11 - n
  {
    if n < 11 && n < |s| {
      ScanHead(s, n + 1);
      DeadRejects(s, n + 1);
    }
  }

  /** The single-pass scan and the parser accept the same strings. */
  lemma ScanAgreesWithParse(s: string)
    ensures IsNqn(s) <==> Parse(s).Some?
  {
    ScanHead(s, 0);
    if |s| >= 11 {
      assert (forall k :: 0 <= k < 11 ==> InClass(s[k], HEAD[k])) <==> MatchesFixed(HEAD, s[..11]);
      if |s| > 11 {
        DeadRejects(s, 12);
        if s[11] == '.' && |s| > 12 { ScanLabelStart(s, 11); }
      }
    }
  }

  // ---------------------------------------------------------------- parser agrees with the regex

  lemma {:induction false} RunMatches(cc: CharClass, s: string)
    ensures Matches(Plus(Fixed([cc])), s) <==> IsGroup(cc, s)
    decreases |s|
  {
    var r := Plus(Fixed([cc]));
    forall i | 0 < i < |s| ensures Matches(r, s[i..]) <==> IsGroup(cc, s[i..]) {
      RunMatches(cc, s[i..]);
    }
    if IsGroup(cc, s) && |s| > 1 {
      assert MatchesFixed([cc], s[..1]);
      assert Matches(r, s[1..]);
    }
    if i :| 0 < i < |s| && Matches(Fixed([cc]), s[..i]) && Matches(r, s[i..]) {
      assert s == s[..i] + s[i..];
      assert forall k :: 1 <= k < |s| ==> s[k] == s[i..][k - 1];
      assert s[0] == s[..i][0];
    }
  }

  lemma OneGroupMatches(sep: char, cc: CharClass, s: string)
    ensures Matches(Cat(Fixed([Exactly(sep)]), Plus(Fixed([cc]))), s) <==>
            |s| > 0 && s[0] == sep && IsGroup(cc, s[1..])
  {
    if |s| > 0 {
      RunMatches(cc, s[1..]);
      if s[0] == sep && IsGroup(cc, s[1..]) {
        assert MatchesFixed([Exactly(sep)], s[..1]);
      }
    }
  }

  lemma {:induction false} MatchedGroups(sep: char, cc: CharClass, s: string) returns (groups: seq<string>)
    requires Matches(Repeated(sep, cc), s)
    ensures groups != [] && AreGroups(cc, groups) && s == PrintGroups(sep, groups, "")
    decreases |s|
  {
    var r := Repeated(sep, cc);
    OneGroupMatches(sep, cc, s);
    if Matches(r.body, s) {
      groups := [s[1..]];
      assert s == [sep] + (s[1..] + "");
    } else {
      var i :| 0 < i < |s| && Matches(r.body, s[..i]) && Matches(r, s[i..]);
      OneGroupMatches(sep, cc, s[..i]);
      var rest := MatchedGroups(sep, cc, s[i..]);
      var g := s[..i][1..];
      groups := [g] + rest;
      assert groups[1..] == rest;
      assert s == [sep] + (g + s[i..]);
    }
  }

  lemma {:induction false} PrintedGroupsMatch(sep: char, cc: CharClass, groups: seq<string>)
    requires groups != [] && AreGroups(cc, groups)
    ensures Matches(Repeated(sep, cc), PrintGroups(sep, groups, ""))
  {
    var s := PrintGroups(sep, groups, "");
    var first := [sep] + groups[0];
    assert first[1..] == groups[0];
    OneGroupMatches(sep, cc, first);
    if |groups| == 1 {
      assert s == first;
    } else {
      PrintedGroupsMatch(sep, cc, groups[1..]);
      assert s[..|first|] == first && s[|first|..] == PrintGroups(sep, groups[1..], "");
    }
  }

  lemma MatchedTail(tail: string) returns (labels: seq<string>, parts: seq<string>)
    requires Matches(NQN_REGEX.right, tail)
    ensures labels != [] && AreGroups(Alnum, labels)
    ensures parts != [] && AreGroups(AlnumDashDot, parts)
    ensures tail == PrintGroups('.', labels, PrintGroups(':', parts, ""))
  {
    var j :| 0 <= j <= |tail| && Matches(NQN_REGEX.right.left, tail[..j])
             && Matches(NQN_REGEX.right.right, tail[j..]);
    labels := MatchedGroups('.', Alnum, tail[..j]);
    parts := MatchedGroups(':', AlnumDashDot, tail[j..]);
    PrintGroupsAppends('.', labels, tail[j..]);
    assert tail == tail[..j] + tail[j..];
  }

  lemma MatchedTree(s: string) returns (t: Tree)
    requires Matches(NQN_REGEX, s)
    ensures IsTree(t) && Print(t) == s
  {
    var i :| 0 <= i <= |s| && Matches(NQN_REGEX.left, s[..i]) && Matches(NQN_REGEX.right, s[i..]);
    var h := s[..i];
    var labels, parts := MatchedTail(s[i..]);
    HeadSplits(h);
    t := Tree(h[4..8], h[9..11], labels, parts);
    assert s == h + s[i..];
  }

  lemma PrintedTreeMatches(t: Tree)
    requires IsTree(t)
    ensures Matches(NQN_REGEX, Print(t))
  {
    var head := PrintHead(t.year, t.month);
    var l, p := PrintGroups('.', t.labels, ""), PrintGroups(':', t.parts, "");
    PrintGroupsAppends('.', t.labels, p);
    PrintedGroupsMatch('.', Alnum, t.labels);
    PrintedGroupsMatch(':', AlnumDashDot, t.parts);
    CatMatches(NQN_REGEX.right, l, p);
    HeadMatches(t.year, t.month);
    CatMatches(NQN_REGEX, head, l + p);
  }

  lemma CatMatches(r: Regex, s: string, t: string)
    requires r.Cat? && Matches(r.left, s) && Matches(r.right, t)
    ensures Matches(r, s + t)
  {
    assert (s + t)[..|s|] == s && (s + t)[|s|..] == t;
  }

  /** The strings accepted are exactly the language of the regular expression. */
  lemma ScanDecidesRegex(s: string)
    ensures IsNqn(s) <==> Matches(NQN_REGEX, s)
  {
    ScanAgreesWithParse(s);
    if Matches(NQN_REGEX, s) {
      var t := MatchedTree(s);
      ParsePrint(t);
    }
    if Parse(s).Some? {
      PrintParse(s);
      PrintedTreeMatches(Parse(s).value);
    }
  }

  // ---------------------------------------------------------------- length bounds

  lemma {:induction false} GroupsLength(sep: char, cc: CharClass, groups: seq<string>, rest: string)
    requires AreGroups(cc, groups)
    ensures |PrintGroups(sep, groups, rest)| >= 2 * |groups| + |rest|
  {
    if groups != [] { GroupsLength(sep, cc, groups[1..], rest); }
  }

  /** An accepted NQN has at least 15 characters; 223 characters leave room for 106 groups. */
  lemma NqnBounds(s: string)
    requires IsNqn(s)
    ensures |s| >= 15
    ensures Parse(s).Some?
    ensures |s| <= 223 ==> |Parse(s).value.labels| + |Parse(s).value.parts| <= 106
  {
    ScanAgreesWithParse(s);
    PrintParse(s);
    var t := Parse(s).value;
    GroupsLength('.', Alnum, t.labels, PrintGroups(':', t.parts, ""));
    GroupsLength(':', AlnumDashDot, t.parts, "");
  }
}
