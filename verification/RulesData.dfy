/**
 The rules of a layout: merging them into one expression, finding out which rule
 matched, transforming and predicting.
 */
module RulesData {
  import opened Options
  import opened Regex
  import opened Captures
  import opened Prefixalize
  import opened PatternText

  // A replacement template: text and references \1, \2, ... to groups.
  datatype Piece = Text(s: string) | Ref(n: nat)
  datatype Rule = Rule(from: Re, to: seq<Piece>)

  const DELIMITER := '\U{1D}'

  // ----- what RE2 is relied on for -----

  datatype Match = Match(start: nat, end: nat, caps: Caps)

  // An unanchored search, and a full match.
  datatype Re2 = Re2(search: (Re, string) -> Option<Match>, fullMatch: (Re, string) -> bool)

  ghost predicate NoMatchBefore(r: Re, s: string, n: nat) {
    forall i: nat, j: nat :: i < n ==> !M(r, s, i, j)
  }

  function Shift(m: Option<Match>, d: nat): Option<Match> {
    match m
    case None => None
    case Some(x) => Some(Match(x.start + d, x.end + d, ShiftCaps(x.caps, d)))
  }

  // The search finds a leftmost match if there is any, and prefers the first alternative that matches there.
  ghost predicate Finds(search: (Re, string) -> Option<Match>, r: Re, s: string) {
    match search(r, s)
    case None => NoMatchBefore(r, s, |s| + 1)
    case Some(m) => m.end <= |s| && Preferred(r, s, m.start, m.end, 1, m.caps) && NoMatchBefore(r, s, m.start)
  }

  // Without `^`, nothing before the first possible start influences the search.
  ghost predicate Forward(search: (Re, string) -> Option<Match>, r: Re, p: string, s: string) {
    BeginFree(r) && NoMatchBefore(r, p + s, |p|) ==> search(r, p + s) == Shift(search(r, s), |p|)
  }

  ghost predicate IsRe2(re2: Re2) {
    && (forall r, s :: Finds(re2.search, r, s))
    && (forall r, p, s :: Forward(re2.search, r, p, s))
    && (forall r, s :: re2.fullMatch(r, s) <==> Matches(r, s))
  }

  // ----- merging the rules -----

  // The tree of `from + "$"`: the anchor belongs to the last top-level alternative only.
  function AppendEnd(r: Re): Re {
    match r
    case Alt(a, b) => Alt(a, AppendEnd(b))
    case _ => Cat(r, End)
  }

  lemma {:induction false} AppendEndText(r: Re)
    ensures Print(AppendEnd(r)) == Print(r) + "$" && Groups(AppendEnd(r)) == Groups(r)
  {
    match r
    case Alt(a, b) =>
      AppendEndText(b);
      assert Print(a) + "|" + (Print(b) + "$") == Print(a) + "|" + Print(b) + "$";
    case _ =>
      assert Print(Cat(r, End)) == Print(r) + "$";
  }

  function Merged(rules: seq<Rule>): Re
    requires rules != []
  {
    var first := Group(AppendEnd(rules[0].from));
    if |rules| == 1 then first else Alt(first, Merged(rules[1..]))
  }

  function MergedPrefix(rules: seq<Rule>): Re
    requires rules != []
  {
    var first := Expand(rules[0].from);
    if |rules| == 1 then first else Alt(first, MergedPrefix(rules[1..]))
  }

  // The number of the outer group of rule `i`.
  function Key(rules: seq<Rule>, i: nat): (k: nat)
    requires i <= |rules|
    ensures k > i
  {
    if i == 0 then 1 else Key(rules, i - 1) + Groups(rules[i - 1].from) + 1
  }

  const UINT16 := 0x1_0000

  // transform_rules_: uint16_t keys, later rules overwrite earlier ones.
  function RuleMap(rules: seq<Rule>, n: nat): map<nat, Rule>
    requires n <= |rules|
  {
    if n == 0 then map[] else RuleMap(rules, n - 1)[Key(rules, n - 1) % UINT16 := rules[n - 1]]
  }

  ghost predicate AllSource(rules: seq<Rule>) {
    forall i :: 0 <= i < |rules| ==> IsSource(rules[i].from)
  }

  // The texts the loop builds, each rule followed by '|'.
  function TransText(rules: seq<Rule>, n: nat): string
    requires n <= |rules|
  {
    if n == 0 then "" else TransText(rules, n - 1) + TransOf(rules[n - 1])
  }

  function PrefixText(rules: seq<Rule>, n: nat): string
    requires n <= |rules|
  {
    if n == 0 then "" else PrefixText(rules, n - 1) + PrefixOf(rules[n - 1])
  }

  // The loop of ParseTransforms, on the texts of the patterns.
  method ParseTransforms(rules: seq<Rule>) returns (reMap: map<nat, Rule>, allTrans: string, allPrefixes: string)
    requires rules != [] && AllSource(rules)
    ensures reMap == RuleMap(rules, |rules|)
    ensures allTrans == Print(Merged(rules))
    ensures allPrefixes == Print(MergedPrefix(rules))
  {
    hide Print, Expand, PatternText.Run, AppendEnd, Groups, IsSource, Merged, MergedPrefix;
    reMap := map[];
    allTrans, allPrefixes := "", "";
    var sumOfGroups := 1;
    for i := 0 to |rules|
      invariant sumOfGroups == Key(rules, i) % UINT16
      invariant reMap == RuleMap(rules, i)
      invariant allTrans == TransText(rules, i)
      invariant allPrefixes == PrefixText(rules, i)
    {
      var from := Print(rules[i].from);
      var groupCount := Groups(AppendEnd(rules[i].from));
      AppendEndText(rules[i].from);
      allTrans := allTrans + ("(" + from + "$)|");
      var prefix := PrefixalizeText(from);
      PrefixalizeIsExpansion(rules[i].from);
      allPrefixes := allPrefixes + (prefix + "|");
      reMap := reMap[sumOfGroups := rules[i]];
      sumOfGroups := (sumOfGroups + groupCount + 1) % UINT16;
    }
    MergedTexts(rules);
    allTrans := allTrans[..|allTrans| - 1];
    allPrefixes := allPrefixes[..|allPrefixes| - 1];
  }

  // The contribution of one rule.
  function TransOf(rule: Rule): string {
    "(" + Print(rule.from) + "$)|"
  }

  function PrefixOf(rule: Rule): string {
    Print(Expand(rule.from)) + "|"
  }

  lemma {:induction false} TextsFromFront(rules: seq<Rule>, n: nat)
    requires 0 < n <= |rules|
    ensures TransText(rules, n) == TransOf(rules[0]) + TransText(rules[1..], n - 1)
    ensures PrefixText(rules, n) == PrefixOf(rules[0]) + PrefixText(rules[1..], n - 1)
  {
    hide TransOf, PrefixOf;
    if n > 1 {
      TextsFromFront(rules, n - 1);
      assert rules[1..][n - 2] == rules[n - 1];
    }
  }

  // Cutting the last '|' leaves the text of the merged expressions.
  lemma {:induction false} MergedTexts(rules: seq<Rule>)
    requires rules != []
    ensures TransText(rules, |rules|) == Print(Merged(rules)) + "|"
    ensures PrefixText(rules, |rules|) == Print(MergedPrefix(rules)) + "|"
  {
    hide TransOf, PrefixOf, Print, Merged, MergedPrefix;
    TextsFromFront(rules, |rules|);
    MergedTransStep(rules);
    MergedPrefixStep(rules);
    if |rules| > 1 {
      MergedTexts(rules[1..]);
      assert TransOf(rules[0]) + (Print(Merged(rules[1..])) + "|")
          == TransOf(rules[0]) + Print(Merged(rules[1..])) + "|";
      assert PrefixOf(rules[0]) + (Print(MergedPrefix(rules[1..])) + "|")
          == PrefixOf(rules[0]) + Print(MergedPrefix(rules[1..])) + "|";
    } else {
      assert TransText(rules[1..], 0) == "" && PrefixText(rules[1..], 0) == "";
    }
  }

  lemma AlternativeText(rule: Rule)
    ensures Print(Group(AppendEnd(rule.from))) + "|" == TransOf(rule)
  {
    AppendEndText(rule.from);
    var p := Print(rule.from);
    assert Print(Group(AppendEnd(rule.from))) == "(" + (p + "$") + ")";
    assert "(" + (p + "$") + ")" + "|" == "(" + p + "$)|";
  }

  lemma MergedTransStep(rules: seq<Rule>)
    requires rules != []
    ensures if |rules| == 1 then Print(Merged(rules)) + "|" == TransOf(rules[0])
            else Print(Merged(rules)) == TransOf(rules[0]) + Print(Merged(rules[1..]))
  {
    hide TransOf, AppendEnd, Print;
    AlternativeText(rules[0]);
    if |rules| > 1 {
      AltText(Group(AppendEnd(rules[0].from)), Merged(rules[1..]));
    }
  }

  lemma AltText(a: Re, b: Re)
    ensures Print(Alt(a, b)) == Print(a) + "|" + Print(b)
  {
  }

  lemma MergedPrefixStep(rules: seq<Rule>)
    requires rules != []
    ensures if |rules| == 1 then Print(MergedPrefix(rules)) + "|" == PrefixOf(rules[0])
            else Print(MergedPrefix(rules)) == PrefixOf(rules[0]) + Print(MergedPrefix(rules[1..]))
  {
    hide Expand, Print;
    if |rules| > 1 {
      AltText(Expand(rules[0].from), MergedPrefix(rules[1..]));
    }
  }

  // Neither the appended anchor nor the merging disturbs the grouping.
  lemma {:induction false} AppendEndReadsBack(r: Re)
    requires ReadsBack(r)
    ensures ReadsBack(AppendEnd(r))
  {
    match r
    case Alt(a, b) => AppendEndReadsBack(b);
    case _ => assert AppendEnd(r) == Cat(r, End);
  }

  lemma {:induction false} MergedReadsBack(rules: seq<Rule>)
    requires rules != [] && forall k :: 0 <= k < |rules| ==> ReadsBack(rules[k].from)
    ensures ReadsBack(Merged(rules)) && ReadsBack(MergedPrefix(rules))
  {
    AppendEndReadsBack(rules[0].from);
    ExpansionReadsBack(rules[0].from);
    if |rules| > 1 {
      MergedReadsBack(rules[1..]);
    }
  }

  // ----- which rule matched -----

  lemma {:induction false} KeyFromFront(rules: seq<Rule>, i: nat)
    requires 0 < i <= |rules|
    ensures Key(rules, i) == Groups(rules[0].from) + 1 + Key(rules[1..], i - 1)
  {
    if i > 1 {
      KeyFromFront(rules, i - 1);
      assert rules[1..][i - 2] == rules[i - 1];
    }
  }

  lemma {:induction false} MergedGroups(rules: seq<Rule>)
    requires rules != []
    ensures Groups(Merged(rules)) == Key(rules, |rules|) - 1
  {
    AppendEndText(rules[0].from);
    KeyFromFront(rules, |rules|);
    if |rules| > 1 {
      MergedGroups(rules[1..]);
    }
  }

  lemma EitherAlternative(a: Re, b: Re, s: string, i: nat, j: nat, g: nat, caps: Caps)
    requires MC(Alt(a, b), s, i, j, g, caps)
    ensures MC(a, s, i, j, g, caps) || MC(b, s, i, j, g + Groups(a), caps)
  {
  }

  lemma OuterGroups(r: Re)
    ensures Groups(Group(AppendEnd(r))) == Groups(r) + 1
  {
    AppendEndText(r);
  }

  // A match of the merged expression is a match of one alternative, numbered from its key.
  lemma {:induction false} OneAlternative(rules: seq<Rule>, s: string, i: nat, j: nat, g: nat, caps: Caps)
    returns (k: nat)
    requires rules != [] && g > 0 && MC(Merged(rules), s, i, j, g, caps)
    ensures k < |rules| && MC(Group(AppendEnd(rules[k].from)), s, i, j, g + Key(rules, k) - 1, caps)
  {
    hide AppendEnd, MC, Groups;
    var first := Group(AppendEnd(rules[0].from));
    k := 0;
    if |rules| > 1 {
      EitherAlternative(first, Merged(rules[1..]), s, i, j, g, caps);
      if !MC(first, s, i, j, g, caps) {
        OuterGroups(rules[0].from);
        var rest := OneAlternative(rules[1..], s, i, j, g + Groups(first), caps);
        k := rest + 1;
        KeyFromFront(rules, k);
        assert rules[1..][rest] == rules[k];
      }
    }
  }

  lemma {:induction false} KeysGrow(rules: seq<Rule>, a: nat, b: nat)
    requires a <= b <= |rules|
    ensures Key(rules, a) + (b - a) <= Key(rules, b)
  {
    if a < b {
      KeysGrow(rules, a, b - 1);
    }
  }

  lemma {:induction false} MapFindsRule(rules: seq<Rule>, n: nat, k: nat)
    requires k < n <= |rules| && Key(rules, n) <= UINT16
    ensures var m := RuleMap(rules, n); Key(rules, k) in m && m[Key(rules, k)] == rules[k]
  {
    hide Key;
    KeysGrow(rules, k, n - 1);
    KeysGrow(rules, n - 1, n);
    if k < n - 1 {
      MapFindsRule(rules, n - 1, k);
    }
  }

  // The scan over the submatch array: it has nmatch entries, so group nmatch itself is never seen.
  function FirstSet(caps: Caps, pos: nat, nmatch: nat): nat
    decreases nmatch - pos
  {
    if pos < nmatch && pos !in caps then FirstSet(caps, pos + 1, nmatch) else pos
  }

  method FindGroup(caps: Caps, nmatch: nat) returns (pos: nat)
    ensures pos == FirstSet(caps, 1, nmatch)
  {
    pos := 1;
    while pos < nmatch && pos !in caps
      invariant FirstSet(caps, 1, nmatch) == FirstSet(caps, pos, nmatch)
      decreases nmatch - pos
    {
      pos := pos + 1;
    }
  }

  lemma {:induction false} FirstSetIs(caps: Caps, pos: nat, key: nat, nmatch: nat)
    requires pos <= key <= nmatch && (key in caps || key == nmatch)
    requires forall q :: pos <= q < key ==> q !in caps
    ensures FirstSet(caps, pos, nmatch) == key
    decreases key - pos
  {
    if pos < key {
      FirstSetIs(caps, pos + 1, key, nmatch);
    }
  }

  // Of the alternatives that match there, the first is taken.
  lemma {:induction false} FirstAlternative(rules: seq<Rule>, s: string, i: nat, j: nat, g: nat, caps: Caps)
    returns (k: nat)
    requires rules != [] && g > 0 && Preferred(Merged(rules), s, i, j, g, caps)
    ensures k < |rules| && MC(Group(AppendEnd(rules[k].from)), s, i, j, g + Key(rules, k) - 1, caps)
    ensures forall q :: 0 <= q < k ==> !StartsAt(AppendEnd(rules[q].from), s, i)
  {
    hide AppendEnd, MC, Groups;
    var first := Group(AppendEnd(rules[0].from));
    k := 0;
    GroupStarts(AppendEnd(rules[0].from), s, i);
    if |rules| > 1 && !StartsAt(first, s, i) {
      OuterGroups(rules[0].from);
      var rest := FirstAlternative(rules[1..], s, i, j, g + Groups(first), caps);
      k := rest + 1;
      KeyFromFront(rules, k);
      assert rules[1..][rest] == rules[k];
      forall q | 0 <= q < k ensures !StartsAt(AppendEnd(rules[q].from), s, i) {
        assert q > 0 ==> rules[1..][q - 1] == rules[q];
      }
    }
  }

  lemma GroupStarts(r: Re, s: string, i: nat)
    ensures StartsAt(Group(r), s, i) <==> StartsAt(r, s, i)
  {
    forall j: nat ensures M(Group(r), s, i, j) <==> M(r, s, i, j) {
    }
  }

  // If alternative `k` matched, the scan ends at its key, and the map has its rule.
  lemma DispatchOf(rules: seq<Rule>, s: string, i: nat, j: nat, caps: Caps, k: nat)
    requires k < |rules| && Groups(Merged(rules)) < UINT16
    requires MC(Group(AppendEnd(rules[k].from)), s, i, j, Key(rules, k), caps)
    ensures FirstSet(caps, 1, Groups(Merged(rules))) == Key(rules, k)
    ensures var m := RuleMap(rules, |rules|); Key(rules, k) in m && m[Key(rules, k)] == rules[k]
  {
    hide Merged, AppendEnd, RuleMap;
    var key := Key(rules, k);
    AppendEndText(rules[k].from);
    CapturesInRange(Group(AppendEnd(rules[k].from)), s, i, j, key, caps);
    MergedGroups(rules);
    KeysGrow(rules, k + 1, |rules|);
    FirstSetIs(caps, 1, key, Groups(Merged(rules)));
    MapFindsRule(rules, |rules|, k);
  }

  // Whatever match RE2 reports, the scan ends at the key of the alternative that matched, and the map has its rule;
  // also for the last rule, whose group may be the one the array cannot hold.
  lemma DispatchIsExact(rules: seq<Rule>, s: string, i: nat, j: nat, caps: Caps) returns (k: nat)
    requires rules != [] && Groups(Merged(rules)) < UINT16
    requires MC(Merged(rules), s, i, j, 1, caps)
    ensures k < |rules| && MC(Group(AppendEnd(rules[k].from)), s, i, j, Key(rules, k), caps)
    ensures FirstSet(caps, 1, Groups(Merged(rules))) == Key(rules, k)
    ensures var m := RuleMap(rules, |rules|); Key(rules, k) in m && m[Key(rules, k)] == rules[k]
  {
    hide Merged, AppendEnd, RuleMap;
    k := OneAlternative(rules, s, i, j, 1, caps);
    DispatchOf(rules, s, i, j, caps, k);
  }

  // ----- predicting -----

  // The context with the delimiter at the position of the last transform.
  function Annotated(s: string, transat: int): string
    requires transat <= |s|
  {
    if transat > 0 then s[..transat] + [DELIMITER] + s[transat..] else s
  }

  // A suffix of more than `n` characters does.
  ghost predicate SuffixPredicts(rules: seq<Rule>, s: string, n: nat)
    requires rules != []
  {
    exists p :: 0 <= p < |s| - n && Matches(MergedPrefix(rules), s[p..])
  }

  // PredictTransform: some nonempty suffix of the annotated text fully matches the prefix expression.
  ghost predicate Predicts(rules: seq<Rule>, s: string, transat: int)
    requires transat <= |s|
  {
    rules != [] && SuffixPredicts(rules, Annotated(s, transat), 0)
  }

  method PredictTransform(re2: Re2, rules: seq<Rule>, str: string, transat: int) returns (r: bool)
    requires IsRe2(re2) && transat <= |str|
    ensures r <==> Predicts(rules, str, transat)
  {
    if rules == [] {
      return false;
    }
    var s := Annotated(str, transat);
    var len := |s|;
    var prefixRe := MergedPrefix(rules);
    for i := 0 to len
      invariant SuffixPredicts(rules, s, 0) <==> SuffixPredicts(rules, s, i)
    {
      var suffix := s[len - i - 1..];
      if re2.fullMatch(prefixRe, suffix) {
        assert 0 <= len - i - 1 < |s| - 0 && Matches(MergedPrefix(rules), s[len - i - 1..]);
        return true;
      }
    }
    return false;
  }

  lemma {:induction false} PrefixAlternatives(rules: seq<Rule>, s: string)
    requires rules != []
    ensures Matches(MergedPrefix(rules), s) <==> exists k :: 0 <= k < |rules| && Matches(Expand(rules[k].from), s)
  {
    if |rules| > 1 {
      PrefixAlternatives(rules[1..], s);
      if exists k :: 0 <= k < |rules| && Matches(Expand(rules[k].from), s) {
        var k :| 0 <= k < |rules| && Matches(Expand(rules[k].from), s);
        if k > 0 {
          assert Matches(Expand(rules[1..][k - 1].from), s);
        }
      }
    }
  }

  ghost predicate AllPredictable(rules: seq<Rule>) {
    forall k :: 0 <= k < |rules| ==> Leading(rules[k].from) && DotsAreOptional(rules[k].from)
  }

  // Some nonempty suffix of `s` begins a match of some rule.
  ghost predicate BeginsMatch(rules: seq<Rule>, s: string) {
    exists p :: 0 <= p < |s| && SomeRuleBegins(rules, s[p..])
  }

  lemma PredictionIsExact(rules: seq<Rule>, s: string, transat: int)
    requires AllPredictable(rules) && transat <= |s|
    ensures Predicts(rules, s, transat) <==> BeginsMatch(rules, Annotated(s, transat))
  {
    var a := Annotated(s, transat);
    if rules != [] {
      forall p | 0 <= p < |a|
        ensures Matches(MergedPrefix(rules), a[p..]) <==> SomeRuleBegins(rules, a[p..])
      {
        PredictionOfSuffix(rules, a[p..]);
      }
    }
  }

  ghost predicate SomeRuleBegins(rules: seq<Rule>, s: string) {
    exists k :: 0 <= k < |rules| && IsPrefixOfMatch(rules[k].from, s)
  }

  lemma PredictionOfSuffix(rules: seq<Rule>, s: string)
    requires AllPredictable(rules) && rules != []
    ensures Matches(MergedPrefix(rules), s) <==> SomeRuleBegins(rules, s)
  {
    hide Matches, MergedPrefix, Expand, IsPrefixOfMatch;
    PrefixAlternatives(rules, s);
    forall k | 0 <= k < |rules|
      ensures Matches(Expand(rules[k].from), s) <==> IsPrefixOfMatch(rules[k].from, s)
    {
      PrefixClosure(rules[k].from, s);
    }
  }

  // Completeness of the prefix patterns is all that the safe direction needs: no bare dots.
  predicate NoBareDots(rules: seq<Rule>) {
    forall k :: 0 <= k < |rules| ==> DotsAreOptional(rules[k].from)
  }

  // A rule match that begins inside the annotated text and ends at or behind its end is predicted.
  lemma MatchIsPredicted(rules: seq<Rule>, s: string, transat: int, appended: string, k: nat, i: nat, j: nat)
    requires NoBareDots(rules) && transat <= |s| && k < |rules| && i < |Annotated(s, transat)| <= j
    requires M(rules[k].from, Annotated(s, transat) + appended, i, j)
    ensures Predicts(rules, s, transat)
  {
    var a := Annotated(s, transat);
    SuffixIsPrefixMatch(rules, a, appended, k, i, j);
    assert Matches(MergedPrefix(rules), a[i..]);
  }

  lemma SuffixIsPrefixMatch(rules: seq<Rule>, a: string, appended: string, k: nat, i: nat, j: nat)
    requires NoBareDots(rules) && k < |rules| && i <= |a| <= j && M(rules[k].from, a + appended, i, j)
    ensures Matches(MergedPrefix(rules), a[i..])
  {
    hide MergedPrefix, Expand;
    var from, suffix := rules[k].from, a[i..];
    var w := suffix + appended;
    assert a + appended == a[..i] + w;
    MatchIsInside(from, a + appended, i, j);
    UnshiftMatch(from, a[..i], w, 0, j - i);
    assert suffix == w[..|suffix|];
    ExpansionIsComplete(from, suffix, w, 0, j - i);
    PrefixAlternatives(rules, suffix);
  }

  // Once nothing is predicted, no text appended later completes a rule match that begins inside.
  lemma NoFutureMatch(rules: seq<Rule>, s: string, transat: int, appended: string, k: nat, i: nat, j: nat)
    requires NoBareDots(rules) && transat <= |s| && !Predicts(rules, s, transat)
    requires k < |rules| && i < |Annotated(s, transat)| <= j
    ensures !M(rules[k].from, Annotated(s, transat) + appended, i, j)
  {
    if M(rules[k].from, Annotated(s, transat) + appended, i, j) {
      MatchIsPredicted(rules, s, transat, appended, k, i, j);
    }
  }

  // What follows a match does not matter; if the pattern looks for the end of the text, nothing follows.
  lemma {:induction false} Truncate(r: Re, s: string, i: nat, j: nat, n: nat)
    requires M(r, s, i, j) && j <= n <= |s|
    ensures M(r, s[..n], i, j)
    decreases r, 0
  {
    match r
    case Empty =>
    case Chr(u) =>
    case Dot =>
    case Begin =>
    case End =>
    case Group(a) => Truncate(a, s, i, j, n);
    case NonCapturing(a) => Truncate(a, s, i, j, n);
    case Cat(a, b) =>
      var k := SplitCat(a, b, s, i, j);
      Truncate(a, s, i, k, n);
      Truncate(b, s, k, j, n);
      JoinCat(a, b, s[..n], i, k, j);
    case Alt(a, b) =>
      if M(a, s, i, j) { Truncate(a, s, i, j, n); } else { Truncate(b, s, i, j, n); }
    case Star(a) =>
      var m: nat :| Iter(a, m, s, i, j);
      TruncateIters(a, m, s, i, j, n);
    case Plus(a) =>
      var m: nat :| m >= 1 && Iter(a, m, s, i, j);
      TruncateIters(a, m, s, i, j, n);
    case Opt(a) =>
      if i != j { Truncate(a, s, i, j, n); }
    case Rep(a, lo, hi) =>
      var m: nat :| lo <= m <= hi && Iter(a, m, s, i, j);
      TruncateIters(a, m, s, i, j, n);
  }

  lemma {:induction false} TruncateIters(a: Re, m: nat, s: string, i: nat, j: nat, n: nat)
    requires Iter(a, m, s, i, j) && j <= n <= |s|
    ensures Iter(a, m, s[..n], i, j)
    decreases a, m + 1
  {
    if m > 0 {
      var k: nat :| i <= k <= j && M(a, s, i, k) && Iter(a, m - 1, s, k, j);
      IterGoesForward(a, m - 1, s, k, j);
      Truncate(a, s, i, k, n);
      TruncateIters(a, m - 1, s, k, j, n);
    }
  }
}
