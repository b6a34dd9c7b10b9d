/**
 The text of patterns, and the character scanner that expands it.
 */
module PatternText {
  import opened Options
  import opened Regex
  import opened Prefixalize

  // ----- printing -----

  function ItemText(item: ClassItem): string {
    match item
    case Raw(c) => [c]
    case Escaped(c) => ['\\', c]
  }

  function ItemsText(items: seq<ClassItem>): string {
    if items == [] then "" else ItemText(items[0]) + ItemsText(items[1..])
  }

  function UnitText(u: Unit): string {
    match u
    case Literal(c) => [c]
    case Escape(c, _) => ['\\', c]
    case Class(items, _) => "[" + ItemsText(items) + "]"
  }

  function Decimal(n: nat): (r: string)
    ensures forall c :: c in r ==> '0' <= c <= '9'
  {
    (if n < 10 then "" else Decimal(n / 10)) + [('0' as int + n % 10) as char]
  }

  function RangeText(lo: nat, hi: nat): string {
    if lo == hi then Decimal(lo) else Decimal(lo) + "," + Decimal(hi)
  }

  function Print(r: Re): string {
    match r
    case Empty => ""
    case Chr(u) => UnitText(u)
    case Dot => "."
    case Begin => "^"
    case End => "$"
    case Group(a) => "(" + Print(a) + ")"
    case NonCapturing(a) => "(?:" + Print(a) + ")"
    case Cat(a, b) => Print(a) + Print(b)
    case Alt(a, b) => Print(a) + "|" + Print(b)
    case Star(a) => Print(a) + "*"
    case Plus(a) => Print(a) + "+"
    case Opt(a) => Print(a) + "?"
    case Rep(a, lo, hi) => Print(a) + "{" + RangeText(lo, hi) + "}"
  }

  const OPERATORS := "+*?.()|"

  predicate IsPlainLiteral(c: char) {
    c !in OPERATORS && c !in "\\[{^$"
  }

  predicate IsPlainItem(item: ClassItem) {
    item.Raw? ==> item.c != '\\' && item.c != '[' && item.c != ']'
  }

  predicate IsPlainUnit(u: Unit) {
    match u
    case Literal(c) => IsPlainLiteral(c)
    case Escape(_, _) => true
    case Class(items, _) => forall i :: 0 <= i < |items| ==> IsPlainItem(items[i])
  }

  // The patterns of the rule tables: no non-capturing groups, no raw '[' inside a class.
  predicate IsSource(r: Re) {
    match r
    case Empty => true
    case Chr(u) => IsPlainUnit(u)
    case Dot => true
    case Begin => true
    case End => true
    case Group(a) => IsSource(a)
    case NonCapturing(a) => false
    case Cat(a, b) => IsSource(a) && IsSource(b)
    case Alt(a, b) => IsSource(a) && IsSource(b)
    case Star(a) => IsSource(a)
    case Plus(a) => IsSource(a)
    case Opt(a) => IsSource(a)
    case Rep(a, _, _) => IsSource(a)
  }

  // The text groups as the tree does: postfix operators follow an atom, alternatives are not concatenated.
  predicate IsAtom(r: Re) {
    r.Chr? || r.Dot? || r.Begin? || r.End? || r.Group? || r.NonCapturing?
  }

  predicate ReadsBack(r: Re) {
    match r
    case Empty => true
    case Chr(_) => true
    case Dot => true
    case Begin => true
    case End => true
    case Group(a) => ReadsBack(a)
    case NonCapturing(a) => ReadsBack(a)
    case Cat(a, b) => ReadsBack(a) && ReadsBack(b) && !a.Alt? && !b.Alt?
    case Alt(a, b) => ReadsBack(a) && ReadsBack(b)
    case Star(a) => IsAtom(a) && ReadsBack(a)
    case Plus(a) => IsAtom(a) && ReadsBack(a)
    case Opt(a) => IsAtom(a) && ReadsBack(a)
    case Rep(a, _, _) => IsAtom(a) && ReadsBack(a)
  }

  // Wrapping units does not disturb the grouping.
  lemma {:induction false} ExpansionReadsBack(r: Re)
    requires ReadsBack(r)
    ensures ReadsBack(Expand(r))
    ensures IsAtom(r) ==> IsAtom(Expand(r))
    ensures Expand(r).Alt? ==> r.Alt?
  {
    match r
    case Empty =>
    case Chr(_) => assert ReadsBack(NonCapturing(Alt(r, End)));
    case Dot =>
    case Begin => assert ReadsBack(NonCapturing(Alt(Begin, End)));
    case End => assert ReadsBack(NonCapturing(Alt(End, End)));
    case Group(a) => ExpansionReadsBack(a);
    case NonCapturing(a) => ExpansionReadsBack(a);
    case Cat(a, b) => ExpansionReadsBack(a); ExpansionReadsBack(b);
    case Alt(a, b) => ExpansionReadsBack(a); ExpansionReadsBack(b);
    case Star(a) => ExpansionReadsBack(a);
    case Plus(a) => ExpansionReadsBack(a);
    case Opt(a) => ExpansionReadsBack(a);
    case Rep(a, _, _) => ExpansionReadsBack(a);
  }

  // ----- the scanner -----

  function WrapPrefixUnit(unit: string): string {
    "(?:" + unit + "|$)"
  }

  // `bracket` and `brace` hold the text since the open bracket or brace; None when there is none.
  datatype Scanner = Scanner(ret: string, escape: bool, bracket: Option<string>, brace: Option<string>)

  function Grow(text: Option<string>, ch: char): Option<string> {
    match text
    case None => None
    case Some(t) => Some(t + [ch])
  }

  function Step(st: Scanner, ch: char): Scanner {
    var bracket, brace := Grow(st.bracket, ch), Grow(st.brace, ch);
    if st.escape then
      Scanner(if st.bracket.None? then st.ret + WrapPrefixUnit(['\\', ch]) else st.ret, false, bracket, brace)
    else if ch == '\\' then Scanner(st.ret, true, bracket, brace)
    else if ch == '[' then Scanner(st.ret, false, Some("["), brace)
    else if ch == '{' && st.bracket.None? then Scanner(st.ret, false, None, Some("{"))
    else if st.bracket.Some? then
      if ch == ']' then Scanner(st.ret + WrapPrefixUnit(bracket.value), false, None, brace)
      else Scanner(st.ret, false, bracket, brace)
    else if st.brace.Some? then
      if ch == '}' then Scanner(st.ret + brace.value, false, None, None)
      else Scanner(st.ret, false, None, brace)
    else if ch in OPERATORS then Scanner(st.ret + [ch], false, None, None)
    else Scanner(st.ret + WrapPrefixUnit([ch]), false, None, None)
  }

  function Run(st: Scanner, s: string): Scanner
    decreases |s|
  {
    if s == "" then st else Run(Step(st, s[0]), s[1..])
  }

  function Clean(ret: string): Scanner {
    Scanner(ret, false, None, None)
  }

  // The loop of the source, on positions of the text.
  method PrefixalizeText(text: string) returns (ret: string)
    ensures ret == Run(Clean(""), text).ret
  {
    ret := "";
    var escape := false;
    var bracket := -1;
    var brace := -1;
    ghost var st := Clean("");
    assert text[0..] == text;
    for i := 0 to |text|
      invariant -1 <= bracket < i || bracket == -1
      invariant -1 <= brace < i || brace == -1
      invariant st == Scanner(ret, escape, if bracket < 0 then None else Some(text[bracket..i]),
                              if brace < 0 then None else Some(text[brace..i]))
      invariant Run(st, text[i..]) == Run(Clean(""), text)
    {
      var ch := text[i];
      assert text[i..][1..] == text[i + 1..];
      assert bracket >= 0 ==> text[bracket..i + 1] == text[bracket..i] + [ch];
      assert brace >= 0 ==> text[brace..i + 1] == text[brace..i] + [ch];
      assert text[i..i + 1] == [ch];
      st := Step(st, ch);
      if escape {
        if bracket < 0 {
          ret := ret + WrapPrefixUnit(['\\', ch]);
        }
        escape := false;
      } else if ch == '\\' {
        escape := true;
      } else if ch == '[' {
        bracket := i;
      } else if ch == '{' && bracket < 0 {
        brace := i;
      } else if bracket >= 0 {
        if ch == ']' {
          ret := ret + WrapPrefixUnit(text[bracket..i + 1]);
          bracket := -1;
        }
      } else if brace >= 0 {
        if ch == '}' {
          ret := ret + text[brace..i + 1];
          brace := -1;
        }
      } else if ch in OPERATORS {
        ret := ret + [ch];
      } else {
        ret := ret + WrapPrefixUnit([ch]);
      }
    }
  }

  // ----- the scanner prints the expanded tree -----

  lemma {:induction false} RunConcat(st: Scanner, a: string, b: string)
    ensures Run(st, a + b) == Run(Run(st, a), b)
    decreases |a|
  {
    if a == "" {
      assert a + b == b;
    } else {
      assert (a + b)[1..] == a[1..] + b;
      RunConcat(Step(st, a[0]), a[1..], b);
    }
  }

  lemma RunOne(st: Scanner, ch: char)
    ensures Run(st, [ch]) == Step(st, ch)
  {
    assert [ch][1..] == "";
    assert Run(Step(st, ch), "") == Step(st, ch);
  }

  lemma RunTwo(st: Scanner, a: char, b: char)
    ensures Run(st, [a, b]) == Step(Step(st, a), b)
  {
    assert [a, b] == [a] + [b];
    RunConcat(st, [a], [b]);
    RunOne(st, a);
    RunOne(Step(st, a), b);
  }

  lemma Associate(a: string, b: string, c: string)
    ensures a + (b + c) == a + b + c
  {
  }

  lemma {:induction false} ScanItems(ret: string, open: string, items: seq<ClassItem>)
    requires forall i :: 0 <= i < |items| ==> IsPlainItem(items[i])
    ensures Run(Scanner(ret, false, Some(open), None), ItemsText(items))
            == Scanner(ret, false, Some(open + ItemsText(items)), None)
    decreases |items|
  {
    hide Run, Step, ItemText, IsPlainItem;
    var st := Scanner(ret, false, Some(open), None);
    if items == [] {
      assert open + "" == open;
      RunNothing(st);
    } else {
      var text, behind := ItemText(items[0]), ItemsText(items[1..]);
      assert ItemsText(items) == text + behind;
      RunConcat(st, text, behind);
      ScanItem(ret, open, items[0]);
      ScanItems(ret, open + text, items[1..]);
      Associate(open, text, behind);
    }
  }

  lemma RunNothing(st: Scanner)
    ensures Run(st, "") == st
  {
  }

  lemma ScanItem(ret: string, open: string, item: ClassItem)
    requires IsPlainItem(item)
    ensures Run(Scanner(ret, false, Some(open), None), ItemText(item))
            == Scanner(ret, false, Some(open + ItemText(item)), None)
  {
    var st := Scanner(ret, false, Some(open), None);
    match item
    case Raw(c) => RunOne(st, c);
    case Escaped(c) =>
      RunTwo(st, '\\', c);
      assert open + ['\\'] + [c] == open + ['\\', c];
  }

  lemma ScanUnit(ret: string, u: Unit)
    requires IsPlainUnit(u)
    ensures Run(Clean(ret), UnitText(u)) == Clean(ret + WrapPrefixUnit(UnitText(u)))
  {
    match u
    case Literal(c) => RunOne(Clean(ret), c);
    case Escape(c, _) => RunTwo(Clean(ret), '\\', c);
    case Class(items, _) =>
      var inner := ItemsText(items);
      RunConcat(Clean(ret), "[" + inner, "]");
      RunConcat(Clean(ret), "[", inner);
      RunOne(Clean(ret), '[');
      ScanItems(ret, "[", items);
      RunOne(Scanner(ret, false, Some("[" + inner), None), ']');
  }

  lemma {:induction false} ScanDigits(ret: string, open: string, digits: string)
    requires forall c :: c in digits ==> '0' <= c <= '9' || c == ','
    ensures Run(Scanner(ret, false, None, Some(open)), digits) == Scanner(ret, false, None, Some(open + digits))
    decreases |digits|
  {
    if digits == "" {
      assert open + "" == open;
    } else {
      assert digits[0] in digits;
      assert forall c :: c in digits[1..] ==> c in digits;
      ScanDigits(ret, open + [digits[0]], digits[1..]);
      assert open + [digits[0]] + digits[1..] == open + digits;
    }
  }

  lemma ScanRange(ret: string, lo: nat, hi: nat)
    ensures Run(Clean(ret), "{" + RangeText(lo, hi) + "}") == Clean(ret + "{" + RangeText(lo, hi) + "}")
  {
    var digits := RangeText(lo, hi);
    RunConcat(Clean(ret), "{" + digits, "}");
    RunConcat(Clean(ret), "{", digits);
    RunOne(Clean(ret), '{');
    ScanDigits(ret, "{", digits);
    RunOne(Scanner(ret, false, None, Some("{" + digits)), '}');
    assert ret + ("{" + digits + "}") == ret + "{" + digits + "}";
  }

  lemma ScanOperator(ret: string, ch: char)
    requires ch in OPERATORS
    ensures Run(Clean(ret), [ch]) == Clean(ret + [ch])
  {
    RunOne(Clean(ret), ch);
  }

  lemma ScanPostfix(ret: string, a: Re, ch: char)
    requires ch in OPERATORS && Scans(a)
    ensures Run(Clean(ret), Print(a) + [ch]) == Clean(ret + (Print(Expand(a)) + [ch]))
  {
    RunConcat(Clean(ret), Print(a), [ch]);
    ScanOperator(ret + Print(Expand(a)), ch);
    assert ret + Print(Expand(a)) + [ch] == ret + (Print(Expand(a)) + [ch]);
  }

  // Scanning `a` prints its expansion, whatever was printed before.
  ghost predicate Scans(a: Re) {
    forall ret :: Run(Clean(ret), Print(a)) == Clean(ret + Print(Expand(a)))
  }

  lemma ScanChr(ret: string, u: Unit)
    requires IsPlainUnit(u)
    ensures Run(Clean(ret), Print(Chr(u))) == Clean(ret + Print(Expand(Chr(u))))
  {
    ScanUnit(ret, u);
    var text := UnitText(u);
    assert Print(Alt(Chr(u), End)) == text + "|" + "$";
    assert Print(Expand(Chr(u))) == "(?:" + (text + "|" + "$") + ")";
    assert WrapPrefixUnit(text) == "(?:" + (text + "|" + "$") + ")";
  }

  // The scanner wraps an anchor as it wraps a literal.
  lemma ScanAnchor(ret: string, r: Re)
    requires r.Begin? || r.End?
    ensures Run(Clean(ret), Print(r)) == Clean(ret + Print(Expand(r)))
  {
    var text := Print(r);
    RunOne(Clean(ret), text[0]);
    assert text == [text[0]] && text[0] !in OPERATORS;
    assert Print(Alt(r, End)) == text + "|" + "$";
    assert Print(Expand(r)) == "(?:" + (text + "|" + "$") + ")";
    assert WrapPrefixUnit(text) == "(?:" + (text + "|" + "$") + ")";
  }

  lemma ScansAt(ret: string, a: Re)
    requires Scans(a)
    ensures Run(Clean(ret), Print(a)) == Clean(ret + Print(Expand(a)))
  {
  }

  lemma ScanGroup(ret: string, a: Re)
    requires Scans(a)
    ensures Run(Clean(ret), "(" + Print(a) + ")") == Clean(ret + ("(" + Print(Expand(a)) + ")"))
  {
    hide Run, Step, Print, Expand, Scans, Clean;
    RunConcat(Clean(ret), "(" + Print(a), ")");
    RunConcat(Clean(ret), "(", Print(a));
    ScanOperator(ret, '(');
    ScansAt(ret + "(", a);
    ScanOperator(ret + "(" + Print(Expand(a)), ')');
    Associate(ret, "(", Print(Expand(a)));
    Associate(ret, "(" + Print(Expand(a)), ")");
  }

  lemma ScanCat(ret: string, a: Re, b: Re)
    requires Scans(a) && Scans(b)
    ensures Run(Clean(ret), Print(a) + Print(b)) == Clean(ret + (Print(Expand(a)) + Print(Expand(b))))
  {
    hide Run, Step, Print, Expand, Scans, Clean;
    RunConcat(Clean(ret), Print(a), Print(b));
    ScansAt(ret, a);
    ScansAt(ret + Print(Expand(a)), b);
    Associate(ret, Print(Expand(a)), Print(Expand(b)));
  }

  lemma ScanAlt(ret: string, a: Re, b: Re)
    requires Scans(a) && Scans(b)
    ensures Run(Clean(ret), Print(a) + "|" + Print(b)) == Clean(ret + (Print(Expand(a)) + "|" + Print(Expand(b))))
  {
    hide Run, Step, Print, Expand, Scans, Clean;
    var front := Print(Expand(a)) + "|";
    RunConcat(Clean(ret), Print(a) + "|", Print(b));
    ScanPostfix(ret, a, '|');
    ScansAt(ret + front, b);
    Associate(ret, front, Print(Expand(b)));
  }

  lemma ScanRep(ret: string, a: Re, lo: nat, hi: nat)
    requires Scans(a)
    ensures Run(Clean(ret), Print(a) + "{" + RangeText(lo, hi) + "}")
            == Clean(ret + (Print(Expand(a)) + "{" + RangeText(lo, hi) + "}"))
  {
    hide Run, Step, Print, Expand, Scans, Clean, RangeText;
    var digits := RangeText(lo, hi);
    var range := "{" + digits + "}";
    RunConcat(Clean(ret), Print(a), range);
    ScansAt(ret, a);
    ScanRange(ret + Print(Expand(a)), lo, hi);
    Associate(ret, Print(Expand(a)), range);
    Around(Print(a), digits);
    Around(Print(Expand(a)), digits);
    Around(ret + Print(Expand(a)), digits);
  }

  lemma Around(a: string, digits: string)
    ensures a + ("{" + digits + "}") == a + "{" + digits + "}"
  {
  }

  // Scanning the text of a pattern prints the expanded tree and leaves the scanner clean.
  lemma {:induction false} ScanPrintsExpansion(r: Re)
    requires IsSource(r)
    ensures Scans(r)
  {
    forall ret ensures Run(Clean(ret), Print(r)) == Clean(ret + Print(Expand(r))) {
      ScanTree(r, ret);
    }
  }

  lemma {:induction false} ScanTree(r: Re, ret: string)
    requires IsSource(r)
    ensures Run(Clean(ret), Print(r)) == Clean(ret + Print(Expand(r)))
  {
    hide Run, Step, RangeText, UnitText, Scans;
    match r
    case Empty => assert ret + "" == ret; RunNothing(Clean(ret));
    case Chr(u) => ScanChr(ret, u);
    case Dot => ScanOperator(ret, '.');
    case Begin => ScanAnchor(ret, r);
    case End => ScanAnchor(ret, r);
    case Group(a) => ScanPrintsExpansion(a); ScanGroup(ret, a);
    case Cat(a, b) => ScanPrintsExpansion(a); ScanPrintsExpansion(b); ScanCat(ret, a, b);
    case Alt(a, b) => ScanPrintsExpansion(a); ScanPrintsExpansion(b); ScanAlt(ret, a, b);
    case Star(a) => ScanPrintsExpansion(a); ScanPostfix(ret, a, '*');
    case Plus(a) => ScanPrintsExpansion(a); ScanPostfix(ret, a, '+');
    case Opt(a) => ScanPrintsExpansion(a); ScanPostfix(ret, a, '?');
    case Rep(a, lo, hi) => ScanPrintsExpansion(a); ScanRep(ret, a, lo, hi);
  }

  // Prefixalize on the text of a pattern: the text of the pattern for its prefixes.
  lemma PrefixalizeIsExpansion(r: Re)
    requires IsSource(r)
    ensures Run(Clean(""), Print(r)).ret == Print(Expand(r))
  {
    ScanTree(r, "");
    assert "" + Print(Expand(r)) == Print(Expand(r));
  }
}
