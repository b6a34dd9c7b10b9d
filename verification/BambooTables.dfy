/**
 The character tables the Bamboo core ships with meet the assumptions of
 `Charset`, whatever the case mapping, as long as that keeps to GoodCase.
 */
module BambooTables {
  import opened BambooChars

  // The vowel table, one row per toneless vowel.
  function Row(b: nat): (row: string)
    ensures |row| == 6
  {
    match b
    case 0 => "aàáảãạ"
    case 1 => "ăằắẳẵặ"
    case 2 => "âầấẩẫậ"
    case 3 => "eèéẻẽẹ"
    case 4 => "êềếểễệ"
    case 5 => "iìíỉĩị"
    case 6 => "oòóỏõọ"
    case 7 => "ôồốổỗộ"
    case 8 => "ơờớởỡợ"
    case 9 => "uùúủũụ"
    case 10 => "ưừứửữự"
    case _ => "yỳýỷỹỵ"
  }

  function Vowels(): (v: string)
    ensures |v| == 72 && forall i :: 0 <= i < 72 ==> v[i] == Row(i / 6)[i % 6]
  {
    seq(72, i requires 0 <= i < 72 => Row(i / 6)[i % 6])
  }

  function MarksMaps(): map<char, string> {
    map['a' := "aâă__", 'â' := "aâă__", 'ă' := "aâă__",
        'e' := "eê___", 'ê' := "eê___",
        'o' := "oô_ơ_", 'ô' := "oô_ơ_", 'ơ' := "oô_ơ_",
        'u' := "u__ư_", 'ư' := "u__ư_",
        'd' := "d___đ", 'đ' := "d___đ"]
  }

  // The position of a vowel, spelled out: the table has a left inverse.
  function Position(c: char): int {
    var p := LowPosition(c);
    if p >= 0 then p else HighPosition(c)
  }

  function LowPosition(c: char): int {
    match c
    case 'a' => 0 case 'à' => 1 case 'á' => 2 case 'ả' => 3 case 'ã' => 4 case 'ạ' => 5
    case 'ă' => 6 case 'ằ' => 7 case 'ắ' => 8 case 'ẳ' => 9 case 'ẵ' => 10 case 'ặ' => 11
    case 'â' => 12 case 'ầ' => 13 case 'ấ' => 14 case 'ẩ' => 15 case 'ẫ' => 16 case 'ậ' => 17
    case 'e' => 18 case 'è' => 19 case 'é' => 20 case 'ẻ' => 21 case 'ẽ' => 22 case 'ẹ' => 23
    case 'ê' => 24 case 'ề' => 25 case 'ế' => 26 case 'ể' => 27 case 'ễ' => 28 case 'ệ' => 29
    case 'i' => 30 case 'ì' => 31 case 'í' => 32 case 'ỉ' => 33 case 'ĩ' => 34 case 'ị' => 35
    case _ => -1
  }

  function HighPosition(c: char): int {
    match c
    case 'o' => 36 case 'ò' => 37 case 'ó' => 38 case 'ỏ' => 39 case 'õ' => 40 case 'ọ' => 41
    case 'ô' => 42 case 'ồ' => 43 case 'ố' => 44 case 'ổ' => 45 case 'ỗ' => 46 case 'ộ' => 47
    case 'ơ' => 48 case 'ờ' => 49 case 'ớ' => 50 case 'ở' => 51 case 'ỡ' => 52 case 'ợ' => 53
    case 'u' => 54 case 'ù' => 55 case 'ú' => 56 case 'ủ' => 57 case 'ũ' => 58 case 'ụ' => 59
    case 'ư' => 60 case 'ừ' => 61 case 'ứ' => 62 case 'ử' => 63 case 'ữ' => 64 case 'ự' => 65
    case 'y' => 66 case 'ỳ' => 67 case 'ý' => 68 case 'ỷ' => 69 case 'ỹ' => 70 case 'ỵ' => 71
    case _ => -1
  }

  lemma Row0(t: nat)
    requires t < 6
    ensures Position(Row(0)[t]) == 0 + t
  {
    assert Position('a') == 0 && Position('à') == 1 && Position('á') == 2 && Position('ả') == 3 && Position('ã') == 4
        && Position('ạ') == 5;
    assert Row(0) == "aàáảãạ" && (t == 0 || t == 1 || t == 2 || t == 3 || t == 4 || t == 5);
  }

  lemma Row1(t: nat)
    requires t < 6
    ensures Position(Row(1)[t]) == 6 + t
  {
    assert Position('ă') == 6 && Position('ằ') == 7 && Position('ắ') == 8 && Position('ẳ') == 9 && Position('ẵ') == 10
        && Position('ặ') == 11;
    assert Row(1) == "ăằắẳẵặ" && (t == 0 || t == 1 || t == 2 || t == 3 || t == 4 || t == 5);
  }

  lemma Row2(t: nat)
    requires t < 6
    ensures Position(Row(2)[t]) == 12 + t
  {
    assert Position('â') == 12 && Position('ầ') == 13 && Position('ấ') == 14 && Position('ẩ') == 15
        && Position('ẫ') == 16 && Position('ậ') == 17;
    assert Row(2) == "âầấẩẫậ" && (t == 0 || t == 1 || t == 2 || t == 3 || t == 4 || t == 5);
  }

  lemma Row3(t: nat)
    requires t < 6
    ensures Position(Row(3)[t]) == 18 + t
  {
    assert Position('e') == 18 && Position('è') == 19 && Position('é') == 20 && Position('ẻ') == 21
        && Position('ẽ') == 22 && Position('ẹ') == 23;
    assert Row(3) == "eèéẻẽẹ" && (t == 0 || t == 1 || t == 2 || t == 3 || t == 4 || t == 5);
  }

  lemma Row4(t: nat)
    requires t < 6
    ensures Position(Row(4)[t]) == 24 + t
  {
    assert Position('ê') == 24 && Position('ề') == 25 && Position('ế') == 26 && Position('ể') == 27
        && Position('ễ') == 28 && Position('ệ') == 29;
    assert Row(4) == "êềếểễệ" && (t == 0 || t == 1 || t == 2 || t == 3 || t == 4 || t == 5);
  }

  lemma Row5(t: nat)
    requires t < 6
    ensures Position(Row(5)[t]) == 30 + t
  {
    assert Position('i') == 30 && Position('ì') == 31 && Position('í') == 32 && Position('ỉ') == 33
        && Position('ĩ') == 34 && Position('ị') == 35;
    assert Row(5) == "iìíỉĩị" && (t == 0 || t == 1 || t == 2 || t == 3 || t == 4 || t == 5);
  }

  lemma Row6(t: nat)
    requires t < 6
    ensures Position(Row(6)[t]) == 36 + t
  {
    assert Position('o') == 36 && Position('ò') == 37 && Position('ó') == 38 && Position('ỏ') == 39
        && Position('õ') == 40 && Position('ọ') == 41;
    assert Row(6) == "oòóỏõọ" && (t == 0 || t == 1 || t == 2 || t == 3 || t == 4 || t == 5);
  }

  lemma Row7(t: nat)
    requires t < 6
    ensures Position(Row(7)[t]) == 42 + t
  {
    assert Position('ô') == 42 && Position('ồ') == 43 && Position('ố') == 44 && Position('ổ') == 45
        && Position('ỗ') == 46 && Position('ộ') == 47;
    assert Row(7) == "ôồốổỗộ" && (t == 0 || t == 1 || t == 2 || t == 3 || t == 4 || t == 5);
  }

  lemma Row8(t: nat)
    requires t < 6
    ensures Position(Row(8)[t]) == 48 + t
  {
    assert Position('ơ') == 48 && Position('ờ') == 49 && Position('ớ') == 50 && Position('ở') == 51
        && Position('ỡ') == 52 && Position('ợ') == 53;
    assert Row(8) == "ơờớởỡợ" && (t == 0 || t == 1 || t == 2 || t == 3 || t == 4 || t == 5);
  }

  lemma Row9(t: nat)
    requires t < 6
    ensures Position(Row(9)[t]) == 54 + t
  {
    assert Position('u') == 54 && Position('ù') == 55 && Position('ú') == 56 && Position('ủ') == 57
        && Position('ũ') == 58 && Position('ụ') == 59;
    assert Row(9) == "uùúủũụ" && (t == 0 || t == 1 || t == 2 || t == 3 || t == 4 || t == 5);
  }

  lemma Row10(t: nat)
    requires t < 6
    ensures Position(Row(10)[t]) == 60 + t
  {
    assert Position('ư') == 60 && Position('ừ') == 61 && Position('ứ') == 62 && Position('ử') == 63
        && Position('ữ') == 64 && Position('ự') == 65;
    assert Row(10) == "ưừứửữự" && (t == 0 || t == 1 || t == 2 || t == 3 || t == 4 || t == 5);
  }

  lemma Row11(t: nat)
    requires t < 6
    ensures Position(Row(11)[t]) == 66 + t
  {
    assert Position('y') == 66 && Position('ỳ') == 67 && Position('ý') == 68 && Position('ỷ') == 69
        && Position('ỹ') == 70 && Position('ỵ') == 71;
    assert Row(11) == "yỳýỷỹỵ" && (t == 0 || t == 1 || t == 2 || t == 3 || t == 4 || t == 5);
  }

  lemma PositionOf(i: nat)
    requires i < 72
    ensures Position(Vowels()[i]) == i
  {
    hide Position, Row;
    var t := i % 6;
    match i / 6
    case 0 => Row0(t);
    case 1 => Row1(t);
    case 2 => Row2(t);
    case 3 => Row3(t);
    case 4 => Row4(t);
    case 5 => Row5(t);
    case 6 => Row6(t);
    case 7 => Row7(t);
    case 8 => Row8(t);
    case 9 => Row9(t);
    case 10 => Row10(t);
    case _ => Row11(t);
  }

  // ----- the assumptions -----

  lemma VowelIs(c: char)
    requires c in Vowels()
    ensures Position(c) >= 0 && Vowels()[Position(c)] == c
  {
    hide Position;
    var i :| 0 <= i < 72 && Vowels()[i] == c;
    PositionOf(i);
  }

  lemma VowelsAreGood(cs: CharsetData)
    requires cs.vowels == Vowels()
    ensures cs.GoodVowels()
  {
    hide Position, Row;
    forall i, j | 0 <= i < j < |cs.vowels| ensures cs.vowels[i] != cs.vowels[j] {
      PositionOf(i);
      PositionOf(j);
    }
    if NUL in cs.vowels {
      VowelIs(NUL);
      NotVowels();
      assert false;
    }
  }

  lemma NotVowels()
    ensures Position(NUL) == -1 && Position('d') == -1 && Position('đ') == -1
  {
  }

  // Vowels are small letters or lie beyond ASCII; word-break symbols are neither.
  lemma VowelRange(c: char)
    requires Position(c) >= 0
    ensures 'a' <= c <= 'z' || c > '~'
  {
  }

  lemma WordBreakRange(c: char)
    requires IsWordBreakSymbol(c)
    ensures c < 'a' || 'z' < c <= '~'
  {
    assert forall i :: 0 <= i < |PUNCTUATION_MARKS| ==> PUNCTUATION_MARKS[i] < 'a' || 'z' < PUNCTUATION_MARKS[i] <= '~';
  }

  lemma MarksAreGood(cs: CharsetData)
    requires cs.marks == MarksMaps()
    ensures cs.GoodMarks()
  {
    hide MarksMaps;
    forall k | k in cs.marks ensures |cs.marks[k]| == 5 && cs.marks[k][0] != '_' {
      MarkRow(k);
    }
    forall k, m | k in cs.marks && 0 <= m < 5 && cs.marks[k][m] != '_'
      ensures cs.marks[k][m] in cs.marks && cs.marks[cs.marks[k][m]] == cs.marks[k]
    {
      MarkRow(k);
    }
  }

  // Each row is the row of all its letters.
  lemma MarkRow(k: char)
    requires k in MarksMaps()
    ensures var row := MarksMaps()[k];
            |row| == 5 && row[0] != '_'
            && forall m :: 0 <= m < 5 && row[m] != '_' ==> row[m] in MarksMaps() && MarksMaps()[row[m]] == row
  {
  }

  lemma MarkKeys(k: char)
    requires k in MarksMaps()
    ensures k == 'd' || k == 'đ' || (Position(k) >= 0 && Position(k) % 6 == 0 && k in Vowels())
    ensures 'a' <= k <= 'z' || k > '~'
  {
    hide Position, Row;
    assert k in "aăâeêoôơuưdđ";
    MarkedVowels();
  }

  lemma MarkedVowels()
    ensures forall k :: k in "aăâeêoôơuư" ==> Position(k) >= 0 && Position(k) % 6 == 0 && k in Vowels()
  {
    hide Position, Row, Vowels;
    RowStarts();
    StartIsVowel(0); StartIsVowel(1); StartIsVowel(2); StartIsVowel(3); StartIsVowel(4);
    StartIsVowel(6); StartIsVowel(7); StartIsVowel(8); StartIsVowel(9); StartIsVowel(10);
  }

  lemma RowStarts()
    ensures Row(0)[0] == 'a' && Row(1)[0] == 'ă' && Row(2)[0] == 'â' && Row(3)[0] == 'e' && Row(4)[0] == 'ê'
    ensures Row(6)[0] == 'o' && Row(7)[0] == 'ô' && Row(8)[0] == 'ơ' && Row(9)[0] == 'u' && Row(10)[0] == 'ư'
  {
  }

  lemma StartIsVowel(b: nat)
    requires b < 12
    ensures Position(Row(b)[0]) == 6 * b && Row(b)[0] in Vowels()
  {
    hide Position, Row;
    KeyRow(Row(b)[0], 6 * b);
  }

  lemma KeyRow(k: char, i: nat)
    requires i < 72 && Row(i / 6)[i % 6] == k
    ensures Position(k) == i && k in Vowels()
  {
    hide Position, Row;
    PositionOf(i);
    assert Vowels()[i] == k;
  }

  lemma FamiliesAreGood(cs: CharsetData)
    requires cs.vowels == Vowels() && cs.marks == MarksMaps()
    ensures cs.GoodFamilies()
  {
    hide Position, Row;
    NotVowels();
    forall k, i | k in cs.marks && 0 <= i < |cs.vowels| && cs.vowels[i] == k ensures i % 6 == 0 {
      MarkKeys(k);
      PositionOf(i);
    }
    forall k, m | k in cs.marks && |cs.marks[k]| == 5 && 0 <= m < 5 && cs.marks[k][m] != '_'
      ensures cs.marks[k][m] in cs.vowels <==> k in cs.vowels
    {
      MarkRowOf(k, m);
      var d := cs.marks[k][m];
      MarkKeys(k);
      MarkKeys(d);
      if k in Vowels() { VowelIs(k); }
      if d in Vowels() { VowelIs(d); }
    }
  }

  lemma MarkRowOf(k: char, m: nat)
    requires k in MarksMaps() && m < 5 && MarksMaps()[k][m] != '_'
    ensures var d := MarksMaps()[k][m]; d in MarksMaps() && ((d == 'd' || d == 'đ') <==> (k == 'd' || k == 'đ'))
  {
  }

  lemma BasesAreGood(cs: CharsetData)
    requires cs.vowels == Vowels() && cs.marks == MarksMaps()
    ensures cs.GoodBases()
  {
    hide Position;
    forall i | 0 <= i < |cs.vowels| && i % 6 == 0 && cs.vowels[i] !in cs.marks ensures IsAlpha(cs.vowels[i]) {
      assert cs.vowels[i] == Row(i / 6)[0];
    }
    forall c | IsWordBreakSymbol(c) ensures c !in cs.vowels && c !in cs.marks {
      WordBreakRange(c);
      if c in cs.vowels {
        VowelIs(c);
        VowelRange(c);
      }
      if c in cs.marks {
        MarkKeys(c);
      }
    }
  }

  // The shipped tables satisfy every assumption made about them.
  lemma SourceTablesAreGood(cs: CharsetData)
    requires cs.vowels == Vowels() && cs.marks == MarksMaps() && cs.GoodCase()
    ensures cs.Good()
  {
    VowelsAreGood(cs);
    MarksAreGood(cs);
    FamiliesAreGood(cs);
    BasesAreGood(cs);
  }
}
