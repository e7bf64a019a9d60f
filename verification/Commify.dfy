/** `commify`: the text of a number with a comma before every three characters from the right of its whole part. */
module Commify {
  import opened NumberText

  /** Groups of three from the right. */
  function Grouped(s: string): string
    decreases |s|
  {
    if |s| <= 3 then s else Grouped(s[..|s| - 3]) + "," + s[|s| - 3..]
  }

  /** `str(n)` */
  function IntText(n: int): string {
    if n < 0 then "-" + Decimal(-n) else Decimal(n)
  }

  lemma GroupedSnoc(front: string, last: string)
    requires front != "" && |last| == 3
    ensures Grouped(front + last) == Grouped(front) + ("," + last)
  {
  }

  /** What a further digit in front of `s` puts there: its groups may all be full. */
  function Lead(c: char, s: string): string {
    if s != "" && |s| % 3 == 0 then [c, ','] else [c]
  }

  lemma LeadOfLonger(c: char, front: string, last: string)
    requires front != "" && |last| == 3
    ensures Lead(c, front + last) == Lead(c, front)
  {
  }

  lemma ConcatAssoc(a: string, b: string, c: string)
    ensures (a + b) + c == a + (b + c)
  {
  }

  /** One more digit in front starts a new group when the groups behind it are full. */
  lemma {:induction false} GroupedCons(c: char, s: string)
    ensures Grouped([c] + s) == Lead(c, s) + Grouped(s)
    decreases |s|
  {
    if |s| > 3 {
      var front, last := s[..|s| - 3], s[|s| - 3..];
      assert s == front + last && [c] + s == ([c] + front) + last;
      GroupedCons(c, front);
      GroupedSnoc([c] + front, last);
      GroupedSnoc(front, last);
      LeadOfLonger(c, front, last);
      ConcatAssoc(Lead(c, front), Grouped(front), "," + last);
    } else if |s| == 3 {
      GroupedSnoc([c], s);
      assert [c] + ("," + s) == [c, ','] + s;
    } else {
      assert |[c] + s| <= 3;
    }
  }

  // --------------------------------------------------------- the whole text

  /** The argument: `None`, a number by what `str` prints for it, or anything else. */
  datatype Input = Nothing | Number(text: string) | Other

  datatype Output = NoText | Text(text: string) | WrongType

  function Sign(text: string): string {
    if text != "" && text[0] == '-' then "-" else ""
  }

  function Unsigned(text: string): string {
    if text != "" && text[0] == '-' then text[1..] else text
  }

  function PointAt(n: string): (i: nat)
    ensures i <= |n| && (i < |n| ==> n[i] == '.')
  {
    if n == "" || n[0] == '.' then 0 else 1 + PointAt(n[1..])
  }

  function Whole(n: string): string {
    n[..PointAt(n)]
  }

  function Fraction(n: string): string {
    if PointAt(n) < |n| then n[PointAt(n) + 1..] else ""
  }

  /** What is put behind the whole part. */
  function Tail(n: string): string {
    if Fraction(n) == "" then "" else "." + Fraction(n)
  }

  /** What `str` prints for an int or a float: no blanks, no commas, at most one point. */
  predicate IsNumberText(text: string) {
    text != "" && ' ' !in text && ',' !in text && '.' !in Fraction(Unsigned(text))
  }

  function Commified(text: string): string {
    Sign(text) + (Grouped(Whole(Unsigned(text))) + Tail(Unsigned(text)))
  }

  method Commify(value: Input) returns (r: Output)
    requires value.Number? ==> IsNumberText(value.text)
    ensures match value
            case Nothing => r == NoText
            case Other => r == WrongType
            case Number(text) => r == Text(Commified(text))
  {
    if value.Nothing? {
      return NoText;
    }
    if value.Other? {
      return WrongType;
    }
    var out := CommifyNumber(value.text);
    return Text(out);
  }

  method CommifyNumber(text: string) returns (out: string)
    requires IsNumberText(text)
    ensures out == Commified(text)
  {
    var n := text;
    var prefix := "";
    if n[0] == '-' {
      prefix := "-";
      n := n[1..];
    }
    var dollars, cents := n[..PointAt(n)], Fraction(n);
    out := CommasInserted(dollars);
    EmptyRight(out);
    if cents != "" {
      out := out + ("." + cents);
    }
    out := prefix + out;
  }

  lemma OneMoreDigit(n: string, i: nat)
    requires i < |n|
    ensures Grouped(n[|n| - (i + 1)..])
         == (if i != 0 && i % 3 == 0 then [n[|n| - 1 - i], ','] else [n[|n| - 1 - i]]) + Grouped(n[|n| - i..])
  {
    var c, done := n[|n| - 1 - i], n[|n| - i..];
    assert n[|n| - (i + 1)..] == [c] + done && |done| == i;
    GroupedCons(c, done);
  }

  /** The loop of `commify`: digits and commas go in at the front, from the last digit on. */
  method CommasInserted(n: string) returns (r: string)
    ensures r == Grouped(n)
  {
    r := "";
    for i := 0 to |n|
      invariant r == Grouped(n[|n| - i..])
    {
      var c := n[|n| - 1 - i];
      OneMoreDigit(n, i);
      ghost var was := r;
      if i != 0 && i % 3 == 0 {
        r := [','] + r;
      }
      r := [c] + r;
      assert r == (if i != 0 && i % 3 == 0 then [c, ','] else [c]) + was;
    }
    assert n[0..] == n;
  }

  // ------------------------------------------------------------- properties

  function WithoutCommas(s: string): string {
    if s == "" then "" else (if s[0] == ',' then "" else [s[0]]) + WithoutCommas(s[1..])
  }

  lemma {:induction false} WithoutCommasConcat(a: string, b: string)
    ensures WithoutCommas(a + b) == WithoutCommas(a) + WithoutCommas(b)
  {
    if a != "" {
      WithoutCommasConcat(a[1..], b);
      assert (a + b)[1..] == a[1..] + b;
    } else {
      assert a + b == b;
    }
  }

  lemma {:induction false} NoCommas(s: string)
    requires ',' !in s
    ensures WithoutCommas(s) == s
  {
    if s != "" {
      NoCommas(s[1..]);
      assert s == [s[0]] + s[1..];
    }
  }

  /** Deleting the commas gives back the digits. */
  lemma {:induction false} GroupingAddsOnlyCommas(s: string)
    requires ',' !in s
    ensures WithoutCommas(Grouped(s)) == s
    decreases |s|
  {
    if |s| <= 3 {
      NoCommas(s);
    } else {
      var front, last := s[..|s| - 3], s[|s| - 3..];
      assert s == front + last;
      GroupingAddsOnlyCommas(front);
      NoCommas(last);
      WithoutCommasConcat(Grouped(front) + ",", last);
      WithoutCommasConcat(Grouped(front), ",");
      assert WithoutCommas(",") == WithoutCommas("");
      assert front + "" + last == s;
    }
  }

  /** The digits to the right of position `k`. */
  function DigitsAfter(s: string, k: nat): string
    requires k < |s|
  {
    WithoutCommas(s[k + 1..])
  }

  /** Behind every comma of `g` stands a positive number of whole groups of three digits. */
  ghost predicate CommasSplitThrees(g: string) {
    forall k: nat :: k < |g| && g[k] == ',' ==> |DigitsAfter(g, k)| > 0 && |DigitsAfter(g, k)| % 3 == 0
  }

  lemma DigitsAfterConcat(g: string, last: string, k: nat)
    requires ',' !in last && k < |g|
    ensures DigitsAfter(g + ("," + last), k) == DigitsAfter(g, k) + last
  {
    LastGroup(last);
    assert (g + ("," + last))[k + 1..] == g[k + 1..] + ("," + last);
    WithoutCommasConcat(g[k + 1..], "," + last);
  }

  lemma BehindComma(g: string, last: string)
    requires ',' !in last
    ensures var s := g + ("," + last);
            s[|g| + 1..] == last && forall k: nat :: |g| < k < |s| ==> s[k] != ','
  {
  }

  lemma CommaBetween(g: string, last: string, k: nat)
    requires ',' !in last && |g| <= k < |g + ("," + last)| && (g + ("," + last))[k] == ','
    ensures DigitsAfter(g + ("," + last), k) == last
  {
    BehindComma(g, last);
    NoCommas(last);
  }

  lemma LastGroup(last: string)
    requires ',' !in last
    ensures WithoutCommas(last) == last && WithoutCommas("," + last) == last
  {
    NoCommas(last);
    assert ("," + last)[1..] == last;
  }

  lemma OneMoreGroup(g: string, last: string)
    requires CommasSplitThrees(g) && ',' !in last && |last| == 3
    ensures CommasSplitThrees(g + ("," + last))
  {
    var s := g + ("," + last);
    forall k: nat | k < |s| && s[k] == ','
      ensures |DigitsAfter(s, k)| > 0 && |DigitsAfter(s, k)| % 3 == 0
    {
      if k < |g| {
        DigitsAfterConcat(g, last, k);
        assert g[k] == ',';
      } else {
        CommaBetween(g, last, k);
      }
    }
  }

  lemma {:induction false} GroupingSplitsThrees(s: string)
    requires ',' !in s
    ensures CommasSplitThrees(Grouped(s))
    decreases |s|
  {
    if |s| > 3 {
      var front, last := s[..|s| - 3], s[|s| - 3..];
      assert s == front + last;
      GroupingSplitsThrees(front);
      GroupedSnoc(front, last);
      OneMoreGroup(Grouped(front), last);
    } else {
      assert forall k: nat :: k < |s| ==> s[k] in s;
    }
  }

  function FirstComma(s: string): (k: nat)
    ensures k <= |s| && (k < |s| ==> s[k] == ',') && ',' !in s[..k]
  {
    if s == "" || s[0] == ',' then 0
    else
      var k := 1 + FirstComma(s[1..]);
      assert s[..k] == [s[0]] + s[1..][..k - 1];
      k
  }

  lemma {:induction false} FirstCommaOfConcat(a: string, b: string)
    ensures FirstComma(a + b) == if FirstComma(a) < |a| then FirstComma(a) else |a| + FirstComma(b)
  {
    if a != "" {
      assert (a + b)[1..] == a[1..] + b;
      if a[0] != ',' { FirstCommaOfConcat(a[1..], b); }
    } else {
      assert a + b == b;
    }
  }

  lemma {:induction false} NoCommaFirst(s: string)
    requires ',' !in s
    ensures FirstComma(s) == |s|
  {
  }

  /** The leading group has one to three digits. */
  lemma {:induction false} LeadingGroupIsShort(s: string)
    requires ',' !in s && s != ""
    ensures 1 <= FirstComma(Grouped(s)) <= 3
    decreases |s|
  {
    if |s| <= 3 {
      NoCommaFirst(s);
    } else {
      var front, last := s[..|s| - 3], s[|s| - 3..];
      LeadingGroupIsShort(front);
      FirstCommaOfConcat(Grouped(front), "," + last);
      assert Grouped(s) == Grouped(front) + ("," + last);
    }
  }

  lemma DecimalHasNoComma(n: nat)
    ensures ',' !in Decimal(n)
  {
  }

  // ------------------------------------------------------------ main results

  lemma WithoutCommasInParts(a: string, b: string, c: string)
    requires ',' !in a && ',' !in b && ',' !in c
    ensures WithoutCommas(a + (Grouped(b) + c)) == a + (b + c)
  {
    WithoutCommasConcat(a, Grouped(b) + c);
    WithoutCommasConcat(Grouped(b), c);
    NoCommas(a);
    NoCommas(c);
    GroupingAddsOnlyCommas(b);
  }

  lemma {:induction false} NoPointBefore(n: string)
    ensures '.' !in Whole(n)
  {
    if n != "" && n[0] != '.' {
      NoPointBefore(n[1..]);
      assert Whole(n) == [n[0]] + Whole(n[1..]);
    }
  }

  /** The text ends in a point exactly when nothing follows the point. */
  lemma EndsInPoint(text: string)
    requires IsNumberText(text)
    ensures var n := Unsigned(text);
            text[|text| - 1] == '.' <==> PointAt(n) < |n| && Fraction(n) == ""
  {
    var n := Unsigned(text);
    NoPointBefore(n);
    if n != "" {
      assert text[|text| - 1] == n[|n| - 1];
      if PointAt(n) == |n| {
        assert n[|n| - 1] == Whole(n)[|n| - 1];
      } else if Fraction(n) != "" {
        assert n[|n| - 1] == Fraction(n)[|Fraction(n)| - 1];
      }
    }
  }

  lemma EmptyRight(a: string)
    ensures a + "" == a
  {
  }

  lemma CutAt(n: string, i: nat)
    requires i < |n|
    ensures n == n[..i] + ([n[i]] + n[i + 1..])
  {
  }

  /** The parts are the number again, but for a point that nothing follows. */
  lemma PartsOfNumber(n: string)
    ensures Whole(n) + Tail(n) == if PointAt(n) < |n| && Fraction(n) == "" then n[..|n| - 1] else n
  {
    var i := PointAt(n);
    EmptyRight(n[..i]);
    if i < |n| {
      CutAt(n, i);
    }
  }

  lemma PartsOfText(text: string)
    requires IsNumberText(text)
    ensures Sign(text) + (Whole(Unsigned(text)) + Tail(Unsigned(text))) ==
            if text[|text| - 1] == '.' then text[..|text| - 1] else text
  {
    EndsInPoint(text);
    PartsOfNumber(Unsigned(text));
  }

  lemma PartsHaveNoCommas(text: string)
    requires IsNumberText(text)
    ensures var n := Unsigned(text); ',' !in Sign(text) && ',' !in Whole(n) && ',' !in Tail(n)
  {
  }

  /** Deleting the commas gives back the text of every number, but for a point that nothing follows. */
  lemma CommasAreAllThatIsAdded(text: string)
    requires IsNumberText(text)
    ensures WithoutCommas(Commified(text)) == if text[|text| - 1] == '.' then text[..|text| - 1] else text
  {
    var n := Unsigned(text);
    PartsOfText(text);
    PartsHaveNoCommas(text);
    WithoutCommasInParts(Sign(text), Whole(n), Tail(n));
  }

  /** Where there are commas, there are only digits besides. */
  ghost predicate GroupsAreNumbers(g: string) {
    ',' in g ==> forall k :: 0 <= k < |g| ==> g[k] == ',' || IsDigit(g[k])
  }

  lemma {:induction false} GroupedCharacters(s: string)
    ensures forall c :: c in Grouped(s) <==> c in s || (c == ',' && |s| > 3)
    decreases |s|
  {
    if |s| > 3 {
      var front, last := s[..|s| - 3], s[|s| - 3..];
      assert s == front + last;
      GroupedCharacters(front);
      GroupedSnoc(front, last);
    }
  }

  /** The groups are numbers exactly when the whole part is short or all digits; the text of a large float is neither. */
  lemma GroupsAreNumbersIff(s: string)
    requires ',' !in s
    ensures GroupsAreNumbers(Grouped(s)) <==> |s| <= 3 || AllDigits(s)
  {
    GroupedCharacters(s);
    if |s| > 3 && GroupsAreNumbers(Grouped(s)) {
      forall i | 0 <= i < |s| ensures IsDigit(s[i]) {
        assert s[i] in s && s[i] in Grouped(s);
      }
    }
    if AllDigits(s) {
      forall k | 0 <= k < |Grouped(s)| ensures Grouped(s)[k] == ',' || IsDigit(Grouped(s)[k]) {
        assert Grouped(s)[k] in Grouped(s);
      }
    }
  }

  /** `str(1e16)` is cut inside its exponent. */
  lemma ExponentIsCut()
    ensures Commified("1e+16") == "1e,+16"
  {
  }

  function GroupedDigits(value: int): string {
    Grouped(Decimal(if value < 0 then -value else value))
  }

  lemma DigitsAreGrouped(text: string, sign: string, digits: string)
    requires sign in ["", "-"] && digits != "" && AllDigits(digits) && text == sign + digits
    ensures Sign(text) == sign && Unsigned(text) == digits && Whole(digits) == digits && Tail(digits) == ""
    ensures Commified(text) == sign + Grouped(digits)
  {
  }

  lemma IntegersAreGrouped(value: int)
    ensures IsNumberText(IntText(value))
    ensures Commified(IntText(value)) == (if value < 0 then "-" else "") + GroupedDigits(value)
  {
    var digits := Decimal(if value < 0 then -value else value);
    DigitsAreGrouped(IntText(value), if value < 0 then "-" else "", digits);
    SignedDigits(IntText(value), if value < 0 then "-" else "", digits);
  }

  lemma SignedDigits(text: string, sign: string, digits: string)
    requires sign in ["", "-"] && AllDigits(digits) && text == sign + digits
    ensures ' ' !in text && ',' !in text
  {
  }

  /** For every integer: without commas the text is the number's, every comma splits off threes, and the first group is short. */
  lemma CommifiedIntegers(value: int)
    ensures Commified(IntText(value)) == (if value < 0 then "-" else "") + GroupedDigits(value)
    ensures WithoutCommas(Commified(IntText(value))) == IntText(value)
    ensures 1 <= FirstComma(GroupedDigits(value)) <= 3
    ensures CommasSplitThrees(GroupedDigits(value)) && GroupsAreNumbers(GroupedDigits(value))
  {
    var digits := Decimal(if value < 0 then -value else value);
    DecimalHasNoComma(if value < 0 then -value else value);
    IntegersAreGrouped(value);
    LeadingGroupIsShort(digits);
    GroupingSplitsThrees(digits);
    GroupsAreNumbersIff(digits);
    WithoutCommasInParts(if value < 0 then "-" else "", digits, "");
    EmptyRight(Grouped(digits));
    EmptyRight(digits);
  }
}
