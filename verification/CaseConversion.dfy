/**
 `snake2camel` and `camel2snake` on ASCII text. A regex substitution is a scan from
 left to right whose matches do not overlap.
 */
module CaseConversion {

  predicate IsLower(c: char) { 'a' <= c <= 'z' }
  predicate IsUpper(c: char) { 'A' <= c <= 'Z' }
  predicate IsDigit(c: char) { '0' <= c <= '9' }
  predicate IsLetter(c: char) { IsLower(c) || IsUpper(c) }
  predicate IsAlnum(c: char) { IsLetter(c) || IsDigit(c) }

  function ToUpper(c: char): char {
    if IsLower(c) then (c - 'a') + 'A' else c
  }

  function ToLower(c: char): char {
    if IsUpper(c) then (c - 'A') + 'a' else c
  }

  function Lower(s: string): string {
    if s == "" then "" else [ToLower(s[0])] + Lower(s[1..])
  }

  /** `str.title()` of the text behind a character that is (`inWord`) or is not a letter. */
  function Title(s: string, inWord: bool): string {
    if s == "" then ""
    else [if inWord then ToLower(s[0]) else ToUpper(s[0])] + Title(s[1..], IsLetter(s[0]))
  }

  /** `([0-9A-Za-z])_(?=[0-9A-Z])` replaced by its group. */
  function JoinWords(s: string): string {
    if |s| < 3 then s
    else if IsAlnum(s[0]) && s[1] == '_' && (IsDigit(s[2]) || IsUpper(s[2])) then [s[0]] + JoinWords(s[2..])
    else [s[0]] + JoinWords(s[1..])
  }

  function Underscores(s: string): (k: nat)
    ensures k <= |s| && (k < |s| ==> s[k] != '_') && forall i :: 0 <= i < k ==> s[i] == '_'
  {
    if s == "" || s[0] != '_' then 0 else 1 + Underscores(s[1..])
  }

  /** `(^_*[A-Z])` replaced by its lower case. */
  function LowerFirst(s: string): string {
    var k := Underscores(s);
    if k < |s| && IsUpper(s[k]) then s[k := ToLower(s[k])] else s
  }

  function Snake2Camel(snake: string, startLower: bool): string {
    var camel := JoinWords(Title(snake, false));
    if startLower then LowerFirst(camel) else camel
  }

  /** `([a-zA-Z])([0-9])` with an underscore put between. */
  function SplitDigits(s: string): string {
    if |s| < 2 then s
    else if IsLetter(s[0]) && IsDigit(s[1]) then [s[0], '_', s[1]] + SplitDigits(s[2..])
    else [s[0]] + SplitDigits(s[1..])
  }

  /** `([a-z0-9])([A-Z])` with an underscore put between. */
  function SplitCapitals(s: string): string {
    if |s| < 2 then s
    else if (IsLower(s[0]) || IsDigit(s[0])) && IsUpper(s[1]) then [s[0], '_', s[1]] + SplitCapitals(s[2..])
    else [s[0]] + SplitCapitals(s[1..])
  }

  function Camel2Snake(camel: string): string {
    Lower(SplitCapitals(SplitDigits(camel)))
  }

  // ----------------------------------------------- both scans as one local rule

  /** Where `camel2snake` puts an underscore. */
  predicate Boundary(a: char, b: char) {
    (IsLetter(a) && IsDigit(b)) || ((IsLower(a) || IsDigit(a)) && IsUpper(b))
  }

  function SplitAll(s: string): string {
    if |s| < 2 then s
    else if Boundary(s[0], s[1]) then [s[0], '_'] + SplitAll(s[1..])
    else [s[0]] + SplitAll(s[1..])
  }

  lemma SplitDigitsPlain(c: char, rest: string)
    requires rest == "" || !(IsLetter(c) && IsDigit(rest[0]))
    ensures SplitDigits([c] + rest) == [c] + SplitDigits(rest)
  {
  }

  lemma SplitDigitsCut(c: char, d: char, rest: string)
    requires IsLetter(c) && IsDigit(d)
    ensures SplitDigits([c] + ([d] + rest)) == [c, '_'] + SplitDigits([d] + rest)
  {
    var s := [c] + ([d] + rest);
    assert s[1] == d && s[2..] == rest;
    SplitDigitsPlain(d, rest);
    assert [c, '_', d] + SplitDigits(rest) == [c, '_'] + ([d] + SplitDigits(rest));
  }

  lemma SplitCapitalsPlain(c: char, rest: string)
    requires rest == "" || !((IsLower(c) || IsDigit(c)) && IsUpper(rest[0]))
    ensures SplitCapitals([c] + rest) == [c] + SplitCapitals(rest)
  {
  }

  lemma SplitCapitalsCut(c: char, d: char, rest: string)
    requires (IsLower(c) || IsDigit(c)) && IsUpper(d)
    ensures SplitCapitals([c] + ([d] + rest)) == [c, '_'] + SplitCapitals([d] + rest)
  {
    var s := [c] + ([d] + rest);
    assert s[1] == d && s[2..] == rest;
    SplitCapitalsPlain(d, rest);
    assert [c, '_', d] + SplitCapitals(rest) == [c, '_'] + ([d] + SplitCapitals(rest));
  }

  lemma {:induction false} ScansAreLocal(s: string)
    ensures SplitCapitals(SplitDigits(s)) == SplitAll(s)
    ensures SplitDigits(s) == "" <==> s == ""
    ensures s != "" ==> SplitDigits(s)[0] == s[0]
    decreases |s|
  {
    if |s| >= 2 {
      var c, tail := s[0], s[1..];
      assert s == [c] + tail && tail == [tail[0]] + tail[1..];
      ScansAreLocal(tail);
      var rest := SplitDigits(tail);
      if IsLetter(c) && IsDigit(tail[0]) {
        SplitDigitsCut(c, tail[0], tail[1..]);
        SplitCapitalsSkips(c, '_', rest);
      } else {
        SplitDigitsPlain(c, tail);
        assert rest == [rest[0]] + rest[1..];
        if (IsLower(c) || IsDigit(c)) && IsUpper(tail[0]) {
          SplitCapitalsCut(c, rest[0], rest[1..]);
        } else {
          SplitCapitalsPlain(c, rest);
        }
      }
    }
  }

  lemma SplitCapitalsSkips(a: char, u: char, rest: string)
    requires u == '_'
    ensures SplitCapitals([a, u] + rest) == [a, u] + SplitCapitals(rest)
  {
    assert [a, u] + rest == [a] + ([u] + rest);
    SplitCapitalsPlain(a, [u] + rest);
    SplitCapitalsPlain(u, rest);
  }

  // --------------------------------------------------- one pass there and back

  /** What the way there and back makes of `s` behind a letter, or not. */
  function Back(s: string, inWord: bool): string {
    Lower(SplitAll(JoinWords(Title(s, inWord))))
  }

  /**
   The character at `i` survives: it is not a capital, it does not touch a character of
   the other kind (letter, digit), and if a single underscore joins it to the next word,
   the two words are not both numbers, and of two letter words the first does not end
   in a capital of the camel form.
   */
  predicate Survives(s: string, inWord: bool, i: int)
    requires 0 <= i < |s|
  {
    && !IsUpper(s[i])
    && (i + 1 < |s| ==> !(IsLetter(s[i]) && IsDigit(s[i + 1])) && !(IsDigit(s[i]) && IsLetter(s[i + 1])))
    && (i + 2 < |s| && s[i + 1] == '_' && IsAlnum(s[i]) && IsAlnum(s[i + 2]) ==>
          && !(IsDigit(s[i]) && IsDigit(s[i + 2]))
          && (IsLetter(s[i]) && IsLetter(s[i + 2]) ==> if i == 0 then inWord else IsLetter(s[i - 1])))
  }

  ghost predicate AllSurvive(s: string, inWord: bool) {
    forall i :: 0 <= i < |s| ==> Survives(s, inWord, i)
  }

  lemma SurvivesShift(s: string, inWord: bool, i: int)
    requires 0 <= i < |s| - 1
    ensures Survives(s, inWord, i + 1) <==> Survives(s[1..], IsLetter(s[0]), i)
  {
  }

  lemma AllSurviveSplits(s: string, inWord: bool)
    requires s != ""
    ensures AllSurvive(s, inWord) <==> Survives(s, inWord, 0) && AllSurvive(s[1..], IsLetter(s[0]))
  {
    var t := s[1..];
    if AllSurvive(s, inWord) {
      forall i | 0 <= i < |t| ensures Survives(t, IsLetter(s[0]), i) {
        SurvivesShift(s, inWord, i);
        assert Survives(s, inWord, i + 1);
      }
    }
    if Survives(s, inWord, 0) && AllSurvive(t, IsLetter(s[0])) {
      forall i | 0 <= i < |s| ensures Survives(s, inWord, i) {
        if i > 0 { SurvivesShift(s, inWord, i - 1); assert Survives(t, IsLetter(s[0]), i - 1); }
      }
    }
  }

  lemma TitleShape(s: string, inWord: bool)
    ensures |Title(s, inWord)| == |s|
    ensures s != "" ==> Title(s, inWord)[0] == (if inWord then ToLower(s[0]) else ToUpper(s[0]))
    ensures |s| > 1 ==> Title(s, inWord)[1..] == Title(s[1..], IsLetter(s[0]))
  {
  }

  lemma JoinWordsShape(s: string)
    ensures JoinWords(s) == "" <==> s == ""
    ensures s != "" ==> JoinWords(s)[0] == s[0]
  {
  }

  lemma LowerConcat(a: string, b: string)
    ensures Lower(a + b) == Lower(a) + Lower(b)
  {
    if a != "" {
      LowerConcat(a[1..], b);
      assert (a + b)[1..] == a[1..] + b;
    } else {
      assert a + b == b;
    }
  }

  lemma SplitAllCons(c: char, rest: string)
    ensures SplitAll([c] + rest) ==
              (if rest != "" && Boundary(c, rest[0]) then [c, '_'] else [c]) + SplitAll(rest)
  {
  }

  /** `Back` of a text whose first character stands, followed by the camel text of `tail`. */
  lemma BackCons(c: char, tail: string, inWord: bool, whole: string)
    requires whole == Lower(SplitAll([c] + JoinWords(Title(tail, inWord))))
    ensures var t := Title(tail, inWord);
            |t| == |tail| &&
            whole == (if tail != "" && Boundary(c, t[0]) then [ToLower(c), '_'] else [ToLower(c)]) + Back(tail, inWord)
  {
    var t := Title(tail, inWord);
    TitleShape(tail, inWord);
    JoinWordsShape(t);
    SplitAllCons(c, JoinWords(t));
    var head := if tail != "" && Boundary(c, t[0]) then [c, '_'] else [c];
    LowerConcat(head, SplitAll(JoinWords(t)));
    assert Lower([c]) == [ToLower(c)] + Lower("");
    assert Lower([c, '_']) == [ToLower(c)] + Lower(['_']) && Lower(['_']) == ['_'] + Lower("");
  }

  lemma BackFirst(s: string, inWord: bool)
    requires s != ""
    ensures Back(s, inWord) != "" && Back(s, inWord)[0] == ToLower(s[0])
  {
  }

  predicate Joins(s: string) {
    |s| >= 3 && IsAlnum(s[0]) && s[1] == '_' && IsAlnum(s[2])
  }

  /** The camel form either drops the underscore behind the first character or steps over it. */
  lemma TitleOfThree(s: string, inWord: bool)
    requires |s| >= 3
    ensures var t := Title(s, inWord);
            && |t| == |s| && t[1] == (if IsLetter(s[0]) then ToLower(s[1]) else ToUpper(s[1]))
            && t[2] == (if IsLetter(s[1]) then ToLower(s[2]) else ToUpper(s[2]))
            && t[1..] == Title(s[1..], IsLetter(s[0])) && t[2..] == Title(s[2..], IsLetter(s[1]))
  {
    var t := Title(s, inWord);
    TitleShape(s, inWord);
    TitleShape(s[1..], IsLetter(s[0]));
    assert s[1..][1..] == s[2..] && t[1..][1..] == t[2..];
    assert t[1..][0] == t[1];
    TitleShape(s[2..], IsLetter(s[1]));
    assert t[2..][0] == t[2];
  }

  lemma JoinStep(s: string, inWord: bool)
    requires s != ""
    ensures var c := if inWord then ToLower(s[0]) else ToUpper(s[0]);
            JoinWords(Title(s, inWord)) ==
              [c] + if Joins(s) then JoinWords(Title(s[2..], false)) else JoinWords(Title(s[1..], IsLetter(s[0])))
  {
    var t := Title(s, inWord);
    TitleShape(s, inWord);
    if |s| >= 3 {
      TitleOfThree(s, inWord);
    } else if |s| == 2 {
      assert t == [t[0]] + t[1..];
      TitleShape(s[1..], IsLetter(s[0]));
    } else {
      assert s[1..] == "" && t == [t[0]];
    }
  }

  /** There and back again is the identity exactly on the texts all of whose characters survive. */
  lemma {:induction false} BackIsIdentityIff(s: string, inWord: bool)
    ensures Back(s, inWord) == s <==> AllSurvive(s, inWord)
    decreases |s|
  {
    if s != "" {
      var c := if inWord then ToLower(s[0]) else ToUpper(s[0]);
      AllSurviveSplits(s, inWord);
      JoinStep(s, inWord);
      if Joins(s) {
        AllSurviveSplits(s[1..], IsLetter(s[0]));
        assert s[1..][1..] == s[2..] && Survives(s[1..], IsLetter(s[0]), 0);
        BackIsIdentityIff(s[2..], false);
        BackCons(c, s[2..], false, Back(s, inWord));
        JoinedStep(s, inWord, c);
      } else {
        BackIsIdentityIff(s[1..], IsLetter(s[0]));
        BackCons(c, s[1..], IsLetter(s[0]), Back(s, inWord));
        PlainStep(s, inWord, c);
      }
    }
  }

  lemma JoinedStep(s: string, inWord: bool, c: char)
    requires Joins(s) && c == (if inWord then ToLower(s[0]) else ToUpper(s[0]))
    requires var first := ToUpper(s[2]);
             Back(s, inWord) == (if Boundary(c, first) then [ToLower(c), '_'] else [ToLower(c)]) + Back(s[2..], false)
    ensures Back(s, inWord) == s <==> Survives(s, inWord, 0) && Back(s[2..], false) == s[2..]
  {
    BackFirst(s[2..], false);
    assert s == [s[0], '_'] + s[2..];
    var tail := Back(s[2..], false);
    if Boundary(c, ToUpper(s[2])) {
      assert ([ToLower(c), '_'] + tail)[2..] == tail;
    } else {
      assert ([ToLower(c)] + tail)[1] == tail[0] != '_';
    }
  }

  lemma PlainStep(s: string, inWord: bool, c: char)
    requires s != "" && !Joins(s) && c == (if inWord then ToLower(s[0]) else ToUpper(s[0]))
    requires |Title(s[1..], IsLetter(s[0]))| == |s| - 1
    requires var cut := |s| > 1 && Boundary(c, Title(s[1..], IsLetter(s[0]))[0]);
             Back(s, inWord) == (if cut then [ToLower(c), '_'] else [ToLower(c)]) + Back(s[1..], IsLetter(s[0]))
    ensures Back(s, inWord) == s <==> Survives(s, inWord, 0) && Back(s[1..], IsLetter(s[0])) == s[1..]
  {
  }

  // ------------------------------------------------------------ main results

  /** `camel2snake(snake2camel(s)) == s` exactly when every character of `s` survives. */
  lemma CamelRoundTripIff(s: string)
    ensures Camel2Snake(Snake2Camel(s, false)) == s <==> AllSurvive(s, false)
  {
    ScansAreLocal(Snake2Camel(s, false));
    BackIsIdentityIff(s, false);
  }

  function LowerBack(s: string): string {
    Lower(SplitAll(LowerFirst(JoinWords(Title(s, false)))))
  }

  lemma LowerFirstSkipsUnderscore(t: string)
    ensures LowerFirst(['_'] + t) == ['_'] + LowerFirst(t)
  {
    var s := ['_'] + t;
    assert s[1..] == t;
    var k := Underscores(t);
    assert Underscores(s) == k + 1;
    if k < |t| {
      assert s[k + 1] == t[k];
      assert s[k + 1 := ToLower(t[k])] == ['_'] + t[k := ToLower(t[k])];
    }
  }

  lemma LowerBackSkipsUnderscore(s: string)
    requires s != "" && s[0] == '_'
    ensures LowerBack(s) == ['_'] + LowerBack(s[1..])
  {
    JoinStep(s, false);
    var j := JoinWords(Title(s[1..], false));
    LowerFirstSkipsUnderscore(j);
    SplitAllCons('_', LowerFirst(j));
    LowerConcat(['_'], SplitAll(LowerFirst(j)));
    assert Lower(['_']) == ['_'] + Lower("");
  }

  /** With `start_lower`, the first word counts as already begun. */
  lemma LowerBackStartsInWord(s: string)
    requires s != "" && s[0] != '_'
    ensures LowerBack(s) == Back(s, true)
  {
    JoinStep(s, false);
    JoinStep(s, true);
    var j := JoinWords(Title(s, false));
    assert Underscores(j) == 0;
    assert j[0 := ToLower(j[0])] == [ToLower(j[0])] + j[1..];
    var rest := if Joins(s) then JoinWords(Title(s[2..], false)) else JoinWords(Title(s[1..], IsLetter(s[0])));
    assert j == [ToUpper(s[0])] + rest && j[1..] == rest;
    assert LowerFirst(j) == [ToLower(s[0])] + rest;
  }

  function Unprefixed(s: string): string {
    s[Underscores(s)..]
  }

  lemma UnprefixedSkips(s: string)
    requires s != "" && s[0] == '_'
    ensures Unprefixed(s) == Unprefixed(s[1..])
  {
  }

  lemma {:induction false} LowerBackIsIdentityIff(s: string)
    ensures LowerBack(s) == s <==> AllSurvive(Unprefixed(s), true)
  {
    if s == "" {
    } else if s[0] == '_' {
      LowerBackSkipsUnderscore(s);
      LowerBackIsIdentityIff(s[1..]);
      UnprefixedSkips(s);
      assert s == ['_'] + s[1..];
      assert (['_'] + LowerBack(s[1..]))[1..] == LowerBack(s[1..]);
    } else {
      LowerBackStartsInWord(s);
      BackIsIdentityIff(s, true);
      assert s[0..] == s;
    }
  }

  /** The same with `start_lower`, where the first word of the text may be one letter. */
  lemma LowerCamelRoundTripIff(s: string)
    ensures Camel2Snake(Snake2Camel(s, true)) == s <==> AllSurvive(Unprefixed(s), true)
  {
    ScansAreLocal(Snake2Camel(s, true));
    LowerBackIsIdentityIff(s);
  }

  // ------------------------------------------------------- snake-case words

  ghost predicate IsWord(w: string) {
    w != "" && forall i :: 0 <= i < |w| ==> IsLower(w[i])
  }

  /** Words joined by single underscores. */
  function Snake(words: seq<string>): string {
    if words == [] then "" else if |words| == 1 then words[0] else words[0] + "_" + Snake(words[1..])
  }

  /** Lower-case words, all but the last of at least two letters; `begun` lets the first be shorter. */
  ghost predicate SnakeWords(words: seq<string>, begun: bool) {
    && (forall i :: 0 <= i < |words| ==> IsWord(words[i]))
    && (forall i :: 0 <= i < |words| - 1 ==> |words[i]| >= 2 || (i == 0 && begun))
  }

  lemma WordBeforeRestSurvives(w: string, rest: string, begun: bool)
    requires IsWord(w) && (begun || |w| >= 2)
    requires rest != "" && IsLower(rest[0]) && AllSurvive(rest, false)
    ensures AllSurvive(w + "_" + rest, begun)
  {
    var s := w + "_" + rest;
    forall i | 0 <= i < |s| ensures Survives(s, begun, i) {
      if i > |w| {
        assert Survives(rest, false, i - |w| - 1);
        assert s[i] == rest[i - |w| - 1];
      } else if i < |w| {
        assert s[i] == w[i] && IsLower(s[i]);
      }
    }
  }

  lemma {:induction false} SnakeWordsSurvive(words: seq<string>, begun: bool)
    requires SnakeWords(words, begun)
    ensures AllSurvive(Snake(words), begun)
    ensures words != [] ==> Snake(words) != "" && IsLower(Snake(words)[0])
  {
    if |words| > 1 {
      var rest := words[1..];
      assert forall i :: 0 <= i < |rest| ==> rest[i] == words[i + 1];
      SnakeWordsSurvive(rest, false);
      WordBeforeRestSurvives(words[0], Snake(rest), begun);
    }
  }

  lemma {:induction false} LeadingUnderscoresSurvive(s: string, more: string)
    requires AllSurvive(more, false) && (forall i :: 0 <= i < |s| ==> s[i] == '_')
    ensures AllSurvive(s + more, false)
  {
    if s == "" {
      assert s + more == more;
    } else {
      LeadingUnderscoresSurvive(s[1..], more);
      assert (s + more)[1..] == s[1..] + more;
      AllSurviveSplits(s + more, false);
    }
  }

  /** Leading underscores and snake-case words survive the round trip; with `start_lower` the first word may be one letter. */
  lemma SnakeWordsRoundTrip(leading: string, words: seq<string>, startLower: bool)
    requires forall i :: 0 <= i < |leading| ==> leading[i] == '_'
    requires SnakeWords(words, startLower) && words != []
    ensures var s := leading + Snake(words); Camel2Snake(Snake2Camel(s, startLower)) == s
  {
    SnakeWordsSurvive(words, startLower);
    var s := leading + Snake(words);
    if startLower {
      LeadingUnderscoresEnd(leading, Snake(words));
      LowerCamelRoundTripIff(s);
    } else {
      LeadingUnderscoresSurvive(leading, Snake(words));
      CamelRoundTripIff(s);
    }
  }

  lemma {:induction false} LeadingUnderscoresEnd(s: string, more: string)
    requires more != "" && more[0] != '_' && (forall i :: 0 <= i < |s| ==> s[i] == '_')
    ensures Unprefixed(s + more) == more
  {
    if s == "" {
      assert s + more == more;
      assert more[0..] == more;
    } else {
      LeadingUnderscoresEnd(s[1..], more);
      assert (s + more)[1..] == s[1..] + more;
      UnprefixedSkips(s + more);
    }
  }

  // ------------------------------------------------------- the camel text

  /** The words run together, each with a capital first letter. */
  function Camel(words: seq<string>): string {
    if words == [] then "" else Capitalised(words[0]) + Camel(words[1..])
  }

  function Capitalised(w: string): string {
    if w == "" then "" else [ToUpper(w[0])] + w[1..]
  }

  lemma {:induction false} TitleInWord(w: string, rest: string)
    requires forall i :: 0 <= i < |w| ==> IsLower(w[i])
    ensures Title(w + rest, true) == w + Title(rest, true)
  {
    if w == "" {
      assert w + rest == rest;
    } else {
      assert (w + rest)[1..] == w[1..] + rest;
      TitleInWord(w[1..], rest);
      assert w == [w[0]] + w[1..];
    }
  }

  lemma TitleOfWord(w: string, rest: string)
    requires IsWord(w)
    ensures Title(w + rest, false) == Capitalised(w) + Title(rest, true)
  {
    assert (w + rest)[1..] == w[1..] + rest;
    TitleInWord(w[1..], rest);
  }

  lemma {:induction false} JoinWordsOfWord(w: string, rest: string)
    requires w != "" && (forall i :: 0 <= i < |w| ==> IsAlnum(w[i])) && rest != "" && IsUpper(rest[0])
    ensures JoinWords(w + ("_" + rest)) == w + JoinWords(rest)
  {
    var s := w + ("_" + rest);
    if |w| == 1 {
      assert s[2..] == rest;
    } else {
      assert s[1..] == w[1..] + ("_" + rest);
      JoinWordsOfWord(w[1..], rest);
      assert w == [w[0]] + w[1..];
    }
  }

  lemma {:induction false} JoinWordsOfLast(w: string)
    requires forall i :: 0 <= i < |w| ==> IsAlnum(w[i])
    ensures JoinWords(w) == w
  {
    if |w| >= 3 {
      JoinWordsOfLast(w[1..]);
      assert w == [w[0]] + w[1..];
    }
  }

  lemma {:induction false} JoinedTitle(words: seq<string>)
    requires words != [] && forall i :: 0 <= i < |words| ==> IsWord(words[i])
    ensures JoinWords(Title(Snake(words), false)) == Camel(words)
    ensures var title := Title(Snake(words), false); title != "" && IsUpper(title[0])
  {
    var w, rest := words[0], words[1..];
    if rest == [] {
      TitleOfWord(w, "");
      assert w + "" == w && Capitalised(w) + "" == Capitalised(w);
      JoinWordsOfLast(Capitalised(w));
    } else {
      JoinedTitle(rest);
      var title := Title(Snake(rest), false);
      TitleOfWord(w, "_" + Snake(rest));
      assert w + ("_" + Snake(rest)) == Snake(words);
      assert ("_" + Snake(rest))[1..] == Snake(rest);
      assert Title("_" + Snake(rest), true) == "_" + title;
      JoinWordsOfWord(Capitalised(w), title);
    }
  }

  lemma TitleOfUnderscore(s: string)
    ensures Title("_" + s, false) == "_" + Title(s, false)
  {
  }

  lemma JoinWordsOfUnderscore(s: string)
    ensures JoinWords("_" + s) == "_" + JoinWords(s)
  {
  }

  lemma {:induction false} UnderscoresStay(leading: string, s: string)
    requires forall i :: 0 <= i < |leading| ==> leading[i] == '_'
    ensures JoinWords(Title(leading + s, false)) == leading + JoinWords(Title(s, false))
  {
    if leading == "" {
      assert leading + s == s;
    } else {
      var rest := leading[1..] + s;
      assert leading + s == "_" + rest && leading == "_" + leading[1..];
      TitleOfUnderscore(rest);
      JoinWordsOfUnderscore(Title(rest, false));
      UnderscoresStay(leading[1..], s);
    }
  }

  lemma LowerFirstBehind(leading: string, s: string)
    requires forall i :: 0 <= i < |leading| ==> leading[i] == '_'
    requires s != "" && IsUpper(s[0])
    ensures LowerFirst(leading + s) == leading + ([ToLower(s[0])] + s[1..])
  {
    var all := leading + s;
    assert all[|leading|] == s[0];
    assert Underscores(all) == |leading|;
    assert all[|leading| := ToLower(s[0])] == leading + ([ToLower(s[0])] + s[1..]);
  }

  lemma LowerCapitalised(w: string, more: string)
    requires w != "" && IsLower(w[0])
    ensures var s := Capitalised(w) + more; s != "" && IsUpper(s[0]) && [ToLower(s[0])] + s[1..] == w + more
  {
  }

  /** Snake-case words become one camel-case word; leading underscores stay, and with `start_lower` the first letter too. */
  lemma SnakeBecomesCamel(leading: string, words: seq<string>)
    requires forall i :: 0 <= i < |leading| ==> leading[i] == '_'
    requires words != [] && forall i :: 0 <= i < |words| ==> IsWord(words[i])
    ensures Snake2Camel(leading + Snake(words), false) == leading + Camel(words)
    ensures Snake2Camel(leading + Snake(words), true) == leading + (words[0] + Camel(words[1..]))
  {
    UnderscoresStay(leading, Snake(words));
    JoinedTitle(words);
    LowerCapitalised(words[0], Camel(words[1..]));
    LowerFirstBehind(leading, Camel(words));
  }
}
