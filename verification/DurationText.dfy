/** `seconds_to_readable_display`: a number of seconds as days, hours, minutes and seconds. */
module DurationText {
  import opened Optional
  import opened NumberText

  datatype Language = Cn | En

  const UNITS := 4

  /** The texts behind the four amounts. */
  datatype Units = Units(day: string, hour: string, minute: string, second: string)

  function Appendices(lang: Language): Units {
    match lang
    case Cn => Units("\U{5929}", "\U{5C0F}\U{65F6}", "\U{5206}\U{949F}", "\U{79D2}")
    case En => Units("d", "h", "m", "s")
  }

  function Unit(units: Units, i: nat): (u: string)
    requires i < UNITS
  {
    if i == 0 then units.day else if i == 1 then units.hour else if i == 2 then units.minute else units.second
  }

  /** A reader can tell units from amounts and from each other by their first character. */
  ghost predicate Readable(units: Units) {
    && (forall i: nat :: i < UNITS ==> Unit(units, i) != "" && !IsDigit(Unit(units, i)[0]))
    && (forall i: nat, j: nat :: j < i < UNITS ==> Unit(units, i)[0] != Unit(units, j)[0])
  }

  lemma AppendicesAreReadable(lang: Language)
    ensures Readable(Appendices(lang))
  {
    var units := Appendices(lang);
    assert Unit(units, 0) == units.day && Unit(units, 1) == units.hour && Unit(units, 2) == units.minute && Unit(units, 3) == units.second;
  }

  /** Seconds in one of the i-th unit. */
  function Weight(i: nat): (w: nat)
    requires i < UNITS
    ensures w > 0
  {
    if i == 0 then 86400 else if i == 1 then 3600 else if i == 2 then 60 else 1
  }

  /** `amount` of the i-th unit, in seconds. */
  function Seconds(amount: nat, i: nat): nat
    requires i < UNITS
  {
    if i == 0 then amount * 86400 else if i == 1 then amount * 3600 else if i == 2 then amount * 60 else amount
  }

  /** How many of the i-th unit fit into `n` seconds. */
  function Whole(n: nat, i: nat): nat
    requires i < UNITS
  {
    if i == 0 then n / 86400 else if i == 1 then n / 3600 else if i == 2 then n / 60 else n
  }

  /** What `n` holds beyond its units larger than the i-th. */
  function Rest(n: nat, i: nat): nat
    requires i <= UNITS
  {
    if i == 0 then n else n - Seconds(Whole(n, i - 1), i - 1)
  }

  /** How many of the i-th unit `n` seconds hold beyond the larger units. */
  function Amount(n: nat, i: nat): nat
    requires i < UNITS
  {
    Whole(Rest(n, i), i)
  }

  function Piece(amount: nat, unit: string): string {
    if amount == 0 then "" else Decimal(amount) + unit
  }

  /** The first `level` amounts of `n`. */
  function Amounts(n: nat, level: nat): (amounts: seq<nat>)
    requires level <= UNITS
    ensures |amounts| == level && forall i: nat :: i < level ==> amounts[i] == Amount(n, i)
  {
    seq(level, (i: nat) requires i < level => Amount(n, i))
  }

  /** The texts of the amounts from unit `i` on, joined. */
  function Pieces(amounts: seq<nat>, units: Units, i: nat): string
    requires i <= |amounts| <= UNITS
    decreases |amounts| - i
  {
    if i == |amounts| then "" else Piece(amounts[i], Unit(units, i)) + Pieces(amounts, units, i + 1)
  }

  function Abs(n: int): nat {
    if n < 0 then -n else n
  }

  function Display(n: int, units: Units, level: nat): string
    requires 1 <= level <= UNITS
  {
    (if n < 0 then "-" else "") + Pieces(Amounts(Abs(n), level), units, 0)
  }

  method SecondsToReadableDisplay(given: int, lang: Language, level: nat) returns (text: string)
    requires 1 <= level <= UNITS
    ensures text == Display(given, Appendices(lang), level)
  {
    var seconds := given;
    var isNegative := false;
    if seconds < 0 {
      seconds := -seconds;
      isNegative := true;
    }
    ghost var n: nat := seconds;
    var d, h, m, s := SplitSeconds(seconds);
    var units := Appendices(lang);
    var result := [Piece(d, Unit(units, 0)), Piece(h, Unit(units, 1)), Piece(m, Unit(units, 2)), Piece(s, Unit(units, 3))];
    result := result[..level];
    PiecesJoin(result, Amounts(n, level), units, 0);
    text := if isNegative then "-" + Join(result) else Join(result);
  }

  /** The arithmetic of the printer: days come off first, then seconds, minutes and hours of the rest. */
  method SplitSeconds(given: nat) returns (d: nat, h: nat, m: nat, s: nat)
    ensures d == Amount(given, 0) && h == Amount(given, 1) && m == Amount(given, 2) && s == Amount(given, 3)
  {
    var seconds := given;
    d := seconds / (60 * 60 * 24);
    seconds := seconds - d * (60 * 60 * 24);
    ghost var rest := seconds;
    s := seconds % 60;
    seconds := seconds / 60;
    m := seconds % 60;
    seconds := seconds / 60;
    h := seconds % 60;
    AmountsOfRest(given, d, rest);
    HoursAndMinutes(rest);
  }

  /** `"".join(parts)` */
  function Join(parts: seq<string>): string {
    if parts == [] then "" else parts[0] + Join(parts[1..])
  }

  lemma {:induction false} PiecesJoin(parts: seq<string>, amounts: seq<nat>, units: Units, i: nat)
    requires i + |parts| == |amounts| <= UNITS
    requires forall j: nat :: j < |parts| ==> parts[j] == Piece(amounts[i + j], Unit(units, i + j))
    ensures Join(parts) == Pieces(amounts, units, i)
    decreases |parts|
  {
    if parts != [] {
      assert parts[0] == Piece(amounts[i + 0], Unit(units, i + 0));
      forall j: nat | j < |parts| - 1
        ensures parts[1..][j] == Piece(amounts[i + 1 + j], Unit(units, i + 1 + j))
      {
        assert parts[1..][j] == parts[j + 1];
      }
      PiecesJoin(parts[1..], amounts, units, i + 1);
    }
  }

  lemma AmountsOfRest(n: nat, d: nat, rest: nat)
    requires d == n / 86400 && rest == n - d * 86400
    ensures d == Amount(n, 0) && rest < 86400
    ensures Amount(n, 1) == rest / 3600 && Amount(n, 2) == rest % 3600 / 60 && Amount(n, 3) == rest % 60
  {
    assert n / 3600 == d * 24 + rest / 3600;
    assert n / 60 == d * 1440 + rest / 60;
  }

  lemma HoursAndMinutes(rest: nat)
    requires rest < 86400
    ensures rest / 60 % 60 == rest % 3600 / 60 && rest / 60 / 60 % 60 == rest / 3600
  {
  }

  // ---------------------------------------------------------------- reading

  function LeadingDigits(s: string): (digits: string)
    ensures |digits| <= |s| && AllDigits(digits)
  {
    if s == "" || !IsDigit(s[0]) then "" else [s[0]] + LeadingDigits(s[1..])
  }

  /** The first unit `s` starts with. */
  function UnitAt(s: string, units: Units, i: nat): (u: nat)
    requires i <= UNITS
    ensures i <= u <= UNITS && (u < UNITS ==> |Unit(units, u)| <= |s|)
    decreases UNITS - i
  {
    if i == UNITS || Unit(units, i) <= s then i else UnitAt(s, units, i + 1)
  }

  datatype Parsed = Parsed(seconds: nat, rest: string)

  /** The amount and unit `s` starts with, in seconds, and the text behind them. */
  function FirstPiece(s: string, units: Units): (r: Option<Parsed>)
    ensures r.Some? ==> |r.value.rest| < |s|
  {
    var digits := LeadingDigits(s);
    var tail := s[|digits|..];
    var u := UnitAt(tail, units, 0);
    if digits == "" || u == UNITS then None
    else Some(Parsed(Seconds(ReadDecimal(digits), u), tail[|Unit(units, u)|..]))
  }

  type Reader = string -> Option<Parsed>

  function PieceReader(units: Units): Reader {
    s => FirstPiece(s, units)
  }

  /** The seconds of all pieces that `first` cuts off `s` one after the other. */
  function ReadAll(first: Reader, s: string): Option<nat>
    decreases |s|
  {
    if s == "" then Some(0)
    else
      var piece := first(s);
      if piece.None? || |piece.value.rest| >= |s| then None
      else
        var rest := ReadAll(first, piece.value.rest);
        if rest.None? then None else Some(piece.value.seconds + rest.value)
  }

  function ReadSigned(first: Reader, s: string): Option<int> {
    var negative := s != "" && s[0] == '-';
    var total := ReadAll(first, if negative then s[1..] else s);
    if total.None? then None else Some(Signed(negative, total.value))
  }

  function Signed(negative: bool, n: nat): int {
    if negative then 0 - n else n
  }

  /** The signed number of seconds a displayed text denotes. */
  function Read(s: string, units: Units): Option<int> {
    ReadSigned(PieceReader(units), s)
  }

  lemma {:induction false} LeadingDigitsOfConcat(a: string, b: string)
    requires AllDigits(a) && (b == "" || !IsDigit(b[0]))
    ensures LeadingDigits(a + b) == a
  {
    if a != "" {
      LeadingDigitsOfConcat(a[1..], b);
      assert (a + b)[1..] == a[1..] + b;
    } else {
      assert a + b == b;
    }
  }

  lemma {:induction false} UnitIsFound(units: Units, i: nat, s: string, j: nat)
    requires Readable(units) && j <= i < UNITS && Unit(units, i) <= s
    ensures UnitAt(s, units, j) == i
    decreases i - j
  {
    if j < i {
      assert s[0] == Unit(units, i)[0] != Unit(units, j)[0];
      UnitIsFound(units, i, s, j + 1);
    }
  }

  lemma FirstPieceOf(s: string, digits: string, units: Units, i: nat, rest: string)
    requires Readable(units) && i < UNITS && digits != "" && AllDigits(digits)
    requires s == digits + Unit(units, i) + rest
    ensures FirstPiece(s, units) == Some(Parsed(Seconds(ReadDecimal(digits), i), rest))
  {
    var unit := Unit(units, i);
    var tail := unit + rest;
    assert s == digits + tail;
    assert unit != "" && tail[0] == unit[0];
    LeadingDigitsOfConcat(digits, tail);
    assert s[|digits|..] == tail;
    UnitIsFound(units, i, tail, 0);
    assert tail[|unit|..] == rest;
  }

  /** `first` cuts a positive amount with its unit off the front of any text. */
  ghost predicate CutsPieces(first: Reader, units: Units) {
    forall amount: nat, i: nat, rest: string :: i < UNITS ==>
      first(Decimal(amount) + Unit(units, i) + rest) == Some(Parsed(Seconds(amount, i), rest))
  }

  lemma PieceReaderCutsPieces(units: Units)
    requires Readable(units)
    ensures CutsPieces(PieceReader(units), units)
  {
    forall amount: nat, i: nat, rest: string | i < UNITS
      ensures FirstPiece(Decimal(amount) + Unit(units, i) + rest, units) == Some(Parsed(Seconds(amount, i), rest))
    {
      ReadDecimalInvertsDecimal(amount);
      FirstPieceOf(Decimal(amount) + Unit(units, i) + rest, Decimal(amount), units, i, rest);
    }
  }

  lemma ReadOnePiece(first: Reader, units: Units, amount: nat, i: nat, rest: string, total: nat)
    requires CutsPieces(first, units) && i < UNITS && ReadAll(first, rest) == Some(total)
    ensures ReadAll(first, Piece(amount, Unit(units, i)) + rest) == Some(Seconds(amount, i) + total)
  {
    if amount == 0 {
      assert Piece(amount, Unit(units, i)) + rest == rest;
    } else {
      var s := Decimal(amount) + Unit(units, i) + rest;
      assert first(s) == Some(Parsed(Seconds(amount, i), rest));
    }
  }

  /** What the amounts from unit `i` on add up to. */
  function Total(amounts: seq<nat>, i: nat): nat
    requires i <= |amounts| <= UNITS
    decreases |amounts| - i
  {
    if i == |amounts| then 0 else Seconds(amounts[i], i) + Total(amounts, i + 1)
  }

  lemma {:induction false} PiecesDenoteTotal(first: Reader, amounts: seq<nat>, units: Units, i: nat)
    requires CutsPieces(first, units) && i <= |amounts| <= UNITS
    ensures ReadAll(first, Pieces(amounts, units, i)) == Some(Total(amounts, i))
    decreases |amounts| - i
  {
    if i < |amounts| {
      PiecesDenoteTotal(first, amounts, units, i + 1);
      ReadOnePiece(first, units, amounts[i], i, Pieces(amounts, units, i + 1), Total(amounts, i + 1));
    }
  }

  lemma {:induction false} PiecesStartWithDigit(amounts: seq<nat>, units: Units, i: nat)
    requires i <= |amounts| <= UNITS
    ensures var s := Pieces(amounts, units, i); s != "" ==> IsDigit(s[0])
    decreases |amounts| - i
  {
    if i < |amounts| {
      PiecesStartWithDigit(amounts, units, i + 1);
      PieceStartsWithDigit(amounts[i], Unit(units, i), Pieces(amounts, units, i + 1));
    }
  }

  lemma PieceStartsWithDigit(amount: nat, unit: string, rest: string)
    requires rest != "" ==> IsDigit(rest[0])
    ensures Piece(amount, unit) + rest != "" ==> IsDigit((Piece(amount, unit) + rest)[0])
  {
  }

  /** Cut after `level` units, the amounts add up to `n` without its remainder by the last unit. */
  lemma {:induction false} TotalDropsRemainder(n: nat, level: nat, i: nat)
    requires i <= level <= UNITS
    ensures Total(Amounts(n, level), i) == Rest(n, i) - Rest(n, level)
    decreases level - i
  {
    if i < level {
      TotalDropsRemainder(n, level, i + 1);
      OneUnitOff(n, i);
    }
  }

  lemma OneUnitOff(n: nat, i: nat)
    requires i < UNITS
    ensures Seconds(Amount(n, i), i) + Rest(n, i + 1) == Rest(n, i)
  {
    assert i == 0 || i == 1 || i == 2 || i == 3;
  }

  // ------------------------------------------------------------ main results

  /** `n` truncated toward zero to a whole number of the i-th unit. */
  function TowardZero(n: int, i: nat): int
    requires i < UNITS
  {
    if n < 0 then 0 - Seconds(Whole(-n, i), i) else Seconds(Whole(n, i), i)
  }

  lemma TotalIsWhole(n: nat, level: nat)
    requires 1 <= level <= UNITS
    ensures Total(Amounts(n, level), 0) == Seconds(Whole(n, level - 1), level - 1)
  {
    TotalDropsRemainder(n, level, 0);
  }

  lemma WholeLosesLessThanOne(n: nat, i: nat)
    requires i < UNITS
    ensures n - Weight(i) < Seconds(Whole(n, i), i) <= n
  {
  }

  lemma SignIsRead(first: Reader, negative: bool, body: string, total: nat)
    requires ReadAll(first, body) == Some(total) && (body != "" ==> IsDigit(body[0]))
    ensures ReadSigned(first, (if negative then "-" else "") + body) == Some(Signed(negative, total))
  {
    if negative {
      assert ("-" + body)[1..] == body;
    } else {
      assert "" + body == body;
    }
  }

  lemma SignedTotalIsRead(n: int, amounts: seq<nat>, units: Units, level: nat)
    requires Readable(units) && 1 <= level <= UNITS && amounts == Amounts(Abs(n), level)
    ensures Read(Display(n, units, level), units) == Some(Signed(n < 0, Total(amounts, 0)))
  {
    PieceReaderCutsPieces(units);
    PiecesDenoteTotal(PieceReader(units), amounts, units, 0);
    PiecesStartWithDigit(amounts, units, 0);
    SignIsRead(PieceReader(units), n < 0, Pieces(amounts, units, 0), Total(amounts, 0));
  }

  lemma SignedTotalIsTowardZero(n: int, level: nat)
    requires 1 <= level <= UNITS
    ensures Signed(n < 0, Total(Amounts(Abs(n), level), 0)) == TowardZero(n, level - 1)
    ensures Abs(n) - Weight(level - 1) < Abs(TowardZero(n, level - 1)) <= Abs(n)
  {
    TotalIsWhole(Abs(n), level);
    WholeLosesLessThanOne(Abs(n), level - 1);
  }

  /**
   Read back, the text is `n` truncated toward zero to the last unit shown: nothing is
   lost at level 4, and less than a minute, an hour or a day at levels 3, 2 and 1.
   */
  lemma DisplayDenotes(n: int, units: Units, level: nat)
    requires Readable(units) && 1 <= level <= UNITS
    ensures Read(Display(n, units, level), units) == Some(TowardZero(n, level - 1))
    ensures Abs(n) - Weight(level - 1) < Abs(TowardZero(n, level - 1)) <= Abs(n)
  {
    SignedTotalIsRead(n, Amounts(Abs(n), level), units, level);
    SignedTotalIsTowardZero(n, level);
  }

  /** At level 4 the text gives back the number, so different numbers never print the same. */
  lemma FullDisplayIsExact(n: int, lang: Language)
    ensures Read(Display(n, Appendices(lang), 4), Appendices(lang)) == Some(n)
  {
    AppendicesAreReadable(lang);
    DisplayDenotes(n, Appendices(lang), 4);
  }

  lemma FullDisplayIsInjective(m: int, n: int, lang: Language)
    requires Display(m, Appendices(lang), 4) == Display(n, Appendices(lang), 4)
    ensures m == n
  {
    FullDisplayIsExact(m, lang);
    FullDisplayIsExact(n, lang);
  }

  /** The texts of the four amounts, an amount of zero leaving nothing. */
  ghost predicate Shows(parts: seq<string>, d: nat, h: nat, m: nat, s: nat, lang: Language) {
    && |parts| == UNITS
    && parts[0] == (if d == 0 then "" else Decimal(d) + if lang == En then "d" else "\U{5929}")
    && parts[1] == (if h == 0 then "" else Decimal(h) + if lang == En then "h" else "\U{5C0F}\U{65F6}")
    && parts[2] == (if m == 0 then "" else Decimal(m) + if lang == En then "m" else "\U{5206}\U{949F}")
    && parts[3] == (if s == 0 then "" else Decimal(s) + if lang == En then "s" else "\U{79D2}")
  }

  lemma AmountsAreDigits(n: nat, d: nat, h: nat, m: nat, s: nat)
    requires n == 86400 * d + 3600 * h + 60 * m + s && h < 24 && m < 60 && s < 60
    ensures Amount(n, 0) == d && Amount(n, 1) == h && Amount(n, 2) == m && Amount(n, 3) == s
  {
    var rest := 3600 * h + 60 * m + s;
    assert n / 86400 == d && n - d * 86400 == rest;
    AmountsOfRest(n, d, rest);
    assert rest / 3600 == h && rest % 3600 == 60 * m + s;
    assert (60 * m + s) / 60 == m;
    assert rest == 60 * (60 * h + m) + s;
  }

  /** The text of `d` days, `h` hours, `m` minutes and `s` seconds, and with a minus sign that of as much before. */
  lemma DisplayText(n: nat, d: nat, h: nat, m: nat, s: nat, lang: Language, level: nat, parts: seq<string>)
    requires n == 86400 * d + 3600 * h + 60 * m + s && h < 24 && m < 60 && s < 60
    requires 1 <= level <= UNITS && Shows(parts, d, h, m, s, lang)
    ensures Display(n, Appendices(lang), level) == Join(parts[..level])
    ensures n > 0 ==> Display(0 - n, Appendices(lang), level) == "-" + Join(parts[..level])
  {
    AmountsAreDigits(n, d, h, m, s);
    var units := Appendices(lang);
    PartsJoin(parts, d, h, m, s, n, lang, level);
    assert "" + Pieces(Amounts(n, level), units, 0) == Pieces(Amounts(n, level), units, 0);
  }

  lemma PartsJoin(parts: seq<string>, d: nat, h: nat, m: nat, s: nat, n: nat, lang: Language, level: nat)
    requires Shows(parts, d, h, m, s, lang) && level <= UNITS
    requires Amount(n, 0) == d && Amount(n, 1) == h && Amount(n, 2) == m && Amount(n, 3) == s
    ensures Join(parts[..level]) == Pieces(Amounts(n, level), Appendices(lang), 0)
  {
    var units := Appendices(lang);
    assert parts[0] == Piece(d, Unit(units, 0)) && parts[1] == Piece(h, Unit(units, 1));
    assert parts[2] == Piece(m, Unit(units, 2)) && parts[3] == Piece(s, Unit(units, 3));
    assert forall i: nat :: i < UNITS ==> parts[i] == Piece(Amount(n, i), Unit(units, i));
    PiecesJoin(parts[..level], Amounts(n, level), units, 0);
  }
}
