/**
 * Custom date and time format strings: a printer and an exact parser that share one tokenizer. Fields are natural
 * numbers; the parser's regular expression is modelled by its backtracking matcher.
 */
module DateTimeFormat {
  import opened Common

  datatype Field = Year | Month | Day | Hour | Minute | Second | Millisecond

  datatype DateTimeFields = DateTimeFields(year: nat, month: nat, day: nat, hour: nat, minute: nat, second: nat,
      millisecond: nat)

  /** A format is a list of literal characters and tokens; `width` is the length of the token. */
  datatype Piece = Literal(c: char) | Token(field: Field, width: nat)

  // ---------------------------------------------------------------- the tokenizer

  /** How often the first character is repeated, counting up to `most`. */
  function Repeats(s: string, most: nat): (n: nat)
    ensures n <= |s| && n <= most
    ensures s != [] && most >= 1 ==> n >= 1
  {
    if s == "" || most == 0 then 0
    else if |s| >= 2 && s[1] == s[0] then 1 + Repeats(s[1..], most - 1)
    else 1
  }

  predicate ValidToken(t: Piece) {
    t.Token? && match t.field
      case Year => t.width == 2 || t.width == 4
      case Millisecond => 1 <= t.width <= 3
      case _ => 1 <= t.width <= 2
  }

  /** The longest token at the start of the format, if there is one: `yyyy|yy|MM|M|dd|d|HH|H|mm|m|ss|s|fff|ff|f`. */
  function TokenAt(s: string): (t: Option<Piece>)
    ensures t.Some? ==> ValidToken(t.value) && t.value.width <= |s|
  {
    if s == "" then None
    else
      match s[0]
      case 'y' =>
        var n := Repeats(s, 4);
        if n == 4 then Some(Token(Year, 4)) else if n >= 2 then Some(Token(Year, 2)) else None
      case 'M' => Some(Token(Month, Repeats(s, 2)))
      case 'd' => Some(Token(Day, Repeats(s, 2)))
      case 'H' => Some(Token(Hour, Repeats(s, 2)))
      case 'm' => Some(Token(Minute, Repeats(s, 2)))
      case 's' => Some(Token(Second, Repeats(s, 2)))
      case 'f' => Some(Token(Millisecond, Repeats(s, 3)))
      case _ => None
  }

  function Pieces(format: string): seq<Piece>
    decreases |format|
  {
    if format == "" then []
    else
      var t := TokenAt(format);
      if t.Some? then [t.value] + Pieces(format[t.value.width..]) else [Literal(format[0])] + Pieces(format[1..])
  }

  // ---------------------------------------------------------------- printing

  function Get(d: DateTimeFields, f: Field): nat {
    match f
    case Year => d.year
    case Month => d.month
    case Day => d.day
    case Hour => d.hour
    case Minute => d.minute
    case Second => d.second
    case Millisecond => d.millisecond
  }

  /** The number a token prints. */
  function Shown(d: DateTimeFields, t: Piece): nat
    requires t.Token?
  {
    if t.field.Year? && t.width == 2 then d.year % 100
    else if t.field.Millisecond? && t.width == 2 then d.millisecond / 10
    else if t.field.Millisecond? && t.width == 1 then d.millisecond / 100
    else Get(d, t.field)
  }

  function Zeros(n: nat): (s: string)
    ensures |s| == n
  {
    if n == 0 then "" else ['0'] + Zeros(n - 1)
  }

  function PadStart(s: string, w: nat): string { if |s| >= w then s else Zeros(w - |s|) + s }

  function PieceText(d: DateTimeFields, p: Piece): string {
    match p
    case Literal(c) => [c]
    case Token(_, width) => PadStart(Decimal(Shown(d, p)), width)
  }

  function Text(d: DateTimeFields, pieces: seq<Piece>): string {
    if pieces == [] then "" else PieceText(d, pieces[0]) + Text(d, pieces[1..])
  }

  function FormatDateTime(d: DateTimeFields, format: string): string { Text(d, Pieces(format)) }

  // ---------------------------------------------------------------- parsing

  predicate IsDigit(c: char) { '0' <= c <= '9' }

  predicate AllDigits(s: string) { s == "" || (IsDigit(s[|s| - 1]) && AllDigits(s[..|s| - 1])) }

  function Value(s: string): nat
    requires AllDigits(s)
  {
    if s == "" then 0 else Value(s[..|s| - 1]) * 10 + (s[|s| - 1] as int - '0' as int)
  }

  /**
   * The captured numbers, if the whole text matches: tokens of one letter take two digits if they can, others exactly
   * their width.
   */
  function Match(pieces: seq<Piece>, text: string): Option<seq<nat>>
    decreases |pieces|
  {
    if pieces == [] then (if text == "" then Some([]) else None)
    else
      match pieces[0]
      case Literal(c) => if text != "" && text[0] == c then Match(pieces[1..], text[1..]) else None
      case Token(_, width) =>
        if width == 1 then
          var two := Captured(pieces, text, 2);
          if two.Some? then two else Captured(pieces, text, 1)
        else Captured(pieces, text, width)
  }

  /** The match that gives the first token `n` digits. */
  function Captured(pieces: seq<Piece>, text: string, n: nat): Option<seq<nat>>
    requires pieces != []
    decreases |pieces|, 0
  {
    if |text| < n || !AllDigits(text[..n]) then None
    else
      var rest := Match(pieces[1..], text[n..]);
      if rest.Some? then Some([Value(text[..n])] + rest.value) else None
  }

  function With(d: DateTimeFields, t: Piece, value: nat): DateTimeFields
    requires t.Token?
  {
    match t.field
    case Year => d.(year := if t.width == 2 then 2000 + value else value)
    case Month => d.(month := value)
    case Day => d.(day := value)
    case Hour => d.(hour := value)
    case Minute => d.(minute := value)
    case Second => d.(second := value)
    case Millisecond => d.(millisecond :=
      if t.width == 3 then value else if t.width == 2 then value * 10 else value * 100)
  }

  const DEFAULTS := DateTimeFields(1, 1, 1, 0, 0, 0, 0)

  function Tokens(pieces: seq<Piece>): (r: seq<Piece>)
    ensures forall i :: 0 <= i < |r| ==> r[i].Token?
  {
    if pieces == [] then [] else (if pieces[0].Token? then [pieces[0]] else []) + Tokens(pieces[1..])
  }

  /** The fields after the first `n` captured numbers are entered. */
  function Entered(tokens: seq<Piece>, values: seq<nat>, n: nat): DateTimeFields
    requires n <= |tokens| == |values| && forall i :: 0 <= i < |tokens| ==> tokens[i].Token?
  {
    if n == 0 then DEFAULTS else With(Entered(tokens, values, n - 1), tokens[n - 1], values[n - 1])
  }

  predicate Acceptable(d: DateTimeFields) {
    1 <= d.month <= 12 && 1 <= d.day <= 31 && d.hour <= 23 && d.minute <= 59 && d.second <= 59
  }

  lemma {:induction false} MatchLength(pieces: seq<Piece>, text: string)
    ensures Match(pieces, text).Some? ==> |Match(pieces, text).value| == |Tokens(pieces)|
    decreases |pieces|
  {
    if pieces != [] {
      match pieces[0] {
        case Literal(_) => if text != "" { MatchLength(pieces[1..], text[1..]); }
        case Token(_, width) =>
          if |text| >= 1 { MatchLength(pieces[1..], text[1..]); }
          if |text| >= 2 { MatchLength(pieces[1..], text[2..]); }
          if |text| >= width { MatchLength(pieces[1..], text[width..]); }
      }
    }
  }

  function Parsed(pieces: seq<Piece>, text: string): Option<DateTimeFields> {
    var values := Match(pieces, text);
    if values.None? then None
    else
      MatchLength(pieces, text);
      var d := Entered(Tokens(pieces), values.value, |values.value|);
      if Acceptable(d) then Some(d) else None
  }

  class DateTimeParser {
    var parserCache: map<string, seq<Piece>>

    ghost predicate Valid()
      reads this
    {
      forall format :: format in parserCache ==> parserCache[format] == Pieces(format)
    }

    constructor ()
      ensures Valid()
    {
      parserCache := map[];
    }

    method ParserFor(format: string) returns (pieces: seq<Piece>)
      requires Valid()
      modifies this
      ensures Valid() && pieces == Pieces(format)
    {
      if format in parserCache { return parserCache[format]; }
      pieces := Pieces(format);
      parserCache := parserCache[format := pieces];
    }

    method TryParseExact(text: string, format: string) returns (result: Option<DateTimeFields>)
      requires Valid()
      modifies this
      ensures Valid() && result == Parsed(Pieces(format), text)
    {
      var pieces := ParserFor(format);
      var values := Match(pieces, text);
      if values.None? { return None; }
      MatchLength(pieces, text);
      var tokens := Tokens(pieces);
      var fields := DEFAULTS;
      for i := 0 to |tokens|
        invariant fields == Entered(tokens, values.value, i)
      {
        fields := With(fields, tokens[i], values.value[i]);
      }
      if !Acceptable(fields) { return None; }
      result := Some(fields);
    }
  }

  // ---------------------------------------------------------------- digits

  lemma {:induction false} ZerosInFront(k: nat, s: string)
    requires AllDigits(s)
    ensures AllDigits(Zeros(k) + s) && Value(Zeros(k) + s) == Value(s)
  {
    if k > 0 {
      ZerosInFront(k - 1, s);
      ZeroInFront(Zeros(k - 1) + s);
      OneMoreZero(Zeros(k - 1), s);
    } else {
      assert Zeros(0) + s == s;
    }
  }

  lemma OneMoreZero(zeros: string, s: string)
    ensures (['0'] + zeros) + s == ['0'] + (zeros + s)
  {
  }

  lemma {:induction false} ZeroInFront(s: string)
    requires AllDigits(s)
    ensures AllDigits(['0'] + s) && Value(['0'] + s) == Value(s)
  {
    if s == "" {
      assert ['0'] + s == ['0'] && ['0'][..0] == "";
    } else {
      var n := |s| - 1;
      ZeroInFront(s[..n]);
      assert (['0'] + s)[..|s|] == ['0'] + s[..n] && (['0'] + s)[|s|] == s[n];
    }
  }

  lemma {:induction false} DecimalValue(n: nat)
    ensures AllDigits(Decimal(n)) && Value(Decimal(n)) == n
  {
    if n < 10 {
      assert [Digit(n)][..0] == "";
    } else {
      DecimalValue(n / 10);
      var init := Decimal(n / 10);
      assert (init + [Digit(n % 10)])[..|init|] == init;
    }
  }

  lemma {:induction false} DecimalLength(n: nat, w: nat)
    requires w >= 1
    ensures |Decimal(n)| <= w <==> n < PowerOfTen(w)
  {
    if w == 1 {
      assert PowerOfTen(1) == 10;
    } else if n >= 10 {
      DecimalLength(n / 10, w - 1);
      assert n < PowerOfTen(w) <==> n / 10 < PowerOfTen(w - 1);
    } else {
      assert PowerOfTen(w) >= 10;
    }
  }

  lemma PaddedValue(n: nat, w: nat)
    requires w >= 1 && n < PowerOfTen(w)
    ensures var s := PadStart(Decimal(n), w); |s| == w && AllDigits(s) && Value(s) == n
  {
    var digits := Decimal(n);
    assert |digits| <= w by { DecimalLength(n, w); }
    DecimalValue(n);
    PaddedDigits(digits, w);
  }

  lemma PaddedDigits(digits: string, w: nat)
    requires AllDigits(digits) && |digits| <= w
    ensures var s := PadStart(digits, w); |s| == w && AllDigits(s) && Value(s) == Value(digits)
  {
    if |digits| < w { ZerosInFront(w - |digits|, digits); }
  }

  lemma {:induction false} ValueBound(s: string)
    requires AllDigits(s)
    ensures Value(s) < PowerOfTen(|s|)
  {
    if s != "" { ValueBound(s[..|s| - 1]); }
  }

  lemma {:induction false} SameDigits(s: string, t: string)
    requires AllDigits(s) && AllDigits(t) && |s| == |t| && Value(s) == Value(t)
    ensures s == t
  {
    if s != "" {
      var n := |s| - 1;
      SameDigits(s[..n], t[..n]);
      assert s == s[..n] + [s[n]] && t == t[..n] + [t[n]];
    }
  }

  /** Padding the number read gives the digits back. */
  lemma ValuePadded(s: string)
    requires s != "" && AllDigits(s)
    ensures PadStart(Decimal(Value(s)), |s|) == s
  {
    ValueBound(s);
    PaddedValue(Value(s), |s|);
    SameDigits(PadStart(Decimal(Value(s)), |s|), s);
  }

  // ---------------------------------------------------------------- printing, then parsing

  predicate ValidPieces(pieces: seq<Piece>) {
    pieces == [] || ((pieces[0].Token? ==> ValidToken(pieces[0])) && ValidPieces(pieces[1..]))
  }

  lemma {:induction false} PiecesValid(format: string)
    ensures ValidPieces(Pieces(format))
    decreases |format|
  {
    if format != "" {
      var t := TokenAt(format);
      if t.Some? {
        PiecesValid(format[t.value.width..]);
        assert ([t.value] + Pieces(format[t.value.width..]))[1..] == Pieces(format[t.value.width..]);
      } else {
        PiecesValid(format[1..]);
        assert ([Literal(format[0])] + Pieces(format[1..]))[1..] == Pieces(format[1..]);
      }
    }
  }

  /**
   * Up to the next literal that is no digit, one-letter tokens are of this field, so that they print one digit when it
   * does, or milliseconds, which always do.
   */
  predicate RunFixed(pieces: seq<Piece>, f: Field) {
    pieces == [] || (pieces[0].Literal? && !IsDigit(pieces[0].c))
    || ((pieces[0].Token? && pieces[0].width == 1 ==> pieces[0].field == f || pieces[0].field.Millisecond?)
        && RunFixed(pieces[1..], f))
  }

  /**
   * Within a run of digits every one-letter token is followed only by one-letter tokens of the same field or
   * milliseconds.
   */
  predicate Separated(pieces: seq<Piece>) {
    pieces == []
    || ((pieces[0].Token? && pieces[0].width == 1 ==> RunFixed(pieces[1..], pieces[0].field)) && Separated(pieces[1..]))
  }

  /**
   * How many digits a text must begin with to match: the least its pieces take up to the next literal that is no digit.
   */
  function Need(pieces: seq<Piece>): nat {
    if pieces == [] then 0
    else if pieces[0].Token? then pieces[0].width + Need(pieces[1..])
    else if IsDigit(pieces[0].c) then 1 + Need(pieces[1..])
    else 0
  }

  /** The number of digits a text begins with. */
  function Lead(s: string): nat { if s == "" || !IsDigit(s[0]) then 0 else 1 + Lead(s[1..]) }

  lemma {:induction false} LeadPrefix(p: string, s: string)
    requires AllDigits(p)
    ensures Lead(p + s) == |p| + Lead(s)
  {
    if p == "" {
      assert p + s == s;
    } else {
      var n := |p| - 1;
      LeadPrefix(p[..n], [p[n]] + s);
      assert p[..n] + ([p[n]] + s) == p + s && ([p[n]] + s)[1..] == s;
    }
  }

  lemma {:induction false} MatchNeeds(pieces: seq<Piece>, text: string)
    requires Match(pieces, text).Some?
    ensures Lead(text) >= Need(pieces)
    decreases |pieces|
  {
    if pieces != [] {
      if pieces[0].Literal? {
        MatchNeeds(pieces[1..], text[1..]);
      } else {
        var w := pieces[0].width;
        var n := if w == 1 && Captured(pieces, text, 2).Some? then 2 else w;
        assert Captured(pieces, text, n).Some?;
        MatchNeeds(pieces[1..], text[n..]);
        LeadPrefix(text[..n], text[n..]);
        assert text[..n] + text[n..] == text;
      }
    }
  }

  predicate InRange(d: DateTimeFields) { Acceptable(d) && d.year <= 9999 && d.millisecond <= 999 }

  function ShownAll(d: DateTimeFields, tokens: seq<Piece>): (r: seq<nat>)
    requires forall i :: 0 <= i < |tokens| ==> tokens[i].Token?
    ensures |r| == |tokens|
  {
    if tokens == [] then [] else [Shown(d, tokens[0])] + ShownAll(d, tokens[1..])
  }

  lemma TokenWidth(d: DateTimeFields, t: Piece)
    requires ValidToken(t) && InRange(d)
    ensures Shown(d, t) < PowerOfTen(if t.width == 1 then 2 else t.width)
  {
  }

  lemma CapturedPrefix(pieces: seq<Piece>, prefix: string, rest: string)
    requires pieces != [] && AllDigits(prefix)
    ensures var after := Match(pieces[1..], rest);
      Captured(pieces, prefix + rest, |prefix|) == if after.Some? then Some([Value(prefix)] + after.value) else None
  {
  }

  /** A one-letter token cannot take a second digit where what follows needs all of them. */
  lemma OneDigitOnly(pieces: seq<Piece>, c: char, rest: string)
    requires pieces != [] && Lead(rest) == Need(pieces[1..])
    ensures Captured(pieces, [c] + rest, 2).None?
  {
    var text := [c] + rest;
    if Captured(pieces, text, 2).Some? {
      assert text[2..] == rest[1..] && text[..2][1] == rest[0];
      MatchNeeds(pieces[1..], rest[1..]);
    }
  }

  /** In such a run what is printed has exactly the digits it needs. */
  lemma {:induction false} RunLead(d: DateTimeFields, pieces: seq<Piece>, f: Field)
    requires ValidPieces(pieces) && RunFixed(pieces, f) && InRange(d) && (f.Millisecond? || Get(d, f) < 10)
    ensures Lead(Text(d, pieces)) == Need(pieces)
  {
    if pieces != [] {
      var p, rest := pieces[0], Text(d, pieces[1..]);
      if p.Token? {
        TokenWidth(d, p);
        PaddedValue(Shown(d, p), p.width);
        RunLead(d, pieces[1..], f);
        LeadPrefix(PieceText(d, p), rest);
      } else {
        assert ([p.c] + rest)[1..] == rest;
        if IsDigit(p.c) { RunLead(d, pieces[1..], f); }
      }
    }
  }

  /** What is printed is matched, token by token. */
  lemma {:induction false} TextMatches(d: DateTimeFields, pieces: seq<Piece>)
    requires ValidPieces(pieces) && Separated(pieces) && InRange(d)
    ensures Match(pieces, Text(d, pieces)) == Some(ShownAll(d, Tokens(pieces)))
    decreases |pieces|
  {
    if pieces != [] {
      var p, rest := pieces[0], Text(d, pieces[1..]);
      TextMatches(d, pieces[1..]);
      if p.Literal? {
        assert ([p.c] + rest)[1..] == rest && Tokens(pieces) == Tokens(pieces[1..]);
      } else {
        var n, s := Shown(d, p), PieceText(d, p);
        TokenWidth(d, p);
        assert ([p] + Tokens(pieces[1..]))[1..] == Tokens(pieces[1..]);
        if p.width == 1 {
          DecimalLength(n, 2);
          DecimalValue(n);
          if |s| == 1 {
            RunLead(d, pieces[1..], p.field);
            OneDigitOnly(pieces, s[0], rest);
            assert s == [s[0]];
          }
        } else {
          PaddedValue(n, p.width);
        }
        CapturedPrefix(pieces, s, rest);
      }
    }
  }

  lemma {:induction false} EnteredAcceptable(d: DateTimeFields, tokens: seq<Piece>, values: seq<nat>, n: nat)
    requires InRange(d) && n <= |tokens| == |values|
    requires forall i :: 0 <= i < |tokens| ==> tokens[i].Token? && values[i] == Shown(d, tokens[i])
    ensures Acceptable(Entered(tokens, values, n))
  {
    if n > 0 { EnteredAcceptable(d, tokens, values, n - 1); }
  }

  lemma {:induction false} ShownAt(d: DateTimeFields, tokens: seq<Piece>, i: nat)
    requires i < |tokens| && forall i :: 0 <= i < |tokens| ==> tokens[i].Token?
    ensures ShownAll(d, tokens)[i] == Shown(d, tokens[i])
  {
    if i > 0 { ShownAt(d, tokens[1..], i - 1); }
  }

  /** The fields as far as the format shows them; the others have their defaults. */
  function AsShown(d: DateTimeFields, format: string): DateTimeFields {
    var tokens := Tokens(Pieces(format));
    Entered(tokens, ShownAll(d, tokens), |tokens|)
  }

  /**
   * Parsing what was printed gives back the fields as far as the format shows them, for every format whose one-letter
   * tokens are separated: "H:m", "Hmm" and "Hf", say, but not "Hm".
   */
  lemma PrintThenParse(d: DateTimeFields, format: string)
    requires InRange(d) && Separated(Pieces(format))
    ensures Parsed(Pieces(format), FormatDateTime(d, format)) == Some(AsShown(d, format))
  {
    var pieces := Pieces(format);
    var tokens := Tokens(pieces);
    PiecesValid(format);
    TextMatches(d, pieces);
    forall i | 0 <= i < |tokens| ensures ShownAll(d, tokens)[i] == Shown(d, tokens[i]) { ShownAt(d, tokens, i); }
    EnteredAcceptable(d, tokens, ShownAll(d, tokens), |tokens|);
  }

  /** The last token for a field decides what is read into it. */
  function LastToken(tokens: seq<Piece>, n: nat, f: Field): Option<Piece>
    requires n <= |tokens| && forall i :: 0 <= i < |tokens| ==> tokens[i].Token?
  {
    if n == 0 then None else if tokens[n - 1].field == f then Some(tokens[n - 1]) else LastToken(tokens, n - 1, f)
  }

  predicate FullWidth(t: Piece) {
    t.Token? && (t.field.Year? ==> t.width == 4) && (t.field.Millisecond? ==> t.width == 3)
  }

  lemma {:induction false} EnteredField(d: DateTimeFields, tokens: seq<Piece>, values: seq<nat>, n: nat, f: Field)
    requires n <= |tokens| == |values|
    requires forall i :: 0 <= i < |tokens| ==> tokens[i].Token? && values[i] == Shown(d, tokens[i])
    ensures var t := LastToken(tokens, n, f);
      (t.Some? && FullWidth(t.value) ==> Get(Entered(tokens, values, n), f) == Get(d, f)) &&
      (t.None? ==> Get(Entered(tokens, values, n), f) == Get(DEFAULTS, f))
  {
    if n > 0 { EnteredField(d, tokens, values, n - 1, f); }
  }

  /** A format that shows every field in full loses nothing. */
  lemma FullRoundTrip(d: DateTimeFields, format: string)
    requires InRange(d) && Separated(Pieces(format))
    requires forall f: Field :: var t := LastToken(Tokens(Pieces(format)), |Tokens(Pieces(format))|, f);
      t.Some? && FullWidth(t.value)
    ensures Parsed(Pieces(format), FormatDateTime(d, format)) == Some(d)
  {
    var tokens := Tokens(Pieces(format));
    PrintThenParse(d, format);
    forall i | 0 <= i < |tokens| ensures ShownAll(d, tokens)[i] == Shown(d, tokens[i]) { ShownAt(d, tokens, i); }
    var back := AsShown(d, format);
    forall f: Field ensures Get(back, f) == Get(d, f) { EnteredField(d, tokens, ShownAll(d, tokens), |tokens|, f); }
    assert Get(back, Year) == d.year && Get(back, Month) == d.month && Get(back, Day) == d.day &&
      Get(back, Hour) == d.hour;
    assert Get(back, Minute) == d.minute && Get(back, Second) == d.second && Get(back, Millisecond) == d.millisecond;
  }

  // ---------------------------------------------------------------- parsing, then printing

  predicate FixedWidth(pieces: seq<Piece>) {
    pieces == [] || ((pieces[0].Token? ==> pieces[0].width >= 2) && FixedWidth(pieces[1..]))
  }

  /** The text with these numbers in place of the tokens. */
  function Filled(pieces: seq<Piece>, values: seq<nat>): string
    requires |values| == |Tokens(pieces)|
  {
    if pieces == [] then ""
    else if pieces[0].Literal? then
      assert Tokens(pieces) == Tokens(pieces[1..]);
      [pieces[0].c] + Filled(pieces[1..], values)
    else PadStart(Decimal(values[0]), pieces[0].width) + Filled(pieces[1..], values[1..])
  }

  lemma {:induction false} MatchedText(pieces: seq<Piece>, text: string)
    requires FixedWidth(pieces) && Match(pieces, text).Some?
    ensures |Match(pieces, text).value| == |Tokens(pieces)| && Filled(pieces, Match(pieces, text).value) == text
    decreases |pieces|
  {
    MatchLength(pieces, text);
    if pieces != [] {
      if pieces[0].Literal? {
        assert Tokens(pieces) == Tokens(pieces[1..]);
        MatchedText(pieces[1..], text[1..]);
        assert text == [text[0]] + text[1..];
      } else {
        var w := pieces[0].width;
        MatchedText(pieces[1..], text[w..]);
        ValuePadded(text[..w]);
        assert text == text[..w] + text[w..];
        var rest := Match(pieces[1..], text[w..]).value;
        assert ([Value(text[..w])] + rest)[1..] == rest;
      }
    }
  }

  lemma {:induction false} MatchedFits(pieces: seq<Piece>, text: string, i: nat)
    requires FixedWidth(pieces) && Match(pieces, text).Some? && i < |Tokens(pieces)|
    ensures |Match(pieces, text).value| == |Tokens(pieces)|
    ensures Match(pieces, text).value[i] < PowerOfTen(Tokens(pieces)[i].width)
    decreases |pieces|
  {
    MatchLength(pieces, text);
    if pieces[0].Literal? {
      assert Tokens(pieces) == Tokens(pieces[1..]);
      MatchedFits(pieces[1..], text[1..], i);
    } else {
      var w := pieces[0].width;
      ValueBound(text[..w]);
      if i > 0 { MatchedFits(pieces[1..], text[w..], i - 1); }
    }
  }

  /** No field is set twice by the first `n` tokens. */
  predicate OncePerField(tokens: seq<Piece>, n: nat)
    requires n <= |tokens| && forall i :: 0 <= i < |tokens| ==> tokens[i].Token?
  {
    n == 0 || (OncePerField(tokens, n - 1) && LastToken(tokens, n - 1, tokens[n - 1].field).None?)
  }

  lemma {:induction false} OtherField(tokens: seq<Piece>, n: nat, f: Field, i: nat)
    requires i < n <= |tokens| && (forall i :: 0 <= i < |tokens| ==> tokens[i].Token?) && LastToken(tokens, n, f).None?
    ensures tokens[i].field != f
  {
    if i < n - 1 { OtherField(tokens, n - 1, f, i); }
  }

  lemma {:induction false} EnteredShows(tokens: seq<Piece>, values: seq<nat>, n: nat, i: nat)
    requires i < n <= |tokens| == |values| && forall i :: 0 <= i < |tokens| ==> tokens[i].Token?
    requires OncePerField(tokens, n)
    requires ValidToken(tokens[i]) && tokens[i].width >= 2 && values[i] < PowerOfTen(tokens[i].width)
    ensures Shown(Entered(tokens, values, n), tokens[i]) == values[i]
  {
    if i < n - 1 {
      EnteredShows(tokens, values, n - 1, i);
      OtherField(tokens, n - 1, tokens[n - 1].field, i);
    } else {
      assert PowerOfTen(2) == 100;
    }
  }

  lemma {:induction false} TextIsFilled(d: DateTimeFields, pieces: seq<Piece>, values: seq<nat>)
    requires |values| == |Tokens(pieces)| && forall i :: 0 <= i < |values| ==> values[i] == Shown(d, Tokens(pieces)[i])
    ensures Text(d, pieces) == Filled(pieces, values)
    decreases |pieces|
  {
    if pieces != [] {
      if pieces[0].Literal? {
        assert Tokens(pieces) == Tokens(pieces[1..]);
        TextIsFilled(d, pieces[1..], values);
      } else {
        assert Tokens(pieces)[0] == pieces[0] && Tokens(pieces)[1..] == Tokens(pieces[1..]);
        forall i | 0 <= i < |values| - 1 ensures values[1..][i] == Shown(d, Tokens(pieces[1..])[i]) {
          assert Tokens(pieces[1..])[i] == Tokens(pieces)[i + 1];
        }
        TextIsFilled(d, pieces[1..], values[1..]);
      }
    }
  }

  lemma {:induction false} TokenIsValid(pieces: seq<Piece>, i: nat)
    requires ValidPieces(pieces) && FixedWidth(pieces) && i < |Tokens(pieces)|
    ensures ValidToken(Tokens(pieces)[i]) && Tokens(pieces)[i].width >= 2
    decreases |pieces|
  {
    if pieces[0].Literal? {
      assert Tokens(pieces) == Tokens(pieces[1..]);
      TokenIsValid(pieces[1..], i);
    } else if i > 0 {
      TokenIsValid(pieces[1..], i - 1);
    }
  }

  /**
   * For formats of fixed width that mention no field twice, what is accepted prints back as it was, character by
   * character.
   */
  lemma ParseThenPrint(text: string, format: string)
    requires FixedWidth(Pieces(format)) && OncePerField(Tokens(Pieces(format)), |Tokens(Pieces(format))|)
    requires Parsed(Pieces(format), text).Some?
    ensures FormatDateTime(Parsed(Pieces(format), text).value, format) == text
  {
    var pieces := Pieces(format);
    var tokens, d := Tokens(pieces), Parsed(pieces, text).value;
    PiecesValid(format);
    MatchedText(pieces, text);
    var values := Match(pieces, text).value;
    forall i | 0 <= i < |tokens| ensures values[i] == Shown(d, tokens[i]) {
      MatchedFits(pieces, text, i);
      TokenIsValid(pieces, i);
      EnteredShows(tokens, values, |tokens|, i);
    }
    TextIsFilled(d, pieces, values);
  }

  // ---------------------------------------------------------------- formats that are not separated

  predicate NoDigitLiterals(pieces: seq<Piece>) {
    pieces == [] || ((pieces[0].Literal? ==> !IsDigit(pieces[0].c)) && NoDigitLiterals(pieces[1..]))
  }

  /** All fields print as ones, but for one field that prints two digits. */
  function Witness(g: Field): DateTimeFields {
    var value := (f: Field) => if f == g then 12 else 1;
    DateTimeFields(1, value(Month), value(Day), value(Hour), value(Minute), value(Second), 111)
  }

  predicate TwoDigits(g: Field) { !g.Year? && !g.Millisecond? }

  /** A one-letter token of field `g` follows before the next literal. */
  predicate HasLetter(pieces: seq<Piece>, g: Field) {
    pieces != [] && pieces[0].Token? && ((pieces[0].width == 1 && pieces[0].field == g) || HasLetter(pieces[1..], g))
  }

  lemma {:induction false} OffendingLetter(pieces: seq<Piece>, f: Field) returns (g: Field)
    requires ValidPieces(pieces) && NoDigitLiterals(pieces) && !RunFixed(pieces, f)
    ensures TwoDigits(g) && g != f && HasLetter(pieces, g)
  {
    if pieces[0].width == 1 && pieces[0].field != f && !pieces[0].field.Millisecond? {
      g := pieces[0].field;
    } else {
      g := OffendingLetter(pieces[1..], f);
    }
  }

  lemma PrintedToken(d: DateTimeFields, t: Piece)
    requires ValidToken(t) && InRange(d)
    ensures var s := PieceText(d, t);
      AllDigits(s) && Value(s) == Shown(d, t) && |s| == if t.width == 1 && Shown(d, t) >= 10 then 2 else t.width
  {
    TokenWidth(d, t);
    DecimalValue(Shown(d, t));
    if t.width == 1 {
      DecimalLength(Shown(d, t), 2);
      DecimalLength(Shown(d, t), 1);
    } else {
      PaddedValue(Shown(d, t), t.width);
    }
  }

  /** Everything printed is matched, though perhaps not as it was meant. */
  lemma {:induction false} TextAccepted(d: DateTimeFields, pieces: seq<Piece>)
    requires ValidPieces(pieces) && InRange(d)
    ensures Match(pieces, Text(d, pieces)).Some?
    decreases |pieces|
  {
    if pieces != [] {
      var p, rest := pieces[0], Text(d, pieces[1..]);
      TextAccepted(d, pieces[1..]);
      if p.Literal? {
        assert ([p.c] + rest)[1..] == rest;
      } else {
        PrintedToken(d, p);
        CapturedPrefix(pieces, PieceText(d, p), rest);
      }
    }
  }

  lemma DigitPrefix(p: string, s: string)
    requires p != "" && AllDigits(p)
    ensures (p + s)[0] == p[0] && IsDigit(p[0])
    ensures AllDigits(p[1..])
  {
    DigitAt(p, 0);
    TailDigits(p);
  }

  lemma {:induction false} DigitAt(p: string, i: nat)
    requires i < |p| && AllDigits(p)
    ensures IsDigit(p[i])
  {
    if i < |p| - 1 { DigitAt(p[..|p| - 1], i); }
  }

  lemma {:induction false} TailDigits(p: string)
    requires p != "" && AllDigits(p)
    ensures AllDigits(p[1..])
  {
    if |p| > 1 {
      var n := |p| - 1;
      TailDigits(p[..n]);
      assert p[1..][..n - 1] == p[..n][1..] && p[1..][n - 1] == p[n];
    }
  }

  /** What one-letter tokens print of the witness. */
  lemma WitnessText(g: Field, t: Piece)
    requires TwoDigits(g) && ValidToken(t) && t.width == 1
    ensures PieceText(Witness(g), t) == if t.field == g then "12" else "1"
    ensures Shown(Witness(g), t) == if t.field == g then 12 else 1
  {
    var d := Witness(g);
    assert Shown(d, t) == if t.field == g then 12 else 1;
    assert Decimal(1) == "1" && Decimal(12) == Decimal(1) + [Digit(2)];
  }

  /** The first token can take these digits. */
  lemma MatchTaken(pieces: seq<Piece>, taken: string, rest: string)
    requires pieces != [] && pieces[0].Token? && AllDigits(taken) && |taken| == pieces[0].width
    requires Match(pieces[1..], rest).Some?
    ensures Match(pieces, taken + rest).Some?
  {
    CapturedPrefix(pieces, taken, rest);
  }

  /** The text begins with a digit and is matched without it, too. */
  predicate Shiftable(pieces: seq<Piece>, text: string) {
    text != "" && IsDigit(text[0]) && Match(pieces, text[1..]).Some?
  }

  /** A token that prints exactly its width takes the first digit of what follows instead of its own. */
  lemma ShiftedToken(pieces: seq<Piece>, s: string, rest: string)
    requires pieces != [] && pieces[0].Token? && s != "" && AllDigits(s) && |s| == pieces[0].width
    requires Shiftable(pieces[1..], rest)
    ensures Shiftable(pieces, s + rest)
  {
    DigitPrefix(s, rest);
    var taken := s[1..] + [rest[0]];
    assert taken[..|taken| - 1] == s[1..];
    MatchTaken(pieces, taken, rest[1..]);
    assert (s + rest)[1..] == taken + rest[1..];
  }

  /** A one-letter token that prints two digits can do with one. */
  lemma ShortenedToken(pieces: seq<Piece>, rest: string)
    requires pieces != [] && pieces[0].Token? && pieces[0].width == 1 && Match(pieces[1..], rest).Some?
    ensures Shiftable(pieces, "12" + rest)
  {
    assert "2"[..0] == "";
    MatchTaken(pieces, "2", rest);
    assert ("12" + rest)[1..] == "2" + rest;
  }

  lemma WitnessWidth(g: Field, t: Piece)
    requires TwoDigits(g) && ValidToken(t) && (t.width == 1 ==> t.field != g)
    ensures var s := PieceText(Witness(g), t); |s| == t.width && AllDigits(s)
  {
    PrintedToken(Witness(g), t);
    if t.width == 1 { WitnessText(g, t); }
  }

  lemma {:induction false} ShiftAccepted(g: Field, pieces: seq<Piece>)
    requires TwoDigits(g) && ValidPieces(pieces) && HasLetter(pieces, g)
    ensures Shiftable(pieces, Text(Witness(g), pieces))
    decreases |pieces|
  {
    var d, p := Witness(g), pieces[0];
    var rest := Text(d, pieces[1..]);
    if p.width == 1 && p.field == g {
      WitnessText(g, p);
      TextAccepted(d, pieces[1..]);
      ShortenedToken(pieces, rest);
    } else {
      ShiftAccepted(g, pieces[1..]);
      WitnessWidth(g, p);
      ShiftedToken(pieces, PieceText(d, p), rest);
    }
  }

  /** The match reads these pieces otherwise than they were meant. */
  predicate Misread(d: DateTimeFields, pieces: seq<Piece>) {
    Match(pieces, Text(d, pieces)) != Some(ShownAll(d, Tokens(pieces)))
  }

  /** The first token takes a digit of what follows. */
  lemma FirstMisread(g: Field, pieces: seq<Piece>)
    requires TwoDigits(g) && ValidPieces(pieces) && pieces != [] && pieces[0].Token? && pieces[0].width == 1
    requires pieces[0].field != g && HasLetter(pieces[1..], g)
    ensures Misread(Witness(g), pieces)
  {
    var d, p := Witness(g), pieces[0];
    var rest := Text(d, pieces[1..]);
    WitnessText(g, p);
    ShiftAccepted(g, pieces[1..]);
    var taken := ['1', rest[0]];
    assert taken[..1] == "1" && "1"[..0] == "" && Value(taken) >= 10;
    CapturedPrefix(pieces, taken, rest[1..]);
    assert "1" + rest == taken + rest[1..];
    assert Match(pieces, Text(d, pieces)).value[0] >= 10;
    assert ShownAll(d, Tokens(pieces))[0] == 1;
  }

  /** A later token that is misread makes the whole misread. */
  lemma LaterMisread(g: Field, pieces: seq<Piece>)
    requires TwoDigits(g) && ValidPieces(pieces) && pieces != [] && Misread(Witness(g), pieces[1..])
    ensures Misread(Witness(g), pieces)
  {
    var d, p := Witness(g), pieces[0];
    var rest := Text(d, pieces[1..]);
    if p.Literal? {
      assert ([p.c] + rest)[1..] == rest && Tokens(pieces) == Tokens(pieces[1..]);
    } else {
      LaterTokenMisread(g, pieces);
    }
  }

  lemma LaterTokenMisread(g: Field, pieces: seq<Piece>)
    requires TwoDigits(g) && ValidPieces(pieces) && pieces != [] && pieces[0].Token? && Misread(Witness(g), pieces[1..])
    ensures Misread(Witness(g), pieces)
  {
    var d, p := Witness(g), pieces[0];
    var s, rest := PieceText(d, p), Text(d, pieces[1..]);
    var text, shown := s + rest, ShownAll(d, Tokens(pieces[1..]));
    assert ([p] + Tokens(pieces[1..]))[1..] == Tokens(pieces[1..]);
    assert ShownAll(d, Tokens(pieces)) == [Shown(d, p)] + shown;
    var n := if p.width == 1 && Captured(pieces, text, 2).Some? then 2 else p.width;
    if Captured(pieces, text, n).Some? { LaterCaptured(g, pieces, n, shown); }
  }

  /** However many digits the first token takes, not all the numbers come out as shown. */
  lemma LaterCaptured(g: Field, pieces: seq<Piece>, n: nat, shown: seq<nat>)
    requires TwoDigits(g) && ValidPieces(pieces) && pieces != [] && pieces[0].Token?
    requires n == pieces[0].width || (n == 2 && pieces[0].width == 1)
    requires Match(pieces[1..], Text(Witness(g), pieces[1..])) != Some(shown)
    ensures Captured(pieces, PieceText(Witness(g), pieces[0]) + Text(Witness(g), pieces[1..]), n)
      != Some([Shown(Witness(g), pieces[0])] + shown)
  {
    var s, rest := PieceText(Witness(g), pieces[0]), Text(Witness(g), pieces[1..]);
    PrintedToken(Witness(g), pieces[0]);
    if n == |s| {
      SameCaptured(pieces, s, rest, shown);
    } else {
      WitnessText(g, pieces[0]);
      OtherCaptured(pieces, s, rest, n, shown);
    }
  }

  lemma SameCaptured(pieces: seq<Piece>, s: string, rest: string, shown: seq<nat>)
    requires pieces != [] && AllDigits(s) && Match(pieces[1..], rest) != Some(shown)
    ensures Captured(pieces, s + rest, |s|) != Some([Value(s)] + shown)
  {
    CapturedPrefix(pieces, s, rest);
    assert ([Value(s)] + shown)[1..] == shown;
    if Match(pieces[1..], rest).Some? {
      var after := Match(pieces[1..], rest).value;
      assert ([Value(s)] + after)[1..] == after;
    }
  }

  lemma OtherCaptured(pieces: seq<Piece>, s: string, rest: string, n: nat, shown: seq<nat>)
    requires pieces != [] && AllDigits(s) && s != "" && s[0] != '0' && |s| <= 2 && 1 <= n <= 2 && n != |s|
    ensures Captured(pieces, s + rest, n) != Some([Value(s)] + shown)
  {
    var text := s + rest;
    if |text| >= n && AllDigits(text[..n]) {
      OtherDigits(s, text[..n]);
      assert ([Value(s)] + shown)[0] == Value(s);
    }
  }

  /** Reading one digit for two, or two for one that is not zero, gives another number. */
  lemma OtherDigits(s: string, t: string)
    requires AllDigits(s) && AllDigits(t) && s != "" && t != "" && s[0] == t[0] && s[0] != '0'
    requires |s| <= 2 && |t| <= 2 && |s| != |t|
    ensures Value(s) != Value(t)
  {
    assert s[..1][..0] == "" && t[..1][..0] == "";
    assert |s| == 1 ==> s == s[..1];
    assert |t| == 1 ==> t == t[..1];
  }

  lemma {:induction false} SomeMisread(pieces: seq<Piece>) returns (g: Field)
    requires ValidPieces(pieces) && NoDigitLiterals(pieces) && !Separated(pieces)
    ensures TwoDigits(g) && Misread(Witness(g), pieces)
  {
    var p := pieces[0];
    if p.Token? && p.width == 1 && !RunFixed(pieces[1..], p.field) {
      g := OffendingLetter(pieces[1..], p.field);
      FirstMisread(g, pieces);
    } else {
      g := SomeMisread(pieces[1..]);
      LaterMisread(g, pieces);
    }
  }

  /**
   * Without digits among the literals, everything printed is matched as it was meant if and only if the format is
   * separated.
   */
  lemma TextMatchesIff(format: string)
    requires NoDigitLiterals(Pieces(format))
    ensures (forall d :: InRange(d) ==> !Misread(d, Pieces(format))) <==> Separated(Pieces(format))
  {
    PiecesValid(format);
    if Separated(Pieces(format)) {
      forall d | InRange(d) ensures !Misread(d, Pieces(format)) { TextMatches(d, Pieces(format)); }
    } else {
      var g := SomeMisread(Pieces(format));
      assert InRange(Witness(g));
    }
  }

  lemma {:induction false} NotEntered(tokens: seq<Piece>, values: seq<nat>, n: nat, f: Field)
    requires n <= |tokens| == |values| && (forall i :: 0 <= i < |tokens| ==> tokens[i].Token?) &&
      LastToken(tokens, n, f).None?
    ensures Get(Entered(tokens, values, n), f) == Get(DEFAULTS, f)
  {
    if n > 0 { NotEntered(tokens, values, n - 1, f); }
  }

  lemma SameBefore(a: DateTimeFields, b: DateTimeFields, t: Piece, x: nat, y: nat)
    requires ValidToken(t) && With(a, t, x) == With(b, t, y) && Get(a, t.field) == Get(b, t.field)
    ensures a == b && x == y
  {
  }

  /** If no field is set twice, the fields tell the captured numbers. */
  lemma {:induction false} EnteredInjective(tokens: seq<Piece>, values: seq<nat>, values': seq<nat>, n: nat)
    requires n <= |tokens| == |values| == |values'|
    requires forall i :: 0 <= i < |tokens| ==> tokens[i].Token? && ValidToken(tokens[i])
    requires OncePerField(tokens, n) && Entered(tokens, values, n) == Entered(tokens, values', n)
    ensures values[..n] == values'[..n]
  {
    if n > 0 {
      var f := tokens[n - 1].field;
      NotEntered(tokens, values, n - 1, f);
      NotEntered(tokens, values', n - 1, f);
      SameBefore(Entered(tokens, values, n - 1), Entered(tokens, values', n - 1), tokens[n - 1], values[n - 1],
        values'[n - 1]);
      EnteredInjective(tokens, values, values', n - 1);
      assert values[..n] == values[..n - 1] + [values[n - 1]] && values'[..n] == values'[..n - 1] + [values'[n - 1]];
    }
  }

  lemma {:induction false} TokensValid(pieces: seq<Piece>)
    requires ValidPieces(pieces)
    ensures forall i :: 0 <= i < |Tokens(pieces)| ==> ValidToken(Tokens(pieces)[i])
  {
    if pieces != [] { TokensValid(pieces[1..]); }
  }

  lemma ParsedIsMatched(d: DateTimeFields, format: string)
    requires OncePerField(Tokens(Pieces(format)), |Tokens(Pieces(format))|)
    requires Parsed(Pieces(format), FormatDateTime(d, format)) == Some(AsShown(d, format))
    ensures !Misread(d, Pieces(format))
  {
    var pieces, text := Pieces(format), FormatDateTime(d, format);
    var tokens := Tokens(pieces);
    PiecesValid(format);
    TokensValid(pieces);
    MatchLength(pieces, text);
    var values, shown := Match(pieces, text).value, ShownAll(d, tokens);
    EnteredInjective(tokens, values, shown, |tokens|);
    assert values[..|tokens|] == values && shown[..|tokens|] == shown;
  }

  /**
   * For formats without digits among the literals that mention no field twice, everything printed reads back, as far as
   * it is shown, if and only if the format is separated.
   */
  lemma PrintThenParseIff(format: string)
    requires NoDigitLiterals(Pieces(format)) && OncePerField(Tokens(Pieces(format)), |Tokens(Pieces(format))|)
    ensures (forall d :: InRange(d) ==> Parsed(Pieces(format), FormatDateTime(d, format)) == Some(AsShown(d, format)))
      <==> Separated(Pieces(format))
  {
    if Separated(Pieces(format)) {
      forall d | InRange(d) ensures Parsed(Pieces(format), FormatDateTime(d, format)) == Some(AsShown(d, format)) {
        PrintThenParse(d, format);
      }
    } else {
      PiecesValid(format);
      var g := SomeMisread(Pieces(format));
      var d := Witness(g);
      assert InRange(d);
      if Parsed(Pieces(format), FormatDateTime(d, format)) == Some(AsShown(d, format)) { ParsedIsMatched(d, format); }
    }
  }

  lemma LastDigit(c: char, n: nat)
    requires n < 10 && c == Digit(n)
    ensures Match([Token(Minute, 1)], [c]) == Some([n])
  {
    var pieces, none: seq<nat> := [Token(Minute, 1)], [];
    NumberOf(c, n);
    assert Match(pieces[1..], "") == Some(none) && [n] + none == [n];
    CapturedPrefix(pieces, [c], "");
    assert [c] + "" == [c];
    assert Captured(pieces, [c], 2).None?;
  }

  lemma PrintedAs123()
    ensures Text(DEFAULTS.(hour := 1, minute := 23), [Token(Hour, 1), Token(Minute, 1)]) == "123"
  {
  }

  lemma AdjacentPieces()
    ensures Pieces("Hm") == [Token(Hour, 1), Token(Minute, 1)] && Pieces("Hmm") == [Token(Hour, 1), Token(Minute, 2)]
  {
    assert "Hm"[1..] == "m" && "m"[1..] == "" && "Hmm"[1..] == "mm" && "mm"[2..] == "" && "mm"[1..] == "m";
    assert Repeats("mm", 2) == 2 && Repeats("m", 2) == 1;
  }

  lemma AdjacentSeparated()
    ensures Separated([Token(Hour, 1), Token(Minute, 2)]) && !Separated([Token(Hour, 1), Token(Minute, 1)])
  {
    assert [Token(Hour, 1), Token(Minute, 2)][1..] == [Token(Minute, 2)] && [Token(Minute, 2)][1..] == [];
    assert [Token(Hour, 1), Token(Minute, 1)][1..] == [Token(Minute, 1)];
  }

  lemma AdjacentMatched()
    ensures Match([Token(Hour, 1), Token(Minute, 1)], "123") == Some([12, 3])
  {
    var pieces := [Token(Hour, 1), Token(Minute, 1)];
    NumberOf('1', 1);
    LastDigit('3', 3);
    assert pieces[1..] == [Token(Minute, 1)] && "3" == ['3'];
    assert "12"[..1] == ['1'] && Value("12") == 12;
    CapturedPrefix(pieces, "12", "3");
    assert "12" + "3" == "123" && [12] + [3] == [12, 3];
  }

  /** Adjacent one-letter tokens are ambiguous: 1:23 printed as "123" reads back as 12:03. With "Hmm" it is not. */
  lemma AdjacentLettersAmbiguous()
    ensures FormatDateTime(DEFAULTS.(hour := 1, minute := 23), "Hm") == "123"
    ensures Parsed(Pieces("Hm"), "123") == Some(DEFAULTS.(hour := 12, minute := 3))
    ensures Separated(Pieces("Hmm")) && !Separated(Pieces("Hm"))
  {
    var pieces := [Token(Hour, 1), Token(Minute, 1)];
    AdjacentPieces();
    AdjacentSeparated();
    PrintedAs123();
    AdjacentMatched();
    assert Tokens(pieces[1..][1..]) == [] && Tokens(pieces[1..]) == [Token(Minute, 1)];
    assert Tokens(pieces) == pieces;
    assert Entered(pieces, [12, 3], 1) == DEFAULTS.(hour := 12);
  }

  lemma NumberOf(c: char, n: nat)
    requires n < 10 && c == Digit(n)
    ensures AllDigits([c]) && Value([c]) == n
  {
  }
}
