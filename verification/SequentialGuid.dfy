/**
 * Sequential GUIDs: UUID version 7 (section 5.7 of RFC 9562) with a process-wide monotonic counter (section 6.2 of RFC
 * 9562). The pair of timestamp and sequence is a logical clock that never stands still, whatever the wall clock does.
 */
module SequentialGuid {
  import opened Common

  const SEQUENCE_MAX := 0x0fff

  datatype Tick = Tick(timestamp: nat, sequence: nat)

  /** The clock as one number. */
  function Reading(t: Tick): nat { t.timestamp * 4096 + t.sequence }

  function NextTick(t: Tick, now: int): Tick {
    if now > t.timestamp then Tick(now, 0)
    else if t.sequence < SEQUENCE_MAX then t.(sequence := t.sequence + 1)
    else Tick(t.timestamp + 1, 0)
  }

  function TickAfter(readings: seq<int>): (t: Tick)
    ensures t.sequence <= SEQUENCE_MAX
  {
    if readings == [] then Tick(0, 0) else NextTick(TickAfter(readings[..|readings| - 1]), readings[|readings| - 1])
  }

  lemma TickAdvances(t: Tick, now: int)
    requires t.sequence <= SEQUENCE_MAX
    ensures Reading(NextTick(t, now)) == Max(Reading(t) + 1, now * 4096)
  {
  }

  /** Reading number `i` of the wall clock puts the logical clock at least here after `k` calls. */
  function BoundBy(readings: seq<int>, i: nat, k: nat): int
    requires i < |readings|
  {
    readings[i] * 4096 + k - (i + 1)
  }

  lemma {:induction false} ClockAtLeast(readings: seq<int>, i: nat)
    requires i < |readings|
    ensures Reading(TickAfter(readings)) >= BoundBy(readings, i, |readings|)
  {
    var n := |readings| - 1;
    TickAdvances(TickAfter(readings[..n]), readings[n]);
    if i < n { ClockAtLeast(readings[..n], i); }
  }

  /** The reading that put the clock where it is, or -1 if it has only ever counted calls. */
  lemma {:induction false} ClockAttained(readings: seq<int>) returns (i: int)
    ensures -1 <= i < |readings|
    ensures Reading(TickAfter(readings)) >= |readings|
    ensures Reading(TickAfter(readings)) == if i < 0 then |readings| else BoundBy(readings, i, |readings|)
  {
    i := -1;
    if readings != [] {
      var n := |readings| - 1;
      i := ClockAttained(readings[..n]);
      TickAdvances(TickAfter(readings[..n]), readings[n]);
      if readings[n] * 4096 > Reading(TickAfter(readings[..n])) { i := n; }
    }
  }

  /**
   * The closed form: after k calls the clock is the maximum of k and, over all readings n of the wall clock, of n *
   * 4096 plus the number of calls since; running backwards is harmless.
   */
  lemma ClosedForm(readings: seq<int>)
    ensures var k, clock := |readings|, Reading(TickAfter(readings));
      && clock >= k
      && (forall i :: 0 <= i < k ==> clock >= BoundBy(readings, i, k))
      && (clock == k || exists i :: 0 <= i < k && clock == BoundBy(readings, i, k))
  {
    forall i | 0 <= i < |readings| ensures Reading(TickAfter(readings)) >= BoundBy(readings, i, |readings|) {
      ClockAtLeast(readings, i);
    }
    var i := ClockAttained(readings);
  }

  // ---------------------------------------------------------------- bytes and text

  type Byte = x: int | 0 <= x < 256

  /**
   * Byte number `i` of the timestamp. The upper two are divided out; the lower four are shifted out of the value modulo
   * 2^32, as JavaScript shifts do.
   */
  function TimestampByte(timestamp: nat, i: nat): Byte
    requires i < 6
  {
    match i
    case 0 => timestamp / 0x100_0000_0000 % 256
    case 1 => timestamp / 0x1_0000_0000 % 256
    case 2 => timestamp % 0x1_0000_0000 / 0x100_0000 % 256
    case 3 => timestamp % 0x1_0000_0000 / 0x1_0000 % 256
    case 4 => timestamp % 0x1_0000_0000 / 0x100 % 256
    case 5 => timestamp % 0x1_0000_0000 % 256
  }

  function VersionByte(sequence: nat): Byte { 0x70 + sequence / 256 % 16 }

  function VariantByte(random: Byte): Byte { 0x80 + random % 64 }

  /** 48 bits of timestamp, the version, 12 bits of sequence, the variant, and 62 random bits. */
  function Layout(t: Tick, random: seq<Byte>): (b: seq<Byte>)
    requires |random| == 8
    ensures |b| == 16
  {
    [TimestampByte(t.timestamp, 0), TimestampByte(t.timestamp, 1), TimestampByte(t.timestamp, 2),
     TimestampByte(t.timestamp, 3), TimestampByte(t.timestamp, 4), TimestampByte(t.timestamp, 5),
     VersionByte(t.sequence), t.sequence % 256, VariantByte(random[0])] + random[1..]
  }

  function HexDigit(d: nat): (c: char)
    requires d < 16
  {
    if d < 10 then '0' + d as char else 'a' + (d - 10) as char
  }

  function Hex(b: Byte): string { [HexDigit(b / 16), HexDigit(b % 16)] }

  predicate DashBefore(i: nat) { i == 4 || i == 6 || i == 8 || i == 10 }

  function Dash(i: nat): string { if DashBefore(i) then "-" else "" }

  function Piece(b: Byte, i: nat): string { Dash(i) + Hex(b) }

  /** The text of the bytes from number `i` on. */
  function TextFrom(b: seq<Byte>, i: nat): string
    requires i <= |b|
    decreases |b| - i
  {
    if i == |b| then "" else Piece(b[i], i) + TextFrom(b, i + 1)
  }

  function Guid(t: Tick, random: seq<Byte>): string
    requires |random| == 8
  {
    TextFrom(Layout(t, random), 0)
  }

  lemma AppendPieces(out: string, dash: string, hex: string, rest: string)
    ensures out + ((dash + hex) + rest) == out + dash + hex + rest
  {
  }

  /** `format`: two hex digits per byte and four dashes. */
  method Format(bytes: array<Byte>) returns (out: string)
    requires bytes.Length == 16
    ensures out == TextFrom(bytes[..], 0)
  {
    out := "";
    ghost var b := bytes[..];
    for i := 0 to 16
      invariant out + TextFrom(b, i) == TextFrom(b, 0)
    {
      AppendPieces(out, Dash(i), Hex(b[i]), TextFrom(b, i + 1));
      if i == 4 || i == 6 || i == 8 || i == 10 { out := out + "-"; } else { assert out + "" == out; }
      out := out + Hex(bytes[i]);
    }
    assert out + "" == out;
  }

  /** The process-wide state of all generators. */
  class SequentialGuidGenerator {
    var lastTimestamp: nat
    var sequence: nat

    function State(): Tick
      reads this
    {
      Tick(lastTimestamp, sequence)
    }

    constructor ()
      ensures State() == Tick(0, 0)
    {
      lastTimestamp, sequence := 0, 0;
    }

    method Advance(now: int) returns (t: Tick)
      modifies this
      ensures State() == t == NextTick(old(State()), now)
    {
      if now > lastTimestamp {
        lastTimestamp := now;
        sequence := 0;
      } else if sequence < SEQUENCE_MAX {
        sequence := sequence + 1;
      } else {
        lastTimestamp := lastTimestamp + 1;
        sequence := 0;
      }
      t := Tick(lastTimestamp, sequence);
    }

    method Create(now: int, random: seq<Byte>) returns (guid: string)
      requires |random| == 8
      modifies this
      ensures State() == NextTick(old(State()), now)
      ensures guid == Guid(State(), random)
    {
      var t := Advance(now);
      var bytes := Fill(t, random);
      guid := Format(bytes);
    }
  }

  /** Random bytes behind, then timestamp, version, sequence and variant over them. */
  method Fill(t: Tick, random: seq<Byte>) returns (bytes: array<Byte>)
    requires |random| == 8
    ensures bytes[..] == Layout(t, random)
  {
    bytes := new Byte[16];
    for i := 8 to 16
      invariant forall k :: 8 <= k < i ==> bytes[k] == random[k - 8]
    {
      bytes[i] := random[i - 8];
    }
    for i := 0 to 6
      invariant forall k :: 8 <= k < 16 ==> bytes[k] == random[k - 8]
      invariant forall k :: 0 <= k < i ==> bytes[k] == TimestampByte(t.timestamp, k)
    {
      bytes[i] := TimestampByte(t.timestamp, i);
    }
    bytes[6] := VersionByte(t.sequence);
    bytes[7] := t.sequence % 256;
    bytes[8] := VariantByte(bytes[8]);
    assert bytes[9..] == random[1..];
    assert bytes[..] == bytes[..9] + bytes[9..];
  }

  // ---------------------------------------------------------------- order

  /** The first `n` bytes as one big-endian number. */
  function Number(b: seq<int>, n: nat): int
    requires n <= |b|
  {
    if n == 0 then 0 else Number(b, n - 1) * 256 + b[n - 1]
  }

  /** Taking off one byte after another. */
  lemma ShiftTwice(x: nat)
    ensures x / 0x100 / 0x100 == x / 0x1_0000
    ensures x / 0x1_0000 / 0x100 == x / 0x100_0000
    ensures x / 0x100_0000 / 0x100 == x / 0x1_0000_0000
    ensures x / 0x1_0000_0000 / 0x100 == x / 0x100_0000_0000
  {
  }

  lemma LowWord(x: nat)
    ensures x % 0x1_0000_0000 % 0x100 == x % 0x100
    ensures x % 0x1_0000_0000 / 0x100 % 0x100 == x / 0x100 % 0x100
    ensures x % 0x1_0000_0000 / 0x1_0000 % 0x100 == x / 0x1_0000 % 0x100
    ensures x % 0x1_0000_0000 / 0x100_0000 % 0x100 == x / 0x100_0000 % 0x100
  {
    var high, low := x / 0x1_0000_0000, x % 0x1_0000_0000;
    HighByte(x, high, low);
    MiddleByte(x, high, low);
    LowByte(x, high, low);
  }

  lemma Quotients(x: nat, q: nat, r: nat)
    ensures x == q * 0x100 + r && r < 0x100 ==> x / 0x100 == q
    ensures x == q * 0x1_0000 + r && r < 0x1_0000 ==> x / 0x1_0000 == q
    ensures x == q * 0x100_0000 + r && r < 0x100_0000 ==> x / 0x100_0000 == q
  {
  }

  lemma Remainder(q: nat, r: nat)
    ensures (q * 0x100 + r) % 0x100 == r % 0x100
  {
  }

  lemma HighByte(x: nat, high: nat, low: nat)
    requires x == high * 0x1_0000_0000 + low && low < 0x1_0000_0000
    ensures low / 0x100_0000 % 0x100 == x / 0x100_0000 % 0x100
  {
    var q, r := low / 0x100_0000, low % 0x100_0000;
    Quotients(x, high * 0x100 + q, r);
    Remainder(high, q);
  }

  lemma MiddleByte(x: nat, high: nat, low: nat)
    requires x == high * 0x1_0000_0000 + low && low < 0x1_0000_0000
    ensures low / 0x1_0000 % 0x100 == x / 0x1_0000 % 0x100
  {
    var q, r := low / 0x1_0000, low % 0x1_0000;
    Quotients(x, high * 0x1_0000 + q, r);
    Remainder(high * 0x100, q);
  }

  lemma LowByte(x: nat, high: nat, low: nat)
    requires x == high * 0x1_0000_0000 + low && low < 0x1_0000_0000
    ensures low % 0x100 == x % 0x100
    ensures low / 0x100 % 0x100 == x / 0x100 % 0x100
  {
    var q, r := low / 0x100, low % 0x100;
    Quotients(x, high * 0x100_0000 + q, r);
    Remainder(high * 0x1_0000, q);
    Remainder(high * 0x100_0000, low);
  }

  lemma TimestampNumber(t: Tick, random: seq<Byte>)
    requires |random| == 8 && t.timestamp < 0x1_0000_0000_0000
    ensures Number(Layout(t, random), 6) == t.timestamp
  {
    var b, T := Layout(t, random), t.timestamp;
    ShiftTwice(T);
    LowWord(T);
    assert Number(b, 1) == T / 0x100_0000_0000;
    assert Number(b, 2) == T / 0x1_0000_0000;
    assert Number(b, 3) == T / 0x100_0000;
    assert Number(b, 4) == T / 0x1_0000;
    assert Number(b, 5) == T / 0x100;
  }

  /** The first eight bytes hold timestamp, version and sequence, in this order. */
  lemma LayoutNumber(t: Tick, random: seq<Byte>)
    requires |random| == 8 && t.timestamp < 0x1_0000_0000_0000 && t.sequence <= SEQUENCE_MAX
    ensures Number(Layout(t, random), 8) == t.timestamp * 0x1_0000 + 0x7000 + t.sequence
  {
    var b := Layout(t, random);
    TimestampNumber(t, random);
    assert Number(b, 7) == Number(b, 6) * 256 + b[6];
    assert Number(b, 8) == Number(b, 7) * 256 + b[7];
  }

  /** Where two byte lists differ first. */
  lemma {:induction false} FirstDifference(b: seq<Byte>, c: seq<Byte>, n: nat) returns (j: nat)
    requires n <= |b| && n <= |c| && Number(b, n) < Number(c, n)
    ensures j < n && b[j] < c[j] && b[..j] == c[..j]
  {
    if Number(b, n - 1) < Number(c, n - 1) {
      j := FirstDifference(b, c, n - 1);
    } else {
      SameNumber(b, c, n - 1);
      j := n - 1;
    }
  }

  lemma {:induction false} SameNumber(b: seq<Byte>, c: seq<Byte>, n: nat)
    requires n <= |b| && n <= |c| && Number(b, n) == Number(c, n)
    ensures b[..n] == c[..n]
  {
    if n > 0 {
      SameNumber(b, c, n - 1);
      assert b[..n] == b[..n - 1] + [b[n - 1]] && c[..n] == c[..n - 1] + [c[n - 1]];
    }
  }

  lemma HexOrder(x: Byte, y: Byte)
    requires x < y
    ensures StrLess(Hex(x), Hex(y)) && Hex(x) != Hex(y)
  {
  }

  lemma {:induction false} TextOrder(b: seq<Byte>, c: seq<Byte>, i: nat, j: nat)
    requires i <= j < |b| == |c| && b[j] < c[j] && b[..j] == c[..j]
    ensures StrLess(TextFrom(b, i), TextFrom(c, i))
    decreases j - i
  {
    var restB, restC := TextFrom(b, i + 1), TextFrom(c, i + 1);
    if i < j {
      assert b[i] == b[..j][i] == c[i];
      TextOrder(b, c, i + 1, j);
      StrLessSamePrefix(Piece(b[i], i), restB, restC);
    } else {
      HexOrder(b[i], c[i]);
      StrLessSamePrefix(Dash(i), Hex(b[i]), Hex(c[i]));
      StrLessIrreflexive(Piece(b[i], i));
      StrLessFirstDifference(Piece(b[i], i), Piece(c[i], i), restB, restC);
    }
  }

  /** Texts of later ticks are greater, whatever the random bits. */
  lemma {:induction false} GuidOrder(t: Tick, random: seq<Byte>, t': Tick, random': seq<Byte>)
    requires |random| == |random'| == 8
    requires t.sequence <= SEQUENCE_MAX && t'.sequence <= SEQUENCE_MAX && t'.timestamp < 0x1_0000_0000_0000
    requires Reading(t) < Reading(t')
    ensures StrLess(Guid(t, random), Guid(t', random'))
  {
    LaterIsLarger(t.timestamp, t.sequence, t'.timestamp, t'.sequence);
    LayoutNumber(t, random);
    LayoutNumber(t', random');
    NumberOrder(Layout(t, random), Layout(t', random'));
  }

  lemma LaterIsLarger(time: nat, sequence: nat, time': nat, sequence': nat)
    requires sequence < 4096 && sequence' < 4096 && time * 4096 + sequence < time' * 4096 + sequence'
    ensures time <= time' && time * 0x1_0000 + 0x7000 + sequence < time' * 0x1_0000 + 0x7000 + sequence'
  {
  }

  lemma NumberOrder(b: seq<Byte>, c: seq<Byte>)
    requires |b| == |c| == 16 && Number(b, 8) < Number(c, 8)
    ensures StrLess(TextFrom(b, 0), TextFrom(c, 0))
  {
    var j := FirstDifference(b, c, 8);
    TextOrder(b, c, 0, j);
  }

  lemma {:induction false} ClockAdvances(readings: seq<int>, m: nat)
    requires m < |readings|
    ensures Reading(TickAfter(readings[..m])) < Reading(TickAfter(readings))
  {
    var n := |readings| - 1;
    TickAdvances(TickAfter(readings[..n]), readings[n]);
    if m < n {
      ClockAdvances(readings[..n], m);
      assert readings[..n][..m] == readings[..m];
    }
  }

  /**
   * Every id is greater, as a string, than all ids of the process before it, as long as timestamps fit 48 bits, however
   * the wall clock jumps.
   */
  lemma {:induction false} IdsIncrease(readings: seq<int>, m: nat, random: seq<Byte>, random': seq<Byte>)
    requires |random| == |random'| == 8
    requires m < |readings| && TickAfter(readings).timestamp < 0x1_0000_0000_0000
    ensures StrLess(Guid(TickAfter(readings[..m]), random), Guid(TickAfter(readings), random'))
  {
    ClockAdvances(readings, m);
    GuidOrder(TickAfter(readings[..m]), random, TickAfter(readings), random');
  }

  /** So ids are in the order of the calls that made them, and no id is ever made twice. */
  lemma IdOrderIsCallOrder(readings: seq<int>, m: nat, n: nat, random: seq<Byte>, random': seq<Byte>)
    requires |random| == |random'| == 8
    requires m <= |readings| && n <= |readings|
    requires TickAfter(readings[..m]).timestamp < 0x1_0000_0000_0000 &&
      TickAfter(readings[..n]).timestamp < 0x1_0000_0000_0000
    ensures m < n ==> StrLess(Guid(TickAfter(readings[..m]), random), Guid(TickAfter(readings[..n]), random'))
    ensures m > n ==> !StrLess(Guid(TickAfter(readings[..m]), random), Guid(TickAfter(readings[..n]), random'))
    ensures m != n ==> Guid(TickAfter(readings[..m]), random) != Guid(TickAfter(readings[..n]), random')
  {
    var a, b := Guid(TickAfter(readings[..m]), random), Guid(TickAfter(readings[..n]), random');
    if m < n {
      assert readings[..n][..m] == readings[..m];
      IdsIncrease(readings[..n], m, random, random');
      StrLessAsymmetric(a, b);
    } else if n < m {
      assert readings[..m][..n] == readings[..n];
      IdsIncrease(readings[..m], n, random', random);
      StrLessAsymmetric(b, a);
    }
  }

  // ---------------------------------------------------------------- decoding

  function DigitValue(c: char): int {
    if c <= '9' then c as int - '0' as int else c as int - 'a' as int + 10
  }

  /** The bytes read back from the text, from number `i` on, skipping dashes. */
  function BytesFrom(text: string, i: nat): seq<int>
    decreases |text|
  {
    var rest := if DashBefore(i) && text != "" then text[1..] else text;
    if |rest| < 2 then [] else [DigitValue(rest[0]) * 16 + DigitValue(rest[1])] + BytesFrom(rest[2..], i + 1)
  }

  lemma PieceReadBack(x: Byte, i: nat, rest: string)
    ensures BytesFrom(Piece(x, i) + rest, i) == [x] + BytesFrom(rest, i + 1)
  {
  }

  lemma {:induction false} BytesReadBack(b: seq<Byte>, i: nat)
    requires i <= |b|
    ensures BytesFrom(TextFrom(b, i), i) == b[i..]
    decreases |b| - i
  {
    if i < |b| {
      BytesReadBack(b, i + 1);
      PieceReadBack(b[i], i, TextFrom(b, i + 1));
    }
  }

  /** Where byte `i` starts in the text, its dash included. */
  function Start(i: nat): nat {
    2 * i + (if i <= 4 then 0 else if i <= 6 then 1 else if i <= 8 then 2 else if i <= 10 then 3 else 4)
  }

  lemma DropPiece(text: string, at: nat, piece: string, rest: string)
    requires at <= |text| && text[at..] == piece + rest
    ensures at + |piece| <= |text| && text[at + |piece|..] == rest
  {
  }

  lemma PieceWidth(x: Byte, i: nat)
    requires i < 16
    ensures |Piece(x, i)| == Start(i + 1) - Start(i)
  {
  }

  lemma {:induction false} TextLength(b: seq<Byte>, i: nat)
    requires |b| == 16 && i <= 16
    ensures |TextFrom(b, i)| == 36 - Start(i)
    decreases 16 - i
  {
    if i < 16 {
      PieceWidth(b[i], i);
      TextLength(b, i + 1);
    }
  }

  lemma {:induction false} TextAt(b: seq<Byte>, i: nat)
    requires |b| == 16 && i <= 16
    ensures Start(i) <= |TextFrom(b, 0)| && TextFrom(b, 0)[Start(i)..] == TextFrom(b, i)
  {
    if i > 0 {
      TextAt(b, i - 1);
      PieceWidth(b[i - 1], i - 1);
      DropPiece(TextFrom(b, 0), Start(i - 1), Piece(b[i - 1], i - 1), TextFrom(b, i));
    }
  }

  function DecodedTimestamp(text: string): int {
    var b := BytesFrom(text, 0);
    if |b| < 6 then 0 else Number(b, 6)
  }

  function DecodedSequence(text: string): int {
    var b := BytesFrom(text, 0);
    if |b| < 8 then 0 else b[6] % 16 * 256 + b[7]
  }

  lemma GroupStart(b: seq<Byte>, i: nat)
    requires |b| == 16 && i < 16 && DashBefore(i)
    ensures |TextFrom(b, 0)| == 36 && Start(i) < 35
    ensures TextFrom(b, 0)[Start(i)] == '-' && TextFrom(b, 0)[Start(i) + 1] == HexDigit(b[i] / 16)
  {
    TextAt(b, i);
    TextLength(b, 0);
    var tail := TextFrom(b, 0)[Start(i)..];
    assert tail[0] == '-' && tail[1] == HexDigit(b[i] / 16);
  }

  lemma Nibbles(sequence: nat, random: Byte)
    ensures HexDigit(VersionByte(sequence) / 16) == '7' && HexDigit(VariantByte(random) / 16) in "89ab"
    ensures sequence <= SEQUENCE_MAX ==> VersionByte(sequence) % 16 * 256 + sequence % 256 == sequence
  {
  }

  /** The text is a UUID of version 7 and its variant. */
  lemma VersionAndVariant(t: Tick, random: seq<Byte>)
    requires |random| == 8
    ensures var text := Guid(t, random);
      && |text| == 36 && text[8] == text[13] == text[18] == text[23] == '-'
      && text[14] == '7' && text[19] in "89ab"
  {
    var b := Layout(t, random);
    GroupStart(b, 4);
    GroupStart(b, 6);
    GroupStart(b, 8);
    GroupStart(b, 10);
    Nibbles(t.sequence, random[0]);
    assert b[6] == VersionByte(t.sequence) && b[8] == VariantByte(random[0]);
  }

  /** Timestamp and sequence can be read back from the text, whatever the random bits. */
  lemma DecodeGuid(t: Tick, random: seq<Byte>)
    requires |random| == 8 && t.timestamp < 0x1_0000_0000_0000 && t.sequence <= SEQUENCE_MAX
    ensures DecodedTimestamp(Guid(t, random)) == t.timestamp && DecodedSequence(Guid(t, random)) == t.sequence
  {
    var b := Layout(t, random);
    BytesReadBack(b, 0);
    assert BytesFrom(Guid(t, random), 0) == b;
    TimestampNumber(t, random);
    Nibbles(t.sequence, random[0]);
    assert b[6] == VersionByte(t.sequence) && b[7] == t.sequence % 256;
  }
}
