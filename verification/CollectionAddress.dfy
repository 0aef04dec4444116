/** The contract address of a collection and the id read back from it
    (src/utils/blockchain/web3.ts, src/utils/blockchain/util.ts). */
module CollectionAddress {
  import opened Wrappers

  datatype AddressError = IdOverflow | WrongFormat

  /** The sixteen bytes every collection address starts with. */
  const PREFIX: seq<int> :=
    [0x17, 0xc4, 0xe6, 0x45, 0x3c, 0xc4, 0x9a, 0xaa, 0xae, 0xac, 0xa8, 0x94, 0xe6, 0xd9, 0x68, 0x3e]

  /** Bitwise operators work on signed 32-bit integers. */
  function ToInt32(x: int): int {
    var m := x % 0x1_0000_0000;
    if m >= 0x8000_0000 then m - 0x1_0000_0000 else m
  }

  /** The arithmetic shift x >> 8 * bytes, rounding down. */
  function ShiftRight(x: int, bytes: nat): int
    requires bytes < 4
  {
    var s := ToInt32(x);
    match bytes
    case 0 => s
    case 1 => s / 0x100
    case 2 => s / 0x1_0000
    case 3 => s / 0x100_0000
  }

  /** A byte buffer keeps the low eight bits, as does the mask 0xff. */
  function LowByte(x: int): (b: int)
    ensures 0 <= b < 256
  {
    x % 256
  }

  function AddressBytes(id: int): seq<int> {
    PREFIX + [LowByte(ShiftRight(id, 3)), LowByte(ShiftRight(id, 2)), LowByte(ShiftRight(id, 1)), LowByte(ShiftRight(id, 0))]
  }

  const LOWER: seq<char> := "0123456789abcdef"
  const UPPER: seq<char> := "0123456789ABCDEF"

  function HexDigit(d: int, upper: bool): char
    requires 0 <= d < 16
  {
    if upper then UPPER[d] else LOWER[d]
  }

  function DigitValue(c: char): Option<int> {
    if '0' <= c <= '9' then Some(c as int - '0' as int)
    else if 'a' <= c <= 'f' then Some(c as int - 'a' as int + 10)
    else if 'A' <= c <= 'F' then Some(c as int - 'A' as int + 10)
    else None
  }

  /** Hexadecimal text of bytes; the checksum encoding decides the case of the digit at each position. */
  function Hex(bytes: seq<int>, at: nat, upper: nat -> bool): (text: seq<char>)
    requires forall i :: 0 <= i < |bytes| ==> 0 <= bytes[i] < 256
    ensures |text| == 2 * |bytes|
  {
    if bytes == [] then []
    else
      [HexDigit(bytes[0] / 16, upper(at)), HexDigit(bytes[0] % 16, upper(at + 1))] + Hex(bytes[1..], at + 2, upper)
  }

  /** The digits of a text up to the first other character. */
  function ParseHex(text: seq<char>, value: int): int {
    if text == [] || DigitValue(text[0]).None? then value
    else ParseHex(text[1..], value * 16 + DigitValue(text[0]).value)
  }

  datatype Number = NotANumber | Whole(value: int)

  /** White space and line ends of the source language. */
  predicate IsBlank(c: char) {
    c in {'\t', '\n', '\r', ' ', '\U{0B}', '\U{0C}', '\U{A0}', '\U{1680}', '\U{2028}', '\U{2029}', '\U{202F}', '\U{205F}', '\U{3000}', '\U{FEFF}'}
    || '\U{2000}' <= c <= '\U{200A}'
  }

  function SkipBlanks(text: seq<char>): seq<char> {
    if text != [] && IsBlank(text[0]) then SkipBlanks(text[1..]) else text
  }

  function SkipPrefix(text: seq<char>): seq<char> {
    if |text| >= 2 && text[0] == '0' && (text[1] == 'x' || text[1] == 'X') then text[2..] else text
  }

  function DigitsOrNaN(text: seq<char>): Number {
    if text == [] || DigitValue(text[0]).None? then NotANumber else Whole(ParseHex(text, 0))
  }

  /** parseInt(text, 16): blanks, a sign and a base prefix are skipped; without a digit then, it is not a number. */
  function ParseInt(text: seq<char>): Number {
    var t := SkipBlanks(text);
    if t != [] && t[0] == '-' then
      match DigitsOrNaN(SkipPrefix(t[1..]))
      case NotANumber => NotANumber
      case Whole(v) => Whole(-v)
    else DigitsOrNaN(SkipPrefix(if t != [] && t[0] == '+' then t[1..] else t))
  }

  /** collectionIdToAddress */
  function ToAddress(id: int, upper: nat -> bool): Result<seq<char>, AddressError> {
    if id >= 0xffff_ffff || id < 0 then Failure(IdOverflow)
    else Success("0x" + Hex(AddressBytes(id), 2, upper))
  }

  /** extractCollectionIdFromAddress */
  function ExtractId(address: seq<char>): Result<Number, AddressError> {
    if |address| == 42 || |address| == 40 then Success(ParseInt(address[|address| - 8..]))
    else Failure(WrongFormat)
  }

  predicate AllDigits(text: seq<char>) {
    forall i :: 0 <= i < |text| ==> DigitValue(text[i]).Some?
  }

  lemma DigitIsPlain(c: char)
    requires DigitValue(c).Some?
    ensures !IsBlank(c) && c != '-' && c != '+' && c != 'x' && c != 'X'
  {
  }

  /** On digits alone nothing is skipped. */
  lemma ParseIntOfDigits(text: seq<char>)
    requires text != [] && AllDigits(text)
    ensures ParseInt(text) == Whole(ParseHex(text, 0))
  {
    DigitIsPlain(text[0]);
    if |text| >= 2 {
      DigitIsPlain(text[1]);
    }
  }

  function PowerOf16(n: nat): int {
    if n == 0 then 1 else 16 * PowerOf16(n - 1)
  }

  lemma {:induction false} ParseHexBounds(text: seq<char>, value: int)
    requires AllDigits(text) && value >= 0
    ensures value * PowerOf16(|text|) <= ParseHex(text, value) < (value + 1) * PowerOf16(|text|)
  {
    if text != [] {
      var next := value * 16 + DigitValue(text[0]).value;
      ParseHexBounds(text[1..], next);
      var p := PowerOf16(|text| - 1);
      assert 0 <= DigitValue(text[0]).value < 16;
      ScaleBounds(value, DigitValue(text[0]).value, p);
    }
  }

  lemma ScaleBounds(value: int, digit: int, p: int)
    requires p >= 0 && 0 <= digit < 16
    ensures value * (16 * p) <= (value * 16 + digit) * p && (value * 16 + digit + 1) * p <= (value + 1) * (16 * p)
  {
    assert (value * 16 + digit) * p == value * (16 * p) + digit * p;
    assert (value * 16 + digit + 1) * p == value * (16 * p) + (digit + 1) * p;
    assert (value + 1) * (16 * p) == value * (16 * p) + 16 * p;
    assert digit * p >= 0 && (15 - digit) * p >= 0;
  }

  /** A text of the right length that ends in eight digits yields a number of four bytes, another length nothing. */
  lemma ExtractedIdIsFourBytes(address: seq<char>)
    ensures ExtractId(address).Failure? <==> |address| != 42 && |address| != 40
    ensures ExtractId(address).Success? && AllDigits(address[|address| - 8..]) ==>
      ExtractId(address).value.Whole? && 0 <= ExtractId(address).value.value < 0x1_0000_0000
  {
    if ExtractId(address).Success? && AllDigits(address[|address| - 8..]) {
      var tail := address[|address| - 8..];
      ParseIntOfDigits(tail);
      ParseHexBounds(tail, 0);
      assert PowerOf16(8) == 0x1_0000_0000 by {
        assert PowerOf16(2) == 0x100 && PowerOf16(4) == 0x1_0000 && PowerOf16(6) == 0x100_0000;
      }
    }
  }

  lemma DigitRoundTrip(d: int, upper: bool)
    requires 0 <= d < 16
    ensures DigitValue(HexDigit(d, upper)) == Some(d)
  {
  }

  lemma {:induction false} HexIsDigits(bytes: seq<int>, at: nat, upper: nat -> bool)
    requires forall i :: 0 <= i < |bytes| ==> 0 <= bytes[i] < 256
    ensures AllDigits(Hex(bytes, at, upper))
  {
    if bytes != [] {
      HexIsDigits(bytes[1..], at + 2, upper);
      DigitRoundTrip(bytes[0] / 16, upper(at));
      DigitRoundTrip(bytes[0] % 16, upper(at + 1));
      var text, rest := Hex(bytes, at, upper), Hex(bytes[1..], at + 2, upper);
      forall i | 0 <= i < |text| ensures DigitValue(text[i]).Some? {
        if i >= 2 { assert text[i] == rest[i - 2]; }
      }
    }
  }

  /** Two digits of text are one byte of value, in either case. */
  lemma ParseByte(b: int, rest: seq<char>, at: nat, upper: nat -> bool, value: int)
    requires 0 <= b < 256
    ensures ParseHex([HexDigit(b / 16, upper(at)), HexDigit(b % 16, upper(at + 1))] + rest, value)
         == ParseHex(rest, value * 256 + b)
  {
    var hi, lo := HexDigit(b / 16, upper(at)), HexDigit(b % 16, upper(at + 1));
    DigitRoundTrip(b / 16, upper(at));
    DigitRoundTrip(b % 16, upper(at + 1));
    var text := [hi, lo] + rest;
    assert text[0] == hi && text[1..] == [lo] + rest;
    assert ([lo] + rest)[0] == lo && ([lo] + rest)[1..] == rest;
    assert ParseHex(text, value) == ParseHex([lo] + rest, value * 16 + b / 16);
  }

  function BytesValue(bytes: seq<int>, value: int): int {
    if bytes == [] then value else BytesValue(bytes[1..], value * 256 + bytes[0])
  }

  lemma {:induction false} ParseFirstByte(bytes: seq<int>, at: nat, upper: nat -> bool, value: int)
    requires bytes != [] && forall i :: 0 <= i < |bytes| ==> 0 <= bytes[i] < 256
    ensures ParseHex(Hex(bytes, at, upper), value) == ParseHex(Hex(bytes[1..], at + 2, upper), value * 256 + bytes[0])
  {
    var rest := Hex(bytes[1..], at + 2, upper);
    assert Hex(bytes, at, upper) == [HexDigit(bytes[0] / 16, upper(at)), HexDigit(bytes[0] % 16, upper(at + 1))] + rest;
    ParseByte(bytes[0], rest, at, upper, value);
  }

  lemma {:induction false} ParseHexText(bytes: seq<int>, at: nat, upper: nat -> bool, value: int)
    requires forall i :: 0 <= i < |bytes| ==> 0 <= bytes[i] < 256
    ensures ParseHex(Hex(bytes, at, upper), value) == BytesValue(bytes, value)
  {
    if bytes != [] {
      var next := value * 256 + bytes[0];
      ParseFirstByte(bytes, at, upper, value);
      ParseHexText(bytes[1..], at + 2, upper, next);
      assert BytesValue(bytes, value) == BytesValue(bytes[1..], next);
    }
  }

  lemma {:induction false} HexTail(bytes: seq<int>, at: nat, upper: nat -> bool, n: nat)
    requires n <= |bytes| && forall i :: 0 <= i < |bytes| ==> 0 <= bytes[i] < 256
    ensures Hex(bytes, at, upper)[2 * n..] == Hex(bytes[n..], at + 2 * n, upper)
  {
    if n > 0 {
      HexTail(bytes[1..], at + 2, upper, n - 1);
      assert bytes[1..][n - 1..] == bytes[n..];
      var text, rest := Hex(bytes, at, upper), Hex(bytes[1..], at + 2, upper);
      assert text[2..] == rest;
      assert text[2 * n..] == rest[2 * (n - 1)..];
    }
  }

  function Power(bytes: nat): int
    requires bytes < 4
  {
    match bytes
    case 0 => 1
    case 1 => 0x100
    case 2 => 0x1_0000
    case 3 => 0x100_0000
  }

  /** Each byte is the one of the unsigned id, also where the signed shift makes it wrap around. */
  lemma ByteOfId(id: int, bytes: nat)
    requires 0 <= id < 0x1_0000_0000 && bytes < 4
    ensures LowByte(ShiftRight(id, bytes)) == id / Power(bytes) % 256
  {
    var s := ToInt32(id);
    if id >= 0x8000_0000 {
      assert s == id - 0x1_0000_0000;
      match bytes
      case 0 =>
      case 1 => assert s / 0x100 == id / 0x100 - 0x100_0000;
      case 2 => assert s / 0x1_0000 == id / 0x1_0000 - 0x1_0000;
      case 3 => assert s / 0x100_0000 == id / 0x100_0000 - 0x100;
    }
  }

  lemma BytesOfId(id: int)
    requires 0 <= id < 0x1_0000_0000
    ensures LowByte(ShiftRight(id, 3)) * 0x100_0000 + LowByte(ShiftRight(id, 2)) * 0x1_0000
          + LowByte(ShiftRight(id, 1)) * 0x100 + LowByte(ShiftRight(id, 0)) == id
  {
    ByteOfId(id, 0);
    ByteOfId(id, 1);
    ByteOfId(id, 2);
    ByteOfId(id, 3);
    Recompose(id);
  }

  lemma Recompose(id: int)
    requires 0 <= id < 0x1_0000_0000
    ensures id / 0x100_0000 % 256 * 0x100_0000 + id / 0x1_0000 % 256 * 0x1_0000 + id / 0x100 % 256 * 0x100 + id / 1 % 256 == id
  {
    var q1 := id / 0x100;
    var q2 := q1 / 0x100;
    var q3 := q2 / 0x100;
    assert id / 0x1_0000 == q2 && id / 0x100_0000 == q3;
  }

  lemma TailText(bytes: seq<int>, upper: nat -> bool)
    requires |bytes| == 20 && forall i :: 0 <= i < |bytes| ==> 0 <= bytes[i] < 256
    ensures var address := "0x" + Hex(bytes, 2, upper);
            |address| == 42 && address[34..] == Hex(bytes[16..], 34, upper)
  {
    var text := Hex(bytes, 2, upper);
    HexTail(bytes, 2, upper, 16);
    assert ("0x" + text)[34..] == text[32..];
  }

  /** The last four of the twenty bytes are read from the last eight digits. */
  lemma TailParses(bytes: seq<int>, upper: nat -> bool)
    requires |bytes| == 20 && forall i :: 0 <= i < |bytes| ==> 0 <= bytes[i] < 256
    ensures ExtractId("0x" + Hex(bytes, 2, upper)) == Success(Whole(BytesValue(bytes[16..], 0)))
  {
    var low := bytes[16..];
    TailText(bytes, upper);
    HexIsDigits(low, 34, upper);
    ParseIntOfDigits(Hex(low, 34, upper));
    ParseHexText(low, 34, upper, 0);
  }

  lemma LowBytes(id: int)
    requires 0 <= id < 0x1_0000_0000
    ensures BytesValue(AddressBytes(id)[16..], 0) == id
  {
    var low := [LowByte(ShiftRight(id, 3)), LowByte(ShiftRight(id, 2)), LowByte(ShiftRight(id, 1)), LowByte(ShiftRight(id, 0))];
    assert AddressBytes(id)[16..] == low;
    FourBytes(low);
    BytesOfId(id);
  }

  /** Reading the id back from the address of a collection gives the id, for every id that has an address and
      whatever letter case the checksum asks for; the other ids have none. */
  lemma AddressRoundTrip(id: int, upper: nat -> bool)
    ensures match ToAddress(id, upper)
            case Success(address) => 0 <= id < 0xffff_ffff && ExtractId(address) == Success(Whole(id))
            case Failure(e) => e == IdOverflow && !(0 <= id < 0xffff_ffff)
  {
    if 0 <= id < 0xffff_ffff {
      TailParses(AddressBytes(id), upper);
      LowBytes(id);
    }
  }

  lemma FourBytes(b: seq<int>)
    requires |b| == 4
    ensures BytesValue(b, 0) == b[0] * 0x100_0000 + b[1] * 0x1_0000 + b[2] * 0x100 + b[3]
  {
    var v1, v2, v3 := b[0], b[0] * 256 + b[1], (b[0] * 256 + b[1]) * 256 + b[2];
    assert b[1..][1..] == b[2..] && b[2..][1..] == b[3..] && b[3..][1..] == [];
    assert BytesValue(b, 0) == BytesValue(b[1..], v1);
    assert BytesValue(b[1..], v1) == BytesValue(b[2..], v2);
    assert BytesValue(b[2..], v2) == BytesValue(b[3..], v3);
    assert BytesValue(b[3..], v3) == v3 * 256 + b[3];
  }

  lemma {:induction false} BytesValueAppend(first: seq<int>, second: seq<int>, value: int)
    ensures BytesValue(first + second, value) == BytesValue(second, BytesValue(first, value))
  {
    if first == [] {
      assert first + second == second;
    } else {
      assert (first + second)[1..] == first[1..] + second;
      BytesValueAppend(first[1..], second, value * 256 + first[0]);
    }
  }

  lemma FourBytesFrom(b: seq<int>, value: int)
    requires |b| == 4
    ensures BytesValue(b, value) == value * 0x1_0000_0000 + BytesValue(b, 0)
  {
    var v1 := value * 256 + b[0];
    var v2 := v1 * 256 + b[1];
    var v3 := v2 * 256 + b[2];
    assert b[1..][1..] == b[2..] && b[2..][1..] == b[3..] && b[3..][1..] == [];
    assert BytesValue(b, value) == BytesValue(b[1..], v1);
    assert BytesValue(b[1..], v1) == BytesValue(b[2..], v2);
    assert BytesValue(b[2..], v2) == BytesValue(b[3..], v3);
    assert BytesValue(b[3..], v3) == v3 * 256 + b[3];
    FourBytes(b);
  }

  /** The address of a collection, read as one number, is the prefix followed by the id. */
  lemma AddressValue(id: int)
    requires 0 <= id < 0x1_0000_0000
    ensures BytesValue(AddressBytes(id), 0) == BytesValue(PREFIX, 0) * 0x1_0000_0000 + id
  {
    var low := [LowByte(ShiftRight(id, 3)), LowByte(ShiftRight(id, 2)), LowByte(ShiftRight(id, 1)), LowByte(ShiftRight(id, 0))];
    BytesValueAppend(PREFIX, low, 0);
    FourBytesFrom(low, BytesValue(PREFIX, 0));
    FourBytes(low);
    BytesOfId(id);
  }
}
