/**
  The slice of Python's object model the codecs and fields touch: the values that flow
  through them, the exceptions they raise, `str()` and ASCII `str.lower()`.
*/
module Py {
  import opened Wrappers
  import opened Unicode

  /** The exceptions raised by the modelled code, its libraries and the store client. */
  datatype Error =
    | TypeError
    | AttributeError
    | AssertionError
    | ValueError
    | UnicodeDecodeError
      /** redis.exceptions.DataError, raised by the client before anything is sent. */
    | DataError
      /** redis.exceptions.ResponseError: an error reply from the server. */
    | ResponseError(reply: string)
      /** A bare `raise Exception(message)`. */
    | Exception(message: string)

  type PyResult<T> = Result<T, Error>

  /** A Python value: None, bool, int, str, bytes, or an instance with its `id()`. */
  datatype Value =
    | PyNone
    | PyBool(b: bool)
    | PyInt(i: int)
    | PyStr(s: string)
    | PyBytes(data: Bytes)
    | PyObject(typeName: string, address: nat)

  /** One direction of a codec: a Python callable that returns a value or raises. */
  type Stage = Value -> PyResult<Value>

  /** Anything with an `encode` and a `decode` method (Python duck typing). */
  datatype Codec = Codec(encode: Stage, decode: Stage)

  function Identity(v: Value): PyResult<Value> {
    Ok(v)
  }

  function DigitChar(d: int): (c: char)
    requires 0 <= d < 10
    ensures '0' <= c <= '9' && c as int - '0' as int == d
  {
    ('0' as int + d) as char
  }

  predicate IsDigits(s: string) {
    forall i :: 0 <= i < |s| ==> '0' <= s[i] <= '9'
  }

  /** Decimal digits of a natural number, without leading zeros. */
  function NatDecimal(n: nat): (s: string)
    ensures |s| >= 1 && IsDigits(s)
    ensures (s[0] == '0') == (n == 0)
    ensures n == 0 ==> s == "0"
  {
    if n < 10 then [DigitChar(n)] else NatDecimal(n / 10) + [DigitChar(n % 10)]
  }

  /** `str(i)` for an int. */
  function Decimal(i: int): string {
    if i < 0 then "-" + NatDecimal(-i) else NatDecimal(i)
  }

  /** The number a string of decimal digits denotes. */
  function ParseNat(s: string): nat
    requires IsDigits(s)
  {
    if s == [] then 0 else ParseNat(s[..|s| - 1]) * 10 + (s[|s| - 1] as int - '0' as int)
  }

  lemma {:induction false} ParseNatDecimal(n: nat)
    ensures ParseNat(NatDecimal(n)) == n
  {
    if n >= 10 {
      var p := NatDecimal(n / 10);
      var s := p + [DigitChar(n % 10)];
      assert s[..|s| - 1] == p;
      ParseNatDecimal(n / 10);
    }
  }

  /** Reads back what `Decimal` prints: an optional minus sign, then digits. */
  function ParseDecimal(s: string): int
    requires s != [] && (IsDigits(s) || (s[0] == '-' && IsDigits(s[1..])))
  {
    if s[0] == '-' then 0 - ParseNat(s[1..]) as int else ParseNat(s)
  }

  lemma ParseDecimalOfDecimal(i: int)
    ensures var d := Decimal(i);
      d != [] && (IsDigits(d) || (d[0] == '-' && IsDigits(d[1..]))) && ParseDecimal(d) == i
  {
    if i < 0 {
      assert Decimal(i)[1..] == NatDecimal(-i);
      ParseNatDecimal(-i);
    } else {
      ParseNatDecimal(i);
    }
  }

  /** `str()` is injective on ints: the sign and the digits determine the number. */
  lemma DecimalInjective(i: int, j: int)
    ensures Decimal(i) == Decimal(j) ==> i == j
  {
    ParseDecimalOfDecimal(i);
    ParseDecimalOfDecimal(j);
  }

  lemma DecimalHasNoColon(i: int)
    ensures ':' !in Decimal(i)
  {
    var d := NatDecimal(if i < 0 then -i else i);
    assert forall k :: 0 <= k < |d| ==> d[k] != ':';
  }

  function HexDigit(d: int): char
    requires 0 <= d < 16
  {
    if d < 10 then DigitChar(d) else ('a' as int + d - 10) as char
  }

  /** Lower-case hexadecimal digits, as `%x` prints them. */
  function Hex(n: nat): string {
    if n < 16 then [HexDigit(n)] else Hex(n / 16) + [HexDigit(n % 16)]
  }

  /** One byte as it appears inside the `repr` of a bytes object quoted with `quote`. */
  function EscapeByte(x: Byte, quote: char): string {
    if x == quote as int || x == '\\' as int then ['\\', x as char]
    else if x == 9 then "\\t"
    else if x == 10 then "\\n"
    else if x == 13 then "\\r"
    else if x < 0x20 || x >= 0x7F then "\\x" + [HexDigit(x / 16), HexDigit(x % 16)]
    else [x as char]
  }

  function EscapeBytes(b: Bytes, quote: char): string {
    if b == [] then "" else EscapeByte(b[0], quote) + EscapeBytes(b[1..], quote)
  }

  /** `str(b)` for bytes: `b'...'`, or `b"..."` when the bytes hold a single and no double quote. */
  function BytesRepr(b: Bytes): string {
    var quote := if '\'' as int in b && '"' as int !in b then '"' else '\'';
    "b" + [quote] + EscapeBytes(b, quote) + [quote]
  }

  /** `str(value)`; an instance without `__str__` prints its type and address. */
  function Str(v: Value): string {
    match v
    case PyNone => "None"
    case PyBool(b) => if b then "True" else "False"
    case PyInt(i) => Decimal(i)
    case PyStr(s) => s
    case PyBytes(b) => BytesRepr(b)
    case PyObject(t, a) => "<" + t + " object at 0x" + Hex(a) + ">"
  }

  /** `data.decode('utf-8')` (strict) on a bytes object; malformed octets raise UnicodeDecodeError. */
  function DecodeUtf8(data: Bytes): (r: PyResult<Value>)
    ensures r.Ok? <==> Unicode.Decode(data).Some?
    ensures r.Ok? ==> r.value.PyStr? && Unicode.Encode(r.value.s) == data
    ensures r.Err? ==> r.error == UnicodeDecodeError
  {
    match Unicode.Decode(data)
    case None => Err(UnicodeDecodeError)
    case Some(s) => EncodeDecode(data); Ok(PyStr(s))
  }

  /** `str(v).encode('utf-8')` read back with `decode('utf-8')` gives `str(v)`. */
  lemma DecodeUtf8OfStr(v: Value)
    ensures DecodeUtf8(Unicode.Encode(Str(v))) == Ok(PyStr(Str(v)))
  {
    DecodeEncode(Str(v));
  }

  predicate IsUpper(c: char) {
    'A' <= c <= 'Z'
  }

  function LowerChar(c: char): (r: char)
    ensures !IsUpper(r)
  {
    if IsUpper(c) then (c as int + 32) as char else c
  }

  /** `s.lower()`, restricted to the ASCII letters. */
  function Lower(s: string): (r: string)
    ensures |r| == |s|
    ensures forall i :: 0 <= i < |s| ==> r[i] == LowerChar(s[i])
  {
    seq(|s|, i requires 0 <= i < |s| => LowerChar(s[i]))
  }

  lemma LowerIdempotent(s: string)
    ensures Lower(Lower(s)) == Lower(s)
  {
  }

  /** Lower-casing changes a string exactly when it holds an upper-case letter. */
  lemma LowerFixedIff(s: string)
    ensures Lower(s) == s <==> forall i :: 0 <= i < |s| ==> !IsUpper(s[i])
  {
    if Lower(s) == s {
      forall i | 0 <= i < |s| ensures !IsUpper(s[i]) {
        assert Lower(s)[i] == s[i];
      }
    }
  }

  lemma LowerKeepsAscii(s: string)
    requires IsAscii(s)
    ensures IsAscii(Lower(s))
  {
  }
}
