/** Time-based one-time codes: section 5.3 of RFC 4226 and section 5.2 of RFC 6238. */
module Hotp {
  import opened Wrappers
  import opened Text
  import Decimal

  const PERIOD := 30
  const DIGITS: nat := 6

  /** HMAC-SHA1 and base32 decoding are ideal functions; the former always returns 20 bytes. */
  datatype Library = Library(hmac: (seq<byte>, seq<byte>) -> seq<byte>, decode: string -> Option<seq<byte>>)

  ghost predicate Ideal(lib: Library) {
    forall key, message :: |lib.hmac(key, message)| == 20
  }

  /** Go's integer division, which truncates toward zero. */
  function Quotient(a: int, b: int): (r: int)
    requires b > 0
  {
    if a < 0 then -(-a / b) else a / b
  }

  /** The bytes of n, most significant first. */
  function BigEndian(n: nat, size: nat): (d: seq<byte>)
    ensures |d| == size
  {
    if size == 0 then [] else BigEndian(n / 256, size - 1) + [n % 256]
  }

  function Uint32(d: seq<byte>): (n: nat)
    requires |d| == 4
    ensures n < 0x1_0000_0000
  {
    ((d[0] as int * 256 + d[1]) * 256 + d[2]) * 256 + d[3]
  }

  /** The eight bytes that are hashed; a negative counter is its two's complement. */
  function Message(counter: int): (r: seq<byte>) {
    BigEndian(counter % 0x1_0000_0000_0000_0000, 8)
  }

  /** Dynamic truncation: the low half of the last byte selects four bytes, of which 31 bits count. */
  function Truncate(mac: seq<byte>): (n: nat)
    requires |mac| == 20
    ensures n < 0x8000_0000
  {
    var offset := mac[19] % 16;
    Uint32(mac[offset..offset + 4]) % 0x8000_0000
  }

  function Rendered(mac: seq<byte>): (r: string)
    requires |mac| == 20
  {
    Decimal.Padded(Truncate(mac) % 1_000_000, DIGITS)
  }

  /** `codeAt`; None is a secret that is not base32. */
  function CodeAt(lib: Library, secret: string, counter: int): (r: Option<string>)
    requires Ideal(lib)
  {
    var key := lib.decode(Upper(TrimSpace(secret)));
    if key.None? then None else Some(Rendered(lib.hmac(key.value, Message(counter))))
  }

  /** `Code`. */
  function Code(lib: Library, secret: string, unix: int): (r: Option<(string, int)>)
    requires Ideal(lib)
  {
    var counter := Quotient(unix, PERIOD);
    var code := CodeAt(lib, secret, counter);
    if code.None? then None else Some((code.value, counter))
  }

  method Validate(lib: Library, secret: string, candidate: string, unix: int) returns (r: Option<int>)
    requires Ideal(lib)
    ensures r == Accepted(lib, secret, candidate, unix)
  {
    hide CodeAt, TrimSpace, ByteLength;
    var trimmed := TrimSpace(candidate);
    if ByteLength(trimmed) != DIGITS {
      NoCodeOfOtherLength(lib, secret, trimmed);
      return None;
    }
    var counter := Quotient(unix, PERIOD);
    for offset := -1 to 2
      invariant forall k :: counter - 1 <= k < counter + offset ==> CodeAt(lib, secret, k) != Some(trimmed)
    {
      var expected := CodeAt(lib, secret, counter + offset);
      if expected == Some(trimmed) {
        return Some(counter + offset);
      }
    }
    r := None;
  }

  /** The least counter of the window around the current one whose code is the candidate. */
  function Accepted(lib: Library, secret: string, candidate: string, unix: int): (r: Option<int>)
    requires Ideal(lib)
  {
    var now, code := Quotient(unix, PERIOD), Some(TrimSpace(candidate));
    if CodeAt(lib, secret, now - 1) == code then Some(now - 1)
    else if CodeAt(lib, secret, now) == code then Some(now)
    else if CodeAt(lib, secret, now + 1) == code then Some(now + 1)
    else None
  }

  // ---------- truncation and rendering ----------

  /** Whatever the MAC, a code has exactly six digits that read back as its value below 10^6. */
  lemma CodeIsSixDigits(mac: seq<byte>)
    requires |mac| == 20
    ensures var code := Rendered(mac);
      |code| == DIGITS && Decimal.AllDigits(code) && Decimal.Value(code) == Truncate(mac) % 1_000_000 < 1_000_000
      && ByteLength(code) == DIGITS
  {
    var n := Truncate(mac) % 1_000_000;
    assert Decimal.Power10(6) == 1_000_000 by {
      assert Decimal.Power10(3) == 1000;
      assert Decimal.Power10(6) == 10 * (10 * (10 * Decimal.Power10(3)));
    }
    Decimal.PaddedSound(n, DIGITS);
    DigitsAreBytes(Rendered(mac));
  }

  lemma {:induction false} DigitsAreBytes(s: string)
    requires Decimal.AllDigits(s)
    ensures ByteLength(s) == |s|
  {
    if s == "" {
    } else {
      DigitsAreBytes(s[1..]);
      assert Decimal.IsDigit(s[0]);
    }
  }

  lemma NoCodeOfOtherLength(lib: Library, secret: string, trimmed: string)
    requires Ideal(lib) && ByteLength(trimmed) != DIGITS
    ensures forall k :: CodeAt(lib, secret, k) != Some(trimmed)
  {
    forall k ensures CodeAt(lib, secret, k) != Some(trimmed) {
      var key := lib.decode(Upper(TrimSpace(secret)));
      if key.Some? { CodeIsSixDigits(lib.hmac(key.value, Message(k))); }
    }
  }

  function Power256(k: nat): (r: nat) {
    if k == 0 then 1 else 256 * Power256(k - 1)
  }

  lemma {:induction false} SameBytes(one: nat, two: nat, size: nat)
    requires one < Power256(size) && two < Power256(size) && BigEndian(one, size) == BigEndian(two, size)
    ensures one == two
  {
    if size == 0 {
    } else {
      var a, b := BigEndian(one, size), BigEndian(two, size);
      assert a[size - 1] == b[size - 1] && a[..size - 1] == b[..size - 1];
      SameBytes(one / 256, two / 256, size - 1);
    }
  }

  lemma Power256Of8()
    ensures Power256(8) == 0x1_0000_0000_0000_0000
  {
    assert Power256(4) == 0x1_0000_0000 by { assert Power256(2) == 0x1_0000; }
    assert Power256(6) == 256 * (256 * Power256(4));
  }

  /** Different 64-bit counters are hashed as different messages. */
  lemma MessagesDiffer(one: int, two: int)
    requires -0x8000_0000_0000_0000 <= one < 0x8000_0000_0000_0000
    requires -0x8000_0000_0000_0000 <= two < 0x8000_0000_0000_0000
    requires Message(one) == Message(two)
    ensures one == two
  {
    hide BigEndian;
    Power256Of8();
    SameBytes(one % 0x1_0000_0000_0000_0000, two % 0x1_0000_0000_0000_0000, 8);
  }

  // ---------- the window ----------

  /** A candidate is accepted exactly when it is a code of the window, for the least such counter. */
  lemma AcceptedExactly(lib: Library, secret: string, candidate: string, unix: int, k: int)
    requires Ideal(lib)
    ensures Accepted(lib, secret, candidate, unix) == Some(k) <==>
      -1 <= k - Quotient(unix, PERIOD) <= 1 && CodeAt(lib, secret, k) == Some(TrimSpace(candidate))
      && forall j :: Quotient(unix, PERIOD) - 1 <= j < k ==> CodeAt(lib, secret, j) != Some(TrimSpace(candidate))
  {
    hide CodeAt, TrimSpace;
  }

  /** The code displayed at one moment is accepted at any moment at most one period away. */
  lemma DisplayedIsAccepted(lib: Library, secret: string, shown: int, used: int)
    requires Ideal(lib) && Code(lib, secret, shown).Some? && -PERIOD <= used - shown <= PERIOD
    ensures Accepted(lib, secret, Code(lib, secret, shown).value.0, used).Some?
  {
    hide CodeAt, TrimSpace;
    CodesAreTrimmed(lib, secret, Quotient(shown, PERIOD));
    QuotientNear(shown, used);
  }

  lemma CodesAreTrimmed(lib: Library, secret: string, counter: int)
    requires Ideal(lib) && CodeAt(lib, secret, counter).Some?
    ensures var code := CodeAt(lib, secret, counter).value; TrimSpace(code) == code
  {
    hide TrimSpace, Rendered, Decimal.Value;
    var code := CodeAt(lib, secret, counter).value;
    CodeIsSixDigits(lib.hmac(lib.decode(Upper(TrimSpace(secret))).value, Message(counter)));
    assert Decimal.IsDigit(code[0]) && Decimal.IsDigit(code[5]);
    TrimNothing(code);
  }

  lemma QuotientNear(a: int, b: int)
    requires -PERIOD <= b - a <= PERIOD
    ensures -1 <= Quotient(b, PERIOD) - Quotient(a, PERIOD) <= 1
  {
  }

  lemma QuotientMonotone(a: int, b: int)
    requires a <= b
    ensures Quotient(a, PERIOD) <= Quotient(b, PERIOD)
  {
  }
}
