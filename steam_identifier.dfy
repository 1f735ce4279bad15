/**
 * Nexport.SteamSockets/SDRClientIdentifier.cs: the identifier of a relay
 * peer, built from the connection's 32-bit id rendered in decimal and parsed
 * back by ToSteamId, and GetSendType, which folds the six reliability classes
 * onto the relay's two send types.
 */
module SteamIdentifiers {
  import opened Wrappers
  import opened Transport

  /** C#'s uint. */
  newtype uint32 = x: int | 0 <= x < 0x1_0000_0000

  /** C#'s ulong, the type of a SteamId. */
  newtype uint64 = x: int | 0 <= x < 0x1_0000_0000_0000_0000

  /** The two send types the relay offers. */
  datatype SendType = Reliable | Unreliable

  /** GetSendType: the guaranteed classes map to Reliable, the others to Unreliable, and Unknown throws. */
  function GetSendType(messageChannel: MessageChannel): (r: Result<SendType, string>)
    ensures r.Failure? <==> messageChannel == MessageChannel.Unknown
    ensures r.Success? ==> (r.value == SendType.Reliable <==> messageChannel.GuaranteesDelivery())
    ensures r.Failure? ==> r.error == "Unknown MessageChannel Unknown"
  {
    match messageChannel
    case Reliable => Success(SendType.Reliable)
    case ReliableUnordered => Success(SendType.Reliable)
    case ReliableSequenced => Success(SendType.Reliable)
    case Unreliable => Success(SendType.Unreliable)
    case UnreliableSequenced => Success(SendType.Unreliable)
    case Unknown => Failure("Unknown MessageChannel Unknown")
  }

  /* ---------------------------------------------------------------------- */
  /* Decimal rendering (uint.ToString) and parsing (Convert.ToUInt32)        */

  predicate IsDigit(c: char) {
    '0' <= c <= '9'
  }

  predicate IsDigits(s: string) {
    forall i :: 0 <= i < |s| ==> IsDigit(s[i])
  }

  /** The shape uint.ToString produces: digits only, at least one, no leading zero unless the number is zero. */
  predicate IsCanonicalDecimal(s: string) {
    |s| >= 1 && IsDigits(s) && (|s| > 1 ==> s[0] != '0')
  }

  function DigitChar(d: nat): (c: char)
    requires d < 10
    ensures IsDigit(c)
  {
    ('0' as int + d) as char
  }

  function DigitValue(c: char): nat
    requires IsDigit(c)
  {
    c as int - '0' as int
  }

  /** The decimal rendering of n. */
  function DecimalString(n: nat): (s: string)
    ensures IsCanonicalDecimal(s)
    decreases n
  {
    if n < 10 then [DigitChar(n)] else DecimalString(n / 10) + [DigitChar(n % 10)]
  }

  /** The number a string of digits denotes. */
  function DigitsValue(s: string): nat
    requires IsDigits(s)
  {
    if s == [] then 0 else DigitsValue(s[..|s| - 1]) * 10 + DigitValue(s[|s| - 1])
  }

  /** Convert.ToUInt32 on a string: a format error unless it is digits, an overflow error above uint.MaxValue. */
  function ParseUInt32(s: string): Result<uint32, string> {
    if |s| == 0 || !IsDigits(s) then Failure("Input string was not in a correct format.")
    else if DigitsValue(s) >= 0x1_0000_0000 then Failure("Value was either too large or too small for a UInt32.")
    else Success(DigitsValue(s) as uint32)
  }

  /** The constructor SDRClientIdentifier(uint id): the identifier string is the decimal rendering of id. */
  function NewSdrClientIdentifier(id: uint32): (c: ClientIdentifier)
    ensures IsCanonicalDecimal(c.identifier)
  {
    ClientIdentifier(DecimalString(id as nat))
  }

  /**
   * ToSteamId: parse the identifier string back to a uint. Anything but a
   * non-empty run of digits is a format error; a value above uint.MaxValue
   * is an overflow error.
   */
  function ToSteamId(c: ClientIdentifier): (r: Result<uint32, string>)
    ensures r.Success? <==>
      |c.identifier| >= 1 && IsDigits(c.identifier) && DigitsValue(c.identifier) < 0x1_0000_0000
    ensures r.Success? ==> IsDigits(c.identifier) && r.value as int == DigitsValue(c.identifier)
    ensures !(|c.identifier| >= 1 && IsDigits(c.identifier)) ==> r == Failure("Input string was not in a correct format.")
    ensures |c.identifier| >= 1 && IsDigits(c.identifier) && DigitsValue(c.identifier) >= 0x1_0000_0000 ==>
      r == Failure("Value was either too large or too small for a UInt32.")
  {
    ParseUInt32(c.identifier)
  }

  /** Reading back the decimal rendering of n gives n. */
  lemma {:induction false} DigitsValueOfDecimal(n: nat)
    ensures DigitsValue(DecimalString(n)) == n
    decreases n
  {
    var s := DecimalString(n);
    if n >= 10 {
      DigitsValueOfDecimal(n / 10);
      assert s[..|s| - 1] == DecimalString(n / 10);
      assert DigitValue(s[|s| - 1]) == n % 10;
    }
  }

  lemma {:induction false} LeadingNonzeroIsPositive(s: string)
    requires |s| >= 1 && IsDigits(s) && s[0] != '0'
    ensures DigitsValue(s) >= 1
    decreases |s|
  {
    if |s| > 1 {
      LeadingNonzeroIsPositive(s[..|s| - 1]);
    }
  }

  /** Rendering the number a canonical decimal string denotes gives the string back. */
  lemma {:induction false} DecimalOfDigitsValue(s: string)
    requires IsCanonicalDecimal(s)
    ensures DecimalString(DigitsValue(s)) == s
    decreases |s|
  {
    if |s| > 1 {
      var prefix := s[..|s| - 1];
      assert IsCanonicalDecimal(prefix) by {
        assert prefix[0] == s[0];
      }
      LeadingNonzeroIsPositive(prefix);
      DecimalOfDigitsValue(prefix);
      var d := DigitValue(s[|s| - 1]);
      assert DigitsValue(s) / 10 == DigitsValue(prefix) && DigitsValue(s) % 10 == d;
      assert DigitChar(d) == s[|s| - 1];
      assert s == prefix + [s[|s| - 1]];
    } else {
      assert DigitChar(DigitValue(s[0])) == s[0];
    }
  }

  /** ToSteamId inverts the constructor. */
  lemma ToSteamIdInvertsConstructor(id: uint32)
    ensures ToSteamId(NewSdrClientIdentifier(id)) == Success(id)
  {
    DigitsValueOfDecimal(id as nat);
  }

  /** An identifier whose string is canonical and parses is the one the constructor builds from the parsed id. */
  lemma ConstructorInvertsToSteamId(c: ClientIdentifier)
    requires IsCanonicalDecimal(c.identifier) && ToSteamId(c).Success?
    ensures NewSdrClientIdentifier(ToSteamId(c).value) == c
  {
    DecimalOfDigitsValue(c.identifier);
  }

  /** Distinct ids give distinct identifiers. */
  lemma IdentifierInjective(a: uint32, b: uint32)
    requires NewSdrClientIdentifier(a) == NewSdrClientIdentifier(b)
    ensures a == b
  {
    ToSteamIdInvertsConstructor(a);
    ToSteamIdInvertsConstructor(b);
  }
}
