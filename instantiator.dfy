/**
 * Nexport/Instantiator.cs: choosing a transport by name and building the
 * server or client of that transport. The transports themselves are not part
 * of this model; a built server or client is recorded with its settings.
 */
module Instantiator {
  import opened Wrappers

  /** The transports Instantiator knows, and any other value of the enum. */
  datatype TransportType = KCP | Telepathy | OtherTransport(ordinal: int)

  datatype Server<S> = KcpServer(settings: S) | TelepathyServer(settings: S)
  {
    function Transport(): TransportType {
      match this
      case KcpServer(_) => KCP
      case TelepathyServer(_) => Telepathy
    }
  }

  datatype Client<C> = KcpClient(settings: C) | TelepathyClient(settings: C)
  {
    function Transport(): TransportType {
      match this
      case KcpClient(_) => KCP
      case TelepathyClient(_) => Telepathy
    }
  }

  /** InstantiateServer: a server of the requested transport, or an exception for any other value. */
  function InstantiateServer<S>(transportType: TransportType, settings: S): (r: Result<Server<S>, string>)
    ensures r.Success? <==> transportType == KCP || transportType == Telepathy
    ensures r.Success? ==> r.value.Transport() == transportType && r.value.settings == settings
    ensures r.Failure? ==> r.error == "Unknown Server"
  {
    match transportType
    case KCP => Success(KcpServer(settings))
    case Telepathy => Success(TelepathyServer(settings))
    case OtherTransport(_) => Failure("Unknown Server")
  }

  /** InstantiateClient: a client of the requested transport, or an exception (with the same message as the server's). */
  function InstantiateClient<C>(transportType: TransportType, settings: C): (r: Result<Client<C>, string>)
    ensures r.Success? <==> transportType == KCP || transportType == Telepathy
    ensures r.Success? ==> r.value.Transport() == transportType && r.value.settings == settings
    ensures r.Failure? ==> r.error == "Unknown Server"
  {
    match transportType
    case KCP => Success(KcpClient(settings))
    case Telepathy => Success(TelepathyClient(settings))
    case OtherTransport(_) => Failure("Unknown Server")
  }

  /* ---------------------------------------------------------------------- */
  /* GetTransportTypeFromString                                             */

  /** string.ToLower on one character, for the ASCII letters. */
  function LowerChar(c: char): char {
    if 'A' <= c <= 'Z' then (c as int - 'A' as int + 'a' as int) as char else c
  }

  function ToLower(s: string): string {
    seq(|s|, i requires 0 <= i < |s| => LowerChar(s[i]))
  }

  /** string.Contains (ordinal): does sub occur somewhere in s? */
  function Contains(s: string, sub: string): bool
    decreases |s|
  {
    if |sub| > |s| then false
    else s[..|sub|] == sub || Contains(s[1..], sub)
  }

  /** sub occurs in s starting at position i. */
  ghost predicate OccursAt(s: string, sub: string, i: int) {
    0 <= i <= |s| - |sub| && s[i..i + |sub|] == sub
  }

  /** The word occurs in s, whatever the case of its letters. */
  ghost predicate Mentions(s: string, word: string) {
    exists i :: OccursAt(ToLower(s), word, i)
  }

  /** Contains finds exactly the occurrences. */
  lemma {:induction false} ContainsIffOccurs(s: string, sub: string)
    ensures Contains(s, sub) <==> exists i :: OccursAt(s, sub, i)
    decreases |s|
  {
    if |sub| <= |s| {
      if s[..|sub|] == sub {
        assert OccursAt(s, sub, 0);
      } else {
        ContainsIffOccurs(s[1..], sub);
        if Contains(s[1..], sub) {
          var i :| OccursAt(s[1..], sub, i);
          assert s[1..][i..i + |sub|] == s[i + 1..i + 1 + |sub|];
          assert OccursAt(s, sub, i + 1);
        }
        if exists i :: OccursAt(s, sub, i) {
          var i :| OccursAt(s, sub, i);
          assert i != 0;
          assert s[1..][i - 1..i - 1 + |sub|] == s[i..i + |sub|];
          assert OccursAt(s[1..], sub, i - 1);
        }
      }
    }
  }

  /**
   * GetTransportTypeFromString: KCP if "kcp" occurs in the lower-cased
   * string (checked first, so it wins when both occur), else Telepathy if
   * "telepathy" occurs, else an exception.
   */
  function GetTransportTypeFromString(transportString: string): (r: Result<TransportType, string>)
    ensures r == Success(KCP) <==> Mentions(transportString, "kcp")
    ensures r == Success(Telepathy) <==> !Mentions(transportString, "kcp") && Mentions(transportString, "telepathy")
    ensures r.Failure? <==> !Mentions(transportString, "kcp") && !Mentions(transportString, "telepathy")
    ensures r.Failure? ==> r.error == "Unknown TransportType " + transportString
  {
    ContainsIffOccurs(ToLower(transportString), "kcp");
    ContainsIffOccurs(ToLower(transportString), "telepathy");
    if Contains(ToLower(transportString), "kcp") then Success(KCP)
    else if Contains(ToLower(transportString), "telepathy") then Success(Telepathy)
    else Failure("Unknown TransportType " + transportString)
  }

  /** Lower-casing leaves a string without capital letters unchanged. */
  lemma LowerOfLower(s: string)
    requires forall i | 0 <= i < |s| :: !('A' <= s[i] <= 'Z')
    ensures ToLower(s) == s
  {
  }

  /** A word does not occur where no starting position holds its first letter. */
  lemma NotContainedWithoutFirstLetter(s: string, word: string)
    requires |word| >= 1
    requires forall i | 0 <= i <= |s| - |word| :: s[i] != word[0]
    ensures !Contains(s, word)
  {
    ContainsIffOccurs(s, word);
    forall i | 0 <= i <= |s| - |word| ensures !OccursAt(s, word, i) {
      assert s[i..i + |word|][0] == s[i];
    }
  }

  /** The name "litenetlib", which the test program offers, is not a transport Instantiator knows. */
  lemma LiteNetLibRejected()
    ensures GetTransportTypeFromString("litenetlib").Failure?
  {
    var s := "litenetlib";
    LowerOfLower(s);
    NotContainedWithoutFirstLetter(s, "kcp");
    NotContainedWithoutFirstLetter(s, "telepathy");
  }
}
