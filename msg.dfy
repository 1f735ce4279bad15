/**
 * Nexport/Msg.cs: the rule every message type must satisfy (msgCheck), the
 * process-wide registry of message types keyed by full name (loopMessages,
 * RefreshMessageTypes, RegisteredMessages), the Serialize/Deserialize pair
 * that follows the UseCompression flag, and GetMeta, which identifies an
 * inbound buffer by the string at element 1 of its decoded array.
 *
 * Reflection is replaced by records (MsgType) and the MessagePack codec by a
 * record of functions (Codec) about which nothing is assumed but what a
 * lemma states in its requires.
 */
module Msg {
  import opened Wrappers
  import opened Transport

  /** A property or field of a type, with the identifiers of the MsgKey attributes on it. */
  datatype Member = Member(name: string, msgKeys: seq<int>)

  /** What reflection yields about one type of an assembly. */
  datatype MsgType = MsgType(
    fullName: Option<string>,   // Type.FullName, which can be null
    hasMsgAttribute: bool,      // whether [Msg] is on the type
    properties: seq<Member>,    // GetProperties(), in order
    fields: seq<Member>)        // GetFields(), in order

  /** The exceptions msgCheck throws. */
  datatype CheckError = MultipleMsgKeys | KeyOneMisplaced | MissingMessageId
  {
    function Message(): string {
      match this
      case MultipleMsgKeys => "Cannot have multiple MsgKeys on one property!"
      case KeyOneMisplaced => "MessageId must have a MsgKey Identifier of 1!"
      case MissingMessageId => "Your Msg must contain a MessageId with an Identifier of 1!"
    }
  }

  /** The members msgCheck walks: the properties, then the fields. */
  function Members(t: MsgType): seq<Member> {
    t.properties + t.fields
  }

  /** How the rule classifies a single member. */
  datatype Verdict = Unkeyed | KeyedMessageId | KeyedOther | Violation(error: CheckError)

  function MemberVerdict(m: Member): Verdict {
    if |m.msgKeys| == 0 then Unkeyed
    else if |m.msgKeys| > 1 then Violation(MultipleMsgKeys)
    else if m.name == "MessageId" then
      if m.msgKeys[0] == 1 then KeyedMessageId else Violation(KeyOneMisplaced)
    else if m.msgKeys[0] == 1 then Violation(KeyOneMisplaced)
    else KeyedOther
  }

  /** The error of the first member, in walking order, that breaks the rule. */
  function FirstViolation(ms: seq<Member>): Option<CheckError> {
    if ms == [] then None
    else if MemberVerdict(ms[0]).Violation? then Some(MemberVerdict(ms[0]).error)
    else FirstViolation(ms[1..])
  }

  predicate DeclaresMessageId(ms: seq<Member>) {
    exists i :: 0 <= i < |ms| && MemberVerdict(ms[i]) == KeyedMessageId
  }

  /** The verdict of msgCheck on a member list: the first violation, else a missing MessageId, else pass. */
  function CheckMembers(ms: seq<Member>): Outcome<CheckError> {
    match FirstViolation(ms)
    case Some(e) => Fail(e)
    case None => if DeclaresMessageId(ms) then Pass else Fail(MissingMessageId)
  }

  function CheckSpec(t: MsgType): Outcome<CheckError> {
    CheckMembers(Members(t))
  }

  /** The rule as a whole: at most one MsgKey per member, key 1 on MessageId and on nothing else, and a keyed MessageId. */
  ghost predicate WellKeyed(t: MsgType) {
    var ms := Members(t);
    && (forall m | m in ms :: |m.msgKeys| <= 1)
    && (forall m | m in ms && |m.msgKeys| == 1 :: m.name == "MessageId" <==> m.msgKeys[0] == 1)
    && (exists m | m in ms :: m.name == "MessageId" && |m.msgKeys| == 1)
  }

  lemma {:induction false} FirstViolationAppend(a: seq<Member>, b: seq<Member>)
    ensures FirstViolation(a + b) == if FirstViolation(a).Some? then FirstViolation(a) else FirstViolation(b)
  {
    if a == [] {
      assert a + b == b;
    } else {
      assert (a + b)[0] == a[0];
      assert (a + b)[1..] == a[1..] + b;
      FirstViolationAppend(a[1..], b);
    }
  }

  lemma {:induction false} FirstViolationNone(ms: seq<Member>)
    ensures FirstViolation(ms) == None <==> forall m | m in ms :: !MemberVerdict(m).Violation?
  {
    if ms != [] {
      FirstViolationNone(ms[1..]);
      assert forall m | m in ms :: m == ms[0] || m in ms[1..];
    }
  }

  /** msgCheck accepts a type exactly when the rule holds of its members. */
  lemma CheckAcceptsExactlyWellKeyed(t: MsgType)
    ensures CheckSpec(t) == Pass <==> WellKeyed(t)
  {
    var ms := Members(t);
    FirstViolationNone(ms);
    if CheckSpec(t) == Pass {
      var i :| 0 <= i < |ms| && MemberVerdict(ms[i]) == KeyedMessageId;
      assert ms[i] in ms;
    }
    if WellKeyed(t) {
      var m :| m in ms && m.name == "MessageId" && |m.msgKeys| == 1;
      var i :| 0 <= i < |ms| && ms[i] == m;
      assert MemberVerdict(ms[i]) == KeyedMessageId;
    }
  }

  /** A member that carries no MsgKey makes no difference to the verdict, wherever it stands. */
  lemma UnkeyedMemberIgnored(before: seq<Member>, m: Member, after: seq<Member>)
    requires |m.msgKeys| == 0
    ensures CheckMembers(before + [m] + after) == CheckMembers(before + after)
  {
    var with, without := before + [m] + after, before + after;
    assert with == before + ([m] + after);
    assert ([m] + after)[1..] == after;
    FirstViolationAppend(before, [m] + after);
    FirstViolationAppend(before, after);
    if DeclaresMessageId(with) {
      var i :| 0 <= i < |with| && MemberVerdict(with[i]) == KeyedMessageId;
      var j := if i < |before| then i else i - 1;
      assert without[j] == with[i];
    }
    if DeclaresMessageId(without) {
      var j :| 0 <= j < |without| && MemberVerdict(without[j]) == KeyedMessageId;
      var i := if j < |before| then j else j + 1;
      assert with[i] == without[j];
    }
  }

  /** msgCheck: walks the properties, then the fields, and throws at the first member that breaks the rule. */
  method MsgCheck(t: MsgType) returns (outcome: Outcome<CheckError>)
    ensures outcome == CheckSpec(t)
  {
    var members := Members(t);
    var foundMessageId := false;
    var i := 0;
    while i < |members|
      invariant 0 <= i <= |members|
      invariant FirstViolation(members[..i]) == None
      invariant foundMessageId <==> DeclaresMessageId(members[..i])
    {
      var m := members[i];
      assert members == members[..i] + members[i..];
      assert members[i..][0] == m;
      FirstViolationAppend(members[..i], members[i..]);
      if |m.msgKeys| > 0 {
        if |m.msgKeys| > 1 {
          return Fail(MultipleMsgKeys);
        }
        var target := m.msgKeys[0];
        if m.name == "MessageId" {
          if target != 1 {
            return Fail(KeyOneMisplaced);
          }
          foundMessageId := true;
        } else if target == 1 {
          return Fail(KeyOneMisplaced);
        }
      }
      assert members[..i + 1] == members[..i] + [m];
      FirstViolationAppend(members[..i], [m]);
      assert foundMessageId ==> members[..i + 1][i] == m;
      assert forall j | 0 <= j < i :: members[..i + 1][j] == members[..i][j];
      i := i + 1;
    }
    assert members[..i] == members;
    if !foundMessageId {
      return Fail(MissingMessageId);
    }
    return Pass;
  }

  /* ---------------------------------------------------------------------- */
  /* The registry                                                           */

  /** A type loopMessages checks and may register: it carries [Msg] and has a full name. */
  predicate IsCandidate(t: MsgType) {
    t.hasMsgAttribute && t.fullName.Some?
  }

  /** The types of an assembly; a null assembly contributes none. */
  function TypesOf(assembly: Option<seq<MsgType>>): seq<MsgType> {
    match assembly
    case None => []
    case Some(types) => types
  }

  /** The registry after a scan, and whether the scan completed or a check threw. */
  datatype ScanResult = ScanResult(registry: map<string, MsgType>, outcome: Outcome<CheckError>)

  /** loopMessages over the given types from the registry reg: check each candidate, add it unless its name is taken. */
  function Scan(reg: map<string, MsgType>, types: seq<MsgType>): ScanResult
    decreases |types|
  {
    if types == [] then ScanResult(reg, Pass)
    else
      var t := types[0];
      if !IsCandidate(t) then Scan(reg, types[1..])
      else match CheckSpec(t)
        case Fail(e) => ScanResult(reg, Fail(e))
        case Pass => Scan(if t.fullName.value in reg then reg else reg[t.fullName.value := t], types[1..])
  }

  /** RefreshMessageTypes from an empty registry: the executing assembly, then, if no check threw, the entry assembly. */
  function Refreshed(executing: Option<seq<MsgType>>, entry: Option<seq<MsgType>>): ScanResult {
    var first := Scan(map[], TypesOf(executing));
    if first.outcome.Fail? then first else Scan(first.registry, TypesOf(entry))
  }

  /** Reference definition: each candidate's name bound to the first candidate of that name. */
  function FirstRegistrations(types: seq<MsgType>): map<string, MsgType> {
    if types == [] then map[]
    else
      var rest := FirstRegistrations(types[1..]);
      if IsCandidate(types[0]) then rest[types[0].fullName.value := types[0]] else rest
  }

  /** Every name FirstRegistrations binds is bound to a candidate of the list with that name, and every candidate's name is bound. */
  lemma {:induction false} FirstRegistrationsExact(types: seq<MsgType>)
    ensures forall k | k in FirstRegistrations(types) ::
      FirstRegistrations(types)[k] in types && IsCandidate(FirstRegistrations(types)[k])
      && FirstRegistrations(types)[k].fullName == Some(k)
    ensures forall t | t in types && IsCandidate(t) :: t.fullName.value in FirstRegistrations(types)
  {
    if types != [] {
      FirstRegistrationsExact(types[1..]);
      assert forall t | t in types :: t == types[0] || t in types[1..];
    }
  }

  /** A scan completes exactly when every candidate it meets passes msgCheck. */
  lemma {:induction false} ScanCompletesIffAllPass(reg: map<string, MsgType>, types: seq<MsgType>)
    ensures Scan(reg, types).outcome.Pass? <==> forall t | t in types && IsCandidate(t) :: CheckSpec(t) == Pass
    decreases |types|
  {
    if types != [] {
      var t := types[0];
      assert forall u | u in types :: u == t || u in types[1..];
      if !IsCandidate(t) {
        ScanCompletesIffAllPass(reg, types[1..]);
      } else if CheckSpec(t) == Pass {
        ScanCompletesIffAllPass(if t.fullName.value in reg then reg else reg[t.fullName.value := t], types[1..]);
      }
    }
  }

  /** A scan never changes or drops an entry that was already there: on a name clash the earlier registration stays. */
  lemma {:induction false} ScanKeepsExisting(reg: map<string, MsgType>, types: seq<MsgType>)
    ensures forall k | k in reg :: k in Scan(reg, types).registry && Scan(reg, types).registry[k] == reg[k]
    decreases |types|
  {
    if types != [] {
      var t := types[0];
      if !IsCandidate(t) {
        ScanKeepsExisting(reg, types[1..]);
      } else if CheckSpec(t) == Pass {
        ScanKeepsExisting(if t.fullName.value in reg then reg else reg[t.fullName.value := t], types[1..]);
      }
    }
  }

  /** A completed scan adds, for each new name, the first candidate of that name, and keeps the old entries. */
  lemma {:induction false} ScanRegistersFirstOfEachName(reg: map<string, MsgType>, types: seq<MsgType>)
    requires Scan(reg, types).outcome.Pass?
    ensures Scan(reg, types).registry == FirstRegistrations(types) + reg
    decreases |types|
  {
    if types == [] {
      assert FirstRegistrations(types) + reg == reg;
    } else {
      var t := types[0];
      var rest := FirstRegistrations(types[1..]);
      if !IsCandidate(t) {
        ScanRegistersFirstOfEachName(reg, types[1..]);
      } else {
        var name := t.fullName.value;
        var reg' := if name in reg then reg else reg[name := t];
        ScanRegistersFirstOfEachName(reg', types[1..]);
        assert rest + reg' == rest[name := t] + reg;
      }
    }
  }

  /** First registration wins: a candidate with no earlier candidate of its name is the type its name is bound to. */
  lemma {:induction false} FirstRegistrationWins(types: seq<MsgType>, i: int)
    requires 0 <= i < |types| && IsCandidate(types[i])
    requires forall j | 0 <= j < i && IsCandidate(types[j]) :: types[j].fullName != types[i].fullName
    ensures types[i].fullName.value in FirstRegistrations(types)
    ensures FirstRegistrations(types)[types[i].fullName.value] == types[i]
  {
    if i > 0 {
      forall j | 0 <= j < i - 1 && IsCandidate(types[1..][j])
        ensures types[1..][j].fullName != types[1..][i - 1].fullName
      {
        assert types[1..][j] == types[j + 1];
      }
      FirstRegistrationWins(types[1..], i - 1);
      assert types[1..][i - 1] == types[i];
    }
  }

  /** After a refresh that completed, the registry holds the first candidate of each name, the executing assembly's before the entry assembly's. */
  lemma RefreshPrefersExecuting(executing: Option<seq<MsgType>>, entry: Option<seq<MsgType>>)
    requires Refreshed(executing, entry).outcome.Pass?
    ensures Refreshed(executing, entry).registry
         == FirstRegistrations(TypesOf(entry)) + FirstRegistrations(TypesOf(executing))
  {
    var first := Scan(map[], TypesOf(executing));
    ScanRegistersFirstOfEachName(map[], TypesOf(executing));
    assert FirstRegistrations(TypesOf(executing)) + map[] == FirstRegistrations(TypesOf(executing));
    ScanRegistersFirstOfEachName(first.registry, TypesOf(entry));
  }

  /** The static state of Msg: the UseCompression flag and the RegisteredMessages dictionary. */
  class MessageRegistry {
    var useCompression: bool
    var registeredMessages: map<string, MsgType>

    /** The field initialisers; the static constructor's call of RefreshMessageTypes is the caller's first call. */
    constructor ()
      ensures useCompression && registeredMessages == map[]
    {
      useCompression := true;
      registeredMessages := map[];
    }

    /** loopMessages: register the checked candidates of one assembly; a check that throws ends the scan. */
    method LoopMessages(assembly: Option<seq<MsgType>>) returns (outcome: Outcome<CheckError>)
      modifies this`registeredMessages
      ensures ScanResult(registeredMessages, outcome) == Scan(old(registeredMessages), TypesOf(assembly))
    {
      outcome := Pass;
      if assembly.None? {
        return;
      }
      var types := assembly.value;
      var i := 0;
      while i < |types|
        invariant 0 <= i <= |types|
        invariant Scan(registeredMessages, types[i..]) == Scan(old(registeredMessages), types)
        invariant outcome == Pass
      {
        var t := types[i];
        assert types[i..][0] == t && types[i..][1..] == types[i + 1..];
        if t.fullName.Some? && t.hasMsgAttribute {
          outcome := MsgCheck(t);
          if outcome.Fail? {
            return;
          }
          if t.fullName.value !in registeredMessages {
            registeredMessages := registeredMessages[t.fullName.value := t];
          }
        }
        i := i + 1;
      }
      assert types[i..] == [];
    }

    /** RefreshMessageTypes: clear the registry, scan the executing assembly, then the entry assembly. */
    method RefreshMessageTypes(executing: Option<seq<MsgType>>, entry: Option<seq<MsgType>>)
      returns (outcome: Outcome<CheckError>)
      modifies this`registeredMessages
      ensures ScanResult(registeredMessages, outcome) == Refreshed(executing, entry)
    {
      registeredMessages := map[];
      outcome := LoopMessages(executing);
      if outcome.Fail? {
        return;
      }
      outcome := LoopMessages(entry);
    }
  }

  /* ---------------------------------------------------------------------- */
  /* The codec and GetMeta                                                  */

  /**
   * The MessagePack codec. Each function takes, first, whether the
   * Lz4BlockArray compression option is on; None stands for an exception.
   * messageIdAt1 is the contractless dynamic decode followed by reading
   * element 1 as a string.
   */
  datatype Codec<!V> = Codec(
    serialize: (bool, V) -> Bytes,
    deserialize: (bool, MsgType, Bytes) -> Option<V>,
    messageIdAt1: (bool, Bytes) -> Option<string>)

  /** The codec's promise for one value of one type: decoding what it encoded under the same option gives the value back. */
  ghost predicate RoundTrips<V>(codec: Codec<V>, t: MsgType, v: V) {
    forall lz4: bool :: codec.deserialize(lz4, t, codec.serialize(lz4, v)) == Some(v)
  }

  /** A decoded message: the buffer it came from, the value, the name it was identified by and the registered type. */
  datatype MsgMeta<V> = MsgMeta(rawData: Bytes, data: V, dataId: string, typeOfData: MsgType)

  /**
   * Serialize: the Lz4BlockArray option exactly when UseCompression is on, so
   * the buffer decodes back to the value under the same flag.
   */
  function Serialize<V>(codec: Codec<V>, useCompression: bool, obj: V): (data: Bytes)
    ensures useCompression ==> data == codec.serialize(true, obj)
    ensures !useCompression ==> data == codec.serialize(false, obj)
    ensures forall t | RoundTrips(codec, t, obj) :: codec.deserialize(useCompression, t, data) == Some(obj)
  {
    codec.serialize(useCompression, obj)
  }

  /** Both Deserialize overloads: the generic one is this one at typeof(T). */
  function Deserialize<V>(codec: Codec<V>, useCompression: bool, targetType: MsgType, data: Bytes): (r: Result<V, string>)
    ensures r.Success? <==> codec.deserialize(useCompression, targetType, data).Some?
    ensures r.Success? ==> codec.deserialize(useCompression, targetType, data) == Some(r.value)
    ensures r.Failure? ==> r.error == "MessagePackSerializationException"
  {
    match codec.deserialize(useCompression, targetType, data)
    case None => Failure("MessagePackSerializationException")
    case Some(v) => Success(v)
  }

  /** Serialize and Deserialize read the same flag, so under an unchanged flag deserialising what was serialised gives the value. */
  lemma SerializeRoundTrip<V>(codec: Codec<V>, useCompression: bool, t: MsgType, v: V)
    requires RoundTrips(codec, t, v)
    ensures Deserialize(codec, useCompression, t, Serialize(codec, useCompression, v)) == Success(v)
  {
  }

  /**
   * GetMeta: null when the string at element 1 is not a registered name;
   * otherwise the buffer, its value decoded at the registered type, the name
   * and the type. A failing decode is an exception (Failure).
   */
  function GetMeta<V>(codec: Codec<V>, useCompression: bool, registered: map<string, MsgType>, data: Bytes)
    : (r: Result<Option<MsgMeta<V>>, string>)
    ensures r == Success(None) <==>
      codec.messageIdAt1(useCompression, data).Some? && codec.messageIdAt1(useCompression, data).value !in registered
    ensures r.Success? && r.value.Some? ==>
      var meta := r.value.value;
      && meta.rawData == data
      && codec.messageIdAt1(useCompression, data) == Some(meta.dataId)
      && meta.dataId in registered
      && meta.typeOfData == registered[meta.dataId]
      && Deserialize(codec, useCompression, meta.typeOfData, data) == Success(meta.data)
    ensures r.Failure? <==>
      || codec.messageIdAt1(useCompression, data).None?
      || (var id := codec.messageIdAt1(useCompression, data).value;
          id in registered && Deserialize(codec, useCompression, registered[id], data).Failure?)
  {
    match codec.messageIdAt1(useCompression, data)
    case None => Failure("dynamic decode failed")
    case Some(msgid) =>
      if msgid !in registered then Success(None)
      else
        var t := registered[msgid];
        match Deserialize(codec, useCompression, t, data)
        case Failure(e) => Failure(e)
        case Success(v) => Success(Some(MsgMeta(data, v, msgid, t)))
  }

  /** A serialised value whose element 1 names its registered type is identified as that type, with the value and the same buffer. */
  lemma GetMetaIdentifiesSerialized<V>(codec: Codec<V>, useCompression: bool, registered: map<string, MsgType>,
                                       name: string, v: V)
    requires name in registered && RoundTrips(codec, registered[name], v)
    requires codec.messageIdAt1(useCompression, Serialize(codec, useCompression, v)) == Some(name)
    ensures var data := Serialize(codec, useCompression, v);
      GetMeta(codec, useCompression, registered, data) == Success(Some(MsgMeta(data, v, name, registered[name])))
  {
    SerializeRoundTrip(codec, useCompression, registered[name], v);
  }
}
