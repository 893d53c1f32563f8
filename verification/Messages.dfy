/** The protobuf messages that the socket tunnel sends, and what its receivers make of them. */
module Messages {
  import opened Bytes
  import opened Wire

  /** ApronServiceData: what the two gateways exchange, tagged with the gateway's request id. */
  datatype ServiceData = ServiceData(requestId: bytes, rawData: bytes)

  /** ApronSocketInitRequest, sent by a client to its gateway. */
  datatype SocketInit = SocketInit(serviceId: bytes, requestId: bytes, peerId: bytes, userId: bytes)

  /** ApronSocketServiceRequest, sent by the client-side gateway to the service-side gateway. */
  datatype SocketService = SocketService(serviceId: bytes, requestId: bytes, peerId: bytes)

  /** ExtServiceData: what the two agents exchange, tagged with the client agent's request id. */
  datatype ExtData = ExtData(serviceName: bytes, requestId: bytes, msgId: bytes,
                             contentType: nat, content: bytes)

  const UINT32: nat := 0x1_0000_0000

  function MarshalServiceData(m: ServiceData): bytes {
    EncodeFields(Text(2, m.requestId) + Text(10, m.rawData))
  }

  function UnmarshalServiceData(s: bytes): Option<ServiceData> {
    match DecodeFields(s)
    case None => None
    case Some(fs) => Some(ServiceData(StrOf(fs, 2), StrOf(fs, 10)))
  }

  function MarshalSocketInit(m: SocketInit): bytes {
    EncodeFields(Text(1, m.serviceId) + Text(2, m.requestId) + Text(3, m.peerId) + Text(4, m.userId))
  }

  function UnmarshalSocketInit(s: bytes): Option<SocketInit> {
    match DecodeFields(s)
    case None => None
    case Some(fs) => Some(SocketInit(StrOf(fs, 1), StrOf(fs, 2), StrOf(fs, 3), StrOf(fs, 4)))
  }

  function MarshalSocketService(m: SocketService): bytes {
    EncodeFields(Text(1, m.serviceId) + Text(2, m.requestId) + Text(3, m.peerId))
  }

  function ExtFields(m: ExtData): seq<Field> {
    Text(1, m.serviceName) + Text(2, m.requestId) + Text(3, m.msgId)
    + Number(10, m.contentType) + Text(20, m.content)
  }

  function MarshalExt(m: ExtData): bytes {
    EncodeFields(ExtFields(m))
  }

  function ExtOf(fs: seq<Field>): ExtData {
    ExtData(StrOf(fs, 1), StrOf(fs, 2), StrOf(fs, 3), NumOf(fs, 10) % UINT32, StrOf(fs, 20))
  }

  function UnmarshalExt(s: bytes): Option<ExtData> {
    match DecodeFields(s)
    case None => None
    case Some(fs) => Some(ExtOf(fs))
  }

  // ---------------------------------------------------------------- round trips

  lemma ServiceDataRoundTrip(m: ServiceData)
    ensures UnmarshalServiceData(MarshalServiceData(m)) == Some(m)
  {
    hide StrOf, Text, NumOf;
    DecodeFieldsRoundTrip(Text(2, m.requestId) + Text(10, m.rawData));
    assert [] + Text(2, m.requestId) == Text(2, m.requestId);
    forall wanted: nat
      ensures StrOf(Text(2, m.requestId) + Text(10, m.rawData), wanted)
           == if wanted == 10 then m.rawData else if wanted == 2 then m.requestId else []
    {
      TextLast([], 2, m.requestId, wanted);
      TextLast(Text(2, m.requestId), 10, m.rawData, wanted);
      NoFields(wanted);
    }
  }

  lemma NoFields(wanted: nat)
    ensures StrOf([], wanted) == [] && NumOf([], wanted) == 0
  {
  }

  /** Fields 1 to 3, as the init messages share them. */
  lemma ThreeTexts(a: bytes, b: bytes, c: bytes, wanted: nat)
    ensures StrOf(Text(1, a) + Text(2, b) + Text(3, c), wanted)
         == if wanted == 1 then a else if wanted == 2 then b else if wanted == 3 then c else []
    ensures NumOf(Text(1, a) + Text(2, b) + Text(3, c), wanted) == 0
  {
    hide StrOf, Text, NumOf;
    assert [] + Text(1, a) == Text(1, a);
    NoFields(wanted);
    TextLast([], 1, a, wanted);
    TextLast(Text(1, a), 2, b, wanted);
    TextLast(Text(1, a) + Text(2, b), 3, c, wanted);
  }

  lemma SocketInitRoundTrip(m: SocketInit)
    ensures UnmarshalSocketInit(MarshalSocketInit(m)) == Some(m)
  {
    hide StrOf, Text, NumOf;
    var three := Text(1, m.serviceId) + Text(2, m.requestId) + Text(3, m.peerId);
    DecodeFieldsRoundTrip(three + Text(4, m.userId));
    forall wanted: nat
      ensures StrOf(three + Text(4, m.userId), wanted)
           == if wanted == 4 then m.userId else StrOf(three, wanted)
    {
      ThreeTexts(m.serviceId, m.requestId, m.peerId, wanted);
      TextLast(three, 4, m.userId, wanted);
    }
    ThreeTexts(m.serviceId, m.requestId, m.peerId, 1);
    ThreeTexts(m.serviceId, m.requestId, m.peerId, 2);
    ThreeTexts(m.serviceId, m.requestId, m.peerId, 3);
  }

  /**
   * The service-side gateway decodes the service request as an init request: the three fields it
   * uses arrive unchanged.
   */
  lemma ServiceRequestReadsAsInit(m: SocketService)
    ensures UnmarshalSocketInit(MarshalSocketService(m))
         == Some(SocketInit(m.serviceId, m.requestId, m.peerId, []))
  {
    hide StrOf, Text, NumOf;
    DecodeFieldsRoundTrip(Text(1, m.serviceId) + Text(2, m.requestId) + Text(3, m.peerId));
    forall wanted: nat | 1 <= wanted <= 4 {
      ThreeTexts(m.serviceId, m.requestId, m.peerId, wanted);
    }
  }

  lemma ExtFieldsRead(m: ExtData)
    requires m.contentType < UINT32
    ensures ExtOf(ExtFields(m)) == m
  {
    hide StrOf, Text, NumOf, Number;
    var three := Text(1, m.serviceName) + Text(2, m.requestId) + Text(3, m.msgId);
    var four := three + Number(10, m.contentType);
    forall wanted: nat
      ensures StrOf(four + Text(20, m.content), wanted)
           == if wanted == 20 then m.content else StrOf(three, wanted)
      ensures NumOf(four + Text(20, m.content), wanted)
           == if wanted == 10 then m.contentType else 0
    {
      ThreeTexts(m.serviceName, m.requestId, m.msgId, wanted);
      NumberLast(three, 10, m.contentType, wanted);
      TextLast(four, 20, m.content, wanted);
    }
    ThreeTexts(m.serviceName, m.requestId, m.msgId, 1);
    ThreeTexts(m.serviceName, m.requestId, m.msgId, 2);
    ThreeTexts(m.serviceName, m.requestId, m.msgId, 3);
  }

  lemma ExtRoundTrip(m: ExtData)
    requires m.contentType < UINT32
    ensures UnmarshalExt(MarshalExt(m)) == Some(m)
  {
    DecodeFieldsRoundTrip(ExtFields(m));
    ExtFieldsRead(m);
  }

  // ---------------------------------------------------------------- merged and oversized messages

  lemma {:induction false} StrOfAppend(a: seq<Field>, b: seq<Field>, tag: nat)
    ensures StrOf(b, tag) != [] ==> StrOf(a + b, tag) == StrOf(b, tag)
  {
    if b != [] {
      var last := b[|b| - 1];
      assert (a + b)[|a + b| - 1] == last;
      assert (a + b)[..|a + b| - 1] == a + b[..|b| - 1];
      StrOfAppend(a, b[..|b| - 1], tag);
    }
  }

  /**
   * Two agent messages read as one block of bytes decode without an error into one message that
   * carries the second content: the first content is gone.
   */
  lemma CoalescedMessagesLoseTheFirst(m1: ExtData, m2: ExtData)
    requires m2.contentType < UINT32 && m2.content != []
    ensures UnmarshalExt(MarshalExt(m1) + MarshalExt(m2)).Some?
    ensures UnmarshalExt(MarshalExt(m1) + MarshalExt(m2)).value.content == m2.content
  {
    hide StrOf, NumOf, ExtFields;
    DecodeFieldsAppend(ExtFields(m1), MarshalExt(m2));
    DecodeFieldsRoundTrip(ExtFields(m2));
    ExtFieldsRead(m2);
    StrOfAppend(ExtFields(m1), ExtFields(m2), 20);
  }

  lemma BeforeContent(m: ExtData, j: nat)
    requires m.content != [] && j < |ExtFields(m)|
    ensures StrOf(ExtFields(m)[..j], 20) == []
  {
    hide StrOf;
    StrOfIsField(ExtFields(m)[..j], 20);
  }

  /** An agent message cut short carries nothing: the content is its last field. */
  lemma CutMessageCarriesNothing(m: ExtData, k: nat)
    requires m.content != [] && k < |MarshalExt(m)|
    ensures UnmarshalExt(MarshalExt(m)[..k]).Some? ==> UnmarshalExt(MarshalExt(m)[..k]).value.content == []
  {
    hide EncodeFields, DecodeFields, StrOf, NumOf, ExtFields;
    var j := CutFields(ExtFields(m), k);
    BeforeContent(m, j);
  }

  /** What any bytes decode to is no longer than they are. */
  lemma ContentIsShort(s: bytes)
    ensures UnmarshalExt(s).Some? ==> |UnmarshalExt(s).value.content| <= |s|
  {
    hide DecodeFields, StrOf, NumOf;
    if DecodeFields(s).Some? {
      DecodedShort(s);
      StrOfIsField(DecodeFields(s).value, 20);
    }
  }

  lemma {:induction false} EncodeFieldsAppend(a: seq<Field>, b: seq<Field>)
    ensures EncodeFields(a + b) == EncodeFields(a) + EncodeFields(b)
  {
    if a == [] {
      assert a + b == b;
    } else {
      assert (a + b)[1..] == a[1..] + b;
      EncodeFieldsAppend(a[1..], b);
    }
  }

  /** A marshalled agent message is longer than its content. */
  lemma ExtIsLongerThanContent(m: ExtData)
    requires m.content != []
    ensures |MarshalExt(m)| > |m.content|
  {
    hide Number;
    var head := Text(1, m.serviceName) + Text(2, m.requestId) + Text(3, m.msgId)
                + Number(10, m.contentType);
    EncodeFieldsAppend(head, Text(20, m.content));
    assert EncodeFields(Text(20, m.content)) == EncodeField(Str(20, m.content));
  }
}
