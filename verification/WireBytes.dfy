/**
 * The bytes that travel, written out: frames, the protobuf messages with their field numbers, the SOCKS5
 * requests of RFC 1928, and addresses as text. The other modules speak of these formats through their
 * encoders; the lemmas here fix what the encoders write.
 */
module WireBytes {
  import opened Bytes
  import opened Frames
  import opened Wire
  import opened Messages
  import opened Agents
  import opened Chars = Text
  import Socks5
  import opened IpText

  /** Eight bytes of length, the highest first. */
  lemma FrameBytes(data: bytes)
    requires |data| < 0x1_0000
    ensures Frame(data) == [0, 0, 0, 0, 0, 0, |data| / 256, |data| % 256] + data
  {
    var n := |data|;
    assert BigEndian(n, 8) == BigEndian(n / 256, 7) + [n % 256];
    assert BigEndian(n / 256, 7) == BigEndian(0, 6) + [n / 256];
    ZeroBytes(6);
    assert seq(6, _ => 0) == [0, 0, 0, 0, 0, 0];
  }

  lemma {:induction false} ZeroBytes(k: nat)
    ensures BigEndian(0, k) == seq(k, _ => 0)
    decreases k
  {
    if k > 0 {
      ZeroBytes(k - 1);
      assert seq(k - 1, _ => 0) + [0] == seq(k, _ => 0);
    }
  }

  // ---------------------------------------------------------------- protobuf messages

  predicate Short(s: bytes) {
    0 < |s| < 128
  }

  /** A field number below 16 and a length below 128 take a byte each. */
  lemma ShortField(tag: nat, data: bytes)
    requires tag < 16 && Short(data)
    ensures EncodeFields(Wire.Text(tag, data)) == [8 * tag + 2, |data|] + data
  {
    OneField(tag, data);
    assert Varint(8 * tag + 2) == [8 * tag + 2] && Varint(|data|) == [|data|];
  }

  lemma NumberField(tag: nat, value: nat)
    requires tag < 16 && 0 < value < 128
    ensures EncodeFields(Number(tag, value)) == [8 * tag, value]
  {
    assert EncodeFields([]) == [];
    assert Varint(8 * tag) == [8 * tag] && Varint(value) == [value];
  }

  lemma ContentField(data: bytes)
    requires Short(data)
    ensures EncodeFields(Wire.Text(20, data)) == [162, 1, |data|] + data
  {
    OneField(20, data);
    assert Varint(162) == [162, 1] && Varint(|data|) == [|data|];
  }

  lemma EmptyField(tag: nat)
    ensures EncodeFields(Wire.Text(tag, [])) == []
  {
  }

  /** ApronServiceData: request_id is field 2, raw_data field 10. */
  lemma ServiceDataBytes(m: ServiceData)
    requires Short(m.requestId) && Short(m.rawData)
    ensures MarshalServiceData(m) == [18, |m.requestId|] + m.requestId + ([82, |m.rawData|] + m.rawData)
  {
    hide EncodeFields, Wire.Text;
    EncodeFieldsAppend(Wire.Text(2, m.requestId), Wire.Text(10, m.rawData));
    ShortField(2, m.requestId);
    ShortField(10, m.rawData);
  }

  /** ApronSocketServiceRequest: service_id, request_id and peer_id are fields 1 to 3. */
  lemma SocketServiceBytes(m: SocketService)
    requires Short(m.serviceId) && Short(m.requestId) && Short(m.peerId)
    ensures MarshalSocketService(m)
         == [10, |m.serviceId|] + m.serviceId + ([18, |m.requestId|] + m.requestId) + ([26, |m.peerId|] + m.peerId)
  {
    hide EncodeFields, Wire.Text;
    EncodeFieldsAppend(Wire.Text(1, m.serviceId) + Wire.Text(2, m.requestId), Wire.Text(3, m.peerId));
    EncodeFieldsAppend(Wire.Text(1, m.serviceId), Wire.Text(2, m.requestId));
    ShortField(1, m.serviceId);
    ShortField(2, m.requestId);
    ShortField(3, m.peerId);
  }

  /** ApronSocketInitRequest: the same, and user_id is field 4. */
  lemma SocketInitBytes(m: SocketInit)
    requires Short(m.serviceId) && Short(m.requestId) && Short(m.peerId) && Short(m.userId)
    ensures MarshalSocketInit(m)
         == [10, |m.serviceId|] + m.serviceId + ([18, |m.requestId|] + m.requestId)
            + ([26, |m.peerId|] + m.peerId) + ([34, |m.userId|] + m.userId)
  {
    hide EncodeFields, Wire.Text;
    var three := Wire.Text(1, m.serviceId) + Wire.Text(2, m.requestId) + Wire.Text(3, m.peerId);
    EncodeFieldsAppend(three, Wire.Text(4, m.userId));
    EncodeFieldsAppend(Wire.Text(1, m.serviceId) + Wire.Text(2, m.requestId), Wire.Text(3, m.peerId));
    EncodeFieldsAppend(Wire.Text(1, m.serviceId), Wire.Text(2, m.requestId));
    ShortField(1, m.serviceId);
    ShortField(2, m.requestId);
    ShortField(3, m.peerId);
    ShortField(4, m.userId);
  }

  /** The client-side agent's init request has neither a peer nor a user. */
  lemma SessionInitBytes(s: Session)
    requires Short(s.serviceId) && Short(s.id)
    ensures SessionInit(s) == [10, |s.serviceId|] + s.serviceId + ([18, |s.id|] + s.id)
  {
    hide EncodeFields, Wire.Text;
    EncodeFieldsAppend(Wire.Text(1, s.serviceId) + Wire.Text(2, s.id) + Wire.Text(3, []), Wire.Text(4, []));
    EncodeFieldsAppend(Wire.Text(1, s.serviceId) + Wire.Text(2, s.id), Wire.Text(3, []));
    EncodeFieldsAppend(Wire.Text(1, s.serviceId), Wire.Text(2, s.id));
    ShortField(1, s.serviceId);
    ShortField(2, s.id);
    EmptyField(3);
    EmptyField(4);
  }

  /** ExtServiceData: service_name, request_id and msg_id are fields 1 to 3, the type 10, the content 20. */
  lemma ExtBytes(m: ExtData)
    requires Short(m.serviceName) && Short(m.requestId) && Short(m.msgId) && Short(m.content)
    requires 0 < m.contentType < 128
    ensures MarshalExt(m)
         == [10, |m.serviceName|] + m.serviceName + ([18, |m.requestId|] + m.requestId) + ([26, |m.msgId|] + m.msgId)
            + [80, m.contentType] + ([162, 1, |m.content|] + m.content)
  {
    hide EncodeFields, Wire.Text, Number;
    var three := Wire.Text(1, m.serviceName) + Wire.Text(2, m.requestId) + Wire.Text(3, m.msgId);
    EncodeFieldsAppend(three + Number(10, m.contentType), Wire.Text(20, m.content));
    EncodeFieldsAppend(three, Number(10, m.contentType));
    EncodeFieldsAppend(Wire.Text(1, m.serviceName) + Wire.Text(2, m.requestId), Wire.Text(3, m.msgId));
    EncodeFieldsAppend(Wire.Text(1, m.serviceName), Wire.Text(2, m.requestId));
    ShortField(1, m.serviceName);
    ShortField(2, m.requestId);
    ShortField(3, m.msgId);
    NumberField(10, m.contentType);
    ContentField(m.content);
  }

  const NAME_FIELD: bytes := [10, 6, 115, 111, 99, 107, 115, 53]

  /** The agents' two messages: "socks5", the ids, type 1 for a connect request and 2 for data. */
  lemma DataMessageBytes(id: bytes, chunk: Chunk)
    requires Short(id) && Short(chunk.msgId) && Short(chunk.content)
    ensures DataMessage(id, chunk)
         == NAME_FIELD + ([18, |id|] + id) + ([26, |chunk.msgId|] + chunk.msgId) + [80, 2]
            + ([162, 1, |chunk.content|] + chunk.content)
  {
    hide MarshalExt;
    ExtBytes(ExtData(SERVICE_NAME, id, chunk.msgId, DATA_MESSAGE, chunk.content));
    assert [10, |SERVICE_NAME|] + SERVICE_NAME == NAME_FIELD;
  }

  lemma ConnectMessageBytes(id: bytes, msgId: bytes, req: Socks5.ConnectRequest)
    requires Short(id) && Short(msgId) && Short(EncodeRequest(req))
    ensures ConnectMessage(id, msgId, req)
         == NAME_FIELD + ([18, |id|] + id) + ([26, |msgId|] + msgId) + [80, 1]
            + ([162, 1, |EncodeRequest(req)|] + EncodeRequest(req))
  {
    hide MarshalExt, EncodeRequest;
    ExtBytes(ExtData(SERVICE_NAME, id, msgId, CONNECT_MESSAGE, EncodeRequest(req)));
    assert [10, |SERVICE_NAME|] + SERVICE_NAME == NAME_FIELD;
  }

  // ---------------------------------------------------------------- SOCKS5

  /** Section 4 of RFC 1928, each kind of address. */
  lemma RequestLayout(version: byte, command: byte, reserved: byte, a: Socks5.Address, port: nat)
    requires Socks5.ValidAddress(a) && port < 0x1_0000
    ensures Socks5.RequestBytes(version, command, reserved, a, port)
         == [version, command, reserved] + AddressLayout(a) + [port / 256, port % 256]
  {
    Socks5.PortBytes(port);
    hide BigEndian;
  }

  function AddressLayout(a: Socks5.Address): bytes
    requires Socks5.ValidAddress(a)
  {
    match a
    case V4(ip) => [1] + ip
    case V6(ip) => [4] + ip
    case Domain(name) => [3, |name|] + name
  }

  lemma GreetingLayout(methods: bytes)
    requires |methods| <= 255
    ensures Socks5.Greeting(methods) == [5, |methods|] + methods
  {
    assert [Socks5.VERSION, |methods|] == [5, |methods|];
  }

  /** What the service-side agent writes for a destination. */
  lemma ServiceHandshakeLayout(req: Socks5.ConnectRequest)
    requires |req.destAddr| <= 255 && req.destPort < 0x1_0000
    ensures Socks5.ServiceHandshake(req)
         == [5, 1, 0, 5, 1, 0, 3, |req.destAddr|] + req.destAddr + [req.destPort / 256, req.destPort % 256]
  {
    Socks5.PortBytes(req.destPort);
    hide BigEndian;
  }

  /** "10.1.2.3" */
  const TEN_ONE_TWO_THREE: bytes := [49, 48, 46, 49, 46, 50, 46, 51]

  lemma DottedExample()
    ensures IpString([10, 1, 2, 3]) == TEN_ONE_TWO_THREE
  {
    var ns: seq<nat> := [10, 1, 2, 3];
    assert Numeral(10, 10) == [49, 48] by { assert Numeral(1, 10) == [49]; }
    assert Numeral(1, 10) == [49] && Numeral(2, 10) == [50] && Numeral(3, 10) == [51];
    assert Numerals(ns, 10) == [[49, 48], [49], [50], [51]];
    assert [[49, 48], [49], [50], [51]][1..] == [[49], [50], [51]];
    assert [[49], [50], [51]][1..] == [[50], [51]] && [[50], [51]][1..] == [[51]];
    assert Join([[51]], 46) == [51];
    assert Join([[50], [51]], 46) == [50] + [46] + [51];
    assert Join([[49], [50], [51]], 46) == [49] + [46] + ([50] + [46] + [51]);
  }

  /** A client's whole opening for port 80 of that address, and what the service gets of it. */
  lemma OpeningExample()
    ensures Socks5.ReadHandshake(Socks5.AtOnce([5, 1, 0, 5, 1, 0, 1, 10, 1, 2, 3, 0, 80]))
         == Socks5.Ok(Socks5.ConnectRequest(5, 1, TEN_ONE_TWO_THREE, 80), Socks5.AtOnce([]))
    ensures Socks5.ServiceHandshake(Socks5.ConnectRequest(5, 1, TEN_ONE_TWO_THREE, 80))
         == [5, 1, 0, 5, 1, 0, 3, 8] + TEN_ONE_TWO_THREE + [0, 80]
  {
    hide Socks5.ReadHandshake, Socks5.ServiceHandshake, IpString, Socks5.Greeting, Socks5.RequestBytes;
    DottedExample();
    var ip: Ip4 := [10, 1, 2, 3];
    RequestLayout(5, 1, 0, Socks5.V4(ip), 80);
    GreetingLayout([0]);
    Socks5.HandshakeAccepted([0], 5, 1, 0, Socks5.V4(ip), 80, []);
    assert Socks5.Greeting([0]) + Socks5.RequestBytes(5, 1, 0, Socks5.V4(ip), 80) + []
        == [5, 1, 0, 5, 1, 0, 1, 10, 1, 2, 3, 0, 80];
    ServiceHandshakeLayout(Socks5.ConnectRequest(5, 1, TEN_ONE_TWO_THREE, 80));
  }

  /** A text in groups, for the first longest run of zero groups. */
  lemma TextWithRun(g: Groups, i: nat, n: nat)
    requires FirstLongestRun(g, i, n) && i + n <= 8
    ensures Text6(g)
         == Join(Numerals(g[..i], 16), 58) + [58, 58] + Join(Numerals(g[i + n..], 16), 58)
  {
    hide Shortened, Numerals, Join;
    ShortenedIsThatRun(g);
    var r := Shortened(g, 0, (0, 0));
    assert g[i] == 0 && g[i + 1] == 0;
    assert IpText.Zeros(g, i, n) && IpText.Zeros(g, r.0, r.1);
  }

  /** ::1 */
  lemma LoopbackExample(g: Groups)
    requires g == [0, 0, 0, 0, 0, 0, 0, 1]
    ensures Text6(g) == [58, 58, 49]
  {
    FirstRun(g, 0, 7);
    hide Text6, FirstLongestRun, Join, Numerals;
    TextWithRun(g, 0, 7);
    assert g[..0] == [] && g[7..] == [1];
    assert Numeral(1, 16) == [49];
    OneNumeral(1);
    NoNumeral();
  }

  /** fe80::a */
  lemma LocalExample(g: Groups)
    requires g == [0xfe80, 0, 0, 0, 0, 0, 0, 10]
    ensures Text6(g) == [102, 101, 56, 48, 58, 58, 97]
  {
    FirstRun(g, 1, 6);
    hide Text6, FirstLongestRun, Join, Numerals;
    TextWithRun(g, 1, 6);
    assert g[..1] == [0xfe80] && g[7..] == [10];
    assert Numeral(10, 16) == [97];
    OneNumeral(10);
    OneNumeral(0xfe80);
    HexExample();
  }

  lemma NoNumeral()
    ensures Join(Numerals([], 16), 58) == []
  {
  }

  lemma OneNumeral(n: nat)
    ensures Join(Numerals([n], 16), 58) == Numeral(n, 16)
  {
    hide Numeral;
    assert Numerals([n], 16) == [Numeral(n, 16)];
  }

  lemma HexExample()
    ensures Numeral(0xfe80, 16) == [102, 101, 56, 48]
  {
    assert Numeral(0xf, 16) == [102];
    assert Numeral(0xfe, 16) == [102, 101];
    assert Numeral(0xfe8, 16) == [102, 101, 56];
  }

  lemma FirstRun(g: Groups, i: nat, n: nat)
    requires n >= 4 && i + n <= 8 && IpText.Zeros(g, i, n)
    requires (i > 0 ==> g[i - 1] != 0) && (i + n < 8 ==> g[i + n] != 0)
    ensures FirstLongestRun(g, i, n)
  {
    forall j: nat, m: nat | IpText.Zeros(g, j, m) ensures m <= n && (m == n ==> i <= j) {
      if i > 0 { assert j <= i - 1 < j + m || j >= i || j + m <= i - 1; }
      if i + n < 8 { assert j <= i + n < j + m || j > i + n || j + m <= i + n; }
    }
  }
}
