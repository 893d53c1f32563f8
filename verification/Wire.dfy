/**
 * The protobuf wire format, as far as the gateway's messages use it: varint fields and
 * length-delimited fields, default values left out, the last occurrence of a field deciding.
 */
module Wire {
  import opened Bytes

  datatype Field =
    | Num(tag: nat, value: nat)
    | Str(tag: nat, data: bytes)

  // ---------------------------------------------------------------- varints

  function Varint(n: nat): (r: bytes)
    ensures |r| > 0
  {
    if n < 128 then [n] else [n % 128 + 128] + Varint(n / 128)
  }

  function DecodeVarint(s: bytes): (r: Option<(nat, bytes)>)
    ensures r.Some? ==> |r.value.1| < |s|
  {
    if s == [] then None
    else if s[0] < 128 then Some((s[0], s[1..]))
    else
      match DecodeVarint(s[1..])
      case None => None
      case Some(high) => Some((s[0] - 128 + 128 * high.0, high.1))
  }

  lemma {:induction false} VarintRoundTrip(n: nat, t: bytes)
    ensures DecodeVarint(Varint(n) + t) == Some((n, t))
  {
    var s := Varint(n) + t;
    if n < 128 {
      assert s[1..] == t;
    } else {
      VarintRoundTrip(n / 128, t);
      assert s[1..] == Varint(n / 128) + t;
    }
  }

  // ---------------------------------------------------------------- fields

  const VARINT: nat := 0
  const DELIMITED: nat := 2

  function EncodeField(f: Field): (r: bytes)
    ensures |r| > 0
  {
    match f
    case Num(tag, value) => Varint(8 * tag + VARINT) + Varint(value)
    case Str(tag, data) => Varint(8 * tag + DELIMITED) + Varint(|data|) + data
  }

  function EncodeFields(fields: seq<Field>): bytes {
    if fields == [] then [] else EncodeField(fields[0]) + EncodeFields(fields[1..])
  }

  function DecodeField(s: bytes): (r: Option<(Field, bytes)>)
    ensures r.Some? ==> |r.value.1| < |s|
  {
    match DecodeVarint(s)
    case None => None
    case Some(key) =>
      match DecodeVarint(key.1)
      case None => None
      case Some(v) =>
        if key.0 % 8 == VARINT then Some((Num(key.0 / 8, v.0), v.1))
        else if key.0 % 8 == DELIMITED && v.0 <= |v.1| then
          Some((Str(key.0 / 8, v.1[..v.0]), v.1[v.0..]))
        else None
  }

  function DecodeFields(s: bytes): Option<seq<Field>>
    decreases |s|
  {
    if s == [] then Some([])
    else
      match DecodeField(s)
      case None => None
      case Some(f) =>
        match DecodeFields(f.1)
        case None => None
        case Some(more) => Some([f.0] + more)
  }

  lemma DecodeFieldRoundTrip(f: Field, t: bytes)
    ensures DecodeField(EncodeField(f) + t) == Some((f, t))
  {
    hide Varint, DecodeVarint;
    var s := EncodeField(f) + t;
    match f {
      case Num(tag, value) =>
        assert s == Varint(8 * tag + VARINT) + (Varint(value) + t);
        VarintRoundTrip(8 * tag + VARINT, Varint(value) + t);
        VarintRoundTrip(value, t);
      case Str(tag, data) =>
        assert s == Varint(8 * tag + DELIMITED) + (Varint(|data|) + (data + t));
        VarintRoundTrip(8 * tag + DELIMITED, Varint(|data|) + (data + t));
        VarintRoundTrip(|data|, data + t);
        assert (data + t)[..|data|] == data && (data + t)[|data|..] == t;
    }
  }

  /** Concatenated encodings decode as concatenated fields: protobuf messages merge. */
  lemma {:induction false} DecodeFieldsAppend(fields: seq<Field>, t: bytes)
    ensures DecodeFields(EncodeFields(fields) + t)
         == match DecodeFields(t) case None => None case Some(more) => Some(fields + more)
  {
    hide EncodeField, DecodeField;
    if fields == [] {
      assert EncodeFields(fields) + t == t;
      assert DecodeFields(t).Some? ==> fields + DecodeFields(t).value == DecodeFields(t).value;
    } else {
      var f, rest := fields[0], EncodeFields(fields[1..]) + t;
      DecodeFieldRoundTrip(f, rest);
      DecodeFieldsAppend(fields[1..], t);
      assert EncodeFields(fields) + t == EncodeField(f) + rest;
      assert DecodeFields(t).Some?
        ==> [f] + (fields[1..] + DecodeFields(t).value) == fields + DecodeFields(t).value;
    }
  }

  lemma DecodeFieldsRoundTrip(fields: seq<Field>)
    ensures DecodeFields(EncodeFields(fields)) == Some(fields)
  {
    DecodeFieldsAppend(fields, []);
    assert EncodeFields(fields) + [] == EncodeFields(fields);
    assert fields + [] == fields;
  }

  // ---------------------------------------------------------------- encodings cut short

  lemma {:induction false} CutVarint(n: nat, k: nat)
    requires k < |Varint(n)|
    ensures DecodeVarint(Varint(n)[..k]) == None
  {
    if k > 0 {
      assert Varint(n)[..k][1..] == Varint(n / 128)[..k - 1];
      CutVarint(n / 128, k - 1);
    }
  }

  lemma CutAfter(a: bytes, b: bytes, k: nat)
    requires |a| <= k <= |a| + |b|
    ensures (a + b)[..k] == a + b[..k - |a|]
  {
  }

  lemma CutField(f: Field, k: nat)
    requires 0 < k < |EncodeField(f)|
    ensures DecodeField(EncodeField(f)[..k]) == None
  {
    hide Varint, DecodeVarint;
    var tag := match f case Num(t, _) => 8 * t + VARINT case Str(t, _) => 8 * t + DELIMITED;
    var value := match f case Num(_, v) => v case Str(_, data) => |data|;
    var data: bytes := match f case Num(_, _) => [] case Str(_, d) => d;
    var a, b := Varint(tag), Varint(value);
    assert EncodeField(f) == a + (b + data);
    if k < |a| {
      assert EncodeField(f)[..k] == a[..k];
      CutVarint(tag, k);
    } else {
      var j := k - |a|;
      CutAfter(a, b + data, k);
      VarintRoundTrip(tag, (b + data)[..j]);
      if j < |b| {
        assert (b + data)[..j] == b[..j];
        CutVarint(value, j);
      } else {
        CutAfter(b, data, j);
        VarintRoundTrip(value, data[..j - |b|]);
      }
    }
  }

  /** A message cut short decodes to fewer fields, if at all. */
  lemma {:induction false} CutFields(fields: seq<Field>, k: nat) returns (j: nat)
    requires k < |EncodeFields(fields)|
    ensures j < |fields|
    ensures DecodeFields(EncodeFields(fields)[..k]) in {None, Some(fields[..j])}
  {
    hide EncodeField, DecodeField;
    var e, rest := EncodeField(fields[0]), EncodeFields(fields[1..]);
    var s := EncodeFields(fields)[..k];
    if k < |e| {
      j := 0;
      assert s == e[..k];
      if k > 0 {
        CutField(fields[0], k);
      }
    } else {
      CutAfter(e, rest, k);
      DecodeFieldRoundTrip(fields[0], rest[..k - |e|]);
      var i := CutFields(fields[1..], k - |e|);
      j := i + 1;
      assert [fields[0]] + fields[1..][..i] == fields[..j];
    }
  }

  /** No field is longer than what it was decoded from. */
  lemma {:induction false} DecodedShort(s: bytes)
    requires DecodeFields(s).Some?
    ensures forall i | 0 <= i < |DecodeFields(s).value| && DecodeFields(s).value[i].Str? ::
              |DecodeFields(s).value[i].data| <= |s|
    decreases |s|
  {
    if s != [] {
      DecodedFieldShort(s);
      hide DecodeField;
      DecodedShort(DecodeField(s).value.1);
    }
  }

  lemma DecodedFieldShort(s: bytes)
    requires DecodeField(s).Some?
    ensures DecodeField(s).value.0.Str? ==> |DecodeField(s).value.0.data| <= |s|
  {
  }

  // ---------------------------------------------------------------- reading fields by number

  /** The last length-delimited field `tag`, empty when there is none. */
  function StrOf(fields: seq<Field>, tag: nat): bytes {
    if fields == [] then []
    else
      var last := fields[|fields| - 1];
      if last.Str? && last.tag == tag then last.data else StrOf(fields[..|fields| - 1], tag)
  }

  function NumOf(fields: seq<Field>, tag: nat): nat {
    if fields == [] then 0
    else
      var last := fields[|fields| - 1];
      if last.Num? && last.tag == tag then last.value else NumOf(fields[..|fields| - 1], tag)
  }

  lemma {:induction false} StrOfIsField(fields: seq<Field>, tag: nat)
    ensures StrOf(fields, tag) == []
            || exists i | 0 <= i < |fields| :: fields[i] == Str(tag, StrOf(fields, tag))
  {
    if fields != [] {
      var n := |fields| - 1;
      StrOfIsField(fields[..n], tag);
      assert forall i | 0 <= i < n :: fields[..n][i] == fields[i];
    }
  }

  /** A string or bytes field is written unless it is empty, a number unless it is zero. */
  function Text(tag: nat, data: bytes): seq<Field> {
    if data == [] then [] else [Str(tag, data)]
  }

  function Number(tag: nat, value: nat): seq<Field> {
    if value == 0 then [] else [Num(tag, value)]
  }

  lemma TextLast(fields: seq<Field>, tag: nat, data: bytes, wanted: nat)
    ensures StrOf(fields + Text(tag, data), wanted)
         == if tag == wanted && data != [] then data else StrOf(fields, wanted)
    ensures NumOf(fields + Text(tag, data), wanted) == NumOf(fields, wanted)
  {
    if data == [] {
      assert fields + [] == fields;
    } else {
      assert (fields + [Str(tag, data)])[..|fields|] == fields;
    }
  }

  lemma NumberLast(fields: seq<Field>, tag: nat, value: nat, wanted: nat)
    ensures StrOf(fields + Number(tag, value), wanted) == StrOf(fields, wanted)
    ensures NumOf(fields + Number(tag, value), wanted)
         == if tag == wanted && value != 0 then value else NumOf(fields, wanted)
  {
    if value == 0 {
      assert fields + [] == fields;
    } else {
      assert (fields + [Num(tag, value)])[..|fields|] == fields;
    }
  }
}
