/** Request ids "user.service.uuid": how the gateway builds them and how usage accounting splits them. */
module RequestId {
  import opened Bytes
  import opened Text

  /** Index of the first separator, or the length. */
  function IndexOf(s: bytes, sep: byte): (k: nat)
    ensures k <= |s| && Free(s[..k], sep) && (k < |s| ==> s[k] == sep)
  {
    if s == [] || s[0] == sep then 0
    else
      var k := IndexOf(s[1..], sep);
      assert s[..k + 1] == [s[0]] + s[1..][..k];
      k + 1
  }

  /** strings.SplitN: at most `n` pieces, the last one unsplit. */
  function SplitN(s: bytes, sep: byte, n: nat): (r: seq<bytes>)
    requires n > 0
    ensures 0 < |r| <= n
    decreases n
  {
    if n == 1 then [s]
    else
      var k := IndexOf(s, sep);
      if k == |s| then [s] else [s[..k]] + SplitN(s[k + 1..], sep, n - 1)
  }

  datatype Info = Info(user: bytes, service: bytes)

  /** ExtractServiceInfoFromRequestID; None is its panic. */
  function Extract(requestId: bytes): Option<Info> {
    var r := SplitN(requestId, DOT, 3);
    if |r| == 3 then Some(Info(r[0], r[1])) else None
  }

  function Build(user: bytes, service: bytes, uuid: bytes): bytes {
    user + [DOT] + service + [DOT] + uuid
  }

  /** GenerateUsageRecordKey */
  function RecordKey(service: bytes, user: bytes): bytes {
    service + [DOT] + user
  }

  lemma IndexOfHead(head: bytes, tail: bytes, sep: byte)
    requires Free(head, sep)
    ensures IndexOf(head + [sep] + tail, sep) == |head|
  {
    var s := head + [sep] + tail;
    var k := IndexOf(s, sep);
    assert forall j | 0 <= j < |head| :: s[j] == head[j];
    assert s[|head|] == sep;
    assert forall j | 0 <= j < k :: s[j] == s[..k][j];
  }

  /** What is extracted is free of dots and stands in front of the id. */
  lemma ExtractMeaning(requestId: bytes)
    requires Extract(requestId).Some?
    ensures var i := Extract(requestId).value;
            && Free(i.user, DOT) && Free(i.service, DOT)
            && requestId == Build(i.user, i.service, requestId[|i.user| + |i.service| + 2..])
  {
    hide IndexOf;
    var i := Extract(requestId).value;
    var k := IndexOf(requestId, DOT);
    var rest := requestId[k + 1..];
    var j := IndexOf(rest, DOT);
    assert SplitN(requestId, DOT, 3) == [requestId[..k]] + SplitN(rest, DOT, 2);
    assert SplitN(rest, DOT, 2) == [rest[..j]] + SplitN(rest[j + 1..], DOT, 1);
    assert requestId == requestId[..k] + [DOT] + rest;
    assert rest == rest[..j] + [DOT] + rest[j + 1..];
  }

  /** A built id splits back into its user and service exactly when neither contains a dot. */
  lemma ExtractOfBuildIff(user: bytes, service: bytes, uuid: bytes)
    ensures Extract(Build(user, service, uuid)) == Some(Info(user, service))
       <==> Free(user, DOT) && Free(service, DOT)
  {
    var id := Build(user, service, uuid);
    if Free(user, DOT) && Free(service, DOT) {
      var rest := service + [DOT] + uuid;
      assert id == user + [DOT] + rest;
      IndexOfHead(user, rest, DOT);
      assert id[..|user|] == user && id[|user| + 1..] == rest;
      IndexOfHead(service, uuid, DOT);
      assert rest[..|service|] == service;
      assert SplitN(rest, DOT, 2) == [service] + SplitN(rest[|service| + 1..], DOT, 1);
    } else if Extract(id) == Some(Info(user, service)) {
      ExtractMeaning(id);
    }
  }

  /** The pair of every request id has a usage key of its own. */
  lemma KeysDistinct(a: bytes, b: bytes)
    requires Extract(a).Some? && Extract(b).Some?
    ensures var i, j := Extract(a).value, Extract(b).value;
            RecordKey(i.service, i.user) == RecordKey(j.service, j.user) <==> i == j
  {
    ExtractMeaning(a);
    ExtractMeaning(b);
    var i, j := Extract(a).value, Extract(b).value;
    SameKey(i.service, i.user, j.service, j.user);
  }

  /** A key of dot-free names belongs to no other pair, with dots or without. */
  lemma SameKey(service: bytes, user: bytes, service': bytes, user': bytes)
    requires Free(service, DOT) && Free(user, DOT)
    ensures RecordKey(service, user) == RecordKey(service', user') <==> service == service' && user == user'
  {
    var key, key' := RecordKey(service, user), RecordKey(service', user');
    assert key[|service|] == DOT && key'[|service'|] == DOT;
    assert forall i | 0 <= i < |service| :: key[i] == service[i];
    assert forall i | |service| < i < |key| :: key[i] == user[i - |service| - 1];
    assert key[..|service|] == service && key[|service| + 1..] == user;
    assert key'[..|service'|] == service' && key'[|service'| + 1..] == user';
  }

  /** A usage key of dot-free names is the service, a dot and the user. */
  lemma KeySplits(service: bytes, user: bytes)
    requires Free(service, 46) && Free(user, 46)
    ensures Split(RecordKey(service, user), 46) == [service, user]
  {
    SplitFree(user, 46);
    SplitAtFirst(service, user, 46);
  }

  /** An id can be taken apart exactly when it has two dots. */
  lemma ExtractIff(requestId: bytes)
    ensures Extract(requestId).Some?
       <==> exists i, j | 0 <= i < j < |requestId| :: requestId[i] == 46 && requestId[j] == 46
  {
    var k := IndexOf(requestId, DOT);
    hide IndexOf;
    if k < |requestId| {
      var rest := requestId[k + 1..];
      var l := IndexOf(rest, DOT);
      assert forall i | 0 <= i < k :: requestId[i] == requestId[..k][i];
      assert forall i | 0 <= i < |rest| :: rest[i] == requestId[k + 1 + i];
      assert forall i | 0 <= i < l :: rest[i] == rest[..l][i];
      assert SplitN(requestId, DOT, 3) == [requestId[..k]] + SplitN(rest, DOT, 2);
      if l < |rest| {
        assert SplitN(rest, DOT, 2) == [rest[..l]] + SplitN(rest[l + 1..], DOT, 1);
        assert requestId[k] == 46 && requestId[k + 1 + l] == 46;
      }
    } else {
      assert requestId[..k] == requestId;
    }
  }
}
