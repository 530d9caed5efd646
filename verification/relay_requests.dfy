/**
 The two request formats that the guest writes and the relay takes apart, from the writer's side: a host call is a
 name, a NUL and a body, a persist request is an operation, the key's length, the key and the value.
 */
module RelayRequests {
  import opened Bytes
  import opened Table
  import opened Relay

  function CallRequest(name: bytes, body: bytes): bytes {
    name + [NUL] + body
  }

  /** The name and the body that were put together are found, and a request without a NUL is all name. */
  lemma CallRequestParsed(name: bytes, body: bytes)
    requires NulFree(name)
    ensures RequestName(CallRequest(name, body)) == name && RequestBody(CallRequest(name, body)) == body
    ensures RequestName(name) == name && RequestBody(name) == []
  {
    FindNulIs(CallRequest(name, body), |name|);
    FindNulIs(name, |name|);
    assert CallRequest(name, body)[..|name|] == name && CallRequest(name, body)[|name| + 1..] == body;
  }

  /** There are no other requests. */
  lemma EveryCallRequest(req: bytes)
    ensures NulFree(RequestName(req))
    ensures
      || req == CallRequest(RequestName(req), RequestBody(req))
      || (req == RequestName(req) && RequestBody(req) == [])
  {
    FindNulIsFirst(req);
  }

  /** Four bytes, the lowest first. */
  function LowestFirst(v: nat): (b: bytes)
    requires v < 0x1_0000_0000
    ensures |b| == 4
  {
    [v % 0x100, v / 0x100 % 0x100, v / 0x1_0000 % 0x100, v / 0x100_0000]
  }

  lemma LowestFirstRead(v: nat)
    requires v < 0x1_0000_0000
    ensures U32LE(LowestFirst(v)) == v
  {
    assert v / 0x1_0000 == v / 0x100 / 0x100;
    assert v / 0x100_0000 == v / 0x1_0000 / 0x100;
  }

  lemma LowestFirstOf(b: bytes)
    requires |b| == 4
    ensures 0 <= U32LE(b) < 0x1_0000_0000 && LowestFirst(U32LE(b)) == b
  {
    var v: int := U32LE(b);
    var v1: int := b[1] as int + 0x100 * (b[2] as int) + 0x1_0000 * (b[3] as int);
    var v2: int := b[2] as int + 0x100 * (b[3] as int);
    assert v == b[0] as int + 0x100 * v1 && v1 == b[1] as int + 0x100 * v2;
    assert v / 0x100 == v1 && v % 0x100 == b[0] && v1 / 0x100 == v2 && v1 % 0x100 == b[1];
    assert v2 / 0x100 == b[3] && v2 % 0x100 == b[2];
    assert v / 0x1_0000 == v2 && v / 0x100_0000 == b[3];
  }

  function PersistRequest(operation: nat, key: bytes, value: bytes): bytes
    requires operation < 0x1_0000_0000 && |key| < 0x1_0000_0000
  {
    LowestFirst(operation) + LowestFirst(|key|) + key + value
  }

  lemma RequestParts(req: bytes, operation: bytes, length: bytes, key: bytes, value: bytes)
    requires req == operation + length + key + value && |operation| == |length| == 4
    ensures |req| >= 8 + |key|
    ensures req[..4] == operation && req[4..8] == length && req[8..8 + |key|] == key && req[8 + |key|..] == value
  {
  }

  /** Each operation reaches the host as what it is, with its own key and value; an unknown one does not reach it. */
  lemma PersistRequestParsed(h: int, operation: nat, key: bytes, value: bytes)
    requires operation < 0x1_0000_0000 && |key| < 0x1_0000_0000
    ensures !PersistMalformed(PersistRequest(operation, key, value))
    ensures PersistEvent(h, PersistRequest(operation, key, value))
      == if operation == 0 then Some(Event.PersistGet(h, key))
         else if operation == 1 then Some(Event.PersistPut(h, key, value))
         else if operation == 2 then Some(Event.PersistDelete(h, key))
         else if operation == 3 then Some(Event.PersistList(h, key))
         else None
  {
    RequestParts(PersistRequest(operation, key, value), LowestFirst(operation), LowestFirst(|key|), key, value);
    LowestFirstRead(operation);
    LowestFirstRead(|key|);
  }

  /** The bytes are a persist request. */
  ghost predicate IsPersistRequest(req: bytes) {
    exists operation: nat, key, value ::
      operation < 0x1_0000_0000 && |key| < 0x1_0000_0000 && req == PersistRequest(operation, key, value)
  }

  /** Exactly the bytes that are no persist request at all are refused as malformed. */
  lemma PersistMalformedIff(req: bytes)
    ensures PersistMalformed(req) <==> !IsPersistRequest(req)
  {
    if !PersistMalformed(req) {
      LowestFirstOf(req[..4]);
      LowestFirstOf(req[4..8]);
      var operation, split := U32LE(req[..4]), 8 + U32LE(req[4..8]);
      assert req == req[..4] + req[4..8] + req[8..split] + req[split..];
      assert req == PersistRequest(operation, req[8..split], req[split..]);
    }
    if operation: nat, key, value :|
      operation < 0x1_0000_0000 && |key| < 0x1_0000_0000 && req == PersistRequest(operation, key, value) {
      PersistRequestParsed(0, operation, key, value);
    }
  }
}
