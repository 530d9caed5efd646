/** The relay half of table.rs: handle allocation, slots, queued events and the state they form. */
module Table {
  import opened Bytes

  const MAX_HANDLE: int := 0x7FFF_FFFF

  datatype Event =
    | HttpRequest(handle: int, request: bytes)
    | HostCall(handle: int, name: bytes, body: bytes)
    | HostCallClose(handle: int, sidecar: bool)
    | PersistGet(handle: int, key: bytes)
    | PersistPut(handle: int, key: bytes, value: bytes)
    | PersistDelete(handle: int, key: bytes)
    | PersistList(handle: int, prefix: bytes)
    | WsConnect(handle: int, url: string)
    | WsSend(handle: int, data: bytes)
    | WsClose(handle: int)
    | ToolApproval(handle: int, facts: ApprovalFacts)

  datatype ApprovalFacts = ApprovalFacts(
    connection: string, httpMethod: string, url: string, origin: string, argsDigest: Option<string>)

  datatype ApprovalDecision = ApprovalDecision(allow: bool, rememberSession: bool)

  datatype HttpSlot = HttpSlot(done: bool, failed: bool, head: bytes, body: bytes, bodyPos: nat)

  datatype HostCallSlot =
    HostCallSlot(dispatched: bool, sidecar: bool, done: bool, failed: bool, result: bytes, offset: nat)

  datatype PersistSlot = PersistSlot(done: bool, failed: bool, result: bytes, offset: nat)

  datatype WsSlot =
    WsSlot(open: bool, failed: bool, incoming: seq<bytes>, incomingPos: nat, queuedBytes: nat)

  const EMPTY_HTTP := HttpSlot(false, false, [], [], 0)
  const EMPTY_PERSIST := PersistSlot(false, false, [], 0)
  const EMPTY_WS := WsSlot(false, false, [], 0, 0)

  datatype RelayState = RelayState(
    next: int,
    events: seq<Event>,
    http: map<int, HttpSlot>,
    hostCalls: map<int, HostCallSlot>,
    persist: map<int, PersistSlot>,
    ws: map<int, WsSlot>,
    approvals: set<int>)

  const NEW_RELAY := RelayState(1, [], map[], map[], map[], map[], {})

  /** alloc_handle: the handle given out when the counter is `next`. */
  function AllocatedHandle(next: int): int {
    if next <= 0 then 1 else next
  }

  /** alloc_handle: the counter afterwards, `wrapping_add(1).max(1)` in 32 bits. */
  function CounterAfter(next: int): int {
    var wrapped := AsI32(AllocatedHandle(next) + 1);
    if wrapped < 1 then 1 else wrapped
  }

  /** The counter after `k` allocations on a new relay. */
  function CounterAt(k: nat): int {
    if k == 0 then NEW_RELAY.next else CounterAfter(CounterAt(k - 1))
  }

  /** The k-th allocation (from 0) gives handle (k mod (2^31 - 1)) + 1: always a positive i32. */
  lemma {:induction false} KthHandle(k: nat)
    ensures CounterAt(k) == k % MAX_HANDLE + 1
    ensures AllocatedHandle(CounterAt(k)) == k % MAX_HANDLE + 1
    ensures 1 <= AllocatedHandle(CounterAt(k)) <= MAX_HANDLE
  {
    if k > 0 {
      KthHandle(k - 1);
      NextResidue(k - 1, MAX_HANDLE);
      CounterStep((k - 1) % MAX_HANDLE + 1);
    }
  }

  /** Before the wrap, the k-th allocation (from 0) gives handle k + 1. */
  lemma EarlyHandle(k: nat)
    requires k < MAX_HANDLE
    ensures AllocatedHandle(CounterAt(k)) == k + 1
  {
    KthHandle(k);
    DivModUnique(k, MAX_HANDLE, 0, k);
  }

  lemma CounterStep(n: int)
    requires 1 <= n <= MAX_HANDLE
    ensures CounterAfter(n) == if n == MAX_HANDLE then 1 else n + 1
  {
    if n < MAX_HANDLE {
      assert (n + 1 + 0x8000_0000) % 0x1_0000_0000 == n + 1 + 0x8000_0000;
    }
  }

  /** Any 2^31 - 1 consecutive allocations, also across the wrap, are pairwise distinct; the next one repeats. */
  lemma HandlesDistinct(i: nat, j: nat)
    requires i < j
    ensures j - i < MAX_HANDLE ==> AllocatedHandle(CounterAt(i)) != AllocatedHandle(CounterAt(j))
    ensures j - i == MAX_HANDLE ==> AllocatedHandle(CounterAt(i)) == AllocatedHandle(CounterAt(j))
  {
    KthHandle(i);
    KthHandle(j);
    Residues(i, j, MAX_HANDLE);
  }

  /** Quotient and remainder are determined by their defining equation. */
  lemma DivModUnique(x: int, m: int, q: int, r: int)
    requires 0 <= r < m && x == m * q + r
    ensures x / m == q && x % m == r
  {
    var d := x / m - q;
    assert m * d == r - x % m by {
      assert x == m * (x / m) + x % m;
    }
    assert d >= 1 ==> m * d >= m;
    assert d <= -1 ==> m * d <= -m;
  }

  lemma NextResidue(k: nat, m: nat)
    requires 0 < m
    ensures (k + 1) % m == if k % m == m - 1 then 0 else k % m + 1
  {
    if k % m == m - 1 {
      DivModUnique(k + 1, m, k / m + 1, 0);
    } else {
      DivModUnique(k + 1, m, k / m, k % m + 1);
    }
  }

  /** Two numbers less than `m` apart have different residues; exactly `m` apart, the same one. */
  lemma Residues(i: nat, j: nat, m: nat)
    requires i < j && 0 < m
    ensures j - i < m ==> i % m != j % m
    ensures j - i == m ==> i % m == j % m
  {
    var r := i % m + (j - i);
    if j - i == m {
      DivModUnique(j, m, i / m + 1, i % m);
    } else if j - i < m {
      if r < m {
        DivModUnique(j, m, i / m, r);
      } else {
        DivModUnique(j, m, i / m + 1, r - m);
      }
    }
  }
}
