/**
 The peer table of `src/node/lookup_table.c` as a list of records, head first: what its operations do
 to the list, and what holds after any number of them.
 */
module PeerList {
  import opened Bytes
  import opened Options

  const MAX_HOST_LEN := 46
  const HASH_SIZE := 20

  /** `host` is the whole 46-byte buffer. */
  datatype NodeInfo = NodeInfo(host: seq<byte>, port: int, hash: seq<byte>)

  /** A buffer read as a C string: the bytes before the first NUL. */
  function CString(buf: seq<byte>): seq<byte> {
    if buf == [] || buf[0] == 0 then [] else [buf[0]] + CString(buf[1..])
  }

  predicate IsCString(s: seq<byte>) {
    0 !in s
  }

  /** What fits a host buffer in front of its terminator. */
  function Cut(host: seq<byte>): seq<byte> {
    if |host| < MAX_HOST_LEN then host else host[..MAX_HOST_LEN - 1]
  }

  /** `strncpy` of 45 bytes into a 46-byte buffer, and the terminator. */
  function HostBuffer(host: seq<byte>): (buf: seq<byte>)
    ensures |buf| == MAX_HOST_LEN
  {
    var cut := Cut(CString(host));
    cut + Zeros(MAX_HOST_LEN - |cut|)
  }

  /** A record as `create_node` makes it. */
  function MakeInfo(host: seq<byte>, port: int, hash: seq<byte>): NodeInfo {
    NodeInfo(HostBuffer(host), port, hash)
  }

  /** The two ways a record is looked for. */
  datatype Key = ByAddress(host: seq<byte>, port: int) | ByHash(hash: seq<byte>)

  predicate Matches(info: NodeInfo, key: Key) {
    match key
    case ByAddress(host, port) => CString(info.host) == host && info.port == port
    case ByHash(hash) => info.hash == hash
  }

  /** The position of the first matching record, or the length. */
  function FirstMatch(l: seq<NodeInfo>, key: Key): (k: nat)
    ensures k <= |l|
    ensures k < |l| ==> Matches(l[k], key)
    ensures forall i :: 0 <= i < k ==> !Matches(l[i], key)
  {
    if l == [] || Matches(l[0], key) then 0 else 1 + FirstMatch(l[1..], key)
  }

  function FindFirst(l: seq<NodeInfo>, key: Key): Option<NodeInfo> {
    var k := FirstMatch(l, key);
    if k < |l| then Some(l[k]) else None
  }

  function RemoveAt<T>(l: seq<T>, k: nat): (r: seq<T>)
    requires k < |l|
    ensures |r| == |l| - 1
    ensures forall i :: 0 <= i < |r| ==> r[i] == l[if i < k then i else i + 1]
  {
    l[..k] + l[k + 1..]
  }

  function RemoveFirst(l: seq<NodeInfo>, key: Key): seq<NodeInfo> {
    var k := FirstMatch(l, key);
    if k < |l| then RemoveAt(l, k) else l
  }

  function AddFirst(l: seq<NodeInfo>, host: seq<byte>, port: int, hash: seq<byte>): seq<NodeInfo> {
    if FirstMatch(l, ByAddress(host, port)) < |l| then l else [MakeInfo(host, port, hash)] + l
  }

  // ----- the operations, field by field -----

  /** `k` is the first place in `l` with that hash. */
  ghost predicate FirstWithHash(l: seq<NodeInfo>, hash: seq<byte>, k: nat) {
    k < |l| && l[k].hash == hash && forall i :: 0 <= i < k ==> l[i].hash != hash
  }

  ghost predicate NoneWithHash(l: seq<NodeInfo>, hash: seq<byte>) {
    forall i :: 0 <= i < |l| ==> l[i].hash != hash
  }

  /** `k` is the first place in `l` with that host, read as a C string, and that port. */
  ghost predicate FirstWithAddress(l: seq<NodeInfo>, host: seq<byte>, port: int, k: nat) {
    && k < |l| && CString(l[k].host) == host && l[k].port == port
    && forall i :: 0 <= i < k ==> CString(l[i].host) != host || l[i].port != port
  }

  ghost predicate NoneWithAddress(l: seq<NodeInfo>, host: seq<byte>, port: int) {
    forall i :: 0 <= i < |l| ==> CString(l[i].host) != host || l[i].port != port
  }

  /** By hash, a find gives and a remove takes out exactly the first record with it. */
  lemma ByHashLaw(l: seq<NodeInfo>, hash: seq<byte>)
    ensures NoneWithHash(l, hash) ==> FindFirst(l, ByHash(hash)) == None && RemoveFirst(l, ByHash(hash)) == l
    ensures !NoneWithHash(l, hash) ==> exists k: nat ::
                && FirstWithHash(l, hash, k) && FindFirst(l, ByHash(hash)) == Some(l[k])
                && RemoveFirst(l, ByHash(hash)) == l[..k] + l[k + 1..]
  {
    var k := FirstMatch(l, ByHash(hash));
    if k < |l| {
      assert FirstWithHash(l, hash, k);
    }
  }

  /** By address, too. */
  lemma ByAddressLaw(l: seq<NodeInfo>, host: seq<byte>, port: int)
    ensures var key := ByAddress(host, port);
      NoneWithAddress(l, host, port) ==> FindFirst(l, key) == None && RemoveFirst(l, key) == l
    ensures var key := ByAddress(host, port);
      !NoneWithAddress(l, host, port) ==> exists k: nat ::
        && FirstWithAddress(l, host, port, k) && FindFirst(l, key) == Some(l[k])
        && RemoveFirst(l, key) == l[..k] + l[k + 1..]
  {
    var k := FirstMatch(l, ByAddress(host, port));
    if k < |l| {
      assert FirstWithAddress(l, host, port, k);
    }
  }

  /** An add puts a record with these fields in front, unless one with the address is there. */
  lemma AddLaw(l: seq<NodeInfo>, host: seq<byte>, port: int, hash: seq<byte>)
    requires IsCString(host)
    ensures !NoneWithAddress(l, host, port) ==> AddFirst(l, host, port, hash) == l
    ensures NoneWithAddress(l, host, port) ==>
              var l' := AddFirst(l, host, port, hash);
              && |l'| == |l| + 1 && l'[1..] == l
              && |l'[0].host| == 46 && CString(l'[0].host) == (if |host| < 46 then host else host[..45])
              && l'[0].port == port && l'[0].hash == hash
  {
    ByAddressLaw(l, host, port);
    CStringOfCString(host);
    HostBufferReadsAs(host);
  }

  /** What was added is found: by its hash, and by its address if the host fits. */
  lemma FindAfterAdd(l: seq<NodeInfo>, host: seq<byte>, port: int, hash: seq<byte>)
    requires IsCString(host) && NoneWithAddress(l, host, port)
    ensures var l' := AddFirst(l, host, port, hash);
      && FindFirst(l', ByHash(hash)) == Some(l'[0])
      && (FindFirst(l', ByAddress(host, port)) == Some(l'[0]) <==> |host| < 46)
  {
    AddLaw(l, host, port, hash);
    var l' := AddFirst(l, host, port, hash);
    assert forall i :: 0 < i < |l'| ==> l'[i] == l[i - 1];
    ByHashLaw(l', hash);
    ByAddressLaw(l', host, port);
  }

  // ----- host buffers -----

  lemma {:induction false} CStringOfPadded(s: seq<byte>, k: nat)
    requires IsCString(s)
    ensures CString(s + Zeros(k)) == s
  {
    if s == [] {
      assert s + Zeros(k) == Zeros(k);
    } else {
      CStringOfPadded(s[1..], k);
      assert (s + Zeros(k))[1..] == s[1..] + Zeros(k);
    }
  }

  /** Nothing behind the first NUL counts. */
  lemma {:induction false} CStringStops(s: seq<byte>, rest: seq<byte>)
    requires IsCString(s)
    ensures CString(s + [0] + rest) == s
  {
    if s != [] {
      CStringStops(s[1..], rest);
      assert (s + [0] + rest)[1..] == s[1..] + [0] + rest;
    }
  }

  lemma CStringOfCString(s: seq<byte>)
    requires IsCString(s)
    ensures CString(s) == s
  {
    CStringOfPadded(s, 0);
    assert s + Zeros(0) == s;
  }

  lemma {:induction false} CStringIsCString(buf: seq<byte>)
    ensures IsCString(CString(buf)) && |CString(buf)| <= |buf|
  {
    if buf != [] && buf[0] != 0 {
      CStringIsCString(buf[1..]);
    }
  }

  lemma HostBufferReadsAs(host: seq<byte>)
    ensures CString(HostBuffer(host)) == Cut(CString(host))
  {
    CStringIsCString(host);
    var cut := Cut(CString(host));
    CStringOfPadded(cut, MAX_HOST_LEN - |cut|);
  }

  /** The buffer a host leaves behind is the buffer its own contents would leave. */
  ghost predicate Canonical(info: NodeInfo) {
    info.host == HostBuffer(info.host) && |info.hash| == HASH_SIZE && -0x8000_0000 <= info.port < 0x8000_0000
  }

  lemma MadeIsCanonical(host: seq<byte>, port: int, hash: seq<byte>)
    requires |hash| == HASH_SIZE && -0x8000_0000 <= port < 0x8000_0000
    ensures Canonical(MakeInfo(host, port, hash))
  {
    HostBufferReadsAs(host);
  }

  /** Every record canonical; the sizes are repeated so that they need no look inside a record. */
  ghost predicate AllCanonical(l: seq<NodeInfo>) {
    && (forall i {:trigger Canonical(l[i])} :: 0 <= i < |l| ==> Canonical(l[i]))
    && (forall i :: 0 <= i < |l| ==> |l[i].host| == MAX_HOST_LEN && |l[i].hash| == HASH_SIZE)
  }

  lemma RemoveKeepsCanonical(l: seq<NodeInfo>, k: nat)
    requires AllCanonical(l) && k < |l|
    ensures AllCanonical(RemoveAt(l, k))
  {
    var r := RemoveAt(l, k);
    forall i | 0 <= i < |r|
      ensures Canonical(r[i])
    {
      assert Canonical(l[if i < k then i else i + 1]);
    }
  }

  lemma PushKeepsCanonical(l: seq<NodeInfo>, info: NodeInfo)
    requires AllCanonical(l) && Canonical(info)
    ensures AllCanonical([info] + l)
  {
    forall i | 0 < i < |l| + 1
      ensures Canonical(([info] + l)[i])
    {
      assert Canonical(l[i - 1]);
    }
  }

  // ----- uniqueness -----

  function Address(info: NodeInfo): Key {
    ByAddress(CString(info.host), info.port)
  }

  ghost predicate UniqueAddresses(l: seq<NodeInfo>) {
    forall i, j :: 0 <= i < j < |l| ==> Address(l[i]) != Address(l[j])
  }

  /** The duplicate test compares the whole host with stored hosts of at most 45 bytes. An add keeps
      addresses unique exactly when the host fits or its first 45 bytes are not there already. */
  lemma AddKeepsUnique(l: seq<NodeInfo>, host: seq<byte>, port: int, hash: seq<byte>)
    requires UniqueAddresses(l) && IsCString(host)
    requires AllCanonical(l)
    ensures UniqueAddresses(AddFirst(l, host, port, hash)) <==>
            |host| < MAX_HOST_LEN || FirstMatch(l, ByAddress(Cut(host), port)) == |l|
  {
    CStringOfCString(host);
    HostBufferReadsAs(host);
    var k := FirstMatch(l, ByAddress(host, port));
    if k < |l| {
      assert Canonical(l[k]);
      StoredHostFits(l[k]);
    } else {
      UniqueCons(MakeInfo(host, port, hash), l);
    }
  }

  lemma UniqueCons(info: NodeInfo, l: seq<NodeInfo>)
    requires UniqueAddresses(l)
    ensures UniqueAddresses([info] + l) <==> FirstMatch(l, Address(info)) == |l|
  {
    var j, added := FirstMatch(l, Address(info)), [info] + l;
    if j < |l| {
      assert Address(added[0]) == Address(added[1 + j]);
    } else {
      forall i | 0 <= i < |l|
        ensures Address(info) != Address(l[i])
      {
        assert !Matches(l[i], Address(info));
      }
    }
  }

  lemma StoredHostFits(info: NodeInfo)
    requires Canonical(info)
    ensures |CString(info.host)| < MAX_HOST_LEN
  {
    HostBufferReadsAs(info.host);
  }

  /** Two adds of one 46-byte host leave two records for one address. */
  lemma LongHostTwice(hash: seq<byte>)
    requires |hash| == HASH_SIZE
    ensures var host := seq(46, i => 97 as byte);
            !UniqueAddresses(AddFirst(AddFirst([], host, 1998, hash), host, 1998, hash))
  {
    var host := seq(46, i => 97 as byte);
    var once := AddFirst([], host, 1998, hash);
    CStringOfCString(host);
    HostBufferReadsAs(host);
    var info := MakeInfo(host, 1998, hash);
    assert once == [info] + [];
    MadeIsCanonical(host, 1998, hash);
    AddKeepsUnique(once, host, 1998, hash);
    assert Matches(once[0], ByAddress(Cut(host), 1998));
  }

  lemma RemoveKeepsUnique(l: seq<NodeInfo>, key: Key)
    requires UniqueAddresses(l)
    ensures UniqueAddresses(RemoveFirst(l, key))
  {
  }

  // ----- any number of operations -----

  datatype Op =
    | Add(host: seq<byte>, port: int, hash: seq<byte>)
    | Remove(key: Key)
  {
    /** Arguments as the C types have them. */
    ghost predicate Valid() {
      Add? ==> IsCString(host) && |hash| == HASH_SIZE && -0x8000_0000 <= port < 0x8000_0000
    }
  }

  /** A record and the number of the operation that added it. */
  datatype Stamped = Stamped(info: NodeInfo, time: nat)

  /** The table after `ops`, with how many adds and removes took effect. */
  datatype History = History(live: seq<Stamped>, adds: nat, removes: nat)

  function Infos(live: seq<Stamped>): (l: seq<NodeInfo>)
    ensures |l| == |live|
    ensures forall i :: 0 <= i < |live| ==> l[i] == live[i].info
  {
    seq(|live|, i requires 0 <= i < |live| => live[i].info)
  }

  function Perform(h: History, op: Op, time: nat): History {
    match op
    case Add(host, port, hash) =>
      if FirstMatch(Infos(h.live), ByAddress(host, port)) < |h.live| then h
      else History([Stamped(MakeInfo(host, port, hash), time)] + h.live, h.adds + 1, h.removes)
    case Remove(key) =>
      var k := FirstMatch(Infos(h.live), key);
      if k < |h.live| then History(RemoveAt(h.live, k), h.adds, h.removes + 1) else h
  }

  function PerformAll(ops: seq<Op>): History {
    if ops == [] then History([], 0, 0)
    else Perform(PerformAll(ops[..|ops| - 1]), ops[|ops| - 1], |ops| - 1)
  }

  /** Stamps aside, an operation is what the table methods do to their list. */
  lemma PerformIsList(h: History, op: Op, time: nat)
    ensures Infos(Perform(h, op, time).live) ==
            match op
            case Add(host, port, hash) => AddFirst(Infos(h.live), host, port, hash)
            case Remove(key) => RemoveFirst(Infos(h.live), key)
  {
  }

  predicate MadeBy(info: NodeInfo, op: Op) {
    op.Add? && info == MakeInfo(op.host, op.port, op.hash)
  }

  ghost predicate NewestFirst(live: seq<Stamped>) {
    forall i, j :: 0 <= i < j < |live| ==> live[i].time > live[j].time
  }

  /** Newest first, each record made by the add its stamp names. */
  ghost predicate Recent(live: seq<Stamped>, ops: seq<Op>) {
    && NewestFirst(live)
    && (forall i :: 0 <= i < |live| ==> live[i].time < |ops| && MadeBy(live[i].info, ops[live[i].time]))
  }

  ghost predicate Settled(h: History, ops: seq<Op>) {
    && Recent(h.live, ops)
    && |h.live| + h.removes == h.adds
    && AllCanonical(Infos(h.live))
  }

  lemma RecentLater(live: seq<Stamped>, ops: seq<Op>, op: Op)
    requires Recent(live, ops)
    ensures Recent(live, ops + [op])
  {
  }

  lemma RecentWithout(live: seq<Stamped>, ops: seq<Op>, k: nat)
    requires Recent(live, ops) && k < |live|
    ensures Recent(RemoveAt(live, k), ops)
  {
  }

  lemma PerformKeeps(h: History, ops: seq<Op>, op: Op)
    requires Settled(h, ops) && op.Valid()
    ensures Settled(Perform(h, op, |ops|), ops + [op])
  {
    RecentLater(h.live, ops, op);
    PerformIsList(h, op, |ops|);
    match op {
      case Add(host, port, hash) =>
        MadeIsCanonical(host, port, hash);
        PushKeepsCanonical(Infos(h.live), MakeInfo(host, port, hash));
        AddedIsRecent(h.live, ops, op);
      case Remove(key) =>
        RemoveKeeps(h, ops + [op], key);
    }
  }

  lemma RemoveKeeps(h: History, ops: seq<Op>, key: Key)
    requires Settled(h, ops)
    ensures Settled(Perform(h, Remove(key), 0), ops)
  {
    var k := FirstMatch(Infos(h.live), key);
    if k < |h.live| {
      RecentWithout(h.live, ops, k);
      RemoveKeepsCanonical(Infos(h.live), k);
      PerformIsList(h, Remove(key), 0);
    }
  }

  lemma AddedIsRecent(live: seq<Stamped>, ops: seq<Op>, op: Op)
    requires Recent(live, ops) && op.Add?
    ensures Recent([Stamped(MakeInfo(op.host, op.port, op.hash), |ops|)] + live, ops + [op])
  {
  }

  /** After any operations: the size is the adds minus the removes that took effect, and records are
      canonical and stand newest first. */
  lemma {:induction false} AnyOperations(ops: seq<Op>)
    requires forall i :: 0 <= i < |ops| ==> ops[i].Valid()
    ensures Settled(PerformAll(ops), ops)
  {
    if ops != [] {
      var init, op := ops[..|ops| - 1], ops[|ops| - 1];
      AnyOperations(init);
      assert ops == init + [op];
      PerformKeeps(PerformAll(init), init, op);
    }
  }

  /** After any operations with hosts that fit, addresses are unique. */
  lemma {:induction false} AnyOperationsUnique(ops: seq<Op>)
    requires forall i :: 0 <= i < |ops| ==> ops[i].Valid()
    requires forall i :: 0 <= i < |ops| && ops[i].Add? ==> |ops[i].host| < MAX_HOST_LEN
    ensures UniqueAddresses(Infos(PerformAll(ops).live))
  {
    if ops != [] {
      var init, op := ops[..|ops| - 1], ops[|ops| - 1];
      AnyOperationsUnique(init);
      AnyOperationsCanonical(init);
      PerformUnique(PerformAll(init), op, |init|);
    }
  }

  lemma AnyOperationsCanonical(ops: seq<Op>)
    requires forall i :: 0 <= i < |ops| ==> ops[i].Valid()
    ensures AllCanonical(Infos(PerformAll(ops).live))
  {
    AnyOperations(ops);
  }

  lemma PerformUnique(h: History, op: Op, time: nat)
    requires UniqueAddresses(Infos(h.live)) && AllCanonical(Infos(h.live))
    requires op.Valid() && (op.Add? ==> |op.host| < MAX_HOST_LEN)
    ensures UniqueAddresses(Infos(Perform(h, op, time).live))
  {
    PerformIsList(h, op, time);
    match op {
      case Add(host, port, hash) => AddKeepsUnique(Infos(h.live), host, port, hash);
      case Remove(key) => RemoveKeepsUnique(Infos(h.live), key);
    }
  }

  /** Of the live records with a hash, or with an address, the most recently added comes first: that is the
      one a find gives and a remove takes out. */
  lemma FirstIsNewest(ops: seq<Op>, hash: seq<byte>, host: seq<byte>, port: int, k: nat, i: nat)
    requires forall j :: 0 <= j < |ops| ==> ops[j].Valid()
    requires var live := PerformAll(ops).live; i < |live| && k < |live|
    ensures var live := PerformAll(ops).live; var l := Infos(live);
      FirstWithHash(l, hash, k) && l[i].hash == hash ==> live[i].time <= live[k].time
    ensures var live := PerformAll(ops).live; var l := Infos(live);
      FirstWithAddress(l, host, port, k) && CString(l[i].host) == host && l[i].port == port ==>
        live[i].time <= live[k].time
  {
    AnyOperations(ops);
    EarlierIsNewer(PerformAll(ops).live, k, i);
  }

  lemma EarlierIsNewer(live: seq<Stamped>, k: nat, i: nat)
    requires NewestFirst(live) && i < |live| && k < |live|
    ensures k <= i ==> live[i].time <= live[k].time
  {
  }
}
