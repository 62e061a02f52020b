/** The peer table of `src/node/lookup_table.c` on the heap, proved against `PeerList` and `PeerCodec`. */
module LookupTables {
  import opened Bytes
  import opened Options
  import opened PeerList
  import opened PeerCodec

  class TableNode {
    const info: NodeInfo
    var next: TableNode?

    /** `create_node`. */
    constructor (host: seq<byte>, port: int, hash: seq<byte>)
      requires |hash| == HASH_SIZE && -0x8000_0000 <= port < 0x8000_0000
      ensures info == MakeInfo(host, port, hash) && Canonical(info) && next == null
    {
      var buffer := CopyHost(host);
      info := NodeInfo(buffer, port, hash);
      next := null;
      MadeIsCanonical(host, port, hash);
    }
  }

  /** `strncpy` of 45 bytes, which fills up with zeros, and the terminator. */
  method CopyHost(host: seq<byte>) returns (buffer: seq<byte>)
    ensures buffer == HostBuffer(host) && CString(buffer) == Cut(CString(host))
  {
    var dest := new byte[MAX_HOST_LEN];
    var i := 0;
    while i < MAX_HOST_LEN - 1 && i < |host| && host[i] != 0
      invariant i <= MAX_HOST_LEN - 1 && i <= |host|
      invariant forall k :: 0 <= k < i ==> dest[k] == host[k] != 0
    {
      dest[i] := host[i];
      i := i + 1;
    }
    ghost var n := i;
    while i < MAX_HOST_LEN - 1
      invariant n <= i <= MAX_HOST_LEN - 1
      invariant forall k :: 0 <= k < n ==> dest[k] == host[k]
      invariant forall k :: n <= k < i ==> dest[k] == 0
    {
      dest[i] := 0;
      i := i + 1;
    }
    dest[MAX_HOST_LEN - 1] := 0;
    CutIs(host, n);
    buffer := dest[..];
    assert buffer == host[..n] + Zeros(MAX_HOST_LEN - n);
    HostBufferReadsAs(host);
  }

  lemma CutIs(host: seq<byte>, n: nat)
    requires n <= |host| && n < MAX_HOST_LEN && forall k :: 0 <= k < n ==> host[k] != 0
    requires n == MAX_HOST_LEN - 1 || n == |host| || host[n] == 0
    ensures Cut(CString(host)) == host[..n]
  {
    CStringFrom(host, n);
    assert host[..n] + CString(host[n..]) == CString(host);
  }

  lemma {:induction false} CStringFrom(s: seq<byte>, n: nat)
    requires n <= |s| && forall k :: 0 <= k < n ==> s[k] != 0
    ensures CString(s) == s[..n] + CString(s[n..])
  {
    if n == 0 {
      assert s[0..] == s;
    } else {
      CStringFrom(s[1..], n - 1);
      CutFirst(s, n);
      assert CString(s) == [s[0]] + (s[1..][..n - 1] + CString(s[n..]));
    }
  }

  lemma CutFirst(s: seq<byte>, n: nat)
    requires 0 < n <= |s|
    ensures s[1..][n - 1..] == s[n..] && s[..n] == [s[0]] + s[1..][..n - 1]
  {
  }

  /** `nodes` is what one meets from `head` along the `next` fields, up to null. */
  ghost predicate Linked(head: TableNode?, nodes: seq<TableNode>)
    reads nodes
  {
    && head == (if nodes == [] then null else nodes[0])
    && forall i {:trigger nodes[i].next} ::
         0 <= i < |nodes| ==> nodes[i].next == if i + 1 < |nodes| then nodes[i + 1] else null
  }

  ghost predicate Distinct(nodes: seq<TableNode>) {
    forall i, j :: 0 <= i < j < |nodes| ==> nodes[i] != nodes[j]
  }

  ghost function InfosOf(nodes: seq<TableNode>): (l: seq<NodeInfo>)
    ensures |l| == |nodes|
    ensures forall i :: 0 <= i < |nodes| ==> l[i] == nodes[i].info
  {
    seq(|nodes|, i requires 0 <= i < |nodes| => nodes[i].info)
  }

  /** How a call that takes the mutex ends: `Blocked` is a thread waiting for itself. */
  datatype Outcome = Blocked | Returned(code: int)

  class LookupTable {
    var head: TableNode?
    var size: nat

    /** The mutex: whether its owner may lock it again, and how often it is locked. */
    const recursive: bool
    var held: nat

    ghost var nodes: seq<TableNode>

    ghost predicate Shape()
      reads this, nodes
    {
      size == |nodes| && Linked(head, nodes) && Distinct(nodes)
    }

    ghost predicate Valid()
      reads this, nodes
    {
      Shape() && AllCanonical(InfosOf(nodes))
    }

    ghost function List(): seq<NodeInfo>
      reads this
    {
      InfosOf(nodes)
    }

    /** `lookup_table_create`. */
    constructor (recursive: bool)
      ensures Valid() && List() == [] && nodes == []
      ensures held == 0 && this.recursive == recursive
    {
      head, size, nodes, held := null, 0, [], 0;
      this.recursive := recursive;
    }

    /** `lookup_table_find` and `lookup_table_find_by_hash`. */
    method Find(key: Key) returns (result: Option<NodeInfo>)
      requires Valid()
      ensures result == FindFirst(List(), key)
    {
      var current := head;
      ghost var k := 0;
      while current != null
        invariant k <= |nodes| && current == if k < |nodes| then nodes[k] else null
        invariant forall i :: 0 <= i < k ==> !Matches(nodes[i].info, key)
        decreases |nodes| - k
      {
        if Matches(current.info, key) {
          FirstMatchIs(List(), key, k);
          return Some(current.info);
        }
        current, k := current.next, k + 1;
      }
      FirstMatchIs(List(), key, k);
      return None;
    }

    /** `lookup_table_add`: 0 when the address is there already, 1 when it was added. */
    method Add(host: seq<byte>, port: int, hash: seq<byte>) returns (code: int)
      requires Valid() && IsCString(host) && |hash| == HASH_SIZE && -0x8000_0000 <= port < 0x8000_0000
      modifies this
      ensures Valid() && held == old(held)
      ensures List() == AddFirst(old(List()), host, port, hash)
      ensures code == if List() == old(List()) then 0 else 1
      ensures size == old(size) + code
      ensures forall n :: n in nodes ==> n in old(nodes) || fresh(n)
    {
      var there := Find(ByAddress(host, port));
      if there.Some? {
        return 0;
      }
      var node := new TableNode(host, port, hash);
      MadeIsCanonical(host, port, hash);
      Push(node);
      return 1;
    }

    method Push(node: TableNode)
      requires Valid() && node !in nodes && Canonical(node.info)
      modifies this, node
      ensures Valid() && nodes == [node] + old(nodes) && held == old(held)
      ensures List() == [node.info] + old(List())
    {
      node.next := head;
      head := node;
      size := size + 1;
      nodes := [node] + nodes;
      assert List() == [node.info] + old(List());
      PushKeepsCanonical(old(List()), node.info);
    }

    /** `lookup_table_remove` and `lookup_table_remove_by_hash`. */
    method Remove(key: Key) returns (removed: bool)
      requires Valid()
      modifies this, nodes
      ensures Valid() && held == old(held)
      ensures List() == RemoveFirst(old(List()), key)
      ensures removed <==> FirstMatch(old(List()), key) < |old(List())|
      ensures size == old(size) - if removed then 1 else 0
      ensures forall n :: n in nodes ==> n in old(nodes)
    {
      var prev, current := Locate(key);
      removed := current != null;
      if removed {
        ghost var k := FirstMatch(List(), key);
        Unlink(prev, current, k);
        assert List() == RemoveAt(old(List()), k);
        RemoveKeepsCanonical(old(List()), k);
      }
    }

    /** The walk of both removals: the first match and the node before it. */
    method Locate(key: Key) returns (prev: TableNode?, current: TableNode?)
      requires Valid()
      ensures var k := FirstMatch(List(), key);
        && current == (if k < |nodes| then nodes[k] else null)
        && prev == if k == 0 then null else nodes[k - 1]
    {
      current, prev := head, null;
      ghost var k := 0;
      while current != null && !Matches(current.info, key)
        invariant k <= |nodes| && current == if k < |nodes| then nodes[k] else null
        invariant prev == if k == 0 then null else nodes[k - 1]
        invariant forall i :: 0 <= i < k ==> !Matches(nodes[i].info, key)
        decreases |nodes| - k
      {
        prev, current, k := current, current.next, k + 1;
      }
      FirstMatchIs(List(), key, k);
    }

    method Unlink(prev: TableNode?, current: TableNode, ghost k: nat)
      requires Shape() && k < |nodes| && current == nodes[k]
      requires prev == if k == 0 then null else nodes[k - 1]
      modifies this, nodes
      ensures Shape() && held == old(held)
      ensures nodes == RemoveAt(old(nodes), k) && size == old(size) - 1
    {
      assert current.next == if k + 1 < |nodes| then nodes[k + 1] else null;
      if prev != null {
        prev.next := current.next;
      } else {
        head := current.next;
      }
      size := size - 1;
      nodes := RemoveAt(nodes, k);
    }

    // ----- serialization -----

    /** `lookup_table_serialized_size`, unless the caller already holds a mutex that is not recursive. */
    method SerializedSize() returns (result: Option<nat>)
      requires Valid()
      ensures result == if held > 0 && !recursive then None else Some(ExpectedSize(|List()|))
    {
      if held > 0 && !recursive {
        return None;
      }
      result := Some((COUNT_SIZE + size * RECORD_SIZE) % TWO64);
    }

    /** `lookup_table_serialize`. It asks for the size while it holds the mutex, so with the default
        mutex it never returns. */
    method Serialize(buffer: array<byte>) returns (outcome: Outcome)
      requires Valid() && held == 0
      requires COUNT_SIZE + RECORD_SIZE * |List()| < TWO64
      modifies this`held, buffer
      ensures Valid() && nodes == old(nodes)
      ensures held == if recursive then 0 else 1
      ensures outcome == if !recursive then Blocked
                         else if buffer.Length < |EncodeTable(List())| then Returned(-1)
                         else Returned(0)
      ensures buffer[..] == if outcome == Returned(0)
                            then EncodeTable(List()) + old(buffer[..])[|EncodeTable(List())|..]
                            else old(buffer[..])
    {
      held := 1;
      var required := SerializedSize();
      if required.None? {
        return Blocked;
      }
      var code := Fill(buffer, required.value);
      held := 0;
      return Returned(code);
    }

    method Fill(buffer: array<byte>, required: nat) returns (code: int)
      requires Valid() && required == |EncodeTable(List())|
      modifies buffer
      ensures code == if buffer.Length < required then -1 else 0
      ensures code == 0 ==> buffer[..] == EncodeTable(List()) + old(buffer[..])[required..]
      ensures code != 0 ==> buffer[..] == old(buffer[..])
    {
      if buffer.Length < required {
        return -1;
      }
      WriteTable(buffer);
      return 0;
    }

    method WriteTable(buffer: array<byte>)
      requires Valid() && |EncodeTable(List())| <= buffer.Length
      modifies buffer
      ensures buffer[..] == EncodeTable(List()) + old(buffer[..])[|EncodeTable(List())|..]
    {
      ghost var before, count := buffer[..], LittleEndian(size, COUNT_SIZE);
      var offset := Append(buffer, 0, LittleEndian(size, COUNT_SIZE));
      assert buffer[..offset] == count;
      offset := WriteRecords(buffer, offset);
      Rejoin(buffer[..], count + EncodeAll(List()), before);
    }

    method WriteRecords(buffer: array<byte>, start: nat) returns (offset: nat)
      requires Valid() && start + RECORD_SIZE * |nodes| <= buffer.Length
      modifies buffer
      ensures offset == start + RECORD_SIZE * |nodes|
      ensures buffer[..offset] == old(buffer[..start]) + EncodeAll(List())
      ensures forall k :: offset <= k < buffer.Length ==> buffer[k] == old(buffer[k])
    {
      offset := start;
      var current := head;
      ghost var k := 0;
      while current != null
        invariant k <= |nodes| && current == if k < |nodes| then nodes[k] else null
        invariant offset == start + RECORD_SIZE * k
        invariant buffer[..offset] == old(buffer[..start]) + EncodeAll(List()[..k])
        invariant forall j :: offset <= j < buffer.Length ==> buffer[j] == old(buffer[j])
        decreases |nodes| - k
      {
        ghost var written := buffer[..offset];
        offset := WriteRecord(buffer, offset, current.info);
        OneMoreRecord(old(buffer[..start]), List(), k, written, buffer[..offset]);
        current, k := current.next, k + 1;
      }
      assert List()[..k] == List();
    }
  }

  lemma OneMoreRecord(before: seq<byte>, l: seq<NodeInfo>, k: nat, s: seq<byte>, s': seq<byte>)
    requires Sized(l) && k < |l| && s == before + EncodeAll(l[..k]) && s' == s + EncodeInfo(l[k])
    ensures s' == before + EncodeAll(l[..k + 1])
  {
    EncodeNext(l, k);
  }

  lemma Rejoin(after: seq<byte>, head: seq<byte>, before: seq<byte>)
    requires |head| <= |after| == |before| && after[..|head|] == head
    requires forall k :: |head| <= k < |after| ==> after[k] == before[k]
    ensures after == head + before[|head|..]
  {
    assert after == after[..|head|] + after[|head|..];
  }

  method WriteRecord(buffer: array<byte>, at: nat, info: NodeInfo) returns (offset: nat)
    requires |info.host| == MAX_HOST_LEN && |info.hash| == HASH_SIZE
    requires at + RECORD_SIZE <= buffer.Length
    modifies buffer
    ensures offset == at + RECORD_SIZE
    ensures buffer[..offset] == old(buffer[..at]) + EncodeInfo(info)
    ensures forall k :: offset <= k < buffer.Length ==> buffer[k] == old(buffer[k])
  {
    offset := Append(buffer, at, info.host);
    offset := Append(buffer, offset, PortBytes(info.port));
    offset := Append(buffer, offset, info.hash);
  }

  lemma RecordSlices(data: seq<byte>, offset: nat)
    requires offset + RECORD_SIZE <= |data|
    ensures var s := data[offset..offset + RECORD_SIZE];
      && s[..46] == data[offset..offset + 46]
      && s[46..50] == data[offset + 46..offset + 50]
      && s[50..70] == data[offset + 50..offset + 70]
  {
  }

  method ReadRecord(data: seq<byte>, offset: nat) returns (host: seq<byte>, port: int, hash: seq<byte>)
    requires offset + RECORD_SIZE <= |data|
    ensures MakeInfo(host, port, hash) == DecodeInfo(data[offset..offset + RECORD_SIZE])
    ensures |hash| == HASH_SIZE && -0x8000_0000 <= port < 0x8000_0000
  {
    host := data[offset..offset + 46];
    port := PortOf(data[offset + 46..offset + 50]);
    hash := data[offset + 50..offset + 70];
    RecordSlices(data, offset);
    PortInRange(data[offset + 46..offset + 50]);
  }

  method ReadNode(data: seq<byte>, offset: nat) returns (node: TableNode)
    requires offset + RECORD_SIZE <= |data|
    ensures fresh(node) && node.next == null
    ensures node.info == DecodeInfo(data[offset..offset + RECORD_SIZE]) && Canonical(node.info)
  {
    var host, port, hash := ReadRecord(data, offset);
    node := new TableNode(host, port, hash);
  }

  /** How a deserialization ends: `Outside` is a read past the end of the data. */
  datatype Reading = TooShort | Outside | Complete(table: LookupTable)

  /** `lookup_table_deserialize`. It adds in front without looking for duplicates. */
  method Deserialize(data: seq<byte>, recursive: bool) returns (reading: Reading)
    requires |data| < TWO64
    ensures reading.Outside? <==> !CountFits(data)
    ensures reading.TooShort? <==> CountFits(data) && DecodeTable(data).None?
    ensures reading.Complete? ==> && fresh(reading.table) && reading.table.Valid()
                                  && Some(reading.table.List()) == DecodeTable(data)
  {
    if |data| < COUNT_SIZE {
      return TooShort;
    }
    var table := new LookupTable(recursive);
    var count := FromLittleEndian(data[..COUNT_SIZE]);
    var expected := (COUNT_SIZE + count * RECORD_SIZE) % TWO64;
    if |data| < expected {
      return TooShort;
    }
    var inside := ReadAll(table, data, count);
    reading := if inside then Complete(table) else Outside;
  }

  method ReadNext(table: LookupTable, data: seq<byte>, offset: nat, ghost i: nat)
    requires table.Valid() && offset == COUNT_SIZE + RECORD_SIZE * i && offset + RECORD_SIZE <= |data|
    requires table.List() == DecodeAll(data, i)
    modifies table
    ensures table.Valid() && table.List() == DecodeAll(data, i + 1)
    ensures forall n :: n in table.nodes ==> n in old(table.nodes) || fresh(n)
  {
    var node := ReadNode(data, offset);
    RecordAtOffset(data, offset, i);
    table.Push(node);
    DecodeNext(data, i);
  }

  /** The read loop, up to the first record that is not all in the data. */
  method ReadAll(table: LookupTable, data: seq<byte>, count: nat) returns (inside: bool)
    requires table.Valid() && table.List() == [] && COUNT_SIZE <= |data|
    modifies table
    ensures inside <==> COUNT_SIZE + RECORD_SIZE * count <= |data|
    ensures inside ==> table.Valid() && table.List() == DecodeAll(data, count)
  {
    var offset := COUNT_SIZE;
    for i := 0 to count
      invariant table.Valid() && offset == COUNT_SIZE + RECORD_SIZE * i <= |data|
      invariant table.List() == DecodeAll(data, i)
    {
      if |data| < offset + RECORD_SIZE {
        return false;
      }
      ReadNext(table, data, offset, i);
      offset := offset + RECORD_SIZE;
    }
    return true;
  }

  lemma FirstMatchIs(l: seq<NodeInfo>, key: Key, k: nat)
    requires k <= |l| && forall i :: 0 <= i < k ==> !Matches(l[i], key)
    requires k < |l| ==> Matches(l[k], key)
    ensures FirstMatch(l, key) == k
  {
  }
}
