/** The bucketed key-value store of `src/database/store.c`, on the heap. */
module Store {
  import opened Bytes
  import opened Options
  import opened Buckets
  import opened Chains
  import Sha1
  import Sha1Spec

  class Entry {
    const key: seq<byte>
    const data: seq<byte>
    var next: Entry?

    /** `kv_entry_new`. */
    constructor (key: seq<byte>, data: seq<byte>, next: Entry?)
      ensures this.key == key && this.data == data && this.next == next
    {
      this.key, this.data, this.next := key, data, next;
    }
  }

  ghost function Records(chain: seq<Entry>): (rs: seq<Record>)
    ensures |rs| == |chain|
    ensures forall i :: 0 <= i < |chain| ==> rs[i] == Record(chain[i].key, chain[i].data)
  {
    seq(|chain|, i requires 0 <= i < |chain| => Record(chain[i].key, chain[i].data))
  }

  ghost function Tables(chains: seq<seq<Entry>>): (ts: seq<seq<Record>>)
    ensures |ts| == |chains|
    ensures forall i :: 0 <= i < |chains| ==> ts[i] == Records(chains[i])
  {
    seq(|chains|, i requires 0 <= i < |chains| => Records(chains[i]))
  }

  /** `chain` is what one meets from `head` along the `next` fields, up to null. */
  ghost predicate Linked(head: Entry?, chain: seq<Entry>)
    reads chain
  {
    && head == (if chain == [] then null else chain[0])
    && forall i {:trigger chain[i].next} :: 0 <= i < |chain| ==>
         chain[i].next == if i + 1 < |chain| then chain[i + 1] else null
  }

  /** The chains hold the map `m`, each key once and in its own bucket. */
  ghost predicate Means(chains: seq<seq<Entry>>, m: map<seq<byte>, seq<byte>>) {
    if chains == [] then m == map[]
    else
      && (forall i :: 0 <= i < |chains| ==> ChainOk(Records(chains[i]), i, |chains|))
      && Agree(Tables(chains), m)
  }

  lemma MeansAfterAppend(chains: seq<seq<Entry>>, m: map<seq<byte>, seq<byte>>, entry: Entry)
    requires chains != [] && Means(chains, m) && |entry.key| == 20
    requires var b := BucketOf(entry.key, |chains|); Unseen(Records(chains[b]), entry.key, |chains[b]|)
    ensures var b := BucketOf(entry.key, |chains|);
      Means(chains[b := chains[b] + [entry]], FirstPut(m, entry.key, entry.data))
  {
    var b := BucketOf(entry.key, |chains|);
    var r := Record(entry.key, entry.data);
    AgreeAfterAppend(Tables(chains), m, r);
    ChainOkAppend(Records(chains[b]), r, b, |chains|);
    var chains' := chains[b := chains[b] + [entry]];
    assert Records(chains'[b]) == Records(chains[b]) + [r];
    assert Tables(chains') == Tables(chains)[b := Records(chains'[b])];
  }

  class KvStore {
    const buckets: array<Entry?>
    ghost var chains: seq<seq<Entry>>
    ghost var entries: set<Entry>

    /** The map from digests to data that the store stands for. */
    ghost var contents: map<seq<byte>, seq<byte>>

    ghost predicate Shape()
      reads this, buckets, entries
    {
      && |chains| == buckets.Length
      && (forall i, k :: 0 <= i < |chains| && 0 <= k < |chains[i]| ==> chains[i][k] in entries)
      && (forall i :: 0 <= i < |chains| ==> Linked(buckets[i], chains[i]))
    }

    ghost predicate Valid()
      reads this, buckets, entries
    {
      Shape() && Means(chains, contents)
    }

    /** The last entry of bucket `b` occurs nowhere else, so that a change to it touches nothing else. */
    ghost predicate LastIsAlone(b: nat)
      requires b < |chains|
      reads this
    {
      forall i, k :: 0 <= i < |chains| && 0 <= k < |chains[i]| && (i != b || k + 1 < |chains[b]|) ==>
        chains[b] == [] || chains[i][k] != chains[b][|chains[b]| - 1]
    }

    lemma LastAlone(b: nat)
      requires Valid() && b < |chains|
      ensures LastIsAlone(b)
    {
      forall i, k | 0 <= i < |chains| && 0 <= k < |chains[i]| && (i != b || k + 1 < |chains[b]|)
        ensures chains[b] == [] || chains[i][k] != chains[b][|chains[b]| - 1]
      {
        if chains[b] != [] {
          var last := |chains[b]| - 1;
          assert Records(chains[i])[k].key == chains[i][k].key;
          assert Records(chains[b])[last].key == chains[b][last].key;
        }
      }
    }

    /** `kv_store_new`. A store may have no buckets; but then a put or get divides by zero. */
    constructor (bucketCount: nat)
      ensures Valid() && contents == map[] && buckets.Length == bucketCount
      ensures fresh(buckets) && entries == {}
    {
      buckets := new Entry?[bucketCount](i => null);
      chains := seq(bucketCount, i => []);
      entries, contents := {}, map[];
    }

    /** A new entry at the end of bucket `b`, whose last entry is `last`. */
    method Link(b: nat, last: Entry?, digest: seq<byte>, data: seq<byte>)
      requires Valid() && |digest| == 20 && chains != [] && b == BucketOf(digest, |chains|)
      requires Unseen(Records(chains[b]), digest, |chains[b]|)
      requires last == if chains[b] == [] then null else chains[b][|chains[b]| - 1]
      modifies this, buckets, entries
      ensures Valid() && fresh(entries - old(entries))
      ensures contents == FirstPut(old(contents), digest, data)
    {
      LastAlone(b);
      var entry := new Entry(digest, data, null);
      MeansAfterAppend(chains, contents, entry);
      Attach(b, last, entry);
    }

    method Attach(b: nat, last: Entry?, entry: Entry)
      requires Shape() && b < |chains| && LastIsAlone(b)
      requires last == if chains[b] == [] then null else chains[b][|chains[b]| - 1]
      requires entry !in entries && entry.next == null
      modifies this, buckets, entries
      ensures Shape() && entries == old(entries) + {entry}
      ensures chains == old(chains)[b := old(chains)[b] + [entry]]
      ensures contents == FirstPut(old(contents), entry.key, entry.data)
    {
      if last == null {
        buckets[b] := entry;
      } else {
        last.next := entry;
      }
      chains := chains[b := chains[b] + [entry]];
      entries := entries + {entry};
      contents := FirstPut(contents, entry.key, entry.data);
      forall i | 0 <= i < |chains| && i != b
        ensures Linked(buckets[i], chains[i])
      {
        assert old(Linked(buckets[i], chains[i]));
      }
    }

    method PutDigest(digest: seq<byte>, data: seq<byte>)
      requires Valid() && |digest| == 20 && buckets.Length > 0
      modifies this, buckets, entries
      ensures Valid() && fresh(entries - old(entries))
      ensures contents == FirstPut(old(contents), digest, data)
    {
      var b := BucketIndex(digest, buckets.Length);
      if buckets[b] == null {
        Link(b, null, digest, data);
      } else {
        var found, node := FindOrLast(b, digest);
        assert Tables(chains)[b] == Records(chains[b]);
        if !found {
          Link(b, node, digest, data);
        }
      }
    }

    /** The walk of a put stops at the key, or else at the last entry. */
    method FindOrLast(b: nat, digest: seq<byte>) returns (found: bool, node: Entry)
      requires Shape() && b < |chains| && buckets[b] != null
      ensures found ==> Lookup(Records(chains[b]), digest).Some?
      ensures !found ==> && chains[b] != [] && node == chains[b][|chains[b]| - 1]
                         && Unseen(Records(chains[b]), digest, |chains[b]|)
    {
      node := buckets[b];
      ghost var chain, k := chains[b], 0;
      while true
        invariant k < |chain| && node == chain[k]
        invariant Unseen(Records(chain), digest, k)
        decreases |chain| - k
      {
        if digest == node.key {
          LookupAt(Records(chain), digest, k);
          return true, node;
        }
        if node.next == null {
          return false, node;
        }
        node, k := node.next, k + 1;
      }
    }

    method GetDigest(digest: seq<byte>) returns (output: Option<seq<byte>>)
      requires Valid() && |digest| == 20 && buckets.Length > 0
      ensures output == MapGet(contents, digest)
    {
      var b := BucketIndex(digest, buckets.Length);
      output := Search(b, digest);
      assert Tables(chains)[b] == Records(chains[b]);
    }

    /** The walk along a chain finds its first record with the key. */
    method Search(b: nat, digest: seq<byte>) returns (output: Option<seq<byte>>)
      requires Shape() && b < |chains|
      ensures output == Lookup(Records(chains[b]), digest)
    {
      var ent := buckets[b];
      ghost var chain, k := chains[b], 0;
      if ent == null {
        return None;
      }
      while true
        invariant k < |chain| && ent == chain[k]
        invariant Unseen(Records(chain), digest, k)
        decreases |chain| - k
      {
        if ent.key == digest {
          LookupAt(Records(chain), digest, k);
          return Some(ent.data);
        }
        if ent.next == null {
          break;
        }
        ent, k := ent.next, k + 1;
      }
      LookupFrom(Records(chain), digest, k + 1);
      return None;
    }

    /** `kv_store_put`. */
    method Put(key: seq<byte>, data: seq<byte>)
      requires Valid() && buckets.Length > 0
      modifies this, buckets, entries
      ensures Valid() && fresh(entries - old(entries))
      ensures contents == FirstPut(old(contents), KeyDigest(key), data)
      ensures |key| < TWO32 ==>
                var d := Sha1Spec.Digest(key);
                contents == if d in old(contents) then old(contents) else old(contents)[d := data]
    {
      var digest := HashKey(key);
      PutDigest(digest, data);
      DigestOfKey(key);
    }

    /** `kv_store_get`: a copy of the data and its length, or null and 0. */
    method Get(key: seq<byte>) returns (output: Option<seq<byte>>, len: nat)
      requires Valid() && buckets.Length > 0
      ensures output == MapGet(contents, KeyDigest(key))
      ensures |key| < TWO32 ==>
                var d := Sha1Spec.Digest(key);
                output == if d in contents then Some(contents[d]) else None
      ensures len == if output.Some? then |output.value| else 0
    {
      var digest := HashKey(key);
      output := GetDigest(digest);
      DigestOfKey(key);
      len := if output.Some? then |output.value| else 0;
    }
  }

  /** The length argument of `SHA1` has 32 bits, so of a longer key only a prefix is hashed. */
  function KeyDigest(key: seq<byte>): (d: seq<byte>)
    ensures |d| == 20
  {
    Sha1Spec.Digest(key[..|key| % TWO32])
  }

  /** A key that the length argument can measure is hashed whole. */
  lemma DigestOfKey(key: seq<byte>)
    ensures |key| < TWO32 ==> KeyDigest(key) == Sha1Spec.Digest(key)
  {
    KeyPart(key);
  }

  lemma KeyPart(key: seq<byte>)
    ensures |key| < TWO32 ==> key[..|key| % TWO32] == key
  {
    assert |key| < TWO32 ==> |key| % TWO32 == |key|;
  }

  /** Of a longer one the bytes beyond the last multiple of 2^32 count from the front. */
  lemma DigestOfLongKey(key: seq<byte>, n: nat, k: nat)
    requires |key| == k * TWO32 + n && n < TWO32
    ensures KeyDigest(key) == Sha1Spec.Digest(key[..n])
  {
    RestOfLength(|key|, n, k);
  }

  lemma RestOfLength(len: nat, n: nat, k: nat)
    requires len == k * TWO32 + n && n < TWO32
    ensures len % TWO32 == n
  {
  }

  /** So any 2^32 bytes behind a key make another key with its digest. */
  lemma LongKeysCollide(key: seq<byte>, more: seq<byte>)
    requires |key| < TWO32 && |more| == TWO32
    ensures KeyDigest(key + more) == KeyDigest(key)
  {
    DigestOfKey(key);
    DigestOfLongKey(key + more, |key|, 1);
    assert (key + more)[..|key|] == key;
  }

  method HashKey(key: seq<byte>) returns (digest: seq<byte>)
    ensures digest == KeyDigest(key)
    ensures |key| < TWO32 ==> digest == Sha1Spec.Digest(key)
  {
    digest := Sha1.DigestOf(key[..|key| % TWO32]);
    DigestOfKey(key);
  }
}
