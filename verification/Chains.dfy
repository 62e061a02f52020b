/** What a chain of key and data records means, for the store on the heap and for its threads. */
module Chains {
  import opened Bytes
  import opened Options
  import opened Buckets

  datatype Record = Record(key: seq<byte>, data: seq<byte>)

  /** The data of the first record with key `d`. */
  function Lookup(chain: seq<Record>, d: seq<byte>): Option<seq<byte>> {
    if chain == [] then None
    else if chain[0].key == d then Some(chain[0].data)
    else Lookup(chain[1..], d)
  }

  function MapGet(m: map<seq<byte>, seq<byte>>, d: seq<byte>): Option<seq<byte>> {
    if d in m then Some(m[d]) else None
  }

  /** A put under a key that is already there changes nothing. */
  function FirstPut(m: map<seq<byte>, seq<byte>>, d: seq<byte>, data: seq<byte>): map<seq<byte>, seq<byte>> {
    if d in m then m else m[d := data]
  }

  ghost predicate Unseen(chain: seq<Record>, d: seq<byte>, k: nat) {
    k <= |chain| && forall i :: 0 <= i < k ==> chain[i].key != d
  }

  lemma {:induction false} LookupFrom(chain: seq<Record>, d: seq<byte>, k: nat)
    requires Unseen(chain, d, k)
    ensures Lookup(chain, d) == Lookup(chain[k..], d)
  {
    if k == 0 {
      assert chain[0..] == chain;
    } else {
      LookupFrom(chain[1..], d, k - 1);
      assert chain[1..][k - 1..] == chain[k..];
    }
  }

  lemma LookupAt(chain: seq<Record>, d: seq<byte>, k: nat)
    requires Unseen(chain, d, k) && k < |chain| && chain[k].key == d
    ensures Lookup(chain, d) == Some(chain[k].data)
  {
    LookupFrom(chain, d, k);
  }

  lemma {:induction false} LookupAppend(chain: seq<Record>, r: Record, d: seq<byte>)
    ensures Lookup(chain + [r], d) ==
            if Lookup(chain, d).Some? then Lookup(chain, d) else if r.key == d then Some(r.data) else None
  {
    if chain == [] {
      assert (chain + [r])[1..] == [];
    } else {
      LookupAppend(chain[1..], r, d);
      assert (chain + [r])[1..] == chain[1..] + [r];
    }
  }

  /** No key twice, every key in the bucket its digest selects. */
  ghost predicate ChainOk(chain: seq<Record>, bucket: nat, count: nat)
    requires count > 0
  {
    && (forall i :: 0 <= i < |chain| ==> |chain[i].key| == 20 && BucketOf(chain[i].key, count) == bucket)
    && (forall i, j :: 0 <= i < j < |chain| ==> chain[i].key != chain[j].key)
  }

  lemma ChainOkAppend(chain: seq<Record>, r: Record, bucket: nat, count: nat)
    requires count > 0 && ChainOk(chain, bucket, count) && Unseen(chain, r.key, |chain|)
    requires |r.key| == 20 && BucketOf(r.key, count) == bucket
    ensures ChainOk(chain + [r], bucket, count)
  {
  }

  /** The chains together are the map `m`. */
  ghost predicate Agree(chains: seq<seq<Record>>, m: map<seq<byte>, seq<byte>>)
    requires |chains| > 0
  {
    forall d: seq<byte> :: MapGet(m, d) == Lookup(chains[BucketOf(d, |chains|)], d)
  }

  lemma AgreeAfterAppend(chains: seq<seq<Record>>, m: map<seq<byte>, seq<byte>>, r: Record)
    requires |chains| > 0 && Agree(chains, m)
    requires var b := BucketOf(r.key, |chains|); Unseen(chains[b], r.key, |chains[b]|)
    ensures var b := BucketOf(r.key, |chains|); Agree(chains[b := chains[b] + [r]], FirstPut(m, r.key, r.data))
  {
    var b := BucketOf(r.key, |chains|);
    var chains', m' := chains[b := chains[b] + [r]], FirstPut(m, r.key, r.data);
    LookupFrom(chains[b], r.key, |chains[b]|);
    assert MapGet(m, r.key).None?;
    forall d: seq<byte>
      ensures MapGet(m', d) == Lookup(chains'[BucketOf(d, |chains'|)], d)
    {
      assert MapGet(m, d) == Lookup(chains[BucketOf(d, |chains|)], d);
      LookupAppend(chains[b], r, d);
    }
  }
}
