/**
  The S3-compatible object store the file manager talks to, as far as the
  file manager relies on it: named buckets mapping keys to objects, a put
  that overwrites, a get, and a listing that returns the keys under a prefix
  in key order, at most `maxKeys` of them. Any request may also fail in
  transit; that failure is a nondeterministic choice.
*/
module S3 {
  import opened Wrappers
  import Text
  import KeyOrder

  datatype Object = Object(body: seq<byte>, contentType: string)

  /** One entry of a listing: the key and the object's size in bytes. */
  datatype Listed = Listed(key: string, size: int)

  datatype S3Error = NoSuchBucket | NoSuchKey | RequestFailed

  /** The page size of a listing that names none. */
  const DefaultMaxKeys: nat := 1000

  function KeysWithPrefix(objects: map<string, Object>, prefix: string): set<string>
  {
    set k | k in objects && Text.HasPrefix(k, prefix)
  }

  function Take<T>(s: seq<T>, n: nat): (r: seq<T>)
    ensures |r| <= n && |r| <= |s| && r == s[..|r|]
    ensures |r| < n ==> r == s
  {
    if |s| <= n then s else s[..n]
  }

  /** The first `maxKeys` keys under `prefix`, in key order, with their sizes. */
  function Listing(objects: map<string, Object>, prefix: string, maxKeys: nat): (r: seq<Listed>)
    ensures |r| <= maxKeys
    ensures forall i :: 0 <= i < |r| ==>
      r[i].key in objects && Text.HasPrefix(r[i].key, prefix) && r[i].size == |objects[r[i].key].body|
    ensures forall i, j :: 0 <= i < j < |r| ==> KeyOrder.Less(r[i].key, r[j].key)
  {
    var keys := Take(KeyOrder.Sorted(KeysWithPrefix(objects, prefix)), maxKeys);
    seq(|keys|, i requires 0 <= i < |keys| => Listed(keys[i], |objects[keys[i]].body|))
  }

  /**
    A listing skips nothing: every key under the prefix is listed, or the
    page is full and the key comes after its last entry.
  */
  lemma ListingComplete(objects: map<string, Object>, prefix: string, maxKeys: nat, k: string)
    requires maxKeys > 0
    requires k in objects && Text.HasPrefix(k, prefix)
    ensures var r := Listing(objects, prefix, maxKeys);
      (exists i :: 0 <= i < |r| && r[i].key == k) || (|r| == maxKeys && r != [] && KeyOrder.Less(r[|r| - 1].key, k))
  {
    var all := KeyOrder.Sorted(KeysWithPrefix(objects, prefix));
    var keys := Take(all, maxKeys);
    var r := Listing(objects, prefix, maxKeys);
    assert k in KeysWithPrefix(objects, prefix);
    var p :| 0 <= p < |all| && all[p] == k;
    if p < |keys| {
      assert r[p].key == k;
    } else {
      assert |keys| == maxKeys == |r|;
      assert r[|r| - 1].key == keys[|keys| - 1] == all[|keys| - 1];
    }
  }

  /** A listing is empty exactly when the page size is zero or no key lies under the prefix. */
  lemma ListingEmpty(objects: map<string, Object>, prefix: string, maxKeys: nat)
    ensures Listing(objects, prefix, maxKeys) == [] <==> maxKeys == 0 || KeysWithPrefix(objects, prefix) == {}
  {
    var all := KeyOrder.Sorted(KeysWithPrefix(objects, prefix));
    if maxKeys != 0 && KeysWithPrefix(objects, prefix) != {} {
      var k :| k in KeysWithPrefix(objects, prefix);
      assert k in all;
      assert |Listing(objects, prefix, maxKeys)| > 0;
    }
  }

  class Store {
    var buckets: map<string, map<string, Object>>

    constructor (buckets: map<string, map<string, Object>>)
      ensures this.buckets == buckets
    {
      this.buckets := buckets;
    }

    /** `PutObject`: stores the object under the key, replacing any object there, or fails and changes nothing. */
    method PutObject(bucket: string, key: string, obj: Object) returns (err: Option<S3Error>)
      modifies this
      ensures bucket !in old(buckets) ==> err == Some(NoSuchBucket)
      ensures err.None? ==> bucket in old(buckets) && buckets == old(buckets)[bucket := old(buckets)[bucket][key := obj]]
      ensures err.Some? ==> buckets == old(buckets)
    {
      if bucket !in buckets {
        return Some(NoSuchBucket);
      }
      var delivered: bool :| true;
      if delivered {
        buckets := buckets[bucket := buckets[bucket][key := obj]];
        err := None;
      } else {
        err := Some(RequestFailed);
      }
    }

    /** `GetObject`: the object under the key. */
    method GetObject(bucket: string, key: string) returns (r: Result<Object, S3Error>)
      ensures bucket !in buckets ==> r == Err(NoSuchBucket)
      ensures bucket in buckets && key !in buckets[bucket] ==> r == Err(NoSuchKey)
      ensures r.Ok? ==> bucket in buckets && key in buckets[bucket] && r.value == buckets[bucket][key]
    {
      if bucket !in buckets {
        return Err(NoSuchBucket);
      }
      if key !in buckets[bucket] {
        return Err(NoSuchKey);
      }
      var delivered: bool :| true;
      r := if delivered then Ok(buckets[bucket][key]) else Err(RequestFailed);
    }

    /** `ListObjectsV2`: one page of the listing under the prefix. */
    method ListObjectsV2(bucket: string, prefix: string, maxKeys: nat) returns (r: Result<seq<Listed>, S3Error>)
      ensures bucket !in buckets ==> r == Err(NoSuchBucket)
      ensures r.Ok? ==> bucket in buckets && r.value == Listing(buckets[bucket], prefix, maxKeys)
    {
      if bucket !in buckets {
        return Err(NoSuchBucket);
      }
      var delivered: bool :| true;
      r := if delivered then Ok(Listing(buckets[bucket], prefix, maxKeys)) else Err(RequestFailed);
    }
  }
}
